/// The interpreter object: the hardware components it was given, its own
/// registers (opcode, I, PC, the two timers, the draw and waiting flags)
/// and the keyboard. Every method is proved to change the components
/// exactly as the matching function of `Machine` changes the state.
module Interpreter {
  import opened Bytes
  import opened NibbleHelpers
  import M = Machine
  import MP = MachineProperties
  import Screen
  import MemoryUnit
  import RegisterFile
  import CallStack
  import Chip8Extensions

  class Chip8 {
    const display: Screen.Display
    const registers: RegisterFile.Registers
    const stack: CallStack.Stack
    const memory: MemoryUnit.Memory
    const keyboard: array<bool>

    var opcode: Word
    var index: Word
    var pc: Word
    var delayTimer: Byte
    var soundTimer: Byte
    var drawRequired: bool
    var waitingForInput: bool

    /// Every component has its shape and the components' arrays are
    /// distinct.
    ghost predicate Valid()
      reads this, display, display.cells, stack
    {
      && display.Valid() && registers.Valid() && stack.Valid() && memory.Valid()
      && keyboard.Length == M.KeyboardSize
      && memory.cells != registers.v && memory.cells != display.cells
      && memory.cells as object != stack.entries && registers.v != display.cells
      && registers.v as object != stack.entries && display.cells as object != stack.entries
    }

    /// The state the components hold, as one value.
    ghost function Abs(): M.State
      reads this, display, display.cells, registers.v, stack, stack.entries, memory.cells, keyboard
    {
      M.State(memory.cells[..], registers.v[..], stack.entries[..], stack.sp, display.cells[..],
              keyboard[..], opcode, index, pc, delayTimer, soundTimer, drawRequired, waitingForInput)
    }

    lemma AbsValid()
      requires Valid()
      ensures M.Valid(Abs())
    {
    }

    /// Takes the components and resets the machine. The timer thread the
    /// source starts here is not part of this model.
    constructor (registers: RegisterFile.Registers, stack: CallStack.Stack,
                 memory: MemoryUnit.Memory, display: Screen.Display)
      requires display.Valid() && registers.Valid() && stack.Valid() && memory.Valid()
      requires memory.cells != registers.v && memory.cells != display.cells
      requires memory.cells as object != stack.entries && registers.v != display.cells
      requires registers.v as object != stack.entries && display.cells as object != stack.entries
      modifies registers.v, stack, stack.entries, memory.cells, display
      ensures Valid() && fresh(keyboard)
      ensures Abs() == M.Reset(Abs()) && !drawRequired && !waitingForInput
    {
      this.display := display;
      this.registers := registers;
      this.stack := stack;
      this.memory := memory;
      keyboard := new bool[M.KeyboardSize](_ => false);
      drawRequired := false;
      waitingForInput := false;
      new;
      Reset();
    }

    /// PC at 0x200, everything else cleared, the font loaded; the draw and
    /// waiting flags keep their values.
    method Reset()
      requires Valid()
      modifies this, display, registers.v, stack, stack.entries, memory.cells, keyboard
      ensures Valid()
      ensures Abs() == M.Reset(old(Abs()))
    {
      pc := M.StartInstruction;
      opcode := 0;
      index := 0;
      delayTimer := 0;
      soundTimer := 0;
      display.Clear();
      Chip8Extensions.ClearFlags(keyboard);
      assert keyboard[..] == seq(M.KeyboardSize, _ => false);
      stack.Clear();
      assert stack.entries[..] == seq(M.StackSize, _ => 0);
      registers.Clear();
      assert registers.v[..] == seq(M.RegisterCount, _ => 0);
      memory.Clear();
      LoadFontSet();
    }

    /// Copies the font to addresses 0 .. 79.
    method LoadFontSet()
      requires Valid()
      modifies memory.cells
      ensures Valid()
      ensures memory.cells[..] == M.Copy(old(memory.cells[..]), M.FontSet, 0, 0, |M.FontSet|)
    {
      ghost var before := memory.cells[..];
      for i := 0 to |M.FontSet|
        invariant Valid()
        invariant memory.cells[..] == M.Copy(before, M.FontSet, 0, 0, i)
      {
        var ok := memory.Set(i, M.FontSet[i]);
        assert M.Copy(before, M.FontSet, 0, 0, i)[i := M.FontSet[i]] == M.Copy(before, M.FontSet, 0, 0, i + 1);
      }
    }

    /// One cycle: clear the draw flag; unless waiting for a key, fetch the
    /// instruction at PC and run its handler.
    method Tick(random: Byte) returns (outcome: M.Outcome)
      requires Valid() && M.Runnable(Abs())
      modifies this, display, display.cells, registers.v, stack, stack.entries, memory.cells
      ensures Valid()
      ensures M.Step(Abs(), outcome) == M.Tick(old(Abs()), random)
    {
      drawRequired := false;
      if waitingForInput {
        return M.Ok;
      }
      var first := pc;
      pc := ToWord(pc + 1);
      var high := memory.Get(first);
      if high.None? {
        return M.Failed(M.InvalidAddress);
      }
      var second := pc;
      pc := ToWord(pc + 1);
      var low := memory.Get(second);
      if low.None? {
        return M.Failed(M.InvalidAddress);
      }
      // `high << 8 | low`: the two bytes occupy disjoint bits.
      opcode := high.value as int * 0x100 + low.value;
      var handler := M.GetHandler(opcode);
      ghost var s := old(Abs());
      assert Abs() == s.(drawRequired := false, opcode := M.Fetched(s), pc := s.pc + 2);
      MP.TickRuns(s, random);
      outcome := Run(handler, opcode, random);
    }

    /// `handler(Opcode)`: runs the handler the dictionary gave.
    method Run(h: M.Handler, op: Word, random: Byte) returns (outcome: M.Outcome)
      requires Valid() && M.Key(h) == M.Family(op) && !M.NativeFault(Abs(), op)
      modifies this, display, display.cells, registers.v, stack, stack.entries, memory.cells
      ensures Valid()
      ensures M.Step(Abs(), outcome) == M.Run(h, old(Abs()), op, random)
    {
      outcome := M.Ok;
      match h
      case Handle0MostSignificantNibble => Handle0MostSignificantNibble(op);
      case HandleJump => HandleJump(op);
      case HandleCall => HandleCall(op);
      case HandleSkipEqualConst => HandleSkipEqualConst(op);
      case HandleSkipNotEqualConst => HandleSkipNotEqualConst(op);
      case HandleSkipRegistersEqual => HandleSkipRegistersEqual(op);
      case HandleLoadRegister => HandleLoadRegister(op);
      case HandleAddConstantToRegister => HandleAddConstantToRegister(op);
      case Handle8MostSignificantNibble => outcome := Handle8MostSignificantNibble(op);
      case HandleRegisterSNE => HandleRegisterSNE(op);
      case HandleSetIndexToConstant => HandleSetIndexToConstant(op);
      case HandleJumpToV0WithOffset => HandleJumpToV0WithOffset(op);
      case HandleRandomPlusConst => HandleRandomPlusConst(op, random);
      case HandleDrawSprite => outcome := HandleDrawSprite(op);
      case HandleKeyboardSkip => HandleKeyboardSkip(op);
      case HandleFMostSignificantNibble => outcome := HandleFMostSignificantNibble(op);
    }

    /// Writes the program from 0x200 on.
    method Load(program: seq<Byte>) returns (outcome: M.Outcome)
      requires Valid()
      modifies memory.cells
      ensures Valid()
      ensures M.Step(Abs(), outcome) == M.Load(old(Abs()), program)
    {
      ghost var before := memory.cells[..];
      for i := 0 to |program|
        invariant Valid()
        invariant M.StartInstruction + i <= M.MemorySize
        invariant memory.cells[..] == M.Copy(before, program, M.StartInstruction, 0, i)
      {
        var ok := memory.Set(M.StartInstruction + i, program[i]);
        if !ok {
          return M.Failed(M.InvalidAddress);
        }
        assert M.Copy(before, program, M.StartInstruction, 0, i)[M.StartInstruction + i := program[i]]
            == M.Copy(before, program, M.StartInstruction, 0, i + 1);
      }
      outcome := M.Ok;
    }

    /// One timer period of the delay timer.
    method UpdateDelayTimer()
      modifies this
      ensures Abs() == M.UpdateDelayTimer(old(Abs()))
    {
      if delayTimer <= 0 {
        return;
      }
      delayTimer := delayTimer - 1;
    }

    /// One timer period of the sound timer; `stopSound` stands for the
    /// stop-sound event.
    method UpdateSoundTimer() returns (stopSound: bool)
      modifies this
      ensures M.Step(Abs(), if stopSound then M.StopSound else M.Ok) == M.UpdateSoundTimer(old(Abs()))
    {
      stopSound := false;
      if soundTimer <= 0 {
        return;
      }
      soundTimer := soundTimer - 1;
      if soundTimer < 1 {
        stopSound := true;
      }
    }

    /// Key `i` goes down. A key number outside 0 .. 15 is an array fault in
    /// the source and is excluded.
    method KeyDown(i: int)
      requires Valid() && 0 <= i < M.KeyboardSize
      modifies this, keyboard
      ensures Valid()
      ensures Abs() == M.SetKey(old(Abs()), i, true)
    {
      keyboard[i] := true;
      waitingForInput := false;
    }

    /// Key `i` goes up.
    method KeyUp(i: int)
      requires Valid() && 0 <= i < M.KeyboardSize
      modifies this, keyboard
      ensures Valid()
      ensures Abs() == M.SetKey(old(Abs()), i, false)
    {
      keyboard[i] := false;
      waitingForInput := false;
    }

    // -------------------------------------------------------------------
    // Handlers

    method Handle0MostSignificantNibble(op: Word)
      requires Valid() && M.Family(op) == 0 && !M.NativeFault(Abs(), op)
      modifies this, display, stack
      ensures Valid()
      ensures Abs() == (if M.N(op) == 0xE then M.Return(old(Abs())) else M.ClearScreen(old(Abs())))
    {
      if op % 0x10 == 0xE {
        HandleReturn();
        return;
      }
      HandleClearScreen();
    }

    method HandleClearScreen()
      requires Valid()
      modifies this, display
      ensures Valid()
      ensures Abs() == M.ClearScreen(old(Abs()))
    {
      drawRequired := true;
      display.Clear();
    }

    method HandleReturn()
      requires Valid() && stack.sp >= 0
      modifies this, stack
      ensures Valid()
      ensures Abs() == M.Return(old(Abs()))
    {
      pc := stack.Pop();
    }

    method HandleJump(op: Word)
      modifies this
      ensures Abs() == M.Jump(old(Abs()), op)
    {
      pc := op % 0x1000;
    }

    method HandleCall(op: Word)
      requires Valid() && stack.sp + 1 < CallStack.MaxSize
      modifies this, stack, stack.entries
      ensures Valid()
      ensures Abs() == M.Call(old(Abs()), op)
    {
      stack.Push(pc);
      pc := op % 0x1000;
    }

    method HandleSkipEqualConst(op: Word)
      requires Valid()
      modifies this
      ensures Valid()
      ensures Abs() == M.SkipEqualConst(old(Abs()), op)
    {
      var x := GetNibbleAt(op, 2).value;
      var kk := GetByte(op, Low);
      if registers.v[x] == kk {
        pc := ToWord(pc + M.InstructionSize);
      }
    }

    method HandleSkipNotEqualConst(op: Word)
      requires Valid()
      modifies this
      ensures Valid()
      ensures Abs() == M.SkipNotEqualConst(old(Abs()), op)
    {
      var x := GetNibbleAt(op, 2).value;
      var kk := GetByte(op, Low);
      if registers.v[x] != kk {
        pc := ToWord(pc + M.InstructionSize);
      }
    }

    method HandleSkipRegistersEqual(op: Word)
      requires Valid()
      modifies this
      ensures Valid()
      ensures Abs() == M.SkipRegistersEqual(old(Abs()), op)
    {
      var x := GetNibbleAt(op, 2).value;
      var y := GetNibbleAt(op, 3).value;
      if registers.v[x] == registers.v[y] {
        pc := ToWord(pc + M.InstructionSize);
      }
    }

    method HandleLoadRegister(op: Word)
      requires Valid()
      modifies registers.v
      ensures Valid()
      ensures Abs() == M.LoadRegister(old(Abs()), op)
    {
      var i := op % 0x1000 / 256;
      var value := op % 0x100;
      registers.Set(i, value);
    }

    method HandleAddConstantToRegister(op: Word)
      requires Valid()
      modifies registers.v
      ensures Valid()
      ensures Abs() == M.AddConstantToRegister(old(Abs()), op)
    {
      var x := GetNibbleAt(op, 2).value;
      var kk := GetByte(op, Low);
      registers.Set(x, ToByte(registers.v[x] as int + kk));
    }

    method Handle8MostSignificantNibble(op: Word) returns (outcome: M.Outcome)
      requires Valid()
      modifies registers.v
      ensures Valid()
      ensures M.Step(Abs(), outcome) == M.Handle8(old(Abs()), op)
    {
      var lsb := GetNibbleAt(op, 4).value;
      outcome := M.Ok;
      match lsb
      case 0x0 => HandleLoadVyIntoVx(op);
      case 0x1 => HandleRegisterOr(op);
      case 0x2 => HandleRegisterAnd(op);
      case 0x3 => HandleRegisterXor(op);
      case 0x4 => HandleRegisterAdd(op);
      case 0x5 => HandleRegisterSub(op);
      case 0x6 => HandleRegisterSHR(op);
      case 0x7 => HandleRegisterSUBN(op);
      case 0xE => HandleRegisterSHL(op);
      case _ => outcome := M.Failed(M.NotImplemented);
    }

    method HandleLoadVyIntoVx(op: Word)
      requires Valid()
      modifies registers.v
      ensures Valid()
      ensures Abs() == M.LoadVyIntoVx(old(Abs()), op)
    {
      var x := GetNibbleAt(op, 2).value;
      var y := GetNibbleAt(op, 3).value;
      registers.Set(x, registers.v[y]);
    }

    method HandleRegisterOr(op: Word)
      requires Valid()
      modifies registers.v
      ensures Valid()
      ensures Abs() == M.RegisterOr(old(Abs()), op)
    {
      var x := GetNibbleAt(op, 2).value;
      var y := GetNibbleAt(op, 3).value;
      registers.Set(x, BitOr(registers.v[x], registers.v[y]));
    }

    method HandleRegisterAnd(op: Word)
      requires Valid()
      modifies registers.v
      ensures Valid()
      ensures Abs() == M.RegisterAnd(old(Abs()), op)
    {
      var x := GetNibbleAt(op, 2).value;
      var y := GetNibbleAt(op, 3).value;
      registers.Set(x, BitAnd(registers.v[x], registers.v[y]));
    }

    method HandleRegisterXor(op: Word)
      requires Valid()
      modifies registers.v
      ensures Valid()
      ensures Abs() == M.RegisterXor(old(Abs()), op)
    {
      var x := GetNibbleAt(op, 2).value;
      var y := GetNibbleAt(op, 3).value;
      registers.Set(x, BitXor(registers.v[x], registers.v[y]));
    }

    method HandleRegisterAdd(op: Word)
      requires Valid()
      modifies registers.v
      ensures Valid()
      ensures Abs() == M.RegisterAdd(old(Abs()), op)
    {
      var x := GetNibbleAt(op, 2).value;
      var y := GetNibbleAt(op, 3).value;
      var result := registers.v[x] as int + registers.v[y];
      registers.Set(x, ToByte(result));
      registers.Set(0xF, if result > 255 then 1 else 0);
    }

    method HandleRegisterSub(op: Word)
      requires Valid()
      modifies registers.v
      ensures Valid()
      ensures Abs() == M.RegisterSub(old(Abs()), op)
    {
      var ix := GetNibbleAt(op, 2).value;
      var iy := GetNibbleAt(op, 3).value;
      var x: int := registers.v[ix];
      var y: int := registers.v[iy];
      var result := x - y;
      registers.Set(ix, ToByte(result));
      registers.Set(0xF, if x > y then 1 else 0);
    }

    method HandleRegisterSHR(op: Word)
      requires Valid()
      modifies registers.v
      ensures Valid()
      ensures Abs() == M.RegisterSHR(old(Abs()), op)
    {
      var ix := GetNibbleAt(op, 2).value;
      var x: int := registers.v[ix];
      var result := x / 2;
      registers.Set(ix, ToByte(result));
      registers.Set(0xF, if x % 2 == 1 then 1 else 0);
    }

    method HandleRegisterSUBN(op: Word)
      requires Valid()
      modifies registers.v
      ensures Valid()
      ensures Abs() == M.RegisterSUBN(old(Abs()), op)
    {
      var ix := GetNibbleAt(op, 2).value;
      var iy := GetNibbleAt(op, 3).value;
      var x: int := registers.v[ix];
      var y: int := registers.v[iy];
      var result := y - x;
      registers.Set(ix, ToByte(result));
      registers.Set(0xF, if y > x then 1 else 0);
    }

    method HandleRegisterSHL(op: Word)
      requires Valid()
      modifies registers.v
      ensures Valid()
      ensures Abs() == M.RegisterSHL(old(Abs()), op)
    {
      var ix := GetNibbleAt(op, 2).value;
      var x: int := registers.v[ix];
      var result := x * 2;
      registers.Set(ix, ToByte(result));
      registers.Set(0xF, if x / 0x80 % 2 == 1 then 1 else 0);
    }

    method HandleRegisterSNE(op: Word)
      requires Valid()
      modifies this
      ensures Valid()
      ensures Abs() == M.RegisterSNE(old(Abs()), op)
    {
      var ix := GetNibbleAt(op, 2).value;
      var iy := GetNibbleAt(op, 3).value;
      var x := registers.v[ix];
      var y := registers.v[iy];
      if x != y {
        pc := ToWord(pc + 2);
      }
    }

    method HandleSetIndexToConstant(op: Word)
      modifies this
      ensures Abs() == M.SetIndexToConstant(old(Abs()), op)
    {
      index := op % 0x1000;
    }

    method HandleJumpToV0WithOffset(op: Word)
      requires Valid()
      modifies this
      ensures Valid()
      ensures Abs() == M.JumpToV0WithOffset(old(Abs()), op)
    {
      var offset := op % 0x1000;
      var v0 := registers.v[0];
      var address := ToWord(v0 + offset);
      pc := address;
    }

    method HandleRandomPlusConst(op: Word, random: Byte)
      requires Valid()
      modifies registers.v
      ensures Valid()
      ensures Abs() == M.RandomPlusConst(old(Abs()), op, random)
    {
      var constant := GetByte(op, Low);
      var result := BitAnd(random, constant);
      var ix := GetNibbleAt(op, 2).value;
      registers.Set(ix, result);
    }

    /// Draws the rows one by one; a row address past 4095 throws after
    /// the rows before it were drawn, leaving VF alone.
    method HandleDrawSprite(op: Word) returns (outcome: M.Outcome)
      requires Valid()
      modifies this, display.cells, registers.v
      ensures Valid()
      ensures M.Step(Abs(), outcome) == M.DrawSprite(old(Abs()), op)
    {
      drawRequired := true;
      var ix := GetNibbleAt(op, 2).value;
      var iy := GetNibbleAt(op, 3).value;
      var x := registers.v[ix];
      var y := registers.v[iy];
      var n := GetNibbleAt(op, 4).value;
      var complete, collision := DrawRowsAt(x, y, n);
      if !complete {
        return M.Failed(M.InvalidAddress);
      }
      registers.Set(0xF, if collision then 0x01 else 0x00);
      outcome := M.Ok;
    }

    /// The loop of `HandleDrawSprite`: rows 0 .. n - 1 of the sprite at I,
    /// drawn at (x, y + i); `complete` is false when a row address passed
    /// 4095 and the loop stopped there.
    method DrawRowsAt(x: int, y: int, n: nat) returns (complete: bool, collision: bool)
      requires Valid()
      modifies display.cells
      ensures Valid()
      ensures M.DrawRows(old(display.cells[..]), memory.cells[..], index, x, y, n)
              == M.Rows(display.cells[..], collision, complete)
    {
      ghost var g := display.cells[..];
      collision := false;
      for i := 0 to n
        invariant Valid()
        invariant M.DrawRows(g, memory.cells[..], index, x, y, i) == M.Rows(display.cells[..], collision, true)
      {
        var drawn;
        drawn, collision := DrawRow(g, x, y, i, collision);
        if !drawn {
          MP.DrawRowsStuck(g, memory.cells[..], index, x, y, i + 1, n);
          return false, collision;
        }
      }
      complete := true;
    }

    /// One turn of the sprite loop: `collision | Display.DrawSprite(x, y + i,
    /// memory[I + i])`. The read throws, with nothing drawn, when I + i
    /// passes 4095.
    method DrawRow(ghost g: seq<Byte>, x: int, y: int, i: nat, collision: bool)
      returns (drawn: bool, collision': bool)
      requires Valid() && |g| == Screen.CellCount
      requires M.DrawRows(g, memory.cells[..], index, x, y, i) == M.Rows(display.cells[..], collision, true)
      modifies display.cells
      ensures Valid()
      ensures M.DrawRows(g, memory.cells[..], index, x, y, i + 1)
              == M.Rows(display.cells[..], collision', drawn)
    {
      var sprite := memory.Get(index + i);
      if sprite.None? {
        return false, collision;
      }
      ghost var before := M.Rows(display.cells[..], collision, true);
      var erased := display.DrawSprite(x, y + i, sprite.value);
      MP.DrawRowsNext(g, memory.cells[..], index, x, y, i, before, Screen.Drawn(display.cells[..], erased));
      drawn, collision' := true, collision || erased;
    }

    method HandleKeyboardSkip(op: Word)
      requires Valid() && registers.v[M.X(op)] < M.KeyboardSize
      modifies this
      ensures Valid()
      ensures Abs() == M.KeyboardSkip(old(Abs()), op)
    {
      var lsn := GetNibbleAt(op, 4).value;
      if lsn == 0xE {
        HandleSkipKeyPressed(op);
        return;
      }
      HandleSkipKeyNotPressed(op);
    }

    method HandleSkipKeyPressed(op: Word)
      requires Valid() && registers.v[M.X(op)] < M.KeyboardSize
      modifies this
      ensures Valid()
      ensures Abs() == (if keyboard[registers.v[M.X(op)]] then M.Skip(old(Abs())) else old(Abs()))
    {
      var ix := GetNibbleAt(op, 2).value;
      var key := registers.v[ix];
      if keyboard[key] {
        pc := ToWord(pc + 2);
      }
    }

    method HandleSkipKeyNotPressed(op: Word)
      requires Valid() && registers.v[M.X(op)] < M.KeyboardSize
      modifies this
      ensures Valid()
      ensures Abs() == (if !keyboard[registers.v[M.X(op)]] then M.Skip(old(Abs())) else old(Abs()))
    {
      var ix := GetNibbleAt(op, 2).value;
      var key := registers.v[ix];
      if !keyboard[key] {
        pc := ToWord(pc + 2);
      }
    }

    method HandleFMostSignificantNibble(op: Word) returns (outcome: M.Outcome)
      requires Valid()
      modifies this, registers.v, memory.cells
      ensures Valid()
      ensures M.Step(Abs(), outcome) == M.HandleF(old(Abs()), op)
    {
      var lsb := GetByte(op, Low);
      outcome := M.Ok;
      match lsb
      case 0x07 => HandleSetVxToDt(op);
      case 0x15 => HandleSetDelayTimer(op);
      case 0x18 =>
        var start := HandleSetSoundTimer(op);
        if start {
          outcome := M.StartSound;
        }
      case 0x1E => HandleAddToIndex(op);
      case 0x29 => HandleLoadFontCharOffset(op);
      case 0x33 => outcome := HandleBCDFromRegister(op);
      case 0x55 => outcome := HandleRegDump(op);
      case 0x65 => outcome := HandleRegLoad(op);
      case 0x0A => waitingForInput := true;
      case _ => outcome := M.Failed(M.NotImplemented);
    }

    method HandleLoadFontCharOffset(op: Word)
      requires Valid()
      modifies this
      ensures Valid()
      ensures Abs() == M.LoadFontCharOffset(old(Abs()), op)
    {
      var ix := GetNibbleAt(op, 2).value;
      var x := registers.v[ix];
      if x > 0xF {
        return;
      }
      index := 5 * x;
    }

    method HandleSetVxToDt(op: Word)
      requires Valid()
      modifies registers.v
      ensures Valid()
      ensures Abs() == M.SetV(old(Abs()), M.X(op), delayTimer)
    {
      var ix := GetNibbleAt(op, 2).value;
      registers.Set(ix, delayTimer);
    }

    method HandleRegDump(op: Word) returns (outcome: M.Outcome)
      requires Valid()
      modifies memory.cells
      ensures Valid()
      ensures M.Step(Abs(), outcome) == M.RegDump(old(Abs()), op)
    {
      var ix := GetNibbleAt(op, 2).value;
      ghost var before := memory.cells[..];
      for i := 0 to ix + 1
        invariant Valid() && unchanged(registers.v)
        invariant i > 0 ==> index + i <= M.MemorySize
        invariant memory.cells[..] == M.Copy(before, registers.v[..], index, 0, i)
      {
        var ok := memory.Set(index + i, registers.v[i]);
        if !ok {
          return M.Failed(M.InvalidAddress);
        }
        assert M.Copy(before, registers.v[..], index, 0, i)[index + i := registers.v[i]]
            == M.Copy(before, registers.v[..], index, 0, i + 1);
      }
      outcome := M.Ok;
    }

    method HandleRegLoad(op: Word) returns (outcome: M.Outcome)
      requires Valid()
      modifies registers.v
      ensures Valid()
      ensures M.Step(Abs(), outcome) == M.RegLoad(old(Abs()), op)
    {
      var ix := GetNibbleAt(op, 2).value;
      ghost var before := registers.v[..];
      for i := 0 to ix + 1
        invariant Valid() && unchanged(memory.cells)
        invariant i > 0 ==> index + i <= M.MemorySize
        invariant registers.v[..] == M.Copy(before, memory.cells[..], 0, index, i)
      {
        var b := memory.Get(index + i);
        if b.None? {
          return M.Failed(M.InvalidAddress);
        }
        registers.Set(i, b.value);
        assert M.Copy(before, memory.cells[..], 0, index, i)[i := b.value]
            == M.Copy(before, memory.cells[..], 0, index, i + 1);
      }
      outcome := M.Ok;
    }

    method HandleAddToIndex(op: Word)
      requires Valid()
      modifies this
      ensures Valid()
      ensures Abs() == M.AddToIndex(old(Abs()), op)
    {
      var ix := GetNibbleAt(op, 2).value;
      var value := registers.v[ix];
      index := ToWord(index + value);
    }

    /// Writes the ones digit first, then the tens, then the hundreds.
    method HandleBCDFromRegister(op: Word) returns (outcome: M.Outcome)
      requires Valid()
      modifies memory.cells
      ensures Valid()
      ensures M.Step(Abs(), outcome) == M.BCDFromRegister(old(Abs()), op)
    {
      var ix := GetNibbleAt(op, 2).value;
      var value := registers.v[ix];
      var ok := memory.Set(index + 2, value % 10);
      if !ok {
        return M.Failed(M.InvalidAddress);
      }
      ok := memory.Set(index + 1, value / 10 % 10);
      ok := memory.Set(index + 0, value / 100 % 10);
      outcome := M.Ok;
    }

    method HandleSetDelayTimer(op: Word)
      requires Valid()
      modifies this
      ensures Valid()
      ensures Abs() == old(Abs()).(delay := registers.v[M.X(op)])
    {
      var ix := GetNibbleAt(op, 2).value;
      var value := registers.v[ix];
      delayTimer := value;
    }

    /// `start` stands for the start-sound event.
    method HandleSetSoundTimer(op: Word) returns (start: bool)
      requires Valid()
      modifies this
      ensures Valid()
      ensures M.Step(Abs(), if start then M.StartSound else M.Ok) == M.SetSoundTimer(old(Abs()), op)
    {
      var ix := GetNibbleAt(op, 2).value;
      var value := registers.v[ix];
      soundTimer := value;
      start := soundTimer > 0;
    }
  }
}
