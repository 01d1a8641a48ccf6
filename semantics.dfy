/// The interpreter as a function on values: the whole machine state as one
/// record, one function per instruction handler, and `Tick`, `Reset`,
/// `Load`, the timers and the keys as functions from the old state to the
/// new one. The `Chip8` class is proved to follow these functions step by
/// step; the properties of the instruction set are stated about them.
module Machine {
  import opened Bytes
  import opened NibbleHelpers
  import Screen

  const KeyboardSize: nat := 16
  const StartInstruction: nat := 0x200
  const InstructionSize: nat := 2
  const MemorySize: nat := 4096
  const RegisterCount: nat := 17
  const StackSize: nat := 24
  const Flag: nat := 0xF

  /// Everything the interpreter holds. `index` is the I register; `sp` is
  /// the stack pointer (-1 when the stack is empty) and `stack` the 24
  /// entries it points into; `display` is the frame buffer, row-major.
  datatype State = State(
    memory: seq<Byte>,
    v: seq<Byte>,
    stack: seq<Word>,
    sp: int,
    display: seq<Byte>,
    keyboard: seq<bool>,
    opcode: Word,
    index: Word,
    pc: Word,
    delay: Byte,
    sound: Byte,
    drawRequired: bool,
    waiting: bool)

  /// The shapes the hardware objects give the state.
  ghost predicate Valid(s: State)
  {
    && |s.memory| == MemorySize
    && |s.v| == RegisterCount
    && |s.stack| == StackSize
    && -1 <= s.sp < StackSize
    && Screen.IsGrid(s.display)
    && |s.keyboard| == KeyboardSize
  }

  /// Why an instruction stopped with an exception: a memory address
  /// outside [0, 4095], or a sub-opcode the 8 or F family does not know.
  datatype Fault = InvalidAddress | NotImplemented

  /// What a step tells the host besides the new state: nothing, the
  /// start or the stop of the sound, or an exception.
  datatype Outcome = Ok | StartSound | StopSound | Failed(fault: Fault)

  datatype Step = Step(state: State, outcome: Outcome)

  // ---------------------------------------------------------------------
  // Instruction fields

  /// The handler family: nibble 1, the most significant.
  function Family(op: Word): (r: nat)
    ensures r < 0x10 && r == op / 0x1000
  {
    GetNibbleAt(op, 1).value
  }

  /// The register operand x: nibble 2.
  function X(op: Word): (r: nat)
    ensures r < 0x10 && r == op / 0x100 % 0x10
  {
    GetNibbleAt(op, 2).value
  }

  /// The register operand y: nibble 3.
  function Y(op: Word): (r: nat)
    ensures r < 0x10 && r == op / 0x10 % 0x10
  {
    GetNibbleAt(op, 3).value
  }

  /// The sub-opcode or row count n: nibble 4, the least significant.
  function N(op: Word): (r: nat)
    ensures r < 0x10 && r == op % 0x10
  {
    GetNibbleAt(op, 4).value
  }

  /// The byte operand kk: the low byte.
  function KK(op: Word): (r: Byte)
    ensures r == op % 0x100
  {
    GetByte(op, Low)
  }

  /// The address operand nnn: `op & 0x0FFF`.
  function NNN(op: Word): (r: Word)
    ensures r < 0x1000 && op == 0x1000 * Family(op) + r
  {
    op % 0x1000
  }

  /// `PC += InstructionSize` on the 16-bit program counter.
  function Skip(s: State): State
  {
    s.(pc := ToWord(s.pc + InstructionSize))
  }

  /// Register `x` takes `value`.
  function SetV(s: State, x: nat, value: Byte): State
    requires x < |s.v|
  {
    s.(v := s.v[x := value])
  }

  // ---------------------------------------------------------------------
  // 0, 1, 2: screen, jumps and the stack

  /// 00E0 and every other 0nnN with N != E: clear the screen.
  function ClearScreen(s: State): State
  {
    s.(drawRequired := true, display := Screen.Blank())
  }

  /// 0nnE: pop the return address into PC. Popping an empty stack is an
  /// array fault in the source and is excluded.
  function Return(s: State): State
    requires 0 <= s.sp < |s.stack|
  {
    s.(pc := s.stack[s.sp], sp := s.sp - 1)
  }

  /// 1nnn: jump.
  function Jump(s: State, op: Word): State
  {
    s.(pc := NNN(op))
  }

  /// 2nnn: push PC, then jump. Pushing onto a full stack (sp == 23) is an
  /// array fault in the source and is excluded.
  function Call(s: State, op: Word): State
    requires -1 <= s.sp && s.sp + 1 < |s.stack|
  {
    s.(sp := s.sp + 1, stack := s.stack[s.sp + 1 := s.pc], pc := NNN(op))
  }

  // ---------------------------------------------------------------------
  // 3 to 7, 9, A, B, C: skips, loads and constants

  /// 3xkk: skip if Vx == kk.
  function SkipEqualConst(s: State, op: Word): State
    requires Valid(s)
  {
    if s.v[X(op)] == KK(op) then Skip(s) else s
  }

  /// 4xkk: skip if Vx != kk.
  function SkipNotEqualConst(s: State, op: Word): State
    requires Valid(s)
  {
    if s.v[X(op)] != KK(op) then Skip(s) else s
  }

  /// 5xyN (any N): skip if Vx == Vy.
  function SkipRegistersEqual(s: State, op: Word): State
    requires Valid(s)
  {
    if s.v[X(op)] == s.v[Y(op)] then Skip(s) else s
  }

  /// 6xkk: Vx := kk; the register is `(op & 0x0F00) / 256`.
  function LoadRegister(s: State, op: Word): State
    requires Valid(s)
  {
    SetV(s, op % 0x1000 / 0x100, op % 0x100)
  }

  /// 7xkk: Vx := Vx + kk modulo 256; VF is not touched.
  function AddConstantToRegister(s: State, op: Word): State
    requires Valid(s)
  {
    SetV(s, X(op), ToByte(s.v[X(op)] + KK(op)))
  }

  /// 9xyN (any N): skip if Vx != Vy.
  function RegisterSNE(s: State, op: Word): State
    requires Valid(s)
  {
    if s.v[X(op)] != s.v[Y(op)] then Skip(s) else s
  }

  /// Annn: I := nnn.
  function SetIndexToConstant(s: State, op: Word): State
  {
    s.(index := NNN(op))
  }

  /// Bnnn: PC := V0 + nnn.
  function JumpToV0WithOffset(s: State, op: Word): State
    requires Valid(s)
  {
    s.(pc := ToWord(s.v[0] + NNN(op)))
  }

  /// Cxkk: Vx := random & kk; the random byte is a parameter.
  function RandomPlusConst(s: State, op: Word, random: Byte): State
    requires Valid(s)
  {
    SetV(s, X(op), BitAnd(random, KK(op)))
  }

  // ---------------------------------------------------------------------
  // 8: register arithmetic. Vx is written first and VF second, so when x
  // is F the flag is what remains.

  function LoadVyIntoVx(s: State, op: Word): State
    requires Valid(s)
  {
    SetV(s, X(op), s.v[Y(op)])
  }

  function RegisterOr(s: State, op: Word): State
    requires Valid(s)
  {
    SetV(s, X(op), BitOr(s.v[X(op)], s.v[Y(op)]))
  }

  function RegisterAnd(s: State, op: Word): State
    requires Valid(s)
  {
    SetV(s, X(op), BitAnd(s.v[X(op)], s.v[Y(op)]))
  }

  function RegisterXor(s: State, op: Word): State
    requires Valid(s)
  {
    SetV(s, X(op), BitXor(s.v[X(op)], s.v[Y(op)]))
  }

  /// 8xy4: Vx := Vx + Vy modulo 256, VF := carry.
  function RegisterAdd(s: State, op: Word): State
    requires Valid(s)
  {
    var result := s.v[X(op)] as int + s.v[Y(op)];
    SetV(SetV(s, X(op), ToByte(result)), Flag, if result > 255 then 1 else 0)
  }

  /// 8xy5: Vx := Vx - Vy modulo 256, VF := 1 when Vx > Vy (strictly).
  function RegisterSub(s: State, op: Word): State
    requires Valid(s)
  {
    var x: int, y: int := s.v[X(op)], s.v[Y(op)];
    SetV(SetV(s, X(op), ToByte(x - y)), Flag, if x > y then 1 else 0)
  }

  /// 8xy6: Vx := Vx >> 1, VF := the bit shifted out.
  function RegisterSHR(s: State, op: Word): State
    requires Valid(s)
  {
    var x := s.v[X(op)];
    SetV(SetV(s, X(op), ToByte(x / 2)), Flag, if x % 2 == 1 then 1 else 0)
  }

  /// 8xy7: Vx := Vy - Vx modulo 256, VF := 1 when Vy > Vx (strictly).
  function RegisterSUBN(s: State, op: Word): State
    requires Valid(s)
  {
    var x: int, y: int := s.v[X(op)], s.v[Y(op)];
    SetV(SetV(s, X(op), ToByte(y - x)), Flag, if y > x then 1 else 0)
  }

  /// 8xyE: Vx := Vx << 1 modulo 256, VF := the bit shifted out.
  function RegisterSHL(s: State, op: Word): State
    requires Valid(s)
  {
    var x: int := s.v[X(op)];
    SetV(SetV(s, X(op), ToByte(x * 2)), Flag, if x / 0x80 % 2 == 1 then 1 else 0)
  }

  /// The 8 family, by its last nibble; an unknown one throws and changes
  /// nothing.
  function Handle8(s: State, op: Word): Step
    requires Valid(s)
  {
    match N(op)
    case 0x0 => Step(LoadVyIntoVx(s, op), Ok)
    case 0x1 => Step(RegisterOr(s, op), Ok)
    case 0x2 => Step(RegisterAnd(s, op), Ok)
    case 0x3 => Step(RegisterXor(s, op), Ok)
    case 0x4 => Step(RegisterAdd(s, op), Ok)
    case 0x5 => Step(RegisterSub(s, op), Ok)
    case 0x6 => Step(RegisterSHR(s, op), Ok)
    case 0x7 => Step(RegisterSUBN(s, op), Ok)
    case 0xE => Step(RegisterSHL(s, op), Ok)
    case _ => Step(s, Failed(NotImplemented))
  }

  // ---------------------------------------------------------------------
  // D: sprites

  /// The frame buffer after the first `n` rows of a sprite, the collision
  /// so far, and whether the rows were all read: reading row `k` from
  /// memory address `index + k` throws once that address passes 4095,
  /// after the rows before it were drawn.
  datatype Rows = Rows(grid: seq<Byte>, collision: bool, complete: bool)

  function DrawRows(g: seq<Byte>, memory: seq<Byte>, index: int, x: int, y: int, n: nat): (r: Rows)
    requires |g| == Screen.CellCount && |memory| == MemorySize && index >= 0
    ensures |r.grid| == Screen.CellCount
  {
    if n == 0 then
      Rows(g, false, true)
    else
      var before := DrawRows(g, memory, index, x, y, n - 1);
      if !before.complete then before
      else if index + (n - 1) > 4095 then Rows(before.grid, before.collision, false)
      else
        var row := Screen.Blit(before.grid, x, y + (n - 1), memory[index + (n - 1)]);
        Rows(row.grid, before.collision || row.erased, true)
  }

  /// Dxyn: draw n rows at (Vx, Vy) from memory at I; VF := collision. A
  /// row address past 4095 throws after the rows before it were drawn,
  /// and then VF is not written.
  function DrawSprite(s: State, op: Word): Step
    requires Valid(s)
  {
    var rows := DrawRows(s.display, s.memory, s.index, s.v[X(op)], s.v[Y(op)], N(op));
    var drawn := s.(drawRequired := true, display := rows.grid);
    if rows.complete then Step(SetV(drawn, Flag, if rows.collision then 1 else 0), Ok)
    else Step(drawn, Failed(InvalidAddress))
  }

  // ---------------------------------------------------------------------
  // E: keys

  /// Ex9E skips when key Vx is down; every other ExNN, not only ExA1,
  /// skips when it is up. A key number above 15 is an array fault in the
  /// source and is excluded.
  function KeyboardSkip(s: State, op: Word): State
    requires Valid(s) && s.v[X(op)] < KeyboardSize
  {
    var down := s.keyboard[s.v[X(op)]];
    if N(op) == 0xE then (if down then Skip(s) else s)
    else (if !down then Skip(s) else s)
  }

  // ---------------------------------------------------------------------
  // F: timers, I, memory transfers

  /// How many of `count` consecutive writes or reads from `index` on
  /// happen before an address passes 4095.
  function Reached(index: int, count: nat): (r: nat)
    requires index >= 0
    ensures r <= count && (r == count <==> count == 0 || index + count <= MemorySize)
    ensures r > 0 ==> index + r <= MemorySize
    ensures r < count ==> index + r >= MemorySize
  {
    if index + count <= MemorySize then count
    else if index >= MemorySize then 0
    else MemorySize - index
  }

  /// `dest` with its elements `to .. to + count - 1` replaced by the
  /// elements `from .. from + count - 1` of `src`.
  function Copy(dest: seq<Byte>, src: seq<Byte>, to: int, from: int, count: nat): seq<Byte>
    requires count > 0 ==> 0 <= to && to + count <= |dest| && 0 <= from && from + count <= |src|
  {
    seq(|dest|, a requires 0 <= a < |dest| =>
      if to <= a < to + count then src[from + (a - to)] else dest[a])
  }

  /// Fx55: memory[I + k] := Vk for k = 0 .. x, in that order; an address
  /// past 4095 throws with the earlier writes done.
  function RegDump(s: State, op: Word): Step
    requires Valid(s)
  {
    var count := X(op) + 1;
    var done := Reached(s.index, count);
    Step(s.(memory := Copy(s.memory, s.v, s.index, 0, done)),
         if done == count then Ok else Failed(InvalidAddress))
  }

  /// Fx65: Vk := memory[I + k] for k = 0 .. x, in that order; an address
  /// past 4095 throws with the earlier reads done.
  function RegLoad(s: State, op: Word): Step
    requires Valid(s)
  {
    var count := X(op) + 1;
    var done := Reached(s.index, count);
    Step(s.(v := Copy(s.v, s.memory, 0, s.index, done)),
         if done == count then Ok else Failed(InvalidAddress))
  }

  /// Fx33: the decimal digits of Vx at I, I + 1, I + 2. The ones digit is
  /// written first, so an I + 2 past 4095 throws before anything changes.
  function BCDFromRegister(s: State, op: Word): Step
    requires Valid(s)
  {
    var value := s.v[X(op)];
    if s.index + 2 > 4095 then Step(s, Failed(InvalidAddress))
    else
      var memory := s.memory[s.index + 2 := value % 10][s.index + 1 := value / 10 % 10]
                            [s.index := value / 100 % 10];
      Step(s.(memory := memory), Ok)
  }

  /// Fx29: I := 5 * Vx, the address of the glyph of digit Vx; a value
  /// above 0xF leaves I alone.
  function LoadFontCharOffset(s: State, op: Word): State
    requires Valid(s)
  {
    var x := s.v[X(op)];
    if x > 0xF then s else s.(index := 5 * x)
  }

  /// Fx1E: I := I + Vx modulo 2^16; VF is not touched.
  function AddToIndex(s: State, op: Word): State
    requires Valid(s)
  {
    s.(index := ToWord(s.index + s.v[X(op)]))
  }

  /// Fx18: sound timer := Vx; a value above 0 starts the sound.
  function SetSoundTimer(s: State, op: Word): Step
    requires Valid(s)
  {
    var value := s.v[X(op)];
    Step(s.(sound := value), if value > 0 then StartSound else Ok)
  }

  /// The F family, by its low byte; an unknown one throws and changes
  /// nothing. Fx0A only raises the waiting flag: the key pressed next is
  /// not stored in Vx.
  function HandleF(s: State, op: Word): Step
    requires Valid(s)
  {
    match KK(op)
    case 0x07 => Step(SetV(s, X(op), s.delay), Ok)
    case 0x15 => Step(s.(delay := s.v[X(op)]), Ok)
    case 0x18 => SetSoundTimer(s, op)
    case 0x1E => Step(AddToIndex(s, op), Ok)
    case 0x29 => Step(LoadFontCharOffset(s, op), Ok)
    case 0x33 => BCDFromRegister(s, op)
    case 0x55 => RegDump(s, op)
    case 0x65 => RegLoad(s, op)
    case 0x0A => Step(s.(waiting := true), Ok)
    case _ => Step(s, Failed(NotImplemented))
  }

  // ---------------------------------------------------------------------
  // Dispatch

  /// The sixteen entries of the handler dictionary.
  datatype Handler =
    | Handle0MostSignificantNibble | HandleJump | HandleCall | HandleSkipEqualConst
    | HandleSkipNotEqualConst | HandleSkipRegistersEqual | HandleLoadRegister
    | HandleAddConstantToRegister | Handle8MostSignificantNibble | HandleRegisterSNE
    | HandleSetIndexToConstant | HandleJumpToV0WithOffset | HandleRandomPlusConst
    | HandleDrawSprite | HandleKeyboardSkip | HandleFMostSignificantNibble

  /// The dictionary, keys 0x0 .. 0xF in order.
  const HandlerTable: seq<Handler> := [
    Handle0MostSignificantNibble, HandleJump, HandleCall, HandleSkipEqualConst,
    HandleSkipNotEqualConst, HandleSkipRegistersEqual, HandleLoadRegister,
    HandleAddConstantToRegister, Handle8MostSignificantNibble, HandleRegisterSNE,
    HandleSetIndexToConstant, HandleJumpToV0WithOffset, HandleRandomPlusConst,
    HandleDrawSprite, HandleKeyboardSkip, HandleFMostSignificantNibble]

  /// The key a handler is registered under.
  function Key(h: Handler): nat
  {
    match h
    case Handle0MostSignificantNibble => 0x0
    case HandleJump => 0x1
    case HandleCall => 0x2
    case HandleSkipEqualConst => 0x3
    case HandleSkipNotEqualConst => 0x4
    case HandleSkipRegistersEqual => 0x5
    case HandleLoadRegister => 0x6
    case HandleAddConstantToRegister => 0x7
    case Handle8MostSignificantNibble => 0x8
    case HandleRegisterSNE => 0x9
    case HandleSetIndexToConstant => 0xA
    case HandleJumpToV0WithOffset => 0xB
    case HandleRandomPlusConst => 0xC
    case HandleDrawSprite => 0xD
    case HandleKeyboardSkip => 0xE
    case HandleFMostSignificantNibble => 0xF
  }

  /// The handler registered under the most significant nibble; every
  /// nibble has one, and it is the one whose key that nibble is.
  function GetHandler(op: Word): (h: Handler)
    ensures Key(h) == Family(op)
  {
    HandlerTable[Family(op)]
  }

  /// The instructions that would hit an array fault in the source: a
  /// return on an empty stack, a call on a full one, a key number above
  /// 15.
  predicate NativeFault(s: State, op: Word)
    requires |s.v| == RegisterCount
  {
    match Family(op)
    case 0x0 => N(op) == 0xE && s.sp < 0
    case 0x2 => s.sp + 1 >= StackSize
    case 0xE => s.v[X(op)] >= KeyboardSize
    case _ => false
  }

  /// `handler(op)`: what one handler does to the state.
  function Run(h: Handler, s: State, op: Word, random: Byte): Step
    requires Valid(s) && Key(h) == Family(op) && !NativeFault(s, op)
  {
    match h
    case Handle0MostSignificantNibble =>
      Step(if N(op) == 0xE then Return(s) else ClearScreen(s), Ok)
    case HandleJump => Step(Jump(s, op), Ok)
    case HandleCall => Step(Call(s, op), Ok)
    case HandleSkipEqualConst => Step(SkipEqualConst(s, op), Ok)
    case HandleSkipNotEqualConst => Step(SkipNotEqualConst(s, op), Ok)
    case HandleSkipRegistersEqual => Step(SkipRegistersEqual(s, op), Ok)
    case HandleLoadRegister => Step(LoadRegister(s, op), Ok)
    case HandleAddConstantToRegister => Step(AddConstantToRegister(s, op), Ok)
    case Handle8MostSignificantNibble => Handle8(s, op)
    case HandleRegisterSNE => Step(RegisterSNE(s, op), Ok)
    case HandleSetIndexToConstant => Step(SetIndexToConstant(s, op), Ok)
    case HandleJumpToV0WithOffset => Step(JumpToV0WithOffset(s, op), Ok)
    case HandleRandomPlusConst => Step(RandomPlusConst(s, op, random), Ok)
    case HandleDrawSprite => DrawSprite(s, op)
    case HandleKeyboardSkip => Step(KeyboardSkip(s, op), Ok)
    case HandleFMostSignificantNibble => HandleF(s, op)
  }

  // ---------------------------------------------------------------------
  // The cycle

  /// The instruction at PC: the byte at PC is the high half.
  function Fetched(s: State): Word
    requires |s.memory| == MemorySize && s.pc + 1 < MemorySize
  {
    var high: int := s.memory[s.pc];
    high * 0x100 + s.memory[s.pc + 1]
  }

  /// The states from which a `Tick` does not hit an array fault.
  predicate Runnable(s: State)
    requires |s.v| == RegisterCount && |s.memory| == MemorySize
  {
    !s.waiting && s.pc + 1 < MemorySize ==> !NativeFault(s, Fetched(s))
  }

  /// One cycle: clear the draw flag; while waiting for a key do nothing
  /// else; otherwise fetch two bytes at PC (PC moves past each before it
  /// is read, so a PC of 4095 or more throws with PC already moved) and
  /// run the handler of the fetched instruction.
  function Tick(s: State, random: Byte): Step
    requires Valid(s) && Runnable(s)
  {
    if s.waiting then Step(s.(drawRequired := false), Ok)
    else if s.pc > 4095 then Step(s.(drawRequired := false, pc := ToWord(s.pc + 1)), Failed(InvalidAddress))
    else if s.pc + 1 > 4095 then Step(s.(drawRequired := false, pc := s.pc + 2), Failed(InvalidAddress))
    else
      var op := Fetched(s);
      Run(GetHandler(op), s.(drawRequired := false, opcode := op, pc := s.pc + 2), op, random)
  }

  // ---------------------------------------------------------------------
  // Reset, the font, programs, timers, keys

  /// The sixteen hexadecimal glyphs, five rows of four pixels each.
  const FontSet: seq<Byte> := [
    0xF0, 0x90, 0x90, 0x90, 0xF0, // 0
    0x20, 0x60, 0x20, 0x20, 0x70, // 1
    0xF0, 0x10, 0xF0, 0x80, 0xF0, // 2
    0xF0, 0x10, 0xF0, 0x10, 0xF0, // 3
    0x90, 0x90, 0xF0, 0x10, 0x10, // 4
    0xF0, 0x80, 0xF0, 0x10, 0xF0, // 5
    0xF0, 0x80, 0xF0, 0x90, 0xF0, // 6
    0xF0, 0x10, 0x20, 0x40, 0x40, // 7
    0xF0, 0x90, 0xF0, 0x90, 0xF0, // 8
    0xF0, 0x90, 0xF0, 0x10, 0xF0, // 9
    0xF0, 0x90, 0xF0, 0x90, 0x90, // A
    0xE0, 0x90, 0xE0, 0x90, 0xE0, // B
    0xF0, 0x80, 0x80, 0x80, 0xF0, // C
    0xE0, 0x90, 0x90, 0x90, 0xE0, // D
    0xF0, 0x80, 0xF0, 0x80, 0xF0, // E
    0xF0, 0x80, 0xF0, 0x80, 0x80  // F
  ]

  /// Memory after `Reset`: the font at 0 .. 79, zero elsewhere.
  function FontMemory(): seq<Byte>
  {
    Copy(seq(MemorySize, _ => 0), FontSet, 0, 0, |FontSet|)
  }

  /// PC at 0x200, I, opcode and timers 0, every other component cleared,
  /// then the font loaded. The draw and waiting flags are left as they
  /// were.
  function Reset(s: State): State
  {
    s.(pc := StartInstruction, opcode := 0, index := 0, delay := 0, sound := 0,
       display := Screen.Blank(), keyboard := seq(KeyboardSize, _ => false),
       sp := -1, stack := seq(StackSize, _ => 0), v := seq(RegisterCount, _ => 0),
       memory := FontMemory())
  }

  /// The program's bytes from 0x200 on, in order; a byte that would land
  /// past 4095 throws with the earlier ones written.
  function Load(s: State, program: seq<Byte>): Step
    requires Valid(s)
  {
    var done := Reached(StartInstruction, |program|);
    Step(s.(memory := Copy(s.memory, program, StartInstruction, 0, done)),
         if done == |program| then Ok else Failed(InvalidAddress))
  }

  /// One timer period for the delay timer: down by one unless already 0.
  function UpdateDelayTimer(s: State): State
  {
    if s.delay <= 0 then s else s.(delay := s.delay - 1)
  }

  /// One timer period for the sound timer: down by one unless already 0;
  /// reaching 0 stops the sound.
  function UpdateSoundTimer(s: State): Step
  {
    if s.sound <= 0 then Step(s, Ok)
    else
      var t := s.(sound := s.sound - 1);
      Step(t, if t.sound < 1 then StopSound else Ok)
  }

  /// A key goes down or up; either ends a wait for a key.
  function SetKey(s: State, key: int, down: bool): State
    requires |s.keyboard| == KeyboardSize && 0 <= key < KeyboardSize
  {
    s.(keyboard := s.keyboard[key := down], waiting := false)
  }
}
