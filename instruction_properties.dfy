/// Properties of the instruction handlers, the cycle, reset, program
/// loading, the timers and the keys, stated about the functions of
/// `Machine`.
module InstructionProperties {
  import opened Bytes
  import opened Machine
  import Screen
  import MachineProperties

  /// Every register other than `x` and VF keeps its value.
  ghost predicate OthersKept(s: State, t: State, x: nat)
    requires |s.v| == RegisterCount && |t.v| == RegisterCount
  {
    forall i :: 0 <= i < RegisterCount && i != x && i != Flag ==> t.v[i] == s.v[i]
  }

  // ---------------------------------------------------------------------
  // Arithmetic

  /// 7xkk adds modulo 256: the carry out of the eight bits is dropped and
  /// not reported, and no other register changes, VF included.
  lemma AddConstantWraps(s: State, op: Word)
    requires Valid(s)
    ensures var t := AddConstantToRegister(s, op);
            && t.v[X(op)] as int + (if s.v[X(op)] as int + KK(op) > 0xFF then 0x100 else 0) == s.v[X(op)] as int + KK(op)
            && (forall i :: 0 <= i < RegisterCount && i != X(op) ==> t.v[i] == s.v[i])
            && t == s.(v := t.v)
  {
  }

  /// Adding kk and then 256 - kk to the same register restores it.
  lemma AddConstantUndone(s: State, op: Word, back: Word)
    requires Valid(s) && X(back) == X(op) && KK(back) == (0x100 - KK(op)) % 0x100
    ensures Valid(AddConstantToRegister(s, op))
    ensures AddConstantToRegister(AddConstantToRegister(s, op), back) == s
  {
    var t := AddConstantToRegister(s, op);
    var u := AddConstantToRegister(t, back);
    assert u.v[X(op)] == s.v[X(op)];
    assert u.v == s.v;
  }

  /// 8xy4: the result and the carry together are the nine-bit sum; when x
  /// is F the carry overwrites the sum.
  lemma RegisterAddCarry(s: State, op: Word)
    requires Valid(s)
    ensures var t := RegisterAdd(s, op);
            && t.v[Flag] <= 1
            && (X(op) != Flag ==> t.v[X(op)] as int + 0x100 * (t.v[Flag] as int) == s.v[X(op)] as int + s.v[Y(op)])
            && (t.v[Flag] == 1 <==> s.v[X(op)] as int + s.v[Y(op)] > 0xFF)
            && OthersKept(s, t, X(op))
            && t == s.(v := t.v)
  {
  }

  /// 8xy5: Vx becomes Vx - Vy modulo 256 and VF is 1 exactly when Vx is
  /// strictly greater than Vy, so equal operands give 0 in both.
  lemma RegisterSubBorrow(s: State, op: Word)
    requires Valid(s)
    ensures var t := RegisterSub(s, op);
            && (X(op) != Flag ==> t.v[X(op)] == s.v[X(op)] as int - s.v[Y(op)] + (if s.v[X(op)] < s.v[Y(op)] then 0x100 else 0))
            && (t.v[Flag] == 1 <==> s.v[X(op)] > s.v[Y(op)])
            && t.v[Flag] <= 1
            && OthersKept(s, t, X(op))
            && t == s.(v := t.v)
  {
  }

  /// 8xy7: Vx becomes Vy - Vx modulo 256 and VF is 1 exactly when Vy is
  /// strictly greater than Vx.
  lemma RegisterSUBNBorrow(s: State, op: Word)
    requires Valid(s)
    ensures var t := RegisterSUBN(s, op);
            && (X(op) != Flag ==> t.v[X(op)] == s.v[Y(op)] as int - s.v[X(op)] + (if s.v[Y(op)] < s.v[X(op)] then 0x100 else 0))
            && (t.v[Flag] == 1 <==> s.v[Y(op)] > s.v[X(op)])
            && t.v[Flag] <= 1
            && OthersKept(s, t, X(op))
            && t == s.(v := t.v)
  {
  }

  /// 8xy4 followed by 8xy5 on the same two registers restores Vx, when
  /// they are distinct and neither is VF.
  lemma AddThenSub(s: State, add: Word, sub: Word)
    requires Valid(s) && X(sub) == X(add) && Y(sub) == Y(add)
    requires X(add) != Y(add) && X(add) != Flag && Y(add) != Flag
    ensures Valid(RegisterAdd(s, add))
    ensures RegisterSub(RegisterAdd(s, add), sub).v[X(add)] == s.v[X(add)]
  {
    RegisterAddCarry(s, add);
    RegisterSubBorrow(RegisterAdd(s, add), sub);
  }

  /// 8xy6: twice the new Vx plus VF is the old Vx.
  lemma RegisterSHRExact(s: State, op: Word)
    requires Valid(s)
    ensures var t := RegisterSHR(s, op);
            && t.v[Flag] <= 1
            && t.v[Flag] == s.v[X(op)] % 2
            && (X(op) != Flag ==> 2 * (t.v[X(op)] as int) + t.v[Flag] == s.v[X(op)])
            && OthersKept(s, t, X(op))
            && t == s.(v := t.v)
  {
  }

  /// 8xyE: the new Vx plus 256 times VF is twice the old Vx.
  lemma RegisterSHLExact(s: State, op: Word)
    requires Valid(s)
    ensures var t := RegisterSHL(s, op);
            && t.v[Flag] <= 1
            && t.v[Flag] == s.v[X(op)] / 0x80
            && (X(op) != Flag ==> t.v[X(op)] as int + 0x100 * (t.v[Flag] as int) == 2 * (s.v[X(op)] as int))
            && OthersKept(s, t, X(op))
            && t == s.(v := t.v)
  {
  }

  /// 8xy3 applied twice with distinct registers restores Vx.
  lemma RegisterXorTwice(s: State, op: Word)
    requires Valid(s) && X(op) != Y(op)
    ensures Valid(RegisterXor(s, op))
    ensures RegisterXor(RegisterXor(s, op), op) == s
  {
    var t := RegisterXor(s, op);
    BitXorCancel(s.v[X(op)], s.v[Y(op)]);
    assert RegisterXor(t, op).v == s.v;
  }

  /// 8xy1 and 8xy2 are idempotent.
  lemma RegisterOrAndIdempotent(s: State, op: Word)
    requires Valid(s)
    ensures Valid(RegisterOr(s, op)) && Valid(RegisterAnd(s, op))
    ensures RegisterOr(RegisterOr(s, op), op) == RegisterOr(s, op)
    ensures RegisterAnd(RegisterAnd(s, op), op) == RegisterAnd(s, op)
  {
    var a, b := s.v[X(op)], s.v[Y(op)];
    BitOrAbsorb(a, b);
    BitAndAbsorb(a, b);
    if X(op) == Y(op) {
      BitOrAndSelf(a);
    }
    assert RegisterOr(RegisterOr(s, op), op).v == RegisterOr(s, op).v;
    assert RegisterAnd(RegisterAnd(s, op), op).v == RegisterAnd(s, op).v;
  }

  /// 6xkk computes its register as `(op & 0x0F00) / 256`, which is the x
  /// operand: Vx becomes kk and nothing else changes, VF included.
  lemma LoadRegisterSets(s: State, op: Word)
    requires Valid(s)
    ensures var t := LoadRegister(s, op);
            && t.v[X(op)] == KK(op)
            && (forall i :: 0 <= i < RegisterCount && i != X(op) ==> t.v[i] == s.v[i])
            && t == s.(v := t.v)
  {
    RegisterField(op);
  }

  lemma RegisterField(op: Word)
    ensures op % 0x1000 / 0x100 == X(op)
  {
    var q, m := op / 0x1000, op % 0x1000;
    assert op == 0x1000 * q + m;
    assert op / 0x100 == 0x10 * q + m / 0x100;
  }

  /// 8xy0 copies Vy into Vx, after which 5xy0 with the same registers
  /// always skips and 9xy0 never does.
  lemma LoadThenCompare(s: State, op: Word)
    requires Valid(s)
    ensures var t := LoadVyIntoVx(s, op);
            && Valid(t)
            && t.v[X(op)] == s.v[Y(op)]
            && (forall i :: 0 <= i < RegisterCount && i != X(op) ==> t.v[i] == s.v[i])
            && SkipRegistersEqual(t, op) == Skip(t)
            && RegisterSNE(t, op) == t
  {
  }

  /// Cxkk: the random byte masked by kk. The result has no bit outside
  /// kk, a mask of 0 gives 0, and only Vx changes.
  lemma RandomMasked(s: State, op: Word, random: Byte)
    requires Valid(s)
    ensures var t := RandomPlusConst(s, op, random);
            && t.v[X(op)] == BitAnd(random, KK(op))
            && BitAnd(t.v[X(op)], KK(op)) == t.v[X(op)]
            && (KK(op) == 0 ==> t.v[X(op)] == 0)
            && (forall i :: 0 <= i < RegisterCount && i != X(op) ==> t.v[i] == s.v[i])
            && t == s.(v := t.v)
  {
    BitAndAbsorb(random, KK(op));
    if KK(op) == 0 {
      BitAndZero(random);
    }
  }

  /// 1nnn and Bnnn: the target is nnn, plus V0 for Bnnn. The sum never
  /// wraps the 16-bit PC, but it can pass 4095 (up to 0x10FE), and then
  /// the next fetch throws.
  lemma JumpTargets(s: State, op: Word)
    requires Valid(s)
    ensures Jump(s, op) == s.(pc := NNN(op)) && Jump(s, op).pc < 0x1000
    ensures JumpToV0WithOffset(s, op).pc == s.v[0] + NNN(op) <= 0x10FE
    ensures JumpToV0WithOffset(s, op) == s.(pc := JumpToV0WithOffset(s, op).pc)
    ensures s.v[0] == 0 ==> JumpToV0WithOffset(s, op) == Jump(s, op)
  {
  }

  /// Annn sets I to a 12-bit address; Fx1E adds Vx to I modulo 2^16,
  /// leaving VF alone, so I + Vx past 0xFFFF wraps around.
  lemma IndexUpdates(s: State, op: Word)
    requires Valid(s)
    ensures SetIndexToConstant(s, op) == s.(index := NNN(op)) && NNN(op) < 0x1000
    ensures var t := AddToIndex(s, op);
            && t == s.(index := t.index)
            && t.index as int + (if s.index as int + s.v[X(op)] > 0xFFFF then 0x1_0000 else 0)
               == s.index as int + s.v[X(op)]
  {
  }

  /// Fx15 then Fy07 copies Vx into Vy through the delay timer.
  lemma DelayRoundTrip(s: State, store: Word, load: Word)
    requires Valid(s) && KK(store) == 0x15 && KK(load) == 0x07
    ensures var t := HandleF(s, store);
            && t == Step(s.(delay := s.v[X(store)]), Ok)
            && Valid(t.state)
            && HandleF(t.state, load).outcome == Ok
            && HandleF(t.state, load).state.v[X(load)] == s.v[X(store)]
            && HandleF(t.state, load).state == t.state.(v := t.state.v[X(load) := s.v[X(store)]])
  {
  }

  // ---------------------------------------------------------------------
  // Skips

  /// A skip moves PC past one instruction and changes nothing else.
  lemma SkipMoves(s: State)
    ensures Skip(s) != s && Skip(s) == s.(pc := (s.pc + 2) % 0x1_0000)
  {
  }

  /// 3xkk skips exactly when 4xkk with the same operands does not: one
  /// skips when Vx == kk, the other when Vx != kk.
  lemma SkipConstComplement(s: State, op: Word)
    requires Valid(s)
    ensures SkipEqualConst(s, op) in {s, Skip(s)} && SkipNotEqualConst(s, op) in {s, Skip(s)}
    ensures SkipEqualConst(s, op) == Skip(s) <==> s.v[X(op)] == KK(op)
    ensures SkipNotEqualConst(s, op) == Skip(s) <==> SkipEqualConst(s, op) == s
  {
    SkipMoves(s);
  }

  /// 5xyN skips exactly when 9xyN with the same registers does not: one
  /// skips when Vx == Vy, the other when Vx != Vy; N is ignored.
  lemma SkipRegistersComplement(s: State, op: Word)
    requires Valid(s)
    ensures SkipRegistersEqual(s, op) in {s, Skip(s)} && RegisterSNE(s, op) in {s, Skip(s)}
    ensures SkipRegistersEqual(s, op) == Skip(s) <==> s.v[X(op)] == s.v[Y(op)]
    ensures RegisterSNE(s, op) == Skip(s) <==> SkipRegistersEqual(s, op) == s
  {
    SkipMoves(s);
  }

  /// Ex9E skips when key Vx is down; every other ExNN skips when it is
  /// up, so ExA1 and, say, Ex00 behave the same.
  lemma KeyboardSkipIff(s: State, op: Word)
    requires Valid(s) && s.v[X(op)] < KeyboardSize
    ensures KeyboardSkip(s, op) in {s, Skip(s)}
    ensures KeyboardSkip(s, op) == Skip(s) <==> (s.keyboard[s.v[X(op)]] <==> N(op) == 0xE)
  {
    SkipMoves(s);
  }

  // ---------------------------------------------------------------------
  // Families with quirks

  /// Every 0nnN returns when N is E and clears the screen otherwise: only
  /// whether the last nibble is E matters, so 0000 clears like 00E0 and
  /// 012E returns like 00EE.
  lemma ZeroFamily(s: State, op: Word, random: Byte)
    requires Valid(s) && Family(op) == 0 && !NativeFault(s, op)
    ensures var t := Run(Handle0MostSignificantNibble, s, op, random);
            && t.outcome == Ok
            && (N(op) == 0xE ==> t.state == s.(pc := s.stack[s.sp], sp := s.sp - 1))
            && (N(op) != 0xE ==> && t.state.drawRequired
                                 && (forall k :: 0 <= k < Screen.CellCount ==> t.state.display[k] == 0)
                                 && t.state == s.(display := t.state.display, drawRequired := true))
    ensures Run(Handle0MostSignificantNibble, s, 0x0000, random) == Run(Handle0MostSignificantNibble, s, 0x00E0, random)
    ensures s.sp >= 0 ==> Run(Handle0MostSignificantNibble, s, 0x012E, random) == Run(Handle0MostSignificantNibble, s, 0x00EE, random)
  {
  }

  /// An 8xyN with an unknown N throws and changes nothing; the nine known
  /// ones succeed.
  lemma Handle8Unknown(s: State, op: Word)
    requires Valid(s)
    ensures Handle8(s, op).outcome != Ok <==> N(op) in {0x8, 0x9, 0xA, 0xB, 0xC, 0xD, 0xF}
    ensures Handle8(s, op).outcome != Ok ==> Handle8(s, op) == Step(s, Failed(NotImplemented))
  {
  }

  /// An FxNN with an unknown NN throws and changes nothing; the known ones
  /// never report an unknown instruction.
  lemma HandleFUnknown(s: State, op: Word)
    requires Valid(s)
    ensures HandleF(s, op).outcome == Failed(NotImplemented)
            <==> KK(op) !in {0x07, 0x0A, 0x15, 0x18, 0x1E, 0x29, 0x33, 0x55, 0x65}
    ensures HandleF(s, op).outcome == Failed(NotImplemented) ==> HandleF(s, op).state == s
  {
  }

  /// Fx0A only raises the waiting flag; Vx is not written. Cycles while
  /// waiting only lower the draw flag, and a key going down ends the wait
  /// without storing the key anywhere but the keyboard.
  lemma WaitForKey(s: State, op: Word, key: int, random: Byte)
    requires Valid(s) && KK(op) == 0x0A && 0 <= key < KeyboardSize
    ensures var t := HandleF(s, op);
            && t == Step(s.(waiting := true), Ok)
            && Valid(t.state) && Runnable(t.state)
            && Tick(t.state, random) == Step(t.state.(drawRequired := false), Ok)
            && !SetKey(t.state, key, true).waiting
            && SetKey(t.state, key, true) == s.(keyboard := s.keyboard[key := true], waiting := false)
  {
  }

  /// Fx0A is the only instruction that raises the waiting flag, and no
  /// instruction lowers it.
  lemma OnlyFx0AWaits(h: Handler, s: State, op: Word, random: Byte)
    requires Valid(s) && Key(h) == Family(op) && !NativeFault(s, op)
    ensures Run(h, s, op, random).state.waiting == (s.waiting || (Family(op) == 0xF && KK(op) == 0x0A))
  {
    MachineProperties.RunOpcodeAndWaiting(h, s, op, random);
  }

  /// The five bytes of the glyph of hexadecimal digit `d`.
  function Glyph(d: nat): (r: seq<Byte>)
    requires d < 0x10
    ensures |r| == 5
  {
    FontSet[5 * d .. 5 * d + 5]
  }

  /// Fx29 with the font in place: for a digit Vx, I points at the glyph of
  /// Vx; a value above 0xF leaves I alone.
  lemma FontCharAddress(s: State, op: Word)
    requires Valid(s) && s.memory[..|FontSet|] == FontSet
    ensures var i := LoadFontCharOffset(s, op).index;
            && (s.v[X(op)] <= 0xF ==> i + 5 <= MemorySize && s.memory[i .. i + 5] == Glyph(s.v[X(op)]))
            && (s.v[X(op)] > 0xF ==> i == s.index)
            && LoadFontCharOffset(s, op) == s.(index := i)
  {
    var d := s.v[X(op)];
    if d <= 0xF {
      assert s.memory[5 * d .. 5 * d + 5] == s.memory[..|FontSet|][5 * d .. 5 * d + 5];
    }
  }

  // ---------------------------------------------------------------------
  // Memory transfers

  /// Fx33: with I + 2 inside memory, the three bytes at I are decimal
  /// digits whose value is Vx, and nothing else changes; otherwise the
  /// instruction throws before writing anything.
  lemma BCDDigits(s: State, op: Word)
    requires Valid(s)
    ensures var t := BCDFromRegister(s, op);
            var m, i := t.state.memory, s.index;
            if i + 2 < MemorySize then
              && t.outcome == Ok
              && |m| == MemorySize
              && m[i] < 10 && m[i + 1] < 10 && m[i + 2] < 10
              && 100 * (m[i] as int) + 10 * (m[i + 1] as int) + m[i + 2] == s.v[X(op)]
              && (forall a :: 0 <= a < MemorySize && (a < i || i + 2 < a) ==> m[a] == s.memory[a])
              && t.state == s.(memory := m)
            else
              t == Step(s, Failed(InvalidAddress))
  {
  }

  /// Fx55 then Fx65 with the same x and I inside memory: V0 .. Vx land at
  /// I .. I + x, nothing else in memory or the machine changes, and loading
  /// them back restores the original registers and changes nothing.
  lemma DumpThenLoad(s: State, op: Word)
    requires Valid(s) && s.index + X(op) + 1 <= MemorySize
    ensures var d := RegDump(s, op);
            && d.outcome == Ok
            && (forall k :: 0 <= k <= X(op) ==> d.state.memory[s.index + k] == s.v[k])
            && (forall a :: 0 <= a < MemorySize && !(s.index <= a <= s.index + X(op)) ==> d.state.memory[a] == s.memory[a])
            && d.state == s.(memory := d.state.memory)
            && Valid(d.state)
            && RegLoad(d.state, op) == Step(d.state, Ok)
            && RegLoad(d.state, op).state.v == s.v
  {
    var d := RegDump(s, op).state;
    assert RegLoad(d, op).state.v == s.v;
  }

  /// Fx55 running past address 4095 throws with every address from I to
  /// 4095 already written.
  lemma RegDumpPartial(s: State, op: Word)
    requires Valid(s) && s.index + X(op) + 1 > MemorySize
    ensures var d := RegDump(s, op);
            && d.outcome == Failed(InvalidAddress)
            && d.state == s.(memory := d.state.memory)
            && forall a :: 0 <= a < MemorySize ==>
                 d.state.memory[a] == if s.index <= a then s.v[a - s.index] else s.memory[a]
  {
  }

  /// Fx65 running past address 4095 throws with V0 .. V(4095 - I) already
  /// loaded and the other registers untouched.
  lemma RegLoadPartial(s: State, op: Word)
    requires Valid(s) && s.index + X(op) + 1 > MemorySize
    ensures var d := RegLoad(s, op);
            && d.outcome == Failed(InvalidAddress)
            && d.state == s.(v := d.state.v)
            && forall k :: 0 <= k < RegisterCount ==>
                 d.state.v[k] == if s.index + k < MemorySize then s.memory[s.index + k] else s.v[k]
  {
  }

  // ---------------------------------------------------------------------
  // Reset, loading, the cycle

  /// Reset gives a well-formed machine: PC at 0x200, the font at the start
  /// of memory and zero after it, every other component cleared; the
  /// draw and waiting flags keep their values.
  lemma ResetState(s: State)
    ensures var r := Reset(s);
            && Valid(r)
            && r.pc == StartInstruction && r.sp == -1 && r.index == 0 && r.opcode == 0
            && r.delay == 0 && r.sound == 0
            && r.memory[..|FontSet|] == FontSet
            && (forall a :: |FontSet| <= a < MemorySize ==> r.memory[a] == 0)
            && (forall k :: 0 <= k < Screen.CellCount ==> r.display[k] == 0)
            && (forall k :: 0 <= k < RegisterCount ==> r.v[k] == 0)
            && (forall k :: 0 <= k < StackSize ==> r.stack[k] == 0)
            && (forall k :: 0 <= k < KeyboardSize ==> !r.keyboard[k])
            && r.waiting == s.waiting && r.drawRequired == s.drawRequired
  {
  }

  /// Resetting twice is resetting once.
  lemma ResetIdempotent(s: State)
    ensures Reset(Reset(s)) == Reset(s)
  {
  }

  /// Loading a program writes its bytes from 0x200 on and succeeds exactly
  /// when it fits below 4096; a longer one throws with the bytes that fit
  /// written. Nothing but memory changes.
  lemma LoadProgram(s: State, program: seq<Byte>)
    requires Valid(s)
    ensures var t := Load(s, program);
            && (t.outcome == Ok <==> |program| <= MemorySize - StartInstruction)
            && (t.outcome != Ok ==> t.outcome == Failed(InvalidAddress))
            && (forall i :: 0 <= i < |program| && StartInstruction + i < MemorySize
                  ==> t.state.memory[StartInstruction + i] == program[i])
            && (forall a :: 0 <= a < MemorySize && !(StartInstruction <= a < StartInstruction + |program|)
                  ==> t.state.memory[a] == s.memory[a])
            && Valid(t.state)
            && t.state == s.(memory := t.state.memory)
  {
  }

  /// After a reset, loading the program 22 34 and running one cycle calls
  /// address 0x234, with the address of the next instruction, 0x202, on
  /// the stack.
  lemma CallFromLoadedProgram(s: State, random: Byte)
    requires !s.waiting
    ensures Valid(Reset(s))
    ensures var t := Load(Reset(s), [0x22, 0x34]).state;
            && Valid(t) && Runnable(t)
            && var u := Tick(t, random);
               && u.outcome == Ok && u.state.opcode == 0x2234
               && u.state.pc == 0x234 && u.state.sp == 0 && u.state.stack[0] == 0x202
  {
    ResetState(s);
    var t := Load(Reset(s), [0x22, 0x34]).state;
    LoadProgram(Reset(s), [0x22, 0x34]);
    assert t.memory[0x200] == 0x22 && t.memory[0x201] == 0x34;
    assert Fetched(t) == 0x2234;
  }

  /// A call then a return restores PC and the stack pointer; the entry
  /// pushed stays in the stack.
  lemma CallThenReturn(s: State, op: Word)
    requires -1 <= s.sp && s.sp + 1 < |s.stack|
    ensures var c := Call(s, op);
            && c.pc == NNN(op) && c.sp == s.sp + 1 && c.stack[c.sp] == s.pc
            && Return(c) == s.(stack := c.stack)
  {
  }

  /// Every key 0x0 .. 0xF of the dictionary holds the handler registered
  /// under it, and every handler is held under its own key: the table and
  /// `Key` are inverse.
  lemma HandlerTableKeys()
    ensures |HandlerTable| == 0x10
    ensures forall k :: 0 <= k < |HandlerTable| ==> Key(HandlerTable[k]) == k
    ensures forall h: Handler :: Key(h) < |HandlerTable| && HandlerTable[Key(h)] == h
  {
  }

  /// Writing a register keeps the machine well-formed.
  lemma SetVValid(s: State, x: nat, value: Byte)
    requires Valid(s) && x < RegisterCount
    ensures Valid(SetV(s, x, value))
  {
  }

  /// The 8 family keeps the machine well-formed.
  lemma Handle8Valid(s: State, op: Word)
    requires Valid(s)
    ensures Valid(Handle8(s, op).state)
  {
    match N(op)
    case 0x0 => SetVValid(s, X(op), s.v[Y(op)]);
    case 0x1 => SetVValid(s, X(op), BitOr(s.v[X(op)], s.v[Y(op)]));
    case 0x2 => SetVValid(s, X(op), BitAnd(s.v[X(op)], s.v[Y(op)]));
    case 0x3 => SetVValid(s, X(op), BitXor(s.v[X(op)], s.v[Y(op)]));
    case 0x4 => RegisterAddCarry(s, op);
    case 0x5 => RegisterSubBorrow(s, op);
    case 0x6 => RegisterSHRExact(s, op);
    case 0x7 => RegisterSUBNBorrow(s, op);
    case 0xE => RegisterSHLExact(s, op);
    case _ =>
  }

  /// The F family keeps the machine well-formed.
  lemma HandleFValid(s: State, op: Word)
    requires Valid(s)
    ensures Valid(HandleF(s, op).state)
  {
    match KK(op)
    case 0x07 => SetVValid(s, X(op), s.delay);
    case 0x33 => BCDDigits(s, op);
    case _ =>
  }

  /// Every handler keeps the machine well-formed.
  lemma RunValid(h: Handler, s: State, op: Word, random: Byte)
    requires Valid(s) && Key(h) == Family(op) && !NativeFault(s, op)
    ensures Valid(Run(h, s, op, random).state)
  {
    match h
    case HandleDrawSprite =>
      MachineProperties.DrawRowsGrid(s.display, s.memory, s.index, s.v[X(op)], s.v[Y(op)], N(op));
    case Handle8MostSignificantNibble =>
      Handle8Valid(s, op);
    case HandleFMostSignificantNibble =>
      HandleFValid(s, op);
    case _ =>
  }

  /// Every cycle keeps the machine well-formed.
  lemma TickValid(s: State, random: Byte)
    requires Valid(s) && Runnable(s)
    ensures Valid(Tick(s, random).state)
  {
    if !s.waiting && s.pc + 1 <= 4095 {
      var op := Fetched(s);
      RunValid(GetHandler(op), s.(drawRequired := false, opcode := op, pc := s.pc + 2), op, random);
    }
  }

  // ---------------------------------------------------------------------
  // Timers and keys

  /// The state after `k` periods of the delay timer.
  function DelayPeriods(s: State, k: nat): State
  {
    if k == 0 then s else UpdateDelayTimer(DelayPeriods(s, k - 1))
  }

  /// The delay timer counts down by one per period and stops at 0.
  lemma {:induction false} DelayCountsDown(s: State, k: nat)
    ensures DelayPeriods(s, k).delay == if s.delay >= k then s.delay - k else 0
    ensures DelayPeriods(s, k) == s.(delay := DelayPeriods(s, k).delay)
  {
    if k > 0 {
      DelayCountsDown(s, k - 1);
    }
  }

  /// The state after `k` periods of the sound timer.
  function SoundPeriods(s: State, k: nat): State
  {
    if k == 0 then s else UpdateSoundTimer(SoundPeriods(s, k - 1)).state
  }

  /// The sound timer counts down by one per period and stops at 0.
  lemma {:induction false} SoundCountsDown(s: State, k: nat)
    ensures SoundPeriods(s, k).sound == if s.sound >= k then s.sound - k else 0
    ensures SoundPeriods(s, k) == s.(sound := SoundPeriods(s, k).sound)
  {
    if k > 0 {
      SoundCountsDown(s, k - 1);
    }
  }

  /// Fx18 starts the sound exactly when Vx is above 0, and the sound stops
  /// in exactly the Vx-th timer period after it.
  lemma SoundLasts(s: State, op: Word, k: nat)
    requires Valid(s) && 1 <= k
    ensures var t := SetSoundTimer(s, op);
            && (t.outcome == StartSound <==> s.v[X(op)] > 0)
            && (UpdateSoundTimer(SoundPeriods(t.state, k - 1)).outcome == StopSound <==> k == s.v[X(op)])
  {
    SoundCountsDown(SetSoundTimer(s, op).state, k - 1);
  }

  /// A key going down then up leaves it up, ends any wait and changes no
  /// other key.
  lemma KeyDownThenUp(s: State, key: int)
    requires |s.keyboard| == KeyboardSize && 0 <= key < KeyboardSize
    ensures SetKey(s, key, true).keyboard[key] && !SetKey(s, key, true).waiting
    ensures forall k :: 0 <= k < KeyboardSize && k != key ==> SetKey(s, key, true).keyboard[k] == s.keyboard[k]
    ensures SetKey(SetKey(s, key, true), key, false) == SetKey(s, key, false)
    ensures !s.keyboard[key] ==> SetKey(SetKey(s, key, true), key, false) == s.(waiting := false)
  {
    assert !s.keyboard[key] ==> s.keyboard[key := false] == s.keyboard;
  }
}
