/// Properties of the instruction set, stated about the functions of
/// `Machine`.
module MachineProperties {
  import opened Bytes
  import opened Machine
  import Screen

  /// Once a row address has thrown, later rows change nothing.
  lemma {:induction false} DrawRowsStuck(g: seq<Byte>, memory: seq<Byte>, index: int, x: int, y: int, k: nat, n: nat)
    requires |g| == Screen.CellCount && |memory| == MemorySize && index >= 0
    requires k <= n && !DrawRows(g, memory, index, x, y, k).complete
    ensures DrawRows(g, memory, index, x, y, n) == DrawRows(g, memory, index, x, y, k)
    decreases n - k
  {
    if k < n {
      DrawRowsStuck(g, memory, index, x, y, k, n - 1);
    }
  }

  /// Row `k` read from inside memory extends the rows drawn so far by
  /// blitting it one line lower.
  lemma DrawRowsNext(g: seq<Byte>, memory: seq<Byte>, index: int, x: int, y: int, k: nat,
                     before: Rows, row: Screen.Drawn)
    requires |g| == Screen.CellCount && |memory| == MemorySize && 0 <= index && index + k < MemorySize
    requires DrawRows(g, memory, index, x, y, k) == before && before.complete
    requires row == Screen.Blit(before.grid, x, y + k, memory[index + k])
    ensures DrawRows(g, memory, index, x, y, k + 1) == Rows(row.grid, before.collision || row.erased, true)
  {
  }

  // ---------------------------------------------------------------------
  // Dxyn

  /// Pixel (cx, cy) lies under one of the `n` rows of the sprite drawn at
  /// (x, y) from the bytes at `index`, and the bit of that row for its
  /// column is set. Row `i` is drawn on screen row `y + i`.
  ghost predicate SpriteCovers(memory: seq<Byte>, index: int, x: int, y: int, n: nat, cx: int, cy: int)
    requires |memory| == MemorySize && 0 <= index && index + n <= MemorySize
  {
    0 <= cy - y < n && Screen.Covers(x, cy, memory[index + (cy - y)], Screen.RowWidth, cx, cy)
  }

  /// Rows read from inside memory are all drawn.
  lemma {:induction false} DrawRowsComplete(g: seq<Byte>, memory: seq<Byte>, index: int, x: int, y: int, n: nat)
    requires |g| == Screen.CellCount && |memory| == MemorySize && 0 <= index && index + n <= MemorySize
    ensures DrawRows(g, memory, index, x, y, n).complete
  {
    if n > 0 {
      DrawRowsComplete(g, memory, index, x, y, n - 1);
    }
  }

  /// Past a drawn prefix, row `n - 1` is blitted onto the rows before it:
  /// pixel (cx, cy) is as that blit leaves it.
  lemma NextRowPixel(g: seq<Byte>, memory: seq<Byte>, index: int, x: int, y: int, n: nat, cx: int, cy: int)
    requires |g| == Screen.CellCount && |memory| == MemorySize && 0 <= index && 0 < n && index + n <= MemorySize
    requires Screen.OnScreen(cx, cy) && DrawRows(g, memory, index, x, y, n - 1).complete
    ensures DrawRows(g, memory, index, x, y, n).grid[Screen.CellIndex(cx, cy)]
            == Screen.Blit(DrawRows(g, memory, index, x, y, n - 1).grid, x, y + (n - 1), memory[index + (n - 1)])
                 .grid[Screen.CellIndex(cx, cy)]
  {
  }

  /// Past a drawn prefix, the collision flag after row `n - 1` is the flag
  /// before it or the collision of that row's blit.
  lemma NextRowFlag(g: seq<Byte>, memory: seq<Byte>, index: int, x: int, y: int, n: nat)
    requires |g| == Screen.CellCount && |memory| == MemorySize && 0 <= index && 0 < n && index + n <= MemorySize
    requires DrawRows(g, memory, index, x, y, n - 1).complete
    ensures DrawRows(g, memory, index, x, y, n).collision
            == (DrawRows(g, memory, index, x, y, n - 1).collision
                || Screen.Blit(DrawRows(g, memory, index, x, y, n - 1).grid, x, y + (n - 1), memory[index + (n - 1)]).erased)
  {
  }

  /// A pixel under the first `n` rows is under the first `n - 1` rows or
  /// under row `n - 1`, never both: it is flipped once.
  lemma CoverStep(old_: Byte, before: Byte, after: Byte, memory: seq<Byte>, index: int, x: int, y: int, n: nat,
                  cx: int, cy: int)
    requires |memory| == MemorySize && 0 <= index && 0 < n && index + n <= MemorySize
    requires before == if SpriteCovers(memory, index, x, y, n - 1, cx, cy) then Screen.FlipLowBit(old_) else old_
    requires after == if Screen.Covers(x, y + (n - 1), memory[index + (n - 1)], Screen.RowWidth, cx, cy)
                      then Screen.FlipLowBit(before) else before
    ensures after == if SpriteCovers(memory, index, x, y, n, cx, cy) then Screen.FlipLowBit(old_) else old_
  {
  }

  /// Rows read from inside memory flip the low bit of on-screen pixel
  /// (cx, cy) exactly when the sprite covers it.
  lemma {:induction false} DrawRowsCell(g: seq<Byte>, memory: seq<Byte>, index: int, x: int, y: int, n: nat,
                                        cx: int, cy: int)
    requires |g| == Screen.CellCount && |memory| == MemorySize && 0 <= index && index + n <= MemorySize
    requires Screen.OnScreen(cx, cy)
    ensures DrawRows(g, memory, index, x, y, n).grid[Screen.CellIndex(cx, cy)]
            == if SpriteCovers(memory, index, x, y, n, cx, cy)
               then Screen.FlipLowBit(g[Screen.CellIndex(cx, cy)]) else g[Screen.CellIndex(cx, cy)]
  {
    if n > 0 {
      DrawRowsCell(g, memory, index, x, y, n - 1, cx, cy);
      DrawRowsComplete(g, memory, index, x, y, n - 1);
      NextRowPixel(g, memory, index, x, y, n, cx, cy);
      Screen.BlitCell(DrawRows(g, memory, index, x, y, n - 1).grid, x, y + (n - 1), memory[index + (n - 1)], cx, cy);
      CoverStep(g[Screen.CellIndex(cx, cy)], DrawRows(g, memory, index, x, y, n - 1).grid[Screen.CellIndex(cx, cy)],
                DrawRows(g, memory, index, x, y, n).grid[Screen.CellIndex(cx, cy)], memory, index, x, y, n, cx, cy);
    }
  }

  /// Rows read from inside memory are all drawn, and they flip the low bit
  /// of exactly the on-screen pixels the sprite covers.
  lemma DrawRowsCells(g: seq<Byte>, memory: seq<Byte>, index: int, x: int, y: int, n: nat)
    requires |g| == Screen.CellCount && |memory| == MemorySize && 0 <= index && index + n <= MemorySize
    ensures DrawRows(g, memory, index, x, y, n).complete
    ensures forall cx, cy :: Screen.OnScreen(cx, cy) ==>
              DrawRows(g, memory, index, x, y, n).grid[Screen.CellIndex(cx, cy)]
              == if SpriteCovers(memory, index, x, y, n, cx, cy)
                 then Screen.FlipLowBit(g[Screen.CellIndex(cx, cy)]) else g[Screen.CellIndex(cx, cy)]
  {
    DrawRowsComplete(g, memory, index, x, y, n);
    forall cx, cy | Screen.OnScreen(cx, cy)
      ensures DrawRows(g, memory, index, x, y, n).grid[Screen.CellIndex(cx, cy)]
              == if SpriteCovers(memory, index, x, y, n, cx, cy)
                 then Screen.FlipLowBit(g[Screen.CellIndex(cx, cy)]) else g[Screen.CellIndex(cx, cy)]
    {
      DrawRowsCell(g, memory, index, x, y, n, cx, cy);
    }
  }

  /// Rows read from inside memory report a collision exactly when a pixel
  /// the sprite covers was lit beforehand.
  lemma {:induction false} DrawRowsCollision(g: seq<Byte>, memory: seq<Byte>, index: int, x: int, y: int, n: nat)
    requires |g| == Screen.CellCount && |memory| == MemorySize && 0 <= index && index + n <= MemorySize
    ensures DrawRows(g, memory, index, x, y, n).collision
            <==> exists cx, cy :: Screen.OnScreen(cx, cy) && SpriteCovers(memory, index, x, y, n, cx, cy)
                                  && g[Screen.CellIndex(cx, cy)] == 1
  {
    if n > 0 {
      DrawRowsCollision(g, memory, index, x, y, n - 1);
      DrawRowsComplete(g, memory, index, x, y, n - 1);
      NextRowFlag(g, memory, index, x, y, n);
      Screen.BlitErased(DrawRows(g, memory, index, x, y, n - 1).grid, x, y + (n - 1), memory[index + (n - 1)]);
      NextRowCollision(g, memory, index, x, y, n);
    }
  }

  /// A lit pixel under the first `n` rows is one under the first `n - 1`
  /// rows, or one under row `n - 1`, which the earlier rows left alone.
  lemma NextRowCollision(g: seq<Byte>, memory: seq<Byte>, index: int, x: int, y: int, n: nat)
    requires |g| == Screen.CellCount && |memory| == MemorySize && 0 <= index && 0 < n && index + n <= MemorySize
    ensures var before := DrawRows(g, memory, index, x, y, n - 1).grid;
            var sprite := memory[index + (n - 1)];
            (exists cx, cy :: Screen.OnScreen(cx, cy) && SpriteCovers(memory, index, x, y, n, cx, cy)
                              && g[Screen.CellIndex(cx, cy)] == 1)
            <==> (exists cx, cy :: Screen.OnScreen(cx, cy) && SpriteCovers(memory, index, x, y, n - 1, cx, cy)
                                   && g[Screen.CellIndex(cx, cy)] == 1)
                 || (exists cx, cy :: Screen.OnScreen(cx, cy) && Screen.Covers(x, y + (n - 1), sprite, Screen.RowWidth, cx, cy)
                                      && before[Screen.CellIndex(cx, cy)] == 1)
  {
    var before := DrawRows(g, memory, index, x, y, n - 1).grid;
    var sprite := memory[index + (n - 1)];
    forall cx, cy | Screen.OnScreen(cx, cy)
      ensures SpriteCovers(memory, index, x, y, n, cx, cy)
              <==> SpriteCovers(memory, index, x, y, n - 1, cx, cy) || Screen.Covers(x, y + (n - 1), sprite, Screen.RowWidth, cx, cy)
      ensures Screen.Covers(x, y + (n - 1), sprite, Screen.RowWidth, cx, cy) ==> before[Screen.CellIndex(cx, cy)] == g[Screen.CellIndex(cx, cy)]
    {
      DrawRowsCell(g, memory, index, x, y, n - 1, cx, cy);
    }
  }

  /// Drawing the same rows at the same place twice restores the buffer.
  lemma DrawRowsTwice(g: seq<Byte>, memory: seq<Byte>, index: int, x: int, y: int, n: nat)
    requires |g| == Screen.CellCount && |memory| == MemorySize && 0 <= index && index + n <= MemorySize
    ensures DrawRows(DrawRows(g, memory, index, x, y, n).grid, memory, index, x, y, n).grid == g
  {
    var once := DrawRows(g, memory, index, x, y, n).grid;
    var twice := DrawRows(once, memory, index, x, y, n).grid;
    forall k | 0 <= k < Screen.CellCount
      ensures twice[k] == g[k]
    {
      Screen.CellOf(k);
      DrawRowsCell(g, memory, index, x, y, n, k % Screen.Width, k / Screen.Width);
      DrawRowsCell(once, memory, index, x, y, n, k % Screen.Width, k / Screen.Width);
      Screen.FlipLowBitInvolution(g[k]);
    }
  }

  /// Whatever happens, the frame buffer stays a 0/1 grid.
  lemma {:induction false} DrawRowsGrid(g: seq<Byte>, memory: seq<Byte>, index: int, x: int, y: int, n: nat)
    requires Screen.IsGrid(g) && |memory| == MemorySize && 0 <= index
    ensures Screen.IsGrid(DrawRows(g, memory, index, x, y, n).grid)
  {
    if n > 0 {
      DrawRowsGrid(g, memory, index, x, y, n - 1);
      var before := DrawRows(g, memory, index, x, y, n - 1);
      if before.complete && index + (n - 1) <= 4095 {
        Screen.BlitCells(before.grid, x, y + (n - 1), memory[index + (n - 1)]);
      }
    }
  }

  /// A sprite whose rows run past address 4095 stops at the first row
  /// outside memory.
  lemma DrawRowsOutside(g: seq<Byte>, memory: seq<Byte>, index: int, x: int, y: int, n: nat)
    requires |g| == Screen.CellCount && |memory| == MemorySize && 0 <= index && index <= MemorySize
    requires index + n > MemorySize
    ensures !DrawRows(g, memory, index, x, y, n).complete
    ensures DrawRows(g, memory, index, x, y, n).grid == DrawRows(g, memory, index, x, y, MemorySize - index).grid
  {
    var k := MemorySize - index;
    DrawRowsComplete(g, memory, index, x, y, k);
    DrawRowsStuck(g, memory, index, x, y, k + 1, n);
  }

  /// Dxyn with every row inside memory: the pixels the sprite covers are
  /// inverted and no other, VF is 1 exactly when one of them was lit, and
  /// only the frame buffer, VF and the draw flag change.
  lemma DrawSpriteInMemory(s: State, op: Word)
    requires Valid(s) && s.index + N(op) <= MemorySize
    ensures var t := DrawSprite(s, op);
            && t.outcome == Ok
            && (forall cx, cy :: Screen.OnScreen(cx, cy) ==>
                  t.state.display[Screen.CellIndex(cx, cy)]
                  == if SpriteCovers(s.memory, s.index, s.v[X(op)], s.v[Y(op)], N(op), cx, cy)
                     then 1 - s.display[Screen.CellIndex(cx, cy)] else s.display[Screen.CellIndex(cx, cy)])
            && (t.state.v[Flag] == 1
                <==> exists cx, cy :: Screen.OnScreen(cx, cy)
                                      && SpriteCovers(s.memory, s.index, s.v[X(op)], s.v[Y(op)], N(op), cx, cy)
                                      && s.display[Screen.CellIndex(cx, cy)] == 1)
            && t.state.v[Flag] <= 1
            && t.state.v == s.v[Flag := t.state.v[Flag]]
            && t.state == s.(display := t.state.display, v := t.state.v, drawRequired := true)
  {
    var x, y := s.v[X(op)], s.v[Y(op)];
    DrawRowsCells(s.display, s.memory, s.index, x, y, N(op));
    DrawRowsCollision(s.display, s.memory, s.index, x, y, N(op));
    forall k | 0 <= k < Screen.CellCount
      ensures Screen.FlipLowBit(s.display[k]) == 1 - s.display[k]
    {
      Screen.FlipLowBitInvolution(s.display[k]);
    }
  }

  /// Dxyn with a row past address 4095 throws: the rows inside memory are
  /// drawn first, and VF is not written.
  lemma DrawSpriteOutside(s: State, op: Word)
    requires Valid(s) && s.index + N(op) > MemorySize && N(op) > 0
    ensures var t := DrawSprite(s, op);
            && t.outcome == Failed(InvalidAddress)
            && t.state == s.(display := t.state.display, drawRequired := true)
            && t.state.display
               == if s.index <= MemorySize
                  then DrawRows(s.display, s.memory, s.index, s.v[X(op)], s.v[Y(op)], MemorySize - s.index).grid
                  else s.display
  {
    var x, y := s.v[X(op)], s.v[Y(op)];
    if s.index <= MemorySize {
      DrawRowsOutside(s.display, s.memory, s.index, x, y, N(op));
    } else {
      DrawRowsStuck(s.display, s.memory, s.index, x, y, 1, N(op));
    }
  }

  /// Drawing the same sprite twice at the same place restores the frame
  /// buffer, as long as neither coordinate register is VF (which the
  /// first draw overwrites).
  lemma DrawSpriteTwice(s: State, op: Word)
    requires Valid(s) && s.index + N(op) <= MemorySize && X(op) != Flag && Y(op) != Flag
    ensures Valid(DrawSprite(s, op).state)
    ensures DrawSprite(DrawSprite(s, op).state, op).state.display == s.display
  {
    var x, y := s.v[X(op)], s.v[Y(op)];
    DrawSpriteInMemory(s, op);
    DrawRowsGrid(s.display, s.memory, s.index, x, y, N(op));
    DrawRowsTwice(s.display, s.memory, s.index, x, y, N(op));
  }

  /// A cycle that is not waiting and fetches inside memory runs the
  /// handler of the fetched instruction with PC past it.
  lemma TickRuns(s: State, random: Byte)
    requires Valid(s) && Runnable(s) && !s.waiting && s.pc + 1 < MemorySize
    ensures Tick(s, random)
            == Run(GetHandler(Fetched(s)), s.(drawRequired := false, opcode := Fetched(s), pc := s.pc + 2),
                   Fetched(s), random)
  {
  }

  /// The fetched instruction is big-endian: the byte at PC is its high half
  /// and the byte after it its low half.
  lemma FetchedHalves(s: State)
    requires |s.memory| == MemorySize && s.pc + 1 < MemorySize
    ensures Fetched(s) / 0x100 == s.memory[s.pc] && Fetched(s) % 0x100 == s.memory[s.pc + 1]
    ensures Family(Fetched(s)) == s.memory[s.pc] / 0x10
  {
    var high: int, low: int := s.memory[s.pc], s.memory[s.pc + 1];
    assert Fetched(s) == 0x100 * high + low;
    var q, m := high / 0x10, high % 0x10;
    assert Fetched(s) == 0x1000 * q + (0x100 * m + low);
  }

  /// A cycle that is not waiting and fetches inside memory leaves in the
  /// opcode register the big-endian word at PC, and it has dispatched on
  /// the high nibble of the byte at PC.
  lemma TickFetches(s: State, random: Byte)
    requires Valid(s) && Runnable(s) && !s.waiting && s.pc + 1 < MemorySize
    ensures var u := Tick(s, random).state;
            && u.opcode / 0x100 == s.memory[s.pc]
            && u.opcode % 0x100 == s.memory[s.pc + 1]
            && Key(GetHandler(u.opcode)) == s.memory[s.pc] / 0x10
  {
    TickRuns(s, random);
    FetchedHalves(s);
    var op := Fetched(s);
    RunOpcodeAndWaiting(GetHandler(op), s.(drawRequired := false, opcode := op, pc := s.pc + 2), op, random);
  }

  /// No handler writes the opcode register, and only Fx0A raises the
  /// waiting flag; none lowers it.
  lemma RunOpcodeAndWaiting(h: Handler, s: State, op: Word, random: Byte)
    requires Valid(s) && Key(h) == Family(op) && !NativeFault(s, op)
    ensures var t := Run(h, s, op, random).state;
            && t.opcode == s.opcode
            && t.waiting == (s.waiting || (Family(op) == 0xF && KK(op) == 0x0A))
  {
    match h {
      case Handle8MostSignificantNibble => Handle8Keeps(s, op);
      case HandleFMostSignificantNibble => HandleFKeeps(s, op);
      case HandleDrawSprite =>
      case _ =>
    }
  }

  /// The 8 family writes neither the opcode register nor the waiting flag.
  lemma Handle8Keeps(s: State, op: Word)
    requires Valid(s)
    ensures Handle8(s, op).state.opcode == s.opcode && Handle8(s, op).state.waiting == s.waiting
  {
    if N(op) == 0x4 {
      assert Handle8(s, op) == Step(RegisterAdd(s, op), Ok);
    } else if N(op) == 0x5 {
      assert Handle8(s, op) == Step(RegisterSub(s, op), Ok);
    } else if N(op) == 0x7 {
      assert Handle8(s, op) == Step(RegisterSUBN(s, op), Ok);
    }
  }

  /// The F family leaves the opcode register alone and raises the waiting
  /// flag exactly for Fx0A.
  lemma HandleFKeeps(s: State, op: Word)
    requires Valid(s)
    ensures HandleF(s, op).state.opcode == s.opcode
    ensures HandleF(s, op).state.waiting == (s.waiting || KK(op) == 0x0A)
  {
  }
}
