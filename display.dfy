/// The 64x32 monochrome frame buffer. Each cell holds 0 or 1; pixels are
/// toggled by exclusive or and a toggle that turns a lit cell off is a
/// collision.
module Screen {
  import opened Bytes

  const Width: int := 64
  const Height: int := 32
  const CellCount: nat := 2048

  /// A frame buffer: 2048 cells, row-major, each 0 or 1.
  ghost predicate IsGrid(g: seq<Byte>)
  {
    |g| == CellCount && forall k :: 0 <= k < |g| ==> g[k] <= 1
  }

  /// The buffer that `Clear` leaves: every pixel off.
  function Blank(): (g: seq<Byte>)
    ensures IsGrid(g)
    ensures forall k :: 0 <= k < CellCount ==> g[k] == 0
  {
    seq(CellCount, _ => 0)
  }

  predicate OnScreen(x: int, y: int)
  {
    0 <= x < Width && 0 <= y < Height
  }

  function CellIndex(x: int, y: int): int
  {
    y * 64 + x
  }

  /// A buffer after drawing, and whether the drawing erased a lit pixel.
  datatype Drawn = Drawn(grid: seq<Byte>, erased: bool)

  /// `SetPixel(x, y, on)` on a buffer: off-screen coordinates change
  /// nothing and report no collision; on-screen, the cell is xor-ed with
  /// `on` and the collision is "the cell went from 1 to 0".
  function Toggle(g: seq<Byte>, x: int, y: int, on: bool): (r: Drawn)
    requires |g| == CellCount
    ensures |r.grid| == CellCount
  {
    if x < 0 || y < 0 || x > 63 || y > 31 then
      Drawn(g, false)
    else
      var i := y * 64 + x;
      var current := g[i];
      var next := if on then FlipLowBit(current) else current;
      Drawn(g[i := next], current == 1 && next == 0)
  }

  /// `b ^ 1`, written arithmetically.
  function FlipLowBit(b: Byte): (r: Byte)
  {
    if b % 2 == 0 then b + 1 else b - 1
  }

  /// Flipping the low bit twice gives the byte back; on 0 and 1 it swaps
  /// them.
  lemma FlipLowBitInvolution(b: Byte)
    ensures FlipLowBit(FlipLowBit(b)) == b
    ensures b <= 1 ==> FlipLowBit(b) == 1 - b
  {
  }

  /// Off screen nothing changes; on screen only the addressed cell changes:
  /// its low bit is flipped when `on` holds, and a collision is reported
  /// exactly when a lit cell is flipped. A 0/1 buffer stays 0/1.
  lemma ToggleCells(g: seq<Byte>, x: int, y: int, on: bool)
    requires |g| == CellCount
    ensures !OnScreen(x, y) ==> Toggle(g, x, y, on) == Drawn(g, false)
    ensures IsGrid(g) ==> IsGrid(Toggle(g, x, y, on).grid)
    ensures forall k :: 0 <= k < CellCount && k != CellIndex(x, y) ==> Toggle(g, x, y, on).grid[k] == g[k]
    ensures OnScreen(x, y) ==>
              && Toggle(g, x, y, on).grid[CellIndex(x, y)] == (if on then FlipLowBit(g[CellIndex(x, y)]) else g[CellIndex(x, y)])
              && (Toggle(g, x, y, on).erased <==> on && g[CellIndex(x, y)] == 1)
  {
  }

  /// The masks `0b10000000` .. `0b00000001` that `DrawSprite` tests, most
  /// significant bit first.
  const Masks: seq<Byte> := [0x80, 0x40, 0x20, 0x10, 0x08, 0x04, 0x02, 0x01]

  /// Pixels in one sprite row.
  const RowWidth: nat := 8

  /// Whether pixel `k` (0 = leftmost) of a sprite row is set.
  predicate SpriteBit(sprite: Byte, k: int)
    requires 0 <= k < 8
  {
    BitAnd(sprite, Masks[k]) == Masks[k]
  }

  /// Pixel `k` of a sprite row (0 = leftmost) is its binary digit `7 - k`.
  predicate PixelOn(sprite: Byte, k: int)
    requires 0 <= k < RowWidth
  {
    Bit(sprite, 7 - k)
  }

  /// Mask `k` is the power of two of binary digit `7 - k`.
  lemma MaskPower(k: int)
    requires 0 <= k < RowWidth
    ensures Masks[k] == Pow2(7 - k)
  {
    assert Pow2(7) == 0x80 && Pow2(6) == 0x40 && Pow2(5) == 0x20 && Pow2(4) == 0x10;
    assert Pow2(3) == 0x08 && Pow2(2) == 0x04 && Pow2(1) == 0x02 && Pow2(0) == 0x01;
  }

  /// Testing a sprite row against mask `k` reads its binary digit `k`,
  /// counted from the most significant.
  lemma MaskBit(sprite: Byte, k: int)
    requires 0 <= k < RowWidth
    ensures SpriteBit(sprite, k) <==> PixelOn(sprite, k)
  {
    MaskPower(k);
    AndPowerOfTwo(sprite, 7 - k, 8);
  }

  /// The first `n` pixels of a sprite row drawn at (x, y), left to right,
  /// with the collisions of the individual pixels or-ed together.
  function BlitBits(g: seq<Byte>, x: int, y: int, sprite: Byte, n: nat): (r: Drawn)
    requires |g| == CellCount && n <= RowWidth
    ensures |r.grid| == CellCount
  {
    if n == 0 then
      Drawn(g, false)
    else
      var d := BlitBits(g, x, y, sprite, n - 1);
      var t := Toggle(d.grid, x + (n - 1), y, PixelOn(sprite, n - 1));
      Drawn(t.grid, d.erased || t.erased)
  }

  /// `DrawSprite(x, y, sprite)` on a buffer: all eight pixels.
  function Blit(g: seq<Byte>, x: int, y: int, sprite: Byte): (r: Drawn)
    requires |g| == CellCount
    ensures |r.grid| == CellCount
  {
    BlitBits(g, x, y, sprite, RowWidth)
  }

  /// Pixel (cx, cy) is one of the first `n` pixels of the sprite row drawn
  /// at (x, y), and its bit is set.
  predicate Covers(x: int, y: int, sprite: Byte, n: nat, cx: int, cy: int)
    requires n <= RowWidth
  {
    cy == y && 0 <= cx - x < n && PixelOn(sprite, cx - x)
  }

  /// Drawing the first `n` pixels flips the low bit of on-screen pixel
  /// (cx, cy) exactly when one of them covers it.
  lemma {:induction false} BlitBitsCell(g: seq<Byte>, x: int, y: int, sprite: Byte, n: nat, cx: int, cy: int)
    requires |g| == CellCount && n <= RowWidth && OnScreen(cx, cy)
    ensures BlitBits(g, x, y, sprite, n).grid[CellIndex(cx, cy)]
            == if Covers(x, y, sprite, n, cx, cy) then FlipLowBit(g[CellIndex(cx, cy)]) else g[CellIndex(cx, cy)]
  {
    if n > 0 {
      BlitBitsCell(g, x, y, sprite, n - 1, cx, cy);
      if OnScreen(x + (n - 1), y) {
        CellIndexInjective(x + (n - 1), y, cx, cy);
      }
    }
  }

  /// Distinct on-screen pixels have distinct cells.
  lemma CellIndexInjective(a: int, b: int, c: int, d: int)
    requires OnScreen(a, b) && OnScreen(c, d)
    ensures CellIndex(a, b) == CellIndex(c, d) <==> a == c && b == d
  {
    if b < d {
      assert CellIndex(a, b) < 64 * (b + 1) <= 64 * d <= CellIndex(c, d);
    } else if d < b {
      assert CellIndex(c, d) < 64 * (d + 1) <= 64 * b <= CellIndex(a, b);
    }
  }

  /// Every cell index is the index of the pixel in its column and row.
  lemma CellOf(k: int)
    requires 0 <= k < CellCount
    ensures OnScreen(k % Width, k / Width) && CellIndex(k % Width, k / Width) == k
  {
  }

  /// Drawing the first `n` pixels flips the low bit of exactly the
  /// covered pixels; a 0/1 buffer stays 0/1.
  lemma BlitBitsCells(g: seq<Byte>, x: int, y: int, sprite: Byte, n: nat)
    requires |g| == CellCount && n <= RowWidth
    ensures IsGrid(g) ==> IsGrid(BlitBits(g, x, y, sprite, n).grid)
    ensures forall cx, cy :: OnScreen(cx, cy) ==>
              BlitBits(g, x, y, sprite, n).grid[CellIndex(cx, cy)]
              == if Covers(x, y, sprite, n, cx, cy) then FlipLowBit(g[CellIndex(cx, cy)]) else g[CellIndex(cx, cy)]
  {
    var r := BlitBits(g, x, y, sprite, n).grid;
    forall cx, cy | OnScreen(cx, cy)
      ensures r[CellIndex(cx, cy)]
              == if Covers(x, y, sprite, n, cx, cy) then FlipLowBit(g[CellIndex(cx, cy)]) else g[CellIndex(cx, cy)]
    {
      BlitBitsCell(g, x, y, sprite, n, cx, cy);
    }
    if IsGrid(g) {
      forall k | 0 <= k < CellCount
        ensures r[k] <= 1
      {
        CellOf(k);
        FlipLowBitInvolution(g[k]);
      }
    }
  }

  /// Drawing the first `n` pixels reports a collision exactly when one of
  /// the covered pixels was lit beforehand.
  lemma {:induction false} BlitBitsErased(g: seq<Byte>, x: int, y: int, sprite: Byte, n: nat)
    requires |g| == CellCount && n <= RowWidth
    ensures BlitBits(g, x, y, sprite, n).erased <==>
              exists cx, cy :: OnScreen(cx, cy) && Covers(x, y, sprite, n, cx, cy) && g[CellIndex(cx, cy)] == 1
  {
    if n > 0 {
      BlitBitsErased(g, x, y, sprite, n - 1);
      var cx, cy := x + (n - 1), y;
      if OnScreen(cx, cy) {
        BlitBitsCell(g, x, y, sprite, n - 1, cx, cy);
        assert !Covers(x, y, sprite, n - 1, cx, cy);
        if PixelOn(sprite, n - 1) {
          assert Covers(x, y, sprite, n, cx, cy);
        }
      }
      forall cx', cy' | OnScreen(cx', cy') && Covers(x, y, sprite, n, cx', cy')
        ensures Covers(x, y, sprite, n - 1, cx', cy') || (cx' == cx && cy' == cy)
      {
      }
    }
  }

  /// A sprite row flips the low bit of exactly the on-screen pixels of
  /// row `y`, from column `x` on, whose mask bit is set (most significant
  /// bit leftmost); a 0/1 buffer stays 0/1.
  lemma BlitCells(g: seq<Byte>, x: int, y: int, sprite: Byte)
    requires |g| == CellCount
    ensures IsGrid(g) ==> IsGrid(Blit(g, x, y, sprite).grid)
    ensures forall cx, cy :: OnScreen(cx, cy) ==>
              Blit(g, x, y, sprite).grid[CellIndex(cx, cy)]
              == if cy == y && 0 <= cx - x < RowWidth && SpriteBit(sprite, cx - x)
                 then FlipLowBit(g[CellIndex(cx, cy)]) else g[CellIndex(cx, cy)]
  {
    BlitBitsCells(g, x, y, sprite, RowWidth);
    forall k | 0 <= k < RowWidth
      ensures SpriteBit(sprite, k) <==> PixelOn(sprite, k)
    {
      MaskBit(sprite, k);
    }
  }

  /// A sprite row flips the low bit of on-screen pixel (cx, cy) exactly
  /// when it covers it.
  lemma BlitCell(g: seq<Byte>, x: int, y: int, sprite: Byte, cx: int, cy: int)
    requires |g| == CellCount && OnScreen(cx, cy)
    ensures Blit(g, x, y, sprite).grid[CellIndex(cx, cy)]
            == if Covers(x, y, sprite, RowWidth, cx, cy) then FlipLowBit(g[CellIndex(cx, cy)]) else g[CellIndex(cx, cy)]
  {
    BlitBitsCell(g, x, y, sprite, RowWidth, cx, cy);
  }

  /// A sprite row reports a collision exactly when one of the pixels it
  /// flips was lit beforehand.
  lemma BlitErased(g: seq<Byte>, x: int, y: int, sprite: Byte)
    requires |g| == CellCount
    ensures Blit(g, x, y, sprite).erased <==>
              exists cx, cy :: OnScreen(cx, cy) && Covers(x, y, sprite, RowWidth, cx, cy) && g[CellIndex(cx, cy)] == 1
  {
    BlitBitsErased(g, x, y, sprite, RowWidth);
  }

  /// Drawing the same row pattern at the same place twice restores the
  /// buffer: exclusive or is an involution.
  lemma BlitBitsTwice(g: seq<Byte>, x: int, y: int, sprite: Byte, n: nat)
    requires |g| == CellCount && n <= RowWidth
    ensures BlitBits(BlitBits(g, x, y, sprite, n).grid, x, y, sprite, n).grid == g
  {
    var once := BlitBits(g, x, y, sprite, n).grid;
    var twice := BlitBits(once, x, y, sprite, n).grid;
    forall k | 0 <= k < CellCount
      ensures twice[k] == g[k]
    {
      CellOf(k);
      BlitBitsCell(g, x, y, sprite, n, k % Width, k / Width);
      BlitBitsCell(once, x, y, sprite, n, k % Width, k / Width);
      FlipLowBitInvolution(g[k]);
    }
  }

  /// Drawing the same sprite row at the same place twice restores the
  /// buffer.
  lemma BlitTwice(g: seq<Byte>, x: int, y: int, sprite: Byte)
    requires |g| == CellCount
    ensures Blit(Blit(g, x, y, sprite).grid, x, y, sprite).grid == g
  {
    BlitBitsTwice(g, x, y, sprite, RowWidth);
  }

  class Display {
    var cells: array<Byte>

    ghost predicate Valid()
      reads this, cells
    {
      IsGrid(cells[..])
    }

    constructor ()
      ensures Valid() && fresh(cells)
      ensures cells[..] == Blank()
    {
      cells := new Byte[CellCount](_ => 0);
    }

    /// Replaces the buffer by a new, blank one.
    method Clear()
      modifies this
      ensures Valid() && fresh(cells)
      ensures cells[..] == Blank()
      ensures forall x, y :: OnScreen(x, y) ==> !GetPixel(x, y)
    {
      cells := new Byte[CellCount](_ => 0);
    }

    /// Toggles one pixel; see `Toggle`.
    method SetPixel(x: int, y: int, on: bool) returns (erased: bool)
      requires Valid()
      modifies cells
      ensures Valid()
      ensures Drawn(cells[..], erased) == Toggle(old(cells[..]), x, y, on)
    {
      if x < 0 || y < 0 || x > 63 || y > 31 {
        return false;
      }
      var yOffset := y * 64;
      var i := yOffset + x;
      var current := cells[i];
      var update := if on then 1 else 0;
      ToggleCells(cells[..], x, y, on);
      XorOfBits(current, update);
      cells[i] := BitXor(current, update);
      erased := current == 1 && cells[i] == 0;
    }

    /// Draws one sprite row at (x, y), most significant bit leftmost; the
    /// result is the or of the eight pixels' collisions. The eight
    /// `SetPixel` calls, one per mask, are written as a loop over `Masks`.
    method DrawSprite(x: int, y: int, sprite: Byte) returns (collision: bool)
      requires Valid()
      modifies cells
      ensures Valid()
      ensures Drawn(cells[..], collision) == Blit(old(cells[..]), x, y, sprite)
    {
      ghost var g := cells[..];
      collision := false;
      for k := 0 to RowWidth
        invariant Valid()
        invariant Drawn(cells[..], collision) == BlitBits(g, x, y, sprite, k)
      {
        MaskBit(sprite, k);
        var erased := SetPixel(x + k, y, BitAnd(sprite, Masks[k]) == Masks[k]);
        collision := collision || erased;
      }
    }

    /// Whether pixel (x, y) is lit. The source does not check the bounds:
    /// only the computed cell index must lie inside the buffer.
    function GetPixel(x: int, y: int): (r: bool)
      requires Valid() && 0 <= CellIndex(x, y) < CellCount
      reads this, cells
      ensures r <==> cells[CellIndex(x, y)] == 1
    {
      var yOffset := y * 64;
      var i := yOffset + x;
      cells[i] == 1
    }
  }
}
