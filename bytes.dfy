/// Machine words of the interpreter and the C# conversions between them.
///
/// Bytes and 16-bit words are modelled as bounded integers. The unchecked
/// casts `(byte)` and `(ushort)` of the source truncate modulo 2^8 and 2^16;
/// Dafny's `%` is Euclidean, which agrees with that truncation also for the
/// negative intermediate results of a subtraction.
module Bytes {

  /// An unsigned 8-bit value (C# `byte`).
  type Byte = x: int | 0 <= x < 0x100

  /// An unsigned 16-bit value (C# `ushort`).
  type Word = x: int | 0 <= x < 0x1_0000

  datatype Option<+T> = None | Some(value: T)

  /// The C# cast `(byte)x`: keeps the low eight bits.
  function ToByte(x: int): (r: Byte)
    ensures 0 <= x < 0x100 ==> r == x
    ensures (x - r) % 0x100 == 0
  {
    x % 0x100
  }

  /// The C# cast `(ushort)x`: keeps the low sixteen bits.
  function ToWord(x: int): (r: Word)
    ensures 0 <= x < 0x1_0000 ==> r == x
    ensures (x - r) % 0x1_0000 == 0
  {
    x % 0x1_0000
  }

  /// Bit `j` of `b`, counted from the least significant.
  function Bit(b: nat, j: nat): bool
  {
    if j == 0 then b % 2 == 1 else Bit(b / 2, j - 1)
  }

  /// 2 to the power `n`.
  function Pow2(n: nat): (r: nat)
    ensures r > 0
  {
    if n == 0 then 1 else 2 * Pow2(n - 1)
  }

  /// The low `n` bits of `a` and `b` combined bit by bit with "and".
  function AndBits(a: nat, b: nat, n: nat): (r: nat)
    ensures r < Pow2(n)
  {
    if n == 0 then 0
    else 2 * AndBits(a / 2, b / 2, n - 1) + (if a % 2 == 1 && b % 2 == 1 then 1 else 0)
  }

  /// The low `n` bits of `a` and `b` combined bit by bit with "or".
  function OrBits(a: nat, b: nat, n: nat): (r: nat)
    ensures r < Pow2(n)
  {
    if n == 0 then 0
    else 2 * OrBits(a / 2, b / 2, n - 1) + (if a % 2 == 1 || b % 2 == 1 then 1 else 0)
  }

  /// The low `n` bits of `a` and `b` combined bit by bit with "exclusive or".
  function XorBits(a: nat, b: nat, n: nat): (r: nat)
    ensures r < Pow2(n)
  {
    if n == 0 then 0
    else 2 * XorBits(a / 2, b / 2, n - 1) + (if a % 2 != b % 2 then 1 else 0)
  }

  /// The C# operator `a & b` on two bytes.
  function BitAnd(a: Byte, b: Byte): Byte
  {
    AndBits(a, b, 8)
  }

  /// The C# operator `a | b` on two bytes.
  function BitOr(a: Byte, b: Byte): Byte
  {
    OrBits(a, b, 8)
  }

  /// The C# operator `a ^ b` on two bytes.
  function BitXor(a: Byte, b: Byte): Byte
  {
    XorBits(a, b, 8)
  }

  /// Exclusive or with the same bits twice cancels.
  lemma {:induction false} XorBitsCancel(a: nat, b: nat, n: nat)
    requires a < Pow2(n)
    ensures XorBits(XorBits(a, b, n), b, n) == a
  {
    if n > 0 {
      XorBitsCancel(a / 2, b / 2, n - 1);
    }
  }

  /// And with the same bits again changes nothing.
  lemma {:induction false} AndBitsAbsorb(a: nat, b: nat, n: nat)
    ensures AndBits(AndBits(a, b, n), b, n) == AndBits(a, b, n)
  {
    if n > 0 {
      AndBitsAbsorb(a / 2, b / 2, n - 1);
    }
  }

  /// Or with the same bits again changes nothing.
  lemma {:induction false} OrBitsAbsorb(a: nat, b: nat, n: nat)
    ensures OrBits(OrBits(a, b, n), b, n) == OrBits(a, b, n)
  {
    if n > 0 {
      OrBitsAbsorb(a / 2, b / 2, n - 1);
    }
  }

  /// A value of `n` bits combined with itself is itself.
  lemma {:induction false} BitsSelf(a: nat, n: nat)
    requires a < Pow2(n)
    ensures AndBits(a, a, n) == a && OrBits(a, a, n) == a
  {
    if n > 0 {
      BitsSelf(a / 2, n - 1);
    }
  }

  /// And with 0 gives 0, and so does exclusive or of 0 with 0.
  lemma {:induction false} BitsZero(a: nat, n: nat)
    ensures AndBits(a, 0, n) == 0 && XorBits(0, 0, n) == 0
  {
    if n > 0 {
      BitsZero(a / 2, n - 1);
    }
  }

  /// And with the power of two `2^j` keeps exactly bit `j`.
  lemma {:induction false} AndPowerOfTwo(a: nat, j: nat, n: nat)
    requires j < n
    ensures AndBits(a, Pow2(j), n) == if Bit(a, j) then Pow2(j) else 0
  {
    if j == 0 {
      BitsZero(a / 2, n - 1);
    } else {
      AndPowerOfTwo(a / 2, j - 1, n - 1);
    }
  }

  /// Exclusive or with the same byte twice cancels.
  lemma BitXorCancel(a: Byte, b: Byte)
    ensures BitXor(BitXor(a, b), b) == a
  {
    XorBitsCancel(a, b, 8);
  }

  /// Or with the same byte again changes nothing.
  lemma BitOrAbsorb(a: Byte, b: Byte)
    ensures BitOr(BitOr(a, b), b) == BitOr(a, b)
  {
    OrBitsAbsorb(a, b, 8);
  }

  /// And with the same byte again changes nothing.
  lemma BitAndAbsorb(a: Byte, b: Byte)
    ensures BitAnd(BitAnd(a, b), b) == BitAnd(a, b)
  {
    AndBitsAbsorb(a, b, 8);
  }

  /// A byte or-ed or and-ed with itself is itself.
  lemma BitOrAndSelf(a: Byte)
    ensures BitOr(a, a) == a && BitAnd(a, a) == a
  {
    BitsSelf(a, 8);
  }

  /// And with 0 gives 0.
  lemma BitAndZero(a: Byte)
    ensures BitAnd(a, 0) == 0
  {
    BitsZero(a, 8);
  }

  /// On the values 0 and 1, exclusive or is inequality.
  lemma XorOfBits(a: Byte, b: Byte)
    requires a <= 1 && b <= 1
    ensures BitXor(a, b) == if a == b then 0 else 1
  {
    BitsZero(0, 7);
  }
}
