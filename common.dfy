/** Small shared vocabulary: optional values, results, and the 16-bit word. */
module Common {

  datatype Option<+T> = None | Some(value: T)

  datatype Result<+T, +E> = Ok(value: T) | Err(error: E)

  /** An unsigned 16-bit quantity (`uint16_t`). */
  type Word = x: int | 0 <= x < 0x1_0000

  /** Conversion of an integer to `uint16_t`: reduction modulo 2^16 (Dafny's `%` is Euclidean,
      which is what the C++ conversion of a negative `int` to an unsigned type does). */
  function ToWord(x: int): (w: Word)
    ensures w == x % 0x1_0000
    ensures 0 <= x < 0x1_0000 ==> w == x
  {
    x % 0x1_0000
  }

  /** Truncating after each of two additions is truncating once. */
  lemma ToWordAdd(x: int, y: int)
    ensures ToWord(ToWord(x) + y) == ToWord(x + y)
  {
    var q := x / 0x1_0000;
    assert x == q * 0x1_0000 + ToWord(x);
    assert (ToWord(x) + y) % 0x1_0000 == (q * 0x1_0000 + ToWord(x) + y) % 0x1_0000;
  }

  /** 2 to the power `n`. */
  function Pow2(n: nat): (p: nat)
    ensures p >= 1
  {
    if n == 0 then 1 else 2 * Pow2(n - 1)
  }

  /** Bitwise OR of two naturals, one bit at a time from the lowest. */
  function BitOr(a: nat, b: nat): nat
    decreases a + b
  {
    if a == 0 then b
    else if b == 0 then a
    else 2 * BitOr(a / 2, b / 2) + (if a % 2 == 1 || b % 2 == 1 then 1 else 0)
  }

  /** OR of two numbers of `n` bits has `n` bits. */
  lemma {:induction false} BitOrBelow(a: nat, b: nat, n: nat)
    requires a < Pow2(n) && b < Pow2(n)
    ensures BitOr(a, b) < Pow2(n)
  {
    if a != 0 && b != 0 {
      assert n > 0;
      BitOrBelow(a / 2, b / 2, n - 1);
    }
  }

  /** When `b` fits in the low `n` bits, which `Pow2(n) * k` leaves clear, OR is addition. */
  lemma {:induction false} BitOrDisjoint(k: nat, b: nat, n: nat)
    requires b < Pow2(n)
    ensures BitOr(Pow2(n) * k, b) == Pow2(n) * k + b
  {
    var a := Pow2(n) * k;
    if a != 0 && b != 0 {
      assert n > 0;
      var x := Pow2(n - 1) * k;
      assert a == 2 * x;
      BitOrDisjoint(k, b / 2, n - 1);
    }
  }

  /** Bitwise OR of two 16-bit words. */
  function Or(a: Word, b: Word): (r: Word)
    ensures a < 64 && b < 64 ==> r < 64
  {
    OrBounds(a, b);
    BitOr(a, b)
  }

  lemma OrBounds(a: Word, b: Word)
    ensures BitOr(a, b) < 0x1_0000
    ensures a < 64 && b < 64 ==> BitOr(a, b) < 64
  {
    assert Pow2(6) == 64;
    assert Pow2(16) == 0x1_0000;
    BitOrBelow(a, b, 16);
    if a < 64 && b < 64 {
      BitOrBelow(a, b, 6);
    }
  }

  /** The remainder by 256 is the one digit below 256 of any such split. */
  lemma RemainderOf(x: int, k: int, b: int)
    requires x == 256 * k + b && 0 <= b < 256
    ensures x % 256 == b
  {
  }

  /** `x & 0xFF` for any `int` in two's complement: the low byte. */
  function LowByte(x: int): (b: int)
    ensures 0 <= b < 0x100
    ensures x % 0x100 == b
  {
    x % 0x100
  }
}
