/** Java's 32-bit int arithmetic as the decoders use it, stated on unbounded integers.
    Java bytes are signed, `/` and `%` truncate toward zero, `>>` is an arithmetic shift,
    and `&` and `|` act on the two's-complement bit pattern. */
module JavaInt {

  const IntMin: int := -0x8000_0000
  const IntMax: int := 0x7FFF_FFFF

  /** An unsigned byte of a file. */
  type Byte = x: int | 0 <= x < 0x100

  function Abs(x: int): nat { if x < 0 then -x else x }

  function Pow2(k: nat): (r: nat)
    ensures r >= 1
  {
    if k == 0 then 1 else 2 * Pow2(k - 1)
  }

  /** Java's `a / b`: the quotient truncated toward zero. */
  function Div(a: int, b: int): int
    requires b != 0
  {
    var m := Abs(a) / Abs(b);
    if (a >= 0) == (b > 0) then m else -m
  }

  /** Java's `a % b`: the remainder takes the sign of the dividend. */
  function Rem(a: int, b: int): int
    requires b != 0
  {
    a - b * Div(a, b)
  }

  lemma DivRemNonNegative(a: int, b: int)
    requires a >= 0 && b > 0
    ensures Div(a, b) == a / b && Rem(a, b) == a % b
  {
  }

  /** Java's `(int) b` for a byte `b`: sign extension of its bit pattern. */
  function Signed(b: Byte): (v: int)
    ensures -128 <= v < 128
    ensures v % 256 == b
  {
    if b < 0x80 then b else b - 256
  }

  /** Reduction of an unbounded integer to Java's int range, as Java's int arithmetic wraps. */
  function Wrap32(v: int): (w: int)
    ensures IntMin <= w <= IntMax
    ensures IntMin <= v <= IntMax ==> w == v
  {
    (v - IntMin) % 0x1_0000_0000 + IntMin
  }

  /** Java's `x << k` on an int. */
  function Shl(x: int, k: nat): int
    requires k < 32
  {
    Wrap32(x * Pow2(k))
  }

  /** Java's arithmetic `x >> k`: floor division by 2^k. */
  function Shr(x: int, k: nat): int {
    x / Pow2(k)
  }

  datatype BitOp = AndOp | OrOp

  function BitOf(op: BitOp, a: int, b: int): int
    requires 0 <= a <= 1 && 0 <= b <= 1
  {
    match op
    case AndOp => if a == 1 && b == 1 then 1 else 0
    case OrOp => if a == 1 || b == 1 then 1 else 0
  }

  predicate Settled(x: int) { x == 0 || x == -1 }

  /** `x & y` (AndOp) or `x | y` (OrOp) on two's-complement integers, bit by bit from the
      least significant end. An integer whose remaining bits are all 0 (x == 0) or all 1
      (x == -1) is settled. */
  function Bitwise(op: BitOp, x: int, y: int): int
    decreases Abs(x) + Abs(y)
  {
    if Settled(x) && Settled(y) then -BitOf(op, -x, -y)
    else 2 * Bitwise(op, x / 2, y / 2) + BitOf(op, x % 2, y % 2)
  }

  function And(x: int, y: int): int { Bitwise(AndOp, x, y) }

  function Or(x: int, y: int): int { Bitwise(OrOp, x, y) }

  /** The recursion equation holds for settled arguments too. */
  lemma BitwiseStep(op: BitOp, x: int, y: int)
    ensures Bitwise(op, x, y) == 2 * Bitwise(op, x / 2, y / 2) + BitOf(op, x % 2, y % 2)
  {
    if Settled(x) && Settled(y) {
      assert x / 2 == x && y / 2 == y;
      assert x % 2 == -x && y % 2 == -y;
    }
  }

  /** Euclidean division is unique. */
  lemma DivModUnique(x: int, d: int, q: int, r: int)
    requires d > 0 && 0 <= r < d && x == q * d + r
    ensures x / d == q && x % d == r
  {
    var q', r' := x / d, x % d;
    assert (q - q') * d == r' - r by {
      assert (q - q') * d == q * d - q' * d;
    }
    if q' < q {
      MulAtLeast(q - q', d);
    } else if q < q' {
      MulAtLeast(q' - q, d);
    }
  }

  lemma Twice(h: int, p: int)
    ensures 2 * (h * p) == h * (2 * p)
  {
  }

  lemma MulAtLeast(a: int, d: int)
    requires a >= 1 && d > 0
    ensures a * d >= d
  {
  }

  lemma DivModTwice(x: int, p: nat)
    requires p >= 1
    ensures (x / 2) / p == x / (2 * p)
    ensures x % (2 * p) == 2 * ((x / 2) % p) + x % 2
  {
    var q, r, b := (x / 2) / p, (x / 2) % p, x % 2;
    assert x == q * (2 * p) + (2 * r + b) by {
      assert x == 2 * (x / 2) + b;
      assert x / 2 == q * p + r;
    }
    DivModUnique(x, 2 * p, q, 2 * r + b);
  }

  /** Splitting both operands at bit k splits the result there too. */
  lemma {:induction false} BitwiseSplit(op: BitOp, x: int, y: int, k: nat)
    ensures Bitwise(op, x, y)
         == Bitwise(op, x / Pow2(k), y / Pow2(k)) * Pow2(k) + Bitwise(op, x % Pow2(k), y % Pow2(k))
    decreases k
  {
    if k > 0 {
      var p, P := Pow2(k - 1), Pow2(k);
      assert P == 2 * p;
      var b := BitOf(op, x % 2, y % 2);
      var hi := Bitwise(op, (x / 2) / p, (y / 2) / p);
      var mid := Bitwise(op, (x / 2) % p, (y / 2) % p);
      BitwiseStep(op, x, y);
      BitwiseSplit(op, x / 2, y / 2, k - 1);
      assert Bitwise(op, x, y) == 2 * (hi * p + mid) + b;
      DivModTwice(x, p);
      DivModTwice(y, p);
      assert hi == Bitwise(op, x / P, y / P);
      var xl, yl := x % P, y % P;
      DivModUnique(xl, 2, (x / 2) % p, x % 2);
      DivModUnique(yl, 2, (y / 2) % p, y % 2);
      BitwiseStep(op, xl, yl);
      assert Bitwise(op, xl, yl) == 2 * mid + b;
      Twice(hi, p);
    }
  }

  lemma {:induction false} AndZero(x: int)
    ensures And(x, 0) == 0
    decreases Abs(x)
  {
    if !Settled(x) {
      AndZero(x / 2);
    }
  }

  lemma {:induction false} OrZero(x: int)
    ensures Or(x, 0) == x
    decreases Abs(x)
  {
    if !Settled(x) {
      OrZero(x / 2);
    }
  }

  lemma {:induction false} OrZeroLeft(y: int)
    ensures Or(0, y) == y
    decreases Abs(y)
  {
    if !Settled(y) {
      OrZeroLeft(y / 2);
    }
  }

  lemma {:induction false} OrMinusOne(x: int)
    ensures Or(x, -1) == -1
    decreases Abs(x)
  {
    if !Settled(x) {
      OrMinusOne(x / 2);
    }
  }

  lemma {:induction false} AndLowOnesSmall(r: int, k: nat)
    requires 0 <= r < Pow2(k)
    ensures And(r, Pow2(k) - 1) == r
  {
    if k > 0 {
      BitwiseStep(AndOp, r, Pow2(k) - 1);
      AndLowOnesSmall(r / 2, k - 1);
    }
  }

  /** `x & (2^k - 1)` keeps the low k bits. */
  lemma AndLowOnes(x: int, k: nat)
    ensures And(x, Pow2(k) - 1) == x % Pow2(k)
  {
    var p := Pow2(k);
    BitwiseSplit(AndOp, x, p - 1, k);
    DivModUnique(p - 1, p, 0, p - 1);
    AndZero(x / p);
    AndLowOnesSmall(x % p, k);
  }

  /** `(a << k) | y` for a y that fits in k bits plus a sign: the sign bits of a negative y
      cover every bit of `a << k`. */
  lemma OrShifted(a: int, y: int, k: nat)
    requires -(Pow2(k) as int) <= y < Pow2(k)
    ensures Or(a * Pow2(k), y) == if y >= 0 then a * Pow2(k) + y else y
  {
    var p := Pow2(k);
    BitwiseSplit(OrOp, a * p, y, k);
    DivModUnique(a * p, p, a, 0);
    OrZeroLeft(y % p);
    if y >= 0 {
      DivModUnique(y, p, 0, y);
      OrZero(a);
    } else {
      DivModUnique(y, p, -1, y + p);
      OrMinusOne(a);
    }
  }

  lemma Pow2Values()
    ensures Pow2(4) == 16 && Pow2(8) == 256 && Pow2(12) == 4096 && Pow2(16) == 65536
  {
  }

  /** Java's `b & 0xFF` on a sign-extended byte gives back the unsigned byte. */
  lemma ByteMask(b: Byte)
    ensures And(Signed(b), 0xFF) == b
  {
    Pow2Values();
    AndLowOnes(Signed(b), 8);
  }

  /** Java's `b & 0xF` on a sign-extended byte is its low nibble. */
  lemma LowNibbleMask(b: Byte)
    ensures And(Signed(b), 0xF) == b % 16
  {
    Pow2Values();
    AndLowOnes(Signed(b), 4);
    assert Signed(b) % 16 == b % 16 by {
      DivModUnique(Signed(b), 256, Signed(b) / 256, b);
      DivModUnique(Signed(b), 16, 16 * (Signed(b) / 256) + b / 16, b % 16);
    }
  }

  /** Java's `(b & 0xF0) >> 4` on a sign-extended byte is its high nibble. */
  lemma HighNibbleMask(b: Byte)
    ensures Shr(And(Signed(b), 0xF0), 4) == b / 16
  {
    var x := Signed(b);
    Pow2Values();
    BitwiseSplit(AndOp, x, 0xF0, 4);
    DivModUnique(0xF0, 16, 15, 0);
    AndZero(x % 16);
    AndLowOnes(x / 16, 4);
    DivModUnique(x, 256, x / 256, b);
    DivModUnique(x, 16, 16 * (x / 256) + b / 16, b % 16);
    DivModUnique(x / 16, 16, x / 256, b / 16);
    DivModUnique((b / 16) * 16, 16, b / 16, 0);
  }
}
