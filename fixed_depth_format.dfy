/** The layout of a fixed-bit-depth count file, as the decoders read it: one value per bin,
    packed big-endian at the file's depth, two bins sharing a byte (4 bits), three bytes
    (12 bits) or five bytes (20 bits). Each `Pack` function writes the values of bins 0, 1, ...
    in that layout; a pair cut short by the end of the values is completed with a zero value.
    The lemmas relate each decoder to its layout: the corrected decoders give back exactly the
    values packed, and the decoders as written do not. */
module FixedDepthFormat {
  import opened JavaInt
  import opened Files
  import opened FixedDepthDecoders

  predicate InRange(vs: seq<int>, lo: int, hi: int) {
    forall i | 0 <= i < |vs| :: lo <= vs[i] < hi
  }

  /** The second value of pair m, or zero past the end. */
  function Second(vs: seq<int>, m: nat): int {
    if 2 * m + 1 < |vs| then vs[2 * m + 1] else 0
  }

  /** A byte of a layout with w bytes per pair of bins lies in one of the pairs. */
  lemma PairIndex(n: nat, j: nat, w: nat)
    requires w == 1 || w == 3 || w == 5
    requires j < (w * n + 1) / 2
    ensures 2 * (j / w) < n
  {
    var m := j / w;
    DivModUnique(j, w, m, j % w);
    if w == 1 {
    } else if w == 3 {
      assert 3 * m <= j;
    } else {
      assert 5 * m <= j;
    }
  }

  /** x / d and x % d by their defining equation, for a divisor d written out. */
  lemma Split(x: int, d: int, q: int, r: int)
    requires d > 0 && 0 <= r < d && x == q * d + r
    ensures x / d == q && x % d == r
  {
    DivModUnique(x, d, q, r);
  }

  // ---------------------------------------------------------------------------------------
  // 4 bits

  function Pack4(vs: seq<int>): (d: seq<Byte>)
    requires InRange(vs, 0, 16)
    ensures |d| == (|vs| + 1) / 2
  {
    seq((|vs| + 1) / 2, m requires 0 <= m < (|vs| + 1) / 2 =>
      PairIndex(|vs|, m, 1); vs[2 * m] * 16 + Second(vs, m))
  }

  lemma Bin4Pack(vs: seq<int>, k: nat)
    requires InRange(vs, 0, 16) && k < |vs|
    ensures k / 2 < |Pack4(vs)| && Bin4(Pack4(vs), k) == vs[k]
  {
    var m := k / 2;
    var a, b := vs[2 * m], Second(vs, m);
    assert Pack4(vs)[m] == a * 16 + b;
    Split(a * 16 + b, 16, a, b);
  }

  /** The corrected 4-bit decoder gives back bins s..e of the values packed. */
  lemma Counts4Pack(vs: seq<int>, s: nat, e: nat)
    requires InRange(vs, 0, 16) && s <= e < |vs|
    ensures Counts4(Pack4(vs), s, e) == Ok(vs[s..e + 1])
  {
    var d := Pack4(vs);
    Bin4Pack(vs, e);
    DivRemNonNegative(e, 2);
    var r := Counts4(d, s, e);
    assert r.Ok?;
    forall i | 0 <= i < e - s + 1
      ensures r.value[i] == vs[s + i]
    {
      Bin4Pack(vs, s + i);
    }
    assert r.value == vs[s..e + 1];
  }

  /** The 4-bit decoder as written repeats the high nibble of the first fetched byte: the value
      of the even bin of the pair that bin s is in. */
  lemma Counts4AsWrittenPack(vs: seq<int>, s: nat, e: nat)
    requires InRange(vs, 0, 16) && s <= e < |vs|
    ensures var r := Counts4AsWritten(Pack4(vs), s, e);
      r.Ok? && |r.value| == e - s + 1 && forall i | 0 <= i < e - s + 1 :: r.value[i] == vs[s - s % 2]
  {
    Bin4Pack(vs, e);
    Bin4Pack(vs, s - s % 2);
    DivRemNonNegative(e, 2);
    assert (s - s % 2) / 2 == s / 2 && (s - s % 2) % 2 == 0;
  }

  /** Bins 0 and 1 holding 1 and 2 decode as 1, 1. */
  lemma Stuck4()
    ensures Counts4AsWritten(Pack4([1, 2]), 0, 1) == Ok([1, 1])
    ensures Counts4(Pack4([1, 2]), 0, 1) == Ok([1, 2])
  {
    Counts4AsWrittenPack([1, 2], 0, 1);
    Counts4Pack([1, 2], 0, 1);
    var r := Counts4AsWritten(Pack4([1, 2]), 0, 1);
    assert r.value[0] == 1 && r.value[1] == 1;
    assert r.value == [1, 1];
    assert [1, 2][0..2] == [1, 2];
  }

  // ---------------------------------------------------------------------------------------
  // 8 bits

  function Pack8(vs: seq<int>): (d: seq<Byte>)
    requires InRange(vs, -0x80, 0x80)
    ensures |d| == |vs|
  {
    seq(|vs|, k requires 0 <= k < |vs| => vs[k] % 0x100)
  }

  lemma Counts8Pack(vs: seq<int>, s: nat, e: nat)
    requires InRange(vs, -0x80, 0x80) && s <= e < |vs|
    ensures Counts8(Pack8(vs), s, e) == Ok(vs[s..e + 1])
  {
    var r := Counts8(Pack8(vs), s, e);
    forall i | 0 <= i < e - s + 1
      ensures r.value[i] == vs[s + i]
    {
      var v := vs[s + i];
      if v < 0 {
        Split(v, 0x100, -1, v + 0x100);
      } else {
        Split(v, 0x100, 0, v);
      }
    }
    assert r.value == vs[s..e + 1];
  }

  // ---------------------------------------------------------------------------------------
  // 12 bits: the pair a, b is laid out as the bytes a >> 4, (a & 0xF) << 4 | b >> 8, b & 0xFF.

  function Byte12(a: int, b: int, r: nat): Byte
    requires 0 <= a < 0x1000 && 0 <= b < 0x1000 && r < 3
  {
    if r == 0 then a / 16 else if r == 1 then (a % 16) * 16 + b / 0x100 else b % 0x100
  }

  function Pack12(vs: seq<int>): (d: seq<Byte>)
    requires InRange(vs, 0, 0x1000)
    ensures |d| == (3 * |vs| + 1) / 2
  {
    seq((3 * |vs| + 1) / 2, j requires 0 <= j < (3 * |vs| + 1) / 2 =>
      PairIndex(|vs|, j, 3); Byte12(vs[2 * (j / 3)], Second(vs, j / 3), j % 3))
  }

  /** Bin k lies at byte k * 3 / 2 of a 12-bit file, and the two bytes there hold its value. */
  lemma Bin12Pack(vs: seq<int>, k: nat)
    requires InRange(vs, 0, 0x1000) && k < |vs|
    ensures k * 3 / 2 + 1 < |Pack12(vs)|
    ensures var d, o := Pack12(vs), k * 3 / 2;
      if k % 2 == 0 then d[o] == vs[k] / 16 && d[o + 1] / 16 == vs[k] % 16
      else d[o] % 16 == vs[k] / 0x100 && d[o + 1] == vs[k] % 0x100
  {
    var m := k / 2;
    PairStep(k, 3);
    var d := Pack12(vs);
    var a, b := vs[2 * m], Second(vs, m);
    if k % 2 == 0 {
      Split(3 * m, 3, m, 0);
      Split(3 * m + 1, 3, m, 1);
      Split((a % 16) * 16 + b / 0x100, 16, a % 16, b / 0x100);
    } else {
      Split(3 * m + 1, 3, m, 1);
      Split(3 * m + 2, 3, m, 2);
      Split((a % 16) * 16 + b / 0x100, 16, a % 16, b / 0x100);
    }
  }

  lemma Value12Pack(vs: seq<int>, k: nat)
    requires InRange(vs, 0, 0x1000) && k < |vs|
    ensures k * 3 / 2 + 1 < |Pack12(vs)|
    ensures Bin12(Pack12(vs), k) == vs[k]
    ensures Bin12AsWritten(Pack12(vs), k) == if k % 2 == 0 && vs[k] >= 0x800 then vs[k] - 0x1000 else vs[k]
  {
    Bin12Pack(vs, k);
  }

  /** Both 12-bit decoders read bins s..e of any file that holds them. */
  lemma Counts12Bins(d: seq<Byte>, s: nat, e: nat)
    requires s <= e && e * 3 / 2 + 1 < |d|
    ensures var r, w := Counts12(d, s, e), Counts12AsWritten(d, s, e);
      r.Ok? && w.Ok? && |r.value| == |w.value| == e - s + 1 &&
      forall i | 0 <= i < e - s + 1 ::
        (s + i) * 3 / 2 + 1 < |d| && r.value[i] == Bin12(d, s + i) && w.value[i] == Bin12AsWritten(d, s + i)
  {
    DivRemNonNegative(e * 3, 2);
    HalfMono(s * 3, e * 3);
    var r, w := Counts12(d, s, e), Counts12AsWritten(d, s, e);
    forall i | 0 <= i < e - s + 1
      ensures (s + i) * 3 / 2 + 1 < |d| && r.value[i] == Bin12(d, s + i) && w.value[i] == Bin12AsWritten(d, s + i)
    {
      Fetch12Covers(|d|, s, e, s + i);
    }
  }

  /** The corrected 12-bit decoder gives back bins s..e of the values packed. */
  lemma Counts12Pack(vs: seq<int>, s: nat, e: nat)
    requires InRange(vs, 0, 0x1000) && s <= e < |vs|
    ensures Counts12(Pack12(vs), s, e) == Ok(vs[s..e + 1])
  {
    var d := Pack12(vs);
    Value12Pack(vs, e);
    Counts12Bins(d, s, e);
    var r := Counts12(d, s, e);
    forall i | 0 <= i < e - s + 1
      ensures r.value[i] == vs[s + i]
    {
      Value12Pack(vs, s + i);
    }
    assert r.value == vs[s..e + 1];
  }

  /** The 12-bit decoder as written turns every even bin from 0x800 up negative. */
  lemma Counts12AsWrittenPack(vs: seq<int>, s: nat, e: nat)
    requires InRange(vs, 0, 0x1000) && s <= e < |vs|
    ensures var r := Counts12AsWritten(Pack12(vs), s, e);
      r.Ok? && |r.value| == e - s + 1 && forall i | 0 <= i < e - s + 1 ::
        r.value[i] == if (s + i) % 2 == 0 && vs[s + i] >= 0x800 then vs[s + i] - 0x1000 else vs[s + i]
  {
    var d := Pack12(vs);
    Value12Pack(vs, e);
    Counts12Bins(d, s, e);
    var r := Counts12AsWritten(d, s, e);
    forall i | 0 <= i < e - s + 1
      ensures r.value[i] == if (s + i) % 2 == 0 && vs[s + i] >= 0x800 then vs[s + i] - 0x1000 else vs[s + i]
    {
      Value12Pack(vs, s + i);
    }
  }

  /** A first bin of 0x800 decodes as -0x800. */
  lemma SignExtended12()
    ensures Counts12AsWritten(Pack12([0x800]), 0, 0) == Ok([-0x800])
    ensures Counts12(Pack12([0x800]), 0, 0) == Ok([0x800])
  {
    Counts12AsWrittenPack([0x800], 0, 0);
    Counts12Pack([0x800], 0, 0);
    var r := Counts12AsWritten(Pack12([0x800]), 0, 0);
    assert r.value[0] == -0x800;
    assert r.value == [-0x800];
    assert [0x800][0..1] == [0x800];
  }

  // ---------------------------------------------------------------------------------------
  // 16 bits: two big-endian bytes per bin, the value signed.

  /** A value in the range of a signed byte is the signed reading of its low byte. */
  lemma SignedLowByte(q: int)
    requires -0x80 <= q < 0x80
    ensures Signed(q % 0x100) == q
  {
    if q < 0 {
      Split(q, 0x100, -1, q + 0x100);
    } else {
      Split(q, 0x100, 0, q);
    }
  }

  function Byte16(v: int, r: nat): Byte
    requires r < 2
  {
    if r == 0 then (v / 0x100) % 0x100 else v % 0x100
  }

  function Pack16(vs: seq<int>): (d: seq<Byte>)
    requires InRange(vs, -0x8000, 0x8000)
    ensures |d| == 2 * |vs|
  {
    seq(2 * |vs|, j requires 0 <= j < 2 * |vs| => Byte16(vs[j / 2], j % 2))
  }

  lemma Bin16Pack(vs: seq<int>, k: nat)
    requires InRange(vs, -0x8000, 0x8000) && k < |vs|
    ensures 2 * k + 2 <= |Pack16(vs)| && Bin16(Pack16(vs), k) == vs[k]
  {
    var d, v := Pack16(vs), vs[k];
    Split(2 * k, 2, k, 0);
    Split(2 * k + 1, 2, k, 1);
    assert d[2 * k] == (v / 0x100) % 0x100 && d[2 * k + 1] == v % 0x100;
    SignedLowByte(v / 0x100);
  }

  /** The 16-bit decoder gives back bins s..e of the values packed. */
  lemma Counts16Pack(vs: seq<int>, s: nat, e: nat)
    requires InRange(vs, -0x8000, 0x8000) && s <= e < |vs|
    ensures Counts16(Pack16(vs), s, e) == Ok(vs[s..e + 1])
  {
    var r := Counts16(Pack16(vs), s, e);
    forall i | 0 <= i < e - s + 1
      ensures r.value[i] == vs[s + i]
    {
      Bin16Pack(vs, s + i);
    }
    assert r.value == vs[s..e + 1];
  }

  // ---------------------------------------------------------------------------------------
  // 20 bits: the pair a, b is laid out as the bytes a >> 12, (a >> 4) & 0xFF,
  // (a & 0xF) << 4 | b >> 16, (b >> 8) & 0xFF, b & 0xFF.

  function Byte20(a: int, b: int, r: nat): Byte
    requires 0 <= a < 0x10_0000 && 0 <= b < 0x10_0000 && r < 5
  {
    if r == 0 then a / 16 / 0x100
    else if r == 1 then a / 16 % 0x100
    else if r == 2 then (a % 16) * 16 + b / 0x100 / 0x100
    else if r == 3 then (b / 0x100) % 0x100
    else b % 0x100
  }

  function Pack20(vs: seq<int>): (d: seq<Byte>)
    requires InRange(vs, 0, 0x10_0000)
    ensures |d| == (5 * |vs| + 1) / 2
  {
    seq((5 * |vs| + 1) / 2, j requires 0 <= j < (5 * |vs| + 1) / 2 =>
      PairIndex(|vs|, j, 5); Byte20(vs[2 * (j / 5)], Second(vs, j / 5), j % 5))
  }

  /** The first three bytes of pair m of a 20-bit file. */
  lemma Bytes20Even(vs: seq<int>, m: nat)
    requires InRange(vs, 0, 0x10_0000) && 2 * m < |vs|
    ensures var d, a, b := Pack20(vs), vs[2 * m], Second(vs, m);
      5 * m + 2 < |d| && d[5 * m] == a / 16 / 0x100 && d[5 * m + 1] == a / 16 % 0x100
      && d[5 * m + 2] == (a % 16) * 16 + b / 0x100 / 0x100
  {
    Split(5 * m, 5, m, 0);
    Split(5 * m + 1, 5, m, 1);
    Split(5 * m + 2, 5, m, 2);
  }

  /** The last three bytes of pair m of a 20-bit file. */
  lemma Bytes20Odd(vs: seq<int>, m: nat)
    requires InRange(vs, 0, 0x10_0000) && 2 * m + 1 < |vs|
    ensures var d, a, b := Pack20(vs), vs[2 * m], vs[2 * m + 1];
      5 * m + 4 < |d| && d[5 * m + 2] == (a % 16) * 16 + b / 0x100 / 0x100
      && d[5 * m + 3] == (b / 0x100) % 0x100 && d[5 * m + 4] == b % 0x100
  {
    Split(5 * m + 2, 5, m, 2);
    Split(5 * m + 3, 5, m, 3);
    Split(5 * m + 4, 5, m, 4);
  }

  /** The three bytes of an even bin put back together. */
  lemma Join20Even(a: int, b: int)
    requires 0 <= a < 0x10_0000 && 0 <= b < 0x10_0000
    ensures (a / 16 / 0x100) * 0x1000 + (a / 16 % 0x100) * 16 + ((a % 16) * 16 + b / 0x100 / 0x100) / 16 == a
  {
    Split(a, 16, a / 16, a % 16);
    Split(a / 16, 0x100, a / 16 / 0x100, a / 16 % 0x100);
    Split((a % 16) * 16 + b / 0x100 / 0x100, 16, a % 16, b / 0x100 / 0x100);
  }

  /** The three bytes of an odd bin put back together. */
  lemma Join20Odd(a: int, b: int)
    requires 0 <= a < 0x10_0000 && 0 <= b < 0x10_0000
    ensures ((a % 16) * 16 + b / 0x100 / 0x100) % 16 * 0x1_0000 + (b / 0x100 % 0x100) * 0x100 + b % 0x100 == b
  {
    Split(b, 0x100, b / 0x100, b % 0x100);
    Split(b / 0x100, 0x100, b / 0x100 / 0x100, b / 0x100 % 0x100);
    Split((a % 16) * 16 + b / 0x100 / 0x100, 16, a % 16, b / 0x100 / 0x100);
  }

  /** An even bin of any 20-bit file whose three bytes are laid out from a. */
  lemma Bin20EvenBytes(d: seq<Byte>, k: nat, a: int, b: int)
    requires 0 <= a < 0x10_0000 && 0 <= b < 0x10_0000 && k % 2 == 0 && k * 5 / 2 + 2 < |d|
    requires var o := k * 5 / 2;
      d[o] == a / 16 / 0x100 && d[o + 1] == a / 16 % 0x100 && d[o + 2] == (a % 16) * 16 + b / 0x100 / 0x100
    ensures Bin20(d, k) == a
  {
    Join20Even(a, b);
  }

  /** An odd bin of any 20-bit file whose three bytes are laid out from b. */
  lemma Bin20OddBytes(d: seq<Byte>, k: nat, a: int, b: int)
    requires 0 <= a < 0x10_0000 && 0 <= b < 0x10_0000 && k % 2 == 1 && k * 5 / 2 + 2 < |d|
    requires var o := k * 5 / 2;
      d[o] == (a % 16) * 16 + b / 0x100 / 0x100 && d[o + 1] == (b / 0x100) % 0x100 && d[o + 2] == b % 0x100
    ensures Bin20(d, k) == b
  {
    Join20Odd(a, b);
  }

  lemma Bin20PackEven(vs: seq<int>, k: nat)
    requires InRange(vs, 0, 0x10_0000) && k < |vs| && k % 2 == 0
    ensures k * 5 / 2 + 2 < |Pack20(vs)| && Bin20(Pack20(vs), k) == vs[k]
  {
    var m := k / 2;
    Split(k, 2, m, 0);
    Split(k * 5, 2, 5 * m, 0);
    Bytes20Even(vs, m);
    Bin20EvenBytes(Pack20(vs), k, vs[k], Second(vs, m));
  }

  lemma Bin20PackOdd(vs: seq<int>, k: nat)
    requires InRange(vs, 0, 0x10_0000) && k < |vs| && k % 2 == 1
    ensures k * 5 / 2 + 2 < |Pack20(vs)| && Bin20(Pack20(vs), k) == vs[k]
  {
    var m := k / 2;
    Split(k, 2, m, 1);
    Split(k * 5, 2, 5 * m + 2, 1);
    Bytes20Odd(vs, m);
    Bin20OddBytes(Pack20(vs), k, vs[2 * m], vs[k]);
  }

  /** Bin k lies at byte k * 5 / 2 of a 20-bit file, and the three bytes there hold its value. */
  lemma Bin20Pack(vs: seq<int>, k: nat)
    requires InRange(vs, 0, 0x10_0000) && k < |vs|
    ensures k * 5 / 2 + 2 < |Pack20(vs)| && Bin20(Pack20(vs), k) == vs[k]
  {
    if k % 2 == 0 {
      Bin20PackEven(vs, k);
    } else {
      Bin20PackOdd(vs, k);
    }
  }

  /** The corrected 20-bit decoder gives back bins s..e of any file whose bins s..e decode to
      the values vs[s..e]. */
  lemma Counts20Of(d: seq<Byte>, vs: seq<int>, s: nat, e: nat)
    requires s <= e < |vs| && e * 5 / 2 + 2 < |d|
    requires forall k | s <= k <= e :: k * 5 / 2 + 2 < |d| && Bin20(d, k) == vs[k]
    ensures Counts20(d, s, e) == Ok(vs[s..e + 1])
  {
    DivRemNonNegative(e * 5, 2);
    HalfMono(s * 5, e * 5);
    var r := Counts20(d, s, e);
    assert r.Ok?;
    assert forall i | 0 <= i < e - s + 1 :: r.value[i] == Bin20(d, s + i);
    assert r.value == vs[s..e + 1];
  }

  /** The corrected 20-bit decoder gives back bins s..e of the values packed. */
  lemma Counts20Pack(vs: seq<int>, s: nat, e: nat)
    requires InRange(vs, 0, 0x10_0000) && s <= e < |vs|
    ensures Counts20(Pack20(vs), s, e) == Ok(vs[s..e + 1])
  {
    var d := Pack20(vs);
    forall k | s <= k <= e
      ensures k * 5 / 2 + 2 < |d| && Bin20(d, k) == vs[k]
    {
      Bin20Pack(vs, k);
    }
    Counts20Of(d, vs, s, e);
  }

  /** The 20-bit layout of bins 0, 0, 1. */
  lemma Pack20Drift()
    ensures Pack20([0, 0, 1]) == [0, 0, 0, 0, 0, 0, 0, 16]
  {
    var vs := [0, 0, 1];
    Bytes20Even(vs, 0);
    Bytes20Odd(vs, 0);
    Bytes20Even(vs, 1);
  }

  /** The decoder as written on those bytes reads bin 2 from bytes 3..5 instead of 5..7. */
  lemma Counts20AsWrittenDrift()
    ensures Counts20AsWritten([0, 0, 0, 0, 0, 0, 0, 16], 0, 2) == Ok([0, 0, 0])
  {
    var r := Counts20AsWritten([0, 0, 0, 0, 0, 0, 0, 16], 0, 2);
    assert r.value[0] == 0 && r.value[1] == 0 && r.value[2] == 0;
    assert r.value == [0, 0, 0];
  }

  /** Bins 0, 1, 2 holding 0, 0, 1 decode as 0, 0, 0. */
  lemma Drift20()
    ensures Counts20AsWritten(Pack20([0, 0, 1]), 0, 2) == Ok([0, 0, 0])
    ensures Counts20(Pack20([0, 0, 1]), 0, 2) == Ok([0, 0, 1])
  {
    Pack20Drift();
    Counts20AsWrittenDrift();
    Counts20Pack([0, 0, 1], 0, 2);
    assert [0, 0, 1][0..3] == [0, 0, 1];
  }

  /** A first bin of 0x8_0000: the decoder as written sign-extends its top byte. */
  lemma SignExtended20()
    ensures Counts20AsWritten(Pack20([0x8_0000]), 0, 0) == Ok([-0x8_0000])
    ensures Counts20(Pack20([0x8_0000]), 0, 0) == Ok([0x8_0000])
  {
    var d := Pack20([0x8_0000]);
    Bytes20Even([0x8_0000], 0);
    assert d[0] == 0x80 && d[1] == 0 && d[2] == 0;
    var r := Counts20AsWritten(d, 0, 0);
    assert r.value[0] == -0x8_0000;
    assert r.value == [-0x8_0000];
    Counts20Pack([0x8_0000], 0, 0);
    assert [0x8_0000][0..1] == [0x8_0000];
  }

  // ---------------------------------------------------------------------------------------
  // 24 bits: three big-endian bytes per bin, the value unsigned.

  function Byte24(v: int, r: nat): Byte
    requires 0 <= v < 0x100_0000 && r < 3
  {
    if r == 0 then v / 0x100 / 0x100 else if r == 1 then v / 0x100 % 0x100 else v % 0x100
  }

  function Pack24(vs: seq<int>): (d: seq<Byte>)
    requires InRange(vs, 0, 0x100_0000)
    ensures |d| == 3 * |vs|
  {
    seq(3 * |vs|, j requires 0 <= j < 3 * |vs| => Byte24(vs[j / 3], j % 3))
  }

  lemma Bin24Pack(vs: seq<int>, k: nat)
    requires InRange(vs, 0, 0x100_0000) && k < |vs|
    ensures 3 * k + 3 <= |Pack24(vs)| && Bin24(Pack24(vs), k) == vs[k]
  {
    var d, v := Pack24(vs), vs[k];
    Split(3 * k, 3, k, 0);
    Split(3 * k + 1, 3, k, 1);
    Split(3 * k + 2, 3, k, 2);
  }

  /** The 24-bit decoder gives back bins s..e of the values packed. */
  lemma Counts24Pack(vs: seq<int>, s: nat, e: nat)
    requires InRange(vs, 0, 0x100_0000) && s <= e < |vs|
    ensures Counts24(Pack24(vs), s, e) == Ok(vs[s..e + 1])
  {
    var r := Counts24(Pack24(vs), s, e);
    forall i | 0 <= i < e - s + 1
      ensures r.value[i] == vs[s + i]
    {
      Bin24Pack(vs, s + i);
    }
    assert r.value == vs[s..e + 1];
  }

  // ---------------------------------------------------------------------------------------
  // 32 bits: four big-endian bytes per bin, the value a Java int.

  function Byte32(v: int, r: nat): Byte
    requires r < 4
  {
    if r == 0 then v / 0x100 / 0x100 / 0x100 % 0x100
    else if r == 1 then v / 0x100 / 0x100 % 0x100
    else if r == 2 then v / 0x100 % 0x100
    else v % 0x100
  }

  function Pack32(vs: seq<int>): (d: seq<Byte>)
    requires InRange(vs, IntMin, IntMax + 1)
    ensures |d| == 4 * |vs|
  {
    seq(4 * |vs|, j requires 0 <= j < 4 * |vs| => Byte32(vs[j / 4], j % 4))
  }

  lemma Bin32Pack(vs: seq<int>, k: nat)
    requires InRange(vs, IntMin, IntMax + 1) && k < |vs|
    ensures 4 * k + 4 <= |Pack32(vs)| && Bin32(Pack32(vs), k) == vs[k]
  {
    var d, v := Pack32(vs), vs[k];
    Split(4 * k, 4, k, 0);
    Split(4 * k + 1, 4, k, 1);
    Split(4 * k + 2, 4, k, 2);
    Split(4 * k + 3, 4, k, 3);
    SignedLowByte(v / 0x100 / 0x100 / 0x100);
  }

  /** The 32-bit decoder gives back bins s..e of the values packed. */
  lemma Counts32Pack(vs: seq<int>, s: nat, e: nat)
    requires InRange(vs, IntMin, IntMax + 1) && s <= e < |vs|
    ensures Counts32(Pack32(vs), s, e) == Ok(vs[s..e + 1])
  {
    var r := Counts32(Pack32(vs), s, e);
    forall i | 0 <= i < e - s + 1
      ensures r.value[i] == vs[s + i]
    {
      Bin32Pack(vs, s + i);
    }
    assert r.value == vs[s..e + 1];
  }
}
