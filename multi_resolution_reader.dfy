/** The multi-resolution reader (ReadCountsFileBC). A directory holds, per chromosome and per
    power of ten, one file of binned counts: a 13-byte header followed by the bins, each stored
    in 1, 2 or 4 bytes. A window of 10^k bases is read from the file whose name carries
    `<chr>.` and `<k>bw`; the reader keeps the paths it has found and one current file. */
module MultiResolutionReader {
  import opened JavaInt
  import opened Files
  import opened Text
  import opened Genomic
  import opened ByteOrder
  import FixedDepthDecoders
  import FixedDepthFormat

  // The header: a 4-byte magic number, the 1-byte width of a bin value, the 4-byte width of a
  // bin in bases, the 4-byte number of bins, then the bins.
  const MagicNumberOffset: int := 0
  const BinSizeOffset: int := MagicNumberOffset + 4
  const BinWidthOffset: int := BinSizeOffset + 1
  const NBinsOffset: int := BinWidthOffset + 4
  const BinsOffset: int := NBinsOffset + 4
  const MinBinWidth: int := 100

  function Pow10(k: nat): (r: nat)
    ensures r >= 1
  {
    if k == 0 then 1 else 10 * Pow10(k - 1)
  }

  /** `POWER_MAP`: the window of each resolution, to its power of ten. */
  const PowerMap: map<int, int> := map[
    100 := 2, 1000 := 3, 10000 := 4, 100000 := 5,
    1000000 := 6, 10000000 := 7, 100000000 := 8, 1000000000 := 9]

  /** The keys of `POWER_MAP` are exactly the powers 10^2 .. 10^9, each mapped to its exponent. */
  lemma PowerMapIsDecimalLog(window: int)
    ensures window in PowerMap <==> exists k | 2 <= k <= 9 :: window == Pow10(k)
    ensures window in PowerMap ==> 2 <= PowerMap[window] <= 9 && Pow10(PowerMap[window]) == window
  {
    assert Pow10(2) == 100 && Pow10(3) == 1000 && Pow10(4) == 10000 && Pow10(5) == 100000;
    assert Pow10(6) == 1000000 && Pow10(7) == 10000000;
    assert Pow10(8) == 100000000 && Pow10(9) == 1000000000;
    if window in PowerMap {
      var k := PowerMap[window];
      assert 2 <= k <= 9 && window == Pow10(k);
    }
    if exists k | 2 <= k <= 9 :: window == Pow10(k) {
      var k :| 2 <= k <= 9 && window == Pow10(k);
      var w := Pow10(k);
      assert w in PowerMap by {
        if k == 2 { assert w == 100; }
        else if k == 3 { assert w == 1000; }
        else if k == 4 { assert w == 10000; }
        else if k == 5 { assert w == 100000; }
        else if k == 6 { assert w == 1000000; }
        else if k == 7 { assert w == 10000000; }
        else if k == 8 { assert w == 100000000; }
        else { assert w == 1000000000; }
      }
    }
  }

  /** No window of `POWER_MAP` is below the smallest stored bin width. */
  lemma PowerMapAtLeastMin(window: int)
    ensures window in PowerMap ==> window >= MinBinWidth
  {
  }

  /** `POWER_MAP.get(window)`, unboxed: a window that is not a key fails. */
  function Power(window: int): (r: Result<int>)
    ensures r.Ok? <==> window in PowerMap
    ensures r.Err? ==> r.error == UnknownWindow
    ensures r.Ok? ==> window >= MinBinWidth && 2 <= r.value <= 9 && Pow10(r.value) == window
  {
    PowerMapIsDecimalLog(window);
    if window in PowerMap then Ok(PowerMap[window]) else Err(UnknownWindow)
  }

  /** The name test of `getFile`. */
  predicate Matches(name: Name, chr: Chromosome, power: int) {
    Contains(name, chr + ".") && Contains(name, DecimalString(power) + "bw")
  }

  /** The first entry of the listing whose name matches (chr, power). */
  function FirstMatch(dir: Directory, chr: Chromosome, power: int): (r: Option<Name>)
    ensures r.Some? ==> Exists(dir, r.value)
  {
    if |dir| == 0 then None
    else if Matches(dir[0].name, chr, power) then Some(dir[0].name)
    else FirstMatch(dir[1..], chr, power)
  }

  /** No file is found exactly when no name matches; an entry is found when it matches and no
      entry listed before it does. */
  lemma {:induction false} FirstMatchFirst(dir: Directory, chr: Chromosome, power: int)
    ensures FirstMatch(dir, chr, power).None? <==>
      forall i | 0 <= i < |dir| :: !Matches(dir[i].name, chr, power)
    ensures forall i | 0 <= i < |dir| ::
      (Matches(dir[i].name, chr, power) && forall j | 0 <= j < i :: !Matches(dir[j].name, chr, power))
      ==> FirstMatch(dir, chr, power) == Some(dir[i].name)
    decreases |dir|
  {
    if |dir| > 0 && !Matches(dir[0].name, chr, power) {
      var tail := dir[1..];
      FirstMatchFirst(tail, chr, power);
      assert forall i | 1 <= i < |dir| :: dir[i] == tail[i - 1];
      forall i | 1 <= i < |dir| &&
        Matches(dir[i].name, chr, power) && (forall j | 0 <= j < i :: !Matches(dir[j].name, chr, power))
        ensures FirstMatch(tail, chr, power) == Some(tail[i - 1].name)
      {
        forall j | 0 <= j < i - 1 ensures !Matches(tail[j].name, chr, power) {
          assert tail[j] == dir[j + 1];
        }
      }
    }
  }

  /** The scan of `getFile` over the directory listing, stopping at the first match. */
  method FindFile(dir: Directory, chr: Chromosome, power: int) returns (found: Option<Name>)
    ensures found == FirstMatch(dir, chr, power)
  {
    var c := chr + ".";
    var p := DecimalString(power) + "bw";
    found := None;
    var i := 0;
    while i < |dir|
      invariant 0 <= i <= |dir|
      invariant FirstMatch(dir, chr, power) == FirstMatch(dir[i..], chr, power)
    {
      var name := dir[i].name;
      if Contains(name, c) && Contains(name, p) {
        found := Some(name);
        return;
      }
      assert dir[i..][1..] == dir[i + 1..];
      i := i + 1;
    }
  }

  function Max(a: int, b: int): int {
    if a >= b then a else b
  }

  /** `n` of `_getCounts`: the number of values returned, never fewer than one. */
  function BinCount(start: int, end: int, binWidth: int): (n: int)
    requires binWidth >= 1
    ensures n >= 1
    ensures n >= Div(end, binWidth) - Div(start, binWidth)
  {
    Max(1, Div(end, binWidth) - Div(start, binWidth))
  }

  /** A count scaled to bytes, by the value width only when that is above one. */
  function Scaled(x: int, binSize: int): (y: int)
    ensures binSize > 1 ==> y == x * binSize
    ensures binSize <= 1 ==> y == x
  {
    if binSize > 1 then x * binSize else x
  }

  /** `getBinSize`: the byte at offset 4, or -1 when the file ends before it. */
  function BinSizeOf(data: seq<Byte>): (b: int)
    ensures -1 <= b < 0x100
    ensures b == -1 <==> |data| <= BinSizeOffset
  {
    if BinSizeOffset < |data| then data[BinSizeOffset] else -1
  }

  /** n 4-byte ints read in order from d. */
  function Ints(d: seq<Byte>, n: nat): (vs: seq<int>)
    requires |d| == 4 * n
    ensures |vs| == n && forall i | 0 <= i < n :: IntMin <= vs[i] <= IntMax
  {
    seq(n, i requires 0 <= i < n => Int32At(d, 4 * i))
  }

  /** n 2-byte shorts read in order from d. */
  function Shorts(d: seq<Byte>, n: nat): (vs: seq<int>)
    requires |d| == 2 * n
    ensures |vs| == n && forall i | 0 <= i < n :: -0x8000 <= vs[i] < 0x8000
  {
    seq(n, i requires 0 <= i < n => Int16At(d, 2 * i))
  }

  /** The first n bytes of d, unsigned. */
  function Bytes(d: seq<Byte>, n: nat): (vs: seq<int>)
    requires n <= |d|
    ensures |vs| == n && forall i | 0 <= i < n :: 0 <= vs[i] < 0x100
  {
    seq(n, i requires 0 <= i < n => d[i] as int)
  }

  /** The n values of a buffer of bins, decoded at their width: a 4-byte int, a 2-byte short,
      or one unsigned byte for any other width. */
  function BinValues(d: seq<Byte>, n: nat, binSize: int): (vs: seq<int>)
    requires |d| == Scaled(n, binSize)
    ensures |vs| == n
  {
    if binSize == 4 then Ints(d, n)
    else if binSize == 2 then Shorts(d, n)
    else
      assert n <= |d| by {
        if binSize > 1 && n > 0 { MulAtLeast(binSize, n); }
      }
      Bytes(d, n)
  }

  /** `_getCounts`: the bytes of the bins of start..end, read from 13 + sb (scaled by the value
      width) after a seek that fails when negative, decoded at the file's value width. */
  function Bins(data: seq<Byte>, start: int, end: int, binWidth: int, binSize: int): (r: Result<seq<int>>)
    requires binWidth >= 1
    ensures r.Ok? <==> BinsOffset + Scaled(Div(start, binWidth), binSize) >= 0
    ensures r.Err? ==> r.error == IOError
    ensures r.Ok? ==> |r.value| == BinCount(start, end, binWidth)
    ensures r.Ok? && binSize == 2 ==> forall i | 0 <= i < |r.value| :: -0x8000 <= r.value[i] < 0x8000
    ensures r.Ok? && binSize != 2 && binSize != 4 ==> forall i | 0 <= i < |r.value| :: 0 <= r.value[i] < 0x100
  {
    var n := BinCount(start, end, binWidth);
    var pos := BinsOffset + Scaled(Div(start, binWidth), binSize);
    match ReadAt(data, pos, Scaled(n, binSize))
    case Err(e) => Err(e)
    case Ok(d) => Ok(BinValues(d, n, binSize))
  }

  /** The `readInt` loop of `_getCounts`; the stream moves on 4 bytes per value. */
  method ReadInts(d: seq<Byte>, n: nat) returns (vs: seq<int>)
    requires |d| == 4 * n
    ensures vs == Ints(d, n)
  {
    var ret := new int[n];
    var q := 0;
    for i := 0 to n
      invariant q == 4 * i
      invariant forall j | 0 <= j < i :: ret[j] == Int32At(d, 4 * j)
    {
      ret[i] := Int32At(d, q);
      q := q + 4;
    }
    return ret[..];
  }

  /** The `readShort` loop of `_getCounts`; the stream moves on 2 bytes per value. */
  method ReadShorts(d: seq<Byte>, n: nat) returns (vs: seq<int>)
    requires |d| == 2 * n
    ensures vs == Shorts(d, n)
  {
    var ret := new int[n];
    var q := 0;
    for i := 0 to n
      invariant q == 2 * i
      invariant forall j | 0 <= j < i :: ret[j] == Int16At(d, 2 * j)
    {
      ret[i] := Int16At(d, q);
      q := q + 2;
    }
    return ret[..];
  }

  /** The `read` loop of `_getCounts`; the stream moves on one byte per value. */
  method ReadBytes(d: seq<Byte>, n: nat) returns (vs: seq<int>)
    requires n <= |d|
    ensures vs == Bytes(d, n)
  {
    var ret := new int[n];
    var q := 0;
    for i := 0 to n
      invariant q == i
      invariant forall j | 0 <= j < i :: ret[j] == d[j] as int
    {
      ret[i] := d[q];
      q := q + 1;
    }
    return ret[..];
  }

  /** `_getCounts`: the offset and length of the read, then the loop of the value width. */
  method ReadBins(data: seq<Byte>, start: int, end: int, binWidth: int, binSize: int)
    returns (r: Result<seq<int>>)
    requires binWidth >= 1
    ensures r == Bins(data, start, end, binWidth, binSize)
  {
    var sb := Div(start, binWidth);
    var eb := Div(end, binWidth);
    var n := Max(1, eb - sb);
    var sa := sb;
    var sn := n;
    if binSize > 1 {
      sa := sa * binSize;
      sn := sn * binSize;
    }
    assert sa == Scaled(sb, binSize) && sn == Scaled(n, binSize);
    var read := ReadAt(data, BinsOffset + sa, sn);
    if read.Err? {
      return Err(read.error);
    }
    var d := read.value;
    var vs;
    if binSize == 4 {
      vs := ReadInts(d, n);
    } else if binSize == 2 {
      vs := ReadShorts(d, n);
    } else {
      if binSize > 1 { MulAtLeast(binSize, n); }
      vs := ReadBytes(d, n);
    }
    return Ok(vs);
  }

  /** Outputs per decoded value when upsampling a window below 100 bases. */
  function Factor(window: int): (f: int)
    requires 1 <= window < MinBinWidth
    ensures f >= 1
  {
    MinBinWidth / window
  }

  lemma QuotientStep(k: nat, f: int)
    requires f >= 1
    ensures k / f <= k && (k + 1) / f == k / f + (if (k + 1) % f == 0 then 1 else 0)
  {
    var q, m := k / f, k % f;
    assert k == q * f + m;
    if m + 1 == f {
      DivModUnique(k + 1, f, q + 1, 0);
    } else {
      DivModUnique(k + 1, f, q, m + 1);
    }
    if q > 0 {
      MulAtLeast(f, q);
      assert q * f >= q;
    }
  }

  /** Every output k holds the value k / f of d. */
  predicate Replicated(r: seq<int>, d: seq<int>, f: int)
    requires f >= 1
  {
    forall k | 0 <= k < |r| :: k / f < |d| && r[k] == d[k / f]
  }

  lemma ReplicatedStep(r: seq<int>, d: seq<int>, f: int, x: int)
    requires f >= 1 && Replicated(r, d, f)
    requires |r| / f < |d| && x == d[|r| / f]
    ensures Replicated(r + [x], d, f)
  {
    assert forall k | 0 <= k < |r| :: (r + [x])[k] == r[k];
  }

  /** The replication of `getCounts` for a window below 100 bases: output k repeats the
      decoded value k / (100 / window), each value filling 100 / window outputs. No window
      of `POWER_MAP` takes this branch (PowerMapAtLeastMin). */
  method Upsample(d: seq<int>, start: int, end: int, window: int) returns (r: seq<int>)
    requires 1 <= window < MinBinWidth
    requires |d| == BinCount(start, end, window)
    ensures |r| == |d|
    ensures Replicated(r, d, Factor(window))
  {
    var n := Max(1, Div(end, window) - Div(start, window));
    var f := MinBinWidth / window;
    assert f == Factor(window);
    var d2 := new int[n];
    var i := 0;
    for i2 := 0 to n
      invariant i == i2 / f
      invariant Replicated(d2[..i2], d, f)
    {
      QuotientStep(i2, f);
      ghost var done := d2[..i2];
      ReplicatedStep(done, d, f, d[i]);
      d2[i2] := d[i];
      assert d2[..i2 + 1] == done + [d[i]];
      if (i2 + 1) % f == 0 {
        i := i + 1;
      }
    }
    assert d2[..n] == d2[..];
    return d2[..];
  }

  /** Values stored one unsigned byte each. */
  function PackBytes(vs: seq<int>): (d: seq<Byte>)
    requires FixedDepthFormat.InRange(vs, 0, 0x100)
    ensures |d| == |vs|
  {
    seq(|vs|, k requires 0 <= k < |vs| => vs[k])
  }

  lemma QuotientBounds(a: int, b: int)
    requires a >= 0 && b >= 1
    ensures a / b >= 0 && (a / b) * b <= a < (a / b) * b + b
  {
    var q, m := a / b, a % b;
    assert a == q * b + m;
    if q < 0 {
      MulAtLeast(-q, b);
    }
  }

  /** `sb` of `_getCounts` for a start that is not negative: Java's quotient, never negative. */
  function StartBin(start: int, window: int): (sb: nat)
    requires start >= 0 && window >= 1
    ensures sb == Div(start, window) && sb * window <= start < sb * window + window
  {
    QuotientBounds(start, window);
    DivRemNonNegative(start, window);
    start / window
  }

  /** A read that stays inside the bins after the 13-byte header yields those bytes of them. */
  lemma ReadInside(header: seq<Byte>, body: seq<Byte>, j: int, len: nat)
    requires |header| == BinsOffset && 0 <= j && j + len <= |body|
    ensures ReadAt(header + body, BinsOffset + j, len) == Ok(body[j..j + len])
  {
    var data := header + body;
    var r := ReadAt(data, BinsOffset + j, len);
    forall i | 0 <= i < len
      ensures r.value[i] == body[j + i]
    {
      assert data[BinsOffset + j + i] == body[j + i];
    }
    assert r.value == body[j..j + len];
  }

  /** The 4-byte values read from the bytes of bins sb .. sb + n are the values those bins hold. */
  lemma IntsOfSlice(d: seq<Byte>, vs: seq<int>, sb: nat, n: nat)
    requires 4 * sb + 4 * n <= |d| && sb + n <= |vs|
    requires forall k | sb <= k < sb + n :: Int32At(d, 4 * k) == vs[k]
    ensures Ints(d[4 * sb..4 * sb + 4 * n], n) == vs[sb..sb + n]
  {
    var lo := 4 * sb;
    forall i | 0 <= i < n
      ensures Int32At(d[lo..lo + 4 * n], 4 * i) == vs[sb + i]
    {
      Int32AtSlice(d, lo, lo + 4 * n, 4 * i);
      assert lo + 4 * i == 4 * (sb + i);
    }
  }

  /** The same for 2-byte values. */
  lemma ShortsOfSlice(d: seq<Byte>, vs: seq<int>, sb: nat, n: nat)
    requires 2 * sb + 2 * n <= |d| && sb + n <= |vs|
    requires forall k | sb <= k < sb + n :: Int16At(d, 2 * k) == vs[k]
    ensures Shorts(d[2 * sb..2 * sb + 2 * n], n) == vs[sb..sb + n]
  {
    var lo := 2 * sb;
    forall i | 0 <= i < n
      ensures Int16At(d[lo..lo + 2 * n], 2 * i) == vs[sb + i]
    {
      Int16AtSlice(d, lo, lo + 2 * n, 2 * i);
      assert lo + 2 * i == 2 * (sb + i);
    }
  }

  /** The 4-byte values of bins sb .. sb + n, read back from their packed bytes. */
  lemma IntsOfPacked(vs: seq<int>, sb: nat, n: nat)
    requires FixedDepthFormat.InRange(vs, IntMin, IntMax + 1) && sb + n <= |vs|
    ensures 4 * sb + 4 * n <= |FixedDepthFormat.Pack32(vs)|
    ensures Ints(FixedDepthFormat.Pack32(vs)[4 * sb..4 * sb + 4 * n], n) == vs[sb..sb + n]
  {
    var packed := FixedDepthFormat.Pack32(vs);
    forall k | sb <= k < sb + n
      ensures Int32At(packed, 4 * k) == vs[k]
    {
      FixedDepthFormat.Bin32Pack(vs, k);
    }
    IntsOfSlice(packed, vs, sb, n);
  }

  /** The 2-byte values of bins sb .. sb + n, read back from their packed bytes. */
  lemma ShortsOfPacked(vs: seq<int>, sb: nat, n: nat)
    requires FixedDepthFormat.InRange(vs, -0x8000, 0x8000) && sb + n <= |vs|
    ensures 2 * sb + 2 * n <= |FixedDepthFormat.Pack16(vs)|
    ensures Shorts(FixedDepthFormat.Pack16(vs)[2 * sb..2 * sb + 2 * n], n) == vs[sb..sb + n]
  {
    var packed := FixedDepthFormat.Pack16(vs);
    forall k | sb <= k < sb + n
      ensures Int16At(packed, 2 * k) == vs[k]
    {
      FixedDepthFormat.Bin16Pack(vs, k);
    }
    ShortsOfSlice(packed, vs, sb, n);
  }

  /** The bins of start..end of a file of 4-byte values laid out after a 13-byte header are the
      stored values of those bins. */
  lemma BinsRoundTrip4(header: seq<Byte>, vs: seq<int>, start: int, end: int, window: int)
    requires |header| == BinsOffset && header[BinSizeOffset] == 4
    requires FixedDepthFormat.InRange(vs, IntMin, IntMax + 1)
    requires window >= 1 && start >= 0
    requires StartBin(start, window) + BinCount(start, end, window) <= |vs|
    ensures var data := header + FixedDepthFormat.Pack32(vs);
      var sb, n := StartBin(start, window), BinCount(start, end, window);
      BinSizeOf(data) == 4 && Bins(data, start, end, window, 4) == Ok(vs[sb..sb + n])
  {
    var packed := FixedDepthFormat.Pack32(vs);
    var sb, n := StartBin(start, window), BinCount(start, end, window);
    assert Scaled(Div(start, window), 4) == 4 * sb && Scaled(n, 4) == 4 * n;
    IntsOfPacked(vs, sb, n);
    ReadInside(header, packed, 4 * sb, 4 * n);
    assert (header + packed)[BinSizeOffset] == 4;
  }

  /** The same for 2-byte values. */
  lemma BinsRoundTrip2(header: seq<Byte>, vs: seq<int>, start: int, end: int, window: int)
    requires |header| == BinsOffset && header[BinSizeOffset] == 2
    requires FixedDepthFormat.InRange(vs, -0x8000, 0x8000)
    requires window >= 1 && start >= 0
    requires StartBin(start, window) + BinCount(start, end, window) <= |vs|
    ensures var data := header + FixedDepthFormat.Pack16(vs);
      var sb, n := StartBin(start, window), BinCount(start, end, window);
      BinSizeOf(data) == 2 && Bins(data, start, end, window, 2) == Ok(vs[sb..sb + n])
  {
    var packed := FixedDepthFormat.Pack16(vs);
    var sb, n := StartBin(start, window), BinCount(start, end, window);
    assert Scaled(Div(start, window), 2) == 2 * sb && Scaled(n, 2) == 2 * n;
    ShortsOfPacked(vs, sb, n);
    ReadInside(header, packed, 2 * sb, 2 * n);
    assert (header + packed)[BinSizeOffset] == 2;
  }

  /** The same for 1-byte values. */
  lemma BinsRoundTrip1(header: seq<Byte>, vs: seq<int>, start: int, end: int, window: int)
    requires |header| == BinsOffset && header[BinSizeOffset] == 1
    requires FixedDepthFormat.InRange(vs, 0, 0x100)
    requires window >= 1 && start >= 0
    requires StartBin(start, window) + BinCount(start, end, window) <= |vs|
    ensures var data := header + PackBytes(vs);
      var sb, n := StartBin(start, window), BinCount(start, end, window);
      BinSizeOf(data) == 1 && Bins(data, start, end, window, 1) == Ok(vs[sb..sb + n])
  {
    var packed := PackBytes(vs);
    var sb, n := StartBin(start, window), BinCount(start, end, window);
    assert Scaled(Div(start, window), 1) == sb && Scaled(n, 1) == n;
    ReadInside(header, packed, sb, n);
    assert Bytes(packed[sb..sb + n], n) == vs[sb..sb + n];
    assert (header + packed)[BinSizeOffset] == 1;
  }

  /** A file handle of the reader: which file it reads, and a number telling handles apart. */
  datatype Handle = Handle(id: nat, file: Name)

  /** The file of read totals of a genome, for the reader's mode. */
  function ReadCountName(genome: Genome, mode: string): Name {
    "reads." + genome.name + "." + mode + ".bc"
  }

  /** The 4-byte big-endian integer that file starts with. */
  function StoredReadCount(dir: Directory, genome: Genome, mode: string): (r: Result<int>)
    ensures r.Err? ==> r.error == IOError
    ensures r.Ok? <==>
      (Exists(dir, ReadCountName(genome, mode)) && |Lookup(dir, ReadCountName(genome, mode)).value| >= 4)
  {
    match Lookup(dir, ReadCountName(genome, mode))
    case None => Err(IOError)
    case Some(data) => if |data| < 4 then Err(IOError) else Ok(Int32At(data, 0))
  }

  /** The counts the directory holds for bins start..end of a chromosome at a window. */
  function DirectoryCounts(dir: Directory, chr: Chromosome, start: int, end: int, window: int)
    : (r: Result<seq<int>>)
    ensures Power(window).Err? ==> r == Err(UnknownWindow)
    ensures Power(window).Ok? && FirstMatch(dir, chr, Power(window).value).None? ==> r == Err(NoMatchingFile)
    ensures r.Ok? ==> |r.value| == BinCount(start, end, window)
  {
    match Power(window)
    case Err(e) => Err(e)
    case Ok(power) =>
      match FirstMatch(dir, chr, power)
      case None => Err(NoMatchingFile)
      case Some(name) =>
        var data := Lookup(dir, name).value;
        Bins(data, start, end, window, BinSizeOf(data))
  }

  /** The path map once (chr, power) has been looked up: a path already found is kept, and
      otherwise the first matching file, if there is one, is remembered. */
  function RememberPath(paths: map<(Chromosome, int), Name>, dir: Directory, chr: Chromosome, power: int)
    : map<(Chromosome, int), Name>
  {
    if (chr, power) in paths then paths
    else match FirstMatch(dir, chr, power)
      case None => paths
      case Some(name) => paths[(chr, power) := name]
  }

  /** Every remembered path is the directory's first match for its (chromosome, power). */
  ghost predicate PathsFound(dir: Directory, fileMap: map<(Chromosome, int), Name>) {
    forall key | key in fileMap :: FirstMatch(dir, key.0, key.1) == Some(fileMap[key])
  }

  class ReadCountsFileBC {
    /** The directory of the index file given to the constructor. */
    const dir: Directory
    /** The lower-case name of the reader mode. */
    const mode: string
    /** Per (chromosome, power): the file found for it. */
    var fileMap: map<(Chromosome, int), Name>
    /** `mFile`, `mChr`, `mPower`: the current handle and what it was opened for. */
    var file: Option<Handle>
    var chrTag: Option<Chromosome>
    var power: int
    /** `mReadCount`. */
    var readCount: int
    /** The handles opened and not yet closed, and the number the next handle gets. */
    var openHandles: set<nat>
    var nextId: nat

    /** The found paths are the directory's first matches, and the current handle is of the
        file found for its own (chromosome, power). */
    ghost predicate Valid()
      reads this
    {
      PathsFound(dir, fileMap) &&
      (file.Some? <==> chrTag.Some?) &&
      (file.Some? ==>
        (chrTag.value, power) in fileMap && file.value.file == fileMap[(chrTag.value, power)] &&
        file.value.id < nextId) &&
      (forall id | id in openHandles :: id < nextId)
    }

    /** No handle is open but the current one. */
    ghost predicate SingleHandle()
      reads this
    {
      openHandles <= if file.Some? then {file.value.id} else {}
    }

    /** The handle state as one value. */
    ghost function Handles(): (Option<Handle>, Option<Chromosome>, int, set<nat>, nat)
      reads this
    {
      (file, chrTag, power, openHandles, nextId)
    }

    /** The current handle was opened for (chr, power). */
    predicate Tagged(chr: Chromosome, power: int)
      reads this
    {
      chrTag == Some(chr) && this.power == power
    }

    /** The current handle was opened for (chr, power) and has since been closed. */
    predicate Stale(chr: Chromosome, power: int)
      reads this
    {
      Tagged(chr, power) && file.Some? && file.value.id !in openHandles
    }

    /** `ReadCountsFileBC(bciFile)`: the mode is `count`. */
    constructor(dir: Directory)
      ensures this.dir == dir && mode == "count"
      ensures fileMap == map[] && file == None && chrTag == None && power == -1 && readCount == -1
      ensures openHandles == {}
      ensures Valid() && SingleHandle()
    {
      this.dir := dir;
      mode := "count";
      fileMap := map[];
      file := None;
      chrTag := None;
      power := -1;
      readCount := -1;
      openHandles := {};
      nextId := 0;
    }

    /** `ReadCountsFileBC(bciFile, mode)`. The mode is given as its name already in lower case,
        as `mode.toString().toLowerCase()` makes it. */
    constructor WithMode(dir: Directory, mode: string)
      ensures this.dir == dir && this.mode == mode
      ensures fileMap == map[] && file == None && chrTag == None && power == -1 && readCount == -1
      ensures openHandles == {}
      ensures Valid() && SingleHandle()
    {
      this.dir := dir;
      this.mode := mode;
      fileMap := map[];
      file := None;
      chrTag := None;
      power := -1;
      readCount := -1;
      openHandles := {};
      nextId := 0;
    }

    /** The path lookup of `getFile`: the directory is scanned only for a (chr, power) not yet
        found, and a match is remembered. */
    method FindPath(chr: Chromosome, power: int)
      requires Valid()
      modifies this
      ensures Valid()
      ensures fileMap == RememberPath(old(fileMap), dir, chr, power)
      ensures (chr, power) in fileMap <==> FirstMatch(dir, chr, power).Some?
      ensures Handles() == old(Handles()) && readCount == old(readCount)
    {
      if (chr, power) !in fileMap {
        var found := FindFile(dir, chr, power);
        if found.Some? {
          fileMap := fileMap[(chr, power) := found.value];
        }
      }
    }

    /** `FileUtils.newRandomAccess` on the path found for (chr, power), the new handle
        becoming the current one. */
    method Open(chr: Chromosome, power: int) returns (h: Handle)
      requires Valid() && (chr, power) in fileMap
      modifies this
      ensures Valid()
      ensures fileMap == old(fileMap) && readCount == old(readCount)
      ensures h == Handle(old(nextId), fileMap[(chr, power)]) && file == Some(h) && Tagged(chr, power)
      ensures nextId == old(nextId) + 1 && openHandles == old(openHandles) + {h.id}
    {
      h := Handle(nextId, fileMap[(chr, power)]);
      nextId := nextId + 1;
      openHandles := openHandles + {h.id};
      file := Some(h);
      chrTag := Some(chr);
      this.power := power;
    }

    /** `getFile` as written: for a new (chr, power) a handle is opened and the previous one is
        left open. */
    method GetFileAsWritten(chr: Chromosome, power: int) returns (r: Result<Handle>)
      requires Valid()
      modifies this
      ensures Valid()
      ensures fileMap == RememberPath(old(fileMap), dir, chr, power)
      ensures (chr, power) in fileMap <==> FirstMatch(dir, chr, power).Some?
      ensures old(Tagged(chr, power)) ==> r == Ok(old(file).value) && Handles() == old(Handles())
      ensures !old(Tagged(chr, power)) && (chr, power) !in fileMap ==>
        r == Err(NoMatchingFile) && Handles() == old(Handles())
      ensures !old(Tagged(chr, power)) && (chr, power) in fileMap ==>
        r == Ok(Handle(old(nextId), fileMap[(chr, power)])) && file == Some(r.value) &&
        Tagged(chr, power) && nextId == old(nextId) + 1 &&
        openHandles == old(openHandles) + {old(nextId)}
      ensures readCount == old(readCount)
    {
      FindPath(chr, power);
      if chrTag.Some? && chrTag.value == chr && this.power == power {
        return Ok(file.value);
      }
      if (chr, power) !in fileMap {
        return Err(NoMatchingFile);
      }
      var h := Open(chr, power);
      return Ok(h);
    }

    /** `getFile`, closing the handle it replaces: the reader then never holds more than the
        current handle open. */
    method GetFile(chr: Chromosome, power: int) returns (r: Result<Handle>)
      requires Valid()
      modifies this
      ensures Valid()
      ensures old(SingleHandle()) ==> SingleHandle()
      ensures fileMap == RememberPath(old(fileMap), dir, chr, power)
      ensures (chr, power) in fileMap <==> FirstMatch(dir, chr, power).Some?
      ensures old(Tagged(chr, power)) ==> r == Ok(old(file).value) && Handles() == old(Handles())
      ensures !old(Tagged(chr, power)) && (chr, power) !in fileMap ==>
        r == Err(NoMatchingFile) && Handles() == old(Handles())
      ensures !old(Tagged(chr, power)) && (chr, power) in fileMap ==>
        r == Ok(Handle(old(nextId), fileMap[(chr, power)])) && file == Some(r.value) &&
        Tagged(chr, power) && nextId == old(nextId) + 1 &&
        openHandles == old(Released()) + {old(nextId)}
      ensures readCount == old(readCount)
    {
      FindPath(chr, power);
      if chrTag.Some? && chrTag.value == chr && this.power == power {
        return Ok(file.value);
      }
      if (chr, power) !in fileMap {
        return Err(NoMatchingFile);
      }
      Close();
      var h := Open(chr, power);
      return Ok(h);
    }

    /** The bytes of the file a handle reads; reading through a closed handle fails. */
    function Contents(h: Handle): (r: Result<seq<Byte>>)
      requires Valid() && file == Some(h)
      reads this
      ensures r.Ok? <==> h.id in openHandles
    {
      if h.id in openHandles then Ok(Lookup(dir, h.file).value) else Err(IOError)
    }

    /** The bins of the region read through the current handle, opened for (chr, power): the
        directory's bins while the handle is open, an I/O failure once it has been closed. */
    method ReadThrough(h: Handle, chr: Chromosome, start: int, end: int, window: int)
      returns (r: Result<seq<int>>)
      requires Valid() && file == Some(h) && Power(window).Ok? && Tagged(chr, Power(window).value)
      ensures r == if h.id in openHandles then DirectoryCounts(dir, chr, start, end, window) else Err(IOError)
    {
      var contents := Contents(h);
      if contents.Err? {
        return Err(contents.error);
      }
      var data := contents.value;
      var binSize := BinSizeOf(data);
      r := ReadBins(data, start, end, window, binSize);
      if window < MinBinWidth {
        assert false;
      }
    }

    /** `getCounts(chr, start, end, window)` as written: the bins the directory holds for the
        region, read through the handle `getFile` gives for its (chromosome, power), the handle
        it replaces being left open. Once the reader has been closed, asking again for the same
        (chromosome, power) reads through the closed handle and fails. */
    method GetCountsAsWritten(chr: Chromosome, start: int, end: int, window: int) returns (r: Result<seq<int>>)
      requires Valid()
      modifies this
      ensures Valid()
      ensures readCount == old(readCount)
      ensures Power(window).Err? ==>
        (r == Err(UnknownWindow) && Handles() == old(Handles()) && fileMap == old(fileMap))
      ensures Power(window).Ok? ==>
        r == if old(Stale(chr, Power(window).value)) then Err(IOError)
          else DirectoryCounts(dir, chr, start, end, window)
      ensures Power(window).Ok? ==> fileMap == RememberPath(old(fileMap), dir, chr, Power(window).value)
      ensures Power(window).Ok? && (old(Tagged(chr, Power(window).value)) || (chr, Power(window).value) !in fileMap) ==>
        Handles() == old(Handles())
      ensures Power(window).Ok? && !old(Tagged(chr, Power(window).value)) && (chr, Power(window).value) in fileMap ==>
        file == Some(Handle(old(nextId), fileMap[(chr, Power(window).value)])) &&
        Tagged(chr, Power(window).value) && nextId == old(nextId) + 1 &&
        openHandles == old(openHandles) + {old(nextId)}
      ensures r.Ok? ==> |r.value| == BinCount(start, end, window)
    {
      var p := Power(window);
      if p.Err? {
        return Err(p.error);
      }
      var h := GetFileAsWritten(chr, p.value);
      if h.Err? {
        return Err(h.error);
      }
      r := ReadThrough(h.value, chr, start, end, window);
    }

    /** `getCounts(chr, start, end, window)` with the replaced handle closed: the same bins, and
        the reader never holds more than its current handle open. */
    method GetCounts(chr: Chromosome, start: int, end: int, window: int) returns (r: Result<seq<int>>)
      requires Valid()
      modifies this
      ensures Valid()
      ensures old(SingleHandle()) ==> SingleHandle()
      ensures readCount == old(readCount)
      ensures Power(window).Err? ==>
        (r == Err(UnknownWindow) && Handles() == old(Handles()) && fileMap == old(fileMap))
      ensures Power(window).Ok? ==>
        r == if old(Stale(chr, Power(window).value)) then Err(IOError)
          else DirectoryCounts(dir, chr, start, end, window)
      ensures Power(window).Ok? ==> fileMap == RememberPath(old(fileMap), dir, chr, Power(window).value)
      ensures Power(window).Ok? && (old(Tagged(chr, Power(window).value)) || (chr, Power(window).value) !in fileMap) ==>
        Handles() == old(Handles())
      ensures Power(window).Ok? && !old(Tagged(chr, Power(window).value)) && (chr, Power(window).value) in fileMap ==>
        file == Some(Handle(old(nextId), fileMap[(chr, Power(window).value)])) &&
        Tagged(chr, Power(window).value) && nextId == old(nextId) + 1 &&
        openHandles == old(Released()) + {old(nextId)}
      ensures r.Ok? ==> |r.value| == BinCount(start, end, window)
    {
      var p := Power(window);
      if p.Err? {
        return Err(p.error);
      }
      var h := GetFile(chr, p.value);
      if h.Err? {
        return Err(h.error);
      }
      r := ReadThrough(h.value, chr, start, end, window);
    }

    /** `getCounts(region, window)`, through the handle-replacing `GetCounts`. */
    method GetRegionCounts(region: Region, window: int) returns (r: Result<seq<int>>)
      requires Valid()
      modifies this
      ensures Valid()
      ensures old(SingleHandle()) ==> SingleHandle()
      ensures readCount == old(readCount)
      ensures Power(window).Err? ==>
        (r == Err(UnknownWindow) && Handles() == old(Handles()) && fileMap == old(fileMap))
      ensures Power(window).Ok? ==>
        r == if old(Stale(region.chr, Power(window).value)) then Err(IOError)
          else DirectoryCounts(dir, region.chr, region.start, region.end, window)
      ensures Power(window).Ok? ==>
        fileMap == RememberPath(old(fileMap), dir, region.chr, Power(window).value)
      ensures Power(window).Ok? && FirstMatch(dir, region.chr, Power(window).value).Some? ==>
        Tagged(region.chr, Power(window).value)
      ensures Power(window).Ok? ==>
        var power := Power(window).value;
        (old(Tagged(region.chr, power)) || (region.chr, power) !in fileMap ==> Handles() == old(Handles())) &&
        (!old(Tagged(region.chr, power)) && (region.chr, power) in fileMap ==>
          file == Some(Handle(old(nextId), fileMap[(region.chr, power)])) &&
          Tagged(region.chr, power) && nextId == old(nextId) + 1 &&
          openHandles == old(Released()) + {old(nextId)})
    {
      r := GetCounts(region.chr, region.start, region.end, window);
    }

    /** `getReadCount(genome, window)`: the stored total is read while the cached one is below
        one; from then on the cached total is returned, whatever the genome or window. */
    method GetReadCount(genome: Genome, window: int) returns (r: Result<int>)
      modifies this
      ensures old(readCount) >= 1 ==> r == Ok(old(readCount)) && readCount == old(readCount)
      ensures old(readCount) < 1 ==>
        (r == StoredReadCount(dir, genome, mode) && readCount == if r.Ok? then r.value else old(readCount))
      ensures Handles() == old(Handles()) && fileMap == old(fileMap)
    {
      if readCount < 1 {
        var stored := StoredReadCount(dir, genome, mode);
        if stored.Err? {
          return Err(stored.error);
        }
        readCount := stored.value;
      }
      return Ok(readCount);
    }

    /** The open handles once the current one is closed. */
    ghost function Released(): set<nat>
      reads this
    {
      if file.Some? then openHandles - {file.value.id} else openHandles
    }

    /** `close`: the current handle, if one was ever opened, is closed; nothing else changes. */
    method Close()
      requires Valid()
      modifies this
      ensures Valid()
      ensures openHandles == old(Released())
      ensures file == old(file) && chrTag == old(chrTag) && power == old(power) && nextId == old(nextId)
      ensures fileMap == old(fileMap) && readCount == old(readCount)
      ensures old(SingleHandle()) ==> openHandles == {}
    {
      if file.Some? {
        openHandles := openHandles - {file.value.id};
      }
    }
  }

  /** Both chromosomes of a two-file directory have a file at power 2. */
  lemma SampleDirectory(dir: Directory)
    requires dir == [FileEntry("chr1.2bw", []), FileEntry("chr2.2bw", [])]
    ensures FirstMatch(dir, "chr1", 2).Some? && FirstMatch(dir, "chr2", 2).Some?
  {
    assert DecimalString(2) + "bw" == "2bw";
    assert OccursAt(dir[0].name, "chr1" + ".", 0) && OccursAt(dir[0].name, "2bw", 5);
    assert OccursAt(dir[1].name, "chr2" + ".", 0) && OccursAt(dir[1].name, "2bw", 5);
    assert Matches(dir[0].name, "chr1", 2);
    assert Matches(dir[1].name, "chr2", 2);
    FirstMatchFirst(dir, "chr1", 2);
    FirstMatchFirst(dir, "chr2", 2);
  }

  /** Asking the reader as written for two chromosomes leaves two handles open. */
  method HandleLeak() returns (open: nat)
    ensures open == 2
  {
    var dir := [FileEntry("chr1.2bw", []), FileEntry("chr2.2bw", [])];
    SampleDirectory(dir);
    var reader := new ReadCountsFileBC(dir);
    var first := reader.GetFileAsWritten("chr1", 2);
    var second := reader.GetFileAsWritten("chr2", 2);
    open := |reader.openHandles|;
  }

  /** The same two requests with the handle replaced leave one handle open. */
  method HandleReplaced() returns (open: nat)
    ensures open == 1
  {
    var dir := [FileEntry("chr1.2bw", []), FileEntry("chr2.2bw", [])];
    SampleDirectory(dir);
    var reader := new ReadCountsFileBC(dir);
    var first := reader.GetFile("chr1", 2);
    var second := reader.GetFile("chr2", 2);
    open := |reader.openHandles|;
  }
}
