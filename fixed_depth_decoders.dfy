/** The per-depth decoders of a fixed-bit-depth count file (`getCounts4` ... `getCounts32` of
    ReadCountsFile32Bit). A file holds one value per bin of its window, packed at its depth.
    Each decoder fetches the bytes that cover bins s..e of a request and decodes them into
    e - s + 1 values.

    Each decoder is a method with the source's loop and cursor, proved against a function that
    gives every requested bin's value from the bin's own place in the file. Where the source's
    decoder is wrong (4, 12 and 20 bits) the method as written and a corrected one are both
    given; FixedDepthFormat relates them to the layout of the file. */
module FixedDepthDecoders {
  import opened JavaInt
  import opened Files
  import opened ByteOrder
  import opened BitExpressions

  /** Bin of the first base of a request; regions are 1-based. */
  function FirstBin(start: int, window: int): nat
    requires start >= 1 && window >= 1
  {
    (start - 1) / window
  }

  /** Bin of the last base of a request, with Java's truncating division. */
  function LastBin(end: int, window: int): int
    requires window >= 1
  {
    Div(end - 1, window)
  }

  lemma HalfOf(x: int, q: int, b: int)
    requires 0 <= b < 2 && x == 2 * q + b
    ensures x / 2 == q && x % 2 == b
  {
    DivModUnique(x, 2, q, b);
  }

  lemma HalfMono(a: int, b: int)
    requires a <= b
    ensures a / 2 <= b / 2
  {
  }

  /** Consecutive bins alternate between even and odd. */
  lemma Alternate(k: int)
    ensures (k + 1) % 2 == 1 - k % 2
  {
    HalfOf(k, k / 2, k % 2);
    if k % 2 == 0 {
      HalfOf(k + 1, k / 2, 1);
    } else {
      HalfOf(k + 1, k / 2 + 1, 0);
    }
  }

  /** Where bin k starts when two bins share `w` bytes (w = 1, 3, 5 for 4, 12, 20 bits), and how
      far the next bin starts from it: k * w / 2 moves by (w - 1) / 2 after an even bin and by
      (w + 1) / 2 after an odd one. */
  lemma PairStep(k: nat, w: nat)
    requires w == 1 || w == 3 || w == 5
    ensures (k + 1) * w / 2 == k * w / 2 + (if k % 2 == 0 then (w - 1) / 2 else (w + 1) / 2)
    ensures k * w / 2 == (k / 2) * w + (if k % 2 == 0 then 0 else (w - 1) / 2)
  {
    var m, b := k / 2, k % 2;
    HalfOf(k, m, b);
    if b == 0 {
      HalfOf(k * w, m * w, 0);
      HalfOf((k + 1) * w, m * w + (w - 1) / 2, 1);
    } else {
      HalfOf(k * w, m * w + (w - 1) / 2, 1);
      HalfOf((k + 1) * w, m * w + w, 0);
    }
  }
  /** The decoders' cursor and parity flag, from one bin to the next. */
  lemma Cursor(k: nat, w: nat)
    requires w == 1 || w == 3 || w == 5
    ensures (k + 1) * w / 2 == k * w / 2 + (if k % 2 == 0 then (w - 1) / 2 else (w + 1) / 2)
    ensures ((k + 1) % 2 == 0) == (k % 2 != 0)
  {
    PairStep(k, w);
    Alternate(k);
  }


  // ---------------------------------------------------------------------------------------
  // 4-bit files: two bins per byte, the even bin in the high nibble.

  /** Bin k of a 4-bit file. */
  function Bin4(data: seq<Byte>, k: nat): (v: int)
    requires k / 2 < |data|
    ensures 0 <= v < 16
  {
    if k % 2 == 0 then data[k / 2] / 16 else data[k / 2] % 16
  }

  /** A 4-bit fetch that lies in the file holds the byte of every bin s..e. */
  lemma Fetch4Covers(n: nat, s: nat, e: int, k: nat)
    requires InFile(n, s / 2, Div(e, 2)) && s <= k <= e
    ensures s / 2 <= k / 2 <= Div(e, 2) < n
  {
    DivRemNonNegative(e, 2);
  }

  /** The source's 4-bit decoder never flips its parity and never moves its cursor: every value
      is the high nibble of the first fetched byte. */
  function Counts4AsWritten(data: seq<Byte>, s: nat, e: int): (r: Result<seq<int>>)
  {
    if !InFile(|data|, s / 2, Div(e, 2)) then Err(IOError)
    else if e - s + 1 < 0 then Err(NegativeArraySize)
    else Ok(seq(e - s + 1, i requires 0 <= i < e - s + 1 =>
      Fetch4Covers(|data|, s, e, s); data[s / 2] / 16))
  }

  method GetCounts4AsWritten(data: seq<Byte>, s: nat, e: int) returns (r: Result<seq<int>>)
    ensures r == Counts4AsWritten(data, s, e)
  {
    var l := e - s + 1;
    var fetched := Fetch(data, s / 2, Div(e, 2));
    if fetched.Err? {
      return Err(fetched.error);
    }
    var buf := fetched.value;
    if l < 0 {
      return Err(NegativeArraySize);
    }
    ghost var want := Counts4AsWritten(data, s, e).value;
    var scores := new int[l];
    var even := true;
    var p := 0;
    for i := 0 to l
      invariant forall j | 0 <= j < i :: scores[j] == want[j]
    {
      Fetch4Covers(|data|, s, e, s);
      if even {
        scores[i] := HighNibble(buf[p]);
      } else {
        // The low-nibble branch of the source: `even` is never reassigned.
        assert false;
      }
    }
    assert scores[..] == want;
    return Ok(scores[..]);
  }

  /** Bins s..e of a 4-bit file, each from its own nibble. */
  function Counts4(data: seq<Byte>, s: nat, e: int): (r: Result<seq<int>>)
  {
    if !InFile(|data|, s / 2, Div(e, 2)) then Err(IOError)
    else if e - s + 1 < 0 then Err(NegativeArraySize)
    else Ok(seq(e - s + 1, i requires 0 <= i < e - s + 1 =>
      Fetch4Covers(|data|, s, e, s + i); Bin4(data, s + i)))
  }

  /** What one turn of the 4-bit loop relies on. */
  lemma Step4(data: seq<Byte>, buf: seq<Byte>, s: nat, e: int, i: nat)
    requires Fetch(data, s / 2, Div(e, 2)) == Ok(buf)
    requires Counts4(data, s, e).Ok? && i <= e - s
    ensures var p := (s + i) / 2 - s / 2;
      0 <= p < |buf| &&
      Counts4(data, s, e).value[i] == if (s + i) % 2 == 0 then buf[p] / 16 else buf[p] % 16
  {
    Fetch4Covers(|data|, s, e, s + i);
    assert Counts4(data, s, e).value[i] == Bin4(data, s + i);
  }

  /** The 4-bit decoder with its parity seeded from s, flipped after every value, and the
      cursor moved on after every low nibble. */
  method GetCounts4(data: seq<Byte>, s: nat, e: int) returns (r: Result<seq<int>>)
    ensures r == Counts4(data, s, e)
  {
    var l := e - s + 1;
    var fetched := Fetch(data, s / 2, Div(e, 2));
    if fetched.Err? {
      return Err(fetched.error);
    }
    var buf := fetched.value;
    if l < 0 {
      return Err(NegativeArraySize);
    }
    ghost var want := Counts4(data, s, e).value;
    var scores := new int[l];
    var even := s % 2 == 0;
    var p := 0;
    for i := 0 to l
      invariant p == (s + i) / 2 - s / 2
      invariant even == ((s + i) % 2 == 0)
      invariant forall j | 0 <= j < i :: scores[j] == want[j]
    {
      Step4(data, buf, s, e, i);
      Cursor(s + i, 1);
      if even {
        scores[i] := HighNibble(buf[p]);
      } else {
        scores[i] := LowNibble(buf[p]);
        p := p + 1;
      }
      even := !even;
    }
    assert scores[..] == want;
    return Ok(scores[..]);
  }

  // ---------------------------------------------------------------------------------------
  // 8-bit files: one signed byte per bin.

  /** Bin k of an 8-bit file. */
  function Bin8(data: seq<Byte>, k: nat): (v: int)
    requires k < |data|
    ensures -0x80 <= v < 0x80 && v % 0x100 == data[k]
  {
    Signed(data[k])
  }

  function Counts8(data: seq<Byte>, s: nat, e: int): (r: Result<seq<int>>)
  {
    if !InFile(|data|, s, e) then Err(IOError)
    else Ok(seq(e - s + 1, i requires 0 <= i < e - s + 1 => Bin8(data, s + i)))
  }

  method GetCounts8(data: seq<Byte>, s: nat, e: int) returns (r: Result<seq<int>>)
    ensures r == Counts8(data, s, e)
  {
    var l := e - s + 1;
    var fetched := Fetch(data, s, e);
    if fetched.Err? {
      return Err(fetched.error);
    }
    var buf := fetched.value;
    ghost var want := Counts8(data, s, e).value;
    var scores := new int[l];
    for i := 0 to l
      invariant forall j | 0 <= j < i :: scores[j] == want[j]
    {
      scores[i] := Signed(buf[i]);
    }
    assert scores[..] == want;
    return Ok(scores[..]);
  }

  // ---------------------------------------------------------------------------------------
  // 12-bit files: two bins in three bytes. Bin k starts at byte k * 3 / 2, at the top of the
  // byte when k is even and at its low nibble when k is odd.

  /** A 12-bit fetch that lies in the file holds the two bytes of every bin s..e. */
  lemma Fetch12Covers(n: nat, s: nat, e: int, k: nat)
    requires InFile(n, s * 3 / 2, Div(e * 3, 2) + 1) && s <= k <= e
    ensures s * 3 / 2 <= k * 3 / 2 <= Div(e * 3, 2) < n - 1
  {
    DivRemNonNegative(e * 3, 2);
    HalfMono(s * 3, k * 3);
    HalfMono(k * 3, e * 3);
  }

  /** Bin k of a 12-bit file as the source decodes it: on an even bin the first byte is
      sign-extended, on an odd bin it is masked. */
  function Bin12AsWritten(data: seq<Byte>, k: nat): (v: int)
    requires k * 3 / 2 + 1 < |data|
    ensures -0x800 <= v < 0x1000
    ensures k % 2 == 1 ==> v >= 0
  {
    var o := k * 3 / 2;
    if k % 2 == 0 then Signed(data[o]) * 16 + data[o + 1] / 16
    else (data[o] % 16) as int * 0x100 + data[o + 1]
  }

  function Counts12AsWritten(data: seq<Byte>, s: nat, e: int): (r: Result<seq<int>>)
  {
    if !InFile(|data|, s * 3 / 2, Div(e * 3, 2) + 1) then Err(IOError)
    else if e - s + 1 < 0 then Err(NegativeArraySize)
    else Ok(seq(e - s + 1, i requires 0 <= i < e - s + 1 =>
      Fetch12Covers(|data|, s, e, s + i); Bin12AsWritten(data, s + i)))
  }

  /** What one turn of the 12-bit loop as written relies on. */
  lemma Step12AsWritten(data: seq<Byte>, buf: seq<Byte>, s: nat, e: int, i: nat)
    requires Fetch(data, s * 3 / 2, Div(e * 3, 2) + 1) == Ok(buf)
    requires Counts12AsWritten(data, s, e).Ok? && i <= e - s
    ensures var p := (s + i) * 3 / 2 - s * 3 / 2;
      0 <= p < |buf| - 1 &&
      Counts12AsWritten(data, s, e).value[i]
        == if (s + i) % 2 == 0 then Signed(buf[p]) * 16 + buf[p + 1] / 16
           else (buf[p] % 16) as int * 0x100 + buf[p + 1]
  {
    Fetch12Covers(|data|, s, e, s + i);
    assert Counts12AsWritten(data, s, e).value[i] == Bin12AsWritten(data, s + i);
  }

  /** One pass of the 12-bit loop as written. */
  method ReadBin12AsWritten(buf: seq<Byte>, p: nat, even: bool) returns (score: int, next: nat)
    requires p + 1 < |buf|
    ensures score == if even then Signed(buf[p]) * 16 + buf[p + 1] / 16
      else (buf[p] % 16) as int * 0x100 + buf[p + 1]
    ensures next == if even then p + 1 else p + 2
  {
    next := p;
    if even {
      score := Join12High(buf[p], buf[p + 1]);
    } else {
      score := Join12Low(buf[p], buf[p + 1]);
      next := next + 1;
    }
    next := next + 1;
  }

  method GetCounts12AsWritten(data: seq<Byte>, s: nat, e: int) returns (r: Result<seq<int>>)
    ensures r == Counts12AsWritten(data, s, e)
  {
    var l := e - s + 1;
    var fetched := Fetch(data, s * 3 / 2, Div(e * 3, 2) + 1);
    if fetched.Err? {
      return Err(fetched.error);
    }
    var buf := fetched.value;
    if l < 0 {
      return Err(NegativeArraySize);
    }
    ghost var want := Counts12AsWritten(data, s, e).value;
    var scores := new int[l];
    var p := 0;
    var even := s % 2 == 0;
    for i := 0 to l
      invariant p == (s + i) * 3 / 2 - s * 3 / 2
      invariant even == ((s + i) % 2 == 0)
      invariant forall j | 0 <= j < i :: scores[j] == want[j]
    {
      Step12AsWritten(data, buf, s, e, i);
      Cursor(s + i, 3);
      var score;
      score, p := ReadBin12AsWritten(buf, p, even);
      scores[i] := score;
      even := !even;
    }
    assert scores[..] == want;
    return Ok(scores[..]);
  }

  /** Bin k of a 12-bit file: twelve unsigned bits. */
  function Bin12(data: seq<Byte>, k: nat): (v: int)
    requires k * 3 / 2 + 1 < |data|
    ensures 0 <= v < 0x1000
  {
    var o := k * 3 / 2;
    if k % 2 == 0 then data[o] as int * 16 + data[o + 1] / 16
    else (data[o] % 16) as int * 0x100 + data[o + 1]
  }

  function Counts12(data: seq<Byte>, s: nat, e: int): (r: Result<seq<int>>)
  {
    if !InFile(|data|, s * 3 / 2, Div(e * 3, 2) + 1) then Err(IOError)
    else if e - s + 1 < 0 then Err(NegativeArraySize)
    else Ok(seq(e - s + 1, i requires 0 <= i < e - s + 1 =>
      Fetch12Covers(|data|, s, e, s + i); Bin12(data, s + i)))
  }

  lemma Step12(data: seq<Byte>, buf: seq<Byte>, s: nat, e: int, i: nat)
    requires Fetch(data, s * 3 / 2, Div(e * 3, 2) + 1) == Ok(buf)
    requires Counts12(data, s, e).Ok? && i <= e - s
    ensures var p := (s + i) * 3 / 2 - s * 3 / 2;
      0 <= p < |buf| - 1 &&
      Counts12(data, s, e).value[i]
        == if (s + i) % 2 == 0 then buf[p] as int * 16 + buf[p + 1] / 16
           else (buf[p] % 16) as int * 0x100 + buf[p + 1]
  {
    Fetch12Covers(|data|, s, e, s + i);
    assert Counts12(data, s, e).value[i] == Bin12(data, s + i);
  }

  /** One pass of the 12-bit loop: the bin at p, and where the next bin starts. */
  method ReadBin12(buf: seq<Byte>, p: nat, even: bool) returns (score: int, next: nat)
    requires p + 1 < |buf|
    ensures score == if even then buf[p] as int * 16 + buf[p + 1] / 16
      else (buf[p] % 16) as int * 0x100 + buf[p + 1]
    ensures next == if even then p + 1 else p + 2
  {
    next := p;
    if even {
      score := Join12HighMasked(buf[p], buf[p + 1]);
    } else {
      score := Join12Low(buf[p], buf[p + 1]);
      next := next + 1;
    }
    next := next + 1;
  }

  /** The 12-bit decoder with the first byte of an even bin masked to eight bits. */
  method GetCounts12(data: seq<Byte>, s: nat, e: int) returns (r: Result<seq<int>>)
    ensures r == Counts12(data, s, e)
  {
    var l := e - s + 1;
    var fetched := Fetch(data, s * 3 / 2, Div(e * 3, 2) + 1);
    if fetched.Err? {
      return Err(fetched.error);
    }
    var buf := fetched.value;
    if l < 0 {
      return Err(NegativeArraySize);
    }
    ghost var want := Counts12(data, s, e).value;
    var scores := new int[l];
    var p := 0;
    var even := s % 2 == 0;
    for i := 0 to l
      invariant p == (s + i) * 3 / 2 - s * 3 / 2
      invariant even == ((s + i) % 2 == 0)
      invariant forall j | 0 <= j < i :: scores[j] == want[j]
    {
      Step12(data, buf, s, e, i);
      Cursor(s + i, 3);
      var score;
      score, p := ReadBin12(buf, p, even);
      scores[i] := score;
      even := !even;
    }
    assert scores[..] == want;
    return Ok(scores[..]);
  }

  // ---------------------------------------------------------------------------------------
  // 16-bit files: one signed big-endian short per bin.

  /** Bin k of a 16-bit file. */
  function Bin16(data: seq<Byte>, k: nat): (v: int)
    requires 2 * k + 2 <= |data|
    ensures -0x8000 <= v < 0x8000
  {
    Int16At(data, 2 * k)
  }

  function Counts16(data: seq<Byte>, s: nat, e: int): (r: Result<seq<int>>)
  {
    if !InFile(|data|, s * 2, e * 2 + 1) then Err(IOError)
    else Ok(seq(e - s + 1, i requires 0 <= i < e - s + 1 => Bin16(data, s + i)))
  }

  method GetCounts16(data: seq<Byte>, s: nat, e: int) returns (r: Result<seq<int>>)
    ensures r == Counts16(data, s, e)
  {
    var l := e - s + 1;
    var fetched := Fetch(data, s * 2, e * 2 + 1);
    if fetched.Err? {
      return Err(fetched.error);
    }
    var buf := fetched.value;
    ghost var want := Counts16(data, s, e).value;
    var scores := new int[l];
    var p := 0;
    for i := 0 to l
      invariant p == 2 * i
      invariant forall j | 0 <= j < i :: scores[j] == want[j]
    {
      assert want[i] == Bin16(data, s + i);
      assert buf[p] == data[2 * (s + i)] && buf[p + 1] == data[2 * (s + i) + 1];
      scores[i] := Join16(buf[p], buf[p + 1]);
      p := p + 2;
    }
    assert scores[..] == want;
    return Ok(scores[..]);
  }

  // ---------------------------------------------------------------------------------------
  // 20-bit files: two bins in five bytes. Bin k starts at byte k * 5 / 2, at the top of the
  // byte when k is even and at its low nibble when k is odd.

  /** A 20-bit fetch that lies in the file holds the three bytes the source reads for every
      bin s..e, from s + k * 3 / 2 on. */
  lemma Fetch20AsWrittenCovers(n: nat, s: nat, e: int, k: nat)
    requires InFile(n, s * 5 / 2, Div(e * 5, 2) + 2) && s <= k <= e
    ensures s * 5 / 2 + (k * 3 / 2 - s * 3 / 2) == s + k * 3 / 2
    ensures s * 5 / 2 <= s + k * 3 / 2 <= Div(e * 5, 2) < n - 2
  {
    DivRemNonNegative(e * 5, 2);
    PairStep(s, 3);
    PairStep(s, 5);
    PairStep(k, 3);
    PairStep(k, 5);
    HalfMono(k * 5, e * 5);
  }

  /** Bin k of a request that starts at bin s, as the source decodes a 20-bit file: its cursor
      moves like the 12-bit one, so bin k is read from byte s + k * 3 / 2 rather than
      k * 5 / 2, and the first two bytes of every value are sign-extended. */
  function Bin20AsWritten(data: seq<Byte>, s: nat, k: nat): (v: int)
    requires s + k * 3 / 2 + 2 < |data|
  {
    var o := s + k * 3 / 2;
    var b0: int, b1: int, b2: int := data[o], data[o + 1], data[o + 2];
    if k % 2 == 0 then (if b1 < 0x80 then Signed(data[o]) * 0x1000 + b1 * 16 else Signed(data[o + 1]) * 16) + b2 / 16
    else (if b1 < 0x80 then (b0 % 16) * 0x1_0000 + b1 * 0x100 else Signed(data[o + 1]) * 0x100) + b2
  }

  function Counts20AsWritten(data: seq<Byte>, s: nat, e: int): (r: Result<seq<int>>)
  {
    if !InFile(|data|, s * 5 / 2, Div(e * 5, 2) + 2) then Err(IOError)
    else Ok(seq(e - s + 1, i requires 0 <= i < e - s + 1 =>
      Fetch20AsWrittenCovers(|data|, s, e, s + i); Bin20AsWritten(data, s, s + i)))
  }

  /** When the 20-bit fetch lies in the file, e is at least s - 1. */
  lemma Fetch20Length(n: nat, s: nat, e: int)
    requires InFile(n, s * 5 / 2, Div(e * 5, 2) + 2)
    ensures e - s + 1 >= 0
  {
    if e >= 0 {
      DivRemNonNegative(e * 5, 2);
    }
  }

  lemma Step20AsWritten(data: seq<Byte>, buf: seq<Byte>, s: nat, e: int, i: nat)
    requires Fetch(data, s * 5 / 2, Div(e * 5, 2) + 2) == Ok(buf)
    requires Counts20AsWritten(data, s, e).Ok? && i <= e - s
    ensures var p := (s + i) * 3 / 2 - s * 3 / 2;
      0 <= p < |buf| - 2 &&
      Counts20AsWritten(data, s, e).value[i]
        == if (s + i) % 2 == 0 then
             (if buf[p + 1] < 0x80 then Signed(buf[p]) * 0x1000 + buf[p + 1] as int * 16
              else Signed(buf[p + 1]) * 16) + buf[p + 2] / 16
           else
             (if buf[p + 1] < 0x80 then (buf[p] % 16) * 0x1_0000 + buf[p + 1] * 0x100
              else Signed(buf[p + 1]) * 0x100) + buf[p + 2]
  {
    Fetch20AsWrittenCovers(|data|, s, e, s + i);
    var p, o := (s + i) * 3 / 2 - s * 3 / 2, s + (s + i) * 3 / 2;
    assert buf[p] == data[o] && buf[p + 1] == data[o + 1] && buf[p + 2] == data[o + 2];
    assert Counts20AsWritten(data, s, e).value[i] == Bin20AsWritten(data, s, s + i);
  }

  /** One pass of the 20-bit loop as written: the cursor moves on as in the 12-bit loop. */
  method ReadBin20AsWritten(buf: seq<Byte>, p: nat, even: bool) returns (score: int, next: nat)
    requires p + 2 < |buf|
    ensures score == if even then
        (if buf[p + 1] < 0x80 then Signed(buf[p]) * 0x1000 + buf[p + 1] as int * 16
         else Signed(buf[p + 1]) * 16) + buf[p + 2] / 16
      else
        (if buf[p + 1] < 0x80 then (buf[p] % 16) * 0x1_0000 + buf[p + 1] * 0x100
         else Signed(buf[p + 1]) * 0x100) + buf[p + 2]
    ensures next == if even then p + 1 else p + 2
  {
    next := p;
    if even {
      score := Join20High(buf[p], buf[p + 1], buf[p + 2]);
    } else {
      score := Join20Low(buf[p], buf[p + 1], buf[p + 2]);
      next := next + 1;
    }
    next := next + 1;
  }

  method GetCounts20AsWritten(data: seq<Byte>, s: nat, e: int) returns (r: Result<seq<int>>)
    ensures r == Counts20AsWritten(data, s, e)
  {
    var l := e - s + 1;
    var fetched := Fetch(data, s * 5 / 2, Div(e * 5, 2) + 2);
    if fetched.Err? {
      return Err(fetched.error);
    }
    var buf := fetched.value;
    Fetch20Length(|data|, s, e);
    ghost var want := Counts20AsWritten(data, s, e).value;
    var scores := new int[l];
    var p := 0;
    var even := s % 2 == 0;
    for i := 0 to l
      invariant p == (s + i) * 3 / 2 - s * 3 / 2
      invariant even == ((s + i) % 2 == 0)
      invariant forall j | 0 <= j < i :: scores[j] == want[j]
    {
      Step20AsWritten(data, buf, s, e, i);
      Cursor(s + i, 3);
      var score;
      score, p := ReadBin20AsWritten(buf, p, even);
      scores[i] := score;
      even := !even;
    }
    assert scores[..] == want;
    return Ok(scores[..]);
  }

  /** A 20-bit fetch that lies in the file holds the three bytes of every bin s..e. */
  lemma Fetch20Covers(n: nat, s: nat, e: int, k: nat)
    requires InFile(n, s * 5 / 2, Div(e * 5, 2) + 2) && s <= k <= e
    ensures s * 5 / 2 <= k * 5 / 2 <= Div(e * 5, 2) < n - 2
  {
    DivRemNonNegative(e * 5, 2);
    HalfMono(s * 5, k * 5);
    HalfMono(k * 5, e * 5);
  }

  /** Bin k of a 20-bit file: twenty unsigned bits. */
  function Bin20(data: seq<Byte>, k: nat): (v: int)
    requires k * 5 / 2 + 2 < |data|
    ensures 0 <= v < 0x10_0000
  {
    var o := k * 5 / 2;
    if k % 2 == 0 then data[o] as int * 0x1000 + data[o + 1] as int * 16 + data[o + 2] / 16
    else (data[o] % 16) as int * 0x1_0000 + data[o + 1] as int * 0x100 + data[o + 2]
  }

  function Counts20(data: seq<Byte>, s: nat, e: int): (r: Result<seq<int>>)
  {
    if !InFile(|data|, s * 5 / 2, Div(e * 5, 2) + 2) then Err(IOError)
    else Ok(seq(e - s + 1, i requires 0 <= i < e - s + 1 =>
      Fetch20Covers(|data|, s, e, s + i); Bin20(data, s + i)))
  }

  lemma Step20(data: seq<Byte>, buf: seq<Byte>, s: nat, e: int, i: nat)
    requires Fetch(data, s * 5 / 2, Div(e * 5, 2) + 2) == Ok(buf)
    requires Counts20(data, s, e).Ok? && i <= e - s
    ensures var p := (s + i) * 5 / 2 - s * 5 / 2;
      0 <= p < |buf| - 2 &&
      Counts20(data, s, e).value[i]
        == if (s + i) % 2 == 0 then buf[p] as int * 0x1000 + buf[p + 1] as int * 16 + buf[p + 2] / 16
           else (buf[p] % 16) as int * 0x1_0000 + buf[p + 1] as int * 0x100 + buf[p + 2]
  {
    Fetch20Covers(|data|, s, e, s + i);
    assert Counts20(data, s, e).value[i] == Bin20(data, s + i);
  }

  /** One pass of the 20-bit loop: the bin at p, and where the next bin starts. */
  method ReadBin20(buf: seq<Byte>, p: nat, even: bool) returns (score: int, next: nat)
    requires p + 2 < |buf|
    ensures score == if even then buf[p] as int * 0x1000 + buf[p + 1] as int * 16 + buf[p + 2] / 16
      else (buf[p] % 16) as int * 0x1_0000 + buf[p + 1] as int * 0x100 + buf[p + 2]
    ensures next == if even then p + 2 else p + 3
  {
    if even {
      score := Join20HighMasked(buf[p], buf[p + 1], buf[p + 2]);
      next := p + 2;
    } else {
      score := Join20LowMasked(buf[p], buf[p + 1], buf[p + 2]);
      next := p + 3;
    }
  }

  /** The 20-bit decoder with every byte masked and the cursor moved on by two bytes after an
      even bin and by three after an odd one. */
  method GetCounts20(data: seq<Byte>, s: nat, e: int) returns (r: Result<seq<int>>)
    ensures r == Counts20(data, s, e)
  {
    var l := e - s + 1;
    var fetched := Fetch(data, s * 5 / 2, Div(e * 5, 2) + 2);
    if fetched.Err? {
      return Err(fetched.error);
    }
    var buf := fetched.value;
    Fetch20Length(|data|, s, e);
    ghost var want := Counts20(data, s, e).value;
    var scores := new int[l];
    var p := 0;
    var even := s % 2 == 0;
    for i := 0 to l
      invariant p == (s + i) * 5 / 2 - s * 5 / 2
      invariant even == ((s + i) % 2 == 0)
      invariant forall j | 0 <= j < i :: scores[j] == want[j]
    {
      Step20(data, buf, s, e, i);
      Cursor(s + i, 5);
      var score;
      score, p := ReadBin20(buf, p, even);
      scores[i] := score;
      even := !even;
    }
    assert scores[..] == want;
    return Ok(scores[..]);
  }

  // ---------------------------------------------------------------------------------------
  // 24-bit files: one unsigned big-endian 24-bit value per bin, read through a stream.

  /** Bin k of a 24-bit file. */
  function Bin24(data: seq<Byte>, k: nat): (v: int)
    requires 3 * k + 3 <= |data|
    ensures 0 <= v < 0x100_0000
  {
    UInt24At(data, 3 * k)
  }

  function Counts24(data: seq<Byte>, s: nat, e: int): (r: Result<seq<int>>)
  {
    if !InFile(|data|, s * 3, e * 3 + 2) then Err(IOError)
    else Ok(seq(e - s + 1, i requires 0 <= i < e - s + 1 => Bin24(data, s + i)))
  }

  method GetCounts24(data: seq<Byte>, s: nat, e: int) returns (r: Result<seq<int>>)
    ensures r == Counts24(data, s, e)
  {
    var l := e - s + 1;
    var fetched := Fetch(data, s * 3, e * 3 + 2);
    if fetched.Err? {
      return Err(fetched.error);
    }
    var d := fetched.value;
    ghost var want := Counts24(data, s, e).value;
    var scores := new int[l];
    var pos := 0;  // the stream's position in d
    for i := 0 to l
      invariant pos == 3 * i
      invariant forall j | 0 <= j < i :: scores[j] == want[j]
    {
      assert want[i] == Bin24(data, s + i);
      assert d[pos..pos + 3] == data[3 * (s + i)..3 * (s + i) + 3];
      scores[i] := UInt24At(d, pos);
      pos := pos + 3;
    }
    assert scores[..] == want;
    return Ok(scores[..]);
  }

  // ---------------------------------------------------------------------------------------
  // 32-bit files: one signed big-endian int per bin, read through a byte buffer.

  /** Bin k of a 32-bit file. */
  function Bin32(data: seq<Byte>, k: nat): (v: int)
    requires 4 * k + 4 <= |data|
    ensures IntMin <= v <= IntMax
  {
    Int32At(data, 4 * k)
  }

  function Counts32(data: seq<Byte>, s: nat, e: int): (r: Result<seq<int>>)
  {
    if !InFile(|data|, s * 4, e * 4 + 3) then Err(IOError)
    else Ok(seq(e - s + 1, i requires 0 <= i < e - s + 1 => Bin32(data, s + i)))
  }

  method GetCounts32(data: seq<Byte>, s: nat, e: int) returns (r: Result<seq<int>>)
    ensures r == Counts32(data, s, e)
  {
    var l := e - s + 1;
    var fetched := Fetch(data, s * 4, e * 4 + 3);
    if fetched.Err? {
      return Err(fetched.error);
    }
    var d := fetched.value;
    ghost var want := Counts32(data, s, e).value;
    var scores := new int[l];
    var pos := 0;  // the buffer's position in d
    for i := 0 to l
      invariant pos == 4 * i
      invariant forall j | 0 <= j < i :: scores[j] == want[j]
    {
      assert want[i] == Bin32(data, s + i);
      assert d[pos..pos + 4] == data[4 * (s + i)..4 * (s + i) + 4];
      scores[i] := Int32At(d, pos);
      pos := pos + 4;
    }
    assert scores[..] == want;
    return Ok(scores[..]);
  }
}
