/** `ReadCountsFile.binCounts`: start positions counted into the bins of a window. Bin k of the
    result is the window-wide bin startBin + k, where startBin is the bin of the region start; a
    position outside bins startBin .. endBin is dropped. Both overloads first count into a map
    with default value 0, then copy the map's entries, in whatever order it lists them, into a
    zeroed array. */
module WindowBinning {
  import opened JavaInt
  import opened Files

  /** The result bin of position p: its window-wide bin less startBin. */
  function BinOf(p: int, window: int, startBin: int): int
    requires window != 0
  {
    Div(p, window) - startBin
  }

  /** For a positive window and a position from 0 up, result bin k covers the window-wide
      positions (startBin + k) * window up to, not including, (startBin + k + 1) * window. */
  lemma InBin(p: int, window: int, startBin: int, k: int)
    requires window > 0 && p >= 0
    ensures BinOf(p, window, startBin) == k <==>
      (startBin + k) * window <= p < (startBin + k + 1) * window
  {
    var c := startBin + k;
    DivRemNonNegative(p, window);
    assert p == (p / window) * window + p % window;
    assert (c + 1) * window == c * window + window;
    if c * window <= p < (c + 1) * window {
      DivModUnique(p, window, c, p - c * window);
    }
  }

  /** The number of positions of s whose result bin is k. */
  function Count(s: seq<int>, window: int, startBin: int, k: int): (c: nat)
    requires window != 0
    ensures c <= |s|
  {
    if |s| == 0 then 0
    else (Count(s[..|s| - 1], window, startBin, k) +
      (if BinOf(s[|s| - 1], window, startBin) == k then 1 else 0))
  }

  /** The number of positions of s whose result bin is one of 0 .. l - 1. */
  function InRangeCount(s: seq<int>, window: int, startBin: int, l: int): (c: nat)
    requires window != 0
  {
    if |s| == 0 then 0
    else (InRangeCount(s[..|s| - 1], window, startBin, l) +
      (if 0 <= BinOf(s[|s| - 1], window, startBin) < l then 1 else 0))
  }

  /** The number of bins of the region: from the bin of start to the bin of end. */
  function BinRange(start: int, end: int, window: int): int
    requires window != 0
  {
    Div(end, window) - Div(start, window) + 1
  }

  /** What `binCounts` returns for positions listed in the order s: per result bin, the number
      of positions in it. A zero window fails in the division, and a region whose end bin is
      below its start bin by more than one fails when the array is made. */
  function BinCounts(s: seq<int>, start: int, end: int, window: int): (r: Result<seq<nat>>)
  {
    if window == 0 then Err(DivisionByZero)
    else if BinRange(start, end, window) < 0 then Err(NegativeArraySize)
    else
      var startBin, l := Div(start, window), BinRange(start, end, window);
      Ok(seq(l, k requires 0 <= k < l => Count(s, window, startBin, k)))
  }

  /** `DefaultHashMap.get` with default value 0. */
  function Get(m: map<int, nat>, k: int): nat {
    if k in m then m[k] else 0
  }

  /** The indices of the positions of s whose result bin is k. */
  function Positions(s: seq<int>, window: int, startBin: int, k: int): set<nat>
    requires window != 0
  {
    set i: nat | i < |s| && BinOf(s[i], window, startBin) == k
  }

  /** The first loop of `binCounts(int[] starts, ...)`: each position whose result bin is in
      0 .. l - 1 adds one to the map entry of that bin. */
  method CountArray(starts: seq<int>, window: int, startBin: int, l: int) returns (m: map<int, nat>)
    requires window != 0
    ensures forall k | k in m :: 0 <= k < l
    ensures forall k | 0 <= k < l :: Get(m, k) == Count(starts, window, startBin, k)
  {
    m := map[];
    for i := 0 to |starts|
      invariant forall k | k in m :: 0 <= k < l
      invariant forall k | 0 <= k < l :: Get(m, k) == Count(starts[..i], window, startBin, k)
    {
      assert starts[..i + 1][..i] == starts[..i];
      var sbin := Div(starts[i], window) - startBin;
      if sbin >= 0 && sbin < l {
        m := m[sbin := Get(m, sbin) + 1];
      }
    }
    assert starts[..|starts|] == starts;
  }

  /** A nonempty set of keys has a key to pick. */
  lemma SetHasElement(keys: set<int>)
    requires keys != {}
    ensures exists k :: k in keys
  {
    if forall k :: k !in keys {
      assert false;
    }
  }

  /** A nonempty collection has a value to pick. */
  lemma MultisetHasElement(ms: multiset<int>)
    requires ms != multiset{}
    ensures exists x :: x in ms
  {
    if forall x :: x !in ms {
      assert false;
    }
  }

  /** The second loop of `binCounts`: each entry of the map written into a zeroed array of l
      counts, in an order the map chooses. */
  method CopyEntries(m: map<int, nat>, l: nat) returns (ret: seq<nat>)
    requires forall k | k in m :: 0 <= k < l
    ensures |ret| == l && forall k | 0 <= k < l :: ret[k] == Get(m, k)
  {
    var a := new nat[l](_ => 0);
    var entries := m.Keys;
    while entries != {}
      invariant entries <= m.Keys
      invariant forall k | 0 <= k < l :: a[k] == if k in m && k !in entries then m[k] else 0
      decreases |entries|
    {
      SetHasElement(entries);
      var key :| key in entries;
      a[key] := m[key];
      entries := entries - {key};
    }
    return a[..];
  }

  /** `binCounts(int[] starts, start, end, window)`: the positions are taken in array order. */
  method BinCountsArray(starts: seq<int>, start: int, end: int, window: int) returns (r: Result<seq<nat>>)
    ensures r == BinCounts(starts, start, end, window)
  {
    if window == 0 {
      return Err(DivisionByZero);
    }
    var startBin := Div(start, window);
    var endBin := Div(end, window);
    var l := endBin - startBin + 1;
    var m := CountArray(starts, window, startBin, l);
    if l < 0 {
      return Err(NegativeArraySize);
    }
    var ret := CopyEntries(m, l);
    assert ret == seq(l, k requires 0 <= k < l => Count(starts, window, startBin, k));
    return Ok(ret);
  }

  /** A listing of the values of a collection, in some order. */
  ghost function Listing(ms: multiset<int>): (s: seq<int>)
    ensures multiset(s) == ms
    decreases |ms|
  {
    if ms == multiset{} then []
    else
      MultisetHasElement(ms);
      var x :| x in ms;
      Listing(ms - multiset{x}) + [x]
  }

  /** What `binCounts` returns for a collection of positions. */
  ghost function CollectionCounts(starts: multiset<int>, start: int, end: int, window: int): Result<seq<nat>> {
    BinCounts(Listing(starts), start, end, window)
  }

  /** The first loop of `binCounts(Collection<Integer> starts, ...)`; `listed` is the order the
      collection gave its values in. */
  method CountCollection(starts: multiset<int>, window: int, startBin: int, l: int)
    returns (m: map<int, nat>, ghost listed: seq<int>)
    requires window != 0
    ensures multiset(listed) == starts
    ensures forall k | k in m :: 0 <= k < l
    ensures forall k | 0 <= k < l :: Get(m, k) == Count(listed, window, startBin, k)
  {
    m := map[];
    var rest := starts;
    listed := [];
    while rest != multiset{}
      invariant multiset(listed) + rest == starts
      invariant forall k | k in m :: 0 <= k < l
      invariant forall k | 0 <= k < l :: Get(m, k) == Count(listed, window, startBin, k)
      decreases |rest|
    {
      MultisetHasElement(rest);
      var rs :| rs in rest;
      ghost var before := listed;
      rest := rest - multiset{rs};
      listed := listed + [rs];
      assert listed[..|listed| - 1] == before;
      var sbin := Div(rs, window) - startBin;
      if sbin >= 0 && sbin < l {
        m := m[sbin := Get(m, sbin) + 1];
      }
    }
  }

  /** `binCounts(Collection<Integer> starts, start, end, window)`: the positions are taken in
      the collection's own iteration order, which nothing fixes. */
  method BinCountsCollection(starts: multiset<int>, start: int, end: int, window: int)
    returns (r: Result<seq<nat>>)
    ensures r == CollectionCounts(starts, start, end, window)
  {
    if window == 0 {
      return Err(DivisionByZero);
    }
    var startBin := Div(start, window);
    var endBin := Div(end, window);
    var l := endBin - startBin + 1;
    ghost var listed;
    var m;
    m, listed := CountCollection(starts, window, startBin, l);
    if l < 0 {
      return Err(NegativeArraySize);
    }
    var ret := CopyEntries(m, l);
    BinCountsPermutation(listed, Listing(starts), start, end, window);
    assert ret == seq(l, k requires 0 <= k < l => Count(listed, window, startBin, k));
    return Ok(ret);
  }

  // ---------------------------------------------------------------------------------------
  // Properties of the counts.

  lemma {:induction false} CountAppend(a: seq<int>, b: seq<int>, window: int, startBin: int, k: int)
    requires window != 0
    ensures Count(a + b, window, startBin, k) == Count(a, window, startBin, k) + Count(b, window, startBin, k)
    decreases |b|
  {
    if |b| > 0 {
      var b' := b[..|b| - 1];
      assert (a + b)[..|a + b| - 1] == a + b';
      CountAppend(a, b', window, startBin, k);
    } else {
      assert a + b == a;
    }
  }

  /** Dropping position j from a listing removes one occurrence of its value. */
  lemma DropOne(t: seq<int>, j: int)
    requires 0 <= j < |t|
    ensures multiset(t[..j] + t[j + 1..]) == multiset(t) - multiset{t[j]}
  {
    assert t == t[..j] + [t[j]] + t[j + 1..];
  }

  /** Dropping position j from a listing lowers the count of its bin by one. */
  lemma CountDropOne(t: seq<int>, j: int, window: int, startBin: int, k: int)
    requires window != 0 && 0 <= j < |t|
    ensures Count(t, window, startBin, k) ==
      Count(t[..j] + t[j + 1..], window, startBin, k) + (if BinOf(t[j], window, startBin) == k then 1 else 0)
  {
    var head := t[..j + 1];
    assert t == head + t[j + 1..];
    assert head[..j] == t[..j];
    CountAppend(head, t[j + 1..], window, startBin, k);
    CountAppend(t[..j], t[j + 1..], window, startBin, k);
  }

  /** The count of a bin depends only on which positions there are, not on their order. */
  lemma {:induction false} CountPermutation(s: seq<int>, t: seq<int>, window: int, startBin: int, k: int)
    requires window != 0 && multiset(s) == multiset(t)
    ensures Count(s, window, startBin, k) == Count(t, window, startBin, k)
    decreases |s|
  {
    if |s| > 0 {
      var n := |s| - 1;
      var x := s[n];
      assert x in multiset(t) by {
        assert x in multiset(s);
      }
      var j :| 0 <= j < |t| && t[j] == x;
      var rest := t[..j] + t[j + 1..];
      DropOne(s, n);
      DropOne(t, j);
      assert s[..n] + s[n + 1..] == s[..n];
      CountPermutation(s[..n], rest, window, startBin, k);
      CountDropOne(t, j, window, startBin, k);
    } else {
      assert |t| == |multiset(t)| == 0;
    }
  }

  /** A bin holds no count exactly when no position falls in it. */
  lemma {:induction false} CountZero(s: seq<int>, window: int, startBin: int, k: int)
    requires window != 0
    ensures Count(s, window, startBin, k) == 0 <==> forall i | 0 <= i < |s| :: BinOf(s[i], window, startBin) != k
  {
    if |s| > 0 {
      var s' := s[..|s| - 1];
      CountZero(s', window, startBin, k);
      assert forall i | 0 <= i < |s'| :: s'[i] == s[i];
    }
  }

  /** Widening the range by bin l adds the count of bin l. */
  lemma {:induction false} InRangeStep(s: seq<int>, window: int, startBin: int, l: nat)
    requires window != 0
    ensures InRangeCount(s, window, startBin, l + 1) ==
      InRangeCount(s, window, startBin, l) + Count(s, window, startBin, l)
  {
    if |s| > 0 {
      InRangeStep(s[..|s| - 1], window, startBin, l);
    }
  }

  lemma {:induction false} InRangeAtMostAll(s: seq<int>, window: int, startBin: int, l: int)
    requires window != 0
    ensures InRangeCount(s, window, startBin, l) <= |s|
  {
    if |s| > 0 {
      InRangeAtMostAll(s[..|s| - 1], window, startBin, l);
    }
  }

  function Sum(v: seq<nat>): nat {
    if |v| == 0 then 0 else Sum(v[..|v| - 1]) + v[|v| - 1]
  }

  /** The counts of bins 0 .. l - 1 add up to the positions in those bins. */
  lemma {:induction false} SumCounts(s: seq<int>, window: int, startBin: int, l: nat)
    requires window != 0
    ensures Sum(seq(l, k requires 0 <= k < l => Count(s, window, startBin, k))) == InRangeCount(s, window, startBin, l)
  {
    if l > 0 {
      var v := seq(l, k requires 0 <= k < l => Count(s, window, startBin, k));
      var u := seq(l - 1, k requires 0 <= k < l - 1 => Count(s, window, startBin, k));
      assert v[..l - 1] == u;
      SumCounts(s, window, startBin, l - 1);
      InRangeStep(s, window, startBin, l - 1);
    } else {
      assert InRangeCount(s, window, startBin, 0) == 0 by { InRangeEmpty(s, window, startBin); }
    }
  }

  lemma {:induction false} InRangeEmpty(s: seq<int>, window: int, startBin: int)
    requires window != 0
    ensures InRangeCount(s, window, startBin, 0) == 0
  {
    if |s| > 0 {
      InRangeEmpty(s[..|s| - 1], window, startBin);
    }
  }

  /** One count per bin of the region; each the number of positions in its bin, so zero for a
      bin no position falls in; together they count the positions inside the region, which is
      never more than all of them. */
  lemma BinCountsMeaning(s: seq<int>, start: int, end: int, window: int)
    requires window != 0 && BinRange(start, end, window) >= 0
    ensures var r, startBin := BinCounts(s, start, end, window), Div(start, window);
      r.Ok? && |r.value| == BinRange(start, end, window) &&
      (forall k | 0 <= k < |r.value| ::
        r.value[k] == |Positions(s, window, startBin, k)|) &&
      Sum(r.value) == InRangeCount(s, window, startBin, |r.value|) <= |s|
  {
    var startBin, l := Div(start, window), BinRange(start, end, window);
    SumCounts(s, window, startBin, l);
    InRangeAtMostAll(s, window, startBin, l);
    forall k | 0 <= k < l
      ensures Count(s, window, startBin, k) == |Positions(s, window, startBin, k)|
    {
      CountIsCardinality(s, window, startBin, k);
    }
  }

  /** The count of bin k is the number of indices whose position falls in bin k. */
  lemma {:induction false} CountIsCardinality(s: seq<int>, window: int, startBin: int, k: int)
    requires window != 0
    ensures Count(s, window, startBin, k) == |Positions(s, window, startBin, k)|
  {
    if |s| > 0 {
      var n := |s| - 1;
      var s' := s[..n];
      CountIsCardinality(s', window, startBin, k);
      var before, all := Positions(s', window, startBin, k), Positions(s, window, startBin, k);
      assert forall i | 0 <= i < n :: s'[i] == s[i];
      if BinOf(s[n], window, startBin) == k {
        assert all == before + {n};
      } else {
        assert all == before;
      }
    } else {
      assert Positions(s, window, startBin, k) == {};
    }
  }

  /** The result does not depend on the order of the positions. */
  lemma BinCountsPermutation(s: seq<int>, t: seq<int>, start: int, end: int, window: int)
    requires multiset(s) == multiset(t)
    ensures BinCounts(s, start, end, window) == BinCounts(t, start, end, window)
  {
    if window != 0 && BinRange(start, end, window) >= 0 {
      var startBin, l := Div(start, window), BinRange(start, end, window);
      forall k | 0 <= k < l
        ensures Count(s, window, startBin, k) == Count(t, window, startBin, k)
      {
        CountPermutation(s, t, window, startBin, k);
      }
      assert seq(l, k requires 0 <= k < l => Count(s, window, startBin, k))
        == seq(l, k requires 0 <= k < l => Count(t, window, startBin, k));
    }
  }

  /** The array and the collection overloads agree on the same values. */
  lemma OverloadsAgree(s: seq<int>, start: int, end: int, window: int)
    ensures CollectionCounts(multiset(s), start, end, window) == BinCounts(s, start, end, window)
  {
    BinCountsPermutation(Listing(multiset(s)), s, start, end, window);
  }
}
