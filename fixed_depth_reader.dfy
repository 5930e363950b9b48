/** The fixed-bit-depth reader (ReadCountsFile32Bit): for a chromosome and a window it looks for
    a count file of each known depth in turn, remembers the first one it finds, and decodes the
    requested bins from it at that depth. */
module FixedDepthReader {
  import opened JavaInt
  import opened Files
  import opened Text
  import opened Genomic
  import opened FixedDepthDecoders

  /** The depths probed, in the order they are probed. */
  const Depths: seq<int> := [4, 8, 12, 16, 20, 24, 32]

  /** `<chr>.counts.win.<window>.<depth>bit`. */
  function FileName(chr: Chromosome, window: int, depth: int): (n: Name)
    ensures |n| > |chr| && n[..|chr|] == chr
  {
    chr + ".counts.win." + DecimalString(window) + "." + DecimalString(depth) + "bit"
  }

  /** Whether the directory holds the file of this depth. */
  predicate Has(dir: Directory, chr: Chromosome, window: int, depth: int) {
    Exists(dir, FileName(chr, window, depth))
  }

  /** The first depth, in probing order, that `has` holds for. */
  function FirstDepth(has: int -> bool): (r: Option<int>)
    ensures r.Some? ==> r.value in Depths && has(r.value)
  {
    if has(4) then Some(4)
    else if has(8) then Some(8)
    else if has(12) then Some(12)
    else if has(16) then Some(16)
    else if has(20) then Some(20)
    else if has(24) then Some(24)
    else if has(32) then Some(32)
    else None
  }

  /** None is found exactly when `has` holds for no depth; a depth is found exactly when `has`
      holds for it and for no smaller depth. */
  lemma FirstDepthOrder(has: int -> bool, depth: int)
    ensures FirstDepth(has).None? <==> forall d | d in Depths :: !has(d)
    ensures FirstDepth(has) == Some(depth) <==>
      depth in Depths && has(depth) && forall d | d in Depths && d < depth :: !has(d)
  {
    assert 4 in Depths && 8 in Depths && 12 in Depths && 16 in Depths;
    assert 20 in Depths && 24 in Depths && 32 in Depths;
  }

  /** The depth of the file the reader settles on for (chr, window), if there is one. */
  function Probe(dir: Directory, chr: Chromosome, window: int): (r: Option<int>)
    ensures r.Some? ==> r.value in Depths && Has(dir, chr, window, r.value)
  {
    FirstDepth(d => Has(dir, chr, window, d))
  }

  /** Depths are probed in the order 4, 8, 12, 16, 20, 24, 32: the reader settles on none
      exactly when no depth's file exists, and on a depth exactly when its file exists and no
      file of a smaller depth does. */
  lemma ProbeOrder(dir: Directory, chr: Chromosome, window: int, depth: int)
    ensures Probe(dir, chr, window).None? <==> forall d | d in Depths :: !Has(dir, chr, window, d)
    ensures Probe(dir, chr, window) == Some(depth) <==>
      depth in Depths && Has(dir, chr, window, depth) &&
      forall d | d in Depths && d < depth :: !Has(dir, chr, window, d)
  {
    FirstDepthOrder(d => Has(dir, chr, window, d), depth);
  }

  /** The seven file tests of `getCounts`, each made only when the ones before it failed. */
  method ProbeDepths(dir: Directory, chr: Chromosome, window: int) returns (found: Option<int>)
    ensures found == Probe(dir, chr, window)
  {
    if Has(dir, chr, window, 4) {
      found := Some(4);
    } else if Has(dir, chr, window, 8) {
      found := Some(8);
    } else if Has(dir, chr, window, 12) {
      found := Some(12);
    } else if Has(dir, chr, window, 16) {
      found := Some(16);
    } else if Has(dir, chr, window, 20) {
      found := Some(20);
    } else if Has(dir, chr, window, 24) {
      found := Some(24);
    } else if Has(dir, chr, window, 32) {
      found := Some(32);
    } else {
      found := None;
    }
  }

  /** What the file of a depth decodes to for bins s..e; a depth outside the known seven is read
      as 32-bit. */
  function CountsAt(data: seq<Byte>, depth: int, s: nat, e: int): (r: Result<seq<int>>)
    ensures r.Ok? ==> |r.value| == e - s + 1
    ensures depth !in Depths ==> r == Counts32(data, s, e)
  {
    match depth
    case 24 => Counts24(data, s, e)
    case 20 => Counts20(data, s, e)
    case 16 => Counts16(data, s, e)
    case 12 => Counts12(data, s, e)
    case 8 => Counts8(data, s, e)
    case 4 => Counts4(data, s, e)
    case _ => Counts32(data, s, e)
  }

  /** What the `switch` of `getCounts` gives as written: the 4-, 12- and 20-bit files go through
      the decoders as written, and every other depth decodes as `CountsAt` says. */
  function CountsAtAsWritten(data: seq<Byte>, depth: int, s: nat, e: int): (r: Result<seq<int>>)
    ensures depth != 4 && depth != 12 && depth != 20 ==> r == CountsAt(data, depth, s, e)
  {
    match depth
    case 20 => Counts20AsWritten(data, s, e)
    case 12 => Counts12AsWritten(data, s, e)
    case 4 => Counts4AsWritten(data, s, e)
    case _ => CountsAt(data, depth, s, e)
  }

  /** The `switch` of `getCounts` on the depth, with the corrected 4-, 12- and 20-bit loops. */
  method Decode(data: seq<Byte>, depth: int, s: nat, e: int) returns (r: Result<seq<int>>)
    ensures r == CountsAt(data, depth, s, e)
  {
    match depth
    case 24 => r := GetCounts24(data, s, e);
    case 20 => r := GetCounts20(data, s, e);
    case 16 => r := GetCounts16(data, s, e);
    case 12 => r := GetCounts12(data, s, e);
    case 8 => r := GetCounts8(data, s, e);
    case 4 => r := GetCounts4(data, s, e);
    case _ => r := GetCounts32(data, s, e);
  }

  /** The `switch` of `getCounts` on the depth as written. */
  method DecodeAsWritten(data: seq<Byte>, depth: int, s: nat, e: int) returns (r: Result<seq<int>>)
    ensures r == CountsAtAsWritten(data, depth, s, e)
  {
    match depth
    case 24 => r := GetCounts24(data, s, e);
    case 20 => r := GetCounts20AsWritten(data, s, e);
    case 16 => r := GetCounts16(data, s, e);
    case 12 => r := GetCounts12AsWritten(data, s, e);
    case 8 => r := GetCounts8(data, s, e);
    case 4 => r := GetCounts4AsWritten(data, s, e);
    case _ => r := GetCounts32(data, s, e);
  }

  /** The counts of a region at a window, straight from the directory: the empty array when no
      depth's file exists. */
  function RegionCounts(dir: Directory, region: Region, window: int): (r: Result<seq<int>>)
    requires region.start >= 1 && window >= 1
    ensures Probe(dir, region.chr, window).None? ==> r == Ok([])
  {
    match Probe(dir, region.chr, window)
    case None => Ok([])
    case Some(depth) =>
      CountsAt(Lookup(dir, FileName(region.chr, window, depth)).value, depth,
        FirstBin(region.start, window), LastBin(region.end, window))
  }

  /** The counts of a region at a window as the program's decoders give them. */
  function RegionCountsAsWritten(dir: Directory, region: Region, window: int): (r: Result<seq<int>>)
    requires region.start >= 1 && window >= 1
    ensures Probe(dir, region.chr, window).None? ==> r == Ok([])
    ensures Probe(dir, region.chr, window).Some? && Probe(dir, region.chr, window).value !in {4, 12, 20} ==>
      r == RegionCounts(dir, region, window)
  {
    match Probe(dir, region.chr, window)
    case None => Ok([])
    case Some(depth) =>
      CountsAtAsWritten(Lookup(dir, FileName(region.chr, window, depth)).value, depth,
        FirstBin(region.start, window), LastBin(region.end, window))
  }

  class ReadCountsFile32Bit {
    /** The directory of count files. */
    const dir: Directory
    /** Per (chromosome, window): the file settled on, and its depth. */
    var fileMap: map<(Chromosome, int), Name>
    var bitMap: map<(Chromosome, int), int>

    /** Both caches have the same keys, and each entry is what probing the directory gives. */
    ghost predicate Valid()
      reads this
    {
      fileMap.Keys == bitMap.Keys &&
      forall key | key in bitMap ::
        Probe(dir, key.0, key.1) == Some(bitMap[key]) &&
        fileMap[key] == FileName(key.0, key.1, bitMap[key])
    }

    constructor(dir: Directory)
      ensures this.dir == dir && fileMap == map[] && bitMap == map[]
      ensures Valid()
    {
      this.dir := dir;
      fileMap := map[];
      bitMap := map[];
    }

    /** Records the file found for (chr, window). */
    method Remember(key: (Chromosome, int), file: Name, depth: int)
      modifies this
      ensures fileMap == old(fileMap)[key := file] && bitMap == old(bitMap)[key := depth]
    {
      fileMap := fileMap[key := file];
      bitMap := bitMap[key := depth];
    }

    /** The lookup of `getCounts`: a (chromosome, window) seen before is not probed again; a new
        one is probed depth by depth and the first file found is remembered; when none is found
        nothing is remembered. */
    method Locate(chr: Chromosome, window: int)
      requires Valid()
      modifies this
      ensures Valid()
      ensures var key := (chr, window);
        if key in old(bitMap) then fileMap == old(fileMap) && bitMap == old(bitMap)
        else match Probe(dir, chr, window)
          case None => fileMap == old(fileMap) && bitMap == old(bitMap)
          case Some(depth) =>
            fileMap == old(fileMap)[key := FileName(chr, window, depth)] &&
            bitMap == old(bitMap)[key := depth]
      ensures (chr, window) in bitMap <==> Probe(dir, chr, window).Some?
    {
      var key := (chr, window);
      if key !in fileMap {
        var found := ProbeDepths(dir, chr, window);
        if found.Some? {
          Remember(key, FileName(chr, window, found.value), found.value);
        }
      }
    }

    /** `getCounts(region, window)` with the corrected 4-, 12- and 20-bit loops. The file is
        found as `Locate` says and, when none is found, the result is empty. The caches being
        correct, the result is always what the directory itself gives. */
    method GetCounts(region: Region, window: int) returns (r: Result<seq<int>>)
      requires Valid()
      requires region.start >= 1 && window >= 1
      modifies this
      ensures Valid()
      ensures var key := (region.chr, window);
        if key in old(bitMap) then fileMap == old(fileMap) && bitMap == old(bitMap)
        else match Probe(dir, region.chr, window)
          case None => fileMap == old(fileMap) && bitMap == old(bitMap)
          case Some(depth) =>
            fileMap == old(fileMap)[key := FileName(region.chr, window, depth)] &&
            bitMap == old(bitMap)[key := depth]
      ensures r == RegionCounts(dir, region, window)
    {
      var key := (region.chr, window);
      Locate(region.chr, window);
      if key in fileMap {
        var data := Lookup(dir, fileMap[key]).value;
        r := Decode(data, bitMap[key], FirstBin(region.start, window), LastBin(region.end, window));
      } else {
        r := Ok([]);
      }
    }

    /** `getCounts(region, window)` as written: the same lookup, and the bins as the program's
        decoders give them. */
    method GetCountsAsWritten(region: Region, window: int) returns (r: Result<seq<int>>)
      requires Valid()
      requires region.start >= 1 && window >= 1
      modifies this
      ensures Valid()
      ensures var key := (region.chr, window);
        if key in old(bitMap) then fileMap == old(fileMap) && bitMap == old(bitMap)
        else match Probe(dir, region.chr, window)
          case None => fileMap == old(fileMap) && bitMap == old(bitMap)
          case Some(depth) =>
            fileMap == old(fileMap)[key := FileName(region.chr, window, depth)] &&
            bitMap == old(bitMap)[key := depth]
      ensures r == RegionCountsAsWritten(dir, region, window)
    {
      var key := (region.chr, window);
      Locate(region.chr, window);
      if key in fileMap {
        var data := Lookup(dir, fileMap[key]).value;
        r := DecodeAsWritten(data, bitMap[key], FirstBin(region.start, window), LastBin(region.end, window));
      } else {
        r := Ok([]);
      }
    }
  }
}
