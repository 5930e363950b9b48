/** `CountAssembly`: the queries every count source answers. A source is one of the two readers.
    Neither reader overrides the start, strand, value, read-length or genome queries, so those
    give the defaults whatever the source; the region-only `getCounts` and `getValues` ask again
    at window 1; `getReadCount` and `close` are the multi-resolution reader's own, and the
    fixed-depth reader keeps the defaults. */
module CountAssembly {
  import opened Files
  import opened Genomic
  import FixedDepthReader
  import MultiResolutionReader

  /** The window the region-only overloads ask at. */
  const UnitWindow: int := 1

  /** A count source. */
  datatype Source =
    | FixedDepth(fixedDepth: FixedDepthReader.ReadCountsFile32Bit)
    | MultiResolution(multiResolution: MultiResolutionReader.ReadCountsFileBC)

  /** The reader object behind a source. */
  function Reader(src: Source): object {
    match src
    case FixedDepth(r) => r
    case MultiResolution(r) => r
  }

  ghost predicate Valid(src: Source)
    reads Reader(src)
  {
    match src
    case FixedDepth(r) => r.Valid()
    case MultiResolution(r) => r.Valid()
  }

  /** `getStarts(region, window)`: no start positions. */
  function Starts(src: Source, region: Region, window: int): (starts: seq<int>)
    ensures starts == []
  {
    []
  }

  /** `getStrands(region, window)`: no strands. Like `getValues`, a default of its own that
      happens to give the same empty answer as `getStarts`. */
  function Strands(src: Source, region: Region, window: int): (strands: seq<Strand>)
    ensures strands == []
  {
    []
  }

  /** `getValues(region, window)`: no values, again a separate empty default. */
  function Values(src: Source, region: Region, window: int): (values: seq<real>)
    ensures values == []
  {
    []
  }

  /** `getValues(region)`: the values at window 1, so none. */
  function UnitValues(src: Source, region: Region): (values: seq<real>)
    ensures values == Values(src, region, UnitWindow) && values == []
  {
    Values(src, region, UnitWindow)
  }

  /** `getReadLength()`: unknown, reported as -1. */
  function ReadLength(src: Source): (n: int)
    ensures n == -1
  {
    -1
  }

  /** `getGenome()`: no genome (`null`). */
  function GenomeOf(src: Source): (g: Option<Genome>)
    ensures g == None
  {
    None
  }

  /** `getCounts(region, window)`, as each reader defines it. The fixed-depth reader needs a
      region starting at 1 or later and a positive window. */
  method Counts(src: Source, region: Region, window: int) returns (r: Result<seq<int>>)
    requires Valid(src)
    requires src.FixedDepth? ==> region.start >= 1 && window >= 1
    modifies Reader(src)
    ensures Valid(src)
    ensures src.FixedDepth? ==> r == FixedDepthReader.RegionCounts(src.fixedDepth.dir, region, window)
    ensures src.MultiResolution? && MultiResolutionReader.Power(window).Err? ==> r == Err(UnknownWindow)
    ensures src.MultiResolution? && MultiResolutionReader.Power(window).Ok? ==>
      var reader := src.multiResolution;
      var power := MultiResolutionReader.Power(window).value;
      r == (if old(reader.Stale(region.chr, power)) then Err(IOError)
        else MultiResolutionReader.DirectoryCounts(reader.dir, region.chr, region.start, region.end, window))
    ensures src.MultiResolution? && MultiResolutionReader.Power(window).Err? ==>
      var reader := src.multiResolution;
      reader.Handles() == old(reader.Handles()) && reader.fileMap == old(reader.fileMap)
    ensures src.MultiResolution? && MultiResolutionReader.Power(window).Ok? ==>
      var reader := src.multiResolution;
      var power := MultiResolutionReader.Power(window).value;
      reader.fileMap == MultiResolutionReader.RememberPath(old(reader.fileMap), reader.dir, region.chr, power) &&
      reader.readCount == old(reader.readCount) &&
      (old(reader.Tagged(region.chr, power)) || (region.chr, power) !in reader.fileMap ==>
        reader.Handles() == old(reader.Handles())) &&
      (!old(reader.Tagged(region.chr, power)) && (region.chr, power) in reader.fileMap ==>
        reader.file == Some(MultiResolutionReader.Handle(old(reader.nextId), reader.fileMap[(region.chr, power)])) &&
        reader.Tagged(region.chr, power) && reader.nextId == old(reader.nextId) + 1 &&
        reader.openHandles == old(reader.Released()) + {old(reader.nextId)})
  {
    match src
    case FixedDepth(reader) =>
      r := reader.GetCounts(region, window);
    case MultiResolution(reader) =>
      r := reader.GetRegionCounts(region, window);
  }

  /** `getCounts(region)`: the counts at window 1. The fixed-depth reader reads its files for
      window 1; the multi-resolution reader has no resolution of 1 base, so it always fails. */
  method UnitCounts(src: Source, region: Region) returns (r: Result<seq<int>>)
    requires Valid(src)
    requires src.FixedDepth? ==> region.start >= 1
    modifies Reader(src)
    ensures Valid(src)
    ensures src.FixedDepth? ==> r == FixedDepthReader.RegionCounts(src.fixedDepth.dir, region, UnitWindow)
    ensures src.MultiResolution? ==>
      r == Err(UnknownWindow) &&
      src.multiResolution.Handles() == old(src.multiResolution.Handles()) &&
      src.multiResolution.fileMap == old(src.multiResolution.fileMap)
  {
    r := Counts(src, region, UnitWindow);
  }

  /** Asking a multi-resolution source twice for the same region at a known window gives the
      directory's counts both times, unless the reader had already closed the handle of that
      chromosome and power (as after `close`). */
  method CountsTwice(src: Source, region: Region, window: int) returns (first: Result<seq<int>>, second: Result<seq<int>>)
    requires Valid(src) && src.MultiResolution? && MultiResolutionReader.Power(window).Ok?
    requires !src.multiResolution.Stale(region.chr, MultiResolutionReader.Power(window).value)
    modifies Reader(src)
    ensures Valid(src)
    ensures var reader := src.multiResolution;
      first == second == MultiResolutionReader.DirectoryCounts(reader.dir, region.chr, region.start, region.end, window)
  {
    first := Counts(src, region, window);
    second := Counts(src, region, window);
  }

  /** `getReadCount(genome, window)`: -1 from the fixed-depth reader; the multi-resolution
      reader's stored total, cached once it is at least 1. */
  method ReadCount(src: Source, genome: Genome, window: int) returns (r: Result<int>)
    modifies Reader(src)
    ensures src.FixedDepth? ==> r == Ok(-1) && unchanged(Reader(src))
    ensures src.MultiResolution? ==>
      var reader := src.multiResolution;
      (if old(reader.readCount) >= 1 then r == Ok(old(reader.readCount)) && reader.readCount == old(reader.readCount)
       else (r == MultiResolutionReader.StoredReadCount(reader.dir, genome, reader.mode) &&
         reader.readCount == (if r.Ok? then r.value else old(reader.readCount)))) &&
      reader.Handles() == old(reader.Handles()) && reader.fileMap == old(reader.fileMap)
  {
    match src
    case FixedDepth(_) =>
      r := Ok(-1);
    case MultiResolution(reader) =>
      r := reader.GetReadCount(genome, window);
  }

  /** `close()`: nothing for the fixed-depth reader; the multi-resolution reader closes its
      current handle. */
  method Close(src: Source)
    requires Valid(src)
    modifies Reader(src)
    ensures Valid(src)
    ensures src.FixedDepth? ==> unchanged(Reader(src))
    ensures src.MultiResolution? ==>
      var reader := src.multiResolution;
      reader.openHandles == old(reader.Released()) &&
      reader.file == old(reader.file) && reader.chrTag == old(reader.chrTag) &&
      reader.power == old(reader.power) && reader.nextId == old(reader.nextId) &&
      reader.fileMap == old(reader.fileMap) && reader.readCount == old(reader.readCount)
  {
    match src
    case FixedDepth(_) =>
    case MultiResolution(reader) =>
      reader.Close();
  }
}
