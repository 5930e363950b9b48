/** The file system as the readers see it: a directory listing of named byte contents,
    the errors the readers can raise, and the two primitive byte fetches they rely on. */
module Files {
  import opened JavaInt

  datatype Option<T> = None | Some(value: T)

  /** The exceptions of the readers, named by what raises them. */
  datatype Error =
    | IOError            // a read or seek outside the file, a missing file, a short stream
    | NegativeArraySize  // `new int[l]` with l < 0
    | UnknownWindow      // unboxing the null that POWER_MAP returns for a window that is not a key
    | NoMatchingFile     // opening the null path left when no file matched a (chromosome, power)
    | DivisionByZero     // Java's ArithmeticException for an integer division by zero

  datatype Result<T> = Ok(value: T) | Err(error: Error)

  type Name = string

  datatype FileEntry = FileEntry(name: Name, data: seq<Byte>)

  /** A directory, in the order its listing returns the entries. */
  type Directory = seq<FileEntry>

  /** Whether the directory has an entry called `name`. */
  predicate Exists(dir: Directory, name: Name) {
    |dir| > 0 && (dir[0].name == name || Exists(dir[1..], name))
  }

  /** The contents of the first entry called `name`. */
  function Lookup(dir: Directory, name: Name): (r: Option<seq<Byte>>)
    ensures r.Some? <==> Exists(dir, name)
    ensures r.Some? ==> exists i | 0 <= i < |dir| :: dir[i] == FileEntry(name, r.value)
  {
    if |dir| == 0 then None
    else if dir[0].name == name then Some(dir[0].data)
    else
      var rest := Lookup(dir[1..], name);
      assert rest.Some? ==> exists i | 0 <= i < |dir| :: dir[i] == FileEntry(name, rest.value) by {
        if rest.Some? {
          var i :| 0 <= i < |dir[1..]| && dir[1..][i] == FileEntry(name, rest.value);
          assert dir[i + 1] == FileEntry(name, rest.value);
        }
      }
      rest
  }

  predicate InFile(size: nat, a: int, b: int) {
    0 <= a && a <= b + 1 && b < size
  }

  /** `FileSequenceReader.getBytes(file, a, b)`: the bytes at offsets a..b inclusive. That class
      is not part of this model; a range reaching outside the file is taken to fail. */
  function Fetch(data: seq<Byte>, a: int, b: int): (r: Result<seq<Byte>>)
    ensures r.Ok? <==> InFile(|data|, a, b)
    ensures r.Err? ==> r.error == IOError
    ensures r.Ok? ==> |r.value| == b - a + 1 && forall i | 0 <= i < |r.value| :: r.value[i] == data[a + i]
  {
    if InFile(|data|, a, b) then Ok(data[a..b + 1]) else Err(IOError)
  }

  /** `seek(pos)` followed by `read(d)` into a fresh zeroed buffer of `len` bytes: the bytes
      from `pos` that the file still has, and zero where it has ended (the count that `read`
      returns is ignored). A negative position fails in `seek`. */
  function ReadAt(data: seq<Byte>, pos: int, len: nat): (r: Result<seq<Byte>>)
    ensures r.Ok? <==> pos >= 0
    ensures r.Err? ==> r.error == IOError
    ensures r.Ok? ==> |r.value| == len
    ensures r.Ok? ==> forall i | 0 <= i < len ::
      r.value[i] == if pos + i < |data| then data[pos + i] else 0
  {
    if pos < 0 then Err(IOError)
    else Ok(seq(len, i requires 0 <= i < len => if pos + i < |data| then data[pos + i] else 0))
  }
}
