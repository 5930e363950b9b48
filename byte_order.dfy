/** Big-endian decoding of fixed-width integers, as `ByteBuffer.getInt` and
    `DataInputStream.readInt` do. The `ByteStream` reads of the jebtk library are not part of this
    model; they are taken to be the same big-endian decoders (`readInt`, `readShort` signed,
    `readInt24` and `read` unsigned). */
module ByteOrder {
  import opened JavaInt

  /** Signed 16-bit value of bytes d[k], d[k+1]. */
  function Int16At(d: seq<Byte>, k: nat): (v: int)
    requires k + 2 <= |d|
    ensures -0x8000 <= v < 0x8000
    ensures v % 0x100 == d[k + 1]
  {
    Signed(d[k]) * 0x100 + d[k + 1]
  }

  /** Unsigned 24-bit value of bytes d[k..k+3]. */
  function UInt24At(d: seq<Byte>, k: nat): (v: int)
    requires k + 3 <= |d|
    ensures 0 <= v < 0x100_0000
    ensures v % 0x100 == d[k + 2]
  {
    (d[k] as int * 0x100 + d[k + 1]) * 0x100 + d[k + 2]
  }

  /** Signed 32-bit (two's complement) value of bytes d[k..k+4]. */
  function Int32At(d: seq<Byte>, k: nat): (v: int)
    requires k + 4 <= |d|
    ensures IntMin <= v <= IntMax
    ensures v % 0x100 == d[k + 3]
    ensures (v < 0) <==> d[k] >= 0x80
  {
    ((Signed(d[k]) * 0x100 + d[k + 1]) * 0x100 + d[k + 2]) * 0x100 + d[k + 3]
  }

  /** A 16-bit value depends only on its two bytes. */
  lemma Int16AtSame(d: seq<Byte>, k: nat, e: seq<Byte>, j: nat)
    requires k + 2 <= |d| && j + 2 <= |e|
    requires d[k] == e[j] && d[k + 1] == e[j + 1]
    ensures Int16At(d, k) == Int16At(e, j)
  {
  }

  /** A 32-bit value depends only on its four bytes. */
  lemma Int32AtSame(d: seq<Byte>, k: nat, e: seq<Byte>, j: nat)
    requires k + 4 <= |d| && j + 4 <= |e|
    requires d[k] == e[j] && d[k + 1] == e[j + 1] && d[k + 2] == e[j + 2] && d[k + 3] == e[j + 3]
    ensures Int32At(d, k) == Int32At(e, j)
  {
  }

  /** A 16-bit value read from a slice is the one read at the same place in the whole. */
  lemma Int16AtSlice(d: seq<Byte>, lo: nat, hi: nat, k: nat)
    requires lo + k + 2 <= hi <= |d|
    ensures Int16At(d[lo..hi], k) == Int16At(d, lo + k)
  {
    var s := d[lo..hi];
    assert s[k] == d[lo + k] && s[k + 1] == d[lo + k + 1];
    Int16AtSame(s, k, d, lo + k);
  }

  /** A 32-bit value read from a slice is the one read at the same place in the whole. */
  lemma Int32AtSlice(d: seq<Byte>, lo: nat, hi: nat, k: nat)
    requires lo + k + 4 <= hi <= |d|
    ensures Int32At(d[lo..hi], k) == Int32At(d, lo + k)
  {
    var s := d[lo..hi];
    assert s[k] == d[lo + k] && s[k + 1] == d[lo + k + 1];
    assert s[k + 2] == d[lo + k + 2] && s[k + 3] == d[lo + k + 3];
    Int32AtSame(s, k, d, lo + k);
  }
}
