# Read-count decoding of the NGS readers

This project models how the next-generation-sequencing read-count readers of the
`edu.columbia.rdf.edb.ngs` package turn count files into arrays of per-bin counts.

- **`ReadCountsFile32Bit`** (module `FixedDepthReader`, with `FixedDepthDecoders`,
  `FixedDepthFormat` and `BitExpressions`). For a chromosome and a window it probes for
  `<chr>.counts.win.<window>.<depth>bit` files. It tries depths 4, 8, 12, 16, 20, 24 and 32,
  in that order. It caches the first file found and its depth per (chromosome, window). It
  then decodes bins `(start - 1) / window .. (end - 1) / window`, packed at that depth. Java's
  signed bytes and its sign-extending shifts are modelled exactly.
- **`ReadCountsFileBC`** (module `MultiResolutionReader`). It maps a window of 10^k bases to
  power k through `POWER_MAP`. It finds the first file in the directory listing whose name
  contains `<chr>.` and `<k>bw`, and reads through the handle of the file it opened last. As
  written, a handle it replaces is never closed (see Findings). After a 13-byte header, it
  reads the bins stored at the value width found at byte 4 of that file. It caches a read
  total taken from `reads.<genome>.<mode>.bc`.
- **`ReadCountsFile.binCounts`** (module `WindowBinning`). It counts start positions into the
  bins of a window. It counts into a map with default value 0. It then copies the map into a
  zeroed array of one entry per bin of the region.
- **`CountAssembly`** (module `CountAssembly`). These are the default queries of every count
  source: `getStarts`, `getStrands`, `getValues`, `getReadLength`, `getReadCount`, `getGenome`,
  `close`, and the region-only overloads that ask at window 1. A source is one of the two
  readers.

Files are byte sequences (`Files.Byte` is 0..255). A directory is the listing of its named
entries, in listing order. Java's truncating `/` and `%` are `JavaInt.Div` and `JavaInt.Rem`.
Java `int` bit operations are spelled out on integers (`JavaInt.Bitwise`). An exception is an
`Err` of `Files.Error`, named after what raises it.

Assumed behaviour of code that is not part of this model:

- `FileSequenceReader.getBytes(file, a, b)` returns bytes `a..b` inclusive. It fails when that
  range reaches outside the file (`Files.Fetch`).
- `ByteStream.readInt24` decodes big-endian; `ByteBuffer.getInt`, `ByteStream.readInt` and
  `readShort` decode big-endian two's complement (`ByteOrder`).
- `ByteStream.read` yields an unsigned byte.
- `RandomAccessFile.seek` fails at a negative position. `read(d)` leaves the zeros of a fresh
  buffer past the end of the file (`Files.ReadAt`).

Where the code departs from its evident intent, one member models the code as written and a
second member holds the corrected behaviour (see Findings). Each reader's `GetCounts` composes
the corrected members; its `GetCountsAsWritten` composes the members as written, so it gives
what the program gives.

## Model

| member | source | states |
|---|---|---|
| FixedDepthReader.FileName | src/main/java/edu/columbia/rdf/edb/ngs/ReadCountsFile32Bit.java:98-134 | the probed file name starts with the chromosome name and is longer than it |
| FixedDepthReader.FirstDepth | src/main/java/edu/columbia/rdf/edb/ngs/ReadCountsFile32Bit.java:97-146 | a depth found is one of the seven known depths, and its file exists |
| FixedDepthReader.FirstDepthOrder | src/main/java/edu/columbia/rdf/edb/ngs/ReadCountsFile32Bit.java:97-146 | the result is None exactly when no depth's file exists; it is depth d exactly when d's file exists and no smaller depth's file does |
| FixedDepthReader.Probe | src/main/java/edu/columbia/rdf/edb/ngs/ReadCountsFile32Bit.java:97-146 | the depth settled on for (chr, window) is a known depth whose file exists |
| FixedDepthReader.ProbeOrder | src/main/java/edu/columbia/rdf/edb/ngs/ReadCountsFile32Bit.java:97-146 | depths are probed in the order 4, 8, 12, 16, 20, 24, 32: none is found exactly when no file exists, and the first existing one is found |
| FixedDepthReader.ProbeDepths | src/main/java/edu/columbia/rdf/edb/ngs/ReadCountsFile32Bit.java:97-146 | the chain of file tests yields the depth the probing order gives |
| FixedDepthReader.CountsAt | src/main/java/edu/columbia/rdf/edb/ngs/ReadCountsFile32Bit.java:151-189 | with the corrected 4-, 12- and 20-bit decoders: a successful decode has one value per bin s..e; a depth outside the seven falls through to the 32-bit decoder |
| FixedDepthReader.CountsAtAsWritten | src/main/java/edu/columbia/rdf/edb/ngs/ReadCountsFile32Bit.java:151-189 | the switch as written agrees with the corrected one on every depth but 4, 12 and 20 |
| FixedDepthReader.Decode | src/main/java/edu/columbia/rdf/edb/ngs/ReadCountsFile32Bit.java:151-189 | the switch, with the corrected 4-, 12- and 20-bit loops, gives what CountsAt gives |
| FixedDepthReader.DecodeAsWritten | src/main/java/edu/columbia/rdf/edb/ngs/ReadCountsFile32Bit.java:151-189 | the switch with the loops as written gives what CountsAtAsWritten gives |
| FixedDepthReader.RegionCounts | src/main/java/edu/columbia/rdf/edb/ngs/ReadCountsFile32Bit.java:93-193 | with the corrected decoders: when no depth's file exists the result is the empty array |
| FixedDepthReader.RegionCountsAsWritten | src/main/java/edu/columbia/rdf/edb/ngs/ReadCountsFile32Bit.java:93-193 | as written: when no depth's file exists the result is the empty array; when the file found is of a depth other than 4, 12 or 20 the result is what RegionCounts gives |
| FixedDepthReader.ReadCountsFile32Bit.constructor | src/main/java/edu/columbia/rdf/edb/ngs/ReadCountsFile32Bit.java:56-75 | a new reader has the directory and empty caches |
| FixedDepthReader.ReadCountsFile32Bit.Remember | src/main/java/edu/columbia/rdf/edb/ngs/ReadCountsFile32Bit.java:101-102 | the file and the depth are cached under the same (chromosome, window) key |
| FixedDepthReader.ReadCountsFile32Bit.Locate | src/main/java/edu/columbia/rdf/edb/ngs/ReadCountsFile32Bit.java:96-146 | a cached (chr, window) is not probed again; a new one caches the first file found, or nothing when none exists; afterwards (chr, window) is cached exactly when some depth's file exists |
| FixedDepthReader.ReadCountsFile32Bit.GetCounts | src/main/java/edu/columbia/rdf/edb/ngs/ReadCountsFile32Bit.java:93-193 | with the corrected decoders: the caches change as Locate says and stay consistent with the directory, so the result is what RegionCounts gives for the directory |
| FixedDepthReader.ReadCountsFile32Bit.GetCountsAsWritten | src/main/java/edu/columbia/rdf/edb/ngs/ReadCountsFile32Bit.java:93-193 | as written: the same cache changes, and the result is what RegionCountsAsWritten gives for the directory |
| FixedDepthDecoders.Bin4 | src/main/java/edu/columbia/rdf/edb/ngs/ReadCountsFile32Bit.java:213-217 | a 4-bit value lies in 0..15 |
| FixedDepthDecoders.GetCounts4AsWritten | src/main/java/edu/columbia/rdf/edb/ngs/ReadCountsFile32Bit.java:195-223 | the loop as written fills every value with the high nibble of the first fetched byte |
| FixedDepthDecoders.GetCounts4 | src/main/java/edu/columbia/rdf/edb/ngs/ReadCountsFile32Bit.java:195-223 | corrected loop, with `even` seeded from the parity of s (the program seeds `true`) and flipped after each value (the program never flips it): value i is the nibble of bin s + i; the fetch fails outside the file, and a negative length fails |
| FixedDepthDecoders.Step4 | src/main/java/edu/columbia/rdf/edb/ngs/ReadCountsFile32Bit.java:208-220 | the cursor and parity of the corrected 4-bit loop locate bin s + i |
| FixedDepthDecoders.Bin8 | src/main/java/edu/columbia/rdf/edb/ngs/ReadCountsFile32Bit.java:239 | the value is the sign-extended byte: -128..127, with that byte as its low 8 bits |
| FixedDepthDecoders.GetCounts8 | src/main/java/edu/columbia/rdf/edb/ngs/ReadCountsFile32Bit.java:225-243 | value i is the signed byte s + i of the file |
| FixedDepthDecoders.Bin12AsWritten | src/main/java/edu/columbia/rdf/edb/ngs/ReadCountsFile32Bit.java:274-278 | as written, a 12-bit value lies in -2048..4095, and odd bins are never negative |
| FixedDepthDecoders.ReadBin12AsWritten | src/main/java/edu/columbia/rdf/edb/ngs/ReadCountsFile32Bit.java:274-280 | one pass of the loop as written: the even path sign-extends its first byte and moves on 1 byte; the odd path moves on 2 |
| FixedDepthDecoders.Step12AsWritten | src/main/java/edu/columbia/rdf/edb/ngs/ReadCountsFile32Bit.java:261-301 | after i values the cursor is at (s+i)*3/2 - s*3/2, and the parity is even exactly when s + i is even |
| FixedDepthDecoders.GetCounts12AsWritten | src/main/java/edu/columbia/rdf/edb/ngs/ReadCountsFile32Bit.java:245-305 | the loop as written yields the as-written value of each bin s..e |
| FixedDepthDecoders.Bin12 | src/main/java/edu/columbia/rdf/edb/ngs/ReadCountsFile32Bit.java:274-278 | corrected: a 12-bit value lies in 0..4095 |
| FixedDepthDecoders.ReadBin12 | src/main/java/edu/columbia/rdf/edb/ngs/ReadCountsFile32Bit.java:274-280 | corrected pass: the first byte is masked to 8 bits; the cursor moves as in the source |
| FixedDepthDecoders.Step12 | src/main/java/edu/columbia/rdf/edb/ngs/ReadCountsFile32Bit.java:261-301 | the cursor and parity of the 12-bit loop locate bin s + i |
| FixedDepthDecoders.GetCounts12 | src/main/java/edu/columbia/rdf/edb/ngs/ReadCountsFile32Bit.java:245-305 | corrected loop: value i is the unsigned 12 bits of bin s + i |
| FixedDepthDecoders.Fetch12Covers | src/main/java/edu/columbia/rdf/edb/ngs/ReadCountsFile32Bit.java:255 | a 12-bit fetch that lies in the file holds both bytes of every bin s..e |
| FixedDepthDecoders.Bin16 | src/main/java/edu/columbia/rdf/edb/ngs/ReadCountsFile32Bit.java:333 | a 16-bit value is the signed big-endian short: -32768..32767 |
| FixedDepthDecoders.GetCounts16 | src/main/java/edu/columbia/rdf/edb/ngs/ReadCountsFile32Bit.java:317-339 | value i is the short at bytes 2(s+i), 2(s+i)+1 |
| FixedDepthDecoders.Fetch20AsWrittenCovers | src/main/java/edu/columbia/rdf/edb/ngs/ReadCountsFile32Bit.java:351-378 | the bytes the 20-bit loop as written reads all lie inside the fetch |
| FixedDepthDecoders.ReadBin20AsWritten | src/main/java/edu/columbia/rdf/edb/ngs/ReadCountsFile32Bit.java:368-378 | one pass of the 20-bit loop as written: sign-extended bytes, cursor moves on 1 or 2 bytes |
| FixedDepthDecoders.Step20AsWritten | src/main/java/edu/columbia/rdf/edb/ngs/ReadCountsFile32Bit.java:355-381 | after i values the cursor as written is at (s+i)*3/2 - s*3/2, the 12-bit stride |
| FixedDepthDecoders.GetCounts20AsWritten | src/main/java/edu/columbia/rdf/edb/ngs/ReadCountsFile32Bit.java:341-384 | the loop as written yields the as-written value of each bin |
| FixedDepthDecoders.Fetch20Length | src/main/java/edu/columbia/rdf/edb/ngs/ReadCountsFile32Bit.java:346-353 | when the 20-bit fetch succeeds the array length is not negative |
| FixedDepthDecoders.Bin20 | src/main/java/edu/columbia/rdf/edb/ngs/ReadCountsFile32Bit.java:368-372 | corrected: a 20-bit value lies in 0..2^20-1 |
| FixedDepthDecoders.ReadBin20 | src/main/java/edu/columbia/rdf/edb/ngs/ReadCountsFile32Bit.java:368-378 | corrected pass: every byte masked; the cursor moves on 2 bytes after an even bin and 3 after an odd one |
| FixedDepthDecoders.Step20 | src/main/java/edu/columbia/rdf/edb/ngs/ReadCountsFile32Bit.java:355-381 | the corrected cursor is at (s+i)*5/2 - s*5/2 |
| FixedDepthDecoders.GetCounts20 | src/main/java/edu/columbia/rdf/edb/ngs/ReadCountsFile32Bit.java:341-384 | corrected loop: value i is the unsigned 20 bits of bin s + i |
| FixedDepthDecoders.Fetch20Covers | src/main/java/edu/columbia/rdf/edb/ngs/ReadCountsFile32Bit.java:351 | a 20-bit fetch that lies in the file holds the three bytes of every bin s..e |
| FixedDepthDecoders.Bin24 | src/main/java/edu/columbia/rdf/edb/ngs/ReadCountsFile32Bit.java:402 | a 24-bit value is unsigned: 0..2^24-1 |
| FixedDepthDecoders.GetCounts24 | src/main/java/edu/columbia/rdf/edb/ngs/ReadCountsFile32Bit.java:386-406 | value i is the 3-byte big-endian value of bin s + i |
| FixedDepthDecoders.Bin32 | src/main/java/edu/columbia/rdf/edb/ngs/ReadCountsFile32Bit.java:424 | a 32-bit value is a Java int |
| FixedDepthDecoders.GetCounts32 | src/main/java/edu/columbia/rdf/edb/ngs/ReadCountsFile32Bit.java:408-428 | value i is the 4-byte big-endian int of bin s + i |
| FixedDepthDecoders.Cursor | src/main/java/edu/columbia/rdf/edb/ngs/ReadCountsFile32Bit.java:264-301 | between bins the cursor moves on (w-1)/2 bytes after an even bin and (w+1)/2 after an odd one, and the parity alternates |
| BitExpressions.HighNibble | src/main/java/edu/columbia/rdf/edb/ngs/ReadCountsFile32Bit.java:214 | `(b & 0xF0) >> 4` on a sign-extended byte is b / 16 |
| BitExpressions.LowNibble | src/main/java/edu/columbia/rdf/edb/ngs/ReadCountsFile32Bit.java:216 | `b & 0xF` is b % 16 |
| BitExpressions.Join12High | src/main/java/edu/columbia/rdf/edb/ngs/ReadCountsFile32Bit.java:275 | the even 12-bit expression keeps the sign of its first byte |
| BitExpressions.Join12HighMasked | src/main/java/edu/columbia/rdf/edb/ngs/ReadCountsFile32Bit.java:275 | with the first byte masked, the expression is b0 * 16 + b1 / 16 |
| BitExpressions.Join12Low | src/main/java/edu/columbia/rdf/edb/ngs/ReadCountsFile32Bit.java:277 | the odd 12-bit expression is (b0 % 16) * 256 + b1 |
| BitExpressions.Join16 | src/main/java/edu/columbia/rdf/edb/ngs/ReadCountsFile32Bit.java:333 | the 16-bit expression is the signed big-endian short |
| BitExpressions.Join20High | src/main/java/edu/columbia/rdf/edb/ngs/ReadCountsFile32Bit.java:369 | the even 20-bit expression: a second byte from 0x80 up drowns the first in sign bits |
| BitExpressions.Join20Low | src/main/java/edu/columbia/rdf/edb/ngs/ReadCountsFile32Bit.java:371 | the odd 20-bit expression: a sign-extended middle byte covers the nibble |
| BitExpressions.Join20HighMasked | src/main/java/edu/columbia/rdf/edb/ngs/ReadCountsFile32Bit.java:369 | masked, the even expression is b0 * 4096 + b1 * 16 + b2 / 16 |
| BitExpressions.Join20LowMasked | src/main/java/edu/columbia/rdf/edb/ngs/ReadCountsFile32Bit.java:371 | masked, the odd expression is (b0 % 16) * 65536 + b1 * 256 + b2 |
| FixedDepthFormat.Counts4Pack | src/main/java/edu/columbia/rdf/edb/ngs/ReadCountsFile32Bit.java:195-223 | round trip: the corrected 4-bit decoder gives back bins s..e of any values packed two per byte |
| FixedDepthFormat.Counts4AsWrittenPack | src/main/java/edu/columbia/rdf/edb/ngs/ReadCountsFile32Bit.java:195-223 | as written, every value returned is the even bin of the pair holding bin s |
| FixedDepthFormat.Stuck4 | src/main/java/edu/columbia/rdf/edb/ngs/ReadCountsFile32Bit.java:208-220 | bins holding 1, 2 decode as 1, 1 as written and as 1, 2 corrected |
| FixedDepthFormat.Counts8Pack | src/main/java/edu/columbia/rdf/edb/ngs/ReadCountsFile32Bit.java:225-243 | round trip for signed byte values |
| FixedDepthFormat.Bin12Pack | src/main/java/edu/columbia/rdf/edb/ngs/ReadCountsFile32Bit.java:254-255 | bin k of a 12-bit layout lies at byte k*3/2, and the two bytes there hold its 12 bits |
| FixedDepthFormat.Value12Pack | src/main/java/edu/columbia/rdf/edb/ngs/ReadCountsFile32Bit.java:274-278 | the corrected value is the stored one; as written, an even bin from 0x800 up comes back less 0x1000 |
| FixedDepthFormat.Counts12Bins | src/main/java/edu/columbia/rdf/edb/ngs/ReadCountsFile32Bit.java:245-305 | both 12-bit decoders succeed on a file holding bins s..e and return each bin's value |
| FixedDepthFormat.Counts12Pack | src/main/java/edu/columbia/rdf/edb/ngs/ReadCountsFile32Bit.java:245-305 | round trip for 12-bit values with the corrected decoder |
| FixedDepthFormat.Counts12AsWrittenPack | src/main/java/edu/columbia/rdf/edb/ngs/ReadCountsFile32Bit.java:245-305 | as written, every even bin from 0x800 up is returned negative and all others are intact |
| FixedDepthFormat.SignExtended12 | src/main/java/edu/columbia/rdf/edb/ngs/ReadCountsFile32Bit.java:275 | a first bin of 0x800 decodes as -0x800 as written and as 0x800 corrected |
| FixedDepthFormat.Counts16Pack | src/main/java/edu/columbia/rdf/edb/ngs/ReadCountsFile32Bit.java:317-339 | round trip for signed 16-bit values |
| FixedDepthFormat.Bin20Pack | src/main/java/edu/columbia/rdf/edb/ngs/ReadCountsFile32Bit.java:351-372 | bin k of a 20-bit layout lies at byte k*5/2, and the corrected decoder reads its value back |
| FixedDepthFormat.Counts20Of | src/main/java/edu/columbia/rdf/edb/ngs/ReadCountsFile32Bit.java:341-384 | the corrected 20-bit decoder returns bins s..e of any file whose bins hold given values |
| FixedDepthFormat.Counts20Pack | src/main/java/edu/columbia/rdf/edb/ngs/ReadCountsFile32Bit.java:341-384 | round trip for 20-bit values with the corrected decoder |
| FixedDepthFormat.Drift20 | src/main/java/edu/columbia/rdf/edb/ngs/ReadCountsFile32Bit.java:373-378 | bins 0, 0, 1 decode as 0, 0, 0 as written (the third bin is read from the wrong bytes) and as 0, 0, 1 corrected |
| FixedDepthFormat.SignExtended20 | src/main/java/edu/columbia/rdf/edb/ngs/ReadCountsFile32Bit.java:369 | a first bin of 0x80000 decodes as -0x80000 as written and as 0x80000 corrected |
| FixedDepthFormat.Counts24Pack | src/main/java/edu/columbia/rdf/edb/ngs/ReadCountsFile32Bit.java:386-406 | round trip for 24-bit unsigned values |
| FixedDepthFormat.Counts32Pack | src/main/java/edu/columbia/rdf/edb/ngs/ReadCountsFile32Bit.java:408-428 | round trip for 32-bit signed values |
| ByteOrder.Int16At | src/main/java/edu/columbia/rdf/edb/ngs/ReadCountsFileBC.java:161 | `readShort` (assumed big-endian): a signed short whose low byte is the second byte |
| ByteOrder.UInt24At | src/main/java/edu/columbia/rdf/edb/ngs/ReadCountsFile32Bit.java:402 | `readInt24` (assumed big-endian, unsigned): 0..2^24-1 with the third byte as its low byte |
| ByteOrder.Int32At | src/main/java/edu/columbia/rdf/edb/ngs/ReadCountsFile32Bit.java:424 | `getInt`/`readInt` (big-endian): a Java int, negative exactly when the first byte is from 0x80 up |
| Files.Lookup | src/main/java/edu/columbia/rdf/edb/ngs/ReadCountsFile32Bit.java:100 | a file is found exactly when the directory has it, and its contents are that entry's |
| Files.Fetch | src/main/java/edu/columbia/rdf/edb/ngs/ReadCountsFile32Bit.java:204 | `getBytes(a, b)` (assumed): it succeeds exactly when a..b lies in the file, and then returns exactly those bytes |
| Files.ReadAt | src/main/java/edu/columbia/rdf/edb/ngs/ReadCountsFileBC.java:140-144 | seek then read: it fails exactly at a negative position, and otherwise returns the file's bytes, with zeros past its end |
| Text.DecimalString | src/main/java/edu/columbia/rdf/edb/ngs/ReadCountsFile32Bit.java:98 | Java's decimal rendering is nonempty and starts with '-' exactly for a negative number |
| MultiResolutionReader.PowerMapIsDecimalLog | src/main/java/edu/columbia/rdf/edb/ngs/ReadCountsFileBC.java:62-75 | the keys of `POWER_MAP` are exactly 10^2 .. 10^9, each mapped to its exponent |
| MultiResolutionReader.PowerMapAtLeastMin | src/main/java/edu/columbia/rdf/edb/ngs/ReadCountsFileBC.java:61-75 | no key of `POWER_MAP` is below `MIN_BIN_WIDTH` |
| MultiResolutionReader.Power | src/main/java/edu/columbia/rdf/edb/ngs/ReadCountsFileBC.java:193 | unboxing succeeds exactly for a key; that key is at least 100 and is 10 to the power it maps to; any other window fails |
| MultiResolutionReader.FirstMatch | src/main/java/edu/columbia/rdf/edb/ngs/ReadCountsFileBC.java:234-247 | a name found is in the directory |
| MultiResolutionReader.FirstMatchFirst | src/main/java/edu/columbia/rdf/edb/ngs/ReadCountsFileBC.java:234-247 | nothing is found exactly when no name matches; entry i is found exactly when it matches and no earlier entry does |
| MultiResolutionReader.FindFile | src/main/java/edu/columbia/rdf/edb/ngs/ReadCountsFileBC.java:238-246 | the listing scan stops at the first match |
| MultiResolutionReader.BinCount | src/main/java/edu/columbia/rdf/edb/ngs/ReadCountsFileBC.java:127-129 | n is at least 1 and at least eb - sb |
| MultiResolutionReader.Scaled | src/main/java/edu/columbia/rdf/edb/ngs/ReadCountsFileBC.java:135-138 | offsets and lengths are scaled by the value width only when it is above one |
| MultiResolutionReader.BinSizeOf | src/main/java/edu/columbia/rdf/edb/ngs/ReadCountsFileBC.java:333-337 | the byte at offset 4, or -1 (end of file) exactly when the file is too short |
| MultiResolutionReader.Bins | src/main/java/edu/columbia/rdf/edb/ngs/ReadCountsFileBC.java:121-178 | succeeds exactly when the seek position is not negative; then returns n values, shorts in their range and single bytes unsigned |
| MultiResolutionReader.ReadInts | src/main/java/edu/columbia/rdf/edb/ngs/ReadCountsFileBC.java:152-157 | the `readInt` loop yields the n big-endian ints in order |
| MultiResolutionReader.ReadShorts | src/main/java/edu/columbia/rdf/edb/ngs/ReadCountsFileBC.java:158-163 | the `readShort` loop yields the n big-endian shorts in order |
| MultiResolutionReader.ReadBytes | src/main/java/edu/columbia/rdf/edb/ngs/ReadCountsFileBC.java:164-169 | the `read` loop yields the first n bytes, unsigned |
| MultiResolutionReader.ReadBins | src/main/java/edu/columbia/rdf/edb/ngs/ReadCountsFileBC.java:121-178 | `_getCounts` computes exactly `Bins` |
| MultiResolutionReader.BinsRoundTrip4 | src/main/java/edu/columbia/rdf/edb/ngs/ReadCountsFileBC.java:121-178 | round trip: after a 13-byte header giving width 4, the bins sb .. sb+n-1 come back as stored |
| MultiResolutionReader.BinsRoundTrip2 | src/main/java/edu/columbia/rdf/edb/ngs/ReadCountsFileBC.java:121-178 | the same for width 2 |
| MultiResolutionReader.BinsRoundTrip1 | src/main/java/edu/columbia/rdf/edb/ngs/ReadCountsFileBC.java:121-178 | the same for width 1 |
| MultiResolutionReader.StartBin | src/main/java/edu/columbia/rdf/edb/ngs/ReadCountsFileBC.java:127 | for a start from 0 up, sb is Java's quotient, not negative, and the window containing start |
| MultiResolutionReader.Factor | src/main/java/edu/columbia/rdf/edb/ngs/ReadCountsFileBC.java:215 | the upsampling factor 100 / window is at least 1 |
| MultiResolutionReader.Upsample | src/main/java/edu/columbia/rdf/edb/ngs/ReadCountsFileBC.java:204-227 | output k repeats decoded value k / f, and the length is unchanged |
| MultiResolutionReader.StoredReadCount | src/main/java/edu/columbia/rdf/edb/ngs/ReadCountsFileBC.java:313-327 | the stored total is read exactly when the file exists and holds 4 bytes; otherwise the read fails |
| MultiResolutionReader.DirectoryCounts | src/main/java/edu/columbia/rdf/edb/ngs/ReadCountsFileBC.java:190-230 | an unknown window fails; no matching file fails; a success has n values |
| MultiResolutionReader.ReadCountsFileBC.constructor | src/main/java/edu/columbia/rdf/edb/ngs/ReadCountsFileBC.java:77-100 | mode `count`; empty path cache, no handle, power and read count -1 |
| MultiResolutionReader.ReadCountsFileBC.WithMode | src/main/java/edu/columbia/rdf/edb/ngs/ReadCountsFileBC.java:102-105 | the mode, given as its name already in lower case, and the same initial state |
| MultiResolutionReader.ReadCountsFileBC.FindPath | src/main/java/edu/columbia/rdf/edb/ngs/ReadCountsFileBC.java:234-247 | the directory is scanned only for a new (chr, power): the path map becomes RememberPath of the old one, so a path is cached exactly when a file matches |
| MultiResolutionReader.ReadCountsFileBC.Open | src/main/java/edu/columbia/rdf/edb/ngs/ReadCountsFileBC.java:254-257 | a fresh handle on the cached path becomes current, tagged with (chr, power) |
| MultiResolutionReader.ReadCountsFileBC.GetFileAsWritten | src/main/java/edu/columbia/rdf/edb/ngs/ReadCountsFileBC.java:232-258 | as written: the current handle is reused for the same (chr, power); otherwise a new one is opened and the old one stays open |
| MultiResolutionReader.ReadCountsFileBC.GetFile | src/main/java/edu/columbia/rdf/edb/ngs/ReadCountsFileBC.java:232-258 | corrected: the replaced handle is closed first, so the reader never holds more than one open handle |
| MultiResolutionReader.ReadCountsFileBC.Contents | src/main/java/edu/columbia/rdf/edb/ngs/ReadCountsFileBC.java:140-144 | reading through a handle succeeds exactly while it is open |
| MultiResolutionReader.ReadCountsFileBC.ReadThrough | src/main/java/edu/columbia/rdf/edb/ngs/ReadCountsFileBC.java:199-201 | reading through the current handle gives the directory's counts while the handle is open, and an I/O failure once it is closed |
| MultiResolutionReader.ReadCountsFileBC.GetCountsAsWritten | src/main/java/edu/columbia/rdf/edb/ngs/ReadCountsFileBC.java:190-258 | as written: an unknown window fails and changes nothing; otherwise the result is the directory's counts, or a failure when the cached handle has been closed; the path map becomes RememberPath of the old one; the handle of the same (chr, power) is reused, and a new (chr, power) with a matching file gets a fresh current handle that joins the open ones, leaving the replaced one open |
| MultiResolutionReader.ReadCountsFileBC.GetCounts | src/main/java/edu/columbia/rdf/edb/ngs/ReadCountsFileBC.java:190-258 | with the replaced handle closed: the same result and path map as GetCountsAsWritten; a fresh current handle joins the open handles less the replaced one, so a reader holding one open handle keeps holding at most one |
| MultiResolutionReader.ReadCountsFileBC.GetRegionCounts | src/main/java/edu/columbia/rdf/edb/ngs/ReadCountsFileBC.java:114-119 | `getCounts(region, window)` gives what GetCounts gives for the region's chromosome, start and end: the same result, path map and handle state: the handle is kept when it is already tagged with (chr, power) or no file matches; otherwise a fresh handle becomes current and joins the open handles less the replaced one |
| MultiResolutionReader.ReadCountsFileBC.GetReadCount | src/main/java/edu/columbia/rdf/edb/ngs/ReadCountsFileBC.java:313-327 | a cached total of 1 or more is returned as it is; otherwise the stored total is read and cached |
| MultiResolutionReader.ReadCountsFileBC.Close | src/main/java/edu/columbia/rdf/edb/ngs/ReadCountsFileBC.java:297-305 | only the current handle is closed; nothing else changes |
| MultiResolutionReader.HandleLeak | src/main/java/edu/columbia/rdf/edb/ngs/ReadCountsFileBC.java:249-257 | as written, two requests for different chromosomes leave two handles open |
| MultiResolutionReader.HandleReplaced | src/main/java/edu/columbia/rdf/edb/ngs/ReadCountsFileBC.java:249-257 | corrected, the same two requests leave one handle open |
| WindowBinning.InBin | src/main/java/edu/columbia/rdf/edb/ngs/ReadCountsFile.java:46-57 | for a positive window and a position from 0 up, result bin k covers positions (startBin+k)*window up to (startBin+k+1)*window |
| WindowBinning.Count | src/main/java/edu/columbia/rdf/edb/ngs/ReadCountsFile.java:54-60 | a bin never counts more positions than there are |
| WindowBinning.CountArray | src/main/java/edu/columbia/rdf/edb/ngs/ReadCountsFile.java:52-60 | the map has only bins 0..l-1 as keys, and each bin's entry is the number of positions in it |
| WindowBinning.CopyEntries | src/main/java/edu/columbia/rdf/edb/ngs/ReadCountsFile.java:64-68 | whatever the entry order, the array holds each bin's map entry, and 0 for a bin without one |
| WindowBinning.BinCountsArray | src/main/java/edu/columbia/rdf/edb/ngs/ReadCountsFile.java:42-71 | the array overload computes `BinCounts`: a zero window fails, an end bin more than one below the start bin fails, otherwise one count per bin |
| WindowBinning.CountCollection | src/main/java/edu/columbia/rdf/edb/ngs/ReadCountsFile.java:83-91 | in whatever order the collection yields its values, each bin's entry counts the positions in it |
| WindowBinning.BinCountsCollection | src/main/java/edu/columbia/rdf/edb/ngs/ReadCountsFile.java:73-102 | the collection overload computes `BinCounts` of the collection's values |
| WindowBinning.Listing | src/main/java/edu/columbia/rdf/edb/ngs/ReadCountsFile.java:85 | an iteration order of a collection visits each of its values once |
| WindowBinning.CountAppend | src/main/java/edu/columbia/rdf/edb/ngs/ReadCountsFile.java:54-60 | counting is additive over concatenation |
| WindowBinning.CountDropOne | src/main/java/edu/columbia/rdf/edb/ngs/ReadCountsFile.java:54-60 | removing one position lowers only its own bin's count, by one |
| WindowBinning.CountPermutation | src/main/java/edu/columbia/rdf/edb/ngs/ReadCountsFile.java:54-60 | a bin's count does not depend on the order of the positions |
| WindowBinning.CountZero | src/main/java/edu/columbia/rdf/edb/ngs/ReadCountsFile.java:57-68 | a bin's count is zero exactly when no position falls in it |
| WindowBinning.CountIsCardinality | src/main/java/edu/columbia/rdf/edb/ngs/ReadCountsFile.java:54-60 | a bin's count is the number of indices whose position falls in it |
| WindowBinning.SumCounts | src/main/java/edu/columbia/rdf/edb/ngs/ReadCountsFile.java:54-68 | the counts of bins 0..l-1 add up to the number of positions inside those bins |
| WindowBinning.InRangeStep | src/main/java/edu/columbia/rdf/edb/ngs/ReadCountsFile.java:57 | widening the range by bin l adds bin l's count |
| WindowBinning.InRangeAtMostAll | src/main/java/edu/columbia/rdf/edb/ngs/ReadCountsFile.java:57 | no more positions are inside the range than there are positions |
| WindowBinning.BinCountsMeaning | src/main/java/edu/columbia/rdf/edb/ngs/ReadCountsFile.java:42-71 | for a valid range: one count per bin of the region, each the number of positions in that bin; together they are the positions inside the region, at most all of them; positions outside are dropped |
| WindowBinning.BinCountsPermutation | src/main/java/edu/columbia/rdf/edb/ngs/ReadCountsFile.java:42-102 | the result does not depend on the order of the positions |
| WindowBinning.OverloadsAgree | src/main/java/edu/columbia/rdf/edb/ngs/ReadCountsFile.java:42-102 | the array and the collection overloads agree on the same values |
| CountAssembly.Starts | src/main/java/edu/columbia/rdf/edb/ngs/CountAssembly.java:65-68 | `getStarts(region, window)` is empty by default, and neither reader overrides it |
| CountAssembly.Strands | src/main/java/edu/columbia/rdf/edb/ngs/CountAssembly.java:91-94 | `getStrands(region, window)` is empty |
| CountAssembly.Values | src/main/java/edu/columbia/rdf/edb/ngs/CountAssembly.java:175-178 | `getValues(region, window)` is empty |
| CountAssembly.UnitValues | src/main/java/edu/columbia/rdf/edb/ngs/CountAssembly.java:163-165 | `getValues(region)` equals `getValues(region, 1)`, so it is empty |
| CountAssembly.ReadLength | src/main/java/edu/columbia/rdf/edb/ngs/CountAssembly.java:192-194 | `getReadLength()` is -1 |
| CountAssembly.GenomeOf | src/main/java/edu/columbia/rdf/edb/ngs/CountAssembly.java:212-214 | `getGenome()` is null |
| CountAssembly.Counts | src/main/java/edu/columbia/rdf/edb/ngs/CountAssembly.java:140-141 | `getCounts(region, window)` dispatches to the reader's own: the fixed-depth reader gives RegionCounts of its directory; the multi-resolution reader fails on an unknown window, and otherwise gives the directory's counts, or an I/O failure when the cached handle has been closed; its path map and handle state change as GetRegionCounts says, and an unknown window changes neither |
| CountAssembly.UnitCounts | src/main/java/edu/columbia/rdf/edb/ngs/CountAssembly.java:128-130 | `getCounts(region)` is `getCounts(region, 1)`: the fixed-depth reader's window-1 counts; on the multi-resolution reader it always fails, since 1 is no key of `POWER_MAP`, and leaves the handles and path map unchanged |
| CountAssembly.CountsTwice | src/main/java/edu/columbia/rdf/edb/ngs/ReadCountsFileBC.java:249-251 | asking a multi-resolution source twice for the same region at a known window gives the directory's counts both times, the second time through the handle the first one left current, unless that handle had already been closed |
| CountAssembly.ReadCount | src/main/java/edu/columbia/rdf/edb/ngs/CountAssembly.java:202-204 | `getReadCount` is -1 by default and leaves the fixed-depth reader unchanged; on the multi-resolution reader it is the cached total once that is at least 1, and otherwise the stored total, which becomes the cached one when it is read; the handles and the path map are unchanged |
| CountAssembly.Close | src/main/java/edu/columbia/rdf/edb/ngs/CountAssembly.java:183-185 | `close()` does nothing by default (fixed-depth reader); the multi-resolution reader closes its current handle, and its current handle, tag, power, path map and cached total are unchanged |

## Left out

- File system I/O is modelled on values: `FileUtils.exists` and `FileUtils.ls`, random access, and the data streams. A directory is a listing of named byte sequences, fixed for the life of a reader. I/O exceptions become `Err(IOError)`.
- `FileSequenceReader`, `ByteStream` and `ByteBuffer` are not part of this model. Their behaviour is assumed as stated above. The short read that `RandomAccessFile.read` can return is ignored, just as the code ignores it.
- FixedDepthReader.ReadCountsFile32Bit.GetCounts and CountAssembly.Counts require `start >= 1` and `window >= 1`. When a file for that window exists, a zero window would raise a division by zero, and a start below 1 would make Java's truncating quotient differ from the floor. Those inputs are not modelled for this reader.
- The `(Genome, String)` and `(Genome, String, int)` overloads of `CountAssembly` are not modelled. They go through `GenomicRegion.parse`, which is not part of this model.
- `ReadCountsFileBC.getBinCount` is not modelled: it is private and never called. The `System.err` debug prints are not modelled either.
- The domain classes of the repository (samples, experiments, people, groups, species, GEO records, tags) are not part of this model, and neither are the login and TOTP-key parameter classes.
- Java `int` overflow is not modelled in the length and offset arithmetic (`e * 3 / 2`, `s * 5 / 2`, `sa * binSize`) or in the `binCounts` map counts. Values decoded from bytes are exact, since each fits its width.
- The header fields of a multi-resolution file, other than the value width at byte 4, are not read by the source, so they are not checked: the magic number, the bin width and the number of bins.
- WindowBinning.BinCountsCollection: a `Collection<Integer>` is modelled as a multiset. Its iteration order is left unspecified. The map's entry order is left unspecified too.
- MultiResolutionReader.FirstMatch: its own contract states only that a name found is in the directory. That the name matches, and is the first one that does, is stated by FirstMatchFirst.
- MultiResolutionReader.ReadCountsFileBC.GetCounts: the upsampling branch for a window below 100 cannot be reached, because unboxing fails for every window that is not a key of `POWER_MAP`, and every key is at least 100 (PowerMapAtLeastMin). It is modelled separately as MultiResolutionReader.Upsample.
- FixedDepthReader.CountsAt, FixedDepthReader.Decode, FixedDepthReader.RegionCounts and FixedDepthReader.ReadCountsFile32Bit.GetCounts compose the corrected 4-, 12- and 20-bit decoders, so on those depths they do not give what the program gives. The program's own values are those of CountsAtAsWritten, DecodeAsWritten, RegionCountsAsWritten and ReadCountsFile32Bit.GetCountsAsWritten.
- MultiResolutionReader.ReadCountsFileBC.GetCounts and MultiResolutionReader.ReadCountsFileBC.GetRegionCounts go through the corrected GetFile, which closes the replaced handle. Their guarantee that a reader with one open handle keeps at most one is not the program's. The program's handle state is that of ReadCountsFileBC.GetCountsAsWritten, under which the open handles only grow.
- CountAssembly.Counts and CountAssembly.UnitCounts dispatch to the readers' corrected `GetCounts` and `GetRegionCounts`. They inherit the corrected decoders and handle replacement described in the two lines above.
- Java's `close()` exceptions, caught and printed by `ReadCountsFileBC.close`, are not modelled.

## Findings

| source | as written | input that shows it | evidently intended | confidence | as-written member | corrected member |
|---|---|---|---|---|---|---|
| src/main/java/edu/columbia/rdf/edb/ngs/ReadCountsFile32Bit.java:208-220 | `even` is never flipped, so the cursor never moves and every value is the high nibble of the first byte | bins 0..1 holding 1, 2 decode as 1, 1 | seed `even` from the parity of the first bin, `s % 2 == 0`, instead of `true`, and flip it after each value, as the 12- and 20-bit loops do | high, not executed | FixedDepthFormat.Counts4AsWrittenPack | FixedDepthFormat.Counts4Pack |
| src/main/java/edu/columbia/rdf/edb/ngs/ReadCountsFile32Bit.java:275 | `buf[p] << 4` sign-extends the byte, so an even bin from 0x800 up comes back negative | a first bin of 0x800 decodes as -0x800 | mask the byte, `(buf[p] & 0xFF) << 4`, as the odd path does | high, not executed | FixedDepthFormat.SignExtended12 | FixedDepthFormat.Counts12Pack |
| src/main/java/edu/columbia/rdf/edb/ngs/ReadCountsFile32Bit.java:373-378 | the 20-bit cursor moves on 1 and 2 bytes (the 12-bit stride), so from the third bin on values are read from the wrong bytes | bins 0, 0, 1 decode as 0, 0, 0 | move on 2 bytes after an even bin and 3 after an odd one (5 per pair) | high, not executed | FixedDepthFormat.Drift20 | FixedDepthFormat.Counts20Pack |
| src/main/java/edu/columbia/rdf/edb/ngs/ReadCountsFile32Bit.java:369 | `buf[p] << 12` and `buf[p + 1] << 4` sign-extend, so a large even bin comes back negative | a first bin of 0x80000 decodes as -0x80000 | mask each byte to 8 bits | high, not executed | FixedDepthFormat.SignExtended20 | FixedDepthFormat.Bin20Pack |
| src/main/java/edu/columbia/rdf/edb/ngs/ReadCountsFileBC.java:254 | a new handle replaces `mFile` without closing the old one, and `close` closes only the last | asking for chr1 and then chr2 at power 2 leaves two handles open | close the replaced handle | medium, not executed | MultiResolutionReader.HandleLeak | MultiResolutionReader.HandleReplaced |
