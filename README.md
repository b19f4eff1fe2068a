# save_monger decoder, modelled in Dafny

save_monger reads the save files of a circuit-simulation game. A file is one
version byte followed by a Snappy-compressed payload. The payload holds a
header, a list of components and a list of wires. `src/lib.rs` decodes the
payload in one forward pass. A cursor (`&mut &[u8]`) is threaded through the
`extract_new` implementations, and every read re-slices it past the bytes it
consumed. Each structure is read field by field in declaration order:

- little-endian fixed-width integers, booleans and points;
- tag enums looked up in closed tables;
- length-prefixed vectors and UTF-8 strings;
- the header record;
- components, whose trailing fields depend on their kind;
- wires, whose path is a start point followed by direction/run-length segment
  bytes, or a teleport to one absolute point.

The model has two layers.

- **Pure decoders.** Each one maps the unread bytes to `Ok(Decoded(value, rest))`
  or `Err(error)`. Every panic of the original (a slice past the end, an unknown
  tag, ill-formed UTF-8, i16 overflow on a path step, an empty file, a wrong
  version, a failed decompression) becomes an `Error` value.
  - Each decoder has a reference encoder. A round-trip lemma says that decoding
    an encoding, followed by any bytes `t`, gives back the value and leaves `t`.
  - Each decoder, including the signed reads through `SIntExtends`, has an
    extension lemma: appending bytes to a successful input changes neither the
    value nor what was consumed.
  - The wire-path decoder also has a reference over the list of segments.
    `Corners` computes the corners with unbounded integers. `Trace` follows
    the segments in i16, fails on overflow, and otherwise equals `Corners`
    pointwise.
- **Imperative cursor.** `Cursors.Cursor` holds the unread slice as a field.
  - The primitive readers re-slice it in place.
  - The counted vector loop and the wire-path `while` loop are methods with loop
    invariants.
  - Each method is proved to leave the cursor, and to return the value, exactly
    as the pure decoder describes.

Modules:

- `Bytes`: integer ranges, errors, results.
- `Primitives`: integers, bool, Point.
- `Tags`: SyncState, ComponentType, WireKind.
- `Sequences`: vectors, pairs, UTF-8, strings.
- `Records`: Header, ComponentData, CustomData, Component.
- `WirePaths`: the path format.
- `Cursors`: the cursor class.
- `Circuits`: Wire, Circuit and the two entry points.

## Model

| member | source | states |
|---|---|---|
| Primitives.ParseUInt | src/lib.rs:494-504 | An unsigned read of width w succeeds iff at least w bytes remain. It fails with OutOfData otherwise. The value is below 256^w and the rest is the input minus its first w bytes. |
| Primitives.UIntReadsEncoding | src/lib.rs:494-504 | A successful unsigned read returns the little-endian value of exactly the first w bytes. Re-encoding that value gives those bytes back. |
| Primitives.UIntRoundTrip | src/lib.rs:494-504 | Reading w bytes back from the w-byte little-endian encoding of any v < 256^w gives v and leaves the following bytes untouched. |
| Primitives.DecodeEncodeLE | src/lib.rs:498 | `from_le_bytes` inverts the little-endian encoding of every value that fits the width. |
| Primitives.EncodeDecodeLE | src/lib.rs:498 | The little-endian encoding inverts `from_le_bytes` on every byte string. |
| Primitives.ParseSInt | src/lib.rs:494-504 | A signed read of width w succeeds iff w bytes remain. Its value lies in the two's-complement range of w bytes, and it consumes exactly w bytes. |
| Primitives.ToSigned | src/lib.rs:498 | `from_le_bytes` for a signed type: a value below 256^w becomes a value in the two's-complement range of w bytes, and re-encoding it gives the unsigned value back. |
| Primitives.SIntRoundTrip | src/lib.rs:494-504 | Every value in the two's-complement range of w bytes reads back from its w-byte encoding. |
| Primitives.ParseU8 | src/lib.rs:512 | `u8` is the first byte, it consumes one byte, and it fails on an empty input. |
| Primitives.ParseU16 | src/lib.rs:511 | `u16` succeeds iff two bytes remain. It is byte 0 plus 256 times byte 1, and it consumes two bytes. |
| Primitives.ParseU32 | src/lib.rs:510 | `u32` succeeds iff four bytes remain, and it consumes exactly four. |
| Primitives.ParseU64 | src/lib.rs:509 | `u64` succeeds iff eight bytes remain, and it consumes exactly eight. |
| Primitives.ParseI16 | src/lib.rs:507 | `i16` succeeds iff two bytes remain, and it consumes exactly two. |
| Primitives.U8RoundTrip | src/lib.rs:512 | Every u8 reads back from its encoding. |
| Primitives.U16RoundTrip | src/lib.rs:511 | Every u16 reads back from its two little-endian bytes. |
| Primitives.U32RoundTrip | src/lib.rs:510 | Every u32 reads back from its four little-endian bytes. |
| Primitives.U64RoundTrip | src/lib.rs:509 | Every u64 reads back from its eight little-endian bytes. |
| Primitives.I16RoundTrip | src/lib.rs:507 | Every i16 reads back from its two's-complement encoding. |
| Primitives.ParseBool | src/lib.rs:486-492 | `bool` succeeds iff one byte remains. It is true iff that byte is non-zero, and it consumes one byte. |
| Primitives.BoolRoundTrip | src/lib.rs:486-492 | Both booleans read back from their one-byte encodings. |
| Primitives.ParsePoint | src/lib.rs:41-44 | A Point succeeds iff four bytes remain, and it consumes exactly four. |
| Primitives.PointRoundTrip | src/lib.rs:41-44 | Every Point (x then y, each an i16) reads back from its encoding. |
| Primitives.PointReadsEncoding | src/lib.rs:41-44 | A decoded Point is the encoding of exactly the four bytes it consumed. |
| Primitives.UIntExtends | src/lib.rs:494-504 | Bytes appended after a successful unsigned read change neither its value nor what it consumes. |
| Primitives.SIntExtends | src/lib.rs:494-504 | Bytes appended after a successful signed read change neither its value nor what it consumes. |
| Primitives.U8Extends | src/lib.rs:512 | Appended bytes do not change a successful u8 read. |
| Primitives.U16Extends | src/lib.rs:511 | Appended bytes do not change a successful u16 read. |
| Primitives.U32Extends | src/lib.rs:510 | Appended bytes do not change a successful u32 read. |
| Primitives.U64Extends | src/lib.rs:509 | Appended bytes do not change a successful u64 read. |
| Primitives.I16Extends | src/lib.rs:507 | Appended bytes do not change a successful i16 read. |
| Primitives.BoolExtends | src/lib.rs:486-492 | Appended bytes do not change a successful bool read. |
| Primitives.PointExtends | src/lib.rs:41-44 | Appended bytes do not change a successful Point read. |
| Tags.SyncStateFrom | src/lib.rs:54-61 | A value converts to a SyncState iff it is 0, 1 or 2, and the state's tag is that value. Any other value fails with UnknownTag carrying the value; it never falls back to a default. |
| Tags.ParseSyncState | src/lib.rs:62-74 | SyncState reads one byte. It fails with OutOfData on an empty input and with UnknownTag iff the byte is above 2. Otherwise the state's tag is the byte and one byte is consumed. |
| Tags.SyncStateRoundTrip | src/lib.rs:70-74 | Every SyncState reads back from its tag byte. |
| Tags.ComponentTypeFrom | src/lib.rs:54-61 | A value converts to a ComponentType iff it is below 248. The "Deleted" placeholders are included. Any other value fails with UnknownTag. |
| Tags.ParseComponentType | src/lib.rs:62-67 | ComponentType reads a little-endian u16. It fails with OutOfData below two bytes. It succeeds iff the u16 is below 248, fails with UnknownTag otherwise, and consumes two bytes. |
| Tags.ComponentTypeRoundTrip | src/lib.rs:76-354 | Every kind reads back from its two-byte tag. |
| Tags.DeletedKindsAreTags | src/lib.rs:96-168 | Every "Deleted" placeholder tag is accepted as a kind. |
| Tags.WireKindFrom | src/lib.rs:54-61 | A value converts to a WireKind iff it is 0..4. Any other value fails with UnknownTag. |
| Tags.ParseWireKind | src/lib.rs:425-431 | WireKind reads one byte. It succeeds iff the byte is at most 4, fails with UnknownTag above that, and consumes one byte. |
| Tags.WireKindRoundTrip | src/lib.rs:425-431 | Every WireKind reads back from its tag byte. |
| Tags.SyncStateExtends | src/lib.rs:62-67 | Appended bytes do not change a successful SyncState read. |
| Tags.ComponentTypeExtends | src/lib.rs:62-67 | Appended bytes do not change a successful ComponentType read. |
| Tags.WireKindExtends | src/lib.rs:62-67 | Appended bytes do not change a successful WireKind read. |
| Sequences.ParseN | src/lib.rs:521-523 | Reading n elements, when it succeeds, yields exactly n elements. |
| Sequences.ParseNChain | src/lib.rs:521-523 | A successful read of n elements passes through n+1 cursor positions. Element i is what the element decoder reads at position i, and that read leaves position i+1. |
| Sequences.ChainParseN | src/lib.rs:521-523 | Conversely, any chain of element reads is what reading that many elements returns. |
| Sequences.ParseVec | src/lib.rs:518-525 | A vector fails with OutOfData when the count does not fit. On success its length is the little-endian count. A count of 0 gives the empty vector. Otherwise it is the count-many element reads after the prefix. |
| Sequences.ParseNRepresents | src/lib.rs:521-523 | Concatenated element encodings read back as the list of their meanings, in order: element i of the decoded list is the meaning of stored element i. |
| Sequences.VecRepresents | src/lib.rs:514-526 | A count prefix followed by the element encodings reads back as the list of meanings and consumes exactly those bytes. |
| Sequences.VecRoundTrip | src/lib.rs:514-536 | Every vector whose length fits the count width reads back from its encoding. |
| Sequences.PairRoundTrip | src/lib.rs:390-394 | `ParsePair` reads its first component and then its second: a pair reads back from the two encodings concatenated, leaving what follows. |
| Sequences.ParseBytes | src/lib.rs:521-523 | Reading n u8 elements returns the next n bytes unchanged. It fails with OutOfData iff fewer than n remain. |
| Sequences.ParseShortVec | src/lib.rs:535 | `ShortVec` fails with OutOfData below two bytes. On success its length is the little-endian u16 count, so below 65536. |
| Sequences.ParseLongVec | src/lib.rs:536 | `LongVec` fails with OutOfData below eight bytes. On success its length is the little-endian u64 count, so below 2^64. |
| Sequences.ByteVec | src/lib.rs:535 | `ShortVec<u8>` consumes a two-byte count n and then exactly n raw bytes. It fails iff either does not fit. |
| Sequences.Utf8CharLength | src/lib.rs:482 | The first character of a byte string spans at most four bytes, and never more than the string. |
| Sequences.Utf8Refusals | src/lib.rs:482 | Overlong forms, surrogates, code points above U+10FFFF and stray continuation bytes are refused. |
| Sequences.ParseString | src/lib.rs:480-484 | A string consumes 2 + n bytes for a length prefix n. It fails with OutOfData when they are missing. It fails with InvalidUtf8 iff those n bytes are ill-formed, and otherwise returns exactly them. |
| Sequences.StringRoundTrip | src/lib.rs:480-484 | Every valid UTF-8 string shorter than 65536 bytes reads back from its prefixed encoding. |
| Sequences.ParseNExtends | src/lib.rs:521-523 | If elements ignore appended bytes, so does reading n of them. |
| Sequences.VecExtends | src/lib.rs:518-525 | If elements ignore appended bytes, so does a counted vector. |
| Sequences.PairExtends | src/lib.rs:390-394 | If both components ignore appended bytes, so does a pair. |
| Sequences.U8DecoderExtends | src/lib.rs:512 | The u8 decoder ignores appended bytes on every input. |
| Sequences.StringExtends | src/lib.rs:480-484 | Appended bytes do not change a successful string read. |
| Records.HeaderRoundTrip | src/lib.rs:357-372 | `ParseHeader` reads the 14 fields in declaration order. Every header whose vectors and strings fit their u16 prefixes reads back from its encoding, leaving what follows. |
| Records.HeaderExtends | src/lib.rs:357-372 | Appended bytes do not change a successful header read. |
| Records.ComponentDataRoundTrip | src/lib.rs:374-383 | `ParseComponentData` reads the eight common fields in declaration order: every ComponentData reads back from its encoding, leaving what follows. |
| Records.ComponentDataExtends | src/lib.rs:374-383 | Appended bytes do not change a successful ComponentData read. |
| Records.ParseCustomData | src/lib.rs:385-388 | CustomData, a u64 then a Point, succeeds iff 12 bytes remain and consumes exactly 12. |
| Records.CustomDataRoundTrip | src/lib.rs:385-388 | Every CustomData reads back from its 12-byte encoding. |
| Records.CustomDataExtends | src/lib.rs:385-388 | Appended bytes do not change a successful CustomData read. |
| Records.ProgramSlotRoundTrip | src/lib.rs:412 | `ParseProgramSlot`, the `(u64, String)` element of the program vector, reads a u64 key and then a string: a slot reads back from the two encodings concatenated. |
| Records.PairsToMap | src/lib.rs:415 | The map collected from the slots has as its keys exactly the slots' keys. |
| Records.PairsToMapLastWins | src/lib.rs:415 | For a duplicated key, the map holds the value of the last slot with that key, as collecting into a HashMap overwrites. |
| Records.ParseComponent | src/lib.rs:403-423 | A component fails when its common fields fail, with their error. On success its common fields are the ones decoded. It is Custom iff the kind is Custom (92), and Program iff the kind is Program8_1, Program8_4 or Program (64, 68, 94). |
| Records.ComponentLayout | src/lib.rs:405-420 | After the common fields, Custom consumes exactly 12 more bytes or fails with OutOfData. The program kinds consume a u16-counted slot vector and collect it into a map, or fail with its error. Every other kind is Normal and consumes nothing more. |
| Records.SlotRepresents | src/lib.rs:390-394 | Every slot whose text fits a u16 prefix reads back from its encoding. |
| Records.SlotsRoundTrip | src/lib.rs:412 | A list of fewer than 65536 slots reads back, in order, from its u16-counted encoding. |
| Records.CommonReadsBack | src/lib.rs:405 | The common fields of a stored component read back whatever trailing bytes follow them. |
| Records.ComponentRoundTrip | src/lib.rs:403-423 | Every stored component reads back as the component it represents: Normal as Normal, Custom with its custom data, Program with the map of its slots. |
| Records.ComponentRepresents | src/lib.rs:403-423 | The component decoder inverts the component encoding for every stored component. |
| Records.ComponentExtends | src/lib.rs:403-423 | Appended bytes do not change a successful component read, in any of the three variants. |
| Records.ComponentDecoderExtends | src/lib.rs:403-423 | The component decoder ignores appended bytes on every input. |
| WirePaths.DirectionIndex | src/lib.rs:456 | The top three bits of a segment byte always index one of the eight directions. |
| WirePaths.RunLength | src/lib.rs:457 | The low five bits of a segment byte are a run length of at most 31. |
| WirePaths.SegmentFields | src/lib.rs:437-457 | A direction below 8 and a length below 32 pack into a byte whose fields give them back. The byte is 0 (the terminator) iff both are 0. It is the teleport marker 0x20 iff it is direction 1 with length 0. |
| WirePaths.OffsetIsStraightRun | src/lib.rs:438-458 | Every step runs along a row, a column or a diagonal. Its longer coordinate change equals the run length and neither exceeds it. |
| WirePaths.Offset | src/lib.rs:456-458 | A segment's offset is its direction times its run length, so each coordinate stays within -31..31 and the i16 multiplication cannot overflow. |
| WirePaths.Step | src/lib.rs:456-459 | A step from p succeeds iff both new coordinates stay in i16; it fails with CoordinateOverflow otherwise. The new point differs from p by exactly the segment's offset. |
| WirePaths.Corners | src/lib.rs:455-462 | The unbounded reference path has one corner per segment plus the start. |
| WirePaths.Trace | src/lib.rs:455-462 | Following segments succeeds iff every reference corner is within i16, and fails with CoordinateOverflow otherwise. On success the path starts at p, has one more point than there are segments, and equals the reference corners pointwise. |
| WirePaths.TraceFollowsSegments | src/lib.rs:455-462 | Consecutive points of a traced path differ by exactly the offset of the segment between them. |
| WirePaths.ParseWirePath | src/lib.rs:448-450 | A decoded path is never empty and starts at the decoded start point. |
| WirePaths.WalkTrace | src/lib.rs:455-462 | `Walk`, the loop over non-zero segments and the terminating 0 returns the traced path without its start, or the overflow, and stops right after the 0. |
| WirePaths.WalkReads | src/lib.rs:455-462 | A successful loop consumes one byte per point it appends plus the terminator. The last byte read is the 0, and every earlier one is non-zero. |
| WirePaths.TeleportRoundTrip | src/lib.rs:451-454 | A start point, the teleport marker and a target point decode to exactly [start, target]. The decoder consumes those 9 bytes and nothing more. |
| WirePaths.WirePathWalks | src/lib.rs:448-463 | Unless the first segment byte is the teleport marker, the path is the start point followed by what the loop returns. |
| WirePaths.WirePathAfterStart | src/lib.rs:448-463 | The same, for an encoded start point followed by any body. |
| WirePaths.SegmentsRoundTrip | src/lib.rs:448-463 | A start point, non-zero segments whose first is not the marker, and a 0 decode to the traced path, or fail with its overflow. |
| WirePaths.WalkFromSegments | src/lib.rs:455-462 | The start point followed by the loop's points is the traced path, and the loop leaves what follows the terminator. |
| WirePaths.WalkLayout | src/lib.rs:455-462 | A successful loop read a run of non-zero bytes and then a 0. Its points are the trace of that run. |
| WirePaths.SegmentsLayout | src/lib.rs:448-463 | A decoded non-teleport path consists of a run of non-zero segment bytes ended by a 0 byte and has one point more than the run has bytes. It is the trace of that run from the start point, and decoding resumes after the 0. |
| WirePaths.MarkerStepRepeats | src/lib.rs:456-460 | In any path that follows its segments, the point appended for a 0x20 byte equals the point before it. |
| WirePaths.LaterTeleportByteRepeats | src/lib.rs:451-462 | Only the first segment byte is compared with the marker. In every decoded non-teleport path, a later 0x20 segment byte at any position is a run of length 0: the point it appends repeats the one before it. |
| WirePaths.Example | src/lib.rs:438-462 | Start (0, 0), a run of 3 along (1, 0), a run of 2 along (1, 1), then the terminator, decode to the points (0, 0), (3, 0), (5, 2). |
| WirePaths.PathRoundTrip | src/lib.rs:435-465 | Every stored path, teleport or segment list, decodes to the path it represents. |
| WirePaths.WalkExtends | src/lib.rs:455-462 | Appended bytes do not change a successful segment loop. |
| WirePaths.WirePathExtends | src/lib.rs:435-465 | Appended bytes do not change a successful path read. |
| Cursors.Cursor.constructor | src/lib.rs:17-19 | A cursor starts at the whole buffer. |
| Cursors.Cursor.ReadUInt | src/lib.rs:494-504 | Reading an unsigned integer fails with OutOfData, leaving the cursor, iff fewer than w bytes remain. Otherwise it returns the little-endian value of the first w bytes and moves the cursor past exactly them, as ParseUInt says. |
| Cursors.Cursor.ReadSInt | src/lib.rs:494-504 | The same, for a two's-complement integer, as ParseSInt says. |
| Cursors.Cursor.ReadBool | src/lib.rs:486-492 | Reading a bool fails iff the cursor is empty. Otherwise it returns whether the byte is non-zero and moves the cursor one byte, as ParseBool says. |
| Cursors.Cursor.Extract | src/lib.rs:22-24 | `extract_new` returns what the decoder returns and leaves the cursor where the decoder stops. A failure leaves the cursor unchanged. |
| Cursors.Cursor.ExtractVec | src/lib.rs:514-526 | The counted push loop returns the vector that ParseVec describes, with the same error, and leaves the cursor after the last element. |
| Cursors.Cursor.ExtractWirePath | src/lib.rs:435-465 | The teleport branch and the `while segment != 0` loop return the path that ParseWirePath describes, with the same error, and leave the cursor after the last byte read. |
| Circuits.ParseWire | src/lib.rs:467-472 | A decoded wire always has a non-empty path. |
| Circuits.WireRoundTrip | src/lib.rs:467-472 | Every stored wire (kind, colour, comment, path) reads back as the wire it represents. |
| Circuits.WireRepresents | src/lib.rs:467-472 | The wire decoder inverts the wire encoding for every stored wire. |
| Circuits.WireExtends | src/lib.rs:467-472 | Appended bytes do not change a successful wire read. |
| Circuits.WireDecoderExtends | src/lib.rs:467-472 | The wire decoder ignores appended bytes on every input. |
| Circuits.CircuitRoundTrip | src/lib.rs:474-478 | `ParseCircuit` reads a header, a u64-counted list of components and a u64-counted list of wires read back as the circuit they represent, in order. |
| Circuits.CircuitExtends | src/lib.rs:474-478 | Appended bytes do not change a successful circuit read. |
| Circuits.GetDataFromBytes | src/lib.rs:17-20 | The payload decodes iff a circuit can be read from its start, and to that circuit. Its error is the circuit read's error. What follows the circuit is not inspected. |
| Circuits.TrailingBytesIgnored | src/lib.rs:17-20 | Bytes after a decodable circuit never change the result: there is no completeness check. |
| Circuits.PayloadRoundTrip | src/lib.rs:17-20 | Every encodable circuit, followed by any bytes, decodes to the circuit it represents. |
| Circuits.GetDataFromFile | src/lib.rs:6-15 | An empty file fails with EmptyFile. A first byte other than 6 fails with UnsupportedVersion carrying that byte. A failed decompression of the rest fails with DecompressionFailed. Otherwise the result is exactly that of `GetDataFromBytes` on the decompressed payload, and success implies version 6 and a successful decompression. |
| Circuits.FileRoundTrip | src/lib.rs:6-15 | Let the decompressor invert the compressor. Then version 6 followed by the compressed encoding of a circuit, with any trailing bytes, decodes to that circuit. |
| Circuits.VersionCheckedFirst | src/lib.rs:8-13 | On an empty file or a wrong version, the decompressor is never consulted: any two decompressors give the same result. |

## Left out

- Reading the file from disk (`fs::read`, src/lib.rs:7) and the command-line
  program in `src/main.rs`: I/O glue. `GetDataFromFile` takes the file's bytes.
- Snappy decompression (src/lib.rs:10): a foreign library. It is a function
  parameter `seq<u8> -> Option<seq<u8>>`, with `None` for its error. Nothing is
  assumed about it except in `FileRoundTrip`, which requires it to invert some
  compressor.
- The `Debug` derives, the `fmt` impl (src/lib.rs:527-531) and the panic
  messages: a panic is an `Error` value, and the message text is not modelled.
- Integer widths other than those the format uses. `i64`, `i32` and `i8`
  (src/lib.rs:505-508) are covered by `ParseSInt` at widths 8, 4 and 1, but no
  record reads them.
- `WirePaths.Step`: an i16 overflow while walking a path is modelled as
  failure, as a debug build panics. A release build would wrap around instead,
  and that behaviour is not modelled.
- `Vec::with_capacity` (src/lib.rs:520) may abort on a huge count before any
  element is read. Allocation is not modelled: such a count fails with
  OutOfData when the elements run out.
- `WirePaths.DirectionIndex` and `WirePaths.RunLength` write `segment >> 5` and
  `segment & 0b0001_1111` as division and remainder by 32. These are equal
  for a byte.
- HashMap iteration order: the program map is a Dafny `map`, so only the
  key-to-value mapping is kept.
- `Cursors.Cursor.ExtractVec`, `Cursors.Cursor.ExtractWirePath`: after a
  failure, the cursor's position is left unspecified. The original panics
  there, and nothing reads the cursor afterwards.
- A completeness check: `get_data_from_bytes` (src/lib.rs:17-20) has none and
  returns as soon as the wires are read. `TrailingBytesIgnored` states the
  consequence.
