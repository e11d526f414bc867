# PLAIN values reader for fixed-width Parquet columns

This project models `PlainValuesReader` from parquet-mr's column layer. This is the
decoder for the PLAIN encoding of `int32`, `int64`, `float` and `double`
columns. In PLAIN, every value is stored as its raw little-endian bytes: 4 bytes for
int and float, 8 for long and double. Nothing separates one value from the next.

The Java class has four subclasses. The model turns them into one class,
`PlainValues.PlainValuesReader`, tagged by a `Kind` (`DoubleReader`, `FloatReader`,
`IntegerReader`, `LongReader`) that fixes its width.

The reader's lifecycle:
- `InitFromPage` binds the reader to the window `[offset, limit)` of the
  caller's `ByteBuffer`. It leaves the caller's position and limit untouched,
  because the source reads through `duplicate()`.
- `Skip` moves past one value.
- `ReadInteger`, `ReadLong`, `ReadFloat` and `ReadDouble` decode the next slot.
  If a read finds too few bytes, it returns
  `DecodingError("could not read <type>")`. This takes the place of throwing
  `ParquetDecodingException`.

The reader records the reads and skips made since the page was bound in a
ghost history. Its invariant ties the cursor to a pure specification of that
history (`PlainLayout.Run`). Every read therefore states two things:
- which bytes it decodes relative to the cursor;
- which slot of the window it decodes: the one after the `k` previous operations.

Files:
- `little_endian.dfy` (module `LittleEndian`): byte, int32/int64 and raw-bit types.
  It holds the little-endian two's-complement decoders and encoders, with round
  trips proved in both directions.
- `plain_layout.dfy` (module `PlainLayout`): the bounded cursor as pure functions.
  It covers skip/read equivalence, sequential slots, the frame property of the
  window, and whole PLAIN pages of int32/int64 values read back.
- `plain_values_reader.dfy` (module `PlainValues`): the caller's `ByteBuffer` and
  the stateful reader class.

The stream classes under the reader, `ByteBufferInputStream` and
`LittleEndianDataInputStream`, are not part of this model. Only their
observable effect is modelled, as a cursor over the window that never leaves it:
- A read that runs out of bytes has consumed what remained, so the cursor
  moves to the end of the window.
- An over-long skip stops at the end of the window (see `Skip` under "## Left out").
- An offset outside `[0, limit]` makes the stream constructors throw before the
  field `in` is reassigned. The model returns `false` and leaves the reader unchanged.
- The window always ends at the buffer's limit, because its length is
  `in.limit() - offset` (line 47).

## Model

| member | source | states |
|---|---|---|
| `PlainValues.PlainValuesReader.constructor` | parquet-column/src/main/java/parquet/column/values/plain/PlainValuesReader.java:35-38 | A new reader of a given kind has no stream bound (`in` is null) |
| `PlainValues.PlainValuesReader.InitFromPage` | parquet-column/src/main/java/parquet/column/values/plain/PlainValuesReader.java:44-48 | On success the cursor is at `offset`, the window is exactly the buffer's bytes `[offset, limit)`, `limit - offset` bytes remain and the history is empty. It succeeds iff `0 <= offset <= limit`; on failure the reader is unchanged. The caller's position and limit never change |
| `PlainValues.PlainValuesReader.Skip` | parquet-column/src/main/java/parquet/column/values/plain/PlainValuesReader.java:94-101 | The cursor advances by the reader's width (4 for int/float, 8 for long/double), stopping at the window's end, and nothing is returned. Lines 52-59, 73-80 and 115-122 are the same for the other kinds |
| `PlainValues.PlainValuesReader.ReadInteger` | parquet-column/src/main/java/parquet/column/values/plain/PlainValuesReader.java:103-110 | With 4 bytes left it returns them decoded as a little-endian two's-complement int32 and advances by 4. With fewer left it returns `DecodingError("could not read int")`. After `k` earlier reads/skips it decodes bytes `[offset+4k, offset+4k+4)` |
| `PlainValues.PlainValuesReader.ReadLong` | parquet-column/src/main/java/parquet/column/values/plain/PlainValuesReader.java:124-131 | Same as `ReadInteger` for 8-byte int64 slots, with error "could not read long" |
| `PlainValues.PlainValuesReader.ReadFloat` | parquet-column/src/main/java/parquet/column/values/plain/PlainValuesReader.java:82-89 | Returns the 32-bit pattern stored little-endian in the next 4 bytes, or "could not read float"; slot `k` is bytes `[offset+4k, offset+4k+4)` |
| `PlainValues.PlainValuesReader.ReadDouble` | parquet-column/src/main/java/parquet/column/values/plain/PlainValuesReader.java:61-68 | Returns the 64-bit pattern stored little-endian in the next 8 bytes, or "could not read double"; slot `k` is bytes `[offset+8k, offset+8k+8)` |
| `PlainValues.PlainValuesReader.Consume` | parquet-column/src/main/java/parquet/column/values/plain/PlainValuesReader.java:106 | The stream read under every `readX`: it takes the slot at the cursor if the window holds it, else nothing, and moves the cursor as a read does |
| `LittleEndian.DecodeLE32` | parquet-column/src/main/java/parquet/column/values/plain/PlainValuesReader.java:106 | A 4-byte slot decodes to the int32 whose two's-complement bit pattern is the slot's little-endian number |
| `LittleEndian.DecodeLE64` | parquet-column/src/main/java/parquet/column/values/plain/PlainValuesReader.java:127 | An 8-byte slot decodes to the int64 whose two's-complement bit pattern is the slot's little-endian number |
| `PlainValues.Width` | parquet-column/src/main/java/parquet/column/values/plain/PlainValuesReader.java:50-122 | One value takes 4 bytes for the int and float readers and 8 for the long and double readers (the `skipBytes` arguments at lines 55, 76, 97 and 118) |
| `LittleEndian.Unsigned` | parquet-column/src/main/java/parquet/column/values/plain/PlainValuesReader.java:106 | Reading `n` little-endian bytes yields a number below `256^n` |
| `LittleEndian.UnsignedOfBytes` | parquet-column/src/main/java/parquet/column/values/plain/PlainValuesReader.java:106 | Writing a number below `256^n` on `n` little-endian bytes and reading them back gives the number |
| `LittleEndian.BytesOfUnsigned` | parquet-column/src/main/java/parquet/column/values/plain/PlainValuesReader.java:106 | Reading any byte string and writing the number back on as many bytes gives the same bytes |
| `LittleEndian.RawBits32Formula` | parquet-column/src/main/java/parquet/column/values/plain/PlainValuesReader.java:106 | A 4-byte slot reads as `b0 + b1*2^8 + b2*2^16 + b3*2^24` (least significant byte first) |
| `LittleEndian.RawBits64Formula` | parquet-column/src/main/java/parquet/column/values/plain/PlainValuesReader.java:127 | An 8-byte slot reads as `b0 + b1*2^8 + ... + b7*2^56` |
| `LittleEndian.DecodeLE32Sign` | parquet-column/src/main/java/parquet/column/values/plain/PlainValuesReader.java:106 | A decoded int32 is negative iff the top bit of the slot's last byte is set (two's complement) |
| `LittleEndian.DecodeLE64Sign` | parquet-column/src/main/java/parquet/column/values/plain/PlainValuesReader.java:127 | A decoded int64 is negative iff the top bit of the slot's last byte is set |
| `LittleEndian.DecodeEncodeLE32` | parquet-column/src/main/java/parquet/column/values/plain/PlainValuesReader.java:103-110 | Decoding the PLAIN encoding of any int32 returns it |
| `LittleEndian.EncodeDecodeLE32` | parquet-column/src/main/java/parquet/column/values/plain/PlainValuesReader.java:103-110 | Every 4-byte slot is the encoding of the int32 it decodes to, so the decoder is a bijection |
| `LittleEndian.DecodeEncodeLE64` | parquet-column/src/main/java/parquet/column/values/plain/PlainValuesReader.java:124-131 | Decoding the PLAIN encoding of any int64 returns it |
| `LittleEndian.EncodeDecodeLE64` | parquet-column/src/main/java/parquet/column/values/plain/PlainValuesReader.java:124-131 | Every 8-byte slot is the encoding of the int64 it decodes to |
| `LittleEndian.DecodeEncodeBits` | parquet-column/src/main/java/parquet/column/values/plain/PlainValuesReader.java:62-89 | Decoding the little-endian bytes of any 32-/64-bit float or double bit pattern returns the pattern |
| `LittleEndian.EncodeDecodeBits` | parquet-column/src/main/java/parquet/column/values/plain/PlainValuesReader.java:62-89 | Every 4-/8-byte slot is the encoding of the bit pattern read from it |
| `LittleEndian.RawBitsArePatterns` | parquet-column/src/main/java/parquet/column/values/plain/PlainValuesReader.java:85 | A float (double) read gives the two's-complement bit pattern of the int (long) read over the same bytes |
| `LittleEndian.Int32Examples` | parquet-column/src/main/java/parquet/column/values/plain/PlainValuesReader.java:103-110 | `FF FF FF FF` is -1, `00 00 00 80` is -2^31, and 1 and 2147483647 encode as `01 00 00 00` and `FF FF FF 7F` |
| `LittleEndian.Int64Examples` | parquet-column/src/main/java/parquet/column/values/plain/PlainValuesReader.java:124-131 | Eight `FF` bytes are -1, and the int64 extremes decode from their little-endian bytes |
| `PlainLayout.Run` | parquet-column/src/main/java/parquet/column/values/plain/PlainValuesReader.java:95-131 | The cursor after any sequence of reads and skips stays inside the window `[start, end]` |
| `PlainLayout.RunAppend` | parquet-column/src/main/java/parquet/column/values/plain/PlainValuesReader.java:95-131 | One more read or skip continues from where the earlier ones left the cursor |
| `PlainLayout.RunPosition` | parquet-column/src/main/java/parquet/column/values/plain/PlainValuesReader.java:95-131 | After `n` reads and skips in any mix, the cursor is at `start + width*n`, or at the end once the window is used up |
| `PlainLayout.SkipReadEquivalence` | parquet-column/src/main/java/parquet/column/values/plain/PlainValuesReader.java:95-110 | Two histories of equal length, whatever mix of reads and skips they hold, leave the cursor in the same place and give the next read the same slot. So skip-then-read returns what read-then-read returns second |
| `PlainLayout.SequentialSlots` | parquet-column/src/main/java/parquet/column/values/plain/PlainValuesReader.java:103-110 | After `k` operations from the window's start, the next read decodes bytes `[start + width*k, start + width*(k+1))` |
| `PlainLayout.SlotInsideWindow` | parquet-column/src/main/java/parquet/column/values/plain/PlainValuesReader.java:47 | Reads depend on no byte outside `[start, end)`: buffers that agree on the window give every cursor in it the same slot |
| `PlainLayout.ConcatChunk` | parquet-column/src/main/java/parquet/column/values/plain/PlainValuesReader.java:103-110 | In a page of `width`-byte values laid end to end, value `k` sits at bytes `[width*k, width*(k+1))` |
| `PlainLayout.ReadEncodedInt32s` | parquet-column/src/main/java/parquet/column/values/plain/PlainValuesReader.java:103-110 | In a window holding the PLAIN int32 page of `xs`, the read after `k` operations returns `xs[k]` for every `k` below the length of `xs`. Once the values are used up, a read finds no full slot (and so fails) |
| `PlainLayout.ReadEncodedInt64s` | parquet-column/src/main/java/parquet/column/values/plain/PlainValuesReader.java:124-131 | The same for a PLAIN int64 page |
| `PlainLayout.Int32PageExample` | parquet-column/src/main/java/parquet/column/values/plain/PlainValuesReader.java:103-110 | The int32 page `[1, -1, 2147483647]` is the 12 bytes `01 00 00 00 FF FF FF FF FF FF FF 7F` |

## Left out

- `Hive012Binding.java`: Hive/Hadoop job-configuration glue with no binary-format logic.
- Debug logging (line 46).
- `PlainValues.PlainValuesReader.ReadFloat`: returns the raw 32-bit IEEE-754 pattern, not a `float`, because floating point is not modelled.
- `PlainValues.PlainValuesReader.ReadDouble`: returns the raw 64-bit IEEE-754 pattern, not a `double`, for the same reason.
- `PlainValues.PlainValuesReader.Skip`: never fails; an over-long skip stops at the end of the window. The in-memory cursor cannot raise the `IOException` that lines 54-58 (and the other three `skip`s) wrap as "could not skip <type>", so that branch is not modelled.
- Inherited `ValuesReader` methods: the base class is not part of this model. Each read method therefore requires the reader kind that overrides it (for example, `readInteger` on the double reader is left out).
- The value count: `valueCount` is accepted and unused (line 45), so no count bound is modelled.
- `PlainValues.PlainValuesReader.Skip`, `ReadInteger`, `ReadLong`, `ReadFloat` and `ReadDouble` on a reader with no page bound: in Java `in` is still null and the call throws `NullPointerException`; the model excludes this case with `requires Ready()`.
- Sharing of the page bytes: the reader reads the caller's backing array in place, as `duplicate()` shares content. The model assumes that nothing writes those bytes while the reader is bound. Its methods write neither the array nor the caller's buffer.
- `ByteBuffer` array offsets and sliced buffers: buffer index 0 is backing-array index 0.
- Dictionary, RLE/bit-packing hybrid, delta codecs, boolean and byte-array PLAIN readers, and encoding dispatch: their source is not part of this model.
