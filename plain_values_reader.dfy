/** PLAIN readers for float, double, int and long columns. A reader is bound
    to a page by `InitFromPage` and then hands out one value per read, each
    decoded from the next fixed-width little-endian slot of the page window;
    a skip moves past one slot without decoding it. A read that finds fewer
    bytes than its width fails with a decoding error naming the type. */
module PlainValues {
  import opened LittleEndian
  import opened PlainLayout

  /** The four concrete readers, one per primitive type. */
  datatype Kind = DoubleReader | FloatReader | IntegerReader | LongReader

  /** Bytes one value of the reader's type occupies on the page. */
  function Width(kind: Kind): (w: nat)
    ensures w == 4 <==> kind == FloatReader || kind == IntegerReader
    ensures w == 8 <==> kind == DoubleReader || kind == LongReader
  {
    match kind
    case DoubleReader => 8
    case FloatReader => 4
    case IntegerReader => 4
    case LongReader => 8
  }

  /** A decoded value, or the decoding error a failed read raises. */
  datatype ReadResult<T> = Value(value: T) | DecodingError(message: string)

  /** The caller's page buffer: backing bytes with a position and a limit. */
  class ByteBuffer {
    const hb: array<Byte>
    var position: nat
    var limit: nat

    ghost predicate Valid()
      reads this
    {
      position <= limit <= hb.Length
    }

    constructor Wrap(bytes: array<Byte>)
      ensures Valid() && hb == bytes && position == 0 && limit == bytes.Length
    {
      hb := bytes;
      position := 0;
      limit := bytes.Length;
    }
  }

  class PlainValuesReader {
    const kind: Kind

    /** The bound stream: the page's bytes, its window `[start, end)` and
        the cursor `pos`; `page` is null until a page is bound. */
    var page: array?<Byte>
    var start: nat
    var pos: nat
    var end: nat

    /** The reads and skips made since the page was bound. */
    ghost var done: seq<Op>

    ghost predicate Ready()
      reads this, page
    {
      page != null && start <= pos <= end <= page.Length &&
      pos == Run(page[..], start, end, Width(kind), done)
    }

    /** The bytes the reader may read. */
    ghost function Window(): seq<Byte>
      reads this, page
      requires Ready()
    {
      page[start..end]
    }

    function Remaining(): nat
      reads this
      requires start <= pos <= end
    {
      end - pos
    }

    constructor (kind: Kind)
      ensures this.kind == kind && page == null
    {
      this.kind := kind;
      page := null;
      start, pos, end := 0, 0, 0;
      done := [];
    }

    /** Binds the reader to `buf`'s bytes from `offset` up to the buffer's
        limit. `valueCount` is accepted and not used. The buffer's own
        position and limit are left as they were. */
    method InitFromPage(valueCount: int, buf: ByteBuffer, offset: int) returns (ok: bool)
      requires buf.Valid()
      modifies this`page, this`start, this`pos, this`end, this`done
      ensures ok <==> 0 <= offset <= buf.limit
      ensures ok ==> Ready() && page == buf.hb && done == []
      ensures ok ==> start == pos == offset && end == buf.limit
      ensures ok ==> Window() == buf.hb[offset..buf.limit] && Remaining() == buf.limit - offset
      ensures !ok ==> unchanged(this)
      ensures buf.position == old(buf.position) && buf.limit == old(buf.limit)
    {
      if 0 <= offset <= buf.limit {
        page := buf.hb;
        start, pos, end := offset, offset, buf.limit;
        done := [];
        ok := true;
      } else {
        ok := false;
      }
    }

    /** Moves the cursor past one value without decoding it. */
    method Skip()
      requires Ready()
      modifies this`pos, this`done
      ensures Ready() && done == old(done) + [Op.Skip]
      ensures pos == SkipStep(old(pos), end, Width(kind))
      ensures old(pos) + Width(kind) <= end ==> pos == old(pos) + Width(kind)
    {
      RunAppend(page[..], start, end, Width(kind), done, Op.Skip);
      pos := if pos + Width(kind) < end then pos + Width(kind) else end;
      done := done + [Op.Skip];
    }

    /** Takes the next `Width(kind)` bytes off the window, if it holds them. */
    method Consume() returns (slot: Option<seq<Byte>>)
      requires Ready()
      modifies this`pos, this`done
      ensures Ready() && done == old(done) + [Op.Read]
      ensures slot == Slot(page[..], old(pos), end, Width(kind))
      ensures slot.Some? ==> |slot.value| == Width(kind)
      ensures pos == ReadStep(page[..], old(pos), end, Width(kind))
      ensures start + Width(kind) * (|old(done)| + 1) <= end ==>
                slot == Some(page[start + Width(kind) * |old(done)| .. start + Width(kind) * (|old(done)| + 1)])
    {
      ghost var k := |done|;
      RunAppend(page[..], start, end, Width(kind), done, Op.Read);
      if start + Width(kind) * (k + 1) <= end {
        SequentialSlots(page[..], start, end, Width(kind), done);
      }
      if pos + Width(kind) <= end {
        slot := Some(page[pos..pos + Width(kind)]);
        pos := pos + Width(kind);
      } else {
        slot := None;
        pos := end;
      }
      done := done + [Op.Read];
    }

    /** `readInteger` of the int reader. */
    method ReadInteger() returns (r: ReadResult<Int32>)
      requires Ready() && kind == IntegerReader
      modifies this`pos, this`done
      ensures Ready() && done == old(done) + [Op.Read]
      ensures pos == ReadStep(page[..], old(pos), end, 4)
      ensures old(pos) + 4 <= end ==> r == Value(DecodeLE32(page[old(pos)..old(pos) + 4]))
      ensures old(pos) + 4 > end ==> r == DecodingError("could not read int")
      ensures start + 4 * (|old(done)| + 1) <= end ==>
                r == Value(DecodeLE32(page[start + 4 * |old(done)| .. start + 4 * (|old(done)| + 1)]))
    {
      var slot := Consume();
      match slot
      case Some(bytes) => r := Value(DecodeLE32(bytes));
      case None => r := DecodingError("could not read int");
    }

    /** `readLong` of the long reader. */
    method ReadLong() returns (r: ReadResult<Int64>)
      requires Ready() && kind == LongReader
      modifies this`pos, this`done
      ensures Ready() && done == old(done) + [Op.Read]
      ensures pos == ReadStep(page[..], old(pos), end, 8)
      ensures old(pos) + 8 <= end ==> r == Value(DecodeLE64(page[old(pos)..old(pos) + 8]))
      ensures old(pos) + 8 > end ==> r == DecodingError("could not read long")
      ensures start + 8 * (|old(done)| + 1) <= end ==>
                r == Value(DecodeLE64(page[start + 8 * |old(done)| .. start + 8 * (|old(done)| + 1)]))
    {
      var slot := Consume();
      match slot
      case Some(bytes) => r := Value(DecodeLE64(bytes));
      case None => r := DecodingError("could not read long");
    }

    /** `readFloat` of the float reader, as the value's raw bit pattern. */
    method ReadFloat() returns (r: ReadResult<Bits32>)
      requires Ready() && kind == FloatReader
      modifies this`pos, this`done
      ensures Ready() && done == old(done) + [Op.Read]
      ensures pos == ReadStep(page[..], old(pos), end, 4)
      ensures old(pos) + 4 <= end ==> r == Value(RawBits32(page[old(pos)..old(pos) + 4]))
      ensures old(pos) + 4 > end ==> r == DecodingError("could not read float")
      ensures start + 4 * (|old(done)| + 1) <= end ==>
                r == Value(RawBits32(page[start + 4 * |old(done)| .. start + 4 * (|old(done)| + 1)]))
    {
      var slot := Consume();
      match slot
      case Some(bytes) => r := Value(RawBits32(bytes));
      case None => r := DecodingError("could not read float");
    }

    /** `readDouble` of the double reader, as the value's raw bit pattern. */
    method ReadDouble() returns (r: ReadResult<Bits64>)
      requires Ready() && kind == DoubleReader
      modifies this`pos, this`done
      ensures Ready() && done == old(done) + [Op.Read]
      ensures pos == ReadStep(page[..], old(pos), end, 8)
      ensures old(pos) + 8 <= end ==> r == Value(RawBits64(page[old(pos)..old(pos) + 8]))
      ensures old(pos) + 8 > end ==> r == DecodingError("could not read double")
      ensures start + 8 * (|old(done)| + 1) <= end ==>
                r == Value(RawBits64(page[start + 8 * |old(done)| .. start + 8 * (|old(done)| + 1)]))
    {
      var slot := Consume();
      match slot
      case Some(bytes) => r := Value(RawBits64(bytes));
      case None => r := DecodingError("could not read double");
    }
  }
}
