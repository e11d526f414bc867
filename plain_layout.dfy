/** The PLAIN page layout of fixed-width values and the bounded cursor that
    walks it. A page window `[start, end)` of a byte buffer holds values
    packed one after another, each `width` bytes wide with no separator;
    reads and skips move a cursor through the window and never past `end`. */
module PlainLayout {
  import opened LittleEndian

  datatype Option<T> = None | Some(value: T)

  /** The `width` bytes a read at `pos` decodes, if the window still holds them. */
  function Slot(data: seq<Byte>, pos: nat, end: nat, width: nat): Option<seq<Byte>>
    requires pos <= end <= |data|
  {
    if pos + width <= end then Some(data[pos..pos + width]) else None
  }

  /** Cursor after a read: the bytes decoded are consumed; a read that runs
      out of bytes has consumed whatever remained. */
  function ReadStep(data: seq<Byte>, pos: nat, end: nat, width: nat): nat
    requires pos <= end <= |data|
  {
    match Slot(data, pos, end, width)
    case Some(bytes) => pos + |bytes|
    case None => end
  }

  /** Cursor after a skip: `width` bytes further on, stopping at `end`. */
  function SkipStep(pos: nat, end: nat, width: nat): nat
  {
    if pos + width < end then pos + width else end
  }

  datatype Op = Read | Skip

  /** Cursor after running `ops` in order from `pos`. */
  function Run(data: seq<Byte>, pos: nat, end: nat, width: nat, ops: seq<Op>): (r: nat)
    requires pos <= end <= |data|
    ensures pos <= r <= end
    decreases |ops|
  {
    if ops == [] then pos
    else
      var next := if ops[0] == Read then ReadStep(data, pos, end, width) else SkipStep(pos, end, width);
      Run(data, next, end, width, ops[1..])
  }

  /** One more operation after a run continues from where the run stopped. */
  lemma {:induction false} RunAppend(data: seq<Byte>, pos: nat, end: nat, width: nat, ops: seq<Op>, op: Op)
    requires pos <= end <= |data|
    ensures Run(data, pos, end, width, ops + [op])
            == var p := Run(data, pos, end, width, ops);
               if op == Read then ReadStep(data, p, end, width) else SkipStep(p, end, width)
    decreases |ops|
  {
    if ops != [] {
      var next := if ops[0] == Read then ReadStep(data, pos, end, width) else SkipStep(pos, end, width);
      assert (ops + [op])[1..] == ops[1..] + [op];
      RunAppend(data, next, end, width, ops[1..], op);
    } else {
      assert [op][1..] == [];
    }
  }

  /** A skip consumes exactly the bytes a read would, on a full slot and at
      the end of the window alike. */
  lemma ReadSkipSameStep(data: seq<Byte>, pos: nat, end: nat, width: nat)
    requires pos <= end <= |data|
    ensures ReadStep(data, pos, end, width) == SkipStep(pos, end, width)
    ensures pos + width <= end ==> ReadStep(data, pos, end, width) == pos + width
  {
  }

  /** After any mix of reads and skips the cursor stands `width` bytes per
      operation further on, or at `end` once the window is used up. */
  lemma {:induction false} RunPosition(data: seq<Byte>, pos: nat, end: nat, width: nat, ops: seq<Op>)
    requires pos <= end <= |data|
    ensures Run(data, pos, end, width, ops)
            == if pos + width * |ops| <= end then pos + width * |ops| else end
    decreases |ops|
  {
    if ops != [] {
      var next := if ops[0] == Read then ReadStep(data, pos, end, width) else SkipStep(pos, end, width);
      ReadSkipSameStep(data, pos, end, width);
      RunPosition(data, next, end, width, ops[1..]);
      assert width * |ops| == width + width * |ops[1..]|;
      if pos + width > end {
        assert next == end;
      }
    }
  }

  /** Skip/read equivalence: two runs of the same length, whatever mix of
      reads and skips they hold, leave the next read the same slot. */
  lemma SkipReadEquivalence(data: seq<Byte>, pos: nat, end: nat, width: nat, ops1: seq<Op>, ops2: seq<Op>)
    requires pos <= end <= |data|
    requires |ops1| == |ops2|
    ensures Run(data, pos, end, width, ops1) == Run(data, pos, end, width, ops2)
    ensures Slot(data, Run(data, pos, end, width, ops1), end, width)
            == Slot(data, Run(data, pos, end, width, ops2), end, width)
  {
    RunPosition(data, pos, end, width, ops1);
    RunPosition(data, pos, end, width, ops2);
  }

  /** Sequential slots: after `k` reads or skips from `start`, the next read
      decodes bytes `[start + width * k, start + width * (k + 1))`. */
  lemma SequentialSlots(data: seq<Byte>, start: nat, end: nat, width: nat, ops: seq<Op>)
    requires start <= end <= |data|
    requires start + width * (|ops| + 1) <= end
    ensures Run(data, start, end, width, ops) == start + width * |ops|
    ensures Slot(data, Run(data, start, end, width, ops), end, width)
            == Some(data[start + width * |ops| .. start + width * (|ops| + 1)])
  {
    RunPosition(data, start, end, width, ops);
  }

  /** A read looks at no byte outside the window: two buffers that agree on
      `[start, end)` give every cursor in it the same slot. */
  lemma SlotInsideWindow(data1: seq<Byte>, data2: seq<Byte>, start: nat, pos: nat, end: nat, width: nat)
    requires start <= pos <= end <= |data1| && end <= |data2|
    requires data1[start..end] == data2[start..end]
    ensures Slot(data1, pos, end, width) == Slot(data2, pos, end, width)
  {
    if pos + width <= end {
      SubSlice(data1, start, end, pos - start, pos - start + width);
      SubSlice(data2, start, end, pos - start, pos - start + width);
    }
  }

  /** The bytes of equally wide chunks laid end to end. */
  function Concat(chunks: seq<seq<Byte>>): seq<Byte>
  {
    if chunks == [] then [] else chunks[0] + Concat(chunks[1..])
  }

  /** A slice of a slice is a slice of the whole. */
  lemma SubSlice(data: seq<Byte>, from: nat, to: nat, lo: nat, hi: nat)
    requires from <= to <= |data| && lo <= hi <= to - from
    ensures data[from + lo .. from + hi] == data[from..to][lo..hi]
  {
    forall i | 0 <= i < hi - lo
      ensures data[from + lo .. from + hi][i] == data[from..to][lo..hi][i]
    {
      assert data[from..to][lo..hi][i] == data[from..to][lo + i];
    }
  }

  /** Past a prefix, a slice of a concatenation is a slice of its second part. */
  lemma SliceAfterPrefix(a: seq<Byte>, b: seq<Byte>, lo: nat, hi: nat)
    requires lo <= hi <= |b|
    ensures (a + b)[|a| + lo .. |a| + hi] == b[lo..hi]
  {
  }

  /** Every chunk is `width` bytes wide. */
  ghost predicate AllWidth(chunks: seq<seq<Byte>>, width: nat)
  {
    forall i :: 0 <= i < |chunks| ==> |chunks[i]| == width
  }

  lemma AllWidthTail(chunks: seq<seq<Byte>>, width: nat)
    requires AllWidth(chunks, width) && chunks != []
    ensures |chunks[0]| == width && AllWidth(chunks[1..], width)
  {
    forall i | 0 <= i < |chunks| - 1 ensures |chunks[1..][i]| == width {
      assert chunks[1..][i] == chunks[i + 1];
    }
  }

  /** Chunk `k` of a concatenation of `width`-byte chunks sits at `width * k`. */
  lemma {:induction false} ConcatChunk(chunks: seq<seq<Byte>>, width: nat, k: nat)
    requires AllWidth(chunks, width)
    requires k < |chunks|
    ensures |Concat(chunks)| == width * |chunks|
    ensures width * k + width <= |Concat(chunks)|
    ensures Concat(chunks)[width * k .. width * k + width] == chunks[k]
  {
    ConcatLength(chunks, width);
    AllWidthTail(chunks, width);
    var rest := Concat(chunks[1..]);
    assert Concat(chunks) == chunks[0] + rest;
    if k > 0 {
      ConcatChunk(chunks[1..], width, k - 1);
      var lo := width * (k - 1);
      assert width * k == width + lo;
      SliceAfterPrefix(chunks[0], rest, lo, lo + width);
    }
  }

  lemma {:induction false} ConcatLength(chunks: seq<seq<Byte>>, width: nat)
    requires AllWidth(chunks, width)
    ensures |Concat(chunks)| == width * |chunks|
  {
    if chunks != [] {
      AllWidthTail(chunks, width);
      ConcatLength(chunks[1..], width);
      assert width * |chunks| == width + width * |chunks[1..]|;
    }
  }

  /** A PLAIN page of int32 / int64 values. */
  function EncodeInt32s(xs: seq<Int32>): seq<Byte>
  {
    Concat(seq(|xs|, i requires 0 <= i < |xs| => EncodeLE32(xs[i])))
  }

  function EncodeInt64s(xs: seq<Int64>): seq<Byte>
  {
    Concat(seq(|xs|, i requires 0 <= i < |xs| => EncodeLE64(xs[i])))
  }

  /** Reading a window that holds the PLAIN encoding of `xs`: after `k`
      reads or skips, the next read returns `xs[k]` while `k < |xs|`, and
      finds no full slot once the values are used up. */
  lemma ReadEncodedInt32s(data: seq<Byte>, start: nat, xs: seq<Int32>, ops: seq<Op>)
    requires start + 4 * |xs| <= |data|
    requires data[start .. start + 4 * |xs|] == EncodeInt32s(xs)
    ensures var end := start + 4 * |xs|;
            var slot := Slot(data, Run(data, start, end, 4, ops), end, 4);
            if |ops| < |xs| then slot.Some? && DecodeLE32(slot.value) == xs[|ops|]
            else slot == None
  {
    var end := start + 4 * |xs|;
    var chunks := seq(|xs|, i requires 0 <= i < |xs| => EncodeLE32(xs[i]));
    RunPosition(data, start, end, 4, ops);
    if |ops| < |xs| {
      var k := |ops|;
      ConcatChunk(chunks, 4, k);
      SubSlice(data, start, start + 4 * |xs|, 4 * k, 4 * k + 4);
      DecodeEncodeLE32(xs[k]);
    }
  }

  lemma ReadEncodedInt64s(data: seq<Byte>, start: nat, xs: seq<Int64>, ops: seq<Op>)
    requires start + 8 * |xs| <= |data|
    requires data[start .. start + 8 * |xs|] == EncodeInt64s(xs)
    ensures var end := start + 8 * |xs|;
            var slot := Slot(data, Run(data, start, end, 8, ops), end, 8);
            if |ops| < |xs| then slot.Some? && DecodeLE64(slot.value) == xs[|ops|]
            else slot == None
  {
    var end := start + 8 * |xs|;
    var chunks := seq(|xs|, i requires 0 <= i < |xs| => EncodeLE64(xs[i]));
    RunPosition(data, start, end, 8, ops);
    if |ops| < |xs| {
      var k := |ops|;
      ConcatChunk(chunks, 8, k);
      SubSlice(data, start, start + 8 * |xs|, 8 * k, 8 * k + 8);
      DecodeEncodeLE64(xs[k]);
    }
  }

  /** The int32 page `[1, -1, 2147483647]` is the twelve bytes
      `01 00 00 00 FF FF FF FF FF FF FF 7F`. */
  lemma Int32PageExample()
    ensures EncodeInt32s([1, -1, 2147483647])
            == [0x01, 0x00, 0x00, 0x00, 0xFF, 0xFF, 0xFF, 0xFF, 0xFF, 0xFF, 0xFF, 0x7F]
  {
    Int32Examples();
    var chunks := seq(3, i requires 0 <= i < 3 => EncodeLE32([1, -1, 2147483647][i]));
    assert chunks == [[0x01, 0x00, 0x00, 0x00], [0xFF, 0xFF, 0xFF, 0xFF], [0xFF, 0xFF, 0xFF, 0x7F]];
    assert Concat(chunks[2..]) == chunks[2] + Concat(chunks[3..]);
    assert Concat(chunks[1..]) == chunks[1] + Concat(chunks[2..]);
  }
}
