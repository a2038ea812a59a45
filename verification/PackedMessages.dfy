/** Packed messages end to end: `write_message` and `try_read_message` of
    capnp-futures/src/serialize_packed.rs over the framing layer, with a fresh encoder and a fresh
    decoder for each message. */
module PackedMessages {
  import opened Packing
  import opened Streams
  import opened Options
  import opened Framing
  import opened Frames
  import PackedRead
  import PackedWrite

  // ------------------------------------------------------------ writing

  /** What is written before segment `i` of a message. */
  function Preceding(segments: seq<Segment>, i: nat): seq<Byte>
    requires segments != [] && i <= |segments|
  {
    TableHead(WordCounts(segments)) + TableRest(WordCounts(segments)) + Join(segments[..i])
  }

  /** A message that the encoder renders faithfully: whole words, and no segment with a run that the encoder
      can find and that is too long for its count byte. The table is too short to hold one. */
  ghost predicate Packable(segments: seq<Segment>) {
    && 0 < |segments| < 512
    && forall i | 0 <= i < |segments| ::
         |segments[i]| % 8 == 0 && PackedWrite.RunsFit(Preceding(segments, i), segments[i])
  }

  /** No segment holds a run of dense words that is too long. */
  ghost predicate NoLongDense(segments: seq<Segment>)
    requires segments != []
  {
    forall i | 0 <= i < |segments| :: !PackedWrite.LongDense(Preceding(segments, i), segments[i])
  }

  ghost predicate LongZeroesIn(segments: seq<Segment>, i: nat)
    requires i < |segments|
  {
    PackedWrite.LongZeroesInside(Preceding(segments, i), segments[i])
  }

  /** A message that the encoder spoils: whole words and no dense run that is too long, but a zero run that is. */
  ghost predicate Lossy(segments: seq<Segment>) {
    && 0 < |segments| < 512 && NoLongDense(segments)
    && (forall i | 0 <= i < |segments| :: |segments[i]| % 8 == 0)
    && exists i: nat :: i < |segments| && LongZeroesIn(segments, i)
  }

  lemma {:induction false} JoinSnoc(segments: seq<Segment>, s: Segment)
    ensures Join(segments + [s]) == Join(segments) + s
  {
    if segments == [] {
      assert segments + [s] == [s] && [s][1..] == [];
      assert Join([s]) == s + Join([]) == s;
    } else {
      assert (segments + [s])[1..] == segments[1..] + [s];
      JoinSnoc(segments[1..], s);
    }
  }

  /** Writes the segment table. */
  method WriteTable(writer: PackedWrite.Writer, segments: seq<Segment>)
    requires segments != [] && writer.Valid() && writer.owed == [] && writer.consumed == []
    modifies writer, writer.buf, writer.packedBuf, writer.sink
    ensures writer.Valid() && writer.owed == [] && writer.consumed == Preceding(segments, 0)
    ensures |segments| < 512 ==>
      writer.ZeroOver() == old(writer.ZeroOver()) && writer.RawOver() == old(writer.RawOver())
  {
    hide TableHead, TableRest, PackedWrite.LongZeroes, PackedWrite.LongZeroesInside, PackedWrite.LongDense;
    hide PackedWrite.Writer.Valid, PackedWrite.Writer.ZeroOver, PackedWrite.Writer.RawOver;
    hide PackedWrite.Writer.Outcome, PackedWrite.Packed;
    var head, rest := WriteSegmentTable(segments);
    PackedWrite.SmallBufferFits(writer.consumed, head);
    writer.WriteAll(head);
    if |segments| > 1 {
      if |segments| < 512 { PackedWrite.SmallBufferFits(writer.consumed, rest); }
      writer.WriteAll(rest);
    }
    assert segments[..0] == [] && Preceding(segments, 0) == head + rest + [];
  }

  lemma PrecedingStep(segments: seq<Segment>, i: nat)
    requires i < |segments|
    ensures Preceding(segments, i + 1) == Preceding(segments, i) + segments[i]
  {
    hide TableHead, TableRest, Join;
    JoinSnoc(segments[..i], segments[i]);
    assert segments[..i + 1] == segments[..i] + [segments[i]];
  }

  /** Writes the segments one after the other. */
  method WriteSegments(writer: PackedWrite.Writer, segments: seq<Segment>)
    requires segments != [] && writer.Valid() && writer.owed == [] && writer.consumed == Preceding(segments, 0)
    modifies writer, writer.buf, writer.packedBuf, writer.sink
    ensures writer.Valid() && writer.owed == [] && writer.consumed == Preceding(segments, |segments|)
    ensures (forall i | 0 <= i < |segments| :: |segments[i]| % 8 == 0) ==> |writer.consumed| % 8 == 0
    ensures NoLongDense(segments) && !old(writer.RawOver()) ==> !writer.RawOver()
    ensures Packable(segments) && !old(writer.ZeroOver()) ==> !writer.ZeroOver()
    ensures (exists i: nat :: i < |segments| && LongZeroesIn(segments, i)) ==> writer.ZeroOver()
  {
    hide Preceding, PackedWrite.LongZeroes, PackedWrite.LongZeroesInside, PackedWrite.LongDense;
    hide PackedWrite.Writer.Valid, PackedWrite.Writer.ZeroOver, PackedWrite.Writer.RawOver;
    hide PackedWrite.Writer.Outcome, PackedWrite.Packed;
    WholeTable(segments);
    for i := 0 to |segments|
      invariant writer.Valid() && writer.owed == [] && writer.consumed == Preceding(segments, i)
      invariant (forall k | 0 <= k < i :: |segments[k]| % 8 == 0) ==> |writer.consumed| % 8 == 0
      invariant NoLongDense(segments) && !old(writer.RawOver()) ==> !writer.RawOver()
      invariant Packable(segments) && !old(writer.ZeroOver()) ==> !writer.ZeroOver()
      invariant (exists k: nat :: k < i && LongZeroesIn(segments, k)) ==> writer.ZeroOver()
    {
      PrecedingStep(segments, i);
      writer.WriteAll(segments[i]);
    }
  }

  lemma WholeTable(segments: seq<Segment>)
    requires segments != []
    ensures |Preceding(segments, 0)| % 8 == 0
  {
    hide TableHead, TableRest, RestSize;
    assert segments[..0] == [] && Join([]) == [];
    assert |Preceding(segments, 0)| == 8 + RestSize(|segments|);
  }

  /** Writes one message with an encoder of its own, and flushes what the encoder holds back. */
  method WriteMessage(sink: ByteSink, segments: seq<Segment>) returns (ghost out: seq<Byte>)
    requires segments != []
    modifies sink
    ensures sink.written == old(sink.written) + out
    ensures Packable(segments) ==> Unpack(out) == Unpacked(FrameBytes(segments), Clean)
    ensures Lossy(segments) ==> Unpack(out) != Unpacked(FrameBytes(segments), Clean)
  {
    hide Unpack, TableHead, TableRest, PackedWrite.LongZeroes, PackedWrite.LongDense, Join;
    hide PackedWrite.Writer.Valid, PackedWrite.Writer.ZeroOver, PackedWrite.Writer.RawOver;
    hide PackedWrite.Writer.Outcome, PackedWrite.Packed;
    var writer := new PackedWrite.Writer(sink);
    WriteTable(writer, segments);
    WriteSegments(writer, segments);
    assert segments[..|segments|] == segments;
    writer.Flush();
    out := writer.emitted;
  }

  // ------------------------------------------------------------ reading

  /** Reads the first word of a message: a single read that may come back short, and the rest of the
      word. `None` means that the stream holds nothing at all. */
  method ReadFirstWord(reader: PackedRead.Reader) returns (r: Option<seq<Byte>>, failed: bool)
    requires reader.Shape() && reader.Exact() && reader.emitted == []
    modifies reader, reader.buf, reader.src
    ensures reader.Shape() && reader.Exact()
    ensures r.Some? ==> !failed && |r.value| == 8 && reader.emitted == r.value && reader.Settled()
    ensures r.None? ==> reader.emitted == Unpack(reader.input).bytes && |reader.emitted| < 8
    ensures r.None? ==> (failed <==> reader.emitted != [] || Unpack(reader.input).end.CutWord?)
  {
    hide Unpack, PackedRead.Reader.Shape, PackedRead.Reader.Exact, PackedRead.Reader.Settled;
    var p := reader.PollRead(8);
    while p.ReadPending?
      invariant reader.Shape() && reader.Exact()
      invariant p.ReadPending? ==> reader.emitted == []
      invariant p.ReadReady? ==> reader.emitted == p.bytes && |p.bytes| <= 8
      invariant p.ReadReady? && p.bytes != [] ==> reader.Settled()
      invariant p.ReadReady? && p.bytes == [] ==>
        reader.emitted == Unpack(reader.input).bytes && !Unpack(reader.input).end.CutWord?
      invariant p.ReadFailed? ==>
        reader.emitted == [] == Unpack(reader.input).bytes && Unpack(reader.input).end.CutWord?
      decreases reader.src.stalls + if p.ReadPending? then 1 else 0
    {
      p := reader.PollRead(8);
    }
    if p.ReadFailed? { return None, true; }
    if p.bytes == [] { return None, false; }
    var more := reader.ReadExact(8 - |p.bytes|);
    if more.None? { return None, true; }
    return Some(p.bytes + more.value), false;
  }

  datatype TableRead = NoTable | Table(lens: seq<nat>) | BadTable(error: FrameError)

  /** Reads the segment table. Afterwards exactly the table has been handed out, and the rest of the
      stream decides between a message and a premature end. */
  method ReadSegmentTable(reader: PackedRead.Reader, limit: Option<nat>) returns (t: TableRead)
    requires reader.Shape() && reader.Exact() && reader.emitted == []
    modifies reader, reader.buf, reader.src
    ensures reader.Shape() && reader.Exact()
    ensures t.NoTable? <==> Unpack(reader.input).bytes == [] && !Unpack(reader.input).end.CutWord?
    ensures t.NoTable? ==> FrameOf(reader.input, limit) == NoMessage
    ensures t.BadTable? ==> FrameOf(reader.input, limit) == Broken(t.error)
    ensures t.Table? ==>
      && reader.Settled() && |reader.emitted| == 8 + RestSize(|t.lens|) <= |Unpack(reader.input).bytes|
      && FrameOf(reader.input, limit) == AfterTable(Unpack(reader.input).bytes, t.lens)
  {
    hide Unpack, PackedRead.Reader.Shape, PackedRead.Reader.Exact, PackedRead.Reader.Settled;
    hide DecodeLens, Split, ParseSegmentTableFirst, Total;
    ghost var all := Unpack(reader.input).bytes;
    var first, failed := ReadFirstWord(reader);
    if first.None? { return if failed then BadTable(PrematureEnd) else NoTable; }
    PackedRead.EmittedIsPrefix(reader);
    assert all[..8] == first.value;
    var (count, firstLen) := ParseSegmentTableFirst(first.value);
    if count >= 512 { return BadTable(TooManySegments); }
    if count == 0 { return BadTable(TooFewSegments); }
    var lens := [firstLen];
    if count > 1 {
      // A small table fits the buffer that held the first word.
      var table := reader.ReadExact(if count < 4 then 8 else 4 * (count - count % 2));
      if table.None? { return BadTable(PrematureEnd); }
      PackedRead.EmittedIsPrefix(reader);
      assert all[8..8 + RestSize(count)] == table.value;
      var sizes := ReadSizes(table.value, count - 1);
      lens := lens + sizes;
    } else {
      NoSizes(all[8..8]);
    }
    assert lens == [firstLen] + DecodeLens(all[8..8 + RestSize(count)], count - 1);
    t := if WithinLimit(lens, limit) then Table(lens) else BadTable(TooLarge);
  }

  /** What a packed stream holds, seen as one message. */
  function FrameOf(packed: seq<Byte>, limit: Option<nat>): Frame {
    ReadFrame(Unpack(packed).bytes, Unpack(packed).end.CutWord?, limit)
  }

  /** What it holds, in terms of what the packed bytes mean. */
  lemma FrameSays(packed: seq<Byte>, limit: Option<nat>)
    ensures FrameOf(packed, limit) == NoMessage <==> Unpack(packed).bytes == [] && !Unpack(packed).end.CutWord?
    ensures forall segments: seq<Segment> ::
      FrameOf(packed, limit) == Message(segments) <==>
      Readable(segments, limit) && Begins(Unpack(packed).bytes, segments)
  {
    hide Unpack, ReadFrame, Readable, Begins;
    var u := Unpack(packed);
    NoMessageIff(u.bytes, u.end.CutWord?, limit);
    forall segments: seq<Segment>
      ensures FrameOf(packed, limit) == Message(segments) <==> Readable(segments, limit) && Begins(u.bytes, segments)
    {
      MessageIff(u.bytes, u.end.CutWord?, limit, segments);
    }
  }

  /** A packed message that breaks off is a premature end, unless it breaks off after its first byte: a lone tag is
      taken for the end of the stream. */
  lemma CutMessage(out: seq<Byte>, k: nat, segments: seq<Segment>, limit: Option<nat>)
    requires segments != [] && Readable(segments, limit) && k < |out|
    requires Unpack(out) == Unpacked(FrameBytes(segments), Clean)
    ensures FrameOf(out[..k], limit) == if k < 2 then NoMessage else Broken(PrematureEnd)
  {
    hide ReadFrame, FrameBytes, Readable, Unpack;
    var cut, rest := out[..k], out[k..];
    assert cut + rest == out;
    CutMeans(cut);
    var u := Unpack(cut);
    NoMessageIff(u.bytes, u.end.CutWord?, limit);
    if k >= 2 {
      UnpackCut(cut, rest);
      if u.bytes == [] { CutEmpty(limit); } else { PrefixIsPremature(segments, u.bytes, u.end.CutWord?, limit); }
    }
  }

  lemma CutMeans(cut: seq<Byte>)
    ensures |cut| >= 2 && Unpack(cut).bytes == [] ==> Unpack(cut).end.CutWord?
    ensures |cut| < 2 ==> Unpack(cut).bytes == [] && !Unpack(cut).end.CutWord?
  {
    hide Spread, Ones, Zeros;
  }

  lemma CutEmpty(limit: Option<nat>)
    ensures ReadFrame([], true, limit) == Broken(PrematureEnd)
  {
  }

  function AfterTable(all: seq<Byte>, lens: seq<nat>): Frame
    requires 8 + RestSize(|lens|) <= |all|
  {
    var body := all[8 + RestSize(|lens|)..];
    if |body| < 8 * Total(lens) then Broken(PrematureEnd) else Message(Split(body[..8 * Total(lens)], lens))
  }

  /** Reads one message through a new decoder. A message takes exactly its own bytes: no byte of the next message is
      lost with the decoder. */
  method ReadMessage(src: ByteSource, limit: Option<nat>) returns (f: Frame)
    modifies src
    ensures f == FrameOf(old(src.data), limit)
    ensures f.Message? ==> forall front |
        front <= old(src.data) && Unpack(front).end.Clean? && |Unpack(front).bytes| == FrameSize(f.segments) ::
        src.data == old(src.data)[|front|..]
  {
    hide Unpack, PackedRead.Reader.Shape, PackedRead.Reader.Exact, PackedRead.Reader.Settled, FrameOf, Split, Total;
    var reader := new PackedRead.Reader(src);
    var t := ReadSegmentTable(reader, limit);
    if t.NoTable? { return NoMessage; }
    if t.BadTable? { return Broken(t.error); }
    ghost var all := Unpack(reader.input).bytes;
    var body := reader.ReadExact(8 * Total(t.lens));
    PackedRead.EmittedIsPrefix(reader);
    if body.None? { return Broken(PrematureEnd); }
    assert all[8 + RestSize(|t.lens|)..][..8 * Total(t.lens)] == body.value;
    f := Message(Split(body.value, t.lens));
    JoinSplit(body.value, t.lens);
    forall front | front <= reader.input && Unpack(front).end.Clean? && |Unpack(front).bytes| == |reader.emitted|
      ensures src.data == reader.input[|front|..]
    {
      PackedRead.StopsAtBoundary(reader, front, reader.input[|front|..]);
    }
  }

  /** Reads one message with a decoder of its own. For every behaviour of the stream the result is the
      one that the meaning of the packed bytes calls for: no message exactly if they mean nothing and do not break
      off inside a word, and a message exactly if they begin with it and it is acceptable. */
  method TryReadMessage(src: ByteSource, limit: Option<nat>) returns (f: Frame)
    modifies src
    ensures f == FrameOf(old(src.data), limit)
    ensures f.NoMessage? <==> Unpack(old(src.data)).bytes == [] && !Unpack(old(src.data)).end.CutWord?
    ensures forall segments: seq<Segment> ::
      f == Message(segments) <==> Readable(segments, limit) && Begins(Unpack(old(src.data)).bytes, segments)
    ensures f.Message? ==> forall front |
        front <= old(src.data) && Unpack(front).end.Clean? && |Unpack(front).bytes| == FrameSize(f.segments) ::
        src.data == old(src.data)[|front|..]
  {
    hide Unpack, FrameOf, Readable, Begins, FrameSize;
    FrameSays(src.data, limit);
    f := ReadMessage(src, limit);
  }

  lemma NoSizes(buf: seq<Byte>)
    ensures DecodeLens(buf, 0) == []
  {
  }

  // --------------------------------------------------------- end to end

  /** One message at the front of a packed stream. */
  lemma FirstMessage(out: seq<Byte>, rest: seq<Byte>, segments: seq<Segment>, limit: Option<nat>)
    requires Readable(segments, limit) && Unpack(out) == Unpacked(FrameBytes(segments), Clean)
    ensures FrameOf(out + rest, limit) == Message(segments)
    ensures |Unpack(out).bytes| == FrameSize(segments)
  {
    hide Unpack, ReadFrame, TableHead, TableRest, Join;
    UnpackConcat(out, rest);
    FrameRoundTrip(segments, Unpack(rest).bytes, Unpack(rest).end.CutWord?, limit);
  }

  /** Messages written one after the other, each with an encoder of its own, come back in order, each
      with a decoder of its own, for every behaviour of both streams; after the last
      one the reader finds nothing. */
  method SendAndReceive(messages: seq<seq<Segment>>, limit: Option<nat>, writeStalls: nat, readStalls: nat)
    returns (got: seq<seq<Segment>>, last: Frame)
    requires forall i | 0 <= i < |messages| :: Packable(messages[i]) && Readable(messages[i], limit)
    ensures got == messages && last == NoMessage
  {
    hide Unpack, Packable, Readable, FrameOf, FrameBytes, Join, FrameSize;
    var sink := new ByteSink(writeStalls);
    ghost var outs := WriteMessages(sink, messages);
    EmptyStream(limit);
    var src := new ByteSource(sink.written, readStalls);
    got, last := [], NoMessage;
    assert outs[0..] == outs;
    while true
      invariant |got| <= |messages| && got == messages[..|got|]
      invariant src.data == Join(outs[|got|..])
      decreases |messages| - |got|
    {
      ghost var k := |got|;
      if k < |messages| {
        JoinFirst(outs[k..]);
        FirstMessage(outs[k], Join(outs[k + 1..]), messages[k], limit);
        assert outs[k] <= src.data && src.data[|outs[k]|..] == Join(outs[k + 1..]);
      } else {
        assert outs[k..] == [];
      }
      last := TryReadMessage(src, limit);
      if !last.Message? { break; }
      got := got + [last.segments];
    }
  }

  /** Writes a list of messages, each with an encoder of its own. */
  method WriteMessages(sink: ByteSink, messages: seq<seq<Segment>>) returns (ghost outs: seq<seq<Byte>>)
    requires sink.written == [] && forall i | 0 <= i < |messages| :: Packable(messages[i])
    modifies sink
    ensures |outs| == |messages| && sink.written == Join(outs)
    ensures forall k | 0 <= k < |outs| ::
      messages[k] != [] && Unpack(outs[k]) == Unpacked(FrameBytes(messages[k]), Clean)
  {
    hide Unpack, Packable, FrameBytes, Join;
    outs := [];
    JoinNone();
    for i := 0 to |messages|
      invariant |outs| == i && sink.written == Join(outs)
      invariant forall k | 0 <= k < i ::
        messages[k] != [] && Unpack(outs[k]) == Unpacked(FrameBytes(messages[k]), Clean)
    {
      NonEmpty(messages[i]);
      ghost var out := WriteMessage(sink, messages[i]);
      JoinSnoc(outs, out);
      outs := outs + [out];
    }
  }

  lemma JoinNone()
    ensures Join([]) == []
  {
  }

  lemma NonEmpty(segments: seq<Segment>)
    requires Packable(segments)
    ensures segments != []
  {
  }

  lemma JoinFirst(parts: seq<seq<Byte>>)
    requires parts != []
    ensures Join(parts) == parts[0] + Join(parts[1..])
  {
  }

  lemma EmptyStream(limit: Option<nat>)
    ensures Join([]) == [] && FrameOf([], limit) == NoMessage
  {
  }
}
