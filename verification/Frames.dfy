/** What a reader makes of any bytes whatever, in terms of the format alone: which of them hold a message, and which
    error the others are. */
module Frames {
  import opened Packing
  import opened Options
  import opened Framing

  predicate AreSizes(lens: seq<nat>) {
    0 < |lens| < 512 && forall i | 0 <= i < |lens| :: lens[i] < WORD32
  }

  /** The stream begins with a segment table of these sizes, with whatever padding. */
  predicate HasTable(s: seq<Byte>, lens: seq<nat>) {
    && AreSizes(lens) && |s| >= 8 + RestSize(|lens|)
    && s[..4 + 4 * |lens|] == Le32(|lens| - 1) + Lens(lens)
  }

  /** The stream begins with this message. */
  predicate Begins(s: seq<Byte>, segments: seq<Segment>) {
    && HasTable(s, WordCounts(segments)) && |s| >= FrameSize(segments)
    && s[8 + RestSize(|segments|)..FrameSize(segments)] == Join(segments)
  }

  // ------------------------------------------------------------------ tables

  lemma {:induction false} LensDecoded(buf: seq<Byte>, n: nat)
    requires 4 * n <= |buf|
    ensures Lens(DecodeLens(buf, n)) == buf[..4 * n]
    ensures forall i | 0 <= i < n :: DecodeLens(buf, n)[i] < WORD32
  {
    hide Le32, FromLe32;
    if n == 0 {
    } else {
      LensDecoded(buf[4..], n - 1);
      FromLe32RoundTrip(buf[..4]);
      var first, rest, k := FromLe32(buf[..4]), DecodeLens(buf[4..], n - 1), 4 * n;
      assert DecodeLens(buf, n) == [first] + rest;
      hide DecodeLens;
      SizesLens(first, rest);
      hide Lens;
      assert buf[4..][..4 * (n - 1)] == buf[4..k];
      assert buf[..4] + buf[4..k] == buf[..k];
    }
  }

  /** The sizes that the reader finds are those of a table that is there. */
  lemma TableFound(s: seq<Byte>)
    requires |s| >= 8
    ensures var (count, first) := ParseSegmentTableFirst(s[..8]);
      0 < count < 512 && |s| >= 8 + RestSize(count) ==>
      HasTable(s, [first] + DecodeLens(s[8..8 + RestSize(count)], count - 1))
  {
    hide Le32, FromLe32, DecodeLens, Lens;
    var (count, first) := ParseSegmentTableFirst(s[..8]);
    if 0 < count < 512 && |s| >= 8 + RestSize(count) {
      assert s[..8][..4] == s[..4] && s[..8][4..] == s[4..8];
      CountOnWire(FromLe32(s[..4]));
      FromLe32RoundTrip(s[..4]);
      FromLe32RoundTrip(s[4..8]);
      var buf := s[8..8 + RestSize(count)];
      LensDecoded(buf, count - 1);
      SizesLens(first, DecodeLens(buf, count - 1));
      TableParts(s, count);
    }
  }

  lemma CountOnWire(wire: nat)
    requires wire < WORD32
    ensures Wrap32(wire + 1) == if wire == 0xFFFF_FFFF then 0 else wire + 1
  {
  }

  lemma SizesLens(first: nat, rest: seq<nat>)
    ensures Lens([first] + rest) == Le32(first) + Lens(rest)
  {
    hide Le32;
    assert ([first] + rest)[1..] == rest;
  }

  lemma TableParts(s: seq<Byte>, count: nat)
    requires 0 < count && |s| >= 8 + RestSize(count)
    ensures 4 * (count - 1) <= RestSize(count)
    ensures s[..4 + 4 * count] == s[..4] + (s[4..8] + s[8..8 + RestSize(count)][..4 * (count - 1)])
  {
  }

  /** A table that is there is found, with its sizes. */
  lemma TableIsFound(s: seq<Byte>, lens: seq<nat>)
    requires HasTable(s, lens)
    ensures ParseSegmentTableFirst(s[..8]) == (|lens|, lens[0])
    ensures [lens[0]] + DecodeLens(s[8..8 + RestSize(|lens|)], |lens| - 1) == lens
  {
    hide *;
    var end := TableEnd(s, lens);
    TableHeadIs(s, lens);
    HeadRoundTrip(|lens|, lens[0]);
    FirstFits(s, lens);
    SizesFound(lens[1..], s[4 + 4 * |lens|..end]);
    assert [lens[0]] + lens[1..] == lens;
  }

  lemma TableEnd(s: seq<Byte>, lens: seq<nat>) returns (end: nat)
    requires HasTable(s, lens)
    ensures end == 8 + RestSize(|lens|) && 8 <= 4 + 4 * |lens| <= end <= |s| && 0 < |lens| < WORD32
  {
    TableParts(s, |lens|);
    end := 8 + RestSize(|lens|);
  }

  lemma FirstFits(s: seq<Byte>, lens: seq<nat>)
    requires HasTable(s, lens)
    ensures lens != [] && Wrap32(lens[0]) == lens[0] && forall i | 0 <= i < |lens| - 1 :: lens[1..][i] < WORD32
  {
  }

  lemma TableHeadIs(s: seq<Byte>, lens: seq<nat>)
    requires HasTable(s, lens)
    ensures lens != [] && 4 + 4 * |lens| <= 8 + RestSize(|lens|) <= |s|
    ensures s[..8] == Le32(|lens| - 1) + Le32(lens[0])
    ensures s[8..8 + RestSize(|lens|)] == Lens(lens[1..]) + s[4 + 4 * |lens|..8 + RestSize(|lens|)]
  {
    hide Le32, Lens, RestSize;
    var end := TableEnd(s, lens);
    SizesLens(lens[0], lens[1..]);
    assert [lens[0]] + lens[1..] == lens;
    HeadParts(s, Le32(|lens| - 1), Le32(lens[0]), Lens(lens[1..]), end);
  }

  lemma SizesFound(lens: seq<nat>, pad: seq<Byte>)
    requires forall i | 0 <= i < |lens| :: lens[i] < WORD32
    ensures DecodeLens(Lens(lens) + pad, |lens|) == lens
  {
    hide DecodeLens, Lens, Truncated;
    LensRoundTrip(lens, pad);
    TruncatedSame(lens);
  }

  lemma HeadParts(s: seq<Byte>, a: seq<Byte>, b: seq<Byte>, c: seq<Byte>, end: nat)
    requires |a| == |b| == 4 && 8 + |c| <= end <= |s| && s[..8 + |c|] == a + (b + c)
    ensures s[..8] == a + b && s[8..end] == c + s[8 + |c|..end]
  {
    var head := s[..8 + |c|];
    assert s[..8] == head[..8] && s[8..8 + |c|] == head[8..];
    assert s[8..end] == s[8..8 + |c|] + s[8 + |c|..end];
  }

  // ----------------------------------------------------------------- messages

  lemma SplitCounts(body: seq<Byte>, lens: seq<nat>)
    requires |body| == 8 * Total(lens)
    ensures WordCounts(Split(body, lens)) == lens
    ensures forall i | 0 <= i < |lens| :: |Split(body, lens)[i]| == 8 * lens[i]
  {
    hide Split, Total;
    forall i | 0 <= i < |lens| ensures |Split(body, lens)[i]| == 8 * lens[i] { SplitSizes(body, lens, i); }
  }

  lemma MessageIsThere(s: seq<Byte>, bad: bool, limit: Option<nat>)
    requires ReadFrame(s, bad, limit).Message?
    ensures var segments := ReadFrame(s, bad, limit).segments; Readable(segments, limit) && Begins(s, segments)
  {
    hide Split, Join, Total, Le32, Lens, DecodeLens, ParseSegmentTableFirst, RestSize;
    TableFound(s);
    var (count, first) := ParseSegmentTableFirst(s[..8]);
    var end := 8 + RestSize(count);
    TableParts(s, count);
    var lens := [first] + DecodeLens(s[8..end], count - 1);
    var body := s[end..][..8 * Total(lens)];
    SplitCounts(body, lens);
    JoinSplit(body, lens);
    assert s[end..end + 8 * Total(lens)] == body;
  }

  lemma MessageIsRead(s: seq<Byte>, bad: bool, limit: Option<nat>, segments: seq<Segment>)
    requires Readable(segments, limit) && Begins(s, segments)
    ensures ReadFrame(s, bad, limit) == Message(segments)
  {
    hide Split, Join, Total, Le32, Lens, DecodeLens, ParseSegmentTableFirst, RestSize;
    var lens, end := WordCounts(segments), 8 + RestSize(|segments|);
    SplitJoin(segments);
    assert s[end..][..8 * Total(lens)] == s[end..FrameSize(segments)] == Join(segments);
    TableIsFound(s, lens);
  }

  /** A message is read exactly when one is there that the reader accepts, and it is that one. */
  lemma MessageIff(s: seq<Byte>, bad: bool, limit: Option<nat>, segments: seq<Segment>)
    ensures ReadFrame(s, bad, limit) == Message(segments) <==> Readable(segments, limit) && Begins(s, segments)
  {
    hide ReadFrame, Readable, Begins;
    if ReadFrame(s, bad, limit) == Message(segments) { MessageIsThere(s, bad, limit); }
    if Readable(segments, limit) && Begins(s, segments) { MessageIsRead(s, bad, limit, segments); }
  }

  // ------------------------------------------------------------------- errors

  /** Nothing is read exactly when there is nothing. */
  lemma NoMessageIff(s: seq<Byte>, bad: bool, limit: Option<nat>)
    ensures ReadFrame(s, bad, limit) == NoMessage <==> s == [] && !bad
  {
    hide DecodeLens, Split, Total, ParseSegmentTableFirst;
  }

  /** Too many segments are 512 or more, too few are 2^32, which no count can say. */
  lemma CountErrorIff(s: seq<Byte>, bad: bool, limit: Option<nat>)
    ensures ReadFrame(s, bad, limit) == Broken(TooManySegments) <==>
      |s| >= 8 && 511 <= FromLe32(s[..4]) < 0xFFFF_FFFF
    ensures ReadFrame(s, bad, limit) == Broken(TooFewSegments) <==>
      |s| >= 8 && FromLe32(s[..4]) == 0xFFFF_FFFF
  {
    hide DecodeLens, Split, Total, FromLe32;
    if |s| >= 8 {
      assert s[..8][..4] == s[..4];
      CountOnWire(FromLe32(s[..4]));
    }
  }

  /** Too large is a table whose sizes are over the limit. */
  lemma TooLargeIff(s: seq<Byte>, bad: bool, limit: Option<nat>)
    ensures ReadFrame(s, bad, limit) == Broken(TooLarge) <==>
      limit.Some? && exists lens: seq<nat> :: HasTable(s, lens) && Total(lens) > limit.value
  {
    hide DecodeLens, Split, Total, ParseSegmentTableFirst, HasTable;
    if ReadFrame(s, bad, limit) == Broken(TooLarge) {
      TableFound(s);
    }
    if limit.Some? && exists lens: seq<nat> :: HasTable(s, lens) && Total(lens) > limit.value {
      var lens: seq<nat> :| HasTable(s, lens) && Total(lens) > limit.value;
      TableSize(s, lens);
      TableIsFound(s, lens);
    }
  }

  lemma TableSize(s: seq<Byte>, lens: seq<nat>)
    requires HasTable(s, lens)
    ensures 0 < |lens| < 512 && |s| >= 8 + RestSize(|lens|)
  {
  }

  /** A message that has not come in whole is a premature end, wherever it is cut. */
  lemma CutIsPremature(s: seq<Byte>, more: seq<Byte>, bad: bool, bad': bool, limit: Option<nat>)
    requires s != [] && ReadFrame(s + more, bad', limit).Message?
    ensures var whole := ReadFrame(s + more, bad', limit);
      ReadFrame(s, bad, limit) == if |s| < FrameSize(whole.segments) then Broken(PrematureEnd) else whole
  {
    hide DecodeLens, Split, Total, ParseSegmentTableFirst, Join;
    if |s| >= 8 {
      var all := s + more;
      assert all[..8] == s[..8];
      var (count, first) := ParseSegmentTableFirst(s[..8]);
      var end := 8 + RestSize(count);
      var lens := [first] + DecodeLens(all[8..end], count - 1);
      var size := 8 * Total(lens);
      JoinSplit(all[end..][..size], lens);
      if |s| >= end {
        assert all[8..end] == s[8..end];
        if |s| >= end + size { assert all[end..][..size] == s[end..][..size]; }
      }
    } else {
      WholeIsLong(s + more, bad', limit);
    }
  }

  lemma FrameLength(segments: seq<Segment>)
    requires segments != []
    ensures |FrameBytes(segments)| == FrameSize(segments)
  {
    hide TableHead, TableRest, Join;
  }

  /** Every beginning of a written message, but the whole and the empty one, is a premature end. */
  lemma PrefixIsPremature(segments: seq<Segment>, part: seq<Byte>, bad: bool, limit: Option<nat>)
    requires segments != [] && Readable(segments, limit) && part != [] && part < FrameBytes(segments)
    ensures ReadFrame(part, bad, limit) == Broken(PrematureEnd)
  {
    hide ReadFrame, FrameBytes;
    var all := FrameBytes(segments);
    var more := all[|part|..];
    assert part + more == all && all + [] == all;
    FrameRoundTrip(segments, [], false, limit);
    FrameLength(segments);
    CutIsPremature(part, more, bad, false, limit);
  }

  lemma WholeIsLong(s: seq<Byte>, bad: bool, limit: Option<nat>)
    requires ReadFrame(s, bad, limit).Message?
    ensures FrameSize(ReadFrame(s, bad, limit).segments) >= 8
  {
    hide DecodeLens, Split, Total, ParseSegmentTableFirst, Join;
  }
}
