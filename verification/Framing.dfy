/** Stream framing of capnp-futures/src/serialize.rs: a segment table and the segments.

    Follows section "Serialization Over a Stream" of the Cap'n Proto encoding specification. */
module Framing {
  import opened Packing
  import opened Options

  type Segment = seq<Byte>

  // -------------------------------------------------- 32-bit integers

  const WORD32: nat := 0x1_0000_0000

  /** A value as 32 bits hold it. */
  function Wrap32(n: nat): (r: nat)
    ensures r < WORD32
    ensures n < WORD32 ==> r == n
  {
    n % 0x1_0000_0000
  }

  /** The little-endian bytes of a value truncated to 32 bits. */
  function Le32(n: nat): (b: seq<Byte>)
    ensures |b| == 4
  {
    [n % 256, n / 256 % 256, n / 256 / 256 % 256, n / 256 / 256 / 256 % 256]
  }

  function FromLe32(b: seq<Byte>): (n: nat)
    requires |b| == 4
    ensures n < WORD32
  {
    b[0] as int + 256 * b[1] as int + 65536 * b[2] as int + 16777216 * b[3] as int
  }

  lemma Le32RoundTrip(n: nat)
    ensures FromLe32(Le32(n)) == Wrap32(n)
  {
    var a, b, c := n / 256, n / 256 / 256, n / 256 / 256 / 256;
    var d := c / 256;
    var x := FromLe32(Le32(n));
    assert n == 0x1_0000_0000 * d + x by {
      Digit(n);
      Digit(a);
      Digit(b);
      Digit(c);
    }
    Unwrapped(n, d, x);
  }

  lemma Digit(n: nat)
    ensures n == 256 * (n / 256) + n % 256
  {
  }

  lemma Unwrapped(n: nat, d: nat, x: nat)
    requires n == 0x1_0000_0000 * d + x && x < 0x1_0000_0000
    ensures Wrap32(n) == x
  {
  }

  /** Byte `i` is digit `i` of the value to base 256, the lowest first. */
  lemma Le32Digits(n: nat)
    ensures Le32(n)[0] == n % 256 && Le32(n)[1] == n / 0x100 % 256
    ensures Le32(n)[2] == n / 0x1_0000 % 256 && Le32(n)[3] == n / 0x100_0000 % 256
    ensures n < 256 ==> Le32(n) == [n, 0, 0, 0]
  {
    assert n / 0x100 / 0x100 == n / 0x1_0000 && n / 0x1_0000 / 0x100 == n / 0x100_0000;
  }

  lemma FromLe32RoundTrip(b: seq<Byte>)
    requires |b| == 4
    ensures Le32(FromLe32(b)) == b
  {
    var n2: nat := b[2] as int + 256 * b[3] as int;
    var n1: nat := b[1] as int + 256 * n2;
    LowDigit(FromLe32(b), b[0], n1);
    LowDigit(n1, b[1], n2);
    LowDigit(n2, b[2], b[3]);
  }

  lemma LowDigit(n: nat, d: Byte, rest: nat)
    requires n == d as int + 256 * rest
    ensures n % 256 == d as int && n / 256 == rest
  {
  }

  // ------------------------------------------------ the table's format

  function Lens(lens: seq<nat>): (b: seq<Byte>)
    ensures |b| == 4 * |lens|
  {
    if lens == [] then [] else Le32(lens[0]) + Lens(lens[1..])
  }

  /** The first word of the segment table: the number of segments less one, and the size of the
      first in words. */
  function TableHead(lens: seq<nat>): (b: seq<Byte>)
    requires lens != []
    ensures |b| == 8
  {
    Le32(|lens| - 1) + Le32(lens[0])
  }

  /** The rest of it: the other sizes, and padding to a word boundary. */
  function TableRest(lens: seq<nat>): (b: seq<Byte>)
    requires lens != []
    ensures |b| == RestSize(|lens|) && 4 * (|lens| - 1) <= |b|
  {
    Lens(lens[1..]) + Padding(|lens|)
  }

  /** The padding of a table for so many segments. */
  function Padding(count: nat): seq<Byte> {
    Zeros(if count % 2 == 0 then 4 else 0)
  }

  /** The size of the table after its first word: `(count & !1) * 4`. */
  function RestSize(count: nat): (n: nat)
    ensures n % 8 == 0
  {
    4 * (count - count % 2)
  }

  function WordCounts(segments: seq<Segment>): (lens: seq<nat>)
    ensures |lens| == |segments|
  {
    seq(|segments|, i requires 0 <= i < |segments| => |segments[i]| / 8)
  }

  function Join(segments: seq<Segment>): (body: seq<Byte>) {
    if segments == [] then [] else segments[0] + Join(segments[1..])
  }

  /** A whole message on the stream. */
  function FrameBytes(segments: seq<Segment>): seq<Byte>
    requires segments != []
  {
    TableHead(WordCounts(segments)) + TableRest(WordCounts(segments)) + Join(segments)
  }

  // ------------------------------------------------------------ reading

  datatype FrameError = TooManySegments | TooFewSegments | TooLarge | PrematureEnd
  datatype Frame = NoMessage | Message(segments: seq<Segment>) | Broken(error: FrameError)

  /** The number of segments and the first segment's size, from the first word. The count is
      one more than the number on the wire, and wraps. */
  function ParseSegmentTableFirst(buf: seq<Byte>): (r: (nat, nat))
    requires |buf| == 8
    ensures r.0 < WORD32 && r.1 < WORD32
  {
    (Wrap32(FromLe32(buf[..4]) + 1), FromLe32(buf[4..]))
  }

  function DecodeLens(buf: seq<Byte>, n: nat): (lens: seq<nat>)
    requires 4 * n <= |buf|
    ensures |lens| == n
  {
    if n == 0 then [] else [FromLe32(buf[..4])] + DecodeLens(buf[4..], n - 1)
  }

  function Total(lens: seq<nat>): nat {
    if lens == [] then 0 else lens[0] + Total(lens[1..])
  }

  /** Cuts a body into segments of the given sizes in words. */
  function Split(body: seq<Byte>, lens: seq<nat>): (segments: seq<Segment>)
    requires |body| == 8 * Total(lens)
    ensures |segments| == |lens|
  {
    if lens == [] then [] else [body[..8 * lens[0]]] + Split(body[8 * lens[0]..], lens[1..])
  }

  predicate WithinLimit(lens: seq<nat>, limit: Option<nat>) {
    limit.Some? ==> Total(lens) <= limit.value
  }

  /** What a stream holds, seen as one message: nothing at all, a message, or an error. `bad` says
      that the stream breaks off with an error of its own. */
  function ReadFrame(s: seq<Byte>, bad: bool, limit: Option<nat>): Frame {
    if s == [] then (if bad then Broken(PrematureEnd) else NoMessage)
    else if |s| < 8 then Broken(PrematureEnd)
    else
      var (count, first) := ParseSegmentTableFirst(s[..8]);
      if count >= 512 then Broken(TooManySegments)
      else if count == 0 then Broken(TooFewSegments)
      else if |s| < 8 + RestSize(count) then Broken(PrematureEnd)
      else
        var lens := [first] + DecodeLens(s[8..8 + RestSize(count)], count - 1);
        if !WithinLimit(lens, limit) then Broken(TooLarge)
        else
          var body := s[8 + RestSize(count)..];
          if |body| < 8 * Total(lens) then Broken(PrematureEnd)
          else Message(Split(body[..8 * Total(lens)], lens))
  }

  // --------------------------------------------------------- round trip

  /** The sizes as 32 bits hold them. */
  function Truncated(lens: seq<nat>): (r: seq<nat>)
    ensures |r| == |lens|
  {
    if lens == [] then [] else [Wrap32(lens[0])] + Truncated(lens[1..])
  }

  lemma {:induction false} LensRoundTrip(lens: seq<nat>, pad: seq<Byte>)
    ensures DecodeLens(Lens(lens) + pad, |lens|) == Truncated(lens)
  {
    hide Le32, FromLe32, Wrap32;
    if lens == [] {
    } else {
      var head, tail := Le32(lens[0]), Lens(lens[1..]) + pad;
      Le32RoundTrip(lens[0]);
      LensRoundTrip(lens[1..], pad);
      FrontLens(lens, pad);
      FrontDecode(head, tail, |lens|);
    }
  }

  lemma FrontLens(lens: seq<nat>, pad: seq<Byte>)
    requires lens != []
    ensures Lens(lens) + pad == Le32(lens[0]) + (Lens(lens[1..]) + pad)
  {
    hide Le32;
  }

  lemma FrontDecode(head: seq<Byte>, tail: seq<Byte>, n: nat)
    requires n > 0 && |head| == 4 && 4 * (n - 1) <= |tail|
    ensures DecodeLens(head + tail, n) == [FromLe32(head)] + DecodeLens(tail, n - 1)
  {
    hide FromLe32;
    assert (head + tail)[..4] == head && (head + tail)[4..] == tail;
  }

  lemma {:induction false} TruncatedAt(lens: seq<nat>, i: nat)
    requires i < |lens|
    ensures Truncated(lens)[i] == Wrap32(lens[i])
  {
    hide Wrap32;
    if i == 0 {
    } else {
      TruncatedAt(lens[1..], i - 1);
    }
  }

  /** Sizes that fit are not truncated, and no others. */
  lemma TruncatedSame(lens: seq<nat>)
    ensures Truncated(lens) == lens <==> forall i | 0 <= i < |lens| :: lens[i] < WORD32
  {
    hide Truncated;
    forall i | 0 <= i < |lens| ensures Truncated(lens)[i] == Wrap32(lens[i]) { TruncatedAt(lens, i); }
  }

  /** Reading a written table gives the count and the sizes back, truncated to 32 bits. */
  lemma TableRoundTrip(lens: seq<nat>)
    requires 0 < |lens| < WORD32
    ensures ParseSegmentTableFirst(TableHead(lens)) == (|lens|, Wrap32(lens[0]))
    ensures [Wrap32(lens[0])] + DecodeLens(TableRest(lens), |lens| - 1) == Truncated(lens)
  {
    hide *;
    TableHeadRoundTrip(lens);
    RestRoundTrip(lens);
    TruncatedFirst(lens);
  }

  lemma TableHeadRoundTrip(lens: seq<nat>)
    requires 0 < |lens| < WORD32
    ensures ParseSegmentTableFirst(TableHead(lens)) == (|lens|, Wrap32(lens[0]))
  {
    hide Le32, ParseSegmentTableFirst, Wrap32;
    HeadRoundTrip(|lens|, lens[0]);
  }

  lemma TruncatedFirst(lens: seq<nat>)
    requires lens != []
    ensures Truncated(lens) == [Wrap32(lens[0])] + Truncated(lens[1..])
  {
    hide Wrap32;
  }

  lemma RestRoundTrip(lens: seq<nat>)
    requires lens != []
    ensures DecodeLens(TableRest(lens), |lens| - 1) == Truncated(lens[1..])
  {
    hide DecodeLens, Lens, Truncated, Padding, RestSize;
    LensRoundTrip(lens[1..], Padding(|lens|));
  }

  lemma HeadRoundTrip(count: nat, first: nat)
    requires 0 < count < WORD32
    ensures ParseSegmentTableFirst(Le32(count - 1) + Le32(first)) == (count, Wrap32(first))
  {
    hide Le32, FromLe32;
    var head := Le32(count - 1) + Le32(first);
    assert head[..4] == Le32(count - 1);
    assert head[4..] == Le32(first);
    Le32RoundTrip(count - 1);
    Le32RoundTrip(first);
  }

  /** What a reader makes of a written table and what follows it: it uses up exactly the table, and
      goes by the truncated sizes. */
  lemma ReadsTable(lens: seq<nat>, body: seq<Byte>, bad: bool, limit: Option<nat>)
    requires 0 < |lens| < WORD32
    ensures var sizes := Truncated(lens);
      ReadFrame(TableHead(lens) + TableRest(lens) + body, bad, limit) ==
      if |lens| >= 512 then Broken(TooManySegments)
      else if !WithinLimit(sizes, limit) then Broken(TooLarge)
      else if |body| < 8 * Total(sizes) then Broken(PrematureEnd)
      else Message(Split(body[..8 * Total(sizes)], sizes))
  {
    hide TableHead, TableRest, ParseSegmentTableFirst, DecodeLens, Truncated;
    hide Split, WithinLimit, Total, Wrap32, RestSize;
    TableRoundTrip(lens);
    Parts(TableHead(lens), TableRest(lens), body);
  }

  lemma Parts(head: seq<Byte>, rest: seq<Byte>, body: seq<Byte>)
    ensures var s := head + rest + body;
      s[..|head|] == head && s[|head|..|head| + |rest|] == rest && s[|head| + |rest|..] == body
  {
  }

  /** What a writer must give for its message to be readable. */
  predicate Readable(segments: seq<Segment>, limit: Option<nat>) {
    && 0 < |segments| < 512
    && (forall i | 0 <= i < |segments| :: |segments[i]| % 8 == 0 && |segments[i]| / 8 < WORD32)
    && WithinLimit(WordCounts(segments), limit)
  }

  lemma {:induction false} JoinSize(segments: seq<Segment>)
    requires forall i | 0 <= i < |segments| :: |segments[i]| % 8 == 0
    ensures |Join(segments)| == 8 * Total(WordCounts(segments))
  {
    if segments == [] {
    } else {
      JoinSize(segments[1..]);
      assert WordCounts(segments)[1..] == WordCounts(segments[1..]);
    }
  }

  lemma {:induction false} SplitJoin(segments: seq<Segment>)
    requires forall i | 0 <= i < |segments| :: |segments[i]| % 8 == 0
    ensures |Join(segments)| == 8 * Total(WordCounts(segments))
    ensures Split(Join(segments), WordCounts(segments)) == segments
  {
    JoinSize(segments);
    if segments == [] {
    } else {
      var first, rest, lens := segments[0], segments[1..], WordCounts(segments);
      SplitJoin(rest);
      assert lens[1..] == WordCounts(rest) && 8 * lens[0] == |first|;
      assert Join(segments) == first + Join(rest);
      assert (first + Join(rest))[..|first|] == first && (first + Join(rest))[|first|..] == Join(rest);
      assert Split(Join(segments), lens) == [first] + Split(Join(rest), lens[1..]);
      hide Split, Join, Total, WordCounts;
      assert segments == [first] + rest;
    }
  }

  lemma {:induction false} SplitSizes(body: seq<Byte>, lens: seq<nat>, i: nat)
    requires |body| == 8 * Total(lens) && i < |lens|
    ensures |Split(body, lens)[i]| == 8 * lens[i]
  {
    if i == 0 {
    } else {
      SplitSizes(body[8 * lens[0]..], lens[1..], i - 1);
    }
  }

  lemma {:induction false} JoinSplit(body: seq<Byte>, lens: seq<nat>)
    requires |body| == 8 * Total(lens)
    ensures Join(Split(body, lens)) == body
  {
    if lens == [] {
    } else {
      JoinSplit(body[8 * lens[0]..], lens[1..]);
    }
  }

  /** How much of a stream a message takes up. */
  function FrameSize(segments: seq<Segment>): nat {
    8 + RestSize(|segments|) + |Join(segments)|
  }

  /** The round trip: what was written is read back as it was, whatever follows on the stream,
      exactly when there are between 1 and 511 word-aligned segments, each size fits in 32 bits, and
      the total is within the reader's limit. */
  lemma FrameRoundTrip(segments: seq<Segment>, more: seq<Byte>, bad: bool, limit: Option<nat>)
    requires 0 < |segments| < WORD32
    ensures ReadFrame(FrameBytes(segments) + more, bad, limit) == Message(segments) <==> Readable(segments, limit)
  {
    hide ReadFrame, TableHead, TableRest, Truncated, Split, Join, Total;
    var lens := WordCounts(segments);
    var sizes := Truncated(lens);
    var table := TableHead(lens) + TableRest(lens);
    assert table + Join(segments) + more == table + (Join(segments) + more);
    ReadsTable(lens, Join(segments) + more, bad, limit);
    TruncatedSame(lens);
    if Readable(segments, limit) {
      SplitJoin(segments);
      assert (Join(segments) + more)[..8 * Total(lens)] == Join(segments);
    }
    if ReadFrame(FrameBytes(segments) + more, bad, limit) == Message(segments) {
      var body := (Join(segments) + more)[..8 * Total(sizes)];
      forall i | 0 <= i < |segments| ensures |segments[i]| % 8 == 0 && |segments[i]| / 8 < WORD32 {
        SplitSizes(body, sizes, i);
        TruncatedAt(lens, i);
        assert segments[i] == Split(body, sizes)[i];
      }
    }
  }

  // ------------------------------------------------------------ the code

  lemma {:induction false} LensSnoc(lens: seq<nat>, n: nat)
    ensures Lens(lens + [n]) == Lens(lens) + Le32(n)
  {
    hide Le32;
    if lens == [] {
      assert lens + [n] == [n] && [n][1..] == [];
      assert Lens([n]) == Le32(n) + Lens([]) == Le32(n);
    } else {
      assert (lens + [n])[1..] == lens[1..] + [n];
      LensSnoc(lens[1..], n);
    }
  }

  lemma {:induction false} DecodeSnoc(buf: seq<Byte>, n: nat)
    requires 4 * n + 4 <= |buf|
    ensures DecodeLens(buf, n + 1) == DecodeLens(buf, n) + [FromLe32(buf[4 * n..4 * n + 4])]
  {
    hide FromLe32;
    if n == 0 {
      assert DecodeLens(buf, 1) == [FromLe32(buf[..4])] + DecodeLens(buf[4..], 0);
    } else {
      var k := 4 * n;
      DecodeSnoc(buf[4..], n - 1);
      assert 4 * (n - 1) == k - 4 && buf[4..][k - 4..k] == buf[k..k + 4];
      assert DecodeLens(buf, n + 1) == [FromLe32(buf[..4])] + DecodeLens(buf[4..], n);
      assert DecodeLens(buf, n) == [FromLe32(buf[..4])] + DecodeLens(buf[4..], n - 1);
    }
  }

  /** Stores a 32-bit size at a position of a buffer. */
  method PutLe32(buf: array<Byte>, pos: nat, n: nat)
    requires pos + 4 <= buf.Length
    modifies buf
    ensures buf[..pos] == old(buf[..pos]) && buf[pos..pos + 4] == Le32(n)
    ensures buf[pos + 4..] == old(buf[pos + 4..])
  {
    var b := Le32(n);
    buf[pos], buf[pos + 1], buf[pos + 2], buf[pos + 3] := b[0], b[1], b[2], b[3];
  }

  /** Stores the sizes of all segments but the first at the front of a buffer. */
  method PutSizes(buf: array<Byte>, segments: seq<Segment>)
    requires segments != [] && 4 * (|segments| - 1) <= buf.Length
    modifies buf
    ensures buf[..4 * (|segments| - 1)] == Lens(WordCounts(segments)[1..])
    ensures buf[4 * (|segments| - 1)..] == old(buf[4 * (|segments| - 1)..])
  {
    hide Le32, Lens;
    ghost var lens := WordCounts(segments);
    ghost var end := 4 * (|segments| - 1);
    assert buf[..0] == Lens(lens[1..1]) by { assert lens[1..1] == []; NoLens(); }
    for idx := 1 to |segments|
      invariant buf[..4 * (idx - 1)] == Lens(lens[1..idx])
      invariant buf[end..] == old(buf[end..])
    {
      label before:
      LensSnoc(lens[1..idx], lens[idx]);
      assert lens[1..idx + 1] == lens[1..idx] + [lens[idx]];
      PutLe32(buf, 4 * (idx - 1), |segments[idx]| / 8);
      assert buf[..4 * idx] == buf[..4 * (idx - 1)] + buf[4 * (idx - 1)..4 * idx];
      assert buf[end..] == buf[4 * idx..][end - 4 * idx..] == old@before(buf[4 * idx..])[end - 4 * idx..];
    }
    assert lens[1..|segments|] == lens[1..];
  }

  lemma NoLens()
    ensures Lens([]) == []
  {
  }

  /** Builds the segment table, in the two buffers that are written one after the other. */
  method WriteSegmentTable(segments: seq<Segment>) returns (head: seq<Byte>, rest: seq<Byte>)
    requires segments != []
    ensures head == TableHead(WordCounts(segments))
    ensures rest == TableRest(WordCounts(segments))
  {
    hide Le32, Lens;
    var buf := new Byte[8](_ => 0);
    var count := |segments|;
    PutLe32(buf, 0, count - 1);
    PutLe32(buf, 4, |segments[0]| / 8);
    head := buf[..];
    assert head == buf[..4] + buf[4..8];
    rest := [];
    if count > 1 {
      if count < 4 {
        PutSizes(buf, segments);
        if count == 2 {
          buf[4], buf[5], buf[6], buf[7] := 0, 0, 0, 0;
        }
        rest := buf[..];
        assert count == 2 ==> rest == buf[..4] + Zeros(4);
        assert count == 3 ==> rest == buf[..8] + Zeros(0);
      } else {
        var sizes := new Byte[RestSize(count)](_ => 0);
        PutSizes(sizes, segments);
        if count % 2 == 0 {
          for idx := sizes.Length - 4 to sizes.Length
            invariant sizes[..sizes.Length - 4] == Lens(WordCounts(segments)[1..])
            invariant forall i | sizes.Length - 4 <= i < idx :: sizes[i] == 0
          {
            sizes[idx] := 0;
          }
          assert sizes[sizes.Length - 4..] == Zeros(4);
          assert sizes[..] == sizes[..sizes.Length - 4] + sizes[sizes.Length - 4..];
        }
        rest := sizes[..];
        assert count % 2 == 1 ==> rest == sizes[..sizes.Length] + Zeros(0);
      }
    } else {
      assert WordCounts(segments)[1..] == [];
      NoLens();
    }
  }

  /** Reads `n` sizes off a buffer. */
  method ReadSizes(buf: seq<Byte>, n: nat) returns (lens: seq<nat>)
    requires 4 * n <= |buf|
    ensures lens == DecodeLens(buf, n)
  {
    hide FromLe32;
    lens := [];
    for idx := 0 to n
      invariant lens == DecodeLens(buf, idx)
    {
      DecodeSnoc(buf, idx);
      lens := lens + [FromLe32(buf[idx * 4..(idx + 1) * 4])];
    }
  }
}
