/** `PackedRead`: the resumable decoder of capnp-futures/src/serialize_packed.rs, proved
    against `Packing.Unpack` for every schedule of its inner stream. */
module PackedRead {
  import opened Packing
  import opened Streams
  import opened Options

  datatype Stage = Start | WritingZeroes | BufferingWord | DrainingBuffer | WritingPassthrough

  /** The demand the framing layer makes: something, and up to a word boundary. */
  predicate WordDemand(emitted: nat, room: nat) {
    room > 0 && (emitted + room) % 8 == 0
  }

  class Reader {
    const src: ByteSource
    var stage: Stage
    const buf: array<Byte>
    var bufPos: nat
    var bufSize: nat
    var numRun: nat

    // The whole packed stream; the code units finished so far; what has been taken
    // of the current one; and everything handed out.
    ghost const input: seq<Byte>
    ghost var done: seq<Byte>
    ghost var unit: seq<Byte>
    ghost var emitted: seq<Byte>

    /** What keeps every index and slice in range, for any demand whatever. */
    ghost predicate Shape()
      reads this, buf
    {
      && buf.Length == 10
      && match stage {
           case Start => bufPos < 2
           case WritingZeroes => numRun > 0
           case BufferingWord => buf[0] != 0 && bufSize == HeadSize(buf[0]) && 2 <= bufPos < bufSize
           case DrainingBuffer => buf[0] != 0 && bufSize == HeadSize(buf[0]) && 1 <= bufPos <= 8
           case WritingPassthrough => bufPos == 0
         }
    }

    /** What ties the stage to the meaning of the stream. */
    ghost predicate Exact()
      requires Shape()
      reads this, buf, src
    {
      && input == done + unit + src.data
      && Unpack(done).end.Clean?
      && match stage {
           case Start => unit == buf[..bufPos] && emitted == Unpack(done).bytes
           case WritingZeroes =>
             && |unit| == 2 && unit[0] == 0
             && numRun <= 8 + RunBytes(unit[1])
             && emitted == Unpack(done).bytes + Zeros(8 + RunBytes(unit[1]) - numRun)
           case BufferingWord => unit == buf[..bufPos] && emitted == Unpack(done).bytes
           case DrainingBuffer => bufPos == 1 && unit == buf[..bufSize] && emitted == Unpack(done).bytes
           case WritingPassthrough =>
             && |unit| >= 10 && unit[0] == 255
             && numRun + |unit| == 10 + RunBytes(unit[9])
             && emitted == Unpack(done).bytes + unit[1..9] + unit[10..]
         }
    }

    /** Between polls that handed something out: no byte of a code unit is taken early. */
    ghost predicate Settled()
      reads this
    {
      match stage {
        case Start => bufPos == 0
        case WritingZeroes => |unit| == 2 && numRun < 8 + RunBytes(unit[1])
        case WritingPassthrough => true
        case _ => false
      }
    }

    constructor (src: ByteSource)
      ensures this.src == src && fresh(buf) && input == src.data && emitted == []
      ensures Shape() && Exact() && Settled()
    {
      this.src := src;
      stage := Start;
      buf := new Byte[10](_ => 0);
      bufPos := 0;
      bufSize := 10;
      numRun := 0;
      input := src.data;
      done, unit, emitted := [], [], [];
    }

    /** Polls the inner stream for up to `upTo - bufPos` bytes, straight into the buffer. */
    method Fill(upTo: nat) returns (p: ReadPoll)
      requires buf.Length == 10 && bufPos < upTo <= 10
      modifies this`bufPos, this`unit, buf, src
      ensures !p.ReadFailed?
      ensures p.ReadPending? ==> src.data == old(src.data) && src.stalls < old(src.stalls)
      ensures p.ReadReady? ==> old(src.data) == p.bytes + src.data && src.stalls == old(src.stalls)
      ensures p.ReadReady? && p.bytes == [] ==> src.data == []
      ensures buf[..old(bufPos)] == old(buf[..bufPos])
      ensures bufPos <= upTo
      ensures if p.ReadReady?
              then
                && bufPos == old(bufPos) + |p.bytes| && buf[..bufPos] == old(buf[..bufPos]) + p.bytes
                && unit == old(unit) + p.bytes
              else bufPos == old(bufPos) && unit == old(unit)
    {
      p := src.PollRead(upTo - bufPos);
      if p.ReadReady? {
        for i := 0 to |p.bytes|
          invariant buf[..bufPos + i] == old(buf[..bufPos]) + p.bytes[..i]
          modifies buf
        {
          buf[bufPos + i] := p.bytes[i];
        }
        bufPos := bufPos + |p.bytes|;
        unit := unit + p.bytes;
        assert buf[..old(bufPos)] == buf[..bufPos][..old(bufPos)];
      }
    }

    /** Takes the tag and the byte after it, and decides what kind of code unit follows. */
    method PollStart() returns (r: Option<ReadPoll>)
      requires Shape() && stage == Start
      modifies this, buf, src
      ensures Shape() && emitted == old(emitted) && stage != WritingPassthrough && |src.data| <= |old(src.data)|
      ensures r.None? ==> |src.data| < |old(src.data)| && src.stalls == old(src.stalls)
      ensures r.Some? ==> stage == Start
      ensures r.Some? && r.value.ReadPending? ==> src.stalls < old(src.stalls)
      ensures r.Some? && !r.value.ReadPending? ==>
        r.value == ReadReady([]) && src.data == [] && src.stalls == old(src.stalls)
      ensures old(Exact()) ==> Exact()
    {
      hide Unpack, Ones, HeadSize;
      var p := Fill(2);
      if p.ReadPending? || p.bytes == [] { return Some(p); }
      if bufPos >= 2 {
        if buf[0] == 0 {
          stage := WritingZeroes;
          numRun := 8 * (buf[1] as int + 1);
        } else {
          stage := BufferingWord;
          bufSize := HeadSize(buf[0]);
          if bufPos >= bufSize {
            stage := DrainingBuffer;
            bufPos := 1;
          }
        }
      }
      return None;
    }

    /** Hands out zeroes of a run. */
    method PollZeroes(room: nat) returns (r: ReadPoll)
      requires Shape() && stage == WritingZeroes
      modifies this
      ensures Shape()
      ensures r.ReadReady? && |r.bytes| <= room && emitted == old(emitted) + r.bytes
      ensures r.bytes == Zeros(if room < old(numRun) then room else old(numRun)) && (room > 0 ==> r.bytes != [])
      ensures stage == if room < old(numRun) then WritingZeroes else Start
      ensures old(Exact()) && room > 0 ==> Exact() && Settled()
    {
      hide Unpack;
      var n := if room < numRun then room else numRun;
      r := ReadReady(Zeros(n));
      emitted := emitted + r.bytes;
      if n >= numRun {
        ghost var ok := old(Exact());
        if ok { UnitDone(done, unit); }
        done, unit := done + unit, [];
        bufPos := 0;
        stage := Start;
      } else {
        numRun := numRun - n;
      }
    }

    /** Collects the rest of a word. */
    method PollBuffering() returns (r: Option<ReadPoll>)
      requires Shape() && stage == BufferingWord
      modifies this, buf, src
      ensures Shape() && emitted == old(emitted) && stage != WritingPassthrough && |src.data| <= |old(src.data)|
      ensures r.None? ==> |src.data| < |old(src.data)| && src.stalls == old(src.stalls)
      ensures r.Some? ==> stage == BufferingWord
      ensures r.Some? && r.value.ReadPending? ==> src.stalls < old(src.stalls)
      ensures r.Some? && !r.value.ReadPending? ==>
        r.value == ReadFailed && src.data == [] && src.stalls == old(src.stalls)
      ensures old(Exact()) ==> Exact()
    {
      hide Unpack, Ones, HeadSize;
      var p := Fill(bufSize);
      assert buf[0] == buf[..old(bufPos)][0] == old(buf[..bufPos])[0];
      if p.ReadPending? { return Some(p); }
      if p.bytes == [] { return Some(ReadFailed); }
      if bufPos >= bufSize {
        stage := DrainingBuffer;
        bufPos := 1;
      }
      return None;
    }

    /** What the rest of a buffered word comes out as: the bit number is taken from the buffer position, so this
        is the rest of the word only if the drain starts at its first byte, or has skipped no zero byte. */
    ghost function Remaining(): (rest: seq<Byte>)
      requires Shape() && stage == DrainingBuffer
      reads this, buf
      ensures |rest| == 9 - bufPos
    {
      OnesAtMost(Shr(buf[0], bufPos - 1), 9 - bufPos);
      Spread(Shr(buf[0], bufPos - 1), 9 - bufPos, buf[bufPos..])
    }

    /** Hands out the bytes of a buffered word, as many as there is room for. */
    method DrainBuffer(room: nat) returns (r: ReadPoll)
      requires Shape() && stage == DrainingBuffer
      modifies this
      ensures Shape()
      ensures r.ReadReady? && |r.bytes| <= room && emitted == old(emitted) + r.bytes
      ensures room > 0 ==> r.bytes != []
      ensures var rest := old(Remaining()); r.bytes == if room < |rest| then rest[..room] else rest
      ensures room < 9 - old(bufPos) ==>
        stage == DrainingBuffer && bufPos == old(bufPos) + Ones(Shr(buf[0], old(bufPos) - 1), room)
      ensures room >= 9 - old(bufPos) ==> stage != DrainingBuffer
      ensures room >= 8 ==> Settled()
      ensures old(Exact()) && room >= 8 ==> Exact()
    {
      hide Unpack, Spread, Ones, Shr, Bit;
      BufferedWord(buf[..]);
      assert buf[..][1..] == buf[1..] && buf[..][..bufSize] == buf[..bufSize];
      if bufPos == 1 { WholeWord(); }
      var out, bitnum := DrainBits(room);
      r := ReadReady(out);
      emitted := emitted + out;
      if bitnum == 8 {
        if bufPos == bufSize {
          if old(Exact()) && room >= 8 { UnitDone(done, unit); }
          done, unit := done + unit, [];
          stage := Start;
        } else {
          numRun := RunBytes(buf[bufPos]);
          stage := WritingPassthrough;
        }
        bufPos := 0;
      }
    }

    lemma WholeWord()
      requires Shape() && stage == DrainingBuffer && bufPos == 1
      ensures Shr(buf[0], 0) == buf[0] && Ones(buf[0], 8) <= 9 && Remaining() == Spread(buf[0], 8, buf[1..])
    {
      OnesAtMost(buf[0], 8);
      assert Shr(buf[0], 0) == buf[0];
    }

    /** The bit loop: hands out one byte per bit of the tag, from the bit number that the buffer
        position suggests. */
    method DrainBits(room: nat) returns (out: seq<Byte>, bitnum: nat)
      requires Shape() && stage == DrainingBuffer
      modifies `bufPos
      ensures |out| <= room && bitnum == old(bufPos) - 1 + |out| <= 8 && 1 <= bufPos <= bitnum + 1
      ensures |out| == room || bitnum == 8
      ensures bufPos == old(bufPos) + Ones(Shr(buf[0], old(bufPos) - 1), |out|)
      ensures out == old(Remaining())[..|out|]
    {
      hide Spread, Ones, Shr, Bit;
      bitnum := bufPos - 1;
      out := [];
      ghost var b0, data := bufPos - 1, buf[bufPos..];
      ghost var tag, k := Shr(buf[0], b0), 8 - b0;
      NoOnes(tag);
      OnesAtMost(tag, k);
      ghost var rest := Spread(tag, k, data);
      while |out| < room && bitnum < 8
        invariant b0 <= bitnum <= 8 && 1 <= bufPos <= bitnum + 1
        invariant |out| <= room && bitnum == b0 + |out|
        invariant bufPos == b0 + 1 + Ones(tag, |out|)
        invariant out == rest[..|out|]
        modifies `bufPos
      {
        ghost var i := |out|;
        SpreadAt(tag, k, data, i);
        OnesStep(tag, i);
        BitShr(buf[0], b0, i);
        var isNonzero := Bit(buf[0], bitnum);
        out := out + [if isNonzero then buf[bufPos] else 0];
        if isNonzero { bufPos := bufPos + 1; }
        bitnum := bitnum + 1;
      }
    }

    /** Forwards uncompressed words straight from the inner stream. */
    method PollPassthrough(room: nat) returns (r: Option<ReadPoll>)
      requires Shape() && stage == WritingPassthrough
      modifies this, src
      ensures Shape() && src.stalls <= old(src.stalls)
      ensures |src.data| <= |old(src.data)|
      ensures r.None? ==>
        stage == Start && emitted == old(emitted) && src.data == old(src.data) && src.stalls == old(src.stalls)
      ensures r.Some? ==> !r.value.ReadFailed? && Settled()
      ensures r.Some? && r.value.ReadPending? ==> src.stalls < old(src.stalls) && emitted == old(emitted)
      ensures r.Some? && r.value.ReadReady? ==>
        |r.value.bytes| <= room && emitted == old(emitted) + r.value.bytes && src.stalls == old(src.stalls)
      ensures r == Some(ReadReady([])) ==> src.data == [] && stage == WritingPassthrough && numRun > 0
      ensures r.None? <==> old(numRun) == 0 || room == 0
      ensures old(Exact()) && room > 0 ==> Exact()
    {
      hide Unpack, Spread, Ones, UnitSize, UnitBytes;
      var bound := if numRun < room then numRun else room;
      if bound == 0 {
        EndRun(Exact() && room > 0);
        return None;
      }
      var p := src.PollRead(bound);
      if p.ReadPending? || p.bytes == [] { return Some(p); }
      RunGrows(Unpack(done).bytes, if |unit| >= 10 then unit else buf[..], p.bytes);
      unit := unit + p.bytes;
      emitted := emitted + p.bytes;
      numRun := numRun - |p.bytes|;
      if numRun == 0 { EndRun(old(Exact()) && room > 0); }
      return Some(p);
    }

    /** Leaves a run: its code unit is complete, if all of it was forwarded. */
    method EndRun(ghost ok: bool)
      requires Shape() && stage == WritingPassthrough && (ok ==> Exact() && numRun == 0)
      modifies `done, `unit, `stage
      ensures Shape() && stage == Start && bufPos == 0
      ensures ok ==> Exact()
    {
      hide Unpack, Spread, Ones, UnitSize, UnitBytes;
      if ok { RunUnit(unit); UnitDone(done, unit); }
      done, unit := done + unit, [];
      stage := Start;
    }

    /** One poll. For any demand the reader stays in shape, and the poll ends as soon as the inner
        stream stops making progress. For word-aligned demand it hands out exactly the next
        bytes the packed stream means; nothing when, and only when, the stream is over;
        and an error exactly when the stream stops inside a word. */
    method PollRead(room: nat) returns (r: ReadPoll)
      requires Shape()
      modifies this, buf, src
      ensures Shape()
      ensures |src.data| <= |old(src.data)| && src.stalls <= old(src.stalls)
      ensures r.ReadPending? ==> src.stalls < old(src.stalls)
      ensures if r.ReadReady? then |r.bytes| <= room && emitted == old(emitted) + r.bytes else emitted == old(emitted)
      ensures old(Exact()) && WordDemand(|old(emitted)|, room) ==>
        && Exact()
        && (r.ReadReady? && r.bytes != [] ==> Settled())
        && (r.ReadReady? && r.bytes == [] ==> emitted == Unpack(input).bytes && !Unpack(input).end.CutWord?)
        && (r.ReadFailed? ==> emitted == Unpack(input).bytes && Unpack(input).end.CutWord?)
    {
      hide Unpack, Spread, Ones;
      ghost var ok := Exact() && WordDemand(|emitted|, room);
      while true
        invariant Shape()
        invariant |src.data| <= |old(src.data)| && src.stalls == old(src.stalls)
        invariant emitted == old(emitted)
        invariant ok ==> Exact()
        decreases |src.data|, if stage == WritingPassthrough then 1 else 0
      {
        match stage {
          case Start =>
            var p := PollStart();
            if p.Some? {
              if ok && p.value.ReadReady? { StreamOver(done, unit); assert input == done + unit; }
              return p.value;
            }
          case WritingZeroes =>
            r := PollZeroes(room);
            return;
          case BufferingWord =>
            var p := PollBuffering();
            if p.Some? {
              if ok && p.value.ReadFailed? { StreamOver(done, unit); assert input == done + unit; }
              return p.value;
            }
          case DrainingBuffer =>
            if ok { UnpackWhole(done); }
            r := DrainBuffer(room);
            return;
          case WritingPassthrough =>
            var p := PollPassthrough(room);
            if p.Some? {
              if ok && p.value == ReadReady([]) { StreamOver(done, unit); assert input == done + unit; }
              return p.value;
            }
        }
      }
    }

    /** Reads exactly `n` bytes, polling again after every stall; nothing when the stream ends too
        soon. */
    method ReadExact(n: nat) returns (r: Option<seq<Byte>>)
      requires Shape() && Exact() && (|emitted| + n) % 8 == 0
      modifies this, buf, src
      ensures Shape() && Exact()
      ensures r.Some? ==> |r.value| == n && emitted == old(emitted) + r.value
      ensures r.Some? && (n > 0 || old(Settled())) ==> Settled()
      ensures r.None? ==> old(emitted) <= emitted && |emitted| < |old(emitted)| + n && emitted == Unpack(input).bytes
    {
      hide Unpack;
      var got: seq<Byte> := [];
      while |got| < n
        invariant Shape() && Exact() && |got| <= n
        invariant emitted == old(emitted) + got
        invariant got != [] && |got| == n ==> Settled()
        invariant n == 0 && old(Settled()) ==> Settled()
        decreases n - |got|, src.stalls
      {
        var p := PollRead(n - |got|);
        if p.ReadFailed? || p == ReadReady([]) { return None; }
        if p.ReadReady? { got := got + p.bytes; }
      }
      return Some(got);
    }
  }

  /** A run that is fully forwarded completes its code unit. */
  lemma RunUnit(unit: seq<Byte>)
    requires |unit| >= 10 && unit[0] == 255 && |unit| == 10 + RunBytes(unit[9])
    ensures UnitSize(unit) == |unit|
    ensures UnitBytes(unit) == unit[1..9] + unit[10..]
  {
    FullWord(unit[0], unit[1..]);
    assert unit[1..][..8] == unit[1..9];
    assert unit[10..10 + RunBytes(unit[9])] == unit[10..];
  }

  /** Forwarded bytes extend both the code unit and what it has meant so far. */
  lemma RunGrows(front: seq<Byte>, unit: seq<Byte>, more: seq<Byte>)
    requires |unit| >= 10
    ensures front + (unit + more)[1..9] + (unit + more)[10..] == front + unit[1..9] + unit[10..] + more
  {
    assert (unit + more)[1..9] == unit[1..9];
    assert (unit + more)[10..] == unit[10..] + more;
  }

  /** How a stream that stops inside its last code unit is understood. */
  lemma StreamOver(done: seq<Byte>, unit: seq<Byte>)
    requires Unpack(done).end.Clean?
    ensures |unit| < 2 ==> Unpack(done + unit).bytes == Unpack(done).bytes && !Unpack(done + unit).end.CutWord?
    ensures |unit| >= 2 && unit[0] != 0 && |unit| < HeadSize(unit[0]) ==>
      Unpack(done + unit) == Unpacked(Unpack(done).bytes, CutWord)
    ensures |unit| >= 10 && unit[0] == 255 && |unit| < 10 + RunBytes(unit[9]) ==>
      Unpack(done + unit) == Unpacked(Unpack(done).bytes + unit[1..9] + unit[10..], CutRun)
  {
    hide UnitBytes, Spread;
    UnpackConcat(done, unit);
    if |unit| >= 10 && unit[0] == 255 {
      FullWord(unit[0], unit[1..]);
      assert unit[1..][..8] == unit[1..9];
    }
  }

  lemma NoOnes(tag: nat)
    ensures Ones(tag, 0) == 0
  {
  }

  /** Finishing a code unit extends the finished part of the stream by what the unit means. */
  lemma UnitDone(done: seq<Byte>, unit: seq<Byte>)
    requires Unpack(done).end.Clean?
    requires |unit| >= 2 && UnitSize(unit) == |unit|
    ensures Unpack(done + unit) == Unpacked(Unpack(done).bytes + UnitBytes(unit), Clean)
  {
    hide UnitSize, UnitBytes;
    UnpackConcat(done, unit);
    assert unit[|unit|..] == [];
  }

  /** A buffered word, read off the buffer: a plain word is a whole code unit, and a word
      without zero bytes is followed by the count of its run. */
  lemma BufferedWord(b: seq<Byte>)
    requires |b| == 10 && b[0] != 0
    ensures Ones(b[0], 8) <= 9
    ensures b[0] != 255 ==>
      var unit := b[..HeadSize(b[0])];
      && HeadSize(b[0]) == 1 + Ones(b[0], 8)
      && UnitSize(unit) == |unit|
      && UnitBytes(unit) == Spread(b[0], 8, b[1..])
    ensures b[0] == 255 ==> HeadSize(b[0]) == 10 && Ones(b[0], 8) == 8 && Spread(b[0], 8, b[1..]) == b[1..9]
  {
    hide Spread, Ones;
    var unit := b[..HeadSize(b[0])];
    if b[0] == 255 {
      FullWord(b[0], b[1..]);
    } else {
      assert b[1..] == unit[1..] + b[HeadSize(b[0])..];
      SpreadPrefix(b[0], 8, unit[1..], b[HeadSize(b[0])..]);
    }
  }

  /** Decodes a whole stream, for every behaviour of the inner stream and every sequence of
      word-aligned demands: exactly what the stream means comes out, and an error is
      reported exactly when it stops inside a word. */
  method Decode(src: ByteSource) returns (out: seq<Byte>, failed: bool)
    modifies src
    ensures out == Unpack(old(src.data)).bytes
    ensures failed <==> Unpack(old(src.data)).end.CutWord?
  {
    hide Unpack;
    var reader := new Reader(src);
    out, failed := [], false;
    while true
      invariant fresh(reader.buf) && reader.src == src && reader.input == old(src.data)
      invariant reader.Shape() && reader.Exact() && reader.emitted == out
      decreases src.stalls + |Unpack(reader.input).bytes| - |out|
    {
      EmittedIsPrefix(reader);
      var words: nat :| words > 0;
      var p := reader.PollRead(8 * words - |out| % 8);
      EmittedIsPrefix(reader);
      match p {
        case ReadPending =>
        case ReadFailed => return out, true;
        case ReadReady(bytes) =>
          out := out + bytes;
          if bytes == [] { return; }
      }
    }
  }

  /** Whatever was handed out so far is the beginning of what the stream means. */
  lemma EmittedIsPrefix(r: Reader)
    requires r.Shape() && r.Exact()
    ensures r.emitted <= Unpack(r.input).bytes
  {
    hide Unpack, UnitSize, UnitBytes;
    UnpackConcat(r.done, r.unit + r.src.data);
    assert r.input == r.done + (r.unit + r.src.data);
    if |r.unit| >= 2 { UnitPrefix(r.unit, r.src.data); }
  }

  /** The bytes of a code unit begin what the rest of the stream means, even before the unit
      is complete. */
  lemma UnitPrefix(unit: seq<Byte>, more: seq<Byte>)
    requires |unit| >= 2
    ensures unit[0] == 0 ==> Zeros(8 + RunBytes(unit[1])) <= Unpack(unit + more).bytes
    ensures |unit| >= 10 && unit[0] == 255 && |unit| <= 10 + RunBytes(unit[9]) ==>
      unit[1..9] + unit[10..] <= Unpack(unit + more).bytes
  {
    hide Unpack, UnpackRun;
    if unit[0] == 0 { ZeroUnitPrefix(unit + more); }
    if |unit| >= 10 && unit[0] == 255 && |unit| <= 10 + RunBytes(unit[9]) { RunPrefix(unit, more); }
  }

  lemma ZeroUnitPrefix(p: seq<Byte>)
    requires |p| >= 2 && p[0] == 0
    ensures Zeros(8 + RunBytes(p[1])) <= Unpack(p).bytes
  {
    hide Zeros, RunBytes;
  }

  lemma RunPrefix(unit: seq<Byte>, more: seq<Byte>)
    requires |unit| >= 10 && unit[0] == 255 && |unit| <= 10 + RunBytes(unit[9])
    ensures unit[1..9] + unit[10..] <= Unpack(unit + more).bytes
  {
    hide Unpack, RunBytes;
    var p, rest := unit + more, unit[10..];
    UnpackFullWord(p);
    var run := RunBytes(p[9]);
    assert p[1..9] == unit[1..9] && p[10..] == rest + more;
    assert run <= |p[10..]| ==> p[10..][..run][..|rest|] == rest;
    assert rest <= UnpackRun(run, p[10..]).bytes;
  }

  /** The reader never takes a byte past the code unit it is working on: once it has handed
      out all that a clean prefix of the stream means, the inner stream stands right
      behind that prefix. */
  lemma StopsAtBoundary(r: Reader, front: seq<Byte>, rest: seq<Byte>)
    requires r.Shape() && r.Exact() && r.Settled()
    requires r.input == front + rest && Unpack(front).end.Clean?
    requires |r.emitted| == |Unpack(front).bytes|
    ensures r.src.data == rest
  {
    hide Unpack;
    var tail := r.unit + r.src.data;
    assert r.input == r.done + tail;
    CleanPrefixOrder(r.done, tail, front, rest);
    var c := front[|r.done|..];
    assert front == r.done + c;
    assert c + rest == (front + rest)[|r.done|..] == (r.done + tail)[|r.done|..] == tail;
    NextUnit(c, rest, r.unit, r.src.data);
    assert |c| == |r.unit|;
    assert rest == (c + rest)[|c|..] == tail[|r.unit|..] == r.src.data;
  }

  /** Where the next clean piece of a stream starts with the given code unit, it means at
      least what that unit means. */
  lemma NextUnit(c: seq<Byte>, rest: seq<Byte>, unit: seq<Byte>, more: seq<Byte>)
    requires c + rest == unit + more && Unpack(c).end.Clean?
    ensures Unpack(c).bytes == [] ==> c == []
    ensures c != [] && |unit| >= 2 && unit[0] == 0 ==> |Unpack(c).bytes| >= 8 + RunBytes(unit[1])
    ensures c != [] && |unit| >= 10 && unit[0] == 255 ==>
      && |Unpack(c).bytes| >= 8 + RunBytes(unit[9])
      && (|Unpack(c).bytes| == 8 + RunBytes(unit[9]) ==> |c| == 10 + RunBytes(unit[9]))
  {
    if c != [] && |unit| >= 2 {
      var p := c + rest;
      assert c[0] == p[0] == unit[0] && c[1] == p[1] == unit[1];
      if |unit| >= 10 && unit[0] == 255 {
        assert c[9] == p[9] == unit[9];
      }
    }
  }

  lemma {:induction false} OnesAtMost(tag: nat, k: nat)
    ensures Ones(tag, k) <= k
  {
  }

  /** Shifting in two goes. */
  lemma {:induction false} ShrShr(tag: nat, i: nat, j: nat)
    ensures Shr(Shr(tag, i), j) == Shr(tag, i + j)
  {
    if i == 0 {
    } else {
      ShrShr(tag / 2, i - 1, j);
    }
  }

  lemma BitShr(tag: nat, i: nat, j: nat)
    ensures Bit(Shr(tag, i), j) == Bit(tag, i + j)
  {
    ShrShr(tag, i, j);
  }

  lemma {:induction false} SpreadSplit(tag: nat, j: nat, k: nat, data: seq<Byte>)
    requires Ones(tag, j) == j && Ones(tag, j + k) <= |data|
    ensures Ones(Shr(tag, j), k) + j <= |data|
    ensures Spread(tag, j + k, data) == data[..j] + Spread(Shr(tag, j), k, data[j..])
  {
    if j == 0 {
    } else {
      SpreadSplit(tag / 2, j - 1, k, data[1..]);
      assert data[1..][j - 1..] == data[j..];
    }
  }

  /** Drains a buffered word in two goes, stopping inside it. That gives the word if and only if every byte before
      the stop is nonzero; otherwise it comes out with extra bytes. */
  method DrainInTwo(reader: Reader, stop: nat) returns (out: seq<Byte>)
    requires reader.Shape() && reader.stage == DrainingBuffer && reader.bufPos == 1 && stop < 8
    modifies reader
    ensures |out| == 8 + stop - Ones(reader.buf[0], stop)
    ensures out == old(reader.Remaining()) <==> forall i | 0 <= i < stop :: Bit(reader.buf[0], i)
  {
    hide Spread, Bit, Ones, Shr;
    ghost var tag, data := reader.buf[0], reader.buf[1..];
    reader.WholeWord();
    ghost var word := Spread(tag, 8, data);
    var first := reader.DrainBuffer(stop);
    ghost var k := Ones(tag, stop);
    assert first.bytes == word[..stop] && reader.bufPos == 1 + k;
    OnesAtMost(tag, stop);
    ghost var rest := reader.Remaining();
    var second := reader.DrainBuffer(8);
    out := first.bytes + second.bytes;
    assert out == word[..stop] + rest;
    AllOnes(tag, stop);
    if k == stop {
      OnesAtMost(tag, 8);
      SpreadSplit(tag, stop, 8 - stop, data);
      assert data[stop..] == reader.buf[1 + stop..];
      assert word == data[..stop] + rest;
      assert word[..stop] == data[..stop];
    }
  }

  lemma SpoiledWord()
    ensures Ones(2, 1) == 0 && Ones(2, 8) == 1
    ensures Spread(2, 8, [7, 0, 0, 0, 0, 0, 0, 0, 0]) == [0, 7, 0, 0, 0, 0, 0, 0]
  {
  }

  /** A concrete word that a stop after its first byte spoils. */
  method ResumeCounterexample(reader: Reader) returns (out: seq<Byte>)
    requires reader.Shape() && reader.stage == DrainingBuffer && reader.bufPos == 1
    requires reader.buf[..] == [2, 7, 0, 0, 0, 0, 0, 0, 0, 0]
    modifies reader
    ensures old(reader.Remaining()) == [0, 7, 0, 0, 0, 0, 0, 0] && out == [0, 0, 7, 0, 0, 0, 0, 0, 0]
  {
    hide Spread, Ones, Shr, Bit;
    SpoiledWord();
    assert reader.buf[1..] == reader.buf[..][1..] == [7, 0, 0, 0, 0, 0, 0, 0, 0];
    assert reader.buf[0] == reader.buf[..][0];
    reader.WholeWord();
    var first := reader.DrainBuffer(1);
    assert reader.bufPos == 1;
    reader.WholeWord();
    var second := reader.DrainBuffer(8);
    out := first.bytes + second.bytes;
  }
}
