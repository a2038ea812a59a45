/** The stream under the codec, as an adversary. Each poll may stall, or move any number of
    bytes from one up to what was asked for; the only promise is that it does not
    stall for ever. */
module Streams {
  import opened Packing

  /** What a poll for bytes comes back with. No bytes means end of file. */
  datatype ReadPoll = ReadPending | ReadReady(bytes: seq<Byte>) | ReadFailed

  /** The readable side: `data` is still to come, and at most `stalls` more polls
      come back pending. */
  class ByteSource {
    var data: seq<Byte>
    var stalls: nat

    constructor (data: seq<Byte>, stalls: nat)
      ensures this.data == data && this.stalls == stalls
    {
      this.data := data;
      this.stalls := stalls;
    }

    method PollRead(room: nat) returns (r: ReadPoll)
      modifies this
      ensures r.ReadPending? ==> data == old(data) && stalls < old(stalls)
      ensures r.ReadReady? ==> old(data) == r.bytes + data && |r.bytes| <= room && stalls == old(stalls)
      ensures r.ReadReady? && r.bytes == [] ==> room == 0 || data == []
      ensures !r.ReadFailed?
    {
      var stall: bool := *;
      if stall && stalls > 0 {
        stalls := stalls - 1;
        return ReadPending;
      }
      var most := if room < |data| then room else |data|;
      var n: nat :| n <= most && (most > 0 ==> n > 0);
      r := ReadReady(data[..n]);
      data := data[n..];
    }
  }

  /** What a poll to write comes back with: how many bytes were taken. */
  datatype WritePoll = WritePending | WriteReady(taken: nat)

  /** The writable side: `written` holds every byte taken so far. A poll may also take
      nothing at all, which counts as a stall. */
  class ByteSink {
    var written: seq<Byte>
    var stalls: nat

    constructor (stalls: nat)
      ensures written == [] && this.stalls == stalls
    {
      written := [];
      this.stalls := stalls;
    }

    method PollWrite(data: seq<Byte>) returns (r: WritePoll)
      modifies this
      ensures r.WritePending? ==> written == old(written) && stalls < old(stalls)
      ensures r.WriteReady? ==> r.taken <= |data| && written == old(written) + data[..r.taken]
      ensures r.WriteReady? && r.taken > 0 ==> stalls == old(stalls)
      ensures r.WriteReady? && r.taken == 0 ==> if data == [] then stalls == old(stalls) else stalls < old(stalls)
    {
      var stall: bool := *;
      if stall && stalls > 0 {
        stalls := stalls - 1;
        var refuse: bool := *;
        return if refuse && data != [] then WriteReady(0) else WritePending;
      }
      var n: nat :| n <= |data| && (data != [] ==> n > 0);
      written := written + data[..n];
      r := WriteReady(n);
    }
  }
}
