/** `PackedWrite`: the resumable encoder of capnp-futures/src/serialize_packed.rs, proved
    against `Packing.Unpack` for every way of cutting its input and every schedule of
    its inner stream. */
module PackedWrite {
  import opened Packing
  import opened Streams

  // ------------------------------------------------------------- runs

  function ZeroCount(s: seq<Byte>): (n: nat)
    ensures n <= |s|
  {
    if s == [] then 0 else ZeroCount(s[..|s| - 1]) + if s[|s| - 1] == 0 then 1 else 0
  }

  /** How many whole words at the front are zero. */
  function ZeroRun(s: seq<Byte>): (n: nat)
    ensures 8 * n <= |s|
  {
    if |s| >= 8 && s[..8] == Zeros(8) then 1 + ZeroRun(s[8..]) else 0
  }

  /** How many whole words at the front have at most one zero byte each. */
  function DenseRun(s: seq<Byte>): (n: nat)
    ensures 8 * n <= |s|
  {
    if |s| >= 8 && ZeroCount(s[..8]) <= 1 then 1 + DenseRun(s[8..]) else 0
  }

  lemma {:induction false} ZeroRunIsZero(s: seq<Byte>)
    ensures s[..8 * ZeroRun(s)] == Zeros(8 * ZeroRun(s))
  {
    if |s| >= 8 && s[..8] == Zeros(8) {
      ZeroRunIsZero(s[8..]);
      assert s[..8 * ZeroRun(s)] == s[..8] + s[8..][..8 * ZeroRun(s[8..])];
    }
  }

  /** A zero run is cut by the first nonzero byte, if there is one. */
  lemma {:induction false} ZeroRunUpTo(s: seq<Byte>, idx: nat)
    requires idx <= |s| && s[..idx] == Zeros(idx)
    requires idx < |s| ==> s[idx] != 0
    ensures ZeroRun(s) == idx / 8
  {
    if idx >= 8 {
      assert s[..8] == s[..idx][..8] == Zeros(8);
      assert s[8..][..idx - 8] == s[..idx][8..] == Zeros(idx - 8);
      ZeroRunUpTo(s[8..], idx - 8);
    } else if |s| >= 8 {
      assert s[..8][idx] != 0;
    }
  }

  method ScanZeroes(inbuf: seq<Byte>) returns (words: nat)
    ensures words == ZeroRun(inbuf)
  {
    words := |inbuf| / 8;
    for idx := 0 to |inbuf|
      invariant inbuf[..idx] == Zeros(idx)
      invariant words == |inbuf| / 8
    {
      if inbuf[idx] != 0 {
        words := idx / 8;
        ZeroRunUpTo(inbuf, idx);
        return;
      }
      assert inbuf[..idx + 1] == inbuf[..idx] + [0] == Zeros(idx + 1);
    }
    assert inbuf[..|inbuf|] == inbuf;
    ZeroRunUpTo(inbuf, |inbuf|);
  }

  /** The first `k` words are all dense. */
  ghost predicate DenseUpTo(s: seq<Byte>, k: nat)
    requires 8 * k <= |s|
  {
    forall i | 0 <= i < k :: ZeroCount(s[8 * i..8 * i + 8]) <= 1
  }

  lemma WordShift(s: seq<Byte>, i: nat)
    requires 8 * i + 16 <= |s|
    ensures s[8..][8 * i..8 * i + 8] == s[8 * (i + 1)..8 * (i + 1) + 8]
  {
    var a := 8 * i;
    assert 8 * (i + 1) == a + 8;
    assert s[8..][a..a + 8] == s[a + 8..a + 16];
  }

  /** A dense run is cut by the first word with two zero bytes, whole or not. */
  lemma {:induction false} DenseRunUpTo(s: seq<Byte>, k: nat)
    requires 8 * k <= |s| && DenseUpTo(s, k)
    requires 8 * k + 8 <= |s| ==> ZeroCount(s[8 * k..8 * k + 8]) > 1
    ensures DenseRun(s) == k
  {
    if k > 0 {
      assert s[8 * 0..8 * 0 + 8] == s[..8];
      var t := s[8..];
      forall i | 0 <= i < k - 1 ensures ZeroCount(t[8 * i..8 * i + 8]) <= 1 {
        WordShift(s, i);
      }
      if 8 * k + 8 <= |s| { WordShift(s, k - 1); }
      DenseRunUpTo(t, k - 1);
    } else if |s| >= 8 {
      assert s[8 * k..8 * k + 8] == s[..8];
    }
  }

  lemma {:induction false} ZeroCountMonotone(s: seq<Byte>, n: nat)
    requires n <= |s|
    ensures ZeroCount(s[..n]) <= ZeroCount(s)
  {
    if n == |s| {
      assert s[..n] == s;
    } else {
      ZeroCountMonotone(s[..|s| - 1], n);
      assert s[..|s| - 1][..n] == s[..n];
    }
  }

  method ScanDense(inbuf: seq<Byte>) returns (words: nat)
    ensures words == DenseRun(inbuf)
  {
    hide ZeroCount;
    words := |inbuf| / 8;
    var zeroBytesInWord := 0;
    ghost var w := 0;
    for idx := 0 to |inbuf|
      invariant words == |inbuf| / 8
      invariant 8 * w <= idx < 8 * w + 8 && DenseUpTo(inbuf, w)
      invariant idx > 8 * w ==> zeroBytesInWord == ZeroCount(inbuf[8 * w..idx]) <= 1
    {
      if idx % 8 == 0 {
        zeroBytesInWord := 0;
        ZeroCountSnoc(inbuf[8 * w..8 * w], 1);
      }
      ZeroCountSnoc(inbuf[8 * w..idx], inbuf[idx]);
      assert inbuf[8 * w..idx + 1] == inbuf[8 * w..idx] + [inbuf[idx]];
      if inbuf[idx] == 0 {
        zeroBytesInWord := zeroBytesInWord + 1;
        if zeroBytesInWord > 1 {
          words := idx / 8;
          if 8 * w + 8 <= |inbuf| {
            FrontOfSlice(inbuf, 8 * w, idx + 1, 8 * w + 8);
            ZeroCountMonotone(inbuf[8 * w..8 * w + 8], idx + 1 - 8 * w);
          }
          DenseRunUpTo(inbuf, w);
          return;
        }
      }
      if idx + 1 == 8 * w + 8 { w := w + 1; }
    }
    DenseRunUpTo(inbuf, w);
  }

  lemma FrontOfSlice(s: seq<Byte>, a: nat, b: nat, c: nat)
    requires a <= b <= c <= |s|
    ensures s[a..c][..b - a] == s[a..b]
  {
  }

  lemma ZeroCountSnoc(s: seq<Byte>, b: Byte)
    ensures ZeroCount(s + [b]) == ZeroCount(s) + if b == 0 then 1 else 0
    ensures s == [] ==> ZeroCount(s) == 0
  {
    assert (s + [b])[..|s|] == s;
  }

  // ------------------------------------------------------ code units

  /** The code unit of a word that starts no run. */
  lemma PlainUnit(word: seq<Byte>)
    requires |word| == 8 && TagOf(word) != 0 && TagOf(word) != 255
    ensures TagOf(word) < 256 && |Squeeze(word)| <= 7
    ensures Unpack([TagOf(word)] + Squeeze(word)) == Unpacked(word, Clean)
  {
    hide Unpack, Spread, TagOf, Squeeze, Ones;
    TagShape(word);
    SpreadSqueeze(word, []);
    TagExtremes(TagOf(word));
    var unit := [TagOf(word)] + Squeeze(word);
    assert unit[1..] == Squeeze(word) == Squeeze(word) + [];
    assert UnitSize(unit) == |unit|;
    assert UnitBytes(unit) == word + [] == word;
    OneUnit(unit);
  }

  lemma OneUnit(unit: seq<Byte>)
    requires |unit| >= 2 && UnitSize(unit) == |unit|
    ensures Unpack(unit) == Unpacked(UnitBytes(unit), Clean)
  {
    hide UnitSize, UnitBytes;
    assert unit[|unit|..] == [];
    assert Unpack([]) == Unpacked([], Clean);
  }

  /** What the encoder writes for a zero word followed by `k` more: the count goes through a cast to
      one byte. */
  function ZeroUnit(k: nat): seq<Byte> {
    [0, k % 256]
  }

  /** What the encoder writes for a word without zero bytes followed by a run. */
  function RawUnit(word: seq<Byte>, raw: seq<Byte>): seq<Byte> {
    [255] + word + [(|raw| / 8) % 256] + raw
  }

  /** A zero run keeps its meaning exactly when the count fits in a byte. */
  lemma ZeroUnitMeaning(k: nat)
    ensures Unpack(ZeroUnit(k)) == Unpacked(Zeros(8 + 8 * (k % 256)), Clean)
    ensures Unpack(ZeroUnit(k)) == Unpacked(Zeros(8 + 8 * k), Clean) <==> k <= 255
  {
    hide Unpack;
    OneUnit(ZeroUnit(k));
    assert |Zeros(8 + 8 * (k % 256))| == 8 + 8 * (k % 256);
  }

  lemma RawUnitMeans(word: seq<Byte>, raw: seq<Byte>)
    requires |word| == 8 && |raw| % 8 == 0 && |raw| / 8 <= 255
    ensures Unpack(RawUnit(word, raw)) == Unpacked(word + raw, Clean)
  {
    hide Unpack, Spread;
    var unit := RawUnit(word, raw);
    assert unit[1..9] == word && unit[9] == |raw| / 8 && unit[10..] == raw;
    FullWord(unit[0], unit[1..]);
    assert unit[1..][..8] == unit[1..9];
    assert unit[10..10 + RunBytes(unit[9])] == raw;
    assert UnitSize(unit) == |unit|;
    assert UnitBytes(unit) == word + raw;
    OneUnit(unit);
  }

  // -------------------------------------------------- finished output

  /** What is known of finished output `out` for finished input `inp`: its size, and, unless a raw run
      was too long for its count byte, its meaning. A zero run that was too long
      (`zeroOv`) loses words. */
  ghost predicate Good(out: seq<Byte>, inp: seq<Byte>, zeroOv: bool, rawOv: bool) {
    && |inp| % 8 == 0
    && 8 * |out| <= 10 * |inp|
    && (!rawOv ==>
          && Unpack(out).end.Clean?
          && if zeroOv then |Unpack(out).bytes| < |inp| else Unpack(out).bytes == inp)
  }

  lemma Extend(out: seq<Byte>, inp: seq<Byte>, zeroOv: bool, rawOv: bool,
               unit: seq<Byte>, bytes: seq<Byte>, zeroHere: bool, rawHere: bool)
    requires Good(out, inp, zeroOv, rawOv) && Good(unit, bytes, zeroHere, rawHere)
    ensures Good(out + unit, inp + bytes, zeroOv || zeroHere, rawOv || rawHere)
  {
    hide Unpack;
    if !rawOv && !rawHere { UnpackConcat(out, unit); }
  }

  // ------------------------------------------------------- the encoder

  datatype Stage = Start | WriteWord | WriteRunWordCount | WriteUncompressedRun

  /** A run of so many bytes does not fit in a count byte. */
  predicate TooLong(run: nat) {
    run / 8 > 255
  }

  predicate Full(word: seq<Byte>) {
    forall i | 0 <= i < |word| :: word[i] != 0
  }

  /** The bytes of the run that the encoder finds behind a word. */
  function RunLength(word: seq<Byte>, rest: seq<Byte>): (n: nat)
    ensures n <= |rest| && n % 8 == 0
  {
    if word == Zeros(8) then 8 * ZeroRun(rest) else if Full(word) then 8 * DenseRun(rest) else 0
  }

  /** The code unit of a word and the run found behind it. */
  function Unit(word: seq<Byte>, run: seq<Byte>): seq<Byte>
    requires |word| == 8
  {
    if word == Zeros(8) then ZeroUnit(|run| / 8)
    else if Full(word) then RawUnit(word, run)
    else
      TagShape(word);
      [TagOf(word)] + Squeeze(word)
  }

  /** What the whole words of a buffer are encoded as, unit by unit. */
  function Packed(data: seq<Byte>): seq<Byte> {
    if |data| < 8 then []
    else
      var n := RunLength(data[..8], data[8..]);
      Unit(data[..8], data[8..8 + n]) + Packed(data[8 + n..])
  }

  /** What comes behind a run. */
  function PackedBehind(run: seq<Byte>, rest: seq<Byte>): seq<Byte> {
    if |run| <= |rest| then Packed(rest[|run|..]) else []
  }

  lemma BehindTaken(run: seq<Byte>, rest: seq<Byte>, n: nat)
    requires n <= |run| <= |rest|
    ensures PackedBehind(run[n..], rest[n..]) == PackedBehind(run, rest)
    ensures n == |run| ==> PackedBehind(run, rest) == Packed([] + rest[n..])
  {
    hide Packed;
    assert rest[n..][|run| - n..] == rest[|run|..];
    assert [] + rest[n..] == rest[n..];
  }

  lemma NothingPacked()
    ensures Packed([]) == [] && PackedBehind([], []) == []
  {
  }

  lemma Joined(a: seq<Byte>, b: seq<Byte>, c: seq<Byte>)
    ensures a + b + c == a + (b + c)
  {
  }

  lemma PlainUnitIs(word: seq<Byte>)
    requires |word| == 8 && TagOf(word) != 0 && TagOf(word) != 255
    ensures TagOf(word) < 256 && Unit(word, []) == [TagOf(word)] + Squeeze(word)
    ensures forall rest: seq<Byte> :: RunLength(word, rest) == 0
  {
    hide TagOf, Squeeze;
    TagShape(word);
    TagFull(word);
  }

  lemma ZeroUnitIs(word: seq<Byte>, run: seq<Byte>)
    requires |word| == 8 && TagOf(word) == 0
    ensures Unit(word, run) == [0] + [(|run| / 8) % 256]
  {
    hide TagOf, Squeeze;
    TagShape(word);
  }

  lemma FullUnitIs(word: seq<Byte>, run: seq<Byte>, out: seq<Byte>)
    requires |word| == 8 && TagOf(word) == 255 && out == [255] + word + [(|run| / 8) % 256]
    ensures out + run == Unit(word, run)
  {
    hide TagOf, Squeeze;
    TagShape(word);
    TagFull(word);
  }

  lemma PackedFirst(word: seq<Byte>, rest: seq<Byte>)
    requires |word| == 8
    ensures var n := RunLength(word, rest); Packed(word + rest) == Unit(word, rest[..n]) + Packed(rest[n..])
  {
    hide Unit, RunLength;
    var data, n := word + rest, RunLength(word, rest);
    assert data[..8] == word && data[8..] == rest;
    assert data[8..8 + n] == rest[..n] && data[8 + n..] == rest[n..];
  }

  /** A word of input ends at position `j` of a buffer `data` that follows `base`. */
  predicate WordEnds(base: seq<Byte>, data: seq<Byte>, j: nat) {
    j <= |data| && 8 <= |base| + j && (|base| + j) % 8 == 0
  }

  function WordAt(base: seq<Byte>, data: seq<Byte>, j: nat): (word: seq<Byte>)
    requires WordEnds(base, data, j)
    ensures |word| == 8
  {
    (base + data)[|base| + j - 8..|base| + j]
  }

  /** A zero word with more than 255 zero words behind it in the same buffer. */
  predicate ZeroesAt(base: seq<Byte>, data: seq<Byte>, j: nat) {
    WordEnds(base, data, j) && WordAt(base, data, j) == Zeros(8) && ZeroRun(data[j..]) > 255
  }

  /** A word without zero bytes, with more than 255 dense words behind it in the same buffer. */
  predicate DenseAt(base: seq<Byte>, data: seq<Byte>, j: nat) {
    WordEnds(base, data, j) && Full(WordAt(base, data, j)) && DenseRun(data[j..]) > 255
  }

  ghost predicate LongZeroes(base: seq<Byte>, data: seq<Byte>) {
    exists j: nat :: ZeroesAt(base, data, j)
  }

  /** The same, where the zero word ends inside the buffer: one that ends with the buffer before may be written
      before this buffer is seen. */
  ghost predicate LongZeroesInside(base: seq<Byte>, data: seq<Byte>) {
    exists j: nat :: j > 0 && ZeroesAt(base, data, j)
  }

  ghost predicate LongDense(base: seq<Byte>, data: seq<Byte>) {
    exists j: nat :: DenseAt(base, data, j)
  }

  /** Every run that the encoder can find in a buffer fits in a count byte. */
  ghost predicate RunsFit(base: seq<Byte>, data: seq<Byte>) {
    !LongZeroes(base, data) && !LongDense(base, data)
  }

  /** What overflows so far have to do with the input: `z0` and `r0` say whether there were any before `data`,
      `zero` and `raw` whether there are now, and every word up to `upTo` has been looked at. */
  ghost predicate Tracks(base: seq<Byte>, data: seq<Byte>, upTo: int, z0: bool, r0: bool, zero: bool, raw: bool) {
    && (zero ==> z0 || LongZeroes(base, data))
    && (z0 ==> zero)
    && (forall j: nat | 0 < j <= upTo && ZeroesAt(base, data, j) :: zero)
    && (raw ==> r0 || LongDense(base, data))
    && (r0 ==> raw)
  }

  /** In an empty buffer nothing overflows. */
  lemma TracksNothing(base: seq<Byte>, upTo: int, z0: bool, r0: bool, zero: bool, raw: bool)
    ensures upTo <= 0 ==> Tracks(base, [], upTo, z0, r0, z0, r0)
    ensures Tracks(base, [], upTo, z0, r0, zero, raw) ==> zero == z0 && raw == r0
  {
    SmallBufferFits(base, []);
  }

  lemma TracksMore(base: seq<Byte>, data: seq<Byte>, upTo: int, upTo': int, z0: bool, r0: bool, zero: bool, raw: bool)
    requires Tracks(base, data, upTo, z0, r0, zero, raw)
    requires forall j: nat | upTo < j <= upTo' :: !WordEnds(base, data, j)
    ensures Tracks(base, data, upTo', z0, r0, zero, raw)
  {
    hide ZeroRun, DenseRun, Full;
    forall j: nat | upTo < j <= upTo' ensures !ZeroesAt(base, data, j) {
      assert !WordEnds(base, data, j);
    }
  }

  /** No word ends among the next `k` bytes, if they do not complete the one begun. */
  lemma NoWordEnds(base: seq<Byte>, data: seq<Byte>, taken: nat, k: int)
    requires |base| <= taken && taken % 8 + k < 8
    ensures forall j: nat | taken - |base| < j <= taken - |base| + k :: !WordEnds(base, data, j)
  {
    forall j: nat | taken - |base| < j <= taken - |base| + k ensures !WordEnds(base, data, j) {
      var t := |base| + j - taken;
      assert taken == 8 * (taken / 8) + taken % 8;
      assert |base| + j == 8 * (taken / 8) + (taken % 8 + t);
    }
  }

  /** A word behind position `n`, seen from there. */
  lemma WordBehind(base: seq<Byte>, data: seq<Byte>, n: nat, j: nat) returns (k: nat)
    requires WordEnds(base, data, n) && WordEnds(base, data, j) && n < j
    ensures 0 < k && 8 * k == j - n <= |data[n..]|
    ensures WordAt(base, data, j) == data[n..][8 * k - 8..8 * k] && data[j..] == data[n..][8 * k..]
  {
    k := WordsBetween(|base| + n, |base| + j);
    SliceBehind(base, data, n, 8 * k);
  }

  lemma WordsBetween(a: nat, b: nat) returns (k: nat)
    requires a % 8 == 0 && b % 8 == 0 && a < b
    ensures 0 < k && 8 * k == b - a
  {
    k := b / 8 - a / 8;
  }

  lemma SliceBehind(base: seq<Byte>, data: seq<Byte>, n: nat, d: nat)
    requires 8 <= d && n + d <= |data|
    ensures (base + data)[|base| + (n + d) - 8..|base| + (n + d)] == data[n..][d - 8..d]
    ensures data[n + d..] == data[n..][d..]
  {
  }

  /** Inside a run that was found behind a word, no word starts a zero run of its own that is longer. */
  lemma RunHidesNone(base: seq<Byte>, data: seq<Byte>, n: nat, j: nat)
    requires WordEnds(base, data, n) && ZeroesAt(base, data, j)
    requires n < j <= n + RunLength(WordAt(base, data, n), data[n..])
    ensures WordAt(base, data, n) == Zeros(8) && ZeroRun(data[n..]) > 255
  {
    hide ZeroRun, DenseRun, ZeroCount, Full;
    var word, rest := WordAt(base, data, n), data[n..];
    var k := WordBehind(base, data, n, j);
    hide WordAt, WordEnds;
    if word == Zeros(8) {
      ZeroRunSuffix(rest, k);
    } else {
      assert rest[8 * k - 8..8 * k] == rest[8 * (k - 1)..8 * (k - 1) + 8];
      DenseRunWord(rest, k - 1);
      ZeroesCount(8);
      assert false;
    }
  }

  lemma {:induction false} ZeroRunSuffix(s: seq<Byte>, k: nat)
    requires k <= ZeroRun(s)
    ensures ZeroRun(s) == k + ZeroRun(s[8 * k..])
  {
    if k == 0 {
      assert s[0..] == s;
    } else {
      ZeroRunSuffix(s[8..], k - 1);
      assert s[8..][8 * (k - 1)..] == s[8 * k..];
    }
  }

  lemma {:induction false} DenseRunWord(s: seq<Byte>, i: nat)
    requires i < DenseRun(s)
    ensures ZeroCount(s[8 * i..8 * i + 8]) <= 1
  {
    if i == 0 {
      assert s[8 * 0..8 * 0 + 8] == s[..8];
    } else {
      DenseRunWord(s[8..], i - 1);
      WordShift(s, i - 1);
    }
  }

  lemma {:induction false} ZeroesCount(n: nat)
    ensures ZeroCount(Zeros(n)) == n
  {
    if n == 0 {
    } else {
      ZeroesCount(n - 1);
      assert Zeros(n)[..n - 1] == Zeros(n - 1);
    }
  }

  /** Word `w`, which ends at `n`, is looked at together with what is behind it. */
  lemma TracksScan(base: seq<Byte>, data: seq<Byte>, n: nat, w: seq<Byte>, z0: bool, r0: bool,
                   zero: bool, raw: bool, zero': bool, raw': bool)
    requires WordEnds(base, data, n) && WordAt(base, data, n) == w && Tracks(base, data, n - 1, z0, r0, zero, raw)
    requires zero' == (zero || (w == Zeros(8) && ZeroRun(data[n..]) > 255))
    requires raw' == (raw || (Full(w) && DenseRun(data[n..]) > 255))
    ensures Tracks(base, data, n + RunLength(w, data[n..]), z0, r0, zero', raw')
  {
    hide ZeroRun, DenseRun, Full;
    assert zero' == (zero || ZeroesAt(base, data, n)) && raw' == (raw || DenseAt(base, data, n));
    forall j: nat | 0 < j <= n + RunLength(w, data[n..]) && ZeroesAt(base, data, j) ensures zero' {
      if j > n { RunHidesNone(base, data, n, j); }
    }
    hide ZeroesAt, DenseAt, RunLength, WordAt;
  }

  class Writer {
    const sink: ByteSink
    var stage: Stage
    const buf: array<Byte>
    var bufPos: nat
    const packedBuf: array<Byte>
    var packedBufSize: nat
    var runBytes: nat

    // What the sink held at first; what was added since; everything taken from the caller.
    ghost const before: seq<Byte>
    ghost var emitted: seq<Byte>
    ghost var consumed: seq<Byte>
    // Output and input of the finished code units, and whether a run overflowed its count.
    ghost var doneOut: seq<Byte>
    ghost var doneIn: seq<Byte>
    ghost var zeroOv: bool
    ghost var rawOv: bool
    // The word at the head of the current code unit; the unit's output and input; the length of
    // its run, and what of the run the caller must offer again.
    ghost var word: seq<Byte>
    ghost var unitOut: seq<Byte>
    ghost var unitIn: seq<Byte>
    ghost var runTotal: nat
    ghost var owed: seq<Byte>

    ghost predicate Valid()
      reads this, buf, packedBuf, sink
    {
      && buf.Length == 8 && packedBuf.Length == 9 && buf != packedBuf
      && Accounted()
      && Good(doneOut, doneIn, zeroOv, rawOv)
      && (stage != Start ==> PackedWord(word) && bufPos <= packedBufSize <= 9)
      && match stage {
           case Start => AtStart()
           case WriteWord => AtWord()
           case WriteRunWordCount => AtCount()
           case WriteUncompressedRun => AtRun()
         }
    }

    ghost predicate AtStart()
      requires buf.Length == 8
      reads this, buf
    {
      bufPos < 8 && unitOut == [] && unitIn == buf[..bufPos] && owed == []
    }

    ghost predicate AtWord()
      requires packedBuf.Length == 9 && bufPos <= 9
      reads this, packedBuf
    {
      unitOut == packedBuf[..bufPos] && unitIn == word && owed == []
    }

    ghost predicate AtCount()
      requires packedBuf.Length == 9 && packedBufSize <= 9
      reads this, packedBuf
    {
      && |owed| == runBytes && runBytes % 8 == 0
      && unitOut == packedBuf[..packedBufSize] && unitIn == word
      && (packedBuf[0] == 255 || (packedBuf[0] == 0 && owed == Zeros(runBytes)))
    }

    ghost predicate AtRun()
      reads this
    {
      && |owed| == runBytes && (runBytes == 0 ==> runTotal == 0)
      && InRun(word, runTotal, unitOut, unitIn, runBytes)
    }

    /** Every byte in or out belongs to a finished code unit or to the current one. */
    ghost predicate Accounted()
      reads `emitted, `consumed, `doneOut, `doneIn, `unitOut, `unitIn, sink
    {
      && sink.written == before + emitted
      && emitted == doneOut + unitOut
      && consumed == doneIn + unitIn
    }

    /** The packed buffer holds the tag and the nonzero bytes of a word. */
    ghost predicate PackedWord(w: seq<Byte>)
      requires packedBuf.Length == 9
      reads `packedBufSize, packedBuf
    {
      && |w| == 8 && TagOf(w) < 256 && packedBufSize == 1 + |Squeeze(w)| <= 9
      && packedBuf[..packedBufSize] == [TagOf(w)] + Squeeze(w)
    }

    /** How much of the packed word is still to be written. */
    ghost function WordLeft(): nat
      reads `stage, `packedBufSize, `bufPos
    {
      if stage == WriteWord && bufPos < packedBufSize then packedBufSize - bufPos else 0
    }

    /** A zero run that its count byte cannot express has been found. */
    ghost predicate ZeroOver()
      reads this, packedBuf
    {
      zeroOv || (stage == WriteRunWordCount && packedBuf.Length > 0 && packedBuf[0] == 0 && TooLong(runBytes))
    }

    /** A run of uncompressed words that its count byte cannot express has been found. */
    ghost predicate RawOver()
      reads this, packedBuf
    {
      || rawOv
      || (stage == WriteRunWordCount && packedBuf.Length > 0 && packedBuf[0] != 0 && TooLong(runBytes))
      || (stage == WriteUncompressedRun && TooLong(runTotal))
    }

    /** What the current code unit and all that comes after it will be encoded as, if `rest` is offered next. */
    ghost function Whole(rest: seq<Byte>): seq<Byte>
      reads this
    {
      match stage
      case Start => Packed(unitIn + rest)
      case WriteWord => Packed(word + rest)
      case WriteRunWordCount => if |word| == 8 then Unit(word, owed) + PackedBehind(owed, rest) else []
      case WriteUncompressedRun => unitOut + owed + PackedBehind(owed, rest)
    }

    /** What all will be encoded as. */
    ghost function Outcome(rest: seq<Byte>): seq<Byte>
      reads this
    {
      doneOut + Whole(rest)
    }

    /** How much of a buffer that follows `base` has been taken. */
    ghost predicate Within(base: seq<Byte>, data: seq<Byte>)
      reads `consumed, `owed
    {
      && |base| <= |consumed| <= |base| + |data|
      && consumed == base + data[..|consumed| - |base|]
      && owed <= data[|consumed| - |base|..]
    }

    /** What of it has not been taken. */
    ghost function Untaken(base: seq<Byte>, data: seq<Byte>): seq<Byte>
      reads `consumed
    {
      if |base| <= |consumed| <= |base| + |data| then data[|consumed| - |base|..] else []
    }

    /** How far the words of a buffer that follows `base` have been looked at. */
    ghost function Frontier(base: seq<Byte>): int
      reads `stage, `consumed, `owed
    {
      |consumed| - |base| + if stage == WriteWord then -1 else |owed|
    }

    /** In the middle of a buffer: what of it was taken, and what is known of its runs. */
    ghost predicate Tracked(base: seq<Byte>, data: seq<Byte>, z0: bool, r0: bool)
      reads this, packedBuf
    {
      Within(base, data) && Tracks(base, data, Frontier(base), z0, r0, ZeroOver(), RawOver())
    }

    constructor (sink: ByteSink)
      ensures this.sink == sink && fresh(buf) && fresh(packedBuf)
      ensures Valid() && stage == Start && before == sink.written && emitted == [] && consumed == [] && owed == []
      ensures !ZeroOver() && !RawOver() && forall data: seq<Byte> :: Outcome(data) == Packed(data)
    {
      this.sink := sink;
      stage := Start;
      buf := new Byte[8](_ => 0);
      bufPos := 0;
      packedBuf := new Byte[9](_ => 0);
      packedBufSize := 0;
      runBytes := 0;
      before := sink.written;
      emitted, consumed, doneOut, doneIn, unitOut, unitIn, owed, word := [], [], [], [], [], [], [], [];
      zeroOv, rawOv, runTotal := false, false, 0;
      new;
      hide Packed;
      forall data: seq<Byte> ensures Outcome(data) == Packed(data) { assert [] + data == data; }
    }

    /** Computes the tag and squeezes the word. */
    method PackWord()
      requires buf.Length == 8 && packedBuf.Length == 9 && buf != packedBuf
      modifies packedBuf, `packedBufSize
      ensures PackedWord(buf[..]) && packedBufSize <= 9
    {
      hide TagOf, Squeeze, Pow2;
      packedBuf[0] := 0;
      var idx := 1;
      EmptyWord();
      Pow2AtMost(0);
      for ii := 0 to 8
        invariant 1 <= idx <= ii + 1
        invariant packedBuf[0] as int == TagOf(buf[..ii]) && packedBuf[1..idx] == Squeeze(buf[..ii])
        modifies packedBuf
      {
        var b := buf[ii];
        assert buf[..ii + 1] == buf[..ii] + [b];
        TagSnoc(buf[..ii], b);
        SqueezeSnoc(buf[..ii], b);
        TagBound(buf[..ii + 1]);
        Pow2AtMost(ii + 1);
        if b != 0 {
          ghost var was := packedBuf[1..idx];
          packedBuf[0] := packedBuf[0] as int + Pow2(ii);
          packedBuf[idx] := b;
          assert packedBuf[1..idx + 1] == was + [b];
          idx := idx + 1;
        }
      }
      assert buf[..8] == buf[..];
      packedBufSize := idx;
      assert packedBuf[..idx] == [packedBuf[0]] + packedBuf[1..idx];
    }

    /** Polls the sink, and books what it takes on the current code unit. */
    method Push(data: seq<Byte>) returns (w: WritePoll)
      requires Accounted()
      modifies sink, `emitted, `unitOut
      ensures Accounted() && sink.stalls <= old(sink.stalls)
      ensures w.WritePending? ==> sink.stalls < old(sink.stalls) && unitOut == old(unitOut) + data[..0]
      ensures w.WriteReady? ==> w.taken <= |data| && unitOut == old(unitOut) + data[..w.taken]
      ensures w.WriteReady? && w.taken == 0 && data != [] ==> sink.stalls < old(sink.stalls)
    {
      w := sink.PollWrite(data);
      if w.WriteReady? {
        emitted := emitted + data[..w.taken];
        unitOut := unitOut + data[..w.taken];
      }
    }

    /** Books input on the current code unit. */
    ghost method Take(data: seq<Byte>)
      requires Accounted()
      modifies `consumed, `unitIn
      ensures Accounted() && consumed == old(consumed) + data && unitIn == old(unitIn) + data
    {
      consumed := consumed + data;
      unitIn := unitIn + data;
    }

    /** The current code unit is complete. */
    ghost method FinishUnit(zeroHere: bool, rawHere: bool)
      requires Accounted()
      requires Good(doneOut, doneIn, zeroOv, rawOv) && Good(unitOut, unitIn, zeroHere, rawHere)
      modifies `doneOut, `doneIn, `unitOut, `unitIn, `zeroOv, `rawOv
      ensures Accounted() && Good(doneOut, doneIn, zeroOv, rawOv) && unitOut == [] && unitIn == []
      ensures doneOut == old(doneOut + unitOut)
      ensures zeroOv == (old(zeroOv) || zeroHere) && rawOv == (old(rawOv) || rawHere)
    {
      Extend(doneOut, doneIn, zeroOv, rawOv, unitOut, unitIn, zeroHere, rawHere);
      doneOut, doneIn, unitOut, unitIn := doneOut + unitOut, doneIn + unitIn, [], [];
      zeroOv, rawOv := zeroOv || zeroHere, rawOv || rawHere;
    }

    /** Collects input into the word buffer; a full word is packed. */
    method StepStart(inbuf: seq<Byte>) returns (n: nat)
      requires Valid() && stage == Start && inbuf != []
      modifies this, buf, packedBuf
      ensures Valid() && 0 < n <= |inbuf| && consumed == old(consumed) + inbuf[..n] && owed == []
      ensures ZeroOver() == old(ZeroOver()) && RawOver() == old(RawOver())
      ensures stage == Start || stage == WriteWord
      ensures |old(consumed)| % 8 + n <= 8 && (stage == WriteWord <==> |old(consumed)| % 8 + n == 8)
      ensures Outcome(inbuf[n..]) == old(Outcome(inbuf))
    {
      StartAligned();
      hide Good, PackedWord, Accounted, AtCount, AtRun, Packed;
      n := if 8 - bufPos < |inbuf| then 8 - bufPos else |inbuf|;
      CopyIn(inbuf[..n]);
      Take(inbuf[..n]);
      assert unitIn + inbuf[n..] == old(unitIn) + inbuf;
      if bufPos == 8 {
        assert buf[..8] == buf[..];
        CompleteWord();
      }
    }

    /** The word buffer is full. */
    method CompleteWord()
      requires buf.Length == 8 && packedBuf.Length == 9 && buf != packedBuf
      requires Accounted() && Good(doneOut, doneIn, zeroOv, rawOv)
      requires unitOut == [] && unitIn == buf[..] && owed == []
      modifies `stage, `word, `bufPos, `packedBufSize, packedBuf
      ensures Valid() && stage == WriteWord
    {
      hide Good, PackedWord, Accounted, AtStart, AtCount, AtRun;
      PackWord();
      word := buf[..];
      bufPos := 0;
      assert packedBuf[..0] == [];
      stage := WriteWord;
    }

    lemma StartAligned()
      requires Valid() && stage == Start
      ensures |consumed| % 8 == bufPos < 8
    {
      hide Unpack;
    }

    /** Copies bytes to the end of the word buffer. */
    method CopyIn(bytes: seq<Byte>)
      requires buf.Length == 8 && bufPos + |bytes| <= 8
      modifies buf, `bufPos
      ensures bufPos == old(bufPos) + |bytes|
      ensures buf[..bufPos] == old(buf[..bufPos]) + bytes
    {
      for i := 0 to |bytes|
        invariant buf[..bufPos + i] == old(buf[..bufPos]) + bytes[..i]
        modifies buf
      {
        buf[bufPos + i] := bytes[i];
      }
      bufPos := bufPos + |bytes|;
    }

    /** Writes the tag and the data bytes; after a zero word or a full one, looks for a run. */
    method StepWord(inbuf: seq<Byte>) returns (pending: bool)
      requires Valid() && stage == WriteWord
      modifies this, sink
      ensures Valid() && consumed == old(consumed) && owed <= inbuf && sink.stalls <= old(sink.stalls)
      ensures pending ==> sink.stalls < old(sink.stalls)
      ensures !pending && sink.stalls == old(sink.stalls) && stage == WriteWord ==> WordLeft() < old(WordLeft())
      ensures stage == WriteWord ==> ZeroOver() == old(ZeroOver()) && RawOver() == old(RawOver()) && owed == []
      ensures stage != WriteWord ==> Looked(inbuf, old(word), old(ZeroOver()), old(RawOver()))
      ensures stage != WriteUncompressedRun
      ensures Outcome(inbuf) == old(Outcome(inbuf))
    {
      hide Good, PackedWord, Looked, Accounted, AtStart, AtCount, AtRun, Unit, Packed, Decided, Outcome;
      ghost var done, head, zero, raw := doneOut, word, ZeroOver(), RawOver();
      GoalAtWord(inbuf);
      var w := Push(packedBuf[bufPos..packedBufSize]);
      if w.WritePending? {
        GoalAtWord(inbuf);
        return true;
      }
      assert packedBuf[..bufPos + w.taken] == packedBuf[..bufPos] + packedBuf[bufPos..packedBufSize][..w.taken];
      bufPos := bufPos + w.taken;
      GoalAtWord(inbuf);
      if bufPos == packedBufSize {
        AfterWord(inbuf);
        GoalDecided(inbuf, head, done, zero, raw);
      }
      return false;
    }

    /** The run behind word `w`, which is out, has been looked for in `inbuf`. */
    ghost predicate Looked(inbuf: seq<Byte>, w: seq<Byte>, zero: bool, raw: bool)
      reads this, packedBuf
    {
      && owed == inbuf[..RunLength(w, inbuf)]
      && ZeroOver() == (zero || (w == Zeros(8) && ZeroRun(inbuf) > 255))
      && RawOver() == (raw || (Full(w) && DenseRun(inbuf) > 255))
    }

    /** Word `w` is a code unit of its own, or heads one. */
    ghost predicate Decided(w: seq<Byte>, done: seq<Byte>)
      reads this
    {
      && |w| == 8
      && (stage == Start ==> unitIn == [] && owed == [] && doneOut == done + Unit(w, []))
      && (stage == WriteRunWordCount ==> word == w && doneOut == done)
    }

    /** The word is out: decides whether it starts a run. */
    method AfterWord(inbuf: seq<Byte>)
      requires Valid() && stage == WriteWord && bufPos == packedBufSize
      modifies this
      ensures Valid() && consumed == old(consumed) && owed <= inbuf
      ensures Looked(inbuf, old(word), old(ZeroOver()), old(RawOver()))
      ensures stage != WriteUncompressedRun && stage != WriteWord
      ensures Decided(old(word), old(doneOut))
    {
      TagIsFirst();
      TagFull(word);
      hide Valid, ZeroRun, DenseRun, Full, TagOf, Unit;
      if packedBuf[0] == 0 {
        var words := ScanZeroes(inbuf);
        ZeroRunIsZero(inbuf);
        StartRun(words, inbuf);
      } else if packedBuf[0] == 255 {
        var words := ScanDense(inbuf);
        StartRun(words, inbuf);
      } else {
        EndWord();
      }
    }

    lemma TagIsFirst()
      requires Valid() && stage == WriteWord
      ensures |word| == 8 && packedBuf.Length == 9 && packedBuf[0] == TagOf(word)
      ensures TagOf(word) == 0 <==> word == Zeros(8)
    {
      hide TagOf, Squeeze;
      assert packedBuf[..packedBufSize][0] == TagOf(word);
      TagShape(word);
    }

    /** A run of so many words follows the word. */
    method StartRun(words: nat, inbuf: seq<Byte>)
      requires Valid() && stage == WriteWord && bufPos == packedBufSize && 8 * words <= |inbuf| && packedBuf.Length == 9
      requires packedBuf[0] == 255 || (packedBuf[0] == 0 && inbuf[..8 * words] == Zeros(8 * words))
      modifies `runBytes, `owed, `stage
      ensures Valid() && stage == WriteRunWordCount && owed == inbuf[..8 * words] && runBytes == 8 * words
    {
      hide Good, TagOf, Squeeze, Accounted, AtRun, AtStart, PackedWord;
      runBytes := words * 8;
      owed := inbuf[..runBytes];
      stage := WriteRunWordCount;
    }

    /** The word is a code unit of its own. */
    method EndWord()
      requires Valid() && stage == WriteWord && bufPos == packedBufSize
      requires packedBuf.Length == 9 && packedBuf[0] != 0 && packedBuf[0] != 255
      modifies `doneOut, `doneIn, `unitOut, `unitIn, `zeroOv, `rawOv, `bufPos, `stage
      ensures Valid() && stage == Start && owed == [] && zeroOv == old(zeroOv) && rawOv == old(rawOv)
      ensures unitIn == [] && |word| == 8 && doneOut == old(doneOut) + Unit(word, [])
    {
      hide Good, PackedWord, Accounted, AtRun, AtCount, AtWord, Unit;
      WordIsUnit();
      NothingOwed();
      FinishUnit(false, false);
      bufPos := 0;
      stage := Start;
      assert buf[..0] == [];
    }

    lemma WordIsUnit()
      requires Valid() && stage == WriteWord && bufPos == packedBufSize
      requires packedBuf.Length == 9 && packedBuf[0] != 0 && packedBuf[0] != 255
      ensures |word| == 8 && unitOut == Unit(word, []) && Good(unitOut, unitIn, false, false)
    {
      TagIsFirst();
      hide Good, TagOf, Squeeze, Accounted, AtRun, AtCount, AtStart, Unit;
      PlainGood(word);
      PlainUnitIs(word);
    }

    /** Writes the count of a run. A zero run is thereby done, and consumed. */
    method StepCount(inbuf: seq<Byte>) returns (pending: bool, n: nat)
      requires Valid() && stage == WriteRunWordCount && owed <= inbuf
      modifies this, sink
      ensures Valid() && n <= |inbuf| && consumed == old(consumed) + inbuf[..n] && owed <= inbuf[n..]
      ensures sink.stalls <= old(sink.stalls)
      ensures pending ==> sink.stalls < old(sink.stalls) && n == 0
      ensures !pending ==> sink.stalls < old(sink.stalls) || stage == Start || stage == WriteUncompressedRun
      ensures ZeroOver() == old(ZeroOver()) && RawOver() == old(RawOver()) && |owed| + n == |old(owed)|
      ensures stage != WriteWord
      ensures Outcome(inbuf[n..]) == old(Outcome(inbuf))
    {
      hide Good, PackedWord, Accounted, InRun, TooLong, AtStart, AtWord, Unit, Counted, Packed, PackedBehind, Outcome;
      ghost var done, run, head := doneOut, owed, word;
      assert |head| == 8 by { WordHead(); }
      GoalAtCount(inbuf);
      var w, count := PushCount();
      n := 0;
      assert consumed == old(consumed) + inbuf[..0] && inbuf[0..] == inbuf;
      if w.WritePending? {
        GoalCounted(inbuf, 0, head, run, done);
        return true, 0;
      }
      if w.taken == 1 {
        if packedBuf[0] == 0 {
          n := runBytes;
          assert inbuf[..n] == owed;
          ZeroesCounted(count);
        } else {
          StartForwarding(count);
        }
      }
      GoalCounted(inbuf, n, head, run, done);
      return false, n;
    }

    lemma WordHead()
      requires Valid() && stage != Start && stage != WriteUncompressedRun
      ensures |word| == 8
    {
    }

    /** Polls the sink with the count byte. */
    method PushCount() returns (w: WritePoll, count: Byte)
      requires Valid() && stage == WriteRunWordCount
      modifies sink, `emitted, `unitOut
      ensures sink.stalls <= old(sink.stalls) && |word| == 8
      ensures w.WritePending? ==> sink.stalls < old(sink.stalls)
      ensures w.WriteReady? ==> w.taken <= 1
      ensures w.WriteReady? && w.taken == 1 ==> Counted(count)
      ensures w.WritePending? || w.taken == 0 ==> Valid() && sink.stalls < old(sink.stalls)
    {
      hide Good, Accounted, InRun, TooLong, AtStart, AtWord, AtRun, TagOf, Squeeze;
      count := (runBytes / 8) % 256;
      w := Push([count]);
      assert [count][..0] == [] && [count][..1] == [count];
    }

    /** The count of a run of uncompressed words is out. */
    method StartForwarding(count: Byte)
      requires Counted(count) && packedBuf[0] == 255 && |owed| == runBytes && bufPos <= packedBufSize
      modifies `runTotal, `stage
      ensures Valid() && stage == WriteUncompressedRun && runTotal == runBytes
      ensures |word| == 8 && unitOut + owed == Unit(word, owed)
    {
      hide Good, Accounted, InRun, Unit;
      FullWordCounted(count);
      runTotal := runBytes;
      stage := WriteUncompressedRun;
    }

    /** The zero run just counted completes its code unit. */
    method ZeroesCounted(count: Byte)
      requires Counted(count) && packedBuf[0] == 0 && owed == Zeros(runBytes)
      modifies `consumed, `doneOut, `doneIn, `unitOut, `unitIn, `zeroOv, `rawOv, `owed, `bufPos, `stage
      ensures Valid() && stage == Start
      ensures consumed == old(consumed) + old(owed) && owed == []
      ensures unitIn == [] && |word| == 8 && doneOut == old(doneOut) + Unit(word, old(owed))
      ensures zeroOv == (old(zeroOv) || TooLong(runBytes)) && rawOv == old(rawOv)
    {
      hide Good, Accounted, TagOf, Squeeze, TooLong, Unit;
      Take(owed);
      assert packedBuf[..packedBufSize][0] == 0;
      ZeroesGood(word, runBytes);
      ZeroUnitIs(word, owed);
      assert unitOut == [0] + [count] && unitIn == word + Zeros(runBytes);
      FinishUnit(TooLong(runBytes), false);
      owed := [];
      bufPos := 0;
      stage := Start;
      assert buf[..0] == [];
    }

    /** The header of a run of uncompressed words is out. */
    lemma FullWordCounted(count: Byte)
      requires Counted(count) && packedBuf[0] == 255
      ensures InRun(word, runBytes, unitOut, unitIn, runBytes)
      ensures |owed| == runBytes ==> unitOut + owed == Unit(word, owed)
    {
      hide Good, Accounted, TagOf, Squeeze, Unit;
      assert packedBuf[..packedBufSize][0] == 255;
      TagShape(word);
      if |owed| == runBytes { FullUnitIs(word, owed, unitOut); }
    }

    /** Right after the count byte of a run. */
    ghost predicate Counted(count: Byte)
      reads this, buf, packedBuf, sink
    {
      && buf.Length == 8 && packedBuf.Length == 9 && buf != packedBuf
      && Accounted() && Good(doneOut, doneIn, zeroOv, rawOv) && PackedWord(word)
      && runBytes % 8 == 0 && count == (runBytes / 8) % 256
      && unitOut == packedBuf[..packedBufSize] + [count] && unitIn == word
    }

    /** Forwards uncompressed words. */
    method StepRun(inbuf: seq<Byte>) returns (pending: bool, n: nat)
      requires Valid() && stage == WriteUncompressedRun && owed <= inbuf
      modifies this, sink
      ensures Valid() && n <= |inbuf| && consumed == old(consumed) + inbuf[..n] && owed <= inbuf[n..]
      ensures sink.stalls <= old(sink.stalls)
      ensures pending ==> sink.stalls < old(sink.stalls) && n == 0
      ensures !pending ==> sink.stalls < old(sink.stalls) || stage == Start || (n > 0 && stage == WriteUncompressedRun)
      ensures ZeroOver() == old(ZeroOver()) && RawOver() == old(RawOver()) && |owed| + n == |old(owed)|
      ensures stage == Start || stage == WriteUncompressedRun
      ensures Outcome(inbuf[n..]) == old(Outcome(inbuf))
    {
      hide Good, PackedWord, Accounted, InRun, TooLong, AtStart, AtWord, AtCount, Packed, PackedBehind, Outcome;
      ghost var done, run, out := doneOut, owed, unitOut;
      GoalAtRun(inbuf);
      pending, n := ForwardSome(inbuf);
      if !pending && runBytes == 0 { RunForwarded(); }
      GoalForwarded(inbuf, n, run, out, done);
    }

    /** Polls the sink with what is left of the run, and books what it takes. */
    method ForwardSome(inbuf: seq<Byte>) returns (pending: bool, n: nat)
      requires Accounted() && |owed| == runBytes && owed <= inbuf
      requires InRun(word, runTotal, unitOut, unitIn, runBytes)
      modifies sink, `emitted, `consumed, `unitOut, `unitIn, `owed, `runBytes
      ensures Accounted() && n <= |old(owed)| && consumed == old(consumed) + inbuf[..n] && owed <= inbuf[n..]
      ensures owed == old(owed)[n..] && runBytes == |owed| && unitOut + owed == old(unitOut + owed)
      ensures InRun(word, runTotal, unitOut, unitIn, runBytes)
      ensures sink.stalls <= old(sink.stalls)
      ensures pending ==> sink.stalls < old(sink.stalls) && n == 0
      ensures !pending && n == 0 && old(owed) != [] ==> sink.stalls < old(sink.stalls)
    {
      hide Accounted, InRun;
      var w := Push(inbuf[..runBytes]);
      pending := w.WritePending?;
      n := if pending then 0 else w.taken;
      DropPrefix(owed, inbuf, n);
      RunGrows(word, runTotal, old(unitOut), unitIn, runBytes, owed[..n]);
      Joined(old(unitOut), owed[..n], owed[n..]);
      RunTaken(n);
    }

    /** Books what was forwarded of a run. */
    method RunTaken(n: nat)
      requires Accounted() && n <= |owed| == runBytes
      modifies `consumed, `unitIn, `owed, `runBytes
      ensures Accounted() && unitIn == old(unitIn) + old(owed[..n])
      ensures consumed == old(consumed) + old(owed[..n])
      ensures owed == old(owed)[n..] && runBytes == old(runBytes) - n
    {
      Take(owed[..n]);
      owed := owed[n..];
      runBytes := runBytes - n;
    }

    /** The run just forwarded completes its code unit. */
    method RunForwarded()
      requires buf.Length == 8 && packedBuf.Length == 9 && buf != packedBuf && owed == []
      requires Accounted() && Good(doneOut, doneIn, zeroOv, rawOv)
      requires InRun(word, runTotal, unitOut, unitIn, 0)
      modifies `doneOut, `doneIn, `unitOut, `unitIn, `zeroOv, `rawOv, `bufPos, `stage
      ensures Valid() && stage == Start && unitIn == [] && doneOut == old(doneOut + unitOut)
      ensures zeroOv == old(zeroOv) && rawOv == (old(rawOv) || TooLong(runTotal))
    {
      hide Good, Accounted, InRun;
      RunGood(word, runTotal, unitOut, unitIn);
      FinishUnit(false, TooLong(runTotal));
      bufPos := 0;
      stage := Start;
      assert buf[..0] == [];
    }

    /** One poll to write. It takes some of what is offered, or nothing while the sink stalls; what
        it must see again is always the beginning of the untaken rest. What is offered is what
        is left of a buffer `data`. */
    method PollWriteAux(inbuf: seq<Byte>, ghost base: seq<Byte>, ghost data: seq<Byte>, ghost z0: bool, ghost r0: bool)
      returns (r: WritePoll)
      requires Valid() && Tracked(base, data, z0, r0) && inbuf == Untaken(base, data)
      modifies this, buf, packedBuf, sink
      ensures Valid() && sink.stalls <= old(sink.stalls)
      ensures Tracked(base, data, z0, r0)
      ensures r.WritePending? ==> consumed == old(consumed) && sink.stalls < old(sink.stalls)
      ensures r.WriteReady? ==>
        && r.taken <= |inbuf| && (r.taken == 0 ==> inbuf == [])
        && consumed == old(consumed) + inbuf[..r.taken]
      ensures r.WriteReady? && inbuf == [] ==> stage == Start
      // Only a stall leaves anything untaken.
      ensures r.WriteReady? && r.taken < |inbuf| ==> sink.stalls < old(sink.stalls)
      ensures Outcome(if r.WriteReady? then inbuf[r.taken..] else inbuf) == old(Outcome(inbuf))
    {
      hide Valid, Tracked, WordLeft, Untaken, Outcome;
      var n: nat := 0;
      assert inbuf[0..] == inbuf && consumed == old(consumed) + inbuf[..0];
      while true
        invariant Valid() && n <= |inbuf| && sink.stalls <= old(sink.stalls)
        invariant consumed == old(consumed) + inbuf[..n] && Tracked(base, data, z0, r0)
        invariant inbuf[n..] == Untaken(base, data) && Outcome(inbuf[n..]) == old(Outcome(inbuf))
        decreases sink.stalls, |inbuf| - n, Rank(stage), WordLeft()
      {
        var rest := inbuf[n..];
        var pending, k := false, 0;
        match stage {
          case Start =>
            if rest == [] { return WriteReady(n); }
            k := TrackedStart(rest, base, data, z0, r0);
          case WriteWord =>
            pending := TrackedWord(rest, base, data, z0, r0);
          case WriteRunWordCount =>
            pending, k := TrackedCount(rest, base, data, z0, r0);
          case WriteUncompressedRun =>
            pending, k := TrackedRun(rest, base, data, z0, r0);
        }
        TakeMore(old(consumed), inbuf, n, k);
        n := n + k;
        if pending { return if n == 0 then WritePending else WriteReady(n); }
      }
    }

    /** Having taken `k` more bytes of a buffer. */
    lemma StillWithin(base: seq<Byte>, data: seq<Byte>, rest: seq<Byte>, k: nat)
      requires k <= |rest| && owed <= rest[k..] && |base| + k <= |consumed| <= |base| + |data| - |rest| + k
      requires |consumed| - k - |base| + |rest| == |data| && rest == data[|consumed| - k - |base|..]
      requires consumed == base + data[..|consumed| - k - |base|] + rest[..k]
      ensures Within(base, data) && rest[k..] == Untaken(base, data)
    {
      var m := |consumed| - k - |base|;
      TakeMore(base, data, m, k);
    }

    method TrackedStart(rest: seq<Byte>, ghost base: seq<Byte>, ghost data: seq<Byte>, ghost z0: bool, ghost r0: bool)
      returns (n: nat)
      requires Valid() && stage == Start && rest != []
      requires Tracked(base, data, z0, r0) && rest == Untaken(base, data)
      modifies this, buf, packedBuf
      ensures Valid() && 0 < n <= |rest| && consumed == old(consumed) + rest[..n]
      ensures Tracked(base, data, z0, r0) && rest[n..] == Untaken(base, data)
      ensures stage == Start || stage == WriteWord
      ensures Outcome(rest[n..]) == old(Outcome(rest))
    {
      assert owed == [] by { NothingOwed(); }
      hide Valid, ZeroOver, RawOver, Tracks, Outcome, Packed, Unit, Frontier;
      ghost var was, c := Frontier(base), |consumed|;
      assert was == c - |base| by { FrontierAtStart(base); }
      n := StepStart(rest);
      StillWithin(base, data, rest, n);
      CollectTracked(base, data, was, c, n, z0, r0);
    }

    lemma FrontierAtStart(base: seq<Byte>)
      requires stage == Start && owed == []
      ensures Frontier(base) == |consumed| - |base|
    {
    }

    /** Collecting bytes up to the end of a word passes no end of a word. */
    lemma CollectTracked(base: seq<Byte>, data: seq<Byte>, was: int, c: nat, n: nat, z0: bool, r0: bool)
      requires (stage == Start || stage == WriteWord) && owed == [] && |consumed| == c + n && n > 0
      requires |base| <= c && was == c - |base|
      requires c % 8 + n <= 8 && (stage == WriteWord <==> c % 8 + n == 8)
      requires Within(base, data) && Tracks(base, data, was, z0, r0, ZeroOver(), RawOver())
      ensures Tracked(base, data, z0, r0)
    {
      hide ZeroOver, RawOver, Tracks, Within;
      NoWordEnds(base, data, c, if stage == Start then n else n - 1);
      TracksMore(base, data, was, Frontier(base), z0, r0, ZeroOver(), RawOver());
    }

    lemma NothingOwed()
      requires Valid() && (stage == Start || stage == WriteWord)
      ensures owed == []
    {
    }

    method TrackedWord(rest: seq<Byte>, ghost base: seq<Byte>, ghost data: seq<Byte>, ghost z0: bool, ghost r0: bool)
      returns (pending: bool)
      requires Valid() && stage == WriteWord
      requires Tracked(base, data, z0, r0) && rest == Untaken(base, data)
      modifies this, sink
      ensures Valid() && consumed == old(consumed) && Tracked(base, data, z0, r0) && sink.stalls <= old(sink.stalls)
      ensures pending ==> sink.stalls < old(sink.stalls)
      ensures !pending && sink.stalls == old(sink.stalls) && stage == WriteWord ==> WordLeft() < old(WordLeft())
      ensures stage != WriteUncompressedRun
      ensures Outcome(rest) == old(Outcome(rest))
    {
      NothingOwed();
      WordAligned();
      hide Valid, ZeroOver, RawOver, Tracks, WordLeft, Looked, WordAt, WordEnds, Outcome;
      ghost var n, zero, raw, w := |consumed| - |base|, ZeroOver(), RawOver(), word;
      WordIsLast(base, data, n, w);
      pending := StepWord(rest);
      if stage != WriteWord { ScannedWord(base, data, n, w, z0, r0, zero, raw); }
    }

    lemma GoalAtWord(rest: seq<Byte>)
      requires stage == WriteWord
      ensures Outcome(rest) == doneOut + Packed(word + rest)
    {
    }

    lemma GoalDecided(rest: seq<Byte>, w: seq<Byte>, done: seq<Byte>, zero: bool, raw: bool)
      requires stage != WriteWord && stage != WriteUncompressedRun && Decided(w, done) && Looked(rest, w, zero, raw)
      ensures Outcome(rest) == done + Packed(w + rest)
    {
      hide Packed, Unit, RunLength, ZeroOver, RawOver, ZeroRun, DenseRun;
      PackedFirst(w, rest);
      var n := RunLength(w, rest);
      if stage == Start {
        assert n == 0 && rest[..0] == [] && rest[0..] == [] + rest;
        Joined(done, Unit(w, []), Packed([] + rest));
      }
    }

    /** The word that ends at position `n` of the buffer has just been looked at. */
    lemma ScannedWord(base: seq<Byte>, data: seq<Byte>, n: nat, w: seq<Byte>, z0: bool, r0: bool, zero: bool, raw: bool)
      requires stage != WriteWord && n <= |data| && consumed == base + data[..n] && Looked(data[n..], w, zero, raw)
      requires WordEnds(base, data, n) && WordAt(base, data, n) == w && Tracks(base, data, n - 1, z0, r0, zero, raw)
      ensures Tracked(base, data, z0, r0)
    {
      hide ZeroOver, RawOver, Tracks, ZeroRun, DenseRun, Full, WordAt, WordEnds, RunLength;
      TracksScan(base, data, n, w, z0, r0, zero, raw, ZeroOver(), RawOver());
    }

    method TrackedCount(rest: seq<Byte>, ghost base: seq<Byte>, ghost data: seq<Byte>, ghost z0: bool, ghost r0: bool)
      returns (pending: bool, n: nat)
      requires Valid() && stage == WriteRunWordCount
      requires Tracked(base, data, z0, r0) && rest == Untaken(base, data)
      modifies this, sink
      ensures Valid() && n <= |rest| && consumed == old(consumed) + rest[..n] && sink.stalls <= old(sink.stalls)
      ensures Tracked(base, data, z0, r0) && rest[n..] == Untaken(base, data)
      ensures pending ==> sink.stalls < old(sink.stalls) && n == 0
      ensures !pending ==> sink.stalls < old(sink.stalls) || stage == Start || stage == WriteUncompressedRun
      ensures stage != WriteWord
      ensures Outcome(rest[n..]) == old(Outcome(rest))
    {
      hide Valid, ZeroOver, RawOver, Tracks, Outcome;
      pending, n := StepCount(rest);
      StillWithin(base, data, rest, n);
    }

    lemma GoalAtCount(rest: seq<Byte>)
      requires stage == WriteRunWordCount && |word| == 8
      ensures Outcome(rest) == doneOut + (Unit(word, owed) + PackedBehind(owed, rest))
    {
    }

    lemma GoalCounted(rest: seq<Byte>, n: nat, w: seq<Byte>, run: seq<Byte>, done: seq<Byte>)
      requires n <= |run| <= |rest| && |w| == 8
      requires stage == WriteRunWordCount ==> n == 0 && word == w && owed == run && doneOut == done
      requires stage == Start ==> n == |run| && unitIn == [] && doneOut == done + Unit(w, run)
      requires stage == WriteUncompressedRun ==>
        n == 0 && owed == run && doneOut == done && unitOut + owed == Unit(w, run)
      requires stage != WriteWord
      ensures Outcome(rest[n..]) == done + (Unit(w, run) + PackedBehind(run, rest))
    {
      hide Packed, Unit, PackedBehind;
      BehindTaken(run, rest, n);
      if stage == Start {
        Joined(done, Unit(w, run), Packed([] + rest[n..]));
      } else {
        assert rest[n..] == rest;
      }
    }

    method TrackedRun(rest: seq<Byte>, ghost base: seq<Byte>, ghost data: seq<Byte>, ghost z0: bool, ghost r0: bool)
      returns (pending: bool, n: nat)
      requires Valid() && stage == WriteUncompressedRun
      requires Tracked(base, data, z0, r0) && rest == Untaken(base, data)
      modifies this, sink
      ensures Valid() && n <= |rest| && consumed == old(consumed) + rest[..n] && sink.stalls <= old(sink.stalls)
      ensures Tracked(base, data, z0, r0) && rest[n..] == Untaken(base, data)
      ensures pending ==> sink.stalls < old(sink.stalls) && n == 0
      ensures !pending ==> sink.stalls < old(sink.stalls) || stage == Start || (n > 0 && stage == WriteUncompressedRun)
      ensures stage == Start || stage == WriteUncompressedRun
      ensures Outcome(rest[n..]) == old(Outcome(rest))
    {
      hide Valid, ZeroOver, RawOver, Tracks, Outcome;
      pending, n := StepRun(rest);
      StillWithin(base, data, rest, n);
    }

    lemma GoalAtRun(rest: seq<Byte>)
      requires stage == WriteUncompressedRun
      ensures Outcome(rest) == doneOut + (unitOut + owed + PackedBehind(owed, rest))
    {
    }

    lemma GoalForwarded(rest: seq<Byte>, n: nat, run: seq<Byte>, out: seq<Byte>, done: seq<Byte>)
      requires n <= |run| <= |rest| && (stage == Start || stage == WriteUncompressedRun)
      requires stage == WriteUncompressedRun ==> doneOut == done && owed == run[n..] && unitOut + owed == out + run
      requires stage == Start ==> n == |run| && unitIn == [] && doneOut == done + (out + run)
      ensures Outcome(rest[n..]) == done + (out + run + PackedBehind(run, rest))
    {
      hide Packed, PackedBehind;
      BehindTaken(run, rest, n);
      if stage == Start { Joined(done, out + run, Packed([] + rest[n..])); }
    }

    lemma WordAligned()
      requires Valid() && stage == WriteWord
      ensures |consumed| % 8 == 0 && |word| == 8 <= |consumed| && consumed[|consumed| - 8..] == word
    {
    }

    /** Finishes what needs no new input. */
    method FinishPendingWrites() returns (ready: bool)
      requires Valid() && owed == []
      modifies this, buf, packedBuf, sink
      ensures Valid() && owed == [] && consumed == old(consumed) && sink.stalls <= old(sink.stalls)
      ensures !ready ==> sink.stalls < old(sink.stalls)
      ensures ready ==> stage == Start || stage == WriteUncompressedRun
      ensures ZeroOver() == old(ZeroOver()) && RawOver() == old(RawOver())
      ensures Outcome([]) == old(Outcome([]))
    {
      hide Valid, ZeroOver, RawOver, Tracked, Untaken, Outcome;
      ghost var z0, r0 := ZeroOver(), RawOver();
      TrackNothing();
      ready := true;
      while ready && (stage == WriteWord || stage == WriteRunWordCount)
        invariant Valid() && consumed == old(consumed) && sink.stalls <= old(sink.stalls)
        invariant Tracked(old(consumed), [], z0, r0) && Untaken(old(consumed), []) == []
        invariant !ready ==> sink.stalls < old(sink.stalls)
        invariant Outcome([]) == old(Outcome([]))
        decreases ready, if stage == Start then 0 else 1
      {
        var w := PollWriteAux([], old(consumed), [], z0, r0);
        ready := !w.WritePending?;
      }
      NothingTracked(z0, r0);
    }

    lemma TrackNothing()
      requires owed == []
      ensures Tracked(consumed, [], ZeroOver(), RawOver()) && Untaken(consumed, []) == []
    {
      hide ZeroOver, RawOver, Tracks;
      TracksNothing(consumed, Frontier(consumed), ZeroOver(), RawOver(), ZeroOver(), RawOver());
      assert consumed == consumed + [][..0];
    }

    lemma NothingTracked(z0: bool, r0: bool)
      requires Tracked(consumed, [], z0, r0)
      ensures owed == [] && ZeroOver() == z0 && RawOver() == r0
    {
      hide ZeroOver, RawOver, Tracks;
      TracksNothing(consumed, Frontier(consumed), z0, r0, ZeroOver(), RawOver());
    }

    /** Offers `data`, and then whatever of it was not taken, until all of it is. A run overflows only if the buffer
        holds one that is too long, and a zero run does if that is behind a word that ends in the buffer. */
    method WriteAll(data: seq<Byte>)
      requires Valid() && owed == []
      modifies this, buf, packedBuf, sink
      ensures Valid() && owed == [] && consumed == old(consumed) + data
      ensures ZeroOver() ==> old(ZeroOver()) || LongZeroes(old(consumed), data)
      ensures old(ZeroOver()) || LongZeroesInside(old(consumed), data) ==> ZeroOver()
      ensures RawOver() ==> old(RawOver()) || LongDense(old(consumed), data)
      ensures old(RawOver()) ==> RawOver()
      ensures Outcome([]) == old(Outcome(data))
    {
      hide Valid, ZeroOver, RawOver, Outcome;
      ghost var base, z0, r0 := consumed, ZeroOver(), RawOver();
      assert consumed == base + data[..0] && data[0..] == data;
      assert Tracked(base, data, z0, r0);
      var off := 0;
      while off < |data|
        invariant Valid() && off <= |data| && consumed == base + data[..off] && Tracked(base, data, z0, r0)
        invariant Outcome(data[off..]) == old(Outcome(data))
        decreases |data| - off, sink.stalls
      {
        var w := PollWriteAux(data[off..], base, data, z0, r0);
        if w.WriteReady? {
          TakeMore(base, data, off, w.taken);
          off := off + w.taken;
        }
      }
      assert data[..off] == data && data[off..] == [];
      forall j: nat | j > 0 && ZeroesAt(base, data, j) ensures ZeroOver() {
        if j == |data| { assert data[j..] == []; }
      }
    }

    /** Flushes. For a whole number of words the output is at most ten bytes a word, and it means
        what was taken as long as no run overflowed its count byte. As long as no
        run of uncompressed words did, it means that if and only if no zero run did. */
    method Flush()
      requires Valid() && owed == []
      modifies this, buf, packedBuf, sink
      ensures Valid() && owed == [] && consumed == old(consumed) && sink.written == before + emitted
      ensures ZeroOver() == old(ZeroOver()) && RawOver() == old(RawOver())
      ensures |consumed| % 8 == 0 ==> 8 * |emitted| <= 10 * |consumed|
      ensures |consumed| % 8 == 0 && !RawOver() ==> (Unpack(emitted) == Unpacked(consumed, Clean) <==> !ZeroOver())
      ensures |consumed| % 8 == 0 ==> emitted == old(Outcome([]))
    {
      hide Valid, ZeroOver, RawOver, Unpack, Outcome;
      var ready := FinishPendingWrites();
      while !ready
        invariant Valid() && owed == [] && consumed == old(consumed)
        invariant ready ==> stage == Start || stage == WriteUncompressedRun
        invariant ZeroOver() == old(ZeroOver()) && RawOver() == old(RawOver())
        invariant Outcome([]) == old(Outcome([]))
        decreases sink.stalls + if ready then 0 else 1
      {
        ready := FinishPendingWrites();
      }
      AllWritten();
      AllOut();
    }

    /** With nothing pending, what was to be written is out. */
    lemma AllOut()
      requires Valid() && owed == [] && (stage == Start || stage == WriteUncompressedRun)
      ensures |consumed| % 8 == 0 ==> emitted == Outcome([])
    {
      hide Unpack, PackedWord, Good, Unit, RunLength;
      if |consumed| % 8 == 0 {
        GoodIsWhole(doneOut, doneIn, zeroOv, rawOv);
        NothingPacked();
      }
    }

    /** With nothing pending, everything belongs to finished code units. */
    lemma AllWritten()
      requires Valid() && owed == [] && (stage == Start || stage == WriteUncompressedRun)
      ensures sink.written == before + emitted
      ensures |consumed| % 8 == 0 ==> Good(emitted, consumed, ZeroOver(), RawOver())
    {
      hide Unpack, PackedWord, Good;
      if |consumed| % 8 == 0 {
        GoodIsWhole(doneOut, doneIn, zeroOv, rawOv);
        if stage == Start {
          assert unitIn == [] && emitted == doneOut && consumed == doneIn;
        } else {
          RunGood(word, runTotal, unitOut, unitIn);
          Extend(doneOut, doneIn, zeroOv, rawOv, unitOut, unitIn, false, false);
        }
      }
    }
  }

  lemma GoodIsWhole(out: seq<Byte>, inp: seq<Byte>, zeroOv: bool, rawOv: bool)
    requires Good(out, inp, zeroOv, rawOv)
    ensures |inp| % 8 == 0
  {
  }

  lemma TagFull(word: seq<Byte>)
    requires |word| == 8
    ensures TagOf(word) == 255 <==> Full(word)
  {
    hide TagOf, Squeeze;
    TagShape(word);
    SqueezeExtremes(word);
  }

  /** The word just completed is the one that ends where the input taken ends. */
  lemma WordIsLast(base: seq<Byte>, data: seq<Byte>, n: nat, word: seq<Byte>)
    requires n <= |data| && |word| == 8 <= |base| + n && (|base| + n) % 8 == 0
    requires (base + data[..n])[|base| + n - 8..] == word
    ensures WordEnds(base, data, n) && WordAt(base, data, n) == word
  {
    assert base + data == (base + data[..n]) + data[n..];
  }

  function Rank(stage: Stage): nat {
    match stage
    case Start => 0
    case WriteUncompressedRun => 1
    case WriteRunWordCount => 2
    case WriteWord => 3
  }

  lemma TakeMore(front: seq<Byte>, inbuf: seq<Byte>, n: nat, k: nat)
    requires n + k <= |inbuf|
    ensures front + inbuf[..n] + inbuf[n..][..k] == front + inbuf[..n + k]
    ensures inbuf[n..][k..] == inbuf[n + k..]
  {
    assert inbuf[..n] + inbuf[n..][..k] == inbuf[..n + k];
  }

  /** A run in progress: its header is out, and what was forwarded is what was taken. */
  ghost predicate InRun(word: seq<Byte>, runTotal: nat, unitOut: seq<Byte>, unitIn: seq<Byte>, left: nat) {
    && |word| == 8 && runTotal % 8 == 0
    && |unitOut| == 10 + runTotal - left && |unitIn| == 8 + runTotal - left && left <= runTotal
    && unitOut[..10] == [255] + word + [(runTotal / 8) % 256]
    && unitIn[..8] == word
    && unitOut[10..] == unitIn[8..]
  }

  lemma DropPrefix(a: seq<Byte>, b: seq<Byte>, n: nat)
    requires a <= b && n <= |a|
    ensures b[..|a|] == a && a[..n] == b[..n] && a[n..] <= b[n..] && a[..n] + a[n..] == a
  {
  }

  lemma RunGrows(word: seq<Byte>, runTotal: nat, unitOut: seq<Byte>, unitIn: seq<Byte>, left: nat, more: seq<Byte>)
    requires InRun(word, runTotal, unitOut, unitIn, left) && |more| <= left
    ensures InRun(word, runTotal, unitOut + more, unitIn + more, left - |more|)
  {
    assert (unitOut + more)[..10] == unitOut[..10] && (unitOut + more)[10..] == unitOut[10..] + more;
    assert (unitIn + more)[..8] == unitIn[..8] && (unitIn + more)[8..] == unitIn[8..] + more;
  }

  lemma RunGood(word: seq<Byte>, runTotal: nat, unitOut: seq<Byte>, unitIn: seq<Byte>)
    requires InRun(word, runTotal, unitOut, unitIn, 0)
    ensures Good(unitOut, unitIn, false, TooLong(runTotal))
  {
    hide Unpack;
    var raw := unitIn[8..];
    assert unitOut == unitOut[..10] + unitOut[10..] == RawUnit(word, raw);
    assert unitIn == word + raw;
    if runTotal / 8 <= 255 { RawUnitMeans(word, raw); }
  }

  lemma ZeroesGood(word: seq<Byte>, runBytes: nat)
    requires |word| == 8 && TagOf(word) == 0 && runBytes % 8 == 0
    ensures Squeeze(word) == []
    ensures Good([0] + [(runBytes / 8) % 256], word + Zeros(runBytes), TooLong(runBytes), false)
  {
    hide Unpack, TagOf, Squeeze;
    var k := runBytes / 8;
    TagShape(word);
    ZeroUnitMeaning(k);
    assert [0] + [k % 256] == ZeroUnit(k);
    assert word + Zeros(runBytes) == Zeros(8 + 8 * k);
  }

  lemma PlainGood(word: seq<Byte>)
    requires |word| == 8 && TagOf(word) != 0 && TagOf(word) != 255
    ensures TagOf(word) < 256
    ensures Good([TagOf(word)] + Squeeze(word), word, false, false)
  {
    hide Unpack, TagOf, Squeeze;
    PlainUnit(word);
  }

  lemma EmptyWord()
    ensures TagOf([]) == 0 && Squeeze([]) == []
  {
  }

  lemma {:induction false} Pow2AtMost(n: nat)
    requires n <= 8
    ensures Pow2(n) <= 256
    decreases 8 - n
  {
    if n == 8 { Pow2Eight(); } else { Pow2AtMost(n + 1); }
  }

  // ------------------------------------------------- whole encodings

  function Flatten(chunks: seq<seq<Byte>>): (flat: seq<Byte>) {
    if chunks == [] then [] else Flatten(chunks[..|chunks| - 1]) + chunks[|chunks| - 1]
  }

  /** No buffer in the list holds a run that overflows its count byte. */
  ghost predicate AllRunsFit(chunks: seq<seq<Byte>>) {
    forall i | 0 <= i < |chunks| :: RunsFit(Flatten(chunks[..i]), chunks[i])
  }

  ghost predicate NoLongDense(chunks: seq<seq<Byte>>) {
    forall i | 0 <= i < |chunks| :: !LongDense(Flatten(chunks[..i]), chunks[i])
  }

  ghost predicate SomeLongZeroes(chunks: seq<seq<Byte>>) {
    exists i | 0 <= i < |chunks| :: LongZeroesInside(Flatten(chunks[..i]), chunks[i])
  }

  /** A buffer of fewer than 256 words cannot hold one. */
  lemma SmallBufferFits(base: seq<Byte>, data: seq<Byte>)
    requires |data| < 2048
    ensures RunsFit(base, data)
  {
    hide ZeroRun, DenseRun, Full;
    forall j: nat ensures !ZeroesAt(base, data, j) && !DenseAt(base, data, j) {
      if j <= |data| { assert 8 * ZeroRun(data[j..]) <= |data| && 8 * DenseRun(data[j..]) <= |data|; }
    }
  }

  /** Encodes a list of buffers with one encoder, for every behaviour of the sink: however the
      input is cut into buffers, what is written means the whole input if no run that the encoder can find is longer
      than 255 words; and if the only such runs are zero runs behind words of the same buffer, words are lost. */
  method Encode(chunks: seq<seq<Byte>>, sink: ByteSink) returns (out: seq<Byte>)
    modifies sink
    ensures sink.written == old(sink.written) + out
    ensures |Flatten(chunks)| % 8 == 0 ==> 8 * |out| <= 10 * |Flatten(chunks)|
    ensures |Flatten(chunks)| % 8 == 0 && AllRunsFit(chunks) ==> Unpack(out) == Unpacked(Flatten(chunks), Clean)
    ensures |Flatten(chunks)| % 8 == 0 && NoLongDense(chunks) && SomeLongZeroes(chunks) ==>
      Unpack(out) != Unpacked(Flatten(chunks), Clean)
  {
    hide Unpack, LongZeroes, LongZeroesInside, LongDense, Packed;
    hide Writer.Valid, Writer.ZeroOver, Writer.RawOver, Writer.Outcome;
    var start := |sink.written|;
    var writer := new Writer(sink);
    for i := 0 to |chunks|
      invariant fresh(writer.buf) && fresh(writer.packedBuf)
      invariant writer.sink == sink && writer.before == old(sink.written)
      invariant writer.Valid() && writer.owed == [] && writer.consumed == Flatten(chunks[..i])
      invariant AllRunsFit(chunks) ==> !writer.ZeroOver()
      invariant NoLongDense(chunks) ==> !writer.RawOver()
      invariant (exists k | 0 <= k < i :: LongZeroesInside(Flatten(chunks[..k]), chunks[k])) ==> writer.ZeroOver()
    {
      assert chunks[..i + 1][..i] == chunks[..i];
      writer.WriteAll(chunks[i]);
    }
    assert chunks[..|chunks|] == chunks;
    writer.Flush();
    out := sink.written[start..];
  }

  /** Encodes one buffer of whole words, which comes to the same for every behaviour of the sink. If it holds no run
      of dense words that is too long, its meaning is kept if and only if no zero word in it has more than 255 zero
      words behind it. */
  method EncodeBuffer(data: seq<Byte>, sink: ByteSink) returns (out: seq<Byte>)
    requires |data| % 8 == 0
    modifies sink
    ensures sink.written == old(sink.written) + out && 8 * |out| <= 10 * |data|
    ensures out == Packed(data)
    ensures !LongDense([], data) ==> (Unpack(out) == Unpacked(data, Clean) <==> !LongZeroes([], data))
  {
    hide Unpack, LongDense, ZeroRun, Packed, Writer.Valid, Writer.ZeroOver, Writer.RawOver, Writer.Outcome;
    var start := |sink.written|;
    var writer := new Writer(sink);
    writer.WriteAll(data);
    writer.Flush();
    assert [] + data == data;
    if LongZeroes([], data) {
      var j: nat :| ZeroesAt([], data, j);
      assert LongZeroesInside([], data);
    }
    out := sink.written[start..];
  }

  // ------------------------------- runs too long for their count byte

  /** Every whole word of `s` has at most one zero byte. */
  ghost predicate Dense(s: seq<Byte>) {
    |s| % 8 == 0 && DenseUpTo(s, |s| / 8)
  }

  lemma DenseSplit(a: seq<Byte>, b: seq<Byte>)
    requires Dense(a + b) && |a| % 8 == 0
    ensures Dense(a) && Dense(b) && |b| % 8 == 0
  {
    hide ZeroCount;
    forall i | 0 <= i < |a| / 8 ensures ZeroCount(a[8 * i..8 * i + 8]) <= 1 {
      assert a[8 * i..8 * i + 8] == (a + b)[8 * i..8 * i + 8];
    }
    forall i | 0 <= i < |b| / 8 ensures ZeroCount(b[8 * i..8 * i + 8]) <= 1 {
      var k := |a| / 8 + i;
      assert b[8 * i..8 * i + 8] == (a + b)[8 * k..8 * k + 8];
    }
  }

  /** A spread word has a zero byte for each clear bit. */
  lemma {:induction false} SpreadZeroes(tag: nat, k: nat, data: seq<Byte>)
    requires Ones(tag, k) <= |data|
    ensures ZeroCount(Spread(tag, k, data)) >= k - Ones(tag, k)
  {
    if k == 0 {
    } else {
      var tail := Spread(tag / 2, k - 1, if tag % 2 == 1 then data[1..] else data);
      SpreadZeroes(tag / 2, k - 1, if tag % 2 == 1 then data[1..] else data);
      ZeroCountCons(Spread(tag, k, data)[0], tail);
    }
  }

  lemma {:induction false} ZeroCountCons(b: Byte, s: seq<Byte>)
    ensures ZeroCount([b] + s) == ZeroCount(s) + if b == 0 then 1 else 0
  {
    if s == [] {
      assert [b] + s == [b] && [b][..0] == [];
    } else {
      var n := |s| - 1;
      assert ([b] + s)[..n + 1] == [b] + s[..n];
      ZeroCountCons(b, s[..n]);
    }
  }

  /** The packed form of a code unit whose words are dense is no shorter than the words, and
      longer after a full tag. */
  lemma DenseUnitCost(p: seq<Byte>)
    requires |p| >= 2 && UnitSize(p) <= |p| && Dense(UnitBytes(p))
    ensures UnitSize(p) >= |UnitBytes(p)|
    ensures UnitSize(p) == |UnitBytes(p)| ==> p[0] != 0 && p[0] != 255
  {
    hide Spread, ZeroCount, Ones;
    var word := UnitBytes(p)[8 * 0..8 * 0 + 8];
    assert ZeroCount(word) <= 1;
    if p[0] == 0 {
      assert word == Zeros(8) == [0] + ([0] + Zeros(6));
      ZeroCountCons(0, Zeros(6));
      ZeroCountCons(0, [0] + Zeros(6));
      assert false;
    } else if p[0] != 255 {
      TagExtremes(p[0]);
      SpreadZeroes(p[0], 8, p[1..]);
      assert word == Spread(p[0], 8, p[1..]);
    }
  }

  lemma {:induction false} DenseCost(p: seq<Byte>)
    requires Unpack(p).end.Clean? && Dense(Unpack(p).bytes)
    ensures |p| >= |Unpack(p).bytes|
    ensures p != [] && |p| == |Unpack(p).bytes| ==> UnitSize(p) == |UnitBytes(p)| && Dense(UnitBytes(p))
    decreases |p|
  {
    hide UnitSize, UnitBytes, Dense;
    if p == [] {
    } else {
      var n := UnitSize(p);
      DenseSplit(UnitBytes(p), Unpack(p[n..]).bytes);
      DenseUnitCost(p);
      DenseCost(p[n..]);
    }
  }

  /** A tag with a clear bit cannot head a word that equals its own packed form. */
  lemma NotOwnPacking(p: seq<Byte>, j: nat)
    requires |p| >= 8 && p[0] != 0 && j < 8
    requires Ones(p[0], j) == j && !Bit(p[0], j) && Ones(p[0], 8) < |p|
    ensures Spread(p[0], 8, p[1..]) != p[..8]
  {
    hide Spread, Ones, Bit;
    var word := Spread(p[0], 8, p[1..]);
    if word == p[..8] {
      var i := 0;
      while i < j
        invariant i <= j && p[i] == p[0]
      {
        OnesBelow(p[0], i, j);
        SpreadAt(p[0], 8, p[1..], i);
        assert word[i] == p[..8][i];
        i := i + 1;
      }
      assert word[j] == p[..8][j] != 0;
      SpreadAt(p[0], 8, p[1..], j);
      assert false;
    }
  }

  /** No nonempty string of dense words is its own packed form. */
  lemma NotSelfPacked(r: seq<Byte>)
    requires r != [] && Dense(r)
    ensures Unpack(r) != Unpacked(r, Clean)
  {
    hide Dense, Spread, Ones;
    if Unpack(r) == Unpacked(r, Clean) {
      DenseCost(r);
      DenseUnitCost(r);
      TagExtremes(r[0]);
      var j := FirstClear(r[0], 8);
      assert UnitBytes(r) == Spread(r[0], 8, r[1..]);
      assert r[..8] == Unpack(r).bytes[..8] == UnitBytes(r);
      NotOwnPacking(r, j);
      assert false;
    }
  }

  /** A string of dense words does not survive being read as packed words after a shorter run. */
  lemma LongRunIsLost(word: seq<Byte>, raw: seq<Byte>, run: nat)
    requires run < |raw| && run % 8 == 0 && Dense(raw)
    ensures Prepend(word, UnpackRun(run, raw)) != Unpacked(word + raw, Clean)
  {
    hide Dense, Unpack;
    var rest := raw[run..];
    assert raw == raw[..run] + rest;
    DenseSplit(raw[..run], rest);
    var u := Unpack(rest);
    if word + (raw[..run] + u.bytes) == word + raw && u.end == Clean {
      assert raw[..run] + u.bytes == (word + (raw[..run] + u.bytes))[|word|..] == (word + raw)[|word|..] == raw;
      assert u.bytes == (raw[..run] + u.bytes)[run..] == rest;
      NotSelfPacked(rest);
      assert false;
    }
  }

  /** A run of uncompressed words keeps its meaning exactly when its count fits in a byte. */
  lemma RawUnitMeaning(word: seq<Byte>, raw: seq<Byte>)
    requires |word| == 8 && Dense(raw)
    ensures Unpack(RawUnit(word, raw)) == Unpacked(word + raw, Clean) <==> |raw| / 8 <= 255
  {
    hide Spread, DenseUpTo, Unpack, UnpackRun;
    if |raw| / 8 <= 255 {
      RawUnitMeans(word, raw);
    } else {
      var unit := RawUnit(word, raw);
      assert unit[9] == (|raw| / 8) % 256 && unit[10..] == raw && unit[1..9] == word;
      UnpackFullWord(unit);
      LongRunIsLost(word, raw, RunBytes(unit[9]));
    }
  }

  /** Of buffers of zero words alone, those of up to 256 words fit: the first word heads the run. */
  lemma ZeroBufferFits(n: nat)
    ensures RunsFit([], Zeros(8 * n)) <==> n <= 256
  {
    hide ZeroRun, DenseRun;
    var data := Zeros(8 * n);
    forall j: nat | WordEnds([], data, j)
      ensures WordAt([], data, j) == Zeros(8) && 8 * ZeroRun(data[j..]) == 8 * n - j
      ensures !DenseAt([], data, j)
    {
      assert [] + data == data && data[j - 8..j] == Zeros(8) && data[j..] == Zeros(8 * n - j);
      assert data[j..][..8 * n - j] == Zeros(8 * n - j);
      ZeroRunUpTo(data[j..], 8 * n - j);
      assert WordAt([], data, j)[0] == 0;
    }
    if n > 256 { assert ZeroesAt([], data, 8); }
  }

  /** The smallest run that is lost: 256 zero words after a zero word come back as none. */
  lemma LongZeroRunIsLost()
    ensures ZeroRun(Zeros(2048)) == 256
    ensures Unpack(ZeroUnit(256)) == Unpacked(Zeros(8), Clean)
  {
    hide Unpack, ZeroRun;
    assert Zeros(2048)[..2048] == Zeros(2048);
    ZeroRunUpTo(Zeros(2048), 2048);
    ZeroUnitMeaning(256);
  }
}
