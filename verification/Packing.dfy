/** The packed stream encoding, as a reference semantics that knows nothing of
    suspension, buffers or stages: what a packed byte string means, and what one
    unpacked word looks like when it is packed.

    Follows section "Packing" of the Cap'n Proto encoding specification. */
module Packing {

  type Byte = b: int | 0 <= b < 256

  // ---------------------------------------------------------------- tags

  /** Two to the power `n`. */
  function Pow2(n: nat): (r: nat)
    ensures r > 0
  {
    if n == 0 then 1 else 2 * Pow2(n - 1)
  }

  /** The tag with its lowest `i` bits shifted out. */
  function Shr(tag: nat, i: nat): nat {
    if i == 0 then tag else Shr(tag / 2, i - 1)
  }

  /** Whether bit `i` of the tag is set. */
  predicate Bit(tag: nat, i: nat) {
    Shr(tag, i) % 2 == 1
  }

  /** How many of the lowest `k` bits are set. */
  function Ones(tag: nat, k: nat): (n: nat)
    ensures n <= k
  {
    if k == 0 then 0 else tag % 2 + Ones(tag / 2, k - 1)
  }

  /** The `k` unpacked bytes that a tag describes: a set bit takes the next data
      byte, a clear bit stands for a zero byte. */
  function Spread(tag: nat, k: nat, data: seq<Byte>): (out: seq<Byte>)
    requires Ones(tag, k) <= |data|
    ensures |out| == k
  {
    if k == 0 then []
    else if tag % 2 == 1 then [data[0]] + Spread(tag / 2, k - 1, data[1..])
    else [0] + Spread(tag / 2, k - 1, data)
  }

  /** The tag of a word: bit `i` is set exactly when byte `i` is nonzero. */
  function TagOf(word: seq<Byte>): nat {
    if word == [] then 0
    else (if word[0] != 0 then 1 else 0) + 2 * TagOf(word[1..])
  }

  /** The nonzero bytes of a word, in order. */
  function Squeeze(word: seq<Byte>): seq<Byte> {
    if word == [] then []
    else (if word[0] != 0 then [word[0]] else []) + Squeeze(word[1..])
  }

  lemma {:induction false} ShrStep(tag: nat, i: nat)
    ensures Shr(tag, i + 1) == Shr(tag, i) / 2
  {
    if i == 0 {
    } else {
      ShrStep(tag / 2, i - 1);
    }
  }

  /** Counting bits splits at any position. */
  lemma {:induction false} OnesStep(tag: nat, i: nat)
    ensures Ones(tag, i + 1) == Ones(tag, i) + (if Bit(tag, i) then 1 else 0)
  {
    if i == 0 {
    } else {
      OnesStep(tag / 2, i - 1);
    }
  }

  lemma {:induction false} AllOnes(tag: nat, j: nat)
    ensures Ones(tag, j) == j <==> forall i | 0 <= i < j :: Bit(tag, i)
  {
    hide Bit;
    if j == 0 {
    } else {
      AllOnes(tag, j - 1);
      OnesStep(tag, j - 1);
    }
  }

  /** Below a stretch of set bits, every count is full. */
  lemma {:induction false} OnesBelow(tag: nat, i: nat, j: nat)
    requires i < j && Ones(tag, j) == j
    ensures Ones(tag, i) == i && Bit(tag, i)
    decreases j
  {
    hide Bit;
    OnesStep(tag, j - 1);
    if i < j - 1 { OnesBelow(tag, i, j - 1); }
  }

  /** The lowest clear bit. */
  lemma {:induction false} FirstClear(tag: nat, k: nat) returns (j: nat)
    requires Ones(tag, k) < k
    ensures j < k && Ones(tag, j) == j && !Bit(tag, j)
  {
    hide Bit;
    OnesStep(tag, k - 1);
    if Ones(tag, k - 1) < k - 1 { j := FirstClear(tag, k - 1); } else { j := k - 1; }
  }

  /** A `k`-bit tag has no bit set only when it is zero, and all bits set only when
      it is the largest. */
  lemma {:induction false} OnesExtremes(tag: nat, k: nat)
    requires tag < Pow2(k)
    ensures Ones(tag, k) == 0 <==> tag == 0
    ensures Ones(tag, k) == k <==> tag == Pow2(k) - 1
  {
    if k == 0 {
    } else {
      OnesExtremes(tag / 2, k - 1);
    }
  }

  lemma Pow2Eight()
    ensures Pow2(8) == 256
  {
    assert Pow2(3) == 8;
    assert Pow2(6) == 64;
  }

  lemma TagExtremes(tag: Byte)
    ensures Ones(tag, 8) == 0 <==> tag == 0
    ensures Ones(tag, 8) == 8 <==> tag == 255
  {
    Pow2Eight();
    OnesExtremes(tag, 8);
  }

  /** Bit `i` of a tag, counted from the lowest, is set exactly when byte `i` of the word is nonzero. */
  lemma {:induction false} TagBits(word: seq<Byte>, i: nat)
    requires i < |word|
    ensures Bit(TagOf(word), i) <==> word[i] != 0
  {
    TagStep(word);
    if i == 0 {
    } else {
      TagBits(word[1..], i - 1);
    }
  }

  lemma {:induction false} TagBound(word: seq<Byte>)
    ensures TagOf(word) < Pow2(|word|)
  {
    if word == [] {
    } else {
      TagBound(word[1..]);
    }
  }

  /** Appending one byte sets exactly the next bit. */
  lemma {:induction false} TagSnoc(word: seq<Byte>, b: Byte)
    ensures TagOf(word + [b]) == TagOf(word) + (if b != 0 then Pow2(|word|) else 0)
  {
    if word == [] {
      assert word + [b] == [b];
    } else {
      assert (word + [b])[1..] == word[1..] + [b];
      TagSnoc(word[1..], b);
    }
  }

  lemma {:induction false} SqueezeSnoc(word: seq<Byte>, b: Byte)
    ensures Squeeze(word + [b]) == Squeeze(word) + (if b != 0 then [b] else [])
  {
    if word == [] {
      assert word + [b] == [b];
      assert Squeeze([b]) == (if b != 0 then [b] else []) + Squeeze([]);
    } else {
      assert (word + [b])[1..] == word[1..] + [b];
      SqueezeSnoc(word[1..], b);
      var first, rest := if word[0] != 0 then [word[0]] else [], Squeeze(word[1..]);
      var last := if b != 0 then [b] else [];
      assert Squeeze(word) == first + rest && Squeeze(word + [b]) == first + (rest + last);
      hide Squeeze;
      assert first + (rest + last) == (first + rest) + last;
    }
  }

  /** Spreading the squeezed bytes of a word by its tag gives the word back, whatever
      follows in the stream. */
  lemma {:induction false} SpreadSqueeze(word: seq<Byte>, rest: seq<Byte>)
    ensures Ones(TagOf(word), |word|) == |Squeeze(word)| <= |word|
    ensures Spread(TagOf(word), |word|, Squeeze(word) + rest) == word
  {
    if word == [] {
    } else {
      var tail := word[1..];
      SpreadSqueeze(tail, rest);
      TagStep(word);
      hide TagOf;
      if word[0] != 0 {
        assert Squeeze(word) == [word[0]] + Squeeze(tail);
        hide Squeeze;
        assert (Squeeze(word) + rest)[1..] == Squeeze(tail) + rest;
        assert word == [word[0]] + tail;
      } else {
        assert Squeeze(word) == Squeeze(tail);
        hide Squeeze;
        assert word == [0] + tail;
      }
    }
  }

  lemma TagStep(word: seq<Byte>)
    requires word != []
    ensures TagOf(word) / 2 == TagOf(word[1..])
    ensures TagOf(word) % 2 == if word[0] != 0 then 1 else 0
  {
  }

  lemma {:induction false} SqueezeExtremes(word: seq<Byte>)
    ensures |Squeeze(word)| == 0 <==> word == Zeros(|word|)
    ensures |Squeeze(word)| == |word| <==> (forall i | 0 <= i < |word| :: word[i] != 0)
    ensures |Squeeze(word)| == |word| ==> Squeeze(word) == word
    ensures |Squeeze(word)| <= |word|
  {
    if word == [] {
    } else {
      SqueezeExtremes(word[1..]);
      assert word == [word[0]] + word[1..];
      assert Zeros(|word|)[1..] == Zeros(|word| - 1);
      assert Zeros(|word|)[0] == 0;
      if word[0] == 0 && word[1..] == Zeros(|word| - 1) { assert word == Zeros(|word|); }
      if word == Zeros(|word|) { assert word[1..] == Zeros(|word| - 1); }
    }
  }

  /** The three shapes a packed word can have: an all-zero word, a word with no zero
      byte, and the rest. */
  lemma TagShape(word: seq<Byte>)
    requires |word| == 8
    ensures TagOf(word) < 256
    ensures Ones(TagOf(word), 8) == |Squeeze(word)|
    ensures TagOf(word) == 0 <==> word == Zeros(8)
    ensures TagOf(word) == 0 ==> Squeeze(word) == []
    ensures TagOf(word) == 255 ==> Squeeze(word) == word
    ensures TagOf(word) != 255 ==> |Squeeze(word)| < 8
  {
    Pow2Eight();
    TagBound(word);
    SpreadSqueeze(word, []);
    SqueezeExtremes(word);
    TagExtremes(TagOf(word));
  }

  // ------------------------------------------------------- the meaning

  function Zeros(n: nat): (z: seq<Byte>)
    ensures |z| == n
  {
    seq(n, i => 0)
  }

  /** How a packed string stops. `Clean`: between code units. `CutTag`: after a lone tag
      byte. `CutWord`: inside the data bytes of a word. `CutRun`: inside a run of
      uncompressed words. */
  datatype Ending = Clean | CutTag | CutWord | CutRun

  datatype Unpacked = Unpacked(bytes: seq<Byte>, end: Ending)

  function Prepend(front: seq<Byte>, u: Unpacked): Unpacked {
    Unpacked(front + u.bytes, u.end)
  }

  /** How many bytes the decoder buffers for a nonzero tag: the tag, its data bytes
      and, after a full word, the count of uncompressed words. */
  function HeadSize(tag: Byte): (n: nat)
    requires tag != 0
    ensures 2 <= n <= 10
    ensures Ones(tag, 8) < n
  {
    TagExtremes(tag);
    if tag == 255 then 10 else 1 + Ones(tag, 8)
  }

  /** The run announced by a count byte, in bytes. */
  function RunBytes(count: Byte): (n: nat) {
    8 * (count as int)
  }

  /** The packed size of the first code unit, as far as the bytes at hand tell. */
  function UnitSize(p: seq<Byte>): (n: nat)
    requires |p| >= 2
    ensures n >= 2
  {
    if p[0] == 0 then 2
    else if p[0] == 255 && |p| >= 10 then 10 + RunBytes(p[9])
    else HeadSize(p[0])
  }

  /** The whole words that a complete first code unit means. */
  function UnitBytes(p: seq<Byte>): (out: seq<Byte>)
    requires 2 <= |p| && UnitSize(p) <= |p|
    ensures |out| > 0 && |out| % 8 == 0
  {
    if p[0] == 0 then
      WholeRun(p[1]);
      Zeros(8 + RunBytes(p[1]))
    else
      UnitFits(p);
      if p[0] == 255 then
        WholeRun(p[9]);
        Spread(p[0], 8, p[1..]) + p[10..10 + RunBytes(p[9])]
      else Spread(p[0], 8, p[1..])
  }

  /** A complete unit has the data bytes that its tag asks for, and a full word its run. */
  lemma UnitFits(p: seq<Byte>)
    requires 2 <= |p| && UnitSize(p) <= |p| && p[0] != 0
    ensures Ones(p[0], 8) <= |p[1..]|
    ensures p[0] == 255 ==> |p| >= 10 && 10 + RunBytes(p[9]) <= |p|
  {
    hide Ones, RunBytes;
  }

  lemma WholeRun(count: Byte)
    ensures (8 + RunBytes(count)) % 8 == 0
  {
    RunIsWhole(count);
    hide RunBytes;
    WholeSum(8, RunBytes(count));
  }

  lemma RunIsWhole(count: Byte)
    ensures RunBytes(count) % 8 == 0 && (8 + RunBytes(count)) % 8 == 0
  {
  }

  /** What a packed byte string means. A truncated string still means the bytes that
      come before the cut. */
  function Unpack(p: seq<Byte>): Unpacked {
    if |p| == 0 then Unpacked([], Clean)
    else if |p| == 1 then Unpacked([], CutTag)
    else if UnitSize(p) <= |p| then Prepend(UnitBytes(p), Unpack(p[UnitSize(p)..]))
    else if p[0] == 255 && |p| >= 10 then Unpacked(Spread(p[0], 8, p[1..]) + p[10..], CutRun)
    else Unpacked([], CutWord)
  }

  /** What `p` means while `run` bytes of uncompressed words are outstanding. */
  function UnpackRun(run: nat, p: seq<Byte>): Unpacked {
    if |p| < run then Unpacked(p, CutRun) else Prepend(p[..run], Unpack(p[run..]))
  }

  lemma PrependAssoc(a: seq<Byte>, b: seq<Byte>, u: Unpacked)
    ensures Prepend(a, Prepend(b, u)) == Prepend(a + b, u)
  {
    assert a + (b + u.bytes) == a + b + u.bytes;
  }

  /** A full word splits off: what is left is the run it announces. */
  lemma UnpackFullWord(p: seq<Byte>)
    requires |p| >= 10 && p[0] == 255
    ensures Unpack(p) == Prepend(p[1..9], UnpackRun(RunBytes(p[9]), p[10..]))
  {
    hide Spread, Ones, Zeros, RunBytes;
    var word, run := p[1..9], RunBytes(p[9]);
    FullWord(p[0], p[1..]);
    assert p[1..][..8] == word;
    if 10 + run <= |p| {
      FullUnit(p);
      hide UnitBytes, UnitSize, Unpack;
      assert p[10..][run..] == p[10 + run..];
      assert p[10..][..run] == p[10..10 + run];
      PrependAssoc(word, p[10..10 + run], Unpack(p[10 + run..]));
    } else {
      hide UnitBytes;
    }
  }

  lemma FullUnit(p: seq<Byte>)
    requires |p| >= 10 && |p| >= 10 + RunBytes(p[9]) && p[0] == 255
    ensures var end := 10 + RunBytes(p[9]);
      Unpack(p) == Prepend(p[1..9] + p[10..end], Unpack(p[end..]))
  {
    hide Spread, Ones, Zeros, RunBytes;
    FullWord(p[0], p[1..]);
    assert p[1..][..8] == p[1..9];
  }

  /** A code unit means the same whatever follows it. */
  lemma UnitLocal(p: seq<Byte>, more: seq<Byte>)
    requires |p| >= 2 && UnitSize(p) <= |p|
    ensures UnitSize(p + more) == UnitSize(p)
    ensures UnitBytes(p + more) == UnitBytes(p)
  {
    var q := p + more;
    assert q[0] == p[0] && q[1] == p[1];
    if p[0] != 0 {
      TagExtremes(p[0]);
      SpreadPrefix(p[0], 8, p[1..], more);
      assert q[1..] == p[1..] + more;
      if p[0] == 255 {
        assert q[9] == p[9];
        assert q[10..10 + RunBytes(p[9])] == p[10..10 + RunBytes(p[9])];
      }
    }
  }

  /** Spreading looks only at as many data bytes as the tag has bits. */
  lemma {:induction false} SpreadPrefix(tag: nat, k: nat, data: seq<Byte>, more: seq<Byte>)
    requires Ones(tag, k) <= |data|
    ensures Spread(tag, k, data + more) == Spread(tag, k, data)
  {
    if k == 0 {
    } else {
      if tag % 2 == 1 {
        assert (data + more)[1..] == data[1..] + more;
        SpreadPrefix(tag / 2, k - 1, data[1..], more);
      } else {
        SpreadPrefix(tag / 2, k - 1, data, more);
      }
    }
  }

  /** Packed strings compose: what follows a cleanly ended string does not change its
      meaning. */
  lemma {:induction false} UnpackConcat(a: seq<Byte>, b: seq<Byte>)
    requires Unpack(a).end.Clean?
    ensures Unpack(a + b) == Prepend(Unpack(a).bytes, Unpack(b))
    decreases |a|
  {
    hide UnitSize, UnitBytes;
    if a == [] {
      assert a + b == b;
      assert Unpack(b).bytes == [] + Unpack(b).bytes;
    } else {
      var n := UnitSize(a);
      UnitLocal(a, b);
      assert (a + b)[n..] == a[n..] + b;
      UnpackConcat(a[n..], b);
      PrependAssoc(UnitBytes(a), Unpack(a[n..]).bytes, Unpack(b));
    }
  }

  /** Cutting a packed string short leaves a beginning of what it means, and less than all unless nothing is cut off
      or a lone tag is all that was left. */
  lemma {:induction false} UnpackCut(a: seq<Byte>, b: seq<Byte>)
    ensures Unpack(a).bytes <= Unpack(a + b).bytes
    ensures b != [] && Unpack(a + b).end.Clean? ==> |Unpack(a).bytes| < |Unpack(a + b).bytes|
    decreases |a|
  {
    hide UnitBytes;
    if |a| < 2 {
      if |a + b| >= 2 { assert Unpack(a).bytes == []; }
    } else if UnitSize(a) <= |a| {
      var n := UnitSize(a);
      UnitLocal(a, b);
      assert (a + b)[n..] == a[n..] + b;
      UnpackCut(a[n..], b);
    } else {
      CutInUnit(a, b);
    }
  }

  /** The same inside a code unit: only a run of uncompressed words means anything before it is complete. */
  lemma CutInUnit(a: seq<Byte>, b: seq<Byte>)
    requires |a| >= 2 && UnitSize(a) > |a|
    ensures Unpack(a).bytes <= Unpack(a + b).bytes
    ensures b != [] && Unpack(a + b).end.Clean? ==> |Unpack(a).bytes| < |Unpack(a + b).bytes|
  {
    hide Spread, Ones, Zeros;
    if a[0] == 255 && |a| >= 10 {
      CutInRun(a, b);
    } else {
      assert Unpack(a).bytes == [];
      if Unpack(a + b).end.Clean? { assert |UnitBytes(a + b)| > 0; }
    }
  }

  lemma CutInRun(a: seq<Byte>, b: seq<Byte>)
    requires |a| >= 10 && a[0] == 255 && 10 + RunBytes(a[9]) > |a|
    ensures Unpack(a).bytes <= Unpack(a + b).bytes
    ensures b != [] && Unpack(a + b).end.Clean? ==> |Unpack(a).bytes| < |Unpack(a + b).bytes|
  {
    hide Unpack, RunBytes;
    var p, part, run := a + b, a[10..], RunBytes(a[9]);
    UnpackFullWord(a);
    UnpackFullWord(p);
    assert p[1..9] == a[1..9] && p[9] == a[9] && p[10..] == part + b;
    RunCut(run, part, b);
    assert Unpack(a).bytes == a[1..9] + part;
  }

  lemma RunCut(run: nat, part: seq<Byte>, more: seq<Byte>)
    requires |part| < run
    ensures UnpackRun(run, part).bytes == part
    ensures part <= UnpackRun(run, part + more).bytes
    ensures UnpackRun(run, part + more).end.Clean? ==> |UnpackRun(run, part + more).bytes| >= run
  {
    hide Unpack;
    if |part + more| >= run { assert (part + more)[..run][..|part|] == part; }
  }

  /** Whole words only: a cleanly ended string means a whole number of words. */
  lemma {:induction false} UnpackWhole(p: seq<Byte>)
    requires Unpack(p).end.Clean?
    ensures |Unpack(p).bytes| % 8 == 0
    decreases |p|
  {
    hide UnitSize, UnitBytes;
    if p == [] {
    } else {
      var unit, rest := UnitBytes(p), Unpack(p[UnitSize(p)..]).bytes;
      UnpackWhole(p[UnitSize(p)..]);
      assert Unpack(p).bytes == unit + rest;
      hide Unpack;
      WholeSum(|unit|, |rest|);
    }
  }

  lemma WholeSum(m: nat, n: nat)
    requires m % 8 == 0 && n % 8 == 0
    ensures (m + n) % 8 == 0
  {
  }

  /** Byte `i` of a spread word: a set bit takes the data byte counted by the bits below it. */
  lemma {:induction false} SpreadAt(tag: nat, k: nat, data: seq<Byte>, i: nat)
    requires i < k && Ones(tag, k) <= |data|
    ensures Bit(tag, i) ==> Ones(tag, i) < |data|
    ensures Spread(tag, k, data)[i] == if Bit(tag, i) then data[Ones(tag, i)] else 0
  {
    if i == 0 {
    } else {
      SpreadAt(tag / 2, k - 1, if tag % 2 == 1 then data[1..] else data, i - 1);
    }
  }

  /** A tag whose bits are all set spreads nothing apart. */
  lemma {:induction false} SpreadFull(tag: nat, k: nat, data: seq<Byte>)
    requires Ones(tag, k) == k <= |data|
    ensures Spread(tag, k, data) == data[..k]
  {
    if k == 0 {
    } else {
      SpreadFull(tag / 2, k - 1, data[1..]);
    }
  }

  /** A word without zero bytes is its own data. */
  lemma FullWord(tag: Byte, data: seq<Byte>)
    requires tag == 255 && |data| >= 8
    ensures Ones(tag, 8) == 8
    ensures Spread(tag, 8, data) == data[..8]
  {
    hide Spread;
    TagExtremes(tag);
    SpreadFull(tag, 8, data);
  }

  /** Two ways to go on after the same `n` bytes. */
  lemma SameFront(a: seq<Byte>, x: seq<Byte>, b: seq<Byte>, y: seq<Byte>, n: nat)
    requires a + x == b + y && n <= |a| && n <= |b|
    ensures a[..n] == b[..n] && a[n..] + x == b[n..] + y
  {
    assert a[n..] + x == (a + x)[n..] && b[n..] + y == (b + y)[n..];
    assert a[..n] == (a + x)[..n] && b[..n] == (b + y)[..n];
  }

  lemma PrefixAfter(a: seq<Byte>, b: seq<Byte>, n: nat)
    requires n <= |a| && n <= |b| && a[..n] == b[..n] && a[n..] <= b[n..]
    ensures a <= b && b[n..][|a| - n..] == b[|a|..]
  {
    assert a == a[..n] + a[n..] && b == b[..n] + b[n..];
  }

  /** Code units are self-delimiting: of two clean prefixes of one string, the one that means
      fewer bytes is a prefix of the other, and the difference is itself clean. */
  lemma {:induction false} CleanPrefixOrder(a: seq<Byte>, x: seq<Byte>, b: seq<Byte>, y: seq<Byte>)
    requires a + x == b + y
    requires Unpack(a).end.Clean? && Unpack(b).end.Clean?
    requires |Unpack(a).bytes| <= |Unpack(b).bytes|
    ensures a <= b
    ensures Unpack(b[|a|..]).end.Clean?
    ensures |Unpack(b).bytes| == |Unpack(a).bytes| + |Unpack(b[|a|..]).bytes|
    decreases |a|
  {
    hide UnitSize, UnitBytes;
    if a == [] {
      assert b[0..] == b;
    } else {
      assert b != [];
      var n := UnitSize(a);
      UnitLocal(a, x);
      UnitLocal(b, y);
      SameFront(a, x, b, y, n);
      CleanPrefixOrder(a[n..], x, b[n..], y);
      PrefixAfter(a, b, n);
    }
  }
}
