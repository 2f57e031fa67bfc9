/**
  The perceptual-hash deduplicator of scripts/extract_frames.py
  (`dedupe_frames`): frames are visited in sorted file-name order and a frame
  is copied to the output directory iff its hash is farther than the
  threshold from the hash of every frame copied before it. Reading the images
  and computing their phash are outside the model: each frame arrives with
  its hash.
 */
module FrameDedup {

  /** `imagehash.phash` with its default size yields an 8x8 bit grid. */
  const HashBits := 64

  type Hash = seq<bool>

  /** A file of the input directory: its name and the phash of its image. */
  datatype Frame = Frame(name: string, hash: Hash)

  /** `h - prev` on two image hashes of the same size: the number of bits in
      which they differ. (imagehash refuses hashes of different sizes; phash
      hashes all have `HashBits` bits, and the model only compares those.) */
  function Hamming(a: Hash, b: Hash): (d: nat)
    ensures d <= |a|
    ensures |a| == |b| ==> (d == 0 <==> a == b)
  {
    if a == [] || b == [] then 0
    else
      var rest := Hamming(a[1..], b[1..]);
      assert a == [a[0]] + a[1..] && b == [b[0]] + b[1..];
      (if a[0] != b[0] then 1 else 0) + rest
  }

  lemma {:induction false} HammingSymmetric(a: Hash, b: Hash)
    ensures Hamming(a, b) == Hamming(b, a)
  {
    if a != [] && b != [] {
      HammingSymmetric(a[1..], b[1..]);
    }
  }

  predicate UniformHashes(fs: seq<Frame>) {
    forall i :: 0 <= i < |fs| ==> |fs[i].hash| == HashBits
  }

  // ----- sorted(os.listdir(in_dir)) -----

  /** Python's `<=` on strings: code point by code point, a proper prefix first. */
  predicate NameLeq(a: string, b: string) {
    a == [] || (b != [] && (a[0] < b[0] || (a[0] == b[0] && NameLeq(a[1..], b[1..]))))
  }

  lemma {:induction false} NameLeqTotal(a: string, b: string)
    ensures NameLeq(a, b) || NameLeq(b, a)
  {
    if a != [] && b != [] && a[0] == b[0] {
      NameLeqTotal(a[1..], b[1..]);
    }
  }

  lemma {:induction false} NameLeqTransitive(a: string, b: string, c: string)
    requires NameLeq(a, b) && NameLeq(b, c)
    ensures NameLeq(a, c)
  {
    if a != [] && b != [] && c != [] && a[0] == b[0] && b[0] == c[0] {
      NameLeqTransitive(a[1..], b[1..], c[1..]);
    }
  }

  predicate SortedByName(fs: seq<Frame>) {
    forall i, j :: 0 <= i < j < |fs| ==> NameLeq(fs[i].name, fs[j].name)
  }

  function InsertByName(f: Frame, fs: seq<Frame>): (r: seq<Frame>)
    requires SortedByName(fs)
    ensures multiset(r) == multiset(fs) + multiset{f}
    ensures SortedByName(r)
  {
    if fs == [] then [f]
    else if NameLeq(f.name, fs[0].name) then
      NameLeqBelowSorted(f, fs);
      [f] + fs
    else
      var rest := InsertByName(f, fs[1..]);
      InsertAfterHead(f, fs, rest);
      [fs[0]] + rest
  }

  lemma NameLeqBelowSorted(f: Frame, fs: seq<Frame>)
    requires SortedByName(fs) && fs != [] && NameLeq(f.name, fs[0].name)
    ensures SortedByName([f] + fs)
  {
    forall j | 0 < j < |fs| ensures NameLeq(f.name, fs[j].name) {
      NameLeqTransitive(f.name, fs[0].name, fs[j].name);
    }
  }

  /** A frame that sorts after the head goes into the tail, behind the head. */
  lemma InsertAfterHead(f: Frame, fs: seq<Frame>, rest: seq<Frame>)
    requires SortedByName(fs) && fs != [] && !NameLeq(f.name, fs[0].name)
    requires SortedByName(rest) && multiset(rest) == multiset(fs[1..]) + multiset{f}
    ensures multiset([fs[0]] + rest) == multiset(fs) + multiset{f}
    ensures SortedByName([fs[0]] + rest)
  {
    assert fs == [fs[0]] + fs[1..];
    NameLeqTotal(f.name, fs[0].name);
    forall j | 0 <= j < |rest| ensures NameLeq(fs[0].name, rest[j].name) {
      assert rest[j] in multiset(rest);
      if rest[j] != f {
        assert rest[j] in multiset(fs[1..]);
        var k :| 0 <= k < |fs[1..]| && fs[1..][k] == rest[j];
        assert fs[k + 1] == rest[j];
      }
    }
  }

  /** Reordering keeps every hash at `HashBits` bits. */
  lemma UniformPermutation(a: seq<Frame>, b: seq<Frame>)
    requires multiset(a) == multiset(b) && UniformHashes(b)
    ensures UniformHashes(a)
  {
    forall i | 0 <= i < |a| ensures |a[i].hash| == HashBits {
      assert a[i] in multiset(b);
      var k :| 0 <= k < |b| && b[k] == a[i];
    }
  }

  /** `sorted(...)` by file name: the same frames, in name order. */
  function SortByName(fs: seq<Frame>): (r: seq<Frame>)
    ensures SortedByName(r)
    ensures multiset(r) == multiset(fs)
  {
    if fs == [] then []
    else
      assert fs == [fs[0]] + fs[1..];
      InsertByName(fs[0], SortByName(fs[1..]))
  }

  // ----- the greedy filter -----

  /** `a` is `b` with some elements left out, the rest in their order. */
  predicate IsSubsequence(a: seq<Frame>, b: seq<Frame>) {
    if a == [] then true
    else if b == [] then false
    else (a[|a| - 1] == b[|b| - 1] && IsSubsequence(a[..|a| - 1], b[..|b| - 1])) ||
         IsSubsequence(a, b[..|b| - 1])
  }

  /** `all(abs(h - prev) > hash_threshold for prev in hashes)` over the
      kept frames. */
  predicate FarFromAll(h: Hash, kept: seq<Frame>, threshold: int) {
    forall j :: 0 <= j < |kept| ==> Hamming(h, kept[j].hash) > threshold
  }

  /** The frames `dedupe_frames` keeps when it visits `fs` in this order:
      each one is decided against the frames kept before it. */
  function Greedy(fs: seq<Frame>, threshold: int): (kept: seq<Frame>)
    ensures IsSubsequence(kept, fs)
    ensures |kept| <= |fs|
  {
    if fs == [] then []
    else
      var before := Greedy(fs[..|fs| - 1], threshold);
      var f := fs[|fs| - 1];
      if FarFromAll(f.hash, before, threshold) then
        assert (before + [f])[..|before|] == before;
        before + [f]
      else before
  }

  /** One visit of the loop: frame `i` is kept iff it is far from every
      frame kept among the first `i`. */
  lemma GreedyStep(fs: seq<Frame>, threshold: int, i: nat)
    requires i < |fs|
    ensures Greedy(fs[..i + 1], threshold) ==
            if FarFromAll(fs[i].hash, Greedy(fs[..i], threshold), threshold)
            then Greedy(fs[..i], threshold) + [fs[i]] else Greedy(fs[..i], threshold)
  {
    assert fs[..i + 1][..i] == fs[..i];
  }

  /** `dedupe_frames`: `kept` is the count it returns and `copied` the
      frames it copies to the output directory, in copy order. */
  method DedupeFrames(listing: seq<Frame>, threshold: int) returns (kept: nat, copied: seq<Frame>)
    requires UniformHashes(listing)
    ensures copied == Greedy(SortByName(listing), threshold)
    ensures kept == |copied| && kept <= |listing|
  {
    var frames := SortByName(listing);
    UniformPermutation(frames, listing);
    assert |frames| == |listing| by {
      assert |multiset(frames)| == |multiset(listing)|;
    }
    kept, copied := KeepFarFrames(frames, threshold);
  }

  /** The loop of `dedupe_frames` over the sorted names, with its list of
      accepted hashes and its counter. */
  method KeepFarFrames(frames: seq<Frame>, threshold: int) returns (kept: nat, copied: seq<Frame>)
    requires UniformHashes(frames)
    ensures copied == Greedy(frames, threshold)
    ensures kept == |copied|
  {
    var hashes: seq<Hash> := [];
    copied, kept := [], 0;
    for i := 0 to |frames|
      invariant copied == Greedy(frames[..i], threshold)
      invariant hashes == HashesOf(copied)
      invariant kept == |copied|
    {
      kept, copied, hashes := VisitFrame(frames, threshold, i, kept, copied, hashes);
    }
    assert frames[..|frames|] == frames;
  }

  /** One iteration: test frame `i` against the accepted hashes and, when it
      is far from all of them, copy it, record its hash and count it. */
  method VisitFrame(frames: seq<Frame>, threshold: int, i: nat, kept: nat, copied: seq<Frame>, hashes: seq<Hash>)
    returns (kept': nat, copied': seq<Frame>, hashes': seq<Hash>)
    requires i < |frames|
    requires copied == Greedy(frames[..i], threshold)
    requires hashes == HashesOf(copied) && kept == |copied|
    ensures copied' == Greedy(frames[..i + 1], threshold)
    ensures hashes' == HashesOf(copied') && kept' == |copied'|
  {
    var f := frames[i];
    var far := AllFar(f.hash, hashes, threshold);
    KeepStep(frames, threshold, i, copied, hashes, far);
    kept', copied', hashes' := kept, copied, hashes;
    if far {
      HashesOfAppend(copied, f);
      copied' := copied + [f];
      hashes' := hashes + [f.hash];
      kept' := kept + 1;
    }
  }

  /** The `hashes` list of `dedupe_frames`: the hashes of the kept frames. */
  function HashesOf(fs: seq<Frame>): (hs: seq<Hash>)
    ensures |hs| == |fs| && forall k :: 0 <= k < |fs| ==> hs[k] == fs[k].hash
  {
    seq(|fs|, k requires 0 <= k < |fs| => fs[k].hash)
  }

  lemma HashesOfAppend(fs: seq<Frame>, f: Frame)
    ensures HashesOf(fs + [f]) == HashesOf(fs) + [f.hash]
  {
  }

  lemma KeepStep(frames: seq<Frame>, threshold: int, i: nat, copied: seq<Frame>, hashes: seq<Hash>, far: bool)
    requires i < |frames|
    requires copied == Greedy(frames[..i], threshold)
    requires hashes == HashesOf(copied)
    requires far <==> forall k :: 0 <= k < |hashes| ==> Hamming(frames[i].hash, hashes[k]) > threshold
    ensures Greedy(frames[..i + 1], threshold) == if far then copied + [frames[i]] else copied
  {
    GreedyStep(frames, threshold, i);
    assert far == FarFromAll(frames[i].hash, copied, threshold);
  }

  /** The generator inside `all(...)`, which stops at the first hash that is
      too close. */
  method AllFar(h: Hash, hashes: seq<Hash>, threshold: int) returns (far: bool)
    ensures far <==> forall k :: 0 <= k < |hashes| ==> Hamming(h, hashes[k]) > threshold
  {
    for j := 0 to |hashes|
      invariant forall k :: 0 <= k < j ==> Hamming(h, hashes[k]) > threshold
    {
      if Hamming(h, hashes[j]) <= threshold {
        return false;
      }
    }
    return true;
  }

  // ----- what the greedy filter guarantees -----

  /** Every element of a subsequence is an element of the sequence. */
  lemma {:induction false} SubsequenceMembers(a: seq<Frame>, b: seq<Frame>)
    requires IsSubsequence(a, b)
    ensures forall x :: x in a ==> x in b
  {
    if a != [] && b != [] {
      var a', b' := a[..|a| - 1], b[..|b| - 1];
      if a[|a| - 1] == b[|b| - 1] && IsSubsequence(a', b') {
        SubsequenceMembers(a', b');
        assert a == a' + [a[|a| - 1]] && b == b' + [b[|b| - 1]];
      } else {
        SubsequenceMembers(a, b');
        assert b == b' + [b[|b| - 1]];
      }
    }
  }

  /** The loop invariant of `dedupe_frames`: any two kept hashes are farther
      apart than the threshold (the later one measured against the earlier). */
  lemma {:induction false} GreedyPairwiseFar(fs: seq<Frame>, t: int)
    ensures forall i, j :: 0 <= i < j < |Greedy(fs, t)| ==>
      Hamming(Greedy(fs, t)[j].hash, Greedy(fs, t)[i].hash) > t
  {
    if fs != [] {
      GreedyPairwiseFar(fs[..|fs| - 1], t);
    }
  }

  /** Later frames never undo an earlier decision: what is kept among the
      first `n` frames begins what is kept among all of them. */
  lemma {:induction false} GreedyPrefix(fs: seq<Frame>, t: int, n: nat)
    requires n <= |fs|
    ensures Greedy(fs[..n], t) <= Greedy(fs, t)
    decreases |fs| - n
  {
    if n == |fs| {
      assert fs[..n] == fs;
    } else {
      GreedyPrefix(fs, t, n + 1);
      GreedyGrows(fs, t, n);
      PrefixTransitive(Greedy(fs[..n], t), Greedy(fs[..n + 1], t), Greedy(fs, t));
    }
  }

  lemma GreedyGrows(fs: seq<Frame>, t: int, n: nat)
    requires n < |fs|
    ensures Greedy(fs[..n], t) <= Greedy(fs[..n + 1], t)
  {
    GreedyStep(fs, t, n);
  }

  lemma PrefixTransitive(a: seq<Frame>, b: seq<Frame>, c: seq<Frame>)
    requires a <= b && b <= c
    ensures a <= c
  {
    assert a == b[..|a|] && b == c[..|b|];
    assert c[..|b|][..|a|] == c[..|a|];
  }

  /** The first frame examined is always kept: `all` over no hashes is true. */
  lemma FirstFrameKept(fs: seq<Frame>, t: int)
    requires fs != []
    ensures |Greedy(fs, t)| >= 1 && Greedy(fs, t)[0] == fs[0]
  {
    GreedyPrefix(fs, t, 1);
    GreedyStep(fs, t, 0);
    assert fs[..0] == [];
  }

  /** How frame `i` fares in the whole run: when it is far from every frame
      kept before it, it is the next kept frame; otherwise it is dropped and
      lies within the threshold of one of those earlier kept frames. */
  lemma FrameDecision(fs: seq<Frame>, t: int, i: nat)
    requires i < |fs|
    ensures var before := Greedy(fs[..i], t);
      before <= Greedy(fs, t) &&
      if FarFromAll(fs[i].hash, before, t) then
        before + [fs[i]] <= Greedy(fs, t)
      else
        Greedy(fs[..i + 1], t) == before &&
        exists k :: 0 <= k < |before| && Hamming(fs[i].hash, before[k].hash) <= t
  {
    GreedyStep(fs, t, i);
    GreedyPrefix(fs, t, i);
    GreedyPrefix(fs, t, i + 1);
  }

  /** With a non-negative threshold every input frame, kept or dropped, is
      within the threshold of some kept frame. */
  lemma EveryFrameCovered(fs: seq<Frame>, t: int, i: nat)
    requires t >= 0 && i < |fs|
    ensures exists k :: 0 <= k < |Greedy(fs, t)| && Hamming(fs[i].hash, Greedy(fs, t)[k].hash) <= t
  {
    FrameDecision(fs, t, i);
    var before, kept := Greedy(fs[..i], t), Greedy(fs, t);
    if FarFromAll(fs[i].hash, before, t) {
      assert kept[|before|] == fs[i];
      assert Hamming(fs[i].hash, fs[i].hash) == 0;
    } else {
      var k :| 0 <= k < |before| && Hamming(fs[i].hash, before[k].hash) <= t;
      assert kept[k] == before[k];
    }
  }

  /** A negative threshold keeps every frame: no distance is below zero. */
  lemma {:induction false} NegativeThresholdKeepsAll(fs: seq<Frame>, t: int)
    requires t < 0
    ensures Greedy(fs, t) == fs
  {
    if fs != [] {
      NegativeThresholdKeepsAll(fs[..|fs| - 1], t);
      assert fs == fs[..|fs| - 1] + [fs[|fs| - 1]];
    }
  }

  /** Threshold 0 removes exact repeats only: the kept hashes are pairwise
      different, and every frame's hash is the hash of a kept frame. */
  lemma ZeroThresholdDropsRepeats(fs: seq<Frame>)
    requires UniformHashes(fs)
    ensures var kept := Greedy(fs, 0);
      (forall i, j :: 0 <= i < j < |kept| ==> kept[i].hash != kept[j].hash) &&
      (forall i :: 0 <= i < |fs| ==> fs[i].hash in HashesOf(kept))
  {
    var kept := Greedy(fs, 0);
    GreedyPairwiseFar(fs, 0);
    forall i, j | 0 <= i < j < |kept| ensures kept[i].hash != kept[j].hash {
      assert Hamming(kept[j].hash, kept[i].hash) > 0;
    }
    SubsequenceMembers(kept, fs);
    forall i | 0 <= i < |fs| ensures fs[i].hash in HashesOf(kept) {
      EveryFrameCovered(fs, 0, i);
      var k :| 0 <= k < |kept| && Hamming(fs[i].hash, kept[k].hash) <= 0;
      assert kept[k] in fs;
      assert |kept[k].hash| == HashBits;
      assert HashesOf(kept)[k] == kept[k].hash;
    }
  }

  /** Visiting one more frame, as the loop does: it is kept iff it is far
      from every frame kept so far. */
  lemma GreedySnoc(fs: seq<Frame>, f: Frame, t: int)
    ensures Greedy(fs + [f], t) ==
      if FarFromAll(f.hash, Greedy(fs, t), t) then Greedy(fs, t) + [f] else Greedy(fs, t)
  {
    assert (fs + [f])[..|fs|] == fs;
  }

  /** A frame within the threshold of kept frame `j` is dropped. */
  lemma DropNext(fs: seq<Frame>, f: Frame, t: int, j: nat)
    requires j < |Greedy(fs, t)| && Hamming(f.hash, Greedy(fs, t)[j].hash) <= t
    ensures Greedy(fs + [f], t) == Greedy(fs, t)
  {
    GreedySnoc(fs, f, t);
  }

  /** A frame farther than the threshold from every kept frame is kept. */
  lemma KeepNext(fs: seq<Frame>, f: Frame, t: int)
    requires FarFromAll(f.hash, Greedy(fs, t), t)
    ensures Greedy(fs + [f], t) == Greedy(fs, t) + [f]
  {
    GreedySnoc(fs, f, t);
  }

  /** A single frame is always kept. */
  lemma OnlyFrameKept(a: Frame, t: int)
    ensures Greedy([a], t) == [a]
  {
    GreedySnoc([], a, t);
    assert [] + [a] == [a];
  }

  /** The example's first two frames at threshold 4: both kept. */
  lemma TwoAtFour(a: Frame, b: Frame)
    requires Hamming(b.hash, a.hash) == 6
    ensures Greedy([a, b], 4) == [a, b]
  {
    OnlyFrameKept(a, 4);
    KeepNext([a], b, 4);
    assert [a] + [b] == [a, b];
  }

  /** The example's first three frames at threshold 4: c is dropped. */
  lemma ThreeAtFour(a: Frame, b: Frame, c: Frame)
    requires Hamming(b.hash, a.hash) == 6 && Hamming(c.hash, b.hash) == 4
    ensures Greedy([a, b, c], 4) == [a, b]
  {
    TwoAtFour(a, b);
    DropNext([a, b], c, 4, 1);
    assert [a, b] + [c] == [a, b, c];
  }

  /** Threshold 4 on the frames of `ThresholdNotMonotone`. */
  lemma KeptAtFour(a: Frame, b: Frame, c: Frame, d: Frame)
    requires Hamming(b.hash, a.hash) == 6
    requires Hamming(c.hash, b.hash) == 4 && Hamming(d.hash, b.hash) == 4
    ensures Greedy([a, b, c, d], 4) == [a, b]
  {
    ThreeAtFour(a, b, c);
    DropNext([a, b, c], d, 4, 1);
    assert [a, b, c] + [d] == [a, b, c, d];
  }

  /** The example's first two frames at threshold 7: b is dropped. */
  lemma TwoAtSeven(a: Frame, b: Frame)
    requires Hamming(b.hash, a.hash) == 6
    ensures Greedy([a, b], 7) == [a]
  {
    OnlyFrameKept(a, 7);
    DropNext([a], b, 7, 0);
    assert [a] + [b] == [a, b];
  }

  /** The example's first three frames at threshold 7: c is kept. */
  lemma ThreeAtSeven(a: Frame, b: Frame, c: Frame)
    requires Hamming(b.hash, a.hash) == 6 && Hamming(c.hash, a.hash) == 10
    ensures Greedy([a, b, c], 7) == [a, c]
  {
    TwoAtSeven(a, b);
    KeepNext([a, b], c, 7);
    assert [a, b] + [c] == [a, b, c];
    assert [a] + [c] == [a, c];
  }

  /** Threshold 7 on the frames of `ThresholdNotMonotone`. */
  lemma KeptAtSeven(a: Frame, b: Frame, c: Frame, d: Frame)
    requires Hamming(b.hash, a.hash) == 6
    requires Hamming(c.hash, a.hash) == 10
    requires Hamming(d.hash, a.hash) == 10 && Hamming(d.hash, c.hash) == 8
    ensures Greedy([a, b, c, d], 7) == [a, c, d]
  {
    ThreeAtSeven(a, b, c);
    assert FarFromAll(d.hash, [a, c], 7) by {
      assert [a, c][0] == a && [a, c][1] == c;
    }
    KeepNext([a, b, c], d, 7);
    assert [a, b, c] + [d] == [a, b, c, d];
    assert [a, c] + [d] == [a, c, d];
  }

  /** The kept set is not monotone in the threshold: four frames, visited
      in the order a, b, c, d, where b lies 6 from a, c and d lie 10 from a
      and 4 from b, and c and d lie 8 apart. Threshold 4 keeps a and b;
      the larger threshold 7 drops b, and so keeps c and d as well. */
  lemma ThresholdNotMonotone(a: Frame, b: Frame, c: Frame, d: Frame)
    requires Hamming(b.hash, a.hash) == 6
    requires Hamming(c.hash, a.hash) == 10 && Hamming(c.hash, b.hash) == 4
    requires Hamming(d.hash, a.hash) == 10 && Hamming(d.hash, b.hash) == 4 && Hamming(d.hash, c.hash) == 8
    ensures Greedy([a, b, c, d], 4) == [a, b]
    ensures Greedy([a, b, c, d], 7) == [a, c, d]
  {
    KeptAtFour(a, b, c, d);
    KeptAtSeven(a, b, c, d);
  }

  /** Zero-based run of `n` equal bits. */
  function Bits(n: nat, bit: bool): (h: Hash)
    ensures |h| == n && forall k :: 0 <= k < n ==> h[k] == bit
  {
    if n == 0 then [] else [bit] + Bits(n - 1, bit)
  }

  /** Distances add up over blocks of equal length. */
  lemma {:induction false} HammingAppend(x: Hash, y: Hash, u: Hash, v: Hash)
    requires |x| == |u|
    ensures Hamming(x + y, u + v) == Hamming(x, u) + Hamming(y, v)
  {
    if x != [] {
      assert (x + y)[1..] == x[1..] + y && (u + v)[1..] == u[1..] + v;
      HammingAppend(x[1..], y, u[1..], v);
    } else {
      assert x + y == y && u + v == v;
    }
  }

  /** A run of set bits against a run of clear bits differs everywhere;
      equal runs do not differ at all. */
  lemma {:induction false} HammingBits(n: nat, p: bool, q: bool)
    ensures Hamming(Bits(n, p), Bits(n, q)) == if p == q then 0 else n
  {
    if n > 0 {
      HammingBits(n - 1, p, q);
      assert Bits(n, p)[1..] == Bits(n - 1, p) && Bits(n, q)[1..] == Bits(n - 1, q);
    }
  }

  /** The four hashes of the example, on 14 bits. */
  function HashA(): Hash { Bits(6, false) + Bits(4, false) + Bits(4, false) }
  function HashB(): Hash { Bits(6, true) + Bits(4, false) + Bits(4, false) }
  function HashC(): Hash { Bits(6, true) + Bits(4, true) + Bits(4, false) }
  function HashD(): Hash { Bits(6, true) + Bits(4, false) + Bits(4, true) }

  /** Distance between two hashes made of blocks of 6 and 4 bits. */
  lemma TwoBlockDistance(p1: bool, p2: bool, q1: bool, q2: bool)
    ensures Hamming(Bits(6, p1) + Bits(4, p2), Bits(6, q1) + Bits(4, q2)) ==
      (if p1 == q1 then 0 else 6) + (if p2 == q2 then 0 else 4)
  {
    HammingBits(6, p1, q1);
    HammingBits(4, p2, q2);
    HammingAppend(Bits(6, p1), Bits(4, p2), Bits(6, q1), Bits(4, q2));
  }

  /** Distance between two hashes made of blocks of 6, 4 and 4 bits. */
  lemma BlockDistance(p1: bool, p2: bool, p3: bool, q1: bool, q2: bool, q3: bool)
    ensures Hamming(Bits(6, p1) + Bits(4, p2) + Bits(4, p3), Bits(6, q1) + Bits(4, q2) + Bits(4, q3)) ==
      (if p1 == q1 then 0 else 6) + (if p2 == q2 then 0 else 4) + (if p3 == q3 then 0 else 4)
  {
    TwoBlockDistance(p1, p2, q1, q2);
    HammingBits(4, p3, q3);
    HammingAppend(Bits(6, p1) + Bits(4, p2), Bits(4, p3), Bits(6, q1) + Bits(4, q2), Bits(4, q3));
  }

  /** Hashes meeting those distances exist: on 14 bits, a has no bit set,
      b bits 0-5, c bits 0-9, and d bits 0-5 and 10-13. */
  lemma NonMonotoneHashes()
    ensures var a, b, c, d := Frame("a.jpg", HashA()), Frame("b.jpg", HashB()), Frame("c.jpg", HashC()), Frame("d.jpg", HashD());
      Greedy([a, b, c, d], 4) == [a, b] && Greedy([a, b, c, d], 7) == [a, c, d]
  {
    BlockDistance(true, false, false, false, false, false);
    BlockDistance(true, true, false, false, false, false);
    BlockDistance(true, true, false, true, false, false);
    BlockDistance(true, false, true, false, false, false);
    BlockDistance(true, false, true, true, false, false);
    BlockDistance(true, false, true, true, true, false);
    ThresholdNotMonotone(Frame("a.jpg", HashA()), Frame("b.jpg", HashB()), Frame("c.jpg", HashC()), Frame("d.jpg", HashD()));
  }
}
