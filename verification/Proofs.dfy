/** The two iterative proof verifiers of the log, and exactly what they accept, of byte strings of any length. */
module Proofs {
  import opened BitWalk
  import opened Hashing
  import opened Merkle
  import opened Climbing

  datatype InclusionProof = InclusionProof(leafIndex: int, treeSize: int, hashes: seq<Bytes>)

  // ----- What the loops compute -----

  /** Acceptance of an inclusion proof, in terms of the walk over the bits of (leafIndex, treeSize - 1). */
  predicate InclusionAccepts(leaf: Bytes, proof: InclusionProof, root: Bytes) {
    && 0 <= proof.leafIndex < proof.treeSize
    && var w := Walk(proof.leafIndex, proof.treeSize - 1);
       && |proof.hashes| == |w|
       && Climb(leaf, w, proof.hashes) == root
  }

  /** The hashes the consistency loop runs over: the older root goes first when its size looks a power of two. */
  function FullProof(m: nat, oldRoot: Bytes, proof: seq<Bytes>): seq<Bytes>
    requires m >= 1
  {
    if PowerTest(m) then [oldRoot] + proof else proof
  }

  /** Acceptance of a consistency proof, in terms of the same walk. */
  predicate ConsistencyAccepts(oldSize: int, oldRoot: Bytes, newSize: int, newRoot: Bytes, proof: seq<Bytes>) {
    if oldSize < 0 || oldSize > newSize then false
    else if oldSize == newSize then proof == [] && oldRoot == newRoot
    else if oldSize == 0 then proof == []
    else if proof == [] then false
    else
      var full, w := FullProof(oldSize, oldRoot, proof), ConsistencyWalk(oldSize, newSize);
      && |full| == |w| + 1
      && ClimbOld(full[0], w, full[1..]) == oldRoot
      && Climb(full[0], w, full[1..]) == newRoot
  }

  // ----- The loops -----

  lemma WalkStep(fn: nat, sn: nat)
    requires fn <= sn && sn != 0
    ensures var w := Walk(fn, sn);
            if fn % 2 == 1 then w == [SiblingLeft] + Walk(fn / 2, sn / 2)
            else if fn == sn then w == [SiblingLeft] + Walk(StripZeros(fn) / 2, StripZeros(fn) / 2)
            else w == [SiblingRight] + Walk(fn / 2, sn / 2)
  {
  }

  lemma WalkEnds(fn: nat, sn: nat)
    requires fn <= sn
    ensures Walk(fn, sn) == [] <==> sn == 0
  {
  }

  /** Taking the next hash of a climb. */
  lemma ClimbNext(r: Bytes, w: seq<Side>, hashes: seq<Bytes>, j: nat)
    requires j < |w| && j < |hashes|
    ensures var up := Climb(r, w[..j], hashes[..j]);
            Climb(r, w[..j + 1], hashes[..j + 1]) ==
            (if w[j].SiblingLeft? then NodeHash(hashes[j], up) else NodeHash(up, hashes[j]))
    ensures var up := ClimbOld(r, w[..j], hashes[..j]);
            ClimbOld(r, w[..j + 1], hashes[..j + 1]) ==
            (if w[j].SiblingLeft? then NodeHash(hashes[j], up) else up)
  {
    assert w[..j + 1] == w[..j] + [w[j]] && hashes[..j + 1] == hashes[..j] + [hashes[j]];
    ClimbSnoc(r, w[..j], w[j], hashes[..j], hashes[j]);
  }

  /** Shifts fn and sn to where the next level starts; the walk's head has been taken. */
  method Shift(fn0: nat, sn0: nat, ghost left: bool) returns (fn: nat, sn: nat)
    requires fn0 <= sn0 && sn0 != 0 && left == (fn0 % 2 == 1 || fn0 == sn0)
    ensures fn <= sn
    ensures Walk(fn0, sn0) == [if left then SiblingLeft else SiblingRight] + Walk(fn, sn)
  {
    WalkStep(fn0, sn0);
    fn, sn := fn0, sn0;
    if fn % 2 == 1 || fn == sn {
      while fn % 2 == 0 && fn != 0
        invariant fn0 % 2 == 1 ==> fn == fn0 && sn == sn0
        invariant fn0 % 2 == 0 ==> fn == sn > 0 && StripZeros(fn) == StripZeros(fn0)
        decreases fn
      {
        fn := fn / 2;
        sn := sn / 2;
      }
    }
    fn := fn / 2;
    sn := sn / 2;
  }

  /** Section 2.1.3.2 of RFC 9162. */
  method VerifyInclusion(leaf: Bytes, proof: InclusionProof, root: Bytes) returns (ok: bool)
    ensures ok == InclusionAccepts(leaf, proof, root)
  {
    hide Walk, Climb;
    ClimbNothing(leaf);
    if proof.leafIndex < 0 || proof.treeSize - 1 < 0 || proof.leafIndex > proof.treeSize - 1 {
      return false;
    }
    var fn: nat, sn: nat := proof.leafIndex, proof.treeSize - 1;
    ghost var w := Walk(fn, sn);
    var r := leaf;
    var j := 0;
    while j < |proof.hashes|
      invariant 0 <= j <= |proof.hashes| && j <= |w|
      invariant fn <= sn && Walk(fn, sn) == w[j..]
      invariant r == Climb(leaf, w[..j], proof.hashes[..j])
    {
      WalkEnds(fn, sn);
      if sn == 0 {
        return false;
      }
      var p := proof.hashes[j];
      WalkStep(fn, sn);
      ClimbNext(leaf, w, proof.hashes, j);
      if fn % 2 == 1 || fn == sn {
        r := NodeHash(p, r);
      } else {
        r := NodeHash(r, p);
      }
      assert w[j] == w[j..][0];
      fn, sn := Shift(fn, sn, fn % 2 == 1 || fn == sn);
      assert w[j + 1..] == w[j..][1..];
      j := j + 1;
    }
    assert w[..|w|] == w && proof.hashes[..|proof.hashes|] == proof.hashes;
    ok := sn == 0 && r == root;
    WalkEnds(fn, sn);
  }

  /** Section 2.1.4.2 of RFC 9162. */
  method VerifyConsistency(oldSize: int, oldRoot: Bytes, newSize: int, newRoot: Bytes, proof: seq<Bytes>)
    returns (ok: bool)
    ensures ok == ConsistencyAccepts(oldSize, oldRoot, newSize, newRoot, proof)
  {
    if oldSize < 0 || oldSize > newSize { return false; }
    if oldSize == newSize { return proof == [] && oldRoot == newRoot; }
    if oldSize == 0 { return proof == []; }
    if proof == [] { return false; }
    var full := if PowerTest(oldSize) then [oldRoot] + proof else proof;
    var fn: nat, sn: nat := oldSize - 1, newSize - 1;
    while fn % 2 == 1
      invariant fn <= sn && StripOnes(fn, sn) == StripOnes(oldSize - 1, newSize - 1)
      decreases fn
    {
      fn := fn / 2;
      sn := sn / 2;
    }
    ok := ClimbBoth(full[0], full[1..], fn, sn, oldRoot, newRoot);
  }

  /** The loop of the consistency verifier over the hashes after the first. */
  method ClimbBoth(first: Bytes, rest: seq<Bytes>, fn0: nat, sn0: nat, oldRoot: Bytes, newRoot: Bytes)
    returns (ok: bool)
    requires fn0 <= sn0
    ensures var w := Walk(fn0, sn0);
            ok <==> |rest| == |w| && ClimbOld(first, w, rest) == oldRoot && Climb(first, w, rest) == newRoot
  {
    hide Walk, Climb, ClimbOld;
    ClimbNothing(first);
    var fn, sn := fn0, sn0;
    ghost var w := Walk(fn, sn);
    var fr, sr := first, first;
    var j := 0;
    while j < |rest|
      invariant 0 <= j <= |rest| && j <= |w|
      invariant fn <= sn && Walk(fn, sn) == w[j..]
      invariant fr == ClimbOld(first, w[..j], rest[..j])
      invariant sr == Climb(first, w[..j], rest[..j])
    {
      WalkEnds(fn, sn);
      if sn == 0 {
        return false;
      }
      var c := rest[j];
      WalkStep(fn, sn);
      ClimbNext(first, w, rest, j);
      if fn % 2 == 1 || fn == sn {
        fr := NodeHash(c, fr);
        sr := NodeHash(c, sr);
      } else {
        sr := NodeHash(sr, c);
      }
      assert w[j] == w[j..][0];
      fn, sn := Shift(fn, sn, fn % 2 == 1 || fn == sn);
      assert w[j + 1..] == w[j..][1..];
      j := j + 1;
    }
    assert w[..|w|] == w && rest[..|rest|] == rest;
    ok := sn == 0 && fr == oldRoot && sr == newRoot;
    WalkEnds(fn, sn);
  }

  // ----- What they accept -----

  /** Against the root of d, the inclusion verifier accepts the honest leaf with its honest path, and nothing else,
      whatever the lengths of the hashes it is given. */
  lemma {:induction false} InclusionExact(d: Leaves, leaf: Digest, index: int, hashes: seq<Bytes>)
    ensures InclusionAccepts(leaf, InclusionProof(index, |d|, hashes), Mth(d)) <==>
            0 <= index < |d| && leaf == d[index] && hashes == Path(index, d)
  {
    if 0 <= index < |d| {
      InclusionExactAt(d, leaf, index, hashes);
    }
  }

  lemma {:induction false} InclusionExactAt(d: Leaves, leaf: Digest, index: nat, hashes: seq<Bytes>)
    requires index < |d|
    ensures InclusionAccepts(leaf, InclusionProof(index, |d|, hashes), Mth(d)) <==>
            leaf == d[index] && hashes == Path(index, d)
  {
    hide PathSides, Path, Mth, Walk, Climb;
    WalkIsPathSides(index, |d|);
    PathLength(index, d);
    if |hashes| == |PathSides(index, |d|)| {
      ClimbExact(index, d, leaf, hashes);
    }
  }

  /** For a size the power-of-two test gets right, the loop accepts every proof cut from the honest hashes, with the
      root its first hash makes. */
  lemma {:induction false} ConsistencyLoopExact(d: Leaves, m: nat, oldRoot: Bytes, proof: seq<Bytes>)
    requires 0 < m < |d| && !Misjudged(m)
    ensures ConsistencyAccepts(m, oldRoot, |d|, Mth(d), proof) <==>
            var full := FullProof(m, oldRoot, proof);
            full != [] && Recut(full, Subproof(m, d, false)) && oldRoot == Patched(full[0], m, d)
  {
    hide Climb, ClimbOld, Mth, Subproof, Patched, Recut;
    var full := FullProof(m, oldRoot, proof);
    WalkIsSubproofSides(m, |d|);
    LowestIsRight(m, |d|);
    SubproofLength(m, d);
    if |full| == |SubproofSides(m, |d|)| + 1 {
      var first, rest := full[0], full[1..];
      assert full == [first] + rest;
      ConsistencyClimbExact(m, d, first, rest);
      if Recut(full, Subproof(m, d, false)) {
        OldRootRebuilt(m, d, first, rest);
      }
    } else {
      RecutLength(full, Subproof(m, d, false));
    }
  }

  lemma RecutLength(full: seq<Bytes>, honest: seq<Digest>)
    ensures Recut(full, honest) ==> |full| == |honest|
  {
  }

  /** For a size the test gets wrong, the loop accepts nothing at all, not even the honest proof. */
  lemma {:induction false} MisjudgedRejectsAll(d: Leaves, m: nat, oldRoot: Bytes, proof: seq<Bytes>)
    requires 0 < m < |d| && Misjudged(m)
    ensures !ConsistencyAccepts(m, oldRoot, |d|, Mth(d), proof)
  {
    MisjudgedExactly(m);
    WalkIsSubproofSides(m, |d|);
    LeftSpineIffPow2(m, |d|);
    assert ([oldRoot] + proof)[1..] == proof;
    if |proof| == |SubproofSides(m, |d|)| {
      ClimbOldGrows(oldRoot, SubproofSides(m, |d|), proof);
    }
  }

  /** The consistency verifier, for all inputs, byte strings of any length. Against the root of d it accepts exactly
      what is cut from the hashes of the log's own proof, with the root the first piece makes; a claim about the empty
      tree may name any root; and a proper prefix of a size the 32-bit test gets wrong is never accepted. */
  lemma {:induction false} ConsistencyExact(d: Leaves, m: int, oldRoot: Bytes, proof: seq<Bytes>)
    ensures ConsistencyAccepts(m, oldRoot, |d|, Mth(d), proof) <==>
            && 0 <= m <= |d|
            && (m == |d| ==> proof == [] && oldRoot == Mth(d))
            && (m == 0 < |d| ==> proof == [])
            && (0 < m < |d| ==>
                  && !Misjudged(m)
                  && var full := FullProof(m, oldRoot, proof);
                     full != [] && Recut(full, Subproof(m, d, false)) && oldRoot == Patched(full[0], m, d))
  {
    if 0 < m < |d| {
      hide Climb, ClimbOld, Mth, Subproof, Patched;
      if Misjudged(m) {
        MisjudgedRejectsAll(d, m, oldRoot, proof);
      } else {
        ConsistencyLoopExact(d, m, oldRoot, proof);
      }
    }
  }

  // ----- Proofs of digests -----

  predicate AllDigests(proof: seq<Bytes>) {
    forall i :: 0 <= i < |proof| ==> IsDigest(proof[i])
  }

  lemma CutInPlace(full: seq<Bytes>, honest: seq<Digest>)
    requires Recut(full, honest) && |honest| >= 2 && (IsDigest(full[0]) || IsDigest(full[1]))
    ensures full == honest
  {
    NodeHashExact(full[0], full[1], honest[0], honest[1]);
    NodeHashSplits(full[0], full[1], honest[0], honest[1]);
    assert full == [full[0], full[1]] + full[2..] && honest == [honest[0], honest[1]] + honest[2..];
  }

  lemma ConsEqual(x: Bytes, a: seq<Bytes>, y: Bytes, b: seq<Bytes>)
    ensures [x] + a == [y] + b <==> x == y && a == b
  {
    if [x] + a == [y] + b {
      assert ([x] + a)[0] == x && ([y] + b)[0] == y && ([x] + a)[1..] == a && ([y] + b)[1..] == b;
    }
  }

  /** What the verifier runs over is honest exactly when proof and older root are. */
  lemma FullIsHonest(d: Leaves, m: nat, oldRoot: Bytes, proof: seq<Bytes>)
    requires 0 < m < |d| && !Misjudged(m)
    ensures FullProof(m, oldRoot, proof) == Subproof(m, d, false) && oldRoot == Mth(d[..m]) <==>
            proof == Subproof(m, d, true) && oldRoot == Mth(d[..m])
  {
    SubproofOmitsOldRoot(m, d);
    LeftSpineIffPow2(m, |d|);
    hide Mth, Subproof;
    if IsPow2(m) {
      LowestIsRight(m, |d|);
      ConsEqual(oldRoot, proof, Mth(d[..m]), Subproof(m, d, true));
    }
  }

  /** If every hash in the proof is as long as a digest, the verifier accepts exactly the proof the log gives, with
      the root the first m leaves have, but for the empty tree and the misjudged sizes as before. */
  lemma {:induction false} DigestProofExact(d: Leaves, m: int, oldRoot: Bytes, proof: seq<Bytes>)
    requires AllDigests(proof)
    ensures ConsistencyAccepts(m, oldRoot, |d|, Mth(d), proof) <==>
            && 0 <= m <= |d|
            && (m == 0 < |d| || oldRoot == Mth(d[..m]))
            && proof == ConsistencyProof(m, d)
            && (0 < m < |d| ==> !Misjudged(m))
  {
    ConsistencyExact(d, m, oldRoot, proof);
    if m == |d| {
      assert d[..m] == d;
    } else if 0 < m < |d| && !Misjudged(m) {
      DigestProofExactWithin(d, m, oldRoot, proof);
    }
  }

  lemma {:induction false} DigestProofExactWithin(d: Leaves, m: nat, oldRoot: Bytes, proof: seq<Bytes>)
    requires 0 < m < |d| && !Misjudged(m) && AllDigests(proof)
    ensures var full := FullProof(m, oldRoot, proof);
            full != [] && Recut(full, Subproof(m, d, false)) && oldRoot == Patched(full[0], m, d) <==>
            oldRoot == Mth(d[..m]) && proof == Subproof(m, d, true)
  {
    hide Mth, Subproof, Patched;
    var full, honest := FullProof(m, oldRoot, proof), Subproof(m, d, false);
    LowestIsRight(m, |d|);
    SubproofLength(m, d);
    FullIsHonest(d, m, oldRoot, proof);
    if full != [] {
      PatchedExact(full[0], m, d);
      if Recut(full, honest) {
        CutInPlace(full, honest);
      }
    }
  }

  // ----- Proofs of byte strings -----

  /** An accepted older root is the one the first m leaves have exactly when the first hash the loop runs over is as
      long as a digest. */
  lemma {:induction false} OldRootTrueExactly(d: Leaves, m: nat, oldRoot: Bytes, proof: seq<Bytes>)
    requires 0 < m < |d| && ConsistencyAccepts(m, oldRoot, |d|, Mth(d), proof)
    ensures FullProof(m, oldRoot, proof) != []
    ensures oldRoot == Mth(d[..m]) <==> IsDigest(FullProof(m, oldRoot, proof)[0])
  {
    ConsistencyExact(d, m, oldRoot, proof);
    hide Mth, Subproof, Patched;
    var full := FullProof(m, oldRoot, proof);
    LowestIsRight(m, |d|);
    SubproofLength(m, d);
    PatchedExact(full[0], m, d);
    if IsDigest(full[0]) {
      CutInPlace(full, Subproof(m, d, false));
    }
  }

  /** The log's hashes with the first two cut apart elsewhere. */
  function CutAt(d: Leaves, m: nat, cut: nat): seq<Bytes>
    requires 0 < m < |d| && cut <= 2 * WIDTH && |Subproof(m, d, false)| >= 2
  {
    var honest := Subproof(m, d, false);
    var joined := honest[0].content + honest[1].content;
    [Bytes(joined[..cut]), Bytes(joined[cut..])] + honest[2..]
  }

  /** So the verifier does not check what it is for: for every list and every proper prefix of a size it judges rightly,
      it accepts a false root with a proof cut anywhere but between two digests. */
  lemma {:induction false} FalseRootAccepted(d: Leaves, m: nat, cut: nat)
    requires 0 < m < |d| && !Misjudged(m) && cut <= 2 * WIDTH && cut != WIDTH
    ensures |Subproof(m, d, false)| >= 2
    ensures var full := CutAt(d, m, cut);
            var oldRoot, proof := Patched(full[0], m, d), if IsPow2(m) then full[1..] else full;
            ConsistencyAccepts(m, oldRoot, |d|, Mth(d), proof) && oldRoot != Mth(d[..m])
  {
    LowestIsRight(m, |d|);
    SubproofLength(m, d);
    var full, honest := CutAt(d, m, cut), Subproof(m, d, false);
    var joined := honest[0].content + honest[1].content;
    assert joined[..cut] + joined[cut..] == joined && full[2..] == honest[2..];
    var oldRoot, proof := Patched(full[0], m, d), if IsPow2(m) then full[1..] else full;
    if IsPow2(m) {
      LeftSpineIffPow2(m, |d|);
      PatchedWithoutLeft(full[0], m, d);
      assert full == [full[0]] + full[1..];
    }
    assert FullProof(m, oldRoot, proof) == full;
    ConsistencyExact(d, m, oldRoot, proof);
    OldRootTrueExactly(d, m, oldRoot, proof);
  }

  lemma {:induction false} PatchedWithoutLeft(x: Bytes, m: nat, d: Leaves)
    requires 1 <= m <= |d| && SiblingLeft !in SubproofSides(m, |d|)
    ensures Patched(x, m, d) == x
    decreases |d|
  {
    if m < |d| {
      var s := SubproofSides(m, |d|);
      assert s[|s| - 1] in s;
      PatchedWithoutLeft(x, m, d[..Split(|d|)]);
    }
  }

  /** Soundness for lists holds all the same, with no bound on sizes or lengths: whoever holds any list behind the
      older root holds a prefix of d. */
  lemma {:induction false} ConsistencySound(d: Leaves, earlier: Leaves, oldRoot: Bytes, proof: seq<Bytes>)
    requires |earlier| >= 1 && Mth(earlier) == oldRoot
    requires ConsistencyAccepts(|earlier|, oldRoot, |d|, Mth(d), proof)
    ensures earlier <= d
  {
    var m := |earlier|;
    ConsistencyExact(d, m, oldRoot, proof);
    if m < |d| {
      var full := FullProof(m, oldRoot, proof);
      PatchedIsRoot(full[0], m, d, earlier);
      OldRootTrueExactly(d, m, oldRoot, proof);
    } else {
      assert d[..m] == d;
    }
    MthInjective(earlier, d[..m]);
  }

  /** Every log of more than 2^32 + 1 leaves has an honest proof its own verifier refuses. */
  lemma {:induction false} HonestProofRefused(d: Leaves)
    requires |d| > TWO32 + 1
    ensures var m := TWO32 + 1; !ConsistencyAccepts(m, Mth(d[..m]), |d|, Mth(d), ConsistencyProof(m, d))
  {
    FirstMisjudgedSize();
    MisjudgedRejectsAll(d, TWO32 + 1, Mth(d[..TWO32 + 1]), ConsistencyProof(TWO32 + 1, d));
  }
}
