/** How far the hashing done along a verifier's walk determines its inputs, when the hashes it is given are byte
    strings of any length. */
module Climbing {
  import opened BitWalk
  import opened Hashing
  import opened Merkle

  // ----- Hashing along a walk -----

  /** r, joined with each hash on its side, first to last. */
  function Climb(r: Bytes, sides: seq<Side>, hashes: seq<Bytes>): Bytes
    requires |sides| == |hashes|
  {
    if sides == [] then r
    else
      var e := |sides| - 1;
      var below := Climb(r, sides[..e], hashes[..e]);
      if sides[e].SiblingLeft? then NodeHash(hashes[e], below) else NodeHash(below, hashes[e])
  }

  /** r, joined with the hashes on its left only: what the consistency verifier takes for the older root. */
  function ClimbOld(r: Bytes, sides: seq<Side>, hashes: seq<Bytes>): Bytes
    requires |sides| == |hashes|
  {
    if sides == [] then r
    else
      var e := |sides| - 1;
      var below := ClimbOld(r, sides[..e], hashes[..e]);
      if sides[e].SiblingLeft? then NodeHash(hashes[e], below) else below
  }

  lemma ClimbSnoc(r: Bytes, sides: seq<Side>, side: Side, front: seq<Bytes>, last: Bytes)
    requires |front| == |sides|
    ensures Climb(r, sides + [side], front + [last]) ==
            (if side.SiblingLeft? then NodeHash(last, Climb(r, sides, front))
              else NodeHash(Climb(r, sides, front), last))
    ensures ClimbOld(r, sides + [side], front + [last]) ==
            (if side.SiblingLeft? then NodeHash(last, ClimbOld(r, sides, front)) else ClimbOld(r, sides, front))
  {
    assert (sides + [side])[..|sides|] == sides && (front + [last])[..|front|] == front;
  }

  lemma SnocEqual(a: seq<Bytes>, x: Bytes, b: seq<Bytes>, y: Bytes)
    ensures a + [x] == b + [y] <==> a == b && x == y
  {
    if a + [x] == b + [y] {
      assert (a + [x])[..|a|] == a && (b + [y])[..|b|] == b;
      assert (a + [x])[|a|] == x && (b + [y])[|b|] == y;
    }
  }

  lemma ClimbNothing(r: Bytes)
    ensures Climb(r, [], []) == r && ClimbOld(r, [], []) == r
  {
  }

  /** Once something has been hashed, or if a digest was there from the start, a climb stands at a digest. */
  lemma ClimbIsDigest(r: Bytes, sides: seq<Side>, hashes: seq<Bytes>)
    requires |sides| == |hashes| && (IsDigest(r) || sides != [])
    ensures IsDigest(Climb(r, sides, hashes))
  {
  }

  // ----- Inclusion -----

  /** A climb along the sides of leaf m reaches the root exactly from that leaf, with that leaf's path: a hash of any
      other length is found out. */
  lemma {:induction false} ClimbExact(m: nat, d: Leaves, leaf: Digest, hashes: seq<Bytes>)
    requires m < |d| && |hashes| == |PathSides(m, |d|)|
    ensures Climb(leaf, PathSides(m, |d|), hashes) == Mth(d) <==> leaf == d[m] && hashes == Path(m, d)
    decreases |d|
  {
    if |d| >= 2 {
      var k, e := Split(|d|), |hashes| - 1;
      var front, last := hashes[..e], hashes[e];
      assert hashes == front + [last];
      if m < k {
        var below := Climb(leaf, PathSides(m, k), front);
        ClimbExact(m, d[..k], leaf, front);
        ClimbIsDigest(leaf, PathSides(m, k), front);
        ClimbSnoc(leaf, PathSides(m, k), SiblingRight, front, last);
        NodeHashSplits(below, last, Mth(d[..k]), Mth(d[k..]));
        SnocEqual(front, last, Path(m, d[..k]), Mth(d[k..]));
      } else {
        var below := Climb(leaf, PathSides(m - k, |d| - k), front);
        ClimbExact(m - k, d[k..], leaf, front);
        ClimbIsDigest(leaf, PathSides(m - k, |d| - k), front);
        ClimbSnoc(leaf, PathSides(m - k, |d| - k), SiblingLeft, front, last);
        NodeHashSplits(last, below, Mth(d[..k]), Mth(d[k..]));
        SnocEqual(front, last, Path(m - k, d[k..]), Mth(d[..k]));
      }
    }
  }

  // ----- Consistency -----

  /** What full proves of an honest proof: all its hashes, but for where the first two are cut apart. */
  predicate Recut(full: seq<Bytes>, honest: seq<Digest>) {
    && |full| == |honest|
    && (|honest| == 1 ==> full[0] == honest[0])
    && (|honest| >= 2 ==>
          && full[0].content + full[1].content == honest[0].content + honest[1].content
          && full[2..] == honest[2..])
  }

  lemma RecutSnoc(full: seq<Bytes>, x: Bytes, honest: seq<Digest>, y: Digest)
    requires |full| == |honest| >= 2
    ensures Recut(full + [x], honest + [y]) <==> Recut(full, honest) && x == y
  {
    assert (full + [x])[2..] == full[2..] + [x] && (honest + [y])[2..] == honest[2..] + [y];
    SnocEqual(full[2..], x, honest[2..], y);
  }

  /** The lowest join of a consistency walk has the newer hash on its right. */
  lemma {:induction false} LowestIsRight(m: nat, n: nat)
    requires 1 <= m < n
    ensures SubproofSides(m, n) != [] && SubproofSides(m, n)[0] == SiblingRight
    decreases n
  {
    var k := Split(n);
    if m < k {
      LowestIsRight(m, k);
    } else if k < m {
      LowestIsRight(m - k, n - k);
    }
  }

  lemma ConsSnoc(first: Bytes, front: seq<Bytes>, last: Bytes)
    ensures [first] + (front + [last]) == ([first] + front) + [last]
  {
  }

  lemma ConsistencyClimbRight(m: nat, n: nat, first: Bytes, front: seq<Bytes>, last: Bytes)
    requires 2 <= n && 1 <= m <= Split(n) && |front| == |SubproofSides(m, Split(n))|
    ensures SubproofSides(m, n) == SubproofSides(m, Split(n)) + [SiblingRight]
    ensures Climb(first, SubproofSides(m, n), front + [last])
            == NodeHash(Climb(first, SubproofSides(m, Split(n)), front), last)
    ensures ClimbOld(first, SubproofSides(m, n), front + [last]) == ClimbOld(first, SubproofSides(m, Split(n)), front)
  {
    ClimbSnoc(first, SubproofSides(m, Split(n)), SiblingRight, front, last);
  }

  lemma ConsistencyClimbLeft(m: nat, n: nat, first: Bytes, front: seq<Bytes>, last: Bytes)
    requires 2 <= n && Split(n) < m < n && |front| == |SubproofSides(m - Split(n), n - Split(n))|
    ensures SubproofSides(m, n) == SubproofSides(m - Split(n), n - Split(n)) + [SiblingLeft]
    ensures Climb(first, SubproofSides(m, n), front + [last]) ==
            NodeHash(last, Climb(first, SubproofSides(m - Split(n), n - Split(n)), front))
    ensures ClimbOld(first, SubproofSides(m, n), front + [last]) ==
            NodeHash(last, ClimbOld(first, SubproofSides(m - Split(n), n - Split(n)), front))
  {
    ClimbSnoc(first, SubproofSides(m - Split(n), n - Split(n)), SiblingLeft, front, last);
  }

  lemma MthUnfolds(d: Leaves)
    requires |d| >= 2
    ensures Mth(d) == NodeHash(Mth(d[..Split(|d|)]), Mth(d[Split(|d|)..]))
  {
  }

  lemma SubproofUnfolds(m: nat, d: Leaves)
    requires 1 <= m < |d|
    ensures var k := Split(|d|);
            Subproof(m, d, false) ==
            if m <= k then Subproof(m, d[..k], false) + [Mth(d[k..])]
              else Subproof(m - k, d[k..], false) + [Mth(d[..k])]
  {
  }

  /** The step at which the older tree is the whole left half. */
  lemma ClimbFromLeftHalf(d: Leaves, first: Bytes, last: Bytes)
    requires 2 <= |d|
    ensures |SubproofSides(Split(|d|), |d|)| == 1
    ensures var k := Split(|d|);
            Climb(first, SubproofSides(k, |d|), [last]) == Mth(d) <==> Recut([first, last], Subproof(k, d, false))
  {
    var k := Split(|d|);
    ConsistencyClimbRight(k, |d|, first, [], last);
    assert [] + [last] == [last];
    NodeHashExact(first, last, Mth(d[..k]), Mth(d[k..]));
    SubproofUnfolds(k, d);
    assert d[..k][..k] == d[..k];
    assert Subproof(k, d, false) == [Mth(d[..k]), Mth(d[k..])];
  }

  lemma ClimbHigherRight(m: nat, d: Leaves, first: Bytes, front: seq<Bytes>, last: Bytes)
    requires 2 <= |d| && 1 <= m < Split(|d|) && |front| == |SubproofSides(m, Split(|d|))|
    requires var left := d[..Split(|d|)];
             Climb(first, SubproofSides(m, Split(|d|)), front) == Mth(left) <==>
               Recut([first] + front, Subproof(m, left, false))
    ensures |front| + 1 == |SubproofSides(m, |d|)|
    ensures Climb(first, SubproofSides(m, |d|), front + [last]) == Mth(d) <==>
            Recut([first] + (front + [last]), Subproof(m, d, false))
  {
    hide Climb, ClimbOld, Mth, Recut, Subproof;
    var k := Split(|d|);
    MthUnfolds(d);
    LowestIsRight(m, k);
    SubproofLength(m, d[..k]);
    ConsistencyClimbRight(m, |d|, first, front, last);
    ClimbIsDigest(first, SubproofSides(m, k), front);
    NodeHashSplits(Climb(first, SubproofSides(m, k), front), last, Mth(d[..k]), Mth(d[k..]));
    ConsSnoc(first, front, last);
    SubproofUnfolds(m, d);
    RecutSnoc([first] + front, last, Subproof(m, d[..k], false), Mth(d[k..]));
  }

  lemma ClimbHigherLeft(m: nat, d: Leaves, first: Bytes, front: seq<Bytes>, last: Bytes)
    requires 2 <= |d| && Split(|d|) < m < |d| && |front| == |SubproofSides(m - Split(|d|), |d| - Split(|d|))|
    requires var k := Split(|d|);
             Climb(first, SubproofSides(m - k, |d| - k), front) == Mth(d[k..]) <==>
             Recut([first] + front, Subproof(m - k, d[k..], false))
    ensures |front| + 1 == |SubproofSides(m, |d|)|
    ensures Climb(first, SubproofSides(m, |d|), front + [last]) == Mth(d) <==>
            Recut([first] + (front + [last]), Subproof(m, d, false))
  {
    hide Climb, ClimbOld, Mth, Recut, Subproof;
    var k := Split(|d|);
    MthUnfolds(d);
    LowestIsRight(m - k, |d| - k);
    SubproofLength(m - k, d[k..]);
    ConsistencyClimbLeft(m, |d|, first, front, last);
    ClimbIsDigest(first, SubproofSides(m - k, |d| - k), front);
    NodeHashSplits(last, Climb(first, SubproofSides(m - k, |d| - k), front), Mth(d[..k]), Mth(d[k..]));
    ConsSnoc(first, front, last);
    SubproofUnfolds(m, d);
    RecutSnoc([first] + front, last, Subproof(m - k, d[k..], false), Mth(d[..k]));
  }

  /** A climb along the consistency sides reaches the root exactly from the subproof, wherever its first two hashes
      are cut apart. */
  lemma {:induction false} ConsistencyClimbExact(m: nat, d: Leaves, first: Bytes, rest: seq<Bytes>)
    requires 1 <= m < |d| && |rest| == |SubproofSides(m, |d|)|
    ensures Climb(first, SubproofSides(m, |d|), rest) == Mth(d) <==> Recut([first] + rest, Subproof(m, d, false))
    decreases |d|
  {
    hide Climb, Mth, Recut, Subproof;
    LowestIsRight(m, |d|);
    var k, e := Split(|d|), |rest| - 1;
    var front, last := rest[..e], rest[e];
    assert rest == front + [last];
    if m == k {
      ClimbFromLeftHalf(d, first, last);
      assert rest == [last] && [first] + rest == [first, last];
    } else if m < k {
      ConsistencyClimbExact(m, d[..k], first, front);
      ClimbHigherRight(m, d, first, front, last);
    } else {
      ConsistencyClimbExact(m - k, d[k..], first, front);
      ClimbHigherLeft(m, d, first, front, last);
    }
  }

  // ----- The older root -----

  /** The root of the first m leaves, but with x in the place of their last complete subtree. */
  function Patched(x: Bytes, m: nat, d: Leaves): Bytes
    requires 1 <= m <= |d|
    decreases |d|
  {
    if m == |d| then x
    else
      var k := Split(|d|);
      if m <= k then Patched(x, m, d[..k]) else NodeHash(Mth(d[..k]), Patched(x, m - k, d[k..]))
  }

  lemma OldRootRight(m: nat, d: Leaves, first: Bytes, front: seq<Bytes>, last: Bytes)
    requires 2 <= |d| && 1 <= m < Split(|d|) && |front| == |SubproofSides(m, Split(|d|))|
    requires Recut([first] + (front + [last]), Subproof(m, d, false))
    ensures var k := Split(|d|);
            && Recut([first] + front, Subproof(m, d[..k], false))
            && ClimbOld(first, SubproofSides(m, |d|), front + [last]) == ClimbOld(first, SubproofSides(m, k), front)
  {
    hide Climb, ClimbOld, Mth, Recut, Subproof;
    var k := Split(|d|);
    LowestIsRight(m, k);
    SubproofLength(m, d[..k]);
    ConsSnoc(first, front, last);
    SubproofUnfolds(m, d);
    RecutSnoc([first] + front, last, Subproof(m, d[..k], false), Mth(d[k..]));
    ConsistencyClimbRight(m, |d|, first, front, last);
  }

  lemma OldRootLeft(m: nat, d: Leaves, first: Bytes, front: seq<Bytes>, last: Bytes)
    requires 2 <= |d| && Split(|d|) < m < |d| && |front| == |SubproofSides(m - Split(|d|), |d| - Split(|d|))|
    requires Recut([first] + (front + [last]), Subproof(m, d, false))
    ensures var k := Split(|d|);
            && Recut([first] + front, Subproof(m - k, d[k..], false))
            && ClimbOld(first, SubproofSides(m, |d|), front + [last])
               == NodeHash(Mth(d[..k]), ClimbOld(first, SubproofSides(m - k, |d| - k), front))
  {
    hide Climb, ClimbOld, Mth, Recut, Subproof;
    var k := Split(|d|);
    LowestIsRight(m - k, |d| - k);
    SubproofLength(m - k, d[k..]);
    ConsSnoc(first, front, last);
    SubproofUnfolds(m, d);
    RecutSnoc([first] + front, last, Subproof(m - k, d[k..], false), Mth(d[..k]));
    ConsistencyClimbLeft(m, |d|, first, front, last);
  }

  /** The consistency verifier takes for the older root what its first hash makes of it. */
  lemma {:induction false} OldRootRebuilt(m: nat, d: Leaves, first: Bytes, rest: seq<Bytes>)
    requires 1 <= m <= |d| && |rest| == |SubproofSides(m, |d|)| && Recut([first] + rest, Subproof(m, d, false))
    ensures ClimbOld(first, SubproofSides(m, |d|), rest) == Patched(first, m, d)
    decreases |d|
  {
    hide ClimbOld, Mth, Subproof, Recut;
    ClimbNothing(first);
    if m < |d| {
      var k, e := Split(|d|), |rest| - 1;
      LowestIsRight(m, |d|);
      var front, last := rest[..e], rest[e];
      assert rest == front + [last];
      if m == k {
        ConsistencyClimbRight(k, |d|, first, front, last);
      } else if m < k {
        OldRootRight(m, d, first, front, last);
        OldRootRebuilt(m, d[..k], first, front);
      } else {
        OldRootLeft(m, d, first, front, last);
        OldRootRebuilt(m - k, d[k..], first, front);
      }
    }
  }

  /** That is the older root exactly when the first hash is the honest one. */
  lemma {:induction false} PatchedExact(x: Bytes, m: nat, d: Leaves)
    requires 1 <= m <= |d|
    ensures Subproof(m, d, false) != []
    ensures Patched(x, m, d) == Mth(d[..m]) <==> x == Subproof(m, d, false)[0]
    decreases |d|
  {
    if m == |d| {
      assert d[..m] == d;
    } else {
      var k := Split(|d|);
      SubproofUnfolds(m, d);
      if m <= k {
        PatchedExact(x, m, d[..k]);
        assert d[..k][..m] == d[..m];
      } else {
        PatchedExact(x, m - k, d[k..]);
        OldTreeSplits(m, d);
        NodeHashSplits(Mth(d[..k]), Patched(x, m - k, d[k..]), Mth(d[..k]), Mth(d[k..][..m - k]));
      }
    }
  }

  /** And it is the root of some list of m leaves only if the first hash is as long as a digest. */
  lemma {:induction false} PatchedIsRoot(x: Bytes, m: nat, d: Leaves, earlier: Leaves)
    requires 1 <= m <= |d| && |earlier| == m && Patched(x, m, d) == Mth(earlier)
    ensures IsDigest(x)
    decreases |d|
  {
    if m < |d| {
      var k := Split(|d|);
      if m <= k {
        PatchedIsRoot(x, m, d[..k], earlier);
      } else {
        SplitIsPow2(|d|);
        SplitUnique(m, k);
        NodeHashSplits(Mth(d[..k]), Patched(x, m - k, d[k..]), Mth(earlier[..k]), Mth(earlier[k..]));
        PatchedIsRoot(x, m - k, d[k..], earlier[k..]);
      }
    }
  }

  /** One left sibling is enough to move away from where it started for good. */
  lemma {:induction false} ClimbOldGrows(r: Bytes, sides: seq<Side>, hashes: seq<Bytes>)
    requires |sides| == |hashes|
    ensures DepthOf(r.content) <= DepthOf(ClimbOld(r, sides, hashes).content)
    ensures SiblingLeft in sides ==> DepthOf(r.content) < DepthOf(ClimbOld(r, sides, hashes).content)
    decreases |sides|
  {
    if sides != [] {
      var e := |sides| - 1;
      ClimbOldGrows(r, sides[..e], hashes[..e]);
      assert sides == sides[..e] + [sides[e]];
      NodeIsDeeper(hashes[e], ClimbOld(r, sides[..e], hashes[..e]));
    }
  }

  lemma {:induction false} ClimbOldWithoutLeft(r: Bytes, sides: seq<Side>, hashes: seq<Bytes>)
    requires |sides| == |hashes| && SiblingLeft !in sides
    ensures ClimbOld(r, sides, hashes) == r
    decreases |sides|
  {
    if sides != [] {
      var e := |sides| - 1;
      assert sides[e] in sides;
      ClimbOldWithoutLeft(r, sides[..e], hashes[..e]);
    }
  }
}
