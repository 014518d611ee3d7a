/** RFC 9162 trees and proofs over a list of leaf hashes: the recursive definitions of section 2.1. */
module Merkle {
  import opened BitWalk
  import opened Hashing

  type Leaves = seq<Digest>

  // ----- The recursive definitions of RFC 9162 -----

  /** MTH(d), section 2.1.1. */
  function Mth(d: Leaves): Digest {
    if |d| == 0 then EmptyHash
    else if |d| == 1 then d[0]
    else NodeHash(Mth(d[..Split(|d|)]), Mth(d[Split(|d|)..]))
  }

  /** PATH(m, d), section 2.1.3.1: the inclusion proof of leaf m, leaf to root. */
  function Path(m: nat, d: Leaves): seq<Digest>
    requires m < |d|
    decreases |d|
  {
    if |d| == 1 then []
    else
      var k := Split(|d|);
      if m < k then Path(m, d[..k]) + [Mth(d[k..])]
      else Path(m - k, d[k..]) + [Mth(d[..k])]
  }

  /** SUBPROOF(m, d, b), section 2.1.4.1. */
  function Subproof(m: nat, d: Leaves, b: bool): seq<Digest>
    requires 1 <= m <= |d|
    decreases |d|
  {
    if m == |d| then (if b then [] else [Mth(d)])
    else
      var k := Split(|d|);
      if m <= k then Subproof(m, d[..k], b) + [Mth(d[k..])]
      else Subproof(m - k, d[k..], false) + [Mth(d[..k])]
  }

  /** The proof a log of leaves d gives that it extends its own first m leaves. */
  function ConsistencyProof(m: nat, d: Leaves): seq<Digest>
    requires m <= |d|
  {
    if m == 0 || m == |d| then [] else Subproof(m, d, true)
  }

  // ----- Injectivity -----

  /** Equal roots of lists of equal length mean equal lists, whatever digests the leaves are. */
  lemma {:induction false} MthInjective(a: Leaves, b: Leaves)
    requires |a| == |b| && Mth(a) == Mth(b)
    ensures a == b
    decreases |a|
  {
    if |a| >= 2 {
      var k := Split(|a|);
      NodeHashSplits(Mth(a[..k]), Mth(a[k..]), Mth(b[..k]), Mth(b[k..]));
      MthInjective(a[..k], b[..k]);
      MthInjective(a[k..], b[k..]);
      assert a == a[..k] + a[k..] && b == b[..k] + b[k..];
    }
  }

  // ----- The shapes of proofs -----

  lemma {:induction false} PathLength(m: nat, d: Leaves)
    requires m < |d|
    ensures |Path(m, d)| == |PathSides(m, |d|)|
    decreases |d|
  {
    if |d| >= 2 {
      var k := Split(|d|);
      if m < k {
        PathLength(m, d[..k]);
      } else {
        PathLength(m - k, d[k..]);
      }
    }
  }

  lemma {:induction false} SubproofLength(m: nat, d: Leaves)
    requires 1 <= m <= |d|
    ensures |Subproof(m, d, false)| == |SubproofSides(m, |d|)| + 1
    decreases |d|
  {
    var k := if m < |d| then Split(|d|) else 0;
    if m < |d| && m <= k {
      SubproofLength(m, d[..k]);
      assert Subproof(m, d, false) == Subproof(m, d[..k], false) + [Mth(d[k..])];
    } else if m < |d| {
      SubproofLength(m - k, d[k..]);
      assert Subproof(m, d, false) == Subproof(m - k, d[k..], false) + [Mth(d[..k])];
    }
  }

  /** With b true the proof leaves out the older root itself, exactly when it would have come first. */
  lemma {:induction false} SubproofOmitsOldRoot(m: nat, d: Leaves)
    requires 1 <= m <= |d|
    ensures Subproof(m, d, false) ==
            (if SiblingLeft in SubproofSides(m, |d|) then [] else [Mth(d[..m])]) + Subproof(m, d, true)
    decreases |d|
  {
    if m == |d| {
      assert d[..m] == d;
    } else {
      var k := Split(|d|);
      if m <= k {
        SubproofOmitsOldRoot(m, d[..k]);
        assert d[..k][..m] == d[..m];
      } else {
        var s := SubproofSides(m, |d|);
        assert s[|s| - 1] == SiblingLeft;
      }
    }
  }

  /** The first m leaves, when they reach past the split, split at the same place. */
  lemma OldTreeSplits(m: nat, d: Leaves)
    requires 2 <= |d| && Split(|d|) < m <= |d|
    ensures var k := Split(|d|); Mth(d[..m]) == NodeHash(Mth(d[..k]), Mth(d[k..][..m - k]))
  {
    var k := Split(|d|);
    SplitIsPow2(|d|);
    SplitUnique(m, k);
    assert d[..m][..k] == d[..k] && d[..m][k..] == d[k..][..m - k];
  }

  // ----- A root fixes the log -----

  function LeavesOf(data: seq<string>): Leaves {
    seq(|data|, i requires 0 <= i < |data| => LeafHash(data[i]))
  }

  /** An empty log, a leaf and a node are hashed apart. */
  lemma HashedApart(s: string, a: Bytes, b: Bytes)
    ensures EmptyHash != LeafHash(s) && EmptyHash != NodeHash(a, b) && LeafHash(s) != NodeHash(a, b)
  {
    var x := [Octet(0)] + seq(|s|, i requires 0 <= i < |s| => Octet(s[i] as int));
    var y := [Octet(1)] + a.content + b.content;
    Sha256Injective([], x);
    Sha256Injective([], y);
    Sha256Injective(x, y);
    assert x[0] != y[0];
  }

  lemma Halves(data: seq<string>)
    requires |data| >= 2
    ensures var k := Split(|data|);
            Mth(LeavesOf(data)) == NodeHash(Mth(LeavesOf(data[..k])), Mth(LeavesOf(data[k..])))
  {
    var k := Split(|data|);
    assert LeavesOf(data)[..k] == LeavesOf(data[..k]) && LeavesOf(data)[k..] == LeavesOf(data[k..]);
  }

  /** A root fixes the log it is the root of, its length included: no two lists of contents share one. */
  lemma {:induction false} RootFixesLog(a: seq<string>, b: seq<string>)
    ensures Mth(LeavesOf(a)) == Mth(LeavesOf(b)) <==> a == b
    decreases |a| + |b|
  {
    if Mth(LeavesOf(a)) == Mth(LeavesOf(b)) {
      hide Mth;
      Shape(a);
      Shape(b);
      if |a| >= 2 && |b| >= 2 {
        Halves(a);
        Halves(b);
        var k, l := Split(|a|), Split(|b|);
        NodeHashSplits(Mth(LeavesOf(a[..k])), Mth(LeavesOf(a[k..])), Mth(LeavesOf(b[..l])), Mth(LeavesOf(b[l..])));
        RootFixesLog(a[..k], b[..l]);
        RootFixesLog(a[k..], b[l..]);
        assert a == a[..k] + a[k..] && b == b[..l] + b[l..];
      } else if |a| == 1 && |b| == 1 {
        LeafHashInjective(a[0], b[0]);
      } else {
        var s := if |a| == 1 then a[0] else if |b| == 1 then b[0] else "";
        var d := if |a| >= 2 then a else b;
        if |d| >= 2 {
          Halves(d);
          HashedApart(s, Mth(LeavesOf(d[..Split(|d|)])), Mth(LeavesOf(d[Split(|d|)..])));
        } else {
          HashedApart(s, EmptyHash, EmptyHash);
        }
      }
    }
  }

  lemma Shape(data: seq<string>)
    ensures |data| == 0 ==> Mth(LeavesOf(data)) == EmptyHash
    ensures |data| == 1 ==> Mth(LeavesOf(data)) == LeafHash(data[0])
  {
  }
}
