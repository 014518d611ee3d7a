/** The memoised subtree hashes over a growing list of leaves: what a run of the cache returns, stores and costs, and
    the class that performs it. A range of leaves is given by its start and its length. */
module SubtreeCache {
  import opened BitWalk
  import opened Hashing
  import opened Merkle

  /** The cache's entries, keyed by start and end. */
  type Memo = map<(nat, nat), Digest>

  /** What one call returns, the memo it leaves, and how many node hashes it computed. */
  datatype Run<T> = Run(value: T, memo: Memo, cost: nat)

  predicate Cacheable(lo: nat, n: nat)
    requires n >= 2
  {
    PowerTest(n) && lo % n == 0
  }

  // ----- The runs -----

  function Joined(a: Run<Digest>, b: Run<Digest>, cache: bool, key: (nat, nat)): Run<Digest> {
    var h := NodeHash(a.value, b.value);
    Run(h, if cache then b.memo[key := h] else b.memo, a.cost + b.cost + 1)
  }

  function Then(p: Run<seq<Digest>>, h: Run<Digest>): Run<seq<Digest>> {
    Run(p.value + [h.value], h.memo, p.cost + h.cost)
  }

  function MthRun(d: Leaves, memo: Memo, lo: nat, n: nat): Run<Digest>
    requires lo + n <= |d|
    decreases n
  {
    if n == 0 then Run(EmptyHash, memo, 0)
    else if n == 1 then Run(d[lo], memo, 0)
    else if Cacheable(lo, n) && (lo, lo + n) in memo then Run(memo[(lo, lo + n)], memo, 0)
    else
      var k := Split(n);
      var a := MthRun(d, memo, lo, k);
      Joined(a, MthRun(d, a.memo, lo + k, n - k), Cacheable(lo, n), (lo, lo + n))
  }

  function PathRun(d: Leaves, memo: Memo, m: nat, lo: nat, n: nat): Run<seq<Digest>>
    requires lo + n <= |d| && m < n
    decreases n
  {
    if n == 1 then Run([], memo, 0)
    else
      var k := Split(n);
      if m < k then
        var p := PathRun(d, memo, m, lo, k);
        Then(p, MthRun(d, p.memo, lo + k, n - k))
      else
        var p := PathRun(d, memo, m - k, lo + k, n - k);
        Then(p, MthRun(d, p.memo, lo, k))
  }

  function SubproofRun(d: Leaves, memo: Memo, m: nat, lo: nat, n: nat, b: bool): Run<seq<Digest>>
    requires lo + n <= |d| && 1 <= m <= n
    decreases n
  {
    if m == n then
      if b then Run([], memo, 0) else Then(Run([], memo, 0), MthRun(d, memo, lo, n))
    else
      var k := Split(n);
      if m <= k then
        var p := SubproofRun(d, memo, m, lo, k, b);
        Then(p, MthRun(d, p.memo, lo + k, n - k))
      else
        var p := SubproofRun(d, memo, m - k, lo + k, n - k, false);
        Then(p, MthRun(d, p.memo, lo, k))
  }

  // ----- Every entry is the hash of its range, for good -----

  ghost predicate Faithful(memo: Memo, d: Leaves) {
    forall r :: r in memo ==> r.0 < r.1 <= |d| && memo[r] == Mth(d[r.0..r.1])
  }

  /** A list that only grows never makes an entry stale. */
  lemma FaithfulAsListGrows(memo: Memo, d: Leaves, d': Leaves)
    requires Faithful(memo, d) && d <= d'
    ensures Faithful(memo, d')
  {
    forall r | r in memo
      ensures r.0 < r.1 <= |d'| && memo[r] == Mth(d'[r.0..r.1])
    {
      assert d'[r.0..r.1] == d[r.0..r.1];
    }
  }

  ghost predicate HashCorrect(r: Run<Digest>, d: Leaves, slice: Leaves) {
    r.value == Mth(slice) && Faithful(r.memo, d)
  }

  ghost predicate ProofCorrect(r: Run<seq<Digest>>, d: Leaves, proof: seq<Digest>) {
    r.value == proof && Faithful(r.memo, d)
  }

  lemma ThenCorrect(p: Run<seq<Digest>>, h: Run<Digest>, d: Leaves, proof: seq<Digest>, slice: Leaves)
    requires ProofCorrect(p, d, proof) && HashCorrect(h, d, slice)
    ensures ProofCorrect(Then(p, h), d, proof + [Mth(slice)])
  {
  }

  lemma JoinedCorrect(a: Run<Digest>, b: Run<Digest>, cache: bool, d: Leaves, lo: nat, slice: Leaves)
    requires lo + |slice| <= |d| && slice == d[lo..lo + |slice|] && |slice| >= 2
    requires HashCorrect(a, d, slice[..Split(|slice|)]) && HashCorrect(b, d, slice[Split(|slice|)..])
    ensures HashCorrect(Joined(a, b, cache, (lo, lo + |slice|)), d, slice)
  {
    var h := NodeHash(a.value, b.value);
    assert h == Mth(slice);
    hide Mth;
    assert Faithful(b.memo[(lo, lo + |slice|) := h], d);
  }

  /** The halves of a slice, as slices. */
  lemma Halves(d: Leaves, lo: nat, slice: Leaves, k: nat)
    requires lo + |slice| <= |d| && slice == d[lo..lo + |slice|] && k <= |slice|
    ensures slice[..k] == d[lo..lo + k] && slice[k..] == d[lo + k..lo + k + (|slice| - k)]
  {
  }

  predicate Miss(memo: Memo, lo: nat, n: nat) {
    n >= 2 && !(Cacheable(lo, n) && (lo, lo + n) in memo)
  }

  lemma MthRunMiss(d: Leaves, memo: Memo, lo: nat, n: nat)
    requires lo + n <= |d| && Miss(memo, lo, n)
    ensures var k := Split(n); var a := MthRun(d, memo, lo, k);
            MthRun(d, memo, lo, n) == Joined(a, MthRun(d, a.memo, lo + k, n - k), Cacheable(lo, n), (lo, lo + n))
  {
    hide Cacheable;
  }

  lemma MthRunStep(d: Leaves, memo: Memo, lo: nat, n: nat)
    requires lo + n <= |d|
    ensures var r := MthRun(d, memo, lo, n);
            if n == 0 then r == Run(EmptyHash, memo, 0)
            else if n == 1 then r == Run(d[lo], memo, 0)
            else if Cacheable(lo, n) && (lo, lo + n) in memo then r == Run(memo[(lo, lo + n)], memo, 0)
            else
              var k := Split(n); var a := MthRun(d, memo, lo, k);
              r == Joined(a, MthRun(d, a.memo, lo + k, n - k), Cacheable(lo, n), (lo, lo + n))
  {
    hide Cacheable;
  }

  /** The entry of a range is the hash of its slice. */
  lemma EntryIsHash(d: Leaves, memo: Memo, lo: nat, slice: Leaves)
    requires lo + |slice| <= |d| && slice == d[lo..lo + |slice|] && Faithful(memo, d) && (lo, lo + |slice|) in memo
    ensures memo[(lo, lo + |slice|)] == Mth(slice)
  {
    hide Mth;
  }

  lemma MthOfFew(slice: Leaves)
    ensures |slice| == 0 ==> Mth(slice) == EmptyHash
    ensures |slice| == 1 ==> Mth(slice) == slice[0]
  {
  }

  lemma MthRunNoMiss(d: Leaves, memo: Memo, lo: nat, slice: Leaves)
    requires lo + |slice| <= |d| && slice == d[lo..lo + |slice|] && Faithful(memo, d) && !Miss(memo, lo, |slice|)
    ensures HashCorrect(MthRun(d, memo, lo, |slice|), d, slice)
  {
    hide Cacheable, MthRun, Mth, Faithful;
    MthRunStep(d, memo, lo, |slice|);
    if |slice| >= 2 {
      EntryIsHash(d, memo, lo, slice);
    } else {
      MthOfFew(slice);
    }
  }

  /** The memoised hash is the plain recursion, whatever the memo holds. */
  lemma {:induction false} MthRunCorrect(d: Leaves, memo: Memo, lo: nat, slice: Leaves)
    requires lo + |slice| <= |d| && slice == d[lo..lo + |slice|] && Faithful(memo, d)
    ensures HashCorrect(MthRun(d, memo, lo, |slice|), d, slice)
    decreases |slice|
  {
    hide Cacheable;
    hide MthRun;
    hide Mth;
    var n := |slice|;
    if Miss(memo, lo, n) {
      var k := Split(n);
      var a := MthRun(d, memo, lo, k);
      Halves(d, lo, slice, k);
      MthRunCorrect(d, memo, lo, slice[..k]);
      MthRunCorrect(d, a.memo, lo + k, slice[k..]);
      JoinedCorrect(a, MthRun(d, a.memo, lo + k, n - k), Cacheable(lo, n), d, lo, slice);
      MthRunMiss(d, memo, lo, n);
    } else {
      MthRunNoMiss(d, memo, lo, slice);
    }
  }

  lemma PathRunStep(d: Leaves, memo: Memo, m: nat, lo: nat, n: nat)
    requires lo + n <= |d| && m < n && n >= 2
    ensures var k := Split(n);
            PathRun(d, memo, m, lo, n) ==
            if m < k then var p := PathRun(d, memo, m, lo, k); Then(p, MthRun(d, p.memo, lo + k, n - k))
            else var p := PathRun(d, memo, m - k, lo + k, n - k); Then(p, MthRun(d, p.memo, lo, k))
  {
    hide MthRun;
  }

  lemma PathStep(m: nat, slice: Leaves)
    requires m < |slice| && |slice| >= 2
    ensures var k := Split(|slice|);
            Path(m, slice) ==
            if m < k then Path(m, slice[..k]) + [Mth(slice[k..])] else Path(m - k, slice[k..]) + [Mth(slice[..k])]
  {
    hide Mth;
  }

  lemma {:induction false} PathRunCorrect(d: Leaves, memo: Memo, m: nat, lo: nat, slice: Leaves)
    requires lo + |slice| <= |d| && slice == d[lo..lo + |slice|] && m < |slice| && Faithful(memo, d)
    ensures ProofCorrect(PathRun(d, memo, m, lo, |slice|), d, Path(m, slice))
    decreases |slice|, 1
  {
    if |slice| >= 2 {
      PathRunCorrectFrom(d, memo, m, lo, slice);
    }
  }

  lemma {:induction false} PathRunCorrectFrom(d: Leaves, memo: Memo, m: nat, lo: nat, slice: Leaves)
    requires lo + |slice| <= |d| && slice == d[lo..lo + |slice|] && m < |slice| && |slice| >= 2 && Faithful(memo, d)
    ensures ProofCorrect(PathRun(d, memo, m, lo, |slice|), d, Path(m, slice))
    decreases |slice|, 0
  {
    hide MthRun, Mth, Path, PathRun, Then;
    var n := |slice|;
    var k := Split(n);
    Halves(d, lo, slice, k);
    PathRunStep(d, memo, m, lo, n);
    PathStep(m, slice);
    if m < k {
      var p := PathRun(d, memo, m, lo, k);
      PathRunCorrect(d, memo, m, lo, slice[..k]);
      MthRunCorrect(d, p.memo, lo + k, slice[k..]);
      ThenCorrect(p, MthRun(d, p.memo, lo + k, n - k), d, Path(m, slice[..k]), slice[k..]);
    } else {
      var p := PathRun(d, memo, m - k, lo + k, n - k);
      PathRunCorrect(d, memo, m - k, lo + k, slice[k..]);
      MthRunCorrect(d, p.memo, lo, slice[..k]);
      ThenCorrect(p, MthRun(d, p.memo, lo, k), d, Path(m - k, slice[k..]), slice[..k]);
    }
  }

  lemma SubproofRunStep(d: Leaves, memo: Memo, m: nat, lo: nat, n: nat, b: bool)
    requires lo + n <= |d| && 1 <= m <= n
    ensures SubproofRun(d, memo, m, lo, n, b) ==
            if m == n then
              if b then Run([], memo, 0) else Then(Run([], memo, 0), MthRun(d, memo, lo, n))
            else
              var k := Split(n);
              if m <= k then var p := SubproofRun(d, memo, m, lo, k, b); Then(p, MthRun(d, p.memo, lo + k, n - k))
              else var p := SubproofRun(d, memo, m - k, lo + k, n - k, false); Then(p, MthRun(d, p.memo, lo, k))
  {
    hide MthRun;
  }

  lemma SubproofStep(m: nat, slice: Leaves, b: bool)
    requires 1 <= m < |slice|
    ensures var k := Split(|slice|);
            Subproof(m, slice, b) ==
            if m <= k then Subproof(m, slice[..k], b) + [Mth(slice[k..])]
            else Subproof(m - k, slice[k..], false) + [Mth(slice[..k])]
  {
    hide Mth;
  }

  lemma {:induction false} SubproofRunCorrect(d: Leaves, memo: Memo, m: nat, lo: nat, slice: Leaves, b: bool)
    requires lo + |slice| <= |d| && slice == d[lo..lo + |slice|] && 1 <= m <= |slice| && Faithful(memo, d)
    ensures ProofCorrect(SubproofRun(d, memo, m, lo, |slice|, b), d, Subproof(m, slice, b))
    decreases |slice|
  {
    hide MthRun;
    hide Mth;
    if m == |slice| {
      MthRunCorrect(d, memo, lo, slice);
    } else if m <= Split(|slice|) {
      SubproofRunCorrectRight(d, memo, m, lo, slice, b);
    } else {
      SubproofRunCorrectLeft(d, memo, m, lo, slice, b);
    }
  }

  lemma {:induction false} SubproofRunCorrectRight(d: Leaves, memo: Memo, m: nat, lo: nat, slice: Leaves, b: bool)
    requires lo + |slice| <= |d| && slice == d[lo..lo + |slice|] && 2 <= |slice| && 1 <= m <= Split(|slice|)
             && Faithful(memo, d)
    ensures ProofCorrect(SubproofRun(d, memo, m, lo, |slice|, b), d, Subproof(m, slice, b))
    decreases |slice|, 0
  {
    hide MthRun, Mth, SubproofRun, Subproof, Then;
    var n, k := |slice|, Split(|slice|);
    var p := SubproofRun(d, memo, m, lo, k, b);
    Halves(d, lo, slice, k);
    SubproofRunStep(d, memo, m, lo, n, b);
    SubproofStep(m, slice, b);
    SubproofRunCorrect(d, memo, m, lo, slice[..k], b);
    MthRunCorrect(d, p.memo, lo + k, slice[k..]);
    ThenCorrect(p, MthRun(d, p.memo, lo + k, n - k), d, Subproof(m, slice[..k], b), slice[k..]);
  }

  lemma {:induction false} SubproofRunCorrectLeft(d: Leaves, memo: Memo, m: nat, lo: nat, slice: Leaves, b: bool)
    requires lo + |slice| <= |d| && slice == d[lo..lo + |slice|] && 2 <= |slice| && Split(|slice|) < m < |slice|
             && Faithful(memo, d)
    ensures ProofCorrect(SubproofRun(d, memo, m, lo, |slice|, b), d, Subproof(m, slice, b))
    decreases |slice|, 0
  {
    hide MthRun, Mth, SubproofRun, Subproof, Then;
    var n, k := |slice|, Split(|slice|);
    var p := SubproofRun(d, memo, m - k, lo + k, n - k, false);
    Halves(d, lo, slice, k);
    SubproofRunStep(d, memo, m, lo, n, b);
    SubproofStep(m, slice, b);
    SubproofRunCorrect(d, memo, m - k, lo + k, slice[k..], false);
    MthRunCorrect(d, p.memo, lo, slice[..k]);
    ThenCorrect(p, MthRun(d, p.memo, lo, k), d, Subproof(m - k, slice[k..], false), slice[..k]);
  }

  // ----- A run adds entries within its range and removes none -----

  ghost predicate Grows(memo: Memo, memo': Memo, hi: nat) {
    && memo.Keys <= memo'.Keys
    && forall r :: r in memo' && r !in memo ==> r.1 <= hi
  }

  lemma {:induction false} MthRunGrows(d: Leaves, memo: Memo, lo: nat, n: nat)
    requires lo + n <= |d|
    ensures Grows(memo, MthRun(d, memo, lo, n).memo, lo + n)
    decreases n
  {
    hide Cacheable, MthRun;
    MthRunStep(d, memo, lo, n);
    if Miss(memo, lo, n) {
      var k := Split(n);
      MthRunGrows(d, memo, lo, k);
      MthRunGrows(d, MthRun(d, memo, lo, k).memo, lo + k, n - k);
      MthRunMiss(d, memo, lo, n);
    }
  }

  lemma {:induction false} SubproofRunGrows(d: Leaves, memo: Memo, m: nat, lo: nat, n: nat, b: bool)
    requires lo + n <= |d| && 1 <= m <= n
    ensures Grows(memo, SubproofRun(d, memo, m, lo, n, b).memo, lo + n)
    decreases n
  {
    hide MthRun;
    if m == n {
      MthRunGrows(d, memo, lo, n);
    } else {
      var k := Split(n);
      if m <= k {
        SubproofRunGrows(d, memo, m, lo, k, b);
        MthRunGrows(d, SubproofRun(d, memo, m, lo, k, b).memo, lo + k, n - k);
      } else {
        SubproofRunGrows(d, memo, m - k, lo + k, n - k, false);
        MthRunGrows(d, SubproofRun(d, memo, m - k, lo + k, n - k, false).memo, lo, k);
      }
    }
  }

  // ----- The class -----

  /** The list of leaf hashes that a log and its cache share by reference. */
  class LeafList {
    var items: Leaves

    constructor (items: Leaves)
      ensures this.items == items
    {
      this.items := items;
    }
  }

  class Cache {
    const leaves: LeafList
    var perfect: Memo

    constructor (leaves: LeafList)
      ensures this.leaves == leaves && perfect == map[]
    {
      this.leaves := leaves;
      perfect := map[];
    }

    method Mth(lo: nat, hi: nat) returns (h: Digest, ghost cost: nat)
      requires lo <= hi <= |leaves.items|
      modifies this`perfect
      ensures Run(h, perfect, cost) == MthRun(leaves.items, old(perfect), lo, hi - lo)
      decreases hi - lo
    {
      hide Cacheable;
      hide MthRun;
      var n := hi - lo;
      MthRunStep(leaves.items, perfect, lo, n);
      if n == 0 { return EmptyHash, 0; }
      if n == 1 { return leaves.items[lo], 0; }
      var aligned := Cacheable(lo, n);
      if aligned && (lo, hi) in perfect { return perfect[(lo, hi)], 0; }
      var k := ComputeSplit(n);
      var a, ca := Mth(lo, lo + k);
      var b, cb := Mth(lo + k, hi);
      assert hi - (lo + k) == n - k;
      h := NodeHash(a, b);
      if aligned { perfect := perfect[(lo, hi) := h]; }
      cost := ca + cb + 1;
    }

    method Path(m: nat, lo: nat, hi: nat) returns (hashes: seq<Digest>, ghost cost: nat)
      requires lo <= hi <= |leaves.items| && m < hi - lo
      modifies this`perfect
      ensures Run(hashes, perfect, cost) == PathRun(leaves.items, old(perfect), m, lo, hi - lo)
      decreases hi - lo
    {
      hide MthRun;
      var n := hi - lo;
      if n <= 1 { return [], 0; }
      var k := ComputeSplit(n);
      assert hi - (lo + k) == n - k;
      if m < k {
        var front, cf := Path(m, lo, lo + k);
        var last, cl := Mth(lo + k, hi);
        return front + [last], cf + cl;
      } else {
        var front, cf := Path(m - k, lo + k, hi);
        var last, cl := Mth(lo, lo + k);
        return front + [last], cf + cl;
      }
    }

    method Subproof(m: nat, lo: nat, hi: nat, b: bool) returns (hashes: seq<Digest>, ghost cost: nat)
      requires lo <= hi <= |leaves.items| && 1 <= m <= hi - lo
      modifies this`perfect
      ensures Run(hashes, perfect, cost) == SubproofRun(leaves.items, old(perfect), m, lo, hi - lo, b)
      decreases hi - lo
    {
      hide MthRun, SubproofRun;
      var n := hi - lo;
      SubproofRunStep(leaves.items, perfect, m, lo, n, b);
      if m == n {
        if b { return [], 0; }
        var h, c := Mth(lo, hi);
        assert [] + [h] == [h];
        return [h], c;
      }
      var k := ComputeSplit(n);
      assert hi - (lo + k) == n - k;
      if m <= k {
        var front, cf := Subproof(m, lo, lo + k, b);
        var last, cl := Mth(lo + k, hi);
        return front + [last], cf + cl;
      } else {
        var front, cf := Subproof(m - k, lo + k, hi, false);
        var last, cl := Mth(lo, lo + k);
        return front + [last], cf + cl;
      }
    }
  }
}
