/** The integer arithmetic under the Merkle log: powers of two, the split point of a tree, the 32-bit
    power-of-two test, and the walk over the bits of (fn, sn) that both proof verifiers perform. */
module BitWalk {

  const TWO32: nat := 0x1_0000_0000

  predicate IsPow2(n: nat) {
    n == 1 || (n > 1 && n % 2 == 0 && IsPow2(n / 2))
  }

  lemma {:induction false} Pow2Gap(a: nat, b: nat)
    requires IsPow2(a) && IsPow2(b) && a < b
    ensures 2 * a <= b
  {
    if a > 1 {
      Pow2Gap(a / 2, b / 2);
    }
  }

  lemma {:induction false} Pow2Divides(a: nat, b: nat) returns (q: nat)
    requires IsPow2(a) && IsPow2(b) && a <= b
    ensures b == a * q
  {
    if a == 1 {
      q := b;
    } else {
      q := Pow2Divides(a / 2, b / 2);
    }
  }

  lemma AddEven(x: nat, k: nat)
    requires k % 2 == 0
    ensures (x + k) / 2 == x / 2 + k / 2 && (x + k) % 2 == x % 2
  {
  }

  // ----- The split point of a tree over n leaves -----

  function SplitFrom(k: nat, n: nat): (r: nat)
    requires 1 <= k < n
    ensures 1 <= r < n <= 2 * r
    decreases n - k
  {
    if k * 2 < n then SplitFrom(k * 2, n) else k
  }

  /** The largest power of two strictly below n. */
  function Split(n: nat): (k: nat)
    requires n >= 2
    ensures 1 <= k < n <= 2 * k
  {
    SplitFrom(1, n)
  }

  lemma {:induction false} SplitFromIsPow2(k: nat, n: nat)
    requires 1 <= k < n && IsPow2(k)
    ensures IsPow2(SplitFrom(k, n))
    decreases n - k
  {
    if k * 2 < n {
      SplitFromIsPow2(k * 2, n);
    }
  }

  lemma SplitIsPow2(n: nat)
    requires n >= 2
    ensures IsPow2(Split(n))
  {
    SplitFromIsPow2(1, n);
  }

  lemma SplitUnique(n: nat, k: nat)
    requires n >= 2 && IsPow2(k) && k < n <= 2 * k
    ensures Split(n) == k
  {
    var s := Split(n);
    SplitIsPow2(n);
    if s < k {
      Pow2Gap(s, k);
    } else if k < s {
      Pow2Gap(k, s);
    }
  }

  method ComputeSplit(n: nat) returns (k: nat)
    requires n >= 2
    ensures k == Split(n)
  {
    k := 1;
    while k * 2 < n
      invariant 1 <= k < n && IsPow2(k)
      decreases n - k
    {
      k := k * 2;
    }
    SplitUnique(n, k);
  }

  // ----- n & (n - 1), as a 32-bit operation -----

  function BitAnd(a: nat, b: nat): nat {
    if a == 0 || b == 0 then 0
    else (if a % 2 == 1 && b % 2 == 1 then 1 else 0) + 2 * BitAnd(a / 2, b / 2)
  }

  /** The code's `(n & (n - 1)) === 0`. JavaScript's `&` sees only the low 32 bits of each operand. */
  predicate PowerTest(n: nat)
    requires n >= 1
  {
    BitAnd(n % TWO32, (n - 1) % TWO32) == 0
  }

  lemma {:induction false} AndWithSelf(a: nat)
    ensures BitAnd(a, a) == a
  {
    if a > 0 {
      AndWithSelf(a / 2);
    }
  }

  lemma {:induction false} AndWithPredecessor(n: nat)
    requires n >= 1
    ensures BitAnd(n, n - 1) == 0 <==> IsPow2(n)
  {
    if n % 2 == 1 {
      AndWithSelf(n / 2);
      assert (n - 1) / 2 == n / 2;
    } else {
      AndWithPredecessor(n / 2);
      assert (n - 1) / 2 == n / 2 - 1;
    }
  }

  lemma Pow2Shift(n: nat)
    requires IsPow2(n)
    ensures IsPow2(0x1_0000 * n)
  {
    Pow2Shift4(n);
    Pow2Shift4(0x10 * n);
    Pow2Shift4(0x100 * n);
    Pow2Shift4(0x1000 * n);
  }

  lemma Pow2Shift4(n: nat)
    requires IsPow2(n)
    ensures IsPow2(0x10 * n)
  {
    Pow2Double(n);
    Pow2Double(2 * n);
    Pow2Double(4 * n);
    Pow2Double(8 * n);
  }

  lemma Pow2Double(n: nat)
    requires IsPow2(n)
    ensures IsPow2(2 * n)
  {
  }

  lemma IsPow2TWO32()
    ensures IsPow2(TWO32)
  {
    Pow2Shift(1);
    Pow2Shift(0x1_0000);
  }

  /** What the 32-bit test decides, for every n. */
  lemma PowerTestMeans(n: nat)
    requires n >= 1
    ensures PowerTest(n) <==> n % TWO32 == 0 || IsPow2(n % TWO32)
  {
    if n % TWO32 != 0 {
      assert (n - 1) % TWO32 == n % TWO32 - 1;
      AndWithPredecessor(n % TWO32);
    }
  }

  /** n is a size the test gets wrong. */
  predicate Misjudged(n: nat)
    requires n >= 1
  {
    PowerTest(n) != IsPow2(n)
  }

  lemma Pow2Above32(n: nat)
    requires IsPow2(n) && n >= TWO32
    ensures n % TWO32 == 0
  {
    IsPow2TWO32();
    var q := Pow2Divides(TWO32, n);
    MultipleOf32(n, q);
  }

  lemma BelowTWO32(n: nat)
    ensures n < TWO32 ==> n % TWO32 == n
    ensures n == TWO32 ==> n % TWO32 == 0
  {
  }

  lemma MultipleOf32(n: nat, q: nat)
    requires n == TWO32 * q
    ensures n % TWO32 == 0
  {
  }

  /** The test is exact up to 2^32; beyond, it is wrong for exactly these sizes, always by saying "power of two". */
  lemma {:induction false} MisjudgedExactly(n: nat)
    requires n >= 1
    ensures Misjudged(n) <==> n > TWO32 && !IsPow2(n) && (n % TWO32 == 0 || IsPow2(n % TWO32))
    ensures Misjudged(n) ==> PowerTest(n)
  {
    PowerTestMeans(n);
    BelowTWO32(n);
    IsPow2TWO32();
    if n >= TWO32 && IsPow2(n) {
      Pow2Above32(n);
    }
  }

  /** The first size the test gets wrong. */
  lemma FirstMisjudgedSize()
    ensures Misjudged(TWO32 + 1)
    ensures forall n: nat :: 1 <= n <= TWO32 ==> !Misjudged(n)
  {
    assert (TWO32 + 1) % TWO32 == 1;
    assert (TWO32 + 1) % 2 == 1;
    assert !IsPow2(TWO32 + 1);
    MisjudgedExactly(TWO32 + 1);
    forall n: nat | 1 <= n <= TWO32
      ensures !Misjudged(n)
    {
      MisjudgedExactly(n);
    }
  }

  // ----- The walk from the leaf: which side each proof hash is on -----

  datatype Side = SiblingLeft | SiblingRight

  function StripZeros(x: nat): (r: nat)
    requires x > 0
    ensures 0 < r <= x && r % 2 == 1
  {
    if x % 2 == 0 then StripZeros(x / 2) else x
  }

  /** The sides the verifiers' loop takes its hashes on, from (fn, sn) until sn is 0. */
  function Walk(fn: nat, sn: nat): seq<Side>
    requires fn <= sn
    decreases sn
  {
    if sn == 0 then []
    else if fn % 2 == 1 then [SiblingLeft] + Walk(fn / 2, sn / 2)
    else if fn == sn then var x := StripZeros(fn); [SiblingLeft] + Walk(x / 2, x / 2)
    else [SiblingRight] + Walk(fn / 2, sn / 2)
  }

  /** Drops the trailing one bits of fn, and as many bits of sn. */
  function StripOnes(fn: nat, sn: nat): (r: (nat, nat))
    requires fn <= sn
    ensures r.0 <= r.1 && r.0 % 2 == 0
    decreases fn
  {
    if fn % 2 == 1 then StripOnes(fn / 2, sn / 2) else (fn, sn)
  }

  // ----- The walk from the root: the splits of the recursive definitions -----

  /** The sides of the path of leaf i in a tree of n leaves, leaf first. */
  function PathSides(i: nat, n: nat): seq<Side>
    requires i < n
    decreases n
  {
    if n == 1 then []
    else
      var k := Split(n);
      if i < k then PathSides(i, k) + [SiblingRight]
      else PathSides(i - k, n - k) + [SiblingLeft]
  }

  /** The sides of the proof that the first m of n leaves are a tree inside the tree of n, after its first hash. */
  function SubproofSides(m: nat, n: nat): seq<Side>
    requires 1 <= m <= n
    decreases n
  {
    if m == n then []
    else
      var k := Split(n);
      if m <= k then SubproofSides(m, k) + [SiblingRight]
      else SubproofSides(m - k, n - k) + [SiblingLeft]
  }

  // ----- They are the same walk -----

  /** One more level above a complete left subtree of K leaves adds one right sibling at the end. */
  lemma {:induction false} WalkUnderRight(fn: nat, sn: nat, K: nat)
    requires IsPow2(K) && fn < K <= sn < 2 * K
    ensures Walk(fn, sn) == Walk(fn, K - 1) + [SiblingRight]
    decreases K
  {
    if K == 1 {
      assert Walk(0, 0) == [];
      assert Walk(0, 1) == [SiblingRight] + Walk(0, 0);
    } else {
      WalkUnderRight(fn / 2, sn / 2, K / 2);
      assert (K - 1) / 2 == K / 2 - 1;
    }
  }

  lemma {:induction false} StripZerosOfPow2(K: nat)
    requires IsPow2(K)
    ensures StripZeros(K) == 1
  {
    if K > 1 {
      StripZerosOfPow2(K / 2);
    }
  }

  lemma {:induction false} StripZerosUnder(x: nat, K: nat) returns (K': nat)
    requires IsPow2(K) && 0 < x < K
    ensures IsPow2(K') && K' > 1 && StripZeros(x) < K'
    ensures StripZeros(x + K) == StripZeros(x) + K'
    decreases x
  {
    if x % 2 == 0 {
      K' := StripZerosUnder(x / 2, K / 2);
      assert (x + K) / 2 == x / 2 + K / 2;
    } else {
      K' := K;
    }
  }

  lemma WalkOdd(fn: nat, sn: nat)
    requires fn <= sn && fn % 2 == 1
    ensures Walk(fn, sn) == [SiblingLeft] + Walk(fn / 2, sn / 2)
  {
  }

  lemma WalkEqual(x: nat)
    requires x > 0 && x % 2 == 0
    ensures Walk(x, x) == [SiblingLeft] + Walk(StripZeros(x) / 2, StripZeros(x) / 2)
  {
  }

  lemma WalkEven(fn: nat, sn: nat)
    requires fn < sn && fn % 2 == 0
    ensures Walk(fn, sn) == [SiblingRight] + Walk(fn / 2, sn / 2)
  {
  }

  lemma WalkSinglePeer(K: nat)
    requires IsPow2(K)
    ensures Walk(K, K) == Walk(0, 0) + [SiblingLeft]
  {
    StripZerosOfPow2(K);
    assert Walk(0, 0) == [];
    assert Walk(K, K) == [SiblingLeft] + Walk(0, 0);
  }

  /** Two walks that take the same side first. */
  lemma WalkUnderLeftStep(fn: nat, sn: nat, fn': nat, sn': nat, rest: seq<Side>)
    requires fn <= sn && fn' <= sn' && fn % 2 == fn' % 2 && (fn % 2 == 1 || (fn < sn && fn' < sn'))
    requires Walk(fn / 2, sn / 2) == rest && Walk(fn' / 2, sn' / 2) == rest + [SiblingLeft]
    ensures Walk(fn', sn') == Walk(fn, sn) + [SiblingLeft]
  {
    hide Walk;
    if fn % 2 == 1 {
      WalkOdd(fn, sn);
      WalkOdd(fn', sn');
    } else {
      WalkEven(fn, sn);
      WalkEven(fn', sn');
    }
  }

  /** One more level beside a complete left subtree of K leaves adds one left sibling at the end. */
  lemma {:induction false} WalkUnderLeft(fn: nat, sn: nat, K: nat)
    requires IsPow2(K) && fn <= sn < K
    ensures Walk(fn + K, sn + K) == Walk(fn, sn) + [SiblingLeft]
    decreases sn, K
  {
    hide Walk;
    if sn == 0 {
      WalkSinglePeer(K);
    } else {
      AddEven(fn, K);
      AddEven(sn, K);
      if fn % 2 == 0 && fn == sn {
        WalkUnderLeftEqual(fn, K);
      } else {
        WalkUnderLeft(fn / 2, sn / 2, K / 2);
        WalkUnderLeftStep(fn, sn, fn + K, sn + K, Walk(fn / 2, sn / 2));
      }
    }
  }

  lemma {:induction false} WalkUnderLeftEqual(x: nat, K: nat)
    requires IsPow2(K) && 0 < x < K && x % 2 == 0
    ensures Walk(x + K, x + K) == Walk(x, x) + [SiblingLeft]
    decreases x, 0
  {
    hide Walk, StripZeros;
    AddEven(x, K);
    var K' := StripZerosUnder(x, K);
    var y := StripZeros(x);
    AddEven(y, K');
    WalkUnderLeft(y / 2, y / 2, K' / 2);
    WalkEqual(x);
    WalkEqual(x + K);
  }

  lemma PathSidesUnderRight(i: nat, n: nat)
    requires 2 <= n && i < Split(n) && Walk(i, Split(n) - 1) == PathSides(i, Split(n))
    ensures Walk(i, n - 1) == PathSides(i, n)
  {
    SplitIsPow2(n);
    WalkUnderRight(i, n - 1, Split(n));
  }

  lemma PathSidesUnderLeft(i: nat, n: nat)
    requires 2 <= n && Split(n) <= i < n
             && Walk(i - Split(n), n - Split(n) - 1) == PathSides(i - Split(n), n - Split(n))
    ensures Walk(i, n - 1) == PathSides(i, n)
  {
    SplitIsPow2(n);
    WalkUnderLeft(i - Split(n), n - Split(n) - 1, Split(n));
  }

  /** The bits read from the leaf are the splits read from the root. */
  lemma {:induction false} WalkIsPathSides(i: nat, n: nat)
    requires i < n
    ensures Walk(i, n - 1) == PathSides(i, n)
    decreases n
  {
    if n > 1 {
      var k := Split(n);
      if i < k {
        WalkIsPathSides(i, k);
        PathSidesUnderRight(i, n);
      } else {
        WalkIsPathSides(i - k, n - k);
        PathSidesUnderLeft(i, n);
      }
    }
  }

  lemma {:induction false} StripOnesUnderRight(fn: nat, sn: nat, K: nat) returns (K': nat)
    requires IsPow2(K) && fn < K <= sn < 2 * K
    ensures IsPow2(K')
    ensures StripOnes(fn, sn).0 == StripOnes(fn, K - 1).0 < K'
    ensures StripOnes(fn, K - 1).1 == K' - 1 && K' <= StripOnes(fn, sn).1 < 2 * K'
    decreases fn
  {
    if fn % 2 == 1 {
      assert (K - 1) / 2 == K / 2 - 1;
      K' := StripOnesUnderRight(fn / 2, sn / 2, K / 2);
    } else {
      K' := K;
    }
  }

  lemma {:induction false} StripOnesUnderLeft(fn: nat, sn: nat, K: nat) returns (K': nat)
    requires IsPow2(K) && fn < sn < K
    ensures IsPow2(K') && StripOnes(fn, sn).1 < K'
    ensures StripOnes(fn + K, sn + K) == (StripOnes(fn, sn).0 + K', StripOnes(fn, sn).1 + K')
    decreases fn
  {
    if fn % 2 == 1 {
      AddEven(fn, K);
      AddEven(sn, K);
      K' := StripOnesUnderLeft(fn / 2, sn / 2, K / 2);
    } else {
      K' := K;
    }
  }

  lemma {:induction false} StripOnesOfPow2(m: nat, sn: nat)
    requires IsPow2(m) && m - 1 <= sn
    ensures StripOnes(m - 1, sn).0 == 0
    ensures sn == m - 1 ==> StripOnes(m - 1, sn).1 == 0
    decreases m
  {
    if m > 1 {
      assert (m - 1) / 2 == m / 2 - 1;
      StripOnesOfPow2(m / 2, sn / 2);
    }
  }

  /** The consistency verifier's walk: the trailing ones of m - 1 are stripped first. */
  function ConsistencyWalk(m: nat, n: nat): seq<Side>
    requires 1 <= m <= n
  {
    var s := StripOnes(m - 1, n - 1);
    Walk(s.0, s.1)
  }

  lemma ConsistencyWalkUnderRight(m: nat, n: nat, K: nat)
    requires IsPow2(K) && 1 <= m <= K < n <= 2 * K
    ensures ConsistencyWalk(m, n) == ConsistencyWalk(m, K) + [SiblingRight]
  {
    var K' := StripOnesUnderRight(m - 1, n - 1, K);
    WalkUnderRight(StripOnes(m - 1, n - 1).0, StripOnes(m - 1, n - 1).1, K');
  }

  lemma ConsistencyWalkUnderLeft(m: nat, n: nat, K: nat)
    requires IsPow2(K) && 1 <= m < n <= K
    ensures ConsistencyWalk(m + K, n + K) == ConsistencyWalk(m, n) + [SiblingLeft]
  {
    StrippedWalkUnderLeft(m - 1, n - 1, K);
    assert (m - 1) + K == (m + K) - 1 && (n - 1) + K == (n + K) - 1;
  }

  lemma StrippedWalkUnderLeft(fn: nat, sn: nat, K: nat)
    requires IsPow2(K) && fn < sn < K
    ensures var s, t := StripOnes(fn, sn), StripOnes(fn + K, sn + K); Walk(t.0, t.1) == Walk(s.0, s.1) + [SiblingLeft]
  {
    hide Walk, StripOnes;
    var K' := StripOnesUnderLeft(fn, sn, K);
    var s := StripOnes(fn, sn);
    WalkUnderLeft(s.0, s.1, K');
  }

  /** The bits the consistency verifier reads are the recursion of the consistency proof. */
  lemma {:induction false} WalkIsSubproofSides(m: nat, n: nat)
    requires 1 <= m <= n && (m == n ==> IsPow2(m))
    ensures ConsistencyWalk(m, n) == SubproofSides(m, n)
    decreases n
  {
    if m == n {
      StripOnesOfPow2(m, n - 1);
    } else {
      var k := Split(n);
      SplitIsPow2(n);
      if m <= k {
        WalkIsSubproofSides(m, k);
        ConsistencyWalkUnderRight(m, n, k);
      } else {
        WalkIsSubproofSides(m - k, n - k);
        ConsistencyWalkUnderLeft(m - k, n - k, k);
      }
    }
  }

  /** A tree of m leaves is a left spine of the larger tree exactly when m is a power of two. */
  lemma {:induction false} LeftSpineIffPow2(m: nat, n: nat)
    requires 1 <= m <= n && (m == n ==> IsPow2(m))
    ensures IsPow2(m) <==> SiblingLeft !in SubproofSides(m, n)
    decreases n
  {
    if m < n {
      var k := Split(n);
      SplitIsPow2(n);
      if m <= k {
        LeftSpineIffPow2(m, k);
      } else {
        assert SubproofSides(m, n)[|SubproofSides(m, n)| - 1] == SiblingLeft;
        if IsPow2(m) {
          Pow2Gap(k, m);
        }
      }
    }
  }
}
