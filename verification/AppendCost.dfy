/** How many node hashes an append computes: in a warm cache every aligned complete range is already an entry, so an
    append pays only for the ranges that end at the new leaf. */
module AppendCost {
  import opened BitWalk
  import opened Hashing
  import opened Merkle
  import opened SubtreeCache

  // ----- Multiples of powers of two -----

  /** lo is a multiple of the power of two k. */
  predicate Mult(lo: nat, k: nat) {
    k <= 1 || (lo % 2 == 0 && Mult(lo / 2, k / 2))
  }

  lemma {:induction false} Quotient(lo: nat, k: nat) returns (q: nat)
    requires IsPow2(k) && Mult(lo, k)
    ensures lo == k * q
  {
    if k == 1 {
      q := lo;
    } else {
      q := Quotient(lo / 2, k / 2);
      Twice(k / 2, q);
    }
  }

  lemma Twice(j: nat, q: nat)
    ensures 2 * (j * q) == (2 * j) * q
  {
  }

  lemma Multiples(k: nat, t: int)
    ensures t >= 1 ==> k * t >= k
    ensures t <= -1 ==> k * t + k <= 0
  {
  }

  lemma Distribute(k: nat, a: int, b: int)
    ensures k * (a - b) == k * a - k * b
  {
  }

  lemma Remainder(k: nat, q: nat, q': nat, r: nat)
    requires r < k && k * q == k * q' + r
    ensures r == 0
  {
    Distribute(k, q, q');
    Multiples(k, q - q');
  }

  lemma Euclid(x: nat, k: nat)
    requires k >= 1
    ensures x == k * (x / k) + x % k && 0 <= x % k < k && 0 <= x / k
  {
  }

  lemma MultIsMod(lo: nat, k: nat)
    requires IsPow2(k) && Mult(lo, k)
    ensures lo % k == 0
  {
    var q := Quotient(lo, k);
    Euclid(lo, k);
    Remainder(k, q, lo / k, lo % k);
  }

  lemma {:induction false} MultSmaller(lo: nat, K: nat, k: nat)
    requires IsPow2(K) && IsPow2(k) && k <= K && Mult(lo, K)
    ensures Mult(lo, k)
  {
    if k > 1 {
      MultSmaller(lo / 2, K / 2, k / 2);
    }
  }

  lemma {:induction false} MultZero(k: nat)
    ensures Mult(0, k)
  {
    if k > 1 {
      MultZero(k / 2);
    }
  }

  lemma {:induction false} MultSum(a: nat, b: nat, k: nat)
    requires IsPow2(k) && Mult(a, k)
    ensures Mult(b, k) <==> Mult(a + b, k)
  {
    if k > 1 {
      AddEven(b, a);
      MultSum(a / 2, b / 2, k / 2);
    }
  }

  lemma {:induction false} MultOfPow2(K: nat, k: nat)
    requires IsPow2(K) && IsPow2(k) && k <= K
    ensures Mult(K, k)
  {
    if k > 1 {
      MultOfPow2(K / 2, k / 2);
    }
  }

  lemma {:induction false} MultAtLeast(n: nat, k: nat)
    requires IsPow2(k) && Mult(n, k) && n > 0
    ensures n >= k
  {
    if k > 1 {
      MultAtLeast(n / 2, k / 2);
    }
  }

  // ----- A warm cache -----

  /** Every aligned range of 2, 4, 8, ... leaves that ends by s is an entry. */
  ghost predicate Complete(memo: Memo, s: nat) {
    forall lo: nat, n: nat :: IsPow2(n) && n >= 2 && Mult(lo, n) && lo + n <= s ==> (lo, lo + n) in memo
  }

  ghost predicate Bounded(memo: Memo, s: nat) {
    forall r :: r in memo ==> r.1 <= s
  }

  ghost predicate Warm(memo: Memo, s: nat) {
    Complete(memo, s) && Bounded(memo, s)
  }

  lemma WarmEmpty()
    ensures Warm(map[], 0)
  {
  }

  lemma PowerTestOfPow2(n: nat)
    requires IsPow2(n)
    ensures PowerTest(n)
  {
    MisjudgedExactly(n);
  }

  /** An aligned complete range of old leaves costs nothing. */
  lemma Hit(d: Leaves, memo: Memo, s: nat, lo: nat, n: nat)
    requires Complete(memo, s) && IsPow2(n) && Mult(lo, n) && lo + n <= s <= |d|
    ensures var r := MthRun(d, memo, lo, n); r.memo == memo && r.cost == 0
  {
    if n >= 2 {
      PowerTestOfPow2(n);
      MultIsMod(lo, n);
      assert (lo, lo + n) in memo;
    }
  }

  /** What a range of n leaves costs when only its last leaf is new. */
  function FreshCost(n: nat): nat
    requires n >= 1
  {
    if IsPow2(n) then Log2(n) else 1 + FreshCost(n - Split(n))
  }

  function Log2(n: nat): nat {
    if n <= 1 then 0 else 1 + Log2(n / 2)
  }

  lemma SplitOfPow2(n: nat)
    requires IsPow2(n) && n >= 2
    ensures Split(n) == n / 2
  {
    SplitUnique(n, n / 2);
  }

  /** The left half of a range that starts at a multiple of K >= n. */
  lemma LeftHalf(lo: nat, n: nat, K: nat)
    requires n >= 2 && IsPow2(K) && n <= K && Mult(lo, K)
    ensures var k := Split(n); IsPow2(k) && Mult(lo, k) && Mult(lo + k, k)
  {
    var k := Split(n);
    SplitIsPow2(n);
    MultSmaller(lo, K, k);
    MultOfPow2(k, k);
    MultSum(lo, k, k);
  }

  lemma FreshIsMiss(memo: Memo, lo: nat, n: nat)
    requires n >= 2 && Bounded(memo, lo + n - 1)
    ensures Miss(memo, lo, n)
  {
    hide Cacheable;
  }

  lemma {:induction false} FreshRunCost(d: Leaves, memo: Memo, lo: nat, n: nat, K: nat)
    requires n >= 1 && lo + n <= |d| && IsPow2(K) && n <= K && Mult(lo, K) && Warm(memo, lo + n - 1)
    ensures MthRun(d, memo, lo, n).cost == FreshCost(n)
    decreases n
  {
    if n >= 2 {
      var k := Split(n);
      LeftHalf(lo, n, K);
      Hit(d, memo, lo + n - 1, lo, k);
      FreshIsMiss(memo, lo, n);
      MthRunMiss(d, memo, lo, n);
      assert lo + k + (n - k) == lo + n;
      FreshRunCost(d, memo, lo + k, n - k, k);
      FreshCostStep(n);
    }
  }

  lemma FreshCostStep(n: nat)
    requires n >= 2
    ensures FreshCost(n) == 1 + FreshCost(n - Split(n))
  {
    if IsPow2(n) {
      SplitOfPow2(n);
    }
  }

  /** The inclusion path of the last leaf is made of old aligned ranges only. */
  lemma {:induction false} LastPathIsFree(d: Leaves, memo: Memo, lo: nat, n: nat, K: nat)
    requires n >= 1 && lo + n <= |d| && IsPow2(K) && n <= K && Mult(lo, K) && Complete(memo, lo + n - 1)
    ensures var r := PathRun(d, memo, n - 1, lo, n); r.memo == memo && r.cost == 0
    decreases n
  {
    if n >= 2 {
      hide MthRun;
      var k := Split(n);
      LeftHalf(lo, n, K);
      assert lo + k + (n - k) == lo + n;
      LastPathIsFree(d, memo, lo + k, n - k, k);
      Hit(d, memo, lo + n - 1, lo, k);
    }
  }

  lemma RestIsMultiple(lo: nat, n: nat, k: nat, a: nat, p: nat)
    requires IsPow2(k) && IsPow2(p) && p <= k < n && Mult(lo, p) && Mult(a, p) && lo <= a && a + p == lo + n
    ensures n - k >= p
  {
    hide IsPow2, Mult;
    MultSum(lo, a - lo, p);
    MultOfPow2(p, p);
    MultSum(p, a - lo, p);
    MultOfPow2(k, p);
    assert p + (a - lo) == k + (n - k);
    MultSum(k, n - k, p);
    MultAtLeast(n - k, p);
  }

  /** The aligned ranges that end at the new leaf lie in the right half, unless they are the whole range. */
  lemma EndsInRightHalf(lo: nat, n: nat, K: nat, a: nat, p: nat)
    requires n >= 2 && IsPow2(K) && n <= K && Mult(lo, K)
    requires IsPow2(p) && Mult(a, p) && lo <= a && a + p == lo + n && p < n
    ensures lo + Split(n) <= a
  {
    hide IsPow2, Mult;
    var k := Split(n);
    LeftHalf(lo, n, K);
    if p > k {
      Pow2Gap(k, p);
    }
    MultSmaller(lo, K, p);
    RestIsMultiple(lo, n, k, a, p);
  }

  lemma {:induction false} FreshRunCompletes(d: Leaves, memo: Memo, lo: nat, n: nat, K: nat, a: nat, p: nat)
    requires n >= 1 && lo + n <= |d| && IsPow2(K) && n <= K && Mult(lo, K) && Warm(memo, lo + n - 1)
    requires IsPow2(p) && p >= 2 && Mult(a, p) && lo <= a && a + p == lo + n
    ensures (a, lo + n) in MthRun(d, memo, lo, n).memo
    decreases n
  {
    hide MthRun, IsPow2, Mult;
    var k := Split(n);
    LeftHalf(lo, n, K);
    Hit(d, memo, lo + n - 1, lo, k);
    FreshIsMiss(memo, lo, n);
    MthRunMiss(d, memo, lo, n);
    if p == n {
      PowerTestOfPow2(n);
      MultIsMod(lo, n);
    } else {
      hide Cacheable;
      EndsInRightHalf(lo, n, K, a, p);
      assert lo + k + (n - k) == lo + n;
      FreshRunCompletes(d, memo, lo + k, n - k, k, a, p);
    }
  }

  lemma Slot(n: nat) returns (K: nat)
    requires n >= 1
    ensures IsPow2(K) && n <= K
  {
    if n == 1 {
      K := 1;
    } else {
      SplitIsPow2(n);
      K := 2 * Split(n);
    }
  }

  /** An append to a warm cache costs exactly FreshCost of the new size and leaves it warm. */
  lemma WarmAppend(d: Leaves, memo: Memo)
    requires |d| >= 1 && Warm(memo, |d| - 1)
    ensures var p := PathRun(d, memo, |d| - 1, 0, |d|); var r := MthRun(d, p.memo, 0, |d|);
            p.cost + r.cost == FreshCost(|d|) && Warm(r.memo, |d|)
  {
    hide MthRun, PathRun, IsPow2, Mult, FreshCost;
    var n := |d|;
    var K := Slot(n);
    MultZero(K);
    LastPathIsFree(d, memo, 0, n, K);
    FreshRunCost(d, memo, 0, n, K);
    MthRunGrows(d, memo, 0, n);
    var memo' := MthRun(d, memo, 0, n).memo;
    forall a: nat, p: nat | IsPow2(p) && p >= 2 && Mult(a, p) && a + p <= n
      ensures (a, a + p) in memo'
    {
      if a + p == n {
        FreshRunCompletes(d, memo, 0, n, K, a, p);
      }
    }
  }

  // ----- The cost in closed form -----

  function TrailingZeros(n: nat): nat
    requires n >= 1
  {
    if n % 2 == 1 then 0 else 1 + TrailingZeros(n / 2)
  }

  function PopCount(n: nat): nat {
    if n == 0 then 0 else n % 2 + PopCount(n / 2)
  }

  lemma {:induction false} Pow2Bits(n: nat)
    requires IsPow2(n)
    ensures TrailingZeros(n) == Log2(n) && PopCount(n) == 1
  {
    if n > 1 {
      Pow2Bits(n / 2);
    }
  }

  lemma SubEven(n: nat, k: nat)
    requires k % 2 == 0 && k <= n
    ensures (n - k) / 2 == n / 2 - k / 2 && (n - k) % 2 == n % 2
  {
  }

  lemma {:induction false} ClearTopBit(n: nat, k: nat)
    requires IsPow2(k) && k <= n < 2 * k
    ensures PopCount(n - k) + 1 == PopCount(n)
    ensures n > k ==> TrailingZeros(n - k) == TrailingZeros(n)
  {
    if k > 1 {
      SubEven(n, k);
      ClearTopBit(n / 2, k / 2);
    }
  }

  lemma {:induction false} FreshCostClosedForm(n: nat)
    requires n >= 1
    ensures FreshCost(n) + 1 == TrailingZeros(n) + PopCount(n)
    decreases n
  {
    if IsPow2(n) {
      Pow2Bits(n);
    } else {
      NotPow2Split(n);
      FreshCostClosedForm(n - Split(n));
      ClearTopBit(n, Split(n));
    }
  }

  lemma NotPow2Split(n: nat)
    requires n >= 1 && !IsPow2(n)
    ensures n >= 2 && IsPow2(Split(n)) && n < 2 * Split(n)
  {
    SplitIsPow2(n);
    Pow2Double(Split(n));
  }

  lemma {:induction false} Log2Below(x: nat, k: nat)
    requires IsPow2(k) && 1 <= x < k
    ensures Log2(x) + 1 <= Log2(k)
  {
    if x > 1 {
      Log2Below(x / 2, k / 2);
    }
  }

  lemma {:induction false} Log2Monotone(a: nat, b: nat)
    requires a <= b
    ensures Log2(a) <= Log2(b)
  {
    if a > 1 {
      Log2Monotone(a / 2, b / 2);
    }
  }

  lemma {:induction false} FreshCostLogarithmic(n: nat)
    requires n >= 1
    ensures FreshCost(n) <= Log2(n)
    decreases n
  {
    if !IsPow2(n) {
      NotPow2Split(n);
      FreshCostLogarithmic(n - Split(n));
      Log2Below(n - Split(n), Split(n));
      Log2Monotone(Split(n), n);
    }
  }
}
