/** Where signed heads are published: a directory whose latest.json is overwritten, a table with one row per tree size,
    and several stores written together. One tenant's part of each. */
module Checkpoints {
  import opened Hashing
  import opened Merkle
  import opened Options
  import opened Wire

  datatype Checkpoint = Checkpoint(logId: Option<string>, treeSize: int, rootHash: Bytes, signedAt: Time,
      envelope: Envelope)

  datatype Store =
    | Dir(latestFile: Option<Checkpoint>, files: map<int, Checkpoint>)
    | Pg(rows: seq<Checkpoint>)

  // ----- One store -----

  /** INSERT ... ON CONFLICT: a row of the same size is refreshed if its root agrees, else left alone. */
  function Upsert(rows: seq<Checkpoint>, c: Checkpoint): seq<Checkpoint> {
    if rows == [] then [c]
    else if rows[0].treeSize != c.treeSize then [rows[0]] + Upsert(rows[1..], c)
    else if rows[0].rootHash == c.rootHash then [rows[0].(signedAt := c.signedAt, envelope := c.envelope)] + rows[1..]
    else rows
  }

  function Save(s: Store, c: Checkpoint): Store {
    match s
    case Dir(_, files) => Dir(Some(c), files[c.treeSize := c])
    case Pg(rows) => Pg(Upsert(rows, c))
  }

  function Largest(rows: seq<Checkpoint>): Option<Checkpoint> {
    if rows == [] then None
    else
      var rest := Largest(rows[1..]);
      if rest.Some? && rest.value.treeSize > rows[0].treeSize then rest else Some(rows[0])
  }

  function Latest(s: Store): Option<Checkpoint> {
    match s
    case Dir(latest, _) => latest
    case Pg(rows) => Largest(rows)
  }

  /** The size a store has reached; -1 before its first checkpoint. */
  function Reached(s: Store): int {
    if Latest(s).Some? then Latest(s).value.treeSize else -1
  }

  /** Every checkpoint `latest` may ever return from this store. */
  function Held(s: Store): seq<Checkpoint> {
    match s
    case Dir(latest, _) => if latest.Some? then [latest.value] else []
    case Pg(rows) => rows
  }

  ghost predicate AtMost(s: Store, n: int) {
    forall c :: c in Held(s) ==> c.treeSize <= n
  }

  lemma {:induction false} LargestIsHeld(rows: seq<Checkpoint>)
    ensures Largest(rows).Some? <==> rows != []
    ensures rows != [] ==> Largest(rows).value in rows
    ensures rows != [] ==> forall c :: c in rows ==> c.treeSize <= Largest(rows).value.treeSize
  {
    if rows != [] {
      LargestIsHeld(rows[1..]);
      assert forall c :: c in rows ==> c == rows[0] || c in rows[1..];
    }
  }

  lemma LatestIsHeld(s: Store)
    ensures Latest(s).Some? ==> Latest(s).value in Held(s)
  {
    match s
    case Dir(_, _) =>
    case Pg(rows) => LargestIsHeld(rows);
  }

  lemma {:induction false} UpsertHas(rows: seq<Checkpoint>, c: Checkpoint)
    ensures exists x :: x in Upsert(rows, c) && x.treeSize == c.treeSize
    ensures forall x :: x in Upsert(rows, c) ==>
              x == c || x in rows || (exists y :: y in rows && y.treeSize == c.treeSize && y.rootHash == c.rootHash
                                                  && x == y.(signedAt := c.signedAt, envelope := c.envelope))
  {
    if rows == [] {
      assert c in Upsert(rows, c);
    } else if rows[0].treeSize != c.treeSize {
      UpsertHas(rows[1..], c);
      var x :| x in Upsert(rows[1..], c) && x.treeSize == c.treeSize;
      assert x in Upsert(rows, c);
      forall x | x in Upsert(rows, c)
        ensures x == c || x in rows || (exists y :: y in rows && y.treeSize == c.treeSize && y.rootHash == c.rootHash
                                                    && x == y.(signedAt := c.signedAt, envelope := c.envelope))
      {
        assert x == rows[0] || x in Upsert(rows[1..], c);
      }
    } else {
      assert Upsert(rows, c)[0] in Upsert(rows, c);
      assert rows[0] in rows;
    }
  }

  /** Saving a checkpoint no smaller than any before brings the store to its size, whichever kind the store is. */
  lemma SaveReaches(s: Store, c: Checkpoint)
    requires AtMost(s, c.treeSize)
    ensures Reached(Save(s, c)) == c.treeSize && AtMost(Save(s, c), c.treeSize)
  {
    match s
    case Dir(_, _) =>
    case Pg(rows) =>
      UpsertHas(rows, c);
      LargestIsHeld(Upsert(rows, c));
  }

  lemma {:induction false} UpsertKeepsSizes(rows: seq<Checkpoint>, c: Checkpoint)
    ensures forall x :: x in rows ==> exists y :: y in Upsert(rows, c) && y.treeSize == x.treeSize
  {
    if rows != [] {
      UpsertKeepsSizes(rows[1..], c);
      var after := Upsert(rows, c);
      forall x | x in rows
        ensures exists y :: y in after && y.treeSize == x.treeSize
      {
        if x == rows[0] {
          assert after[0] in after && after[0].treeSize == x.treeSize;
        } else if rows[0].treeSize != c.treeSize {
          var y :| y in Upsert(rows[1..], c) && y.treeSize == x.treeSize;
          assert y in after;
        } else {
          assert x in rows[1..] && x in after;
        }
      }
    }
  }

  /** A table's largest size never falls, whatever is saved to it and in whatever order. */
  lemma TableNeverFallsBack(rows: seq<Checkpoint>, c: Checkpoint)
    requires c.treeSize >= 0
    ensures Reached(Save(Pg(rows), c)) >= Reached(Pg(rows)) && Reached(Save(Pg(rows), c)) >= c.treeSize
  {
    LargestIsHeld(rows);
    LargestIsHeld(Upsert(rows, c));
    UpsertHas(rows, c);
    UpsertKeepsSizes(rows, c);
    if rows != [] {
      var y :| y in Upsert(rows, c) && y.treeSize == Largest(rows).value.treeSize;
    }
    var x :| x in Upsert(rows, c) && x.treeSize == c.treeSize;
  }

  lemma {:induction false} UpsertAgain(rows: seq<Checkpoint>, c: Checkpoint)
    ensures Upsert(Upsert(rows, c), c) == Upsert(rows, c)
  {
    if rows != [] && rows[0].treeSize != c.treeSize {
      UpsertAgain(rows[1..], c);
      assert ([rows[0]] + Upsert(rows[1..], c))[1..] == Upsert(rows[1..], c);
    }
  }

  /** Saves are idempotent in every store. */
  lemma SaveIsIdempotent(s: Store, c: Checkpoint)
    ensures Save(Save(s, c), c) == Save(s, c)
  {
    if s.Pg? {
      UpsertAgain(s.rows, c);
    }
  }

  // ----- What a store holds after any saves -----

  function Saved(s: Store, cs: seq<Checkpoint>): Store {
    if cs == [] then s else Save(Saved(s, cs[..|cs| - 1]), cs[|cs| - 1])
  }

  /** A directory has as its latest the last of these checkpoints, and c in the file of its size if it is the last of
      that size. */
  ghost predicate Lists(s: Store, cs: seq<Checkpoint>, c: Checkpoint) {
    && s.Dir?
    && (Latest(s) == Some(c) <==> cs != [] && c == cs[|cs| - 1])
    && (c.treeSize in s.files && s.files[c.treeSize] == c <==> exists j: nat :: LastOfItsSize(cs, j, c))
  }

  /** After any saves, a directory has for each size the last checkpoint of it, and as the latest the last one. */
  lemma {:induction false} DirectoryExactly(cs: seq<Checkpoint>, c: Checkpoint)
    ensures Lists(Saved(Dir(None, map[]), cs), cs, c)
  {
    hide Lists, Save;
    if cs != [] {
      var n := |cs| - 1;
      DirectoryExactly(cs[..n], c);
      DirectorySaves(Saved(Dir(None, map[]), cs[..n]), cs[..n], cs[n], c);
      assert cs == cs[..n] + [cs[n]];
    } else {
      NoneListed(c);
    }
  }

  lemma DirectorySaves(s: Store, front: seq<Checkpoint>, last: Checkpoint, c: Checkpoint)
    requires Lists(s, front, c)
    ensures Lists(Save(s, last), front + [last], c)
  {
    LastSnoc(front, last, c);
  }

  lemma NoneListed(c: Checkpoint)
    ensures Lists(Dir(None, map[]), [], c)
  {
  }

  ghost predicate LastOfItsSize(cs: seq<Checkpoint>, j: nat, c: Checkpoint) {
    j < |cs| && cs[j] == c && forall k :: j < k < |cs| ==> cs[k].treeSize != c.treeSize
  }

  lemma LastSnoc(front: seq<Checkpoint>, last: Checkpoint, c: Checkpoint)
    ensures (exists j: nat :: LastOfItsSize(front + [last], j, c)) <==>
            last == c || (last.treeSize != c.treeSize && exists j: nat :: LastOfItsSize(front, j, c))
  {
    var cs := front + [last];
    assert cs[|front|] == last && forall k :: 0 <= k < |front| ==> cs[k] == front[k];
    if last == c {
      assert LastOfItsSize(cs, |front|, c);
    }
    if j: nat :| LastOfItsSize(front, j, c) {
      assert last.treeSize != c.treeSize ==> LastOfItsSize(cs, j, c);
    }
    if j: nat :| LastOfItsSize(cs, j, c) {
      assert j < |front| ==> LastOfItsSize(front, j, c);
    }
  }

  /** The row of its size: the k-th checkpoint saved was the first of that size, and fixed the root; the j-th was the
      last with that size and root, and gave it its time and envelope. */
  ghost predicate RowOf(cs: seq<Checkpoint>, k: nat, j: nat, x: Checkpoint) {
    && k <= j < |cs|
    && (forall i :: 0 <= i < k ==> cs[i].treeSize != cs[k].treeSize)
    && SameHead(cs[j], cs[k]) && (forall i :: j < i < |cs| ==> !SameHead(cs[i], cs[k]))
    && x == cs[k].(signedAt := cs[j].signedAt, envelope := cs[j].envelope)
  }

  predicate SameHead(a: Checkpoint, b: Checkpoint) {
    a.treeSize == b.treeSize && a.rootHash == b.rootHash
  }

  ghost predicate OneRowEach(rows: seq<Checkpoint>) {
    forall i, j :: 0 <= i < j < |rows| ==> rows[i].treeSize != rows[j].treeSize
  }

  lemma {:induction false} UpsertExactly(rows: seq<Checkpoint>, c: Checkpoint, x: Checkpoint)
    requires OneRowEach(rows)
    ensures x in Upsert(rows, c) <==>
            || (x in rows && !SameHead(x, c))
            || (x == c && forall y :: y in rows ==> y.treeSize != c.treeSize)
            || (exists y :: y in rows && SameHead(y, c) && x == y.(signedAt := c.signedAt, envelope := c.envelope))
    ensures OneRowEach(Upsert(rows, c))
    ensures forall y :: y in Upsert(rows, c) ==> y.treeSize == c.treeSize || y in rows
  {
    if rows != [] {
      assert forall y :: y in rows <==> y == rows[0] || y in rows[1..];
      if rows[0].treeSize != c.treeSize {
        UpsertExactly(rows[1..], c, x);
      }
    }
  }

  lemma RowStill(front: seq<Checkpoint>, c: Checkpoint, k: nat, j: nat, x: Checkpoint)
    requires RowOf(front, k, j, x)
    ensures if SameHead(x, c) then RowOf(front + [c], k, |front|, x.(signedAt := c.signedAt, envelope := c.envelope))
            else RowOf(front + [c], k, j, x)
  {
    var cs := front + [c];
    assert cs[|front|] == c && forall i :: 0 <= i < |front| ==> cs[i] == front[i];
  }

  lemma RowBefore(front: seq<Checkpoint>, c: Checkpoint, k: nat, j: nat, x: Checkpoint)
    requires RowOf(front + [c], k, j, x) && k < |front|
    ensures j < |front| ==> RowOf(front, k, j, x) && !SameHead(x, c)
    ensures j == |front| ==> exists j': nat, y :: RowOf(front, k, j', y) && SameHead(y, c)
                               && x == y.(signedAt := c.signedAt, envelope := c.envelope)
  {
    var cs := front + [c];
    assert cs[|front|] == c && forall i :: 0 <= i < |front| ==> cs[i] == front[i];
    if j == |front| {
      var j' := LastLike(front, k);
      var y := front[k].(signedAt := front[j'].signedAt, envelope := front[j'].envelope);
      assert RowOf(front, k, j', y);
    }
  }

  lemma {:induction false} LastLike(front: seq<Checkpoint>, k: nat) returns (j: nat)
    requires k < |front|
    ensures k <= j < |front| && SameHead(front[j], front[k])
    ensures forall i :: j < i < |front| ==> !SameHead(front[i], front[k])
  {
    var n := |front| - 1;
    if SameHead(front[n], front[k]) {
      j := n;
    } else {
      j := LastLike(front[..n], k);
    }
  }

  /** After any saves, a table has one row for each size saved: the root the first save of that size gave it, whatever
      came after, with the time and the envelope of the last save that agreed. So a root once published for a size
      never changes. */
  lemma {:induction false} TableExactly(cs: seq<Checkpoint>, x: Checkpoint)
    ensures var s := Saved(Pg([]), cs);
            && s.Pg? && OneRowEach(s.rows)
            && (x in s.rows <==> exists k: nat, j: nat :: RowOf(cs, k, j, x))
    decreases |cs|, 1
  {
    if cs != [] {
      TableStep(cs, x);
    }
  }

  lemma {:induction false} TableStep(cs: seq<Checkpoint>, x: Checkpoint)
    requires cs != []
    ensures var s := Saved(Pg([]), cs);
            && s.Pg? && OneRowEach(s.rows)
            && (x in s.rows <==> exists k: nat, j: nat :: RowOf(cs, k, j, x))
    decreases |cs|, 0
  {
    hide OneRowEach, RowOf, Upsert;
    var n := |cs| - 1;
    var front, c := cs[..n], cs[n];
    assert cs == front + [c];
    TableExactly(front, x);
    var rows := Saved(Pg([]), front).rows;
    forall y
      ensures y in rows <==> exists k: nat, j: nat :: RowOf(front, k, j, y)
    {
      TableExactly(front, y);
    }
    UpsertExactly(rows, c, x);
    forall k: nat, j: nat, y | RowOf(front, k, j, y)
      ensures if SameHead(y, c) then RowOf(cs, k, n, y.(signedAt := c.signedAt, envelope := c.envelope))
              else RowOf(cs, k, j, y)
    {
      RowStill(front, c, k, j, y);
    }
    if k: nat, j: nat :| RowOf(cs, k, j, x) {
      RowRange(cs, k, j, x);
      if k < n {
        RowBefore(front, c, k, j, x);
      } else {
        NewRow(front, c, rows, j, x);
      }
    }
    if x == c && forall y :: y in rows ==> y.treeSize != c.treeSize {
      FirstOfItsSize(front, c, rows);
    }
  }

  lemma RowRange(cs: seq<Checkpoint>, k: nat, j: nat, x: Checkpoint)
    requires RowOf(cs, k, j, x)
    ensures k <= j < |cs|
  {
  }

  lemma NewRow(front: seq<Checkpoint>, c: Checkpoint, rows: seq<Checkpoint>, j: nat, x: Checkpoint)
    requires RowOf(front + [c], |front|, j, x)
    requires forall y :: y in rows <==> exists k: nat, j: nat :: RowOf(front, k, j, y)
    ensures x == c && forall y :: y in rows ==> y.treeSize != c.treeSize
  {
    var cs := front + [c];
    assert cs[|front|] == c && forall i :: 0 <= i < |front| ==> cs[i] == front[i];
  }

  lemma FirstOfItsSize(front: seq<Checkpoint>, c: Checkpoint, rows: seq<Checkpoint>)
    requires forall y :: y in rows <==> exists k: nat, j: nat :: RowOf(front, k, j, y)
    requires forall y :: y in rows ==> y.treeSize != c.treeSize
    ensures RowOf(front + [c], |front|, |front|, c)
  {
    var cs := front + [c];
    assert cs[|front|] == c && forall i :: 0 <= i < |front| ==> cs[i] == front[i];
    forall i | 0 <= i < |front|
      ensures front[i].treeSize != c.treeSize
    {
      var k := FirstOf(front, i);
      var j := LastLike(front, k);
      var y := front[k].(signedAt := front[j].signedAt, envelope := front[j].envelope);
      assert RowOf(front, k, j, y);
    }
  }

  lemma {:induction false} FirstOf(front: seq<Checkpoint>, i: nat) returns (k: nat)
    requires i < |front|
    ensures k <= i && front[k].treeSize == front[i].treeSize
    ensures forall m :: 0 <= m < k ==> front[m].treeSize != front[k].treeSize
    decreases i
  {
    if m :| 0 <= m < i && front[m].treeSize == front[i].treeSize {
      k := FirstOf(front, m);
    } else {
      k := i;
    }
  }

  // ----- Several stores -----

  /** The stores after the first n of them took the checkpoint. */
  function SaveFirst(stores: seq<Store>, c: Checkpoint, n: nat): seq<Store>
    requires n <= |stores|
  {
    seq(|stores|, i requires 0 <= i < |stores| => if i < n then Save(stores[i], c) else stores[i])
  }

  /** The store furthest behind; none while some store has nothing. */
  function Behind(stores: seq<Store>): (r: Option<Checkpoint>)
    ensures r.Some? ==> forall i :: 0 <= i < |stores| ==> r.value.treeSize <= Reached(stores[i])
    ensures r.Some? ==> exists i :: 0 <= i < |stores| && r == Latest(stores[i])
    ensures r.None? <==> stores == [] || exists i :: 0 <= i < |stores| && Latest(stores[i]).None?
  {
    if stores == [] then None
    else
      var n := |stores| - 1;
      var last, rest := Latest(stores[n]), Behind(stores[..n]);
      if last.None? || n == 0 then last
      else if rest.None? || last.value.treeSize >= rest.value.treeSize then rest
      else last
  }

  /** Store i is the first of those furthest behind, and this is its latest checkpoint. */
  ghost predicate FurthestBehind(stores: seq<Store>, i: nat, c: Checkpoint) {
    && i < |stores| && Latest(stores[i]) == Some(c)
    && (forall k :: 0 <= k < i ==> Latest(stores[k]).Some? && Latest(stores[k]).value.treeSize > c.treeSize)
    && forall k :: i < k < |stores| ==> Latest(stores[k]).Some? && Latest(stores[k]).value.treeSize >= c.treeSize
  }

  lemma {:induction false} BehindIs(stores: seq<Store>) returns (i: nat)
    requires Behind(stores).Some?
    ensures FurthestBehind(stores, i, Behind(stores).value)
    decreases |stores|
  {
    hide Latest, FurthestBehind;
    var n := |stores| - 1;
    if n == 0 {
      i := 0;
      OnlyOne(stores, Behind(stores).value);
    } else {
      assert stores[..n] + [stores[n]] == stores;
      i := BehindIs(stores[..n]);
      OneStoreMore(stores[..n], stores[n], i, Behind(stores[..n]).value);
      if Behind(stores[..n]) != Behind(stores) {
        i := n;
      }
    }
  }

  lemma OnlyOne(stores: seq<Store>, c: Checkpoint)
    requires |stores| == 1 && Latest(stores[0]) == Some(c)
    ensures FurthestBehind(stores, 0, c)
  {
  }

  lemma OneStoreMore(front: seq<Store>, last: Store, i: nat, c: Checkpoint)
    requires FurthestBehind(front, i, c) && Latest(last).Some?
    ensures var d := Latest(last).value;
            if d.treeSize >= c.treeSize then FurthestBehind(front + [last], i, c)
            else FurthestBehind(front + [last], |front|, d)
  {
    hide Latest;
    var all := front + [last];
    assert all[|front|] == last && forall k :: 0 <= k < |front| ==> all[k] == front[k];
  }

  /** The checkpoint several stores are asked about together is that of the first of those furthest behind, if all of
      them have one. */
  lemma {:induction false} BehindExactly(stores: seq<Store>, c: Checkpoint)
    ensures Behind(stores) == Some(c) <==> exists i: nat :: FurthestBehind(stores, i, c)
  {
    hide Latest;
    if Behind(stores).Some? {
      var i := BehindIs(stores);
      assert forall j: nat :: FurthestBehind(stores, j, c) ==> j == i;
    }
  }

  class BothCheckpoints {
    var stores: seq<Store>

    /** Writes to each store in turn; an exception in store number failsAt stops it there. */
    method SaveAll(c: Checkpoint, failsAt: nat) returns (ok: bool)
      modifies this
      ensures ok == (failsAt >= |old(stores)|)
      ensures stores == SaveFirst(old(stores), c, if ok then |old(stores)| else failsAt)
    {
      var i := 0;
      while i < |stores|
        invariant 0 <= i <= |stores| && i <= failsAt && |stores| == |old(stores)|
        invariant stores == SaveFirst(old(stores), c, i)
      {
        if i == failsAt { return false; }
        stores := stores[i := Save(stores[i], c)];
        i := i + 1;
      }
      ok := true;
    }

    method LatestOfAll() returns (behind: Option<Checkpoint>)
      ensures behind == Behind(stores)
    {
      hide Latest;
      behind := None;
      var i := 0;
      while i < |stores|
        invariant 0 <= i <= |stores|
        invariant behind == Behind(stores[..i]) && (i > 0 ==> behind.Some?)
        invariant forall k :: 0 <= k < i ==> Latest(stores[k]).Some?
      {
        var l := Latest(stores[i]);
        assert stores[..i + 1][..i] == stores[..i];
        if l.None? {
          return None;
        }
        if behind.None? || l.value.treeSize < behind.value.treeSize {
          behind := l;
        }
        i := i + 1;
      }
      assert stores[..i] == stores;
    }
  }
}
