/** What supersession comes to in a read, in every ledger built from fact ids used once: a chain of believed intervals
    that tile the time line, and every way of asking shows the same intervals. */
module Supersession {
  import opened Options
  import opened FactLog
  import opened Ledger
  import opened Superseders

  // ----- Intervals along a chain -----

  /** c is a supersession chain of facts none of which is retracted or forgotten, with nothing live after the last. */
  ghost predicate Chain(log: Log, c: seq<Id>) {
    && |c| >= 1
    && (forall k :: 0 <= k < |c| ==> c[k] != "" && c[k] !in Retracted(log))
    && (exists i :: 0 <= i < |log| && Asserts(log[i], c[0]))
    && (forall k :: 0 <= k < |c| - 1 ==>
         exists j :: 0 <= j < |log| && Replaces(log[j], c[k]) && Asserts(log[j], c[k + 1]))
    && NoneLive(log, c[|c| - 1])
  }

  lemma PrefixGrounded(log: Log, n: nat)
    requires n <= |log| && Grounded(log) && Open(log)
    ensures Grounded(log[..n]) && Open(log[..n]) && (Unique(log) ==> Unique(log[..n]))
  {
    forall j, id | 0 <= j < n && Replaces(log[..n][j], id)
      ensures exists i :: 0 <= i < j && Asserts(log[..n][i], id)
                          && log[..n][i].fact.validFrom <= log[..n][j].fact.validFrom
    {
      var i :| 0 <= i < j && Asserts(log[i], id) && log[i].fact.validFrom <= log[j].fact.validFrom;
      assert log[..n][i] == log[i];
    }
  }

  /** A live superseder ends the interval of what it supersedes where its own begins. */
  lemma {:induction false} LinkEnds(log: Log, r: set<Id>, c: set<Id>, id: Id, j: nat)
    requires Unique(log) && Grounded(log) && Open(log) && id != ""
    requires j < |log| && Replaces(log[j], id) && log[j].fact.factId !in r
    requires forall k :: 0 <= k < |log| && k != j && Replaces(log[k], id) ==> log[k].fact.factId in r
    ensures Track(log, r, c, id).Some? && Track(log, r, c, id).value.validTo == Some(log[j].fact.validFrom)
    decreases |log|
  {
    var n := |log| - 1;
    var i :| 0 <= i < j && Asserts(log[i], id);
    assert log[..n][i] == log[i];
    if j == n {
      AssertedIsTracked(log[..n], r, c, id, i);
    } else {
      assert log[..n][j] == log[j];
      PrefixGrounded(log, n);
      LinkEnds(log[..n], r, c, id, j);
    }
  }

  lemma {:induction false} AssertedIsTracked(log: Log, r: set<Id>, c: set<Id>, id: Id, i: nat)
    requires i < |log| && Asserts(log[i], id)
    ensures Track(log, r, c, id).Some?
  {
    var n := |log| - 1;
    if i < n {
      assert log[..n][i] == log[i];
      AssertedIsTracked(log[..n], r, c, id, i);
    }
  }

  lemma {:induction false} LastIsOpen(log: Log, r: set<Id>, c: set<Id>, id: Id)
    requires Open(log) && forall k :: 0 <= k < |log| && Replaces(log[k], id) ==> log[k].fact.factId in r
    ensures Track(log, r, c, id).Some? ==> Track(log, r, c, id).value.validTo.None?
  {
    if log != [] {
      LastIsOpen(log[..|log| - 1], r, c, id);
    }
  }

  lemma StartsWhereAsserted(log: Log, r: set<Id>, c: set<Id>, id: Id, i: nat)
    requires Unique(log) && i < |log| && Asserts(log[i], id)
    ensures Track(log, r, c, id).Some? && Track(log, r, c, id).value.validFrom == log[i].fact.validFrom
  {
    AssertedIsTracked(log, r, c, id, i);
    var k := TrackedIsAsserted(log, r, c, id);
    assert k == i;
  }

  function Tracked(log: Log, id: Id): Option<Fact> {
    Track(log, Retracted(log), Confirmed(log), id)
  }

  lemma OnlyLiveOne(log: Log, id: Id, j: nat)
    requires OneLive(log) && j < |log| && Live(log, j, id)
    ensures forall m :: 0 <= m < |log| && m != j && Replaces(log[m], id) ==> log[m].fact.factId in Retracted(log)
  {
    forall m | 0 <= m < |log| && m != j && Replaces(log[m], id)
      ensures log[m].fact.factId in Retracted(log)
    {
      assert !Live(log, m, id);
    }
  }

  /** Where a fact's interval ends, given its live superseder. */
  lemma LiveLink(log: Log, id: Id, j: nat)
    requires LedgerInv(log) && id != "" && j < |log| && Live(log, j, id)
    ensures var f, g := Tracked(log, id), Tracked(log, log[j].fact.factId);
            f.Some? && g.Some? && f.value.validTo == Some(g.value.validFrom) && f.value.validFrom <= g.value.validFrom
  {
    var r, cf := Retracted(log), Confirmed(log);
    var i :| 0 <= i < j && Asserts(log[i], id) && log[i].fact.validFrom <= log[j].fact.validFrom;
    OnlyLiveOne(log, id, j);
    LinkEnds(log, r, cf, id, j);
    hide LedgerInv;
    hide Tracked;
    hide Live;
    StartsAt(log, log[j].fact.factId, j);
    StartsAt(log, id, i);
  }

  lemma StartsAt(log: Log, id: Id, i: nat)
    requires Unique(log) && i < |log| && Asserts(log[i], id)
    ensures Tracked(log, id).Some? && Tracked(log, id).value.validFrom == log[i].fact.validFrom
  {
    StartsWhereAsserted(log, Retracted(log), Confirmed(log), id, i);
  }

  lemma {:induction false} ChainLink(log: Log, c: seq<Id>, k: nat)
    requires LedgerInv(log) && Chain(log, c) && k < |c| - 1
    ensures var f, g := Tracked(log, c[k]), Tracked(log, c[k + 1]);
            f.Some? && g.Some? && f.value.validTo == Some(g.value.validFrom) && f.value.validFrom <= g.value.validFrom
  {
    hide LedgerInv;
    hide Tracked;
    var j :| 0 <= j < |log| && Replaces(log[j], c[k]) && Asserts(log[j], c[k + 1]);
    LiveLink(log, c[k], j);
  }

  lemma ChainEnd(log: Log, c: seq<Id>)
    requires LedgerInv(log) && Chain(log, c)
    ensures var f := Tracked(log, c[|c| - 1]); f.Some? && f.value.validTo.None?
  {
    var r, cf, last := Retracted(log), Confirmed(log), c[|c| - 1];
    forall m | 0 <= m < |log| && Replaces(log[m], last)
      ensures log[m].fact.factId in r
    {
      assert !Live(log, m, last);
    }
    LastIsOpen(log, r, cf, last);
    hide Retracted;
    hide Track;
    if |c| == 1 {
      var i :| 0 <= i < |log| && Asserts(log[i], c[0]);
      AssertedIsTracked(log, r, cf, last, i);
    } else {
      var k := |c| - 2;
      var j :| 0 <= j < |log| && Replaces(log[j], c[k]) && Asserts(log[j], c[k + 1]);
      AssertedIsTracked(log, r, cf, last, j);
    }
  }

  /** Along a chain each interval ends where the next begins, no start precedes the one before, the last stays open. */
  lemma ChainLinks(log: Log, c: seq<Id>, k: nat)
    requires LedgerInv(log) && Chain(log, c) && k < |c|
    ensures Tracked(log, c[k]).Some?
    ensures k < |c| - 1 ==>
              && Tracked(log, c[k + 1]).Some?
              && Tracked(log, c[k]).value.validTo == Some(Tracked(log, c[k + 1]).value.validFrom)
              && Tracked(log, c[k]).value.validFrom <= Tracked(log, c[k + 1]).value.validFrom
    ensures k == |c| - 1 ==> Tracked(log, c[k]).value.validTo.None?
  {
    hide Tracked;
    if k < |c| - 1 {
      ChainLink(log, c, k);
    } else {
      ChainEnd(log, c);
    }
  }

  /** The interval of the fact contains t. */
  predicate Covers(f: Fact, t: Time) {
    f.validFrom <= t && (f.validTo.None? || t < f.validTo.value)
  }

  /** From the first start on, some member covers t, and it is the last one to have started. */
  lemma {:induction false} SomeCovers(log: Log, c: seq<Id>, t: Time, from: nat) returns (k: nat)
    requires LedgerInv(log) && Chain(log, c) && from < |c|
    requires Tracked(log, c[from]).Some? && Tracked(log, c[from]).value.validFrom <= t
    ensures from <= k < |c| && Tracked(log, c[k]).Some? && Covers(Tracked(log, c[k]).value, t)
    decreases |c| - from
  {
    hide Tracked;
    hide LedgerInv;
    hide Chain;
    ChainLinks(log, c, from);
    if from == |c| - 1 || t < Tracked(log, c[from + 1]).value.validFrom {
      k := from;
    } else {
      k := SomeCovers(log, c, t, from + 1);
    }
  }

  lemma {:induction false} StartsIncrease(log: Log, c: seq<Id>, a: nat, b: nat)
    requires LedgerInv(log) && Chain(log, c) && a <= b < |c|
    ensures Tracked(log, c[a]).Some? && Tracked(log, c[b]).Some?
    ensures Tracked(log, c[a]).value.validFrom <= Tracked(log, c[b]).value.validFrom
    decreases b - a
  {
    hide Tracked;
    hide LedgerInv;
    hide Chain;
    ChainLinks(log, c, a);
    if a < b {
      StartsIncrease(log, c, a + 1, b);
    }
  }

  lemma {:induction false} OnlyOneCovers(log: Log, c: seq<Id>, t: Time, a: nat, b: nat)
    requires LedgerInv(log) && Chain(log, c) && a < b < |c|
    requires Tracked(log, c[a]).Some? && Covers(Tracked(log, c[a]).value, t)
    ensures Tracked(log, c[b]).Some? && !Covers(Tracked(log, c[b]).value, t)
  {
    hide Tracked;
    hide LedgerInv;
    hide Chain;
    ChainLinks(log, c, a);
    StartsIncrease(log, c, a + 1, b);
  }

  // ----- What a read shows -----

  lemma {:induction false} KeptHas(order: seq<Id>, facts: map<Id, Fact>, r: set<Id>, q: Query, f: Fact)
    ensures f in Kept(order, facts, r, q) <==>
            exists id :: id in order && id in facts && facts[id] == f && Keeps(f, r, q)
  {
    if order != [] {
      var n := |order| - 1;
      KeptHas(order[..n], facts, r, q, f);
      assert order == order[..n] + [order[n]];
    }
  }

  /** A read returns a fact exactly when it is what is tracked of its id and passes the filters. */
  lemma ReadHas(known: Log, q: Query, f: Fact)
    ensures f in Read(known, q) <==> Tracked(known, f.factId) == Some(f) && Keeps(f, Retracted(known), q)
  {
    var r, c := Retracted(known), Confirmed(known);
    var t := Scan(known, r, c);
    ScanOrder(known, r, c);
    KeptHas(t.order, t.facts, r, q, f);
    ScanIsTrack(known, r, c, f.factId);
    if f in Read(known, q) {
      var id :| id in t.order && id in t.facts && t.facts[id] == f && Keeps(f, r, q);
      ScanIsTrack(known, r, c, id);
      TrackShown(known, r, c, id);
    }
  }

  /** A query for everything believed at an instant, by what was known at another. */
  function AllAt(validAt: Time, txAt: Time): Query {
    Query(validAt, txAt, None, None, None, None)
  }

  lemma ChainMember(log: Log, c: seq<Id>, m: nat)
    requires Chain(log, c) && m < |c|
    ensures c[m] !in Retracted(log)
  {
  }

  /** What a read of everything shows of one member of a chain. */
  lemma MemberRead(known: Log, c: seq<Id>, m: nat, t: Time, txAt: Time)
    requires LedgerInv(known) && Chain(known, c) && m < |c|
    ensures Tracked(known, c[m]).Some?
    ensures (exists f :: f in Read(known, AllAt(t, txAt)) && f.factId == c[m]) <==>
            Covers(Tracked(known, c[m]).value, t)
  {
    hide Chain, LedgerInv, Read, Track, Retracted, Confirmed;
    ChainMember(known, c, m);
    ChainLinks(known, c, m);
    var g := Tracked(known, c[m]).value;
    TrackShown(known, Retracted(known), Confirmed(known), c[m]);
    if f :| f in Read(known, AllAt(t, txAt)) && f.factId == c[m] {
      ReadHas(known, AllAt(t, txAt), f);
    }
    ReadHas(known, AllAt(t, txAt), g);
  }

  /** What was known at any time is sound: erasing keeps the shape of the ledger as it stood. */
  lemma {:induction false} KnownInv(keyed: bool, ops: seq<Op>, txAt: Time)
    requires FreshIds(keyed, ops) && (Clocked(ops) || AllBy(Run([], keyed, ops), txAt))
    ensures LedgerInv(Cut(Run([], keyed, ops), txAt))
  {
    if AllBy(Run([], keyed, ops), txAt) {
      CutKeepsAll(Run([], keyed, ops), txAt);
      ReachableInv(keyed, ops);
    } else {
      KnownThenInv(keyed, ops, txAt);
    }
  }

  lemma {:induction false} KnownThenInv(keyed: bool, ops: seq<Op>, txAt: Time)
    requires FreshIds(keyed, ops) && Clocked(ops)
    ensures LedgerInv(Cut(Run([], keyed, ops), txAt))
  {
    var i, marks := KnownThen(keyed, ops, txAt);
    forall k | 0 <= k < i
      ensures FreshId(Run([], keyed, ops[..i][..k]), ops[..i][k])
    {
      assert ops[..i][..k] == ops[..k];
    }
    FreshIsUnique(keyed, ops[..i]);
    AlwaysGrounded(keyed, ops[..i]);
    OneLiveUnlessReopened(keyed, ops[..i]);
    EraseKeeps(Run([], keyed, ops[..i]), marks);
  }

  /** Validity tiles: in every reachable ledger, and by what it knew at any time, along a supersession chain with no
      link retracted by then exactly one member is believed at each instant from the first one's start on. A clock
      that goes back matters only to reads of an earlier time. */
  lemma {:induction false} ValidityTiles(keyed: bool, ops: seq<Op>, c: seq<Id>, t: Time, txAt: Time) returns (k: nat)
    requires FreshIds(keyed, ops) && (Clocked(ops) || AllBy(Run([], keyed, ops), txAt))
    requires var known := Cut(Run([], keyed, ops), txAt);
             Chain(known, c) && (Tracked(known, c[0]).Some? ==> Tracked(known, c[0]).value.validFrom <= t)
    ensures k < |c|
    ensures forall m :: 0 <= m < |c| ==>
              ((exists f :: f in FullRead(Run([], keyed, ops), AllAt(t, txAt)) && f.factId == c[m]) <==> m == k)
  {
    hide LedgerInv, Tracked, Read, Run, Cut;
    var known := Cut(Run([], keyed, ops), txAt);
    KnownInv(keyed, ops, txAt);
    ChainLinks(known, c, 0);
    k := SomeCovers(known, c, t, 0);
    forall m | 0 <= m < |c|
      ensures (exists f :: f in Read(known, AllAt(t, txAt)) && f.factId == c[m]) <==> m == k
    {
      MemberRead(known, c, m, t, txAt);
      if m < k && Covers(Tracked(known, c[m]).value, t) {
        OnlyOneCovers(known, c, t, m, k);
      } else if k < m {
        OnlyOneCovers(known, c, t, k, m);
      }
    }
  }

  // ----- get, facts and asOf agree -----

  function ShownOption(f: Option<Fact>, confirmed: set<Id>): Option<Fact> {
    if f.Some? then Some(Shown(f.value, confirmed)) else None
  }

  lemma {:induction false} TrackShown(log: Log, r: set<Id>, c: set<Id>, id: Id)
    ensures Track(log, r, c, id) == ShownOption(Track(log, r, {}, id), c)
    ensures Track(log, r, {}, id).Some? ==> Track(log, r, {}, id).value.factId == id
  {
    if log != [] {
      TrackShown(log[..|log| - 1], r, c, id);
    }
  }

  predicate LiveAt(e: Event, r: set<Id>, id: Id) {
    Replaces(e, id) && e.fact.factId !in r
  }

  predicate Touches(e: Event, r: set<Id>, id: Id) {
    Asserts(e, id) || LiveAt(e, r, id)
  }

  /** The event closes the fact in one of the two scans and not in the other: by id, where it does not assert the fact
      too; in the list, where the id is not empty. */
  predicate ClosesInOne(e: Event, r: set<Id>, id: Id) {
    LiveAt(e, r, id) && (Asserts(e, id) <==> id != "")
  }

  /** The last event that asserts the fact or supersedes it while live closes it in one scan only. */
  ghost predicate Apart(log: Log, r: set<Id>, id: Id) {
    exists j: nat :: j < |log| && ClosesInOne(log[j], r, id) && forall k :: j < k < |log| ==> !Touches(log[k], r, id)
  }

  lemma ApartSnoc(log: Log, e: Event, r: set<Id>, id: Id)
    ensures Apart(log + [e], r, id) <==> if Touches(e, r, id) then ClosesInOne(e, r, id) else Apart(log, r, id)
  {
    var log' := log + [e];
    if Touches(e, r, id) {
      assert log'[|log|] == e;
    } else {
      if j: nat :| j < |log'| && ClosesInOne(log'[j], r, id) && forall k :: j < k < |log'| ==>
        !Touches(log'[k], r, id) {
        assert log'[|log|] == e && j < |log|;
        assert forall k :: j < k < |log| ==> log[k] == log'[k];
        assert ClosesInOne(log[j], r, id);
      }
      if j: nat :| j < |log| && ClosesInOne(log[j], r, id) && forall k :: j < k < |log| ==> !Touches(log[k], r, id) {
        assert ClosesInOne(log'[j], r, id);
        assert forall k :: j < k < |log'| ==> log'[k] == (if k < |log| then log[k] else e);
      }
    }
  }

  function Unended(f: Option<Fact>): Option<Fact> {
    if f.Some? then Some(f.value.(validTo := None)) else None
  }

  /** But for where its interval ends, both scans hold the same fact. */
  lemma {:induction false} SameButEnd(log: Log, r: set<Id>, id: Id)
    ensures Unended(FoundIn(log, r, id)) == Unended(Track(log, r, {}, id))
  {
    if log != [] {
      SameButEnd(log[..|log| - 1], r, id);
    }
  }

  /** The empty id is never closed in the list. */
  lemma {:induction false} EmptyIdStaysOpen(log: Log, r: set<Id>)
    requires Open(log)
    ensures var f := Track(log, r, {}, ""); f.Some? ==> f.value.validTo.None?
  {
    if log != [] {
      var n := |log| - 1;
      assert log[..n] + [log[n]] == log;
      EmptyIdStaysOpen(log[..n], r);
      assert log[n].Assert? ==> log[n].fact.validTo.None?;
    }
  }

  /** One more event, by what it does to the fact. */
  lemma ScansStep(front: Log, e: Event, r: set<Id>, id: Id)
    requires e.Assert? ==> e.fact.validTo.None?
    requires LiveAt(e, r, id) ==> FoundIn(front, r, id).Some?
    requires var f := Track(front + [e], r, {}, ""); f.Some? ==> f.value.validTo.None?
    requires FoundIn(front, r, id) == Track(front, r, {}, id) <==> !Apart(front, r, id)
    ensures FoundIn(front + [e], r, id) == Track(front + [e], r, {}, id) <==> !Apart(front + [e], r, id)
  {
    SameButEnd(front, r, id);
    ApartSnoc(front, e, r, id);
    TrackSnoc(front, e, r, {}, id);
    assert (front + [e])[..|front|] == front;
  }

  lemma {:induction false} ScansAgreeExactly(log: Log, r: set<Id>, id: Id)
    requires Grounded(log) && Open(log)
    ensures FoundIn(log, r, id) == Track(log, r, {}, id) <==> !Apart(log, r, id)
    decreases |log|
  {
    if log != [] {
      hide FoundIn, Track, Apart, Grounded, Open;
      var n := |log| - 1;
      var front, e := log[..n], log[n];
      assert log == front + [e];
      PrefixGrounded(log, n);
      ScansAgreeExactly(front, r, id);
      EmptyIdStaysOpen(log, r);
      LastIsGrounded(log, r, id);
      ScansStep(front, e, r, id);
    }
  }

  lemma LastIsGrounded(log: Log, r: set<Id>, id: Id)
    requires log != [] && Grounded(log) && Open(log)
    ensures var e := log[|log| - 1];
            && (e.Assert? ==> e.fact.validTo.None?)
            && (LiveAt(e, r, id) ==> FoundIn(log[..|log| - 1], r, id).Some?)
  {
    var n := |log| - 1;
    if LiveAt(log[n], r, id) {
      var i :| 0 <= i < n && Asserts(log[i], id);
      assert log[..n][i] == log[i];
      AssertedIsFound(log[..n], r, id, i);
    }
  }

  /** In every ledger, whatever ids are used: a fact asked for by id and the fact listed among all facts are the same,
      exactly unless the last event that asserts it or supersedes it while live closes it in one of the two only. */
  lemma {:induction false} ViewsAgreeExactly(keyed: bool, ops: seq<Op>, id: Id)
    ensures var log := Run([], keyed, ops);
            FactById(log, id) == (if id in Facts(log).facts then Some(Facts(log).facts[id]) else None) <==>
            !Apart(log, Retracted(log), id)
  {
    hide Run, FoundIn, Track, Scan, Grounded, Open, Apart;
    var log := Run([], keyed, ops);
    AlwaysGrounded(keyed, ops);
    SelectForExact(log, Retracted(log), id);
    ScanIsTrack(log, Retracted(log), {}, id);
    ScansAgreeExactly(log, Retracted(log), id);
  }

  /** Where ids are fresh that is the empty id alone, and only while something live supersedes it. */
  lemma {:induction false} ApartIfFresh(keyed: bool, ops: seq<Op>, id: Id)
    requires FreshIds(keyed, ops)
    ensures var log := Run([], keyed, ops); Apart(log, Retracted(log), id) <==> id == "" && !NoneLive(log, id)
  {
    var log := Run([], keyed, ops);
    ReachableInv(keyed, ops);
    hide Run, FreshIds, Retracted;
    if j: nat :| j < |log| && ClosesInOne(log[j], Retracted(log), id) {
      var i :| 0 <= i < j && Asserts(log[i], id);
      assert Live(log, j, id);
    }
    if id == "" && !NoneLive(log, id) {
      var j: nat :| j < |log| && Live(log, j, id);
      var i :| 0 <= i < j && Asserts(log[i], id);
      OnlyLiveOne(log, id, j);
      assert ClosesInOne(log[j], Retracted(log), id);
    }
  }

  /** Where the two agree, a read of everything as of now returns a fact of that id exactly when get has one that is not
      retracted and whose interval contains the instant, and then returns that very fact, up to the provenance a
      confirmation gives it. */
  lemma {:induction false} ViewsAgree(keyed: bool, ops: seq<Op>, f: Fact, t: Time, now: Time)
    requires var log := Run([], keyed, ops); AllBy(log, now) && !Apart(log, Retracted(log), f.factId)
    ensures var log, id := Run([], keyed, ops), f.factId;
            f in FullRead(log, AllAt(t, now)) <==>
            && FactById(log, id).Some?
            && (var g := FactById(log, id).value;
                f == g.(provenance := if id in Confirmed(log) then Attested else g.provenance))
            && !RetractedAt(log, id) && Covers(f, t)
  {
    hide Run, Read, FoundIn, Track, Grounded, Open, Apart;
    var log := Run([], keyed, ops);
    AlwaysGrounded(keyed, ops);
    ScansAgreeExactly(log, Retracted(log), f.factId);
    TrackShown(log, Retracted(log), Confirmed(log), f.factId);
    SelectForExact(log, Retracted(log), f.factId);
    CutKeepsAll(log, now);
    ReadHas(log, AllAt(t, now), f);
  }

  // ----- Where the conditions matter -----

  /** The empty id: asked for by id the fact is superseded, listed among all facts it is not, in every run that
      asserts it and then replaces it. */
  lemma EmptyIdDisagrees(keyed: bool, a: AssertInput, b: AssertInput, now: Time)
    requires a.factId == "" && a.supersedes.None?
    requires b.factId != "" && b.supersedes == Some("") && StartOf(a, now) <= StartOf(b, now)
    ensures var log := Run([], keyed, [DoAssert(now, a), DoAssert(now, b)]);
            && FactById(log, "").Some? && FactById(log, "").value.validTo == Some(StartOf(b, now))
            && "" in Facts(log).facts && Facts(log).facts[""].validTo.None?
  {
    var e0, e1 := Assert(now, NewFact(a, now), None), Assert(now, NewFact(b, now), Some(""));
    ThenReplaced(keyed, a, b, now);
    FirstAssert(keyed, a, now);
    hide Run;
    FoundSnoc([e0], e1, "");
    ScanSnoc([], e0, {}, {});
    ScanSnoc([e0], e1, {}, {});
    assert [] + [e0] == [e0];
  }

  /** A fact that supersedes its own id: asked for by id it is open, listed among all facts it ends where it starts, in
      every run that asserts an id and then replaces it by itself. */
  lemma SelfReplacedDisagrees(keyed: bool, a: AssertInput, b: AssertInput, now: Time)
    requires a.factId == b.factId != "" && a.supersedes.None?
    requires b.supersedes == Some(b.factId) && StartOf(a, now) <= StartOf(b, now)
    ensures var log, id := Run([], keyed, [DoAssert(now, a), DoAssert(now, b)]), b.factId;
            && FactById(log, id).Some? && FactById(log, id).value.validTo.None?
            && id in Facts(log).facts && Facts(log).facts[id].validTo == Some(StartOf(b, now))
  {
    var e0, e1 := Assert(now, NewFact(a, now), None), Assert(now, NewFact(b, now), Some(b.factId));
    ThenReplaced(keyed, a, b, now);
    hide Run;
    FoundSnoc([e0], e1, b.factId);
    ScanSnoc([], e0, {}, {});
    ScanSnoc([e0], e1, {}, {});
    assert [] + [e0] == [e0];
  }
}
