/** The ledger's events, the selections a store makes of them, and what a bitemporal read of them returns. Times are
    compared only, so any total order will do. */
module FactLog {
  import opened Options

  type Id = string
  type Time = int

  datatype Provenance = Claimed | Attested | Verified

  function Rank(p: Provenance): nat {
    match p
    case Claimed => 0
    case Attested => 1
    case Verified => 2
  }

  datatype DigestKind = Sha256 | HmacSha256 | NoDigest

  /** What stands in place of an erased value. */
  datatype Mark = Mark(kind: DigestKind, digestOf: Option<string>, at: Time)

  datatype Fact = Fact(
    factId: Id,
    subject: string,
    attribute: string,
    value: Option<string>,
    space: string,
    actor: string,
    receiptId: Option<string>,
    provenance: Provenance,
    forgotten: Option<Mark>,
    validFrom: Time,
    validTo: Option<Time>)

  datatype Event =
    | Assert(tx: Time, fact: Fact, supersedes: Option<Id>)
    | Retract(tx: Time, about: Id, actor: string)
    | Confirm(tx: Time, about: Id, actor: string)
    | Forget(tx: Time, about: Id, actor: string, mark: Mark)
    | Hold(tx: Time, about: Id, actor: string)
    | Release(tx: Time, about: Id, actor: string)

  type Log = seq<Event>

  function FactIdOf(e: Event): Id {
    if e.Assert? then e.fact.factId else e.about
  }

  /** e is an assert that supersedes id. JavaScript takes the empty id for no id at all. */
  predicate Cites(e: Event, id: Id) {
    e.Assert? && e.supersedes == Some(id) && id != ""
  }

  // ----- Queries -----

  datatype Query = Query(
    validAt: Time,
    txAt: Time,
    space: Option<string>,
    subject: Option<string>,
    attribute: Option<string>,
    atLeast: Option<Provenance>)

  predicate Fits(want: Option<string>, have: string) {
    want.None? || want.value == have
  }

  predicate About(f: Fact, q: Query) {
    Fits(q.space, f.space) && Fits(q.subject, f.subject) && Fits(q.attribute, f.attribute)
  }

  function Cut(log: Log, txAt: Time): Log {
    if log == [] then []
    else
      var n := |log| - 1;
      if log[n].tx <= txAt then Cut(log[..n], txAt) + [log[n]] else Cut(log[..n], txAt)
  }

  /** The events about the given facts. */
  function Only(log: Log, ids: set<Id>): Log {
    if log == [] then []
    else
      var n := |log| - 1;
      if FactIdOf(log[n]) in ids then Only(log[..n], ids) + [log[n]] else Only(log[..n], ids)
  }

  // ----- The two selections a store may make -----

  /** Ids of the facts that match the query. */
  function Matched(log: Log, q: Query): set<Id> {
    if log == [] then {}
    else
      var e := log[|log| - 1];
      Matched(log[..|log| - 1], q)
      + (if e.Assert? && e.tx <= q.txAt && About(e.fact, q) then {e.fact.factId} else {})
  }

  /** One pass, in order, adding every fact that supersedes one already in the set. */
  function Closed(log: Log, ids: set<Id>): set<Id> {
    if log == [] then ids
    else
      var e := log[|log| - 1];
      var before := Closed(log[..|log| - 1], ids);
      if e.Assert? && e.supersedes.Some? && e.supersedes.value != "" && e.supersedes.value in before
      then before + {e.fact.factId} else before
  }

  /** The selection in memory: transitive along supersession. */
  function SelectAbout(log: Log, q: Query): Log {
    Cut(Only(log, Closed(log, Matched(log, q))), q.txAt)
  }

  function Superseders(log: Log, ids: set<Id>): set<Id> {
    if log == [] then {}
    else
      var e := log[|log| - 1];
      Superseders(log[..|log| - 1], ids)
      + (if e.Assert? && e.supersedes.Some? && e.supersedes.value in ids then {e.fact.factId} else {})
  }

  /** The selection in SQL: one level of supersession. */
  function SelectSql(log: Log, q: Query): Log {
    var matched := Matched(log, q);
    Cut(Only(log, matched + Superseders(log, matched)), q.txAt)
  }

  /** What bears on one fact by its id: asserts of it, replacements of it, and the events about it. */
  function SelectFor(log: Log, id: Id): Log {
    if log == [] then []
    else
      var e := log[|log| - 1];
      var before := SelectFor(log[..|log| - 1], id);
      if FactIdOf(e) == id || (e.Assert? && e.supersedes == Some(id)) then before + [e] else before
  }

  // ----- The read -----

  function Retracted(known: Log): set<Id> {
    if known == [] then {}
    else
      var e := known[|known| - 1];
      Retracted(known[..|known| - 1]) + (if e.Retract? || e.Forget? then {e.about} else {})
  }

  function Confirmed(known: Log): set<Id> {
    if known == [] then {}
    else
      var e := known[|known| - 1];
      Confirmed(known[..|known| - 1]) + (if e.Confirm? then {e.about} else {})
  }

  /** A map that remembers in which order its keys were first set. */
  datatype Table = Table(order: seq<Id>, facts: map<Id, Fact>)

  function Put(t: Table, id: Id, f: Fact): Table {
    Table(if id in t.facts then t.order else t.order + [id], t.facts[id := f])
  }

  function Shown(f: Fact, confirmed: set<Id>): Fact {
    if f.factId in confirmed then f.(provenance := Attested) else f
  }

  function Step(t: Table, e: Event, retracted: set<Id>, confirmed: set<Id>): Table {
    if !e.Assert? then t
    else
      var t1 := Put(t, e.fact.factId, Shown(e.fact, confirmed));
      if e.supersedes.Some? && e.supersedes.value != "" && e.supersedes.value in t1.facts && e.fact.factId !in retracted
      then
        var ended := t1.facts[e.supersedes.value].(validTo := Some(e.fact.validFrom));
        t1.(facts := t1.facts[e.supersedes.value := ended])
      else t1
  }

  function Scan(known: Log, retracted: set<Id>, confirmed: set<Id>): Table {
    if known == [] then Table([], map[])
    else Step(Scan(known[..|known| - 1], retracted, confirmed), known[|known| - 1], retracted, confirmed)
  }

  predicate Keeps(f: Fact, retracted: set<Id>, q: Query) {
    && f.factId !in retracted
    && f.validFrom <= q.validAt
    && (f.validTo.None? || q.validAt < f.validTo.value)
    && About(f, q)
    && (q.atLeast.None? || Rank(f.provenance) >= Rank(q.atLeast.value))
  }

  function Kept(order: seq<Id>, facts: map<Id, Fact>, retracted: set<Id>, q: Query): seq<Fact> {
    if order == [] then []
    else
      var n := |order| - 1;
      var before := Kept(order[..n], facts, retracted, q);
      if order[n] in facts && Keeps(facts[order[n]], retracted, q) then before + [facts[order[n]]] else before
  }

  /** The facts believed, computed from the events a store returned. */
  function Read(known: Log, q: Query): seq<Fact> {
    var t := Scan(known, Retracted(known), Confirmed(known));
    Kept(t.order, t.facts, Retracted(known), q)
  }

  /** The reference: read every event recorded by txAt, and filter at the end. */
  function FullRead(log: Log, q: Query): seq<Fact> {
    Read(Cut(log, q.txAt), q)
  }

  // ----- One fact at a time -----

  /** What the scan holds of one fact. */
  function Track(known: Log, retracted: set<Id>, confirmed: set<Id>, id: Id): Option<Fact> {
    if known == [] then None
    else
      var e := known[|known| - 1];
      TrackStep(Track(known[..|known| - 1], retracted, confirmed, id), e, retracted, confirmed, id)
  }

  lemma {:induction false} ScanIsTrack(known: Log, retracted: set<Id>, confirmed: set<Id>, id: Id)
    ensures var t := Scan(known, retracted, confirmed);
            Track(known, retracted, confirmed, id) == if id in t.facts then Some(t.facts[id]) else None
  {
    if known != [] {
      ScanIsTrack(known[..|known| - 1], retracted, confirmed, id);
    }
  }

  ghost predicate Ordered(t: Table) {
    && (forall id :: id in t.order <==> id in t.facts)
    && (forall i, j :: 0 <= i < j < |t.order| ==> t.order[i] != t.order[j])
    && (forall id :: id in t.facts ==> t.facts[id].factId == id)
  }

  lemma StepOrdered(t: Table, e: Event, retracted: set<Id>, confirmed: set<Id>)
    requires Ordered(t)
    ensures Ordered(Step(t, e, retracted, confirmed))
  {
    if e.Assert? {
      var id := e.fact.factId;
      var t1 := Put(t, id, Shown(e.fact, confirmed));
      assert forall x :: x in t.order + [id] <==> x in t.order || x == id;
      assert Ordered(t1);
    }
  }

  lemma {:induction false} ScanOrder(known: Log, retracted: set<Id>, confirmed: set<Id>)
    ensures Ordered(Scan(known, retracted, confirmed))
  {
    if known != [] {
      ScanOrder(known[..|known| - 1], retracted, confirmed);
      StepOrdered(Scan(known[..|known| - 1], retracted, confirmed), known[|known| - 1], retracted, confirmed);
    }
  }

  // ----- One more event -----

  lemma OnlySnoc(known: Log, e: Event, ids: set<Id>)
    ensures Only(known + [e], ids) == if FactIdOf(e) in ids then Only(known, ids) + [e] else Only(known, ids)
  {
    assert (known + [e])[..|known|] == known;
  }

  lemma CutSnoc(log: Log, e: Event, txAt: Time)
    ensures Cut(log + [e], txAt) == if e.tx <= txAt then Cut(log, txAt) + [e] else Cut(log, txAt)
  {
    assert (log + [e])[..|log|] == log;
  }

  lemma SetsSnoc(known: Log, e: Event)
    ensures Retracted(known + [e]) == Retracted(known) + (if e.Retract? || e.Forget? then {e.about} else {})
    ensures Confirmed(known + [e]) == Confirmed(known) + (if e.Confirm? then {e.about} else {})
  {
    assert (known + [e])[..|known|] == known;
  }

  lemma ScanSnoc(known: Log, e: Event, retracted: set<Id>, confirmed: set<Id>)
    ensures Scan(known + [e], retracted, confirmed) == Step(Scan(known, retracted, confirmed), e, retracted, confirmed)
  {
    assert (known + [e])[..|known|] == known;
  }

  function TrackStep(before: Option<Fact>, e: Event, retracted: set<Id>, confirmed: set<Id>, id: Id): Option<Fact> {
    var now := if e.Assert? && e.fact.factId == id then Some(Shown(e.fact, confirmed)) else before;
    if Cites(e, id) && now.Some? && e.fact.factId !in retracted
    then Some(now.value.(validTo := Some(e.fact.validFrom))) else now
  }

  lemma TrackSnoc(known: Log, e: Event, retracted: set<Id>, confirmed: set<Id>, id: Id)
    ensures Track(known + [e], retracted, confirmed, id)
            == TrackStep(Track(known, retracted, confirmed, id), e, retracted, confirmed, id)
  {
    assert (known + [e])[..|known|] == known;
  }

  lemma KeptSnoc(order: seq<Id>, id: Id, facts: map<Id, Fact>, retracted: set<Id>, q: Query)
    ensures Kept(order + [id], facts, retracted, q) ==
            (if id in facts && Keeps(facts[id], retracted, q) then Kept(order, facts, retracted, q) + [facts[id]]
             else Kept(order, facts, retracted, q))
  {
    assert (order + [id])[..|order|] == order;
  }

  lemma RestrictSnoc(order: seq<Id>, id: Id, ids: set<Id>)
    ensures Restrict(order + [id], ids) == if id in ids then Restrict(order, ids) + [id] else Restrict(order, ids)
  {
    assert (order + [id])[..|order|] == order;
  }

  // ----- Leaving events out -----

  function Restrict(order: seq<Id>, ids: set<Id>): seq<Id> {
    if order == [] then []
    else
      var n := |order| - 1;
      if order[n] in ids then Restrict(order[..n], ids) + [order[n]] else Restrict(order[..n], ids)
  }

  lemma {:induction false} RetractedOnly(known: Log, ids: set<Id>)
    ensures Retracted(Only(known, ids)) == Retracted(known) * ids
    ensures Confirmed(Only(known, ids)) == Confirmed(known) * ids
  {
    if known != [] {
      var n := |known| - 1;
      RetractedOnly(known[..n], ids);
      SetsSnoc(Only(known[..n], ids), known[n]);
    }
  }

  /** The same rule leaves out the same events before or after the cut. */
  lemma {:induction false} CutOnly(log: Log, ids: set<Id>, txAt: Time)
    ensures Cut(Only(log, ids), txAt) == Only(Cut(log, txAt), ids)
  {
    if log != [] {
      var n := |log| - 1;
      CutOnly(log[..n], ids, txAt);
      CutSnoc(Only(log[..n], ids), log[n], txAt);
      OnlySnoc(Cut(log[..n], txAt), log[n], ids);
    }
  }

  /** Nothing left out can touch fact id: no assert of it, and no live assert that supersedes it. */
  ghost predicate Harmless(known: Log, ids: set<Id>, retracted: set<Id>, id: Id) {
    id in ids && forall i :: 0 <= i < |known| && Cites(known[i], id) ==> known[i].fact.factId in ids + retracted
  }

  /** One event, kept or left out. */
  lemma TrackStepOnly(before: Option<Fact>, e: Event, ids: set<Id>, retracted: set<Id>, confirmed: set<Id>, id: Id)
    requires id in ids && (Cites(e, id) ==> e.fact.factId in ids + retracted)
    ensures TrackStep(before, e, retracted, confirmed, id) ==
            if FactIdOf(e) in ids then TrackStep(before, e, retracted * ids, confirmed * ids, id) else before
  {
  }

  lemma {:induction false} TrackOnly(known: Log, ids: set<Id>, retracted: set<Id>, confirmed: set<Id>, id: Id)
    requires Harmless(known, ids, retracted, id)
    ensures Track(Only(known, ids), retracted * ids, confirmed * ids, id) == Track(known, retracted, confirmed, id)
    decreases known, 1
  {
    if known != [] {
      TrackOnlyLast(known, ids, retracted, confirmed, id);
    }
  }

  lemma {:induction false} TrackOnlyLast(known: Log, ids: set<Id>, retracted: set<Id>, confirmed: set<Id>, id: Id)
    requires known != [] && Harmless(known, ids, retracted, id)
    ensures Track(Only(known, ids), retracted * ids, confirmed * ids, id) == Track(known, retracted, confirmed, id)
    decreases known, 0
  {
    hide Track, TrackStep, Only;
    var front, e := known[..|known| - 1], known[|known| - 1];
    assert known == front + [e];
    forall i | 0 <= i < |front| && Cites(front[i], id)
      ensures front[i].fact.factId in ids + retracted
    {
      assert front[i] == known[i];
    }
    TrackOnly(front, ids, retracted, confirmed, id);
    OnlySnoc(front, e, ids);
    TrackSnoc(front, e, retracted, confirmed, id);
    TrackSnoc(Only(front, ids), e, retracted * ids, confirmed * ids, id);
    TrackStepOnly(Track(front, retracted, confirmed, id), e, ids, retracted, confirmed, id);
  }

  lemma StepOrder(t: Table, e: Event, retracted: set<Id>, confirmed: set<Id>)
    ensures Step(t, e, retracted, confirmed).order ==
            if e.Assert? && e.fact.factId !in t.facts then t.order + [e.fact.factId] else t.order
  {
  }

  /** An event kept in both scans leaves their orders in step. */
  lemma OrderKept(t: Table, u: Table, e: Event, ids: set<Id>, r: set<Id>, c: set<Id>, r': set<Id>, c': set<Id>)
    requires Ordered(t) && Ordered(u) && u.order == Restrict(t.order, ids)
    ensures Restrict(Step(t, e, r, c).order, ids) == if FactIdOf(e) in ids then Step(u, e, r', c').order else u.order
  {
    hide Step, Restrict;
    StepOrder(t, e, r, c);
    StepOrder(u, e, r', c');
    if e.Assert? {
      RestrictMember(t.order, ids, e.fact.factId);
      RestrictSnoc(t.order, e.fact.factId, ids);
    }
  }

  lemma {:induction false} OrderOnly(known: Log, ids: set<Id>, retracted: set<Id>, confirmed: set<Id>, r': set<Id>,
      c': set<Id>)
    ensures Scan(Only(known, ids), r', c').order == Restrict(Scan(known, retracted, confirmed).order, ids)
    decreases known, 1
  {
    if known != [] {
      OrderOnlyLast(known, ids, retracted, confirmed, r', c');
    }
  }

  lemma {:induction false} OrderOnlyLast(known: Log, ids: set<Id>, r: set<Id>, c: set<Id>, r': set<Id>, c': set<Id>)
    requires known != []
    ensures Scan(Only(known, ids), r', c').order == Restrict(Scan(known, r, c).order, ids)
    decreases known, 0
  {
    hide Scan, Step, Restrict, Only, Ordered;
    var front, e := known[..|known| - 1], known[|known| - 1];
    assert known == front + [e];
    OrderOnly(front, ids, r, c, r', c');
    OnlySnoc(front, e, ids);
    ScanSnoc(front, e, r, c);
    ScanSnoc(Only(front, ids), e, r', c');
    ScanOrder(front, r, c);
    ScanOrder(Only(front, ids), r', c');
    OrderKept(Scan(front, r, c), Scan(Only(front, ids), r', c'), e, ids, r, c, r', c');
  }

  lemma {:induction false} RestrictMember(order: seq<Id>, ids: set<Id>, id: Id)
    ensures id in Restrict(order, ids) <==> id in order && id in ids
  {
    if order != [] {
      var n := |order| - 1;
      RestrictMember(order[..n], ids, id);
      assert order == order[..n] + [order[n]];
    }
  }

  /** Two tables that agree on every fact that either would keep, and list them in the same order, keep the same. */
  lemma {:induction false} KeptSame(order: seq<Id>, ids: set<Id>, facts: map<Id, Fact>, facts': map<Id, Fact>,
                                    retracted: set<Id>, retracted': set<Id>, q: Query)
    requires forall id :: id in order && id !in ids && id in facts ==> !Keeps(facts[id], retracted, q)
    requires forall id :: id in order && id in ids ==>
               (id in facts && Keeps(facts[id], retracted, q)) == (id in facts' && Keeps(facts'[id], retracted', q))
               && (id in facts && Keeps(facts[id], retracted, q) ==> facts[id] == facts'[id])
    ensures Kept(Restrict(order, ids), facts', retracted', q) == Kept(order, facts, retracted, q)
  {
    if order != [] {
      var n := |order| - 1;
      assert forall id :: id in order[..n] ==> id in order;
      KeptSame(order[..n], ids, facts, facts', retracted, retracted', q);
      KeptSnoc(Restrict(order[..n], ids), order[n], facts', retracted', q);
    }
  }

  /** Leaving out every event about facts outside ids changes no read, if each fact of interest is in ids, is touched by
      nothing left out, and no other fact would be kept. */
  lemma ReadOnly(known: Log, ids: set<Id>, wanted: set<Id>, q: Query)
    requires wanted <= ids
    requires forall id :: id in wanted ==> Harmless(known, ids, Retracted(known), id)
    requires forall id :: id !in wanted ==>
               var f := Track(known, Retracted(known), Confirmed(known), id);
               f.Some? ==> !Keeps(f.value, Retracted(known), q)
    requires forall id :: id in ids && id !in wanted ==>
               var f := Track(Only(known, ids), Retracted(known) * ids, Confirmed(known) * ids, id);
               f.Some? ==> !Keeps(f.value, Retracted(known) * ids, q)
    ensures Read(Only(known, ids), q) == Read(known, q)
  {
    var r, c := Retracted(known), Confirmed(known);
    var t, t' := Scan(known, r, c), Scan(Only(known, ids), r * ids, c * ids);
    RetractedOnly(known, ids);
    OrderOnly(known, ids, r, c, r * ids, c * ids);
    ScanOrder(known, r, c);
    forall id | id in t.order
      ensures id !in ids && id in t.facts ==> !Keeps(t.facts[id], r, q)
      ensures id in ids ==>
              (id in t.facts && Keeps(t.facts[id], r, q)) == (id in t'.facts && Keeps(t'.facts[id], r * ids, q))
                            && (id in t.facts && Keeps(t.facts[id], r, q) ==> t.facts[id] == t'.facts[id])
    {
      ScanIsTrack(known, r, c, id);
      ScanIsTrack(Only(known, ids), r * ids, c * ids, id);
      if id in wanted {
        TrackOnly(known, ids, r, c, id);
      }
    }
    KeptSame(t.order, ids, t.facts, t'.facts, r, r * ids, q);
  }

  // ----- Push-down -----

  /** The fact a scan holds has the subject of one of its asserts. */
  lemma {:induction false} TrackedIsAsserted(known: Log, retracted: set<Id>, confirmed: set<Id>, id: Id)
      returns (i: nat)
    requires Track(known, retracted, confirmed, id).Some?
    ensures i < |known| && known[i].Assert? && known[i].fact.factId == id
    ensures var f := Track(known, retracted, confirmed, id).value;
            f == known[i].fact.(provenance := f.provenance, validTo := f.validTo) && f.factId == id
  {
    var n := |known| - 1;
    if known[n].Assert? && known[n].fact.factId == id {
      i := n;
    } else {
      i := TrackedIsAsserted(known[..n], retracted, confirmed, id);
    }
  }

  lemma {:induction false} MatchedMeans(log: Log, q: Query, id: Id)
    ensures id in Matched(log, q) <==>
            exists i :: 0 <= i < |log| && log[i].Assert? && log[i].fact.factId == id && log[i].tx <= q.txAt
              && About(log[i].fact, q)
  {
    if log != [] {
      var n := |log| - 1;
      MatchedMeans(log[..n], q, id);
      if i :| 0 <= i < n && log[..n][i].Assert? && log[..n][i].fact.factId == id && log[..n][i].tx <= q.txAt
              && About(log[..n][i].fact, q) {
        assert log[i] == log[..n][i];
      }
      if i :| 0 <= i < |log| && log[i].Assert? && log[i].fact.factId == id && log[i].tx <= q.txAt
              && About(log[i].fact, q) {
        assert i < n ==> log[..n][i] == log[i];
      }
    }
  }

  lemma {:induction false} CutMember(log: Log, txAt: Time, i: nat) returns (j: nat)
    requires i < |Cut(log, txAt)|
    ensures j < |log| && log[j] == Cut(log, txAt)[i] && log[j].tx <= txAt
  {
    var n := |log| - 1;
    if i < |Cut(log[..n], txAt)| {
      j := CutMember(log[..n], txAt, i);
    } else {
      j := n;
    }
  }

  /** A fact outside the matched ones is kept by no read over the same cut. */
  lemma UnmatchedNotKept(log: Log, q: Query, known: Log, r: set<Id>, c: set<Id>, r': set<Id>, id: Id)
    requires id !in Matched(log, q)
    requires forall i :: 0 <= i < |known| ==> exists j :: 0 <= j < |log| && log[j] == known[i] && log[j].tx <= q.txAt
    ensures var f := Track(known, r, c, id); f.Some? ==> !Keeps(f.value, r', q)
  {
    if Track(known, r, c, id).Some? {
      var i := TrackedIsAsserted(known, r, c, id);
      var j :| 0 <= j < |log| && log[j] == known[i] && log[j].tx <= q.txAt;
      MatchedMeans(log, q, id);
    }
  }

  lemma {:induction false} OnlyMember(known: Log, ids: set<Id>, i: nat) returns (j: nat)
    requires i < |Only(known, ids)|
    ensures j < |known| && known[j] == Only(known, ids)[i]
  {
    var n := |known| - 1;
    if i < |Only(known[..n], ids)| {
      j := OnlyMember(known[..n], ids, i);
    } else {
      j := n;
    }
  }

  /** Any selection that has the matched facts and the facts that supersede them gives the reference answer. */
  lemma SelectionSuffices(log: Log, q: Query, ids: set<Id>)
    requires Matched(log, q) <= ids
    requires forall i, id :: 0 <= i < |log| && id in Matched(log, q) && Cites(log[i], id) ==> log[i].fact.factId in ids
    ensures Read(Cut(Only(log, ids), q.txAt), q) == FullRead(log, q)
  {
    var known, wanted := Cut(log, q.txAt), Matched(log, q);
    var r, c := Retracted(known), Confirmed(known);
    CutOnly(log, ids, q.txAt);
    forall i | 0 <= i < |known|
      ensures exists j :: 0 <= j < |log| && log[j] == known[i] && log[j].tx <= q.txAt
    {
      var j := CutMember(log, q.txAt, i);
    }
    forall i | 0 <= i < |Only(known, ids)|
      ensures exists j :: 0 <= j < |log| && log[j] == Only(known, ids)[i] && log[j].tx <= q.txAt
    {
      var j := OnlyMember(known, ids, i);
    }
    forall id | id !in wanted
      ensures var f := Track(known, r, c, id); f.Some? ==> !Keeps(f.value, r, q)
      ensures var f := Track(Only(known, ids), r * ids, c * ids, id); f.Some? ==> !Keeps(f.value, r * ids, q)
    {
      UnmatchedNotKept(log, q, known, r, c, r, id);
      UnmatchedNotKept(log, q, Only(known, ids), r * ids, c * ids, r * ids, id);
    }
    ReadOnly(known, ids, wanted, q);
  }

  lemma {:induction false} ClosedContains(log: Log, ids: set<Id>)
    ensures ids <= Closed(log, ids)
  {
    if log != [] {
      ClosedContains(log[..|log| - 1], ids);
    }
  }

  lemma {:induction false} ClosedHasSuperseders(log: Log, ids: set<Id>, i: nat, id: Id)
    requires i < |log| && id in ids && Cites(log[i], id)
    ensures log[i].fact.factId in Closed(log, ids)
  {
    var n := |log| - 1;
    if i < n {
      assert log[..n][i] == log[i];
      ClosedHasSuperseders(log[..n], ids, i, id);
    } else {
      ClosedContains(log[..n], ids);
    }
  }

  /** Query push-down, in memory: for every log and query, reading the transitive selection is reading everything. */
  lemma SelectAboutExact(log: Log, q: Query)
    ensures Read(SelectAbout(log, q), q) == FullRead(log, q)
  {
    var m := Matched(log, q);
    ClosedContains(log, m);
    forall i, id | 0 <= i < |log| && id in m && Cites(log[i], id)
      ensures log[i].fact.factId in Closed(log, m)
    {
      ClosedHasSuperseders(log, m, i, id);
    }
    SelectionSuffices(log, q, Closed(log, m));
  }

  lemma {:induction false} SupersedersHas(log: Log, ids: set<Id>, i: nat, id: Id)
    requires i < |log| && id in ids && Cites(log[i], id)
    ensures log[i].fact.factId in Superseders(log, ids)
  {
    var n := |log| - 1;
    if i < n {
      assert log[..n][i] == log[i];
      SupersedersHas(log[..n], ids, i, id);
    }
  }

  /** Query push-down, in SQL: so is reading the one-level selection. */
  lemma SelectSqlExact(log: Log, q: Query)
    ensures Read(SelectSql(log, q), q) == FullRead(log, q)
  {
    var m := Matched(log, q);
    forall i, id | 0 <= i < |log| && id in m && Cites(log[i], id)
      ensures log[i].fact.factId in m + Superseders(log, m)
    {
      SupersedersHas(log, m, i, id);
    }
    SelectionSuffices(log, q, m + Superseders(log, m));
  }

  // ----- Retraction is exact undo -----

  function AllIds(log: Log): set<Id> {
    set i | 0 <= i < |log| :: FactIdOf(log[i])
  }

  /** Once b is retracted or forgotten, a read is what it would be had b never been asserted: its assert and every event
      citing it can be deleted, whatever superseded b and whatever b superseded. */
  lemma RetractionUndoes(log: Log, q: Query, b: Id)
    requires b in Retracted(Cut(log, q.txAt))
    ensures FullRead(Only(log, AllIds(log) - {b}), q) == FullRead(log, q)
  {
    var known, ids := Cut(log, q.txAt), AllIds(log) - {b};
    var r, c := Retracted(known), Confirmed(known);
    CutOnly(log, ids, q.txAt);
    forall id | id in ids
      ensures Harmless(known, ids, r, id)
    {
      forall i | 0 <= i < |known| && Cites(known[i], id)
        ensures known[i].fact.factId in ids + r
      {
        var j := CutMember(log, q.txAt, i);
        assert FactIdOf(log[j]) in AllIds(log);
      }
    }
    forall id | id !in ids
      ensures var f := Track(known, r, c, id); f.Some? ==> !Keeps(f.value, r, q)
    {
      if Track(known, r, c, id).Some? {
        var i := TrackedIsAsserted(known, r, c, id);
        var j := CutMember(log, q.txAt, i);
        assert FactIdOf(log[j]) in AllIds(log);
      }
    }
    ReadOnly(known, ids, ids, q);
  }
}
