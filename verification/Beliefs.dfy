/** What the ledger says, read off its history: which fact an id stands for, what a read at two times returns, and which
    operations are carried out, each given by the events themselves, in any log. */
module Beliefs {
  import opened Options
  import opened FactLog
  import opened Ledger
  import opened Superseders
  import opened Supersession

  // ----- History -----

  /** Recorded by then; with no time given, at all. */
  predicate Seen(e: Event, till: Option<Time>) {
    till.Some? ==> e.tx <= till.value
  }

  /** The last assert of the id by then. */
  ghost predicate LastAssert(log: Log, till: Option<Time>, id: Id, i: nat) {
    && i < |log| && Seen(log[i], till) && Asserts(log[i], id)
    && forall k :: i < k < |log| && Seen(log[k], till) ==> !Asserts(log[k], id)
  }

  /** Retracted or forgotten by then. */
  ghost predicate Withdrawn(log: Log, till: Option<Time>, id: Id) {
    exists k :: 0 <= k < |log| && Seen(log[k], till) && (log[k].Retract? || log[k].Forget?) && log[k].about == id
  }

  ghost predicate Vouched(log: Log, till: Option<Time>, id: Id) {
    exists k :: 0 <= k < |log| && Seen(log[k], till) && log[k].Confirm? && log[k].about == id
  }

  /** Put on hold and not released since. */
  ghost predicate OnHold(log: Log, id: Id) {
    exists i: nat ::
      && i < |log| && log[i].Hold? && log[i].about == id
      && forall k :: i < k < |log| ==> !(log[k].Release? && log[k].about == id)
  }

  ghost function Dead(log: Log, till: Option<Time>): iset<Id> {
    iset id | Withdrawn(log, till, id)
  }

  /** Event j, from that position on, replaces the fact and is not of a dead one. */
  ghost predicate EndsIt(log: Log, till: Option<Time>, dead: iset<Id>, id: Id, from: nat, j: nat) {
    from <= j < |log| && Seen(log[j], till) && Replaces(log[j], id) && log[j].fact.factId !in dead
  }

  ghost predicate LastEnd(log: Log, till: Option<Time>, dead: iset<Id>, id: Id, from: nat, j: nat) {
    EndsIt(log, till, dead, id, from, j) && forall k: nat :: j < k ==> !EndsIt(log, till, dead, id, from, k)
  }

  /** The fact asserted at i holds until the start of its last live replacement from that position on, or else as
      asserted. */
  ghost predicate HoldsUntil(log: Log, till: Option<Time>, dead: iset<Id>, id: Id, i: nat, from: nat,
      end: Option<Time>)
    requires i < |log| && log[i].Assert?
  {
    || (end == log[i].fact.validTo && forall j: nat :: !EndsIt(log, till, dead, id, from, j))
    || exists j: nat :: LastEnd(log, till, dead, id, from, j) && end == Some(log[j].fact.validFrom)
  }

  lemma {:induction false} WithdrawnExactly(log: Log, at: Time, id: Id)
    ensures id in Retracted(Cut(log, at)) <==> Withdrawn(log, Some(at), id)
    ensures id in Confirmed(Cut(log, at)) <==> Vouched(log, Some(at), id)
    ensures id in Retracted(log) <==> Withdrawn(log, None, id)
    ensures id in Confirmed(log) <==> Vouched(log, None, id)
  {
    if log != [] {
      hide Withdrawn, Vouched, Retracted, Confirmed, Cut;
      var n := |log| - 1;
      var front, e := log[..n], log[n];
      assert log == front + [e];
      WithdrawnExactly(front, at, id);
      CutSnoc(front, e, at);
      SetsSnoc(Cut(front, at), e);
      SetsSnoc(front, e);
      HistorySnoc(front, e, Some(at), id);
      HistorySnoc(front, e, None, id);
    }
  }

  lemma {:induction false} HeldExactly(log: Log, id: Id)
    ensures Held(log, id) <==> OnHold(log, id)
  {
    SelectForExact(log, {}, id);
    HeldInExactly(log, id);
  }

  lemma {:induction false} HeldInExactly(log: Log, id: Id)
    ensures HeldIn(log, id) <==> OnHold(log, id)
  {
    if log != [] {
      var n := |log| - 1;
      var front, e := log[..n], log[n];
      assert log == front + [e];
      HeldInExactly(front, id);
      if OnHold(front, id) && !(e.Release? && e.about == id) {
        var i: nat :| i < n && front[i].Hold? && front[i].about == id
          && forall k :: i < k < n ==> !(front[k].Release? && front[k].about == id);
        assert log[i].Hold?;
      }
    }
  }

  lemma HoldsStill(front: Log, e: Event, till: Option<Time>, dead: iset<Id>, id: Id, i: nat, from: nat,
      end: Option<Time>)
    requires i < |front| && front[i].Assert? && HoldsUntil(front, till, dead, id, i, from, end)
    requires !EndsIt(front + [e], till, dead, id, from, |front|)
    ensures HoldsUntil(front + [e], till, dead, id, i, from, end)
  {
    var log := front + [e];
    assert forall j: nat :: EndsIt(log, till, dead, id, from, j) <==> EndsIt(front, till, dead, id, from, j);
    if j: nat :| LastEnd(front, till, dead, id, from, j) && end == Some(front[j].fact.validFrom) {
      assert LastEnd(log, till, dead, id, from, j);
    }
  }

  lemma HoldsOnce(log: Log, till: Option<Time>, dead: iset<Id>, id: Id, i: nat, from: nat, end: Option<Time>,
      end': Option<Time>)
    requires i < |log| && log[i].Assert?
    requires HoldsUntil(log, till, dead, id, i, from, end) && HoldsUntil(log, till, dead, id, i, from, end')
    ensures end == end'
  {
  }

  // ----- A fact by its id -----

  /** The fact by id, from the last assert of it; an event that asserts it does not end it too. */
  lemma {:induction false} FoundFrom(log: Log, r: set<Id>, dead: iset<Id>, id: Id) returns (i: nat)
    requires forall x :: x in dead <==> x in r
    ensures FoundIn(log, r, id).None? ==> forall k :: 0 <= k < |log| ==> !Asserts(log[k], id)
    ensures FoundIn(log, r, id).Some? ==>
              && LastAssert(log, None, id, i)
              && var f := FoundIn(log, r, id).value;
                f == log[i].fact.(validTo := f.validTo)
                && HoldsUntil(log, None, dead, id, i, i + 1, f.validTo)
  {
    hide HoldsUntil;
    i := 0;
    if log != [] {
      var n := |log| - 1;
      var front, e := log[..n], log[n];
      assert log == front + [e];
      i := FoundFrom(front, r, dead, id);
      if Asserts(e, id) {
        i := n;
        NothingLater(log, None, dead, id, n, n + 1);
      } else if FoundIn(front, r, id).Some? {
        assert LastAssert(log, None, id, i);
        if EndsIt(log, None, dead, id, i + 1, n) {
          EndsNow(log, None, dead, id, i, i + 1);
        } else {
          HoldsStill(front, e, None, dead, id, i, i + 1, FoundIn(front, r, id).value.validTo);
        }
      }
    }
  }

  lemma NothingLater(log: Log, till: Option<Time>, dead: iset<Id>, id: Id, i: nat, from: nat)
    requires i < |log| && log[i].Assert? && forall j: nat :: !EndsIt(log, till, dead, id, from, j)
    ensures HoldsUntil(log, till, dead, id, i, from, log[i].fact.validTo)
  {
  }

  lemma EndsNow(log: Log, till: Option<Time>, dead: iset<Id>, id: Id, i: nat, from: nat)
    requires i < |log| && log[i].Assert? && EndsIt(log, till, dead, id, from, |log| - 1)
    ensures HoldsUntil(log, till, dead, id, i, from, Some(log[|log| - 1].fact.validFrom))
  {
    assert LastEnd(log, till, dead, id, from, |log| - 1);
  }

  /** f is what is known of its id: the fact as last asserted, ending where the last live replacement of it recorded
      after that begins. */
  ghost predicate Known(log: Log, id: Id, i: nat, f: Fact) {
    && LastAssert(log, None, id, i) && f == log[i].fact.(validTo := f.validTo)
    && HoldsUntil(log, None, Dead(log, None), id, i, i + 1, f.validTo)
  }

  lemma ById(log: Log, id: Id) returns (i: nat)
    ensures FactById(log, id).None? ==> forall k :: 0 <= k < |log| ==> !Asserts(log[k], id)
    ensures FactById(log, id).Some? ==> Known(log, id, i, FactById(log, id).value)
  {
    hide FoundIn, HoldsUntil;
    SelectForExact(log, Retracted(log), id);
    RetractedIsDead(log);
    i := FoundFrom(log, Retracted(log), Dead(log, None), id);
  }

  /** What get returns, of any id in any log. */
  lemma {:induction false} GetExactly(log: Log, id: Id, f: Fact)
    ensures FactById(log, id) == Some(f) <==> exists i: nat :: Known(log, id, i, f)
    ensures FactById(log, id).None? <==> forall i :: 0 <= i < |log| ==> !Asserts(log[i], id)
  {
    hide FactById, HoldsUntil;
    var i := ById(log, id);
    if i': nat :| Known(log, id, i', f) {
      assert i' == i;
      HoldsOnce(log, None, Dead(log, None), id, i, i + 1, f.validTo, FactById(log, id).value.validTo);
    }
  }

  lemma RetractedIsDead(log: Log)
    ensures forall x :: x in Dead(log, None) <==> x in Retracted(log)
  {
    forall x
      ensures x in Dead(log, None) <==> x in Retracted(log)
    {
      WithdrawnExactly(log, 0, x);
    }
  }

  // ----- A read at two times -----

  /** f is what was believed of its id at that time: the fact as last asserted by then, attested if someone vouched for
      it by then, ending where its last live replacement begins, which may be the assert itself. Nothing replaces the
      empty id. */
  ghost predicate Stood(log: Log, at: Time, dead: iset<Id>, confirmed: iset<Id>, i: nat, f: Fact) {
    && LastAssert(log, Some(at), f.factId, i)
    && f == log[i].fact.(provenance := f.provenance, validTo := f.validTo)
    && f.provenance == (if f.factId in confirmed then Attested else log[i].fact.provenance)
    && if f.factId == "" then f.validTo == log[i].fact.validTo
       else HoldsUntil(log, Some(at), dead, f.factId, i, i, f.validTo)
  }

  ghost predicate NeverAsserted(log: Log, at: Time, id: Id) {
    forall k :: 0 <= k < |log| && Seen(log[k], Some(at)) ==> !Asserts(log[k], id)
  }

  lemma StoodStill(front: Log, e: Event, at: Time, dead: iset<Id>, confirmed: iset<Id>, i: nat, f: Fact)
    requires Stood(front, at, dead, confirmed, i, f)
    requires !(Seen(e, Some(at)) && (Asserts(e, f.factId) || (Cites(e, f.factId) && e.fact.factId !in dead)))
    ensures Stood(front + [e], at, dead, confirmed, i, f)
  {
    hide HoldsUntil;
    if f.factId != "" {
      HoldsStill(front, e, Some(at), dead, f.factId, i, i, f.validTo);
    }
  }

  lemma StoodUntil(front: Log, e: Event, at: Time, dead: iset<Id>, confirmed: iset<Id>, i: nat, f: Fact)
    requires Stood(front, at, dead, confirmed, i, f) && Seen(e, Some(at)) && !Asserts(e, f.factId)
    requires Cites(e, f.factId) && e.fact.factId !in dead
    ensures Stood(front + [e], at, dead, confirmed, i, f.(validTo := Some(e.fact.validFrom)))
  {
    hide HoldsUntil;
    EndsNow(front + [e], Some(at), dead, f.factId, i, i);
  }

  lemma StandsFrom(front: Log, e: Event, at: Time, dead: iset<Id>, confirmed: iset<Id>)
    requires e.Assert? && Seen(e, Some(at))
    ensures var id := e.fact.factId;
            var shown := e.fact.(provenance := if id in confirmed then Attested else e.fact.provenance);
            Stood(front + [e], at, dead, confirmed, |front|,
              if Cites(e, id) && id !in dead then shown.(validTo := Some(e.fact.validFrom)) else shown)
  {
    hide HoldsUntil;
    var log, id := front + [e], e.fact.factId;
    if Cites(e, id) && id !in dead {
      EndsNow(log, Some(at), dead, id, |front|, |front|);
    } else if id != "" {
      NothingLater(log, Some(at), dead, id, |front|, |front|);
    }
  }

  lemma NothingStands(at: Time, r: set<Id>, c: set<Id>, id: Id)
    ensures Track(Cut([], at), r, c, id).None?
  {
  }

  /** The fact a scan holds is the one that stood. */
  lemma {:induction false} TrackStood(log: Log, at: Time, r: set<Id>, c: set<Id>, dead: iset<Id>,
      confirmed: iset<Id>, id: Id) returns (i: nat)
    requires forall x :: (x in dead <==> x in r) && (x in confirmed <==> x in c)
    ensures var t := Track(Cut(log, at), r, c, id);
            if t.None? then NeverAsserted(log, at, id)
            else t.value.factId == id && Stood(log, at, dead, confirmed, i, t.value)
  {
    hide Track, Cut, Stood;
    i := 0;
    NothingStands(at, r, c, id);
    if log != [] {
      var n := |log| - 1;
      var front, e := log[..n], log[n];
      assert log == front + [e];
      i := TrackStood(front, at, r, c, dead, confirmed, id);
      CutSnoc(front, e, at);
      TrackSnoc(Cut(front, at), e, r, c, id);
      var was := Track(Cut(front, at), r, c, id);
      if Seen(e, Some(at)) && Asserts(e, id) {
        i := n;
        StandsFrom(front, e, at, dead, confirmed);
      } else if was.Some? {
        if Seen(e, Some(at)) && Cites(e, id) && e.fact.factId !in dead {
          StoodUntil(front, e, at, dead, confirmed, i, was.value);
        } else {
          StoodStill(front, e, at, dead, confirmed, i, was.value);
        }
      }
    }
  }

  ghost function VouchedFor(log: Log, till: Option<Time>): iset<Id> {
    iset id | Vouched(log, till, id)
  }

  /** The provenance is at least the one asked for, in the order claimed, attested, verified. */
  predicate Enough(have: Provenance, want: Option<Provenance>) {
    match want
    case None => true
    case Some(Claimed) => true
    case Some(Attested) => have == Attested || have == Verified
    case Some(Verified) => have == Verified
  }

  /** What a read at two times returns, of any log and for any query: the facts that stood by txAt, were not withdrawn
      by then, hold at validAt, and are of the space, subject and attribute asked for with enough provenance. */
  lemma {:induction false} AsOfExactly(log: Log, q: Query, f: Fact)
    ensures f in FullRead(log, q) <==>
            && (exists i: nat :: Stood(log, q.txAt, Dead(log, Some(q.txAt)), VouchedFor(log, Some(q.txAt)), i, f))
            && !Withdrawn(log, Some(q.txAt), f.factId)
            && f.validFrom <= q.validAt && (f.validTo.Some? ==> q.validAt < f.validTo.value)
            && (q.space.Some? ==> f.space == q.space.value)
            && (q.subject.Some? ==> f.subject == q.subject.value)
            && (q.attribute.Some? ==> f.attribute == q.attribute.value)
            && Enough(f.provenance, q.atLeast)
  {
    hide Track, Read, HoldsUntil, Withdrawn, Vouched;
    var known, id := Cut(log, q.txAt), f.factId;
    var dead, confirmed := Dead(log, Some(q.txAt)), VouchedFor(log, Some(q.txAt));
    forall x
      ensures (x in dead <==> x in Retracted(known)) && (x in confirmed <==> x in Confirmed(known))
    {
      WithdrawnExactly(log, q.txAt, x);
    }
    ReadHas(known, q, f);
    var i := TrackStood(log, q.txAt, Retracted(known), Confirmed(known), dead, confirmed, id);
    if i': nat :| Stood(log, q.txAt, dead, confirmed, i', f) {
      var g := Track(known, Retracted(known), Confirmed(known), id);
      assert g.Some? && i' == i;
      if id != "" {
        HoldsOnce(log, Some(q.txAt), dead, id, i, i, f.validTo, g.value.validTo);
      }
    }
  }

  // ----- Operations -----

  /** The id can be replaced: its last assert is open, and nothing live has replaced it since. */
  ghost predicate Replaceable(log: Log, id: Id, i: nat) {
    && LastAssert(log, None, id, i) && log[i].fact.validTo.None? && !Withdrawn(log, None, id)
    && forall j: nat, from: nat :: from == i + 1 ==> !EndsIt(log, None, Dead(log, None), id, from, j)
  }

  /** Which operations are carried out. */
  ghost predicate Allowed(log: Log, op: Op)
    requires !op.DoSweep?
  {
    match op
    case DoAssert(now, input) =>
      input.supersedes.Some? ==>
        exists i: nat :: Replaceable(log, input.supersedes.value, i)
                         && log[i].fact.validFrom <= if input.validFrom.Some? then input.validFrom.value else now
    case DoRetract(_, id, _) => (exists i: nat :: LastAssert(log, None, id, i)) && !Withdrawn(log, None, id)
    case DoConfirm(_, id, _) =>
      && (exists i: nat :: LastAssert(log, None, id, i) && log[i].fact.provenance == Claimed)
      && !Withdrawn(log, None, id) && !Vouched(log, None, id)
    case DoHold(_, id, _) =>
      (exists i: nat :: LastAssert(log, None, id, i) && log[i].fact.forgotten.None?) && !OnHold(log, id)
    case DoRelease(_, id, _) => OnHold(log, id)
    case DoForget(_, id, _, _) =>
      (exists i: nat :: LastAssert(log, None, id, i) && log[i].fact.forgotten.None?) && !OnHold(log, id)
  }

  /** What an operation records; erasing takes the value of every assert of the fact, and leaves the digest of the last
      one's if it is to be kept. */
  ghost predicate Records(log: Log, keyed: bool, op: Op, later: Log)
    requires !op.DoSweep?
  {
    match op
    case DoAssert(now, input) =>
      later == log + [Assert(now,
                             Fact(input.factId, input.subject, input.attribute, Some(input.value), input.space,
                                  input.actor, input.receiptId, input.provenance, None,
                                  if input.validFrom.Some? then input.validFrom.value else now, None),
                             input.supersedes)]
    case DoRetract(now, id, actor) => later == log + [Retract(now, id, actor)]
    case DoConfirm(now, id, actor) => later == log + [Confirm(now, id, actor)]
    case DoHold(now, id, actor) => later == log + [Hold(now, id, actor)]
    case DoRelease(now, id, actor) => later == log + [Release(now, id, actor)]
    case DoForget(now, id, actor, keepDigest) =>
      exists i: nat, mark: Mark ::
        && LastAssert(log, None, id, i)
        && mark == (if !keepDigest then Mark(NoDigest, None, now)
                    else Mark(if keyed then HmacSha256 else Sha256, log[i].fact.value, now))
        && ErasedTo(log, later, id, mark) && later[|log|] == Forget(now, id, actor, mark)
  }

  ghost predicate ErasedTo(log: Log, later: Log, id: Id, mark: Mark) {
    && |later| == |log| + 1
    && forall k :: 0 <= k < |log| ==>
         later[k] == if Asserts(log[k], id)
                     then log[k].(fact := log[k].fact.(value := None, forgotten := Some(mark))) else log[k]
  }

  /** What the checks before an operation find. */
  lemma Finds(log: Log, id: Id) returns (i: nat)
    ensures var prior := FactById(log, id);
            && (prior.None? ==> forall j: nat :: !LastAssert(log, None, id, j))
            && (prior.Some? ==>
                  && LastAssert(log, None, id, i) && (forall j: nat :: LastAssert(log, None, id, j) ==> j == i)
                  && prior.value == log[i].fact.(validTo := prior.value.validTo)
                  && (Replaceable(log, id, i) <==> prior.value.validTo.None? && !RetractedAt(log, id)))
    ensures RetractedAt(log, id) <==> Withdrawn(log, None, id)
    ensures ConfirmedAt(log, id) <==> Vouched(log, None, id)
    ensures Held(log, id) <==> OnHold(log, id)
  {
    hide FactById, Withdrawn, Vouched, OnHold;
    i := ById(log, id);
    SelectForExact(log, {}, id);
    ConfirmedForExact(log, id);
    WithdrawnExactly(log, 0, id);
    HeldExactly(log, id);
  }

  lemma {:induction false} ConfirmedForExact(log: Log, id: Id)
    ensures id in Confirmed(SelectFor(log, id)) <==> id in Confirmed(log)
  {
    if log != [] {
      var n := |log| - 1;
      ConfirmedForExact(log[..n], id);
      SetsSnoc(SelectFor(log[..n], id), log[n]);
    }
  }

  /** Every operation but a sweep, on any log: it is carried out exactly if the history allows it, and then records what
      was asked and nothing else; refused, it changes nothing. */
  lemma {:induction false} OperationExactly(log: Log, keyed: bool, op: Op)
    requires !op.DoSweep?
    ensures var r := Apply(log, keyed, op);
            && (r.1 <==> Allowed(log, op))
            && if r.1 then Records(log, keyed, op, r.0) else r.0 == log
  {
    hide FactById, RetractedAt, ConfirmedAt, Held, Withdrawn, Vouched, OnHold, Replaceable, LastAssert;
    match op
    case DoAssert(now, input) =>
      if input.supersedes.Some? {
        var i := Finds(log, input.supersedes.value);
        ReplaceableIsLast(log, input.supersedes.value);
      }
    case DoRetract(_, id, _) => var i := Finds(log, id);
    case DoConfirm(_, id, _) => var i := Finds(log, id);
    case DoHold(_, id, _) => var i := Finds(log, id);
    case DoRelease(_, id, _) => var i := Finds(log, id);
    case DoForget(now, id, actor, keepDigest) =>
      var i := Finds(log, id);
      if MayForget(log, id) {
        ForgetRecords(log, keyed, now, id, actor, keepDigest, i);
      }
  }

  lemma ReplaceableIsLast(log: Log, id: Id)
    ensures forall i: nat :: Replaceable(log, id, i) ==> LastAssert(log, None, id, i)
  {
  }

  lemma ForgetRecords(log: Log, keyed: bool, now: Time, id: Id, actor: string, keepDigest: bool, i: nat)
    requires MayForget(log, id) && LastAssert(log, None, id, i)
    requires FactById(log, id).value == log[i].fact.(validTo := FactById(log, id).value.validTo)
    ensures Records(log, keyed, DoForget(now, id, actor, keepDigest),
              ForgetFact(log, keyed, now, id, actor, keepDigest))
  {
    hide FactById, LastAssert;
    var mark := MarkFor(FactById(log, id).value, keyed, keepDigest, now);
    EraseLength(log, map[id := mark]);
    assert ErasedTo(log, ForgetFact(log, keyed, now, id, actor, keepDigest), id, mark);
  }

  // ----- What an operation makes a read return -----

  lemma HistorySnoc(log: Log, e: Event, till: Option<Time>, x: Id)
    ensures Withdrawn(log + [e], till, x) <==>
            Withdrawn(log, till, x) || (Seen(e, till) && (e.Retract? || e.Forget?) && e.about == x)
    ensures Vouched(log + [e], till, x) <==> Vouched(log, till, x) || (Seen(e, till) && e.Confirm? && e.about == x)
  {
    var later := log + [e];
    assert later[|log|] == e && forall k :: 0 <= k < |log| ==> later[k] == log[k];
    if k :| 0 <= k < |log| && Seen(log[k], till) && (log[k].Retract? || log[k].Forget?) && log[k].about == x {
      assert Seen(later[k], till) && later[k].about == x;
    }
    if k :| 0 <= k < |log| && Seen(log[k], till) && log[k].Confirm? && log[k].about == x {
      assert Seen(later[k], till) && later[k].about == x;
    }
  }

  lemma HistoryAfter(log: Log, e: Event, till: Option<Time>)
    requires e.Assert? || (e.Confirm? && Seen(e, till))
    ensures Dead(log + [e], till) == Dead(log, till)
    ensures VouchedFor(log + [e], till) == VouchedFor(log, till) + if e.Confirm? then iset{e.about} else iset{}
  {
    forall x
      ensures Withdrawn(log + [e], till, x) <==> Withdrawn(log, till, x)
      ensures Vouched(log + [e], till, x) <==> Vouched(log, till, x) || (e.Confirm? && x == e.about)
    {
      HistorySnoc(log, e, till, x);
    }
  }

  /** A confirmation shows: a fact that a read returns, whatever its provenance, at a time no earlier, the same read
      then returns attested, and so does a read that asks for attested facts; as verified it is not returned. */
  lemma {:induction false} ConfirmationShows(log: Log, keyed: bool, now: Time, id: Id, actor: string, q: Query, f: Fact)
    requires Apply(log, keyed, DoConfirm(now, id, actor)).1 && now <= q.txAt && q.atLeast.None?
    requires f in FullRead(log, q) && f.factId == id
    ensures var later := Apply(log, keyed, DoConfirm(now, id, actor)).0;
            var shown := f.(provenance := Attested);
            && shown in FullRead(later, q) && shown in FullRead(later, q.(atLeast := Some(Attested)))
            && forall g :: g in FullRead(later, q) && g.factId == id ==> g == shown
  {
    hide Apply, FullRead, HoldsUntil, Withdrawn, Vouched;
    OperationExactly(log, keyed, DoConfirm(now, id, actor));
    var e, at := Confirm(now, id, actor), Some(q.txAt);
    var later, shown := log + [e], f.(provenance := Attested);
    AsOfExactly(log, q, f);
    HistoryAfter(log, e, at);
    var i: nat :| Stood(log, q.txAt, Dead(log, at), VouchedFor(log, at), i, f);
    StoodStill(log, e, q.txAt, Dead(log, at), VouchedFor(log, at), i, f);
    assert Stood(later, q.txAt, Dead(later, at), VouchedFor(later, at), i, shown);
    assert id in Dead(later, at) <==> Withdrawn(later, at, id);
    assert id in Dead(log, at) <==> Withdrawn(log, at, id);
    AsOfExactly(later, q, shown);
    AsOfExactly(later, q.(atLeast := Some(Attested)), shown);
    forall g | g in FullRead(later, q) && g.factId == id
      ensures g == shown
    {
      AsOfExactly(later, q, g);
      StoodOnce(later, q.txAt, Dead(later, at), VouchedFor(later, at), g, shown);
    }
  }

  lemma StoodOnce(log: Log, at: Time, dead: iset<Id>, confirmed: iset<Id>, f: Fact, g: Fact)
    requires exists i: nat :: Stood(log, at, dead, confirmed, i, f)
    requires exists i: nat :: Stood(log, at, dead, confirmed, i, g)
    requires f.factId == g.factId
    ensures f == g
  {
    hide HoldsUntil;
    var i: nat :| Stood(log, at, dead, confirmed, i, f);
    var j: nat :| Stood(log, at, dead, confirmed, j, g);
    assert i == j;
    if f.factId != "" {
      HoldsOnce(log, Some(at), dead, f.factId, i, i, f.validTo, g.validTo);
    }
  }

  /** So does an assert: right after it, a read of any instant from its start on returns the fact as it was given,
      attested if its id was vouched for before, unless its id was withdrawn before or it replaces itself. */
  lemma {:induction false} AssertShows(log: Log, keyed: bool, now: Time, input: AssertInput, q: Query, f: Fact)
    requires Apply(log, keyed, DoAssert(now, input)).1 && now <= q.txAt
    requires q.space.None? && q.subject.None? && q.attribute.None? && q.atLeast.None?
    requires f.factId == input.factId && f.subject == input.subject && f.attribute == input.attribute
    requires f.value == Some(input.value) && f.space == input.space && f.actor == input.actor
    requires f.receiptId == input.receiptId && f.forgotten.None? && f.validTo.None?
    requires f.validFrom == (if input.validFrom.Some? then input.validFrom.value else now) <= q.validAt
    requires f.provenance == if Vouched(log, Some(q.txAt), f.factId) then Attested else input.provenance
    requires !Withdrawn(log, Some(q.txAt), f.factId) && input.supersedes != Some(input.factId)
    ensures f in FullRead(Apply(log, keyed, DoAssert(now, input)).0, q)
  {
    hide Apply, FullRead, HoldsUntil;
    OperationExactly(log, keyed, DoAssert(now, input));
    var later, at := Apply(log, keyed, DoAssert(now, input)).0, Some(q.txAt);
    var e := later[|log|];
    assert later == log + [e];
    HistoryAfter(log, e, at);
    HistorySnoc(log, e, at, f.factId);
    assert f.factId in VouchedFor(later, at) <==> Vouched(later, at, f.factId);
    assert f.factId in Dead(later, at) <==> Withdrawn(later, at, f.factId);
    StandsFrom(log, e, q.txAt, Dead(later, at), VouchedFor(later, at));
    AsOfExactly(later, q, f);
  }
}
