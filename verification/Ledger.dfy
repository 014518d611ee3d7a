/** The fact ledger: the operations that append to its log, the class that performs them on a store, and what no
    sequence of them can break. Operations run one at a time, each on one reading of the clock. */
module Ledger {
  import opened Options
  import opened FactLog

  // ----- Questions about one fact -----

  /** A fact by id, with supersession applied, from the events that touch it. */
  function FoundIn(events: Log, retracted: set<Id>, id: Id): Option<Fact> {
    if events == [] then None
    else
      var e := events[|events| - 1];
      var before := FoundIn(events[..|events| - 1], retracted, id);
      if e.Assert? && e.fact.factId == id then Some(e.fact)
      else if e.Assert? && e.supersedes == Some(id) && before.Some? && e.fact.factId !in retracted
      then Some(before.value.(validTo := Some(e.fact.validFrom)))
      else before
  }

  function FactById(log: Log, id: Id): Option<Fact> {
    FoundIn(SelectFor(log, id), Retracted(log), id)
  }

  predicate RetractedAt(log: Log, id: Id) {
    id in Retracted(SelectFor(log, id))
  }

  predicate ConfirmedAt(log: Log, id: Id) {
    id in Confirmed(SelectFor(log, id))
  }

  function HeldIn(events: Log, id: Id): bool {
    if events == [] then false
    else
      var e := events[|events| - 1];
      if (e.Hold? || e.Release?) && e.about == id then e.Hold? else HeldIn(events[..|events| - 1], id)
  }

  predicate Held(log: Log, id: Id) {
    HeldIn(SelectFor(log, id), id)
  }

  /** Every fact ever asserted, with supersession applied. */
  function Facts(log: Log): Table {
    Scan(log, Retracted(log), {})
  }

  // ----- Operations -----

  datatype AssertInput = AssertInput(
    factId: Id,
    subject: string,
    attribute: string,
    value: string,
    space: string,
    actor: string,
    receiptId: Option<string>,
    provenance: Provenance,
    validFrom: Option<Time>,
    supersedes: Option<Id>)

  datatype Op =
    | DoAssert(now: Time, input: AssertInput)
    | DoRetract(now: Time, id: Id, actor: string)
    | DoConfirm(now: Time, id: Id, actor: string)
    | DoHold(now: Time, id: Id, actor: string)
    | DoRelease(now: Time, id: Id, actor: string)
    | DoForget(now: Time, id: Id, actor: string, keepDigest: bool)
    | DoSweep(now: Time, before: Time, space: Option<string>, actor: string, keepDigest: bool)

  function StartOf(input: AssertInput, now: Time): Time {
    if input.validFrom.Some? then input.validFrom.value else now
  }

  predicate MayAssert(log: Log, input: AssertInput, now: Time) {
    input.supersedes.Some? ==>
      var prior := FactById(log, input.supersedes.value);
      && prior.Some?
      && prior.value.validTo.None?
      && !RetractedAt(log, input.supersedes.value)
      && prior.value.validFrom <= StartOf(input, now)
  }

  function NewFact(input: AssertInput, now: Time): Fact {
    Fact(input.factId, input.subject, input.attribute, Some(input.value), input.space, input.actor, input.receiptId,
         input.provenance, None, StartOf(input, now), None)
  }

  predicate MayForget(log: Log, id: Id) {
    var prior := FactById(log, id);
    prior.Some? && prior.value.forgotten.None? && !Held(log, id)
  }

  function EraseFact(f: Fact, marks: map<Id, Mark>): Fact {
    if f.factId in marks then f.(value := None, forgotten := Some(marks[f.factId])) else f
  }

  /** The in-place rewrite: asserts of the marked facts keep everything but the value. */
  function Erase(log: Log, marks: map<Id, Mark>): Log {
    if log == [] then []
    else
      var n := |log| - 1;
      Erase(log[..n], marks) + [if log[n].Assert? then log[n].(fact := EraseFact(log[n].fact, marks)) else log[n]]
  }

  function MarkFor(prior: Fact, keyed: bool, keepDigest: bool, now: Time): Mark {
    if !keepDigest then Mark(NoDigest, None, now)
    else Mark(if keyed then HmacSha256 else Sha256, prior.value, now)
  }

  function ForgetFact(log: Log, keyed: bool, now: Time, id: Id, actor: string, keepDigest: bool): Log
    requires MayForget(log, id)
  {
    var mark := MarkFor(FactById(log, id).value, keyed, keepDigest, now);
    Erase(log, map[id := mark]) + [Forget(now, id, actor, mark)]
  }

  /** The facts a sweep decides about: learned before the cutoff, in the space if one is given, not yet forgotten. */
  function LearnedBefore(log: Log, before: Time, space: Option<string>): seq<Id> {
    if log == [] then []
    else
      var e, ids := log[|log| - 1], LearnedBefore(log[..|log| - 1], before, space);
      if e.Assert? && e.tx < before && Fits(space, e.fact.space) && e.fact.forgotten.None? then ids + [e.fact.factId]
        else ids
  }

  /** Ids of the facts asserted before the cutoff in the space. */
  function AssertedBefore(log: Log, before: Time, space: Option<string>): set<Id> {
    if log == [] then {}
    else
      var e := log[|log| - 1];
      AssertedBefore(log[..|log| - 1], before, space)
      + (if e.Assert? && e.tx < before && Fits(space, e.fact.space) then {e.fact.factId} else {})
  }

  /** What a store returns to a sweep: the events of those facts and of what supersedes them. */
  function SelectBefore(log: Log, before: Time, space: Option<string>): Log {
    Only(log, Closed(log, AssertedBefore(log, before, space)))
  }

  /** Forgets each listed fact in turn, skipping held ones; stops at a fact that cannot be forgotten. */
  function SweepIds(log: Log, keyed: bool, now: Time, ids: seq<Id>, actor: string, keepDigest: bool): (Log, bool)
    decreases |ids|
  {
    if ids == [] then (log, true)
    else if Held(log, ids[0]) then SweepIds(log, keyed, now, ids[1..], actor, keepDigest)
    else if !MayForget(log, ids[0]) then (log, false)
    else SweepIds(ForgetFact(log, keyed, now, ids[0], actor, keepDigest), keyed, now, ids[1..], actor, keepDigest)
  }

  /** The log after an operation, and whether it was carried out; a refused one leaves the log alone. */
  function Apply(log: Log, keyed: bool, op: Op): (Log, bool) {
    match op
    case DoAssert(now, input) =>
      if MayAssert(log, input, now) then (log + [Assert(now, NewFact(input, now), input.supersedes)], true)
        else (log, false)
    case DoRetract(now, id, actor) =>
      if FactById(log, id).Some? && !RetractedAt(log, id) then (log + [Retract(now, id, actor)], true) else (log, false)
    case DoConfirm(now, id, actor) =>
      if FactById(log, id).Some? && !RetractedAt(log, id) && FactById(log, id).value.provenance == Claimed
        && !ConfirmedAt(log, id)
      then (log + [Confirm(now, id, actor)], true) else (log, false)
    case DoHold(now, id, actor) =>
      if FactById(log, id).Some? && FactById(log, id).value.forgotten.None? && !Held(log, id)
      then (log + [Hold(now, id, actor)], true) else (log, false)
    case DoRelease(now, id, actor) =>
      if Held(log, id) then (log + [Release(now, id, actor)], true) else (log, false)
    case DoForget(now, id, actor, keepDigest) =>
      if MayForget(log, id) then (ForgetFact(log, keyed, now, id, actor, keepDigest), true) else (log, false)
    case DoSweep(now, before, space, actor, keepDigest) =>
      SweepIds(log, keyed, now, LearnedBefore(log, before, space), actor, keepDigest)
  }

  function Run(log: Log, keyed: bool, ops: seq<Op>): Log
    decreases |ops|
  {
    if ops == [] then log else Apply(Run(log, keyed, ops[..|ops| - 1]), keyed, ops[|ops| - 1]).0
  }

  // ----- The store answers questions about one fact from its own events -----

  lemma {:induction false} SelectForExact(log: Log, retracted: set<Id>, id: Id)
    ensures FoundIn(SelectFor(log, id), retracted, id) == FoundIn(log, retracted, id)
    ensures id in Retracted(SelectFor(log, id)) <==> id in Retracted(log)
    ensures HeldIn(SelectFor(log, id), id) == HeldIn(log, id)
  {
    if log != [] {
      var n := |log| - 1;
      SelectForExact(log[..n], retracted, id);
      var before := SelectFor(log[..n], id);
      assert (before + [log[n]])[..|before|] == before;
    }
  }

  lemma {:induction false} LearnedFromEnough(log: Log, ids: set<Id>, before: Time, space: Option<string>)
    requires AssertedBefore(log, before, space) <= ids
    ensures LearnedBefore(Only(log, ids), before, space) == LearnedBefore(log, before, space)
  {
    if log != [] {
      var n := |log| - 1;
      LearnedFromEnough(log[..n], ids, before, space);
      var front := Only(log[..n], ids);
      assert (front + [log[n]])[..|front|] == front;
    }
  }

  /** A sweep's selection loses nothing it decides about. */
  lemma SweepSelectionExact(log: Log, before: Time, space: Option<string>)
    ensures LearnedBefore(SelectBefore(log, before, space), before, space) == LearnedBefore(log, before, space)
  {
    ClosedContains(log, AssertedBefore(log, before, space));
    LearnedFromEnough(log, Closed(log, AssertedBefore(log, before, space)), before, space);
  }

  // ----- Erasure -----

  lemma {:induction false} EraseLength(log: Log, marks: map<Id, Mark>)
    ensures |Erase(log, marks)| == |log|
    ensures forall i :: 0 <= i < |log| ==>
              Erase(log, marks)[i] == if log[i].Assert? then log[i].(fact := EraseFact(log[i].fact, marks)) else log[i]
  {
    if log != [] {
      EraseLength(log[..|log| - 1], marks);
    }
  }

  lemma EraseConcat(a: Log, b: Log, marks: map<Id, Mark>)
    ensures Erase(a + b, marks) == Erase(a, marks) + Erase(b, marks)
  {
    EraseLength(a, marks);
    EraseLength(b, marks);
    EraseLength(a + b, marks);
  }

  lemma EraseFactTwice(f: Fact, first: map<Id, Mark>, second: map<Id, Mark>)
    ensures EraseFact(EraseFact(f, first), second) == EraseFact(f, first + second)
  {
  }

  lemma {:induction false} EraseTwice(log: Log, first: map<Id, Mark>, second: map<Id, Mark>)
    ensures Erase(Erase(log, first), second) == Erase(log, first + second)
  {
    if log != [] {
      var n := |log| - 1;
      var e := if log[n].Assert? then log[n].(fact := EraseFact(log[n].fact, first)) else log[n];
      EraseTwice(log[..n], first, second);
      EraseSnoc(Erase(log[..n], first), e, second);
      if log[n].Assert? {
        EraseFactTwice(log[n].fact, first, second);
      }
    }
  }

  lemma EraseSnoc(log: Log, e: Event, marks: map<Id, Mark>)
    ensures Erase(log + [e], marks)
            == Erase(log, marks) + [if e.Assert? then e.(fact := EraseFact(e.fact, marks)) else e]
  {
    assert (log + [e])[..|log|] == log;
  }

  lemma EraseNothing(log: Log)
    ensures Erase(log, map[]) == log
  {
    EraseLength(log, map[]);
  }

  /** The marks left by the forget events of a log. */
  function Marks(events: Log): map<Id, Mark> {
    if events == [] then map[]
    else
      var e := events[|events| - 1];
      if e.Forget? then Marks(events[..|events| - 1])[e.about := e.mark] else Marks(events[..|events| - 1])
  }

  lemma {:induction false} MarksOfErased(events: Log, marks: map<Id, Mark>)
    ensures Marks(Erase(events, marks)) == Marks(events)
  {
    if events != [] {
      var n := |events| - 1;
      MarksOfErased(events[..n], marks);
      assert Erase(events, marks)[..|Erase(events, marks)| - 1] == Erase(events[..n], marks);
    }
  }

  lemma {:induction false} MarksConcat(a: Log, b: Log)
    ensures Marks(a + b) == Marks(a) + Marks(b)
  {
    if b == [] {
      assert a + b == a;
    } else {
      var n := |b| - 1;
      assert (a + b)[..|a + b| - 1] == a + b[..n];
      MarksConcat(a, b[..n]);
    }
  }

  // ----- The past is fixed -----

  /** later is the old log with the values of facts forgotten since erased in place, and new events after it, all of
      them later than txAt. */
  ghost predicate OnlyAdds(log: Log, later: Log, txAt: Time) {
    && |log| <= |later|
    && later == Erase(log, Marks(later[|log|..])) + later[|log|..]
    && forall i :: |log| <= i < |later| ==> later[i].tx > txAt
  }

  lemma OnlyAddsEvent(log: Log, e: Event, txAt: Time)
    requires e.tx > txAt && !e.Forget?
    ensures OnlyAdds(log, log + [e], txAt)
  {
    assert (log + [e])[|log|..] == [e] && [e][..0] == [];
    EraseNothing(log);
  }

  lemma OnlyAddsForget(log: Log, keyed: bool, now: Time, id: Id, actor: string, keepDigest: bool, txAt: Time)
    requires MayForget(log, id) && now > txAt
    ensures OnlyAdds(log, ForgetFact(log, keyed, now, id, actor, keepDigest), txAt)
  {
    var mark := MarkFor(FactById(log, id).value, keyed, keepDigest, now);
    var e := Forget(now, id, actor, mark);
    EraseLength(log, map[id := mark]);
    var later := ForgetFact(log, keyed, now, id, actor, keepDigest);
    assert later[|log|..] == [e] && [e][..0] == [];
    assert Marks([e]) == map[id := mark];
  }

  lemma TailsCompose(a: Log, t1: Log, t2: Log)
    ensures var m1, m2 := Marks(t1), Marks(t2);
            var tail := Erase(t1, m2) + t2;
            Erase(Erase(a, m1) + t1, m2) + t2 == Erase(a, Marks(tail)) + tail
  {
    var m1, m2 := Marks(t1), Marks(t2);
    EraseConcat(Erase(a, m1), t1, m2);
    EraseTwice(a, m1, m2);
    MarksOfErased(t1, m2);
    MarksConcat(Erase(t1, m2), t2);
  }

  lemma TailOf(a: Log, tail: Log)
    ensures (a + tail)[|a|..] == tail
  {
  }

  lemma ErasedTailIsLater(t1: Log, marks: map<Id, Mark>, t2: Log, txAt: Time, i: nat)
    requires forall k :: 0 <= k < |t1| ==> t1[k].tx > txAt
    requires forall k :: 0 <= k < |t2| ==> t2[k].tx > txAt
    requires i < |Erase(t1, marks) + t2|
    ensures (Erase(t1, marks) + t2)[i].tx > txAt
  {
    EraseLength(t1, marks);
    if i >= |t1| {
      assert (Erase(t1, marks) + t2)[i] == t2[i - |t1|];
    }
  }

  lemma OnlyAddsTrans(a: Log, b: Log, c: Log, txAt: Time)
    requires OnlyAdds(a, b, txAt) && OnlyAdds(b, c, txAt)
    ensures OnlyAdds(a, c, txAt)
  {
    hide Erase, Marks;
    var t1, t2 := b[|a|..], c[|b|..];
    var tail := Erase(t1, Marks(t2)) + t2;
    TailsCompose(a, t1, t2);
    EraseLength(a, Marks(tail));
    TailOf(Erase(a, Marks(tail)), tail);
    forall i | 0 <= i < |tail|
      ensures tail[i].tx > txAt
    {
      ErasedTailIsLater(t1, Marks(t2), t2, txAt, i);
    }
    assert c == Erase(a, Marks(tail)) + tail;
    LaterFrom(a, c, tail, txAt);
  }

  lemma LaterFrom(a: Log, c: Log, tail: Log, txAt: Time)
    requires |a| <= |c| && c[|a|..] == tail && forall i :: 0 <= i < |tail| ==> tail[i].tx > txAt
    ensures forall i :: |a| <= i < |c| ==> c[i].tx > txAt
  {
    forall i | |a| <= i < |c|
      ensures c[i].tx > txAt
    {
      assert c[i] == tail[i - |a|];
    }
  }

  lemma OnlyAddsRefl(log: Log, txAt: Time)
    ensures OnlyAdds(log, log, txAt)
  {
    EraseNothing(log);
    assert log[|log|..] == [];
  }

  lemma {:induction false} SweepOnlyAdds(log: Log, keyed: bool, now: Time, ids: seq<Id>, actor: string,
      keepDigest: bool, txAt: Time)
    requires now > txAt
    ensures OnlyAdds(log, SweepIds(log, keyed, now, ids, actor, keepDigest).0, txAt)
    decreases |ids|
  {
    if ids == [] {
      OnlyAddsRefl(log, txAt);
    } else if Held(log, ids[0]) {
      SweepOnlyAdds(log, keyed, now, ids[1..], actor, keepDigest, txAt);
    } else if !MayForget(log, ids[0]) {
      OnlyAddsRefl(log, txAt);
    } else {
      var log' := ForgetFact(log, keyed, now, ids[0], actor, keepDigest);
      OnlyAddsForget(log, keyed, now, ids[0], actor, keepDigest, txAt);
      SweepOnlyAdds(log', keyed, now, ids[1..], actor, keepDigest, txAt);
      OnlyAddsTrans(log, log', SweepIds(log', keyed, now, ids[1..], actor, keepDigest).0, txAt);
    }
  }

  lemma ApplyOnlyAdds(log: Log, keyed: bool, op: Op, txAt: Time)
    requires op.now > txAt
    ensures OnlyAdds(log, Apply(log, keyed, op).0, txAt)
  {
    var r := Apply(log, keyed, op);
    if op.DoSweep? {
      SweepOnlyAdds(log, keyed, op.now, LearnedBefore(log, op.before, op.space), op.actor, op.keepDigest, txAt);
    } else if !r.1 {
      OnlyAddsRefl(log, txAt);
    } else if op.DoForget? {
      OnlyAddsForget(log, keyed, op.now, op.id, op.actor, op.keepDigest, txAt);
    } else {
      OnlyAddsEvent(log, r.0[|log|], txAt);
    }
  }

  lemma {:induction false} RunOnlyAdds(log: Log, keyed: bool, ops: seq<Op>, txAt: Time)
    requires forall i :: 0 <= i < |ops| ==> ops[i].now > txAt
    ensures OnlyAdds(log, Run(log, keyed, ops), txAt)
    decreases |ops|
  {
    if ops == [] {
      OnlyAddsRefl(log, txAt);
    } else {
      var n := |ops| - 1;
      RunOnlyAdds(log, keyed, ops[..n], txAt);
      ApplyOnlyAdds(Run(log, keyed, ops[..n]), keyed, ops[n], txAt);
      OnlyAddsTrans(log, Run(log, keyed, ops[..n]), Run(log, keyed, ops), txAt);
    }
  }

  lemma {:induction false} CutAll(log: Log, tail: Log, txAt: Time)
    requires forall i :: 0 <= i < |tail| ==> tail[i].tx > txAt
    ensures Cut(log + tail, txAt) == Cut(log, txAt)
    decreases |tail|
  {
    if tail == [] {
      assert log + tail == log;
    } else {
      var n := |tail| - 1;
      assert log + tail == (log + tail[..n]) + [tail[n]];
      CutSnoc(log + tail[..n], tail[n], txAt);
      CutAll(log, tail[..n], txAt);
    }
  }

  lemma {:induction false} CutErase(log: Log, marks: map<Id, Mark>, txAt: Time)
    ensures Cut(Erase(log, marks), txAt) == Erase(Cut(log, txAt), marks)
  {
    if log != [] {
      var n := |log| - 1;
      var e := if log[n].Assert? then log[n].(fact := EraseFact(log[n].fact, marks)) else log[n];
      CutErase(log[..n], marks, txAt);
      CutSnoc(Erase(log[..n], marks), e, txAt);
      EraseSnoc(Cut(log[..n], txAt), log[n], marks);
    }
  }

  lemma {:induction false} SetsErase(log: Log, marks: map<Id, Mark>)
    ensures Retracted(Erase(log, marks)) == Retracted(log) && Confirmed(Erase(log, marks)) == Confirmed(log)
  {
    if log != [] {
      var n := |log| - 1;
      SetsErase(log[..n], marks);
      SetsSnoc(Erase(log[..n], marks), if log[n].Assert? then log[n].(fact := EraseFact(log[n].fact, marks))
        else log[n]);
    }
  }

  function EraseTable(t: Table, marks: map<Id, Mark>): Table {
    Table(t.order, map id | id in t.facts :: EraseFact(t.facts[id], marks))
  }

  lemma {:induction false} ScanErase(log: Log, r: set<Id>, c: set<Id>, marks: map<Id, Mark>)
    ensures Scan(Erase(log, marks), r, c) == EraseTable(Scan(log, r, c), marks)
  {
    if log != [] {
      var n := |log| - 1;
      var e := if log[n].Assert? then log[n].(fact := EraseFact(log[n].fact, marks)) else log[n];
      ScanErase(log[..n], r, c, marks);
      ScanSnoc(Erase(log[..n], marks), e, r, c);
      StepErase(Scan(log[..n], r, c), log[n], r, c, marks);
    }
  }

  lemma PutErase(t: Table, f: Fact, marks: map<Id, Mark>)
    ensures Put(EraseTable(t, marks), f.factId, EraseFact(f, marks)) == EraseTable(Put(t, f.factId, f), marks)
  {
    assert Put(EraseTable(t, marks), f.factId, EraseFact(f, marks)).facts
           == EraseTable(Put(t, f.factId, f), marks).facts;
  }

  lemma EndErase(t: Table, id: Id, end: Time, marks: map<Id, Mark>)
    requires id in t.facts
    ensures var t' := EraseTable(t, marks);
            t'.(facts := t'.facts[id := t'.facts[id].(validTo := Some(end))])
            == EraseTable(t.(facts := t.facts[id := t.facts[id].(validTo := Some(end))]), marks)
  {
    var t' := EraseTable(t, marks);
    assert t'.facts[id := t'.facts[id].(validTo := Some(end))]
           == EraseTable(t.(facts := t.facts[id := t.facts[id].(validTo := Some(end))]), marks).facts;
  }

  lemma StepErase(t: Table, e: Event, r: set<Id>, c: set<Id>, marks: map<Id, Mark>)
    ensures Step(EraseTable(t, marks), if e.Assert? then e.(fact := EraseFact(e.fact, marks)) else e, r, c)
            == EraseTable(Step(t, e, r, c), marks)
  {
    if e.Assert? {
      var f := Shown(e.fact, c);
      assert Shown(EraseFact(e.fact, marks), c) == EraseFact(f, marks) && f.factId == e.fact.factId;
      PutErase(t, f, marks);
      var t1 := Put(t, f.factId, f);
      if e.supersedes.Some? && e.supersedes.value in t1.facts {
        EndErase(t1, e.supersedes.value, e.fact.validFrom, marks);
      }
    }
  }

  function EraseFacts(fs: seq<Fact>, marks: map<Id, Mark>): seq<Fact> {
    seq(|fs|, i requires 0 <= i < |fs| => EraseFact(fs[i], marks))
  }

  lemma {:induction false} KeptErase(order: seq<Id>, t: Table, r: set<Id>, q: Query, marks: map<Id, Mark>)
    ensures Kept(order, EraseTable(t, marks).facts, r, q) == EraseFacts(Kept(order, t.facts, r, q), marks)
  {
    if order != [] {
      var n := |order| - 1;
      KeptErase(order[..n], t, r, q, marks);
    }
  }

  lemma ReadErase(known: Log, marks: map<Id, Mark>, q: Query)
    ensures Read(Erase(known, marks), q) == EraseFacts(Read(known, q), marks)
  {
    SetsErase(known, marks);
    ScanErase(known, Retracted(known), Confirmed(known), marks);
    KeptErase(Scan(known, Retracted(known), Confirmed(known)).order, Scan(known, Retracted(known), Confirmed(known)),
      Retracted(known), q, marks);
  }

  /** The past is fixed: a read as of txAt gives the same facts in the same order after any operations made later than
      txAt, except that a fact forgotten by them shows the mark of its erased value. */
  lemma PastIsFixed(log: Log, keyed: bool, ops: seq<Op>, q: Query)
    requires forall i :: 0 <= i < |ops| ==> ops[i].now > q.txAt
    ensures var later := Run(log, keyed, ops);
            && |log| <= |later|
            && FullRead(later, q) == EraseFacts(FullRead(log, q), Marks(later[|log|..]))
  {
    RunOnlyAdds(log, keyed, ops, q.txAt);
    var later := Run(log, keyed, ops);
    var tail := later[|log|..];
    EraseLength(log, Marks(tail));
    CutAll(Erase(log, Marks(tail)), tail, q.txAt);
    CutErase(log, Marks(tail), q.txAt);
    ReadErase(Cut(log, q.txAt), Marks(tail), q);
  }

  // ----- What was known at an earlier time -----

  /** The clock never goes back. */
  ghost predicate Clocked(ops: seq<Op>) {
    forall i, j :: 0 <= i < j < |ops| ==> ops[i].now <= ops[j].now
  }

  lemma {:induction false} RunConcat(log: Log, keyed: bool, a: seq<Op>, b: seq<Op>)
    ensures Run(log, keyed, a + b) == Run(Run(log, keyed, a), keyed, b)
    decreases |b|
  {
    if b == [] {
      assert a + b == a;
    } else {
      var n := |b| - 1;
      assert (a + b)[..|a + b| - 1] == a + b[..n];
      RunConcat(log, keyed, a, b[..n]);
    }
  }

  ghost predicate AllBy(log: Log, at: Time) {
    forall i :: 0 <= i < |log| ==> log[i].tx <= at
  }

  lemma ForgetBy(log: Log, keyed: bool, now: Time, id: Id, actor: string, keepDigest: bool, at: Time)
    requires MayForget(log, id) && AllBy(log, at) && now <= at
    ensures AllBy(ForgetFact(log, keyed, now, id, actor, keepDigest), at)
  {
    EraseLength(log, map[id := MarkFor(FactById(log, id).value, keyed, keepDigest, now)]);
  }

  lemma {:induction false} SweepBy(log: Log, keyed: bool, now: Time, ids: seq<Id>, actor: string, keepDigest: bool,
      at: Time)
    requires AllBy(log, at) && now <= at
    ensures AllBy(SweepIds(log, keyed, now, ids, actor, keepDigest).0, at)
    decreases |ids|
  {
    hide AllBy, ForgetFact, FactById, Held;
    if ids != [] {
      if Held(log, ids[0]) {
        SweepBy(log, keyed, now, ids[1..], actor, keepDigest, at);
      } else if MayForget(log, ids[0]) {
        ForgetBy(log, keyed, now, ids[0], actor, keepDigest, at);
        SweepBy(ForgetFact(log, keyed, now, ids[0], actor, keepDigest), keyed, now, ids[1..], actor, keepDigest, at);
      }
    }
  }

  lemma ApplyBy(log: Log, keyed: bool, op: Op, at: Time)
    requires AllBy(log, at) && op.now <= at
    ensures AllBy(Apply(log, keyed, op).0, at)
  {
    hide ForgetFact, FactById, Held, SweepIds, MayAssert, RetractedAt, ConfirmedAt;
    if op.DoSweep? {
      SweepBy(log, keyed, op.now, LearnedBefore(log, op.before, op.space), op.actor, op.keepDigest, at);
    } else if op.DoForget? && MayForget(log, op.id) {
      ForgetBy(log, keyed, op.now, op.id, op.actor, op.keepDigest, at);
    }
  }

  lemma {:induction false} RunBy(keyed: bool, ops: seq<Op>, at: Time)
    requires forall i :: 0 <= i < |ops| ==> ops[i].now <= at
    ensures AllBy(Run([], keyed, ops), at)
    decreases |ops|
  {
    hide Apply;
    if ops != [] {
      var n := |ops| - 1;
      RunBy(keyed, ops[..n], at);
      ApplyBy(Run([], keyed, ops[..n]), keyed, ops[n], at);
    }
  }

  lemma {:induction false} CutKeepsAll(log: Log, txAt: Time)
    requires AllBy(log, txAt)
    ensures Cut(log, txAt) == log
  {
    if log != [] {
      var n := |log| - 1;
      forall i | 0 <= i < n
        ensures log[..n][i].tx <= txAt
      {
        assert log[..n][i] == log[i];
      }
      CutKeepsAll(log[..n], txAt);
      assert log == log[..n] + [log[n]];
      CutSnoc(log[..n], log[n], txAt);
    }
  }

  /** How many operations had been made by then. */
  lemma {:induction false} MadeBy(ops: seq<Op>, at: Time) returns (i: nat)
    requires Clocked(ops)
    ensures i <= |ops| && (forall k :: 0 <= k < i ==> ops[k].now <= at)
            && (forall k :: i <= k < |ops| ==> ops[k].now > at)
    decreases |ops|
  {
    if ops == [] || ops[|ops| - 1].now <= at {
      i := |ops|;
    } else {
      i := MadeBy(ops[..|ops| - 1], at);
    }
  }

  /** What a ledger knows of an earlier time is the ledger as it stood then, with what was forgotten since erased in
      it. */
  lemma {:induction false} KnownThen(keyed: bool, ops: seq<Op>, txAt: Time) returns (i: nat, marks: map<Id, Mark>)
    requires Clocked(ops)
    ensures i <= |ops| && Cut(Run([], keyed, ops), txAt) == Erase(Run([], keyed, ops[..i]), marks)
  {
    hide Run;
    i := MadeBy(ops, txAt);
    var log, later := Run([], keyed, ops[..i]), Run([], keyed, ops);
    RunConcat([], keyed, ops[..i], ops[i..]);
    assert ops[..i] + ops[i..] == ops;
    RunOnlyAdds(log, keyed, ops[i..], txAt);
    var tail := later[|log|..];
    marks := Marks(tail);
    RunBy(keyed, ops[..i], txAt);
    EraseLength(log, marks);
    CutAll(Erase(log, marks), tail, txAt);
    CutErase(log, marks, txAt);
    CutKeepsAll(log, txAt);
  }
}
