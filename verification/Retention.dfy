/** Retention: while a legal hold stands nothing erases the fact, and a sweep that finishes leaves nothing else. */
module Retention {
  import opened Options
  import opened FactLog
  import opened Ledger
  import opened Superseders
  import B = Beliefs

  /** Every assert of the fact is still there, word for word. */
  ghost predicate Kept(log: Log, later: Log, id: Id) {
    && |log| <= |later|
    && forall i :: 0 <= i < |log| && log[i].Assert? && log[i].fact.factId == id ==> later[i] == log[i]
  }

  lemma {:induction false} EraseKeepsHolds(log: Log, marks: map<Id, Mark>, id: Id)
    ensures HeldIn(Erase(log, marks), id) == HeldIn(log, id)
  {
    if log != [] {
      var n := |log| - 1;
      EraseKeepsHolds(log[..n], marks, id);
      assert Erase(log, marks)[..|Erase(log, marks)| - 1] == Erase(log[..n], marks);
    }
  }

  lemma HeldAnyway(log: Log, id: Id)
    ensures Held(log, id) <==> HeldIn(log, id)
  {
    SelectForExact(log, {}, id);
  }

  lemma EventKeepsHold(log: Log, e: Event, id: Id)
    requires Held(log, id) && !(e.Release? && e.about == id)
    ensures Held(log + [e], id) && Kept(log, log + [e], id)
  {
    HeldAnyway(log, id);
    HeldAnyway(log + [e], id);
    assert (log + [e])[..|log|] == log;
  }

  lemma ForgetKeepsHold(log: Log, keyed: bool, now: Time, other: Id, actor: string, keepDigest: bool, id: Id)
    requires Held(log, id) && MayForget(log, other)
    ensures var later := ForgetFact(log, keyed, now, other, actor, keepDigest); Held(later, id) && Kept(log, later, id)
  {
    var mark := MarkFor(FactById(log, other).value, keyed, keepDigest, now);
    var erased := Erase(log, map[other := mark]);
    EraseKeepsHolds(log, map[other := mark], id);
    EraseLength(log, map[other := mark]);
    HeldAnyway(log, id);
    HeldAnyway(erased, id);
    EventKeepsHold(erased, Forget(now, other, actor, mark), id);
  }

  lemma {:induction false} SweepKeepsHold(log: Log, keyed: bool, now: Time, ids: seq<Id>, actor: string,
      keepDigest: bool, id: Id)
    requires Held(log, id)
    ensures var later := SweepIds(log, keyed, now, ids, actor, keepDigest).0; Held(later, id) && Kept(log, later, id)
    decreases |ids|
  {
    hide Held, FactById, ForgetFact;
    if ids != [] {
      if Held(log, ids[0]) {
        SweepKeepsHold(log, keyed, now, ids[1..], actor, keepDigest, id);
      } else if MayForget(log, ids[0]) {
        ForgetKeepsHold(log, keyed, now, ids[0], actor, keepDigest, id);
        SweepKeepsHold(ForgetFact(log, keyed, now, ids[0], actor, keepDigest), keyed, now, ids[1..], actor,
          keepDigest, id);
      }
    }
  }

  lemma ApplyKeepsHold(log: Log, keyed: bool, op: Op, id: Id)
    requires Held(log, id) && !(op.DoRelease? && op.id == id)
    ensures var later := Apply(log, keyed, op).0; Held(later, id) && Kept(log, later, id)
  {
    hide Held, FactById, RetractedAt, ConfirmedAt, MayAssert, ForgetFact, SweepIds;
    match op
    case DoAssert(now, input) => EventKeepsHold(log, Assert(now, NewFact(input, now), input.supersedes), id);
    case DoRetract(now, about, actor) => EventKeepsHold(log, Retract(now, about, actor), id);
    case DoConfirm(now, about, actor) => EventKeepsHold(log, Confirm(now, about, actor), id);
    case DoHold(now, about, actor) => EventKeepsHold(log, Hold(now, about, actor), id);
    case DoRelease(now, about, actor) => EventKeepsHold(log, Release(now, about, actor), id);
    case DoForget(now, about, actor, keepDigest) =>
      if MayForget(log, about) {
        ForgetKeepsHold(log, keyed, now, about, actor, keepDigest, id);
      }
    case DoSweep(now, before, space, actor, keepDigest) =>
      SweepKeepsHold(log, keyed, now, LearnedBefore(log, before, space), actor, keepDigest, id);
  }

  lemma {:induction false} HeldThrough(log: Log, keyed: bool, ops: seq<Op>, id: Id)
    requires Held(log, id)
    requires forall i :: 0 <= i < |ops| ==> !(ops[i].DoRelease? && ops[i].id == id)
    ensures Held(Run(log, keyed, ops), id) && Kept(log, Run(log, keyed, ops), id)
    decreases |ops|
  {
    hide Held, Apply;
    if ops != [] {
      HeldThrough(log, keyed, ops[..|ops| - 1], id);
      ApplyKeepsHold(Run(log, keyed, ops[..|ops| - 1]), keyed, ops[|ops| - 1], id);
    }
  }

  /** A fact put on hold and not released stays so, and every assert of it stays as it is, through any run of
      operations, sweeps included, that does not release it. */
  lemma {:induction false} HoldProtects(log: Log, keyed: bool, ops: seq<Op>, id: Id)
    requires B.OnHold(log, id)
    requires forall i :: 0 <= i < |ops| ==> !(ops[i].DoRelease? && ops[i].id == id)
    ensures B.OnHold(Run(log, keyed, ops), id) && Kept(log, Run(log, keyed, ops), id)
  {
    B.HeldExactly(log, id);
    HeldThrough(log, keyed, ops, id);
    B.HeldExactly(Run(log, keyed, ops), id);
  }

  // ----- What erasing leaves -----

  /** No assert of the fact has its value any more. */
  ghost predicate AllErased(log: Log, id: Id) {
    forall i :: 0 <= i < |log| && log[i].Assert? && log[i].fact.factId == id ==>
      log[i].fact.value.None? && log[i].fact.forgotten.Some?
  }

  /** Forgetting erases every assert of the fact, changes no other event, and records the mark it leaves. */
  lemma ForgetErases(log: Log, keyed: bool, now: Time, id: Id, actor: string, keepDigest: bool)
    requires MayForget(log, id)
    ensures var later := ForgetFact(log, keyed, now, id, actor, keepDigest);
            && AllErased(later, id) && |later| == |log| + 1
            && (forall i :: 0 <= i < |log| && !(log[i].Assert? && log[i].fact.factId == id) ==> later[i] == log[i])
            && later[|log|].Forget? && later[|log|].about == id
            && forall i :: 0 <= i < |log| && log[i].Assert? && log[i].fact.factId == id ==>
                 later[i] == log[i].(fact := log[i].fact.(value := None, forgotten := Some(later[|log|].mark)))
  {
    EraseLength(log, map[id := MarkFor(FactById(log, id).value, keyed, keepDigest, now)]);
  }

  lemma ForgetKeepsErased(log: Log, keyed: bool, now: Time, other: Id, actor: string, keepDigest: bool, id: Id)
    requires MayForget(log, other) && AllErased(log, id)
    ensures AllErased(ForgetFact(log, keyed, now, other, actor, keepDigest), id)
  {
    EraseLength(log, map[other := MarkFor(FactById(log, other).value, keyed, keepDigest, now)]);
  }

  lemma {:induction false} SweepKeepsErased(log: Log, keyed: bool, now: Time, ids: seq<Id>, actor: string,
      keepDigest: bool, id: Id)
    requires AllErased(log, id)
    ensures AllErased(SweepIds(log, keyed, now, ids, actor, keepDigest).0, id)
    decreases |ids|
  {
    hide AllErased, Held, FactById, ForgetFact;
    if ids != [] {
      if Held(log, ids[0]) {
        SweepKeepsErased(log, keyed, now, ids[1..], actor, keepDigest, id);
      } else if MayForget(log, ids[0]) {
        ForgetKeepsErased(log, keyed, now, ids[0], actor, keepDigest, id);
        SweepKeepsErased(ForgetFact(log, keyed, now, ids[0], actor, keepDigest), keyed, now, ids[1..], actor,
          keepDigest, id);
      }
    }
  }

  lemma {:induction false} SweepErases(log: Log, keyed: bool, now: Time, ids: seq<Id>, actor: string,
      keepDigest: bool, id: Id)
    requires id in ids && SweepIds(log, keyed, now, ids, actor, keepDigest).1
    ensures var later := SweepIds(log, keyed, now, ids, actor, keepDigest).0; Held(later, id) || AllErased(later, id)
    decreases |ids|
  {
    hide AllErased, Held, FactById, ForgetFact;
    var first, rest := ids[0], ids[1..];
    if Held(log, first) {
      if first == id {
        SweepKeepsHold(log, keyed, now, rest, actor, keepDigest, id);
      } else {
        SweepErases(log, keyed, now, rest, actor, keepDigest, id);
      }
    } else {
      var next := ForgetFact(log, keyed, now, first, actor, keepDigest);
      if first == id {
        ForgetErases(log, keyed, now, first, actor, keepDigest);
        SweepKeepsErased(next, keyed, now, rest, actor, keepDigest, id);
      } else {
        SweepErases(next, keyed, now, rest, actor, keepDigest, id);
      }
    }
  }

  lemma {:induction false} LearnedHas(log: Log, before: Time, space: Option<string>, i: nat)
    requires i < |log| && log[i].Assert? && log[i].tx < before && Fits(space, log[i].fact.space)
             && log[i].fact.forgotten.None?
    ensures log[i].fact.factId in LearnedBefore(log, before, space)
  {
    var n := |log| - 1;
    if i < n {
      assert log[..n][i] == log[i];
      LearnedHas(log[..n], before, space, i);
    }
  }

  /** A sweep that finishes leaves every fact the ledger learned before the cutoff on hold or erased. */
  lemma SweepLeavesNothing(log: Log, keyed: bool, now: Time, before: Time, space: Option<string>, actor: string,
      keepDigest: bool, i: nat)
    requires Apply(log, keyed, DoSweep(now, before, space, actor, keepDigest)).1
    requires i < |log| && log[i].Assert? && Due(log[i], before, space, log[i].fact.factId)
    ensures var later, id := Apply(log, keyed, DoSweep(now, before, space, actor, keepDigest)).0, log[i].fact.factId;
            B.OnHold(later, id) || AllErased(later, id)
  {
    hide AllErased, Held, SweepIds, LearnedBefore;
    LearnedHas(log, before, space, i);
    SweepErases(log, keyed, now, LearnedBefore(log, before, space), actor, keepDigest, log[i].fact.factId);
    B.HeldExactly(Apply(log, keyed, DoSweep(now, before, space, actor, keepDigest)).0, log[i].fact.factId);
  }

  // ----- When a sweep finishes -----

  /** The asserts of a fact are forgotten together: one before a forgotten one is forgotten too. */
  ghost predicate ErasedTogether(log: Log) {
    forall i, j, id :: 0 <= i < j < |log| && Asserts(log[i], id) && Asserts(log[j], id) ==>
      (log[j].fact.forgotten.Some? ==> log[i].fact.forgotten.Some?)
  }

  lemma EventKeepsTogether(log: Log, e: Event)
    requires ErasedTogether(log) && (e.Assert? ==> e.fact.forgotten.None?)
    ensures ErasedTogether(log + [e])
  {
    var log' := log + [e];
    forall i, j, id | 0 <= i < j < |log'| && Asserts(log'[i], id) && Asserts(log'[j], id)
      && log'[j].fact.forgotten.Some?
      ensures log'[i].fact.forgotten.Some?
    {
      assert Asserts(log[i], id) && Asserts(log[j], id);
    }
  }

  lemma ForgetKeepsTogether(log: Log, keyed: bool, now: Time, id: Id, actor: string, keepDigest: bool)
    requires ErasedTogether(log) && MayForget(log, id)
    ensures ErasedTogether(ForgetFact(log, keyed, now, id, actor, keepDigest))
  {
    var mark := MarkFor(FactById(log, id).value, keyed, keepDigest, now);
    var erased := Erase(log, map[id := mark]);
    EraseLength(log, map[id := mark]);
    forall i, j, x | 0 <= i < j < |erased| && Asserts(erased[i], x) && Asserts(erased[j], x)
      && erased[j].fact.forgotten.Some?
      ensures erased[i].fact.forgotten.Some?
    {
      assert Asserts(log[i], x) && Asserts(log[j], x);
    }
    EventKeepsTogether(erased, Forget(now, id, actor, mark));
  }

  lemma {:induction false} SweepKeepsTogether(log: Log, keyed: bool, now: Time, ids: seq<Id>, actor: string,
      keepDigest: bool)
    requires ErasedTogether(log)
    ensures ErasedTogether(SweepIds(log, keyed, now, ids, actor, keepDigest).0)
    decreases |ids|
  {
    hide ErasedTogether, Held, FactById, ForgetFact;
    if ids != [] {
      if Held(log, ids[0]) {
        SweepKeepsTogether(log, keyed, now, ids[1..], actor, keepDigest);
      } else if MayForget(log, ids[0]) {
        ForgetKeepsTogether(log, keyed, now, ids[0], actor, keepDigest);
        SweepKeepsTogether(ForgetFact(log, keyed, now, ids[0], actor, keepDigest), keyed, now, ids[1..], actor,
          keepDigest);
      }
    }
  }

  lemma ApplyKeepsTogether(log: Log, keyed: bool, op: Op)
    requires ErasedTogether(log)
    ensures ErasedTogether(Apply(log, keyed, op).0)
  {
    hide ErasedTogether, Held, FactById, RetractedAt, ConfirmedAt, MayAssert, ForgetFact, SweepIds;
    var r := Apply(log, keyed, op);
    if op.DoSweep? {
      SweepKeepsTogether(log, keyed, op.now, LearnedBefore(log, op.before, op.space), op.actor, op.keepDigest);
    } else if r.1 {
      if op.DoForget? {
        ForgetKeepsTogether(log, keyed, op.now, op.id, op.actor, op.keepDigest);
      } else {
        EventKeepsTogether(log, r.0[|log|]);
      }
    }
  }

  lemma {:induction false} AlwaysTogether(keyed: bool, ops: seq<Op>)
    ensures ErasedTogether(Run([], keyed, ops))
    decreases |ops|
  {
    hide Apply;
    if ops != [] {
      AlwaysTogether(keyed, ops[..|ops| - 1]);
      ApplyKeepsTogether(Run([], keyed, ops[..|ops| - 1]), keyed, ops[|ops| - 1]);
    }
  }

  /** By id a fact is forgotten exactly if the last assert of it is. */
  lemma {:induction false} LastAsserted(log: Log, r: set<Id>, id: Id) returns (i: nat)
    requires FoundIn(log, r, id).Some?
    ensures i < |log| && Asserts(log[i], id) && forall k :: i < k < |log| ==> !Asserts(log[k], id)
    ensures FoundIn(log, r, id).value.forgotten == log[i].fact.forgotten
    decreases |log|
  {
    var n := |log| - 1;
    if Asserts(log[n], id) {
      i := n;
    } else {
      i := LastAsserted(log[..n], r, id);
    }
  }

  ghost predicate Unforgotten(log: Log, id: Id) {
    exists k :: 0 <= k < |log| && Asserts(log[k], id) && log[k].fact.forgotten.None?
  }

  /** A fact that is not held can be forgotten exactly if some assert of it is not forgotten yet. */
  lemma MayForgetExactly(log: Log, id: Id)
    requires ErasedTogether(log) && !Held(log, id)
    ensures MayForget(log, id) <==> Unforgotten(log, id)
  {
    var r := Retracted(log);
    SelectForExact(log, r, id);
    if FactById(log, id).Some? {
      var i := LastAsserted(log, r, id);
    }
    if Unforgotten(log, id) {
      var k :| 0 <= k < |log| && Asserts(log[k], id) && log[k].fact.forgotten.None?;
      AssertedIsFound(log, r, id, k);
    }
  }

  lemma ForgetKeepsHeld(log: Log, keyed: bool, now: Time, other: Id, actor: string, keepDigest: bool, id: Id)
    requires MayForget(log, other)
    ensures Held(ForgetFact(log, keyed, now, other, actor, keepDigest), id) <==> Held(log, id)
  {
    var mark := MarkFor(FactById(log, other).value, keyed, keepDigest, now);
    var erased := Erase(log, map[other := mark]);
    EraseKeepsHolds(log, map[other := mark], id);
    HeldAnyway(log, id);
    HeldAnyway(erased + [Forget(now, other, actor, mark)], id);
    assert (erased + [Forget(now, other, actor, mark)])[..|erased|] == erased;
  }

  lemma ForgetKeepsUnforgotten(log: Log, keyed: bool, now: Time, other: Id, actor: string, keepDigest: bool, id: Id)
    requires MayForget(log, other) && id != other
    ensures Unforgotten(log, id) ==> Unforgotten(ForgetFact(log, keyed, now, other, actor, keepDigest), id)
  {
    ForgetErases(log, keyed, now, other, actor, keepDigest);
    if Unforgotten(log, id) {
      var k :| 0 <= k < |log| && Asserts(log[k], id) && log[k].fact.forgotten.None?;
      assert Asserts(ForgetFact(log, keyed, now, other, actor, keepDigest)[k], id);
    }
  }

  lemma ErasedIsForgotten(log: Log, id: Id)
    requires AllErased(log, id)
    ensures !Unforgotten(log, id)
  {
  }

  /** A sweep that comes to a fact it has forgotten already stops there. */
  lemma {:induction false} StopsAtErased(log: Log, keyed: bool, now: Time, ids: seq<Id>, actor: string,
      keepDigest: bool,
      id: Id)
    requires ErasedTogether(log) && id in ids && !Held(log, id) && AllErased(log, id)
    ensures !SweepIds(log, keyed, now, ids, actor, keepDigest).1
    decreases |ids|
  {
    hide ErasedTogether, Held, FactById, ForgetFact, AllErased, Unforgotten;
    var first, rest := ids[0], ids[1..];
    if Held(log, first) {
      StopsAtErased(log, keyed, now, rest, actor, keepDigest, id);
    } else if MayForget(log, first) {
      MayForgetExactly(log, first);
      ErasedIsForgotten(log, id);
      ForgetKeepsTogether(log, keyed, now, first, actor, keepDigest);
      ForgetKeepsHeld(log, keyed, now, first, actor, keepDigest, id);
      ForgetKeepsErased(log, keyed, now, first, actor, keepDigest, id);
      StopsAtErased(ForgetFact(log, keyed, now, first, actor, keepDigest), keyed, now, rest, actor, keepDigest, id);
    }
  }

  ghost predicate Repeats(ids: seq<Id>, id: Id) {
    exists a, b :: 0 <= a < b < |ids| && ids[a] == id && ids[b] == id
  }

  lemma RepeatsCons(first: Id, rest: seq<Id>, id: Id)
    ensures Repeats([first] + rest, id) <==> Repeats(rest, id) || (first == id && id in rest)
  {
    var ids := [first] + rest;
    assert forall k :: 0 <= k < |rest| ==> rest[k] == ids[k + 1];
    if a, b :| 0 <= a < b < |ids| && ids[a] == id && ids[b] == id {
      assert rest[b - 1] == id;
      assert a > 0 ==> rest[a - 1] == id;
    }
    if a, b :| 0 <= a < b < |rest| && rest[a] == id && rest[b] == id {
      assert ids[a + 1] == id && ids[b + 1] == id;
    }
    if first == id && id in rest {
      var k :| 0 <= k < |rest| && rest[k] == id;
      assert ids[0] == id && ids[k + 1] == id;
    }
  }

  /** A sweep over ids of facts not yet forgotten finishes exactly if every id that comes twice is held. */
  lemma {:induction false} SweepIdsFinish(log: Log, keyed: bool, now: Time, ids: seq<Id>, actor: string,
      keepDigest: bool)
    requires ErasedTogether(log) && forall id :: id in ids ==> Unforgotten(log, id)
    ensures SweepIds(log, keyed, now, ids, actor, keepDigest).1 <==> forall id :: Repeats(ids, id) ==> Held(log, id)
    decreases |ids|, 0
  {
    hide ErasedTogether, Held, FactById, ForgetFact, AllErased, Unforgotten;
    if ids == [] {
      NothingRepeats();
    } else {
      var first, rest := ids[0], ids[1..];
      assert ids == [first] + rest;
      forall id
        ensures Repeats(ids, id) <==> Repeats(rest, id) || (first == id && id in rest)
      {
        RepeatsCons(first, rest, id);
      }
      if Held(log, first) {
        SweepIdsFinish(log, keyed, now, rest, actor, keepDigest);
      } else {
        SweepPastFirst(log, keyed, now, first, rest, actor, keepDigest);
      }
    }
  }

  lemma NothingRepeats()
    ensures forall id :: !Repeats([], id)
  {
  }

  lemma {:induction false} SweepPastFirst(log: Log, keyed: bool, now: Time, first: Id, rest: seq<Id>, actor: string,
      keepDigest: bool)
    requires ErasedTogether(log) && (forall id :: id in rest ==> Unforgotten(log, id)) && Unforgotten(log, first)
    requires !Held(log, first)
    ensures MayForget(log, first)
    ensures SweepIds(ForgetFact(log, keyed, now, first, actor, keepDigest), keyed, now, rest, actor, keepDigest).1 <==>
            first !in rest && forall id :: Repeats(rest, id) ==> Held(log, id)
    decreases |rest|, 1
  {
    hide ErasedTogether, Held, FactById, ForgetFact, AllErased, Unforgotten, SweepIds, Repeats;
    MayForgetExactly(log, first);
    var next := ForgetFact(log, keyed, now, first, actor, keepDigest);
    ForgetKeepsTogether(log, keyed, now, first, actor, keepDigest);
    ForgetErases(log, keyed, now, first, actor, keepDigest);
    forall id
      ensures Held(next, id) <==> Held(log, id)
    {
      ForgetKeepsHeld(log, keyed, now, first, actor, keepDigest, id);
    }
    if first in rest {
      StopsAtErased(next, keyed, now, rest, actor, keepDigest, first);
    } else {
      forall id | id in rest
        ensures Unforgotten(next, id)
      {
        ForgetKeepsUnforgotten(log, keyed, now, first, actor, keepDigest, id);
      }
      SweepIdsFinish(next, keyed, now, rest, actor, keepDigest);
    }
  }

  // ----- From the list to the ledger -----

  /** An assert a sweep decides about. */
  predicate Due(e: Event, before: Time, space: Option<string>, id: Id) {
    Asserts(e, id) && e.tx < before && (space.Some? ==> e.fact.space == space.value) && e.fact.forgotten.None?
  }

  ghost predicate DueTwice(log: Log, before: Time, space: Option<string>, id: Id) {
    exists i, j :: 0 <= i < j < |log| && Due(log[i], before, space, id) && Due(log[j], before, space, id)
  }

  ghost predicate DueOnce(log: Log, before: Time, space: Option<string>, id: Id) {
    exists i :: 0 <= i < |log| && Due(log[i], before, space, id)
  }

  lemma DueSnoc(log: Log, e: Event, before: Time, space: Option<string>, id: Id)
    ensures DueOnce(log + [e], before, space, id) <==> DueOnce(log, before, space, id) || Due(e, before, space, id)
    ensures DueTwice(log + [e], before, space, id) <==>
            DueTwice(log, before, space, id) || (Due(e, before, space, id) && DueOnce(log, before, space, id))
  {
    var log' := log + [e];
    assert log'[|log|] == e && forall k :: 0 <= k < |log| ==> log'[k] == log[k];
    if i :| 0 <= i < |log| && Due(log[i], before, space, id) {
      assert Due(log'[i], before, space, id);
    }
    if i, j :| 0 <= i < j < |log| && Due(log[i], before, space, id) && Due(log[j], before, space, id) {
      assert Due(log'[i], before, space, id) && Due(log'[j], before, space, id);
    }
    if i, j :| 0 <= i < j < |log'| && Due(log'[i], before, space, id) && Due(log'[j], before, space, id) {
      assert Due(log[i], before, space, id);
    }
  }

  lemma RepeatsSnoc(ids: seq<Id>, last: Id, id: Id)
    ensures Repeats(ids + [last], id) <==> Repeats(ids, id) || (last == id && id in ids)
  {
    var ids' := ids + [last];
    assert ids'[|ids|] == last && forall k :: 0 <= k < |ids| ==> ids'[k] == ids[k];
    if a, b :| 0 <= a < b < |ids| && ids[a] == id && ids[b] == id {
      assert ids'[a] == id && ids'[b] == id;
    }
    if a, b :| 0 <= a < b < |ids'| && ids'[a] == id && ids'[b] == id {
      assert ids[a] == id;
    }
    if last == id && id in ids {
      var k :| 0 <= k < |ids| && ids[k] == id;
      assert ids'[k] == id;
    }
  }

  lemma {:induction false} LearnedExactly(log: Log, before: Time, space: Option<string>, id: Id)
    ensures var ids := LearnedBefore(log, before, space);
            (id in ids <==> DueOnce(log, before, space, id)) && (Repeats(ids, id) <==> DueTwice(log, before, space, id))
  {
    if log == [] {
      NothingRepeats();
    } else {
      var front, e := log[..|log| - 1], log[|log| - 1];
      assert log == front + [e];
      LearnedExactly(front, before, space, id);
      DueSnoc(front, e, before, space, id);
      if e.Assert? {
        RepeatsSnoc(LearnedBefore(front, before, space), e.fact.factId, id);
      }
    }
  }

  /** In every ledger: a sweep finishes exactly if no fact that is not held was asserted twice before the cutoff in
      its space without being forgotten since. */
  lemma {:induction false} SweepFinishesExactly(keyed: bool, ops: seq<Op>, now: Time, before: Time,
      space: Option<string>,
      actor: string, keepDigest: bool)
    ensures var log := Run([], keyed, ops);
            Apply(log, keyed, DoSweep(now, before, space, actor, keepDigest)).1 <==>
            forall id :: DueTwice(log, before, space, id) ==> B.OnHold(log, id)
  {
    hide Run, B.OnHold, SweepIds, LearnedBefore, ErasedTogether, Held, DueTwice, Repeats;
    var log := Run([], keyed, ops);
    AlwaysTogether(keyed, ops);
    var ids := LearnedBefore(log, before, space);
    forall id
      ensures (id in ids <==> DueOnce(log, before, space, id))
              && (Repeats(ids, id) <==> DueTwice(log, before, space, id))
              && (Held(log, id) <==> B.OnHold(log, id))
    {
      B.HeldExactly(log, id);
      LearnedExactly(log, before, space, id);
    }
    SweepIdsFinish(log, keyed, now, ids, actor, keepDigest);
  }

  /** So with fresh ids a sweep always finishes. */
  lemma {:induction false} SweepFinishesIfFresh(keyed: bool, ops: seq<Op>, now: Time, before: Time,
      space: Option<string>,
      actor: string, keepDigest: bool)
    requires FreshIds(keyed, ops)
    ensures Apply(Run([], keyed, ops), keyed, DoSweep(now, before, space, actor, keepDigest)).1
  {
    hide Run, Apply, FreshIds, Held;
    FreshIsUnique(keyed, ops);
    SweepFinishesExactly(keyed, ops, now, before, space, actor, keepDigest);
  }

  // ----- What a sweep leaves alone -----

  /** Each event is as it was, or an assert of one of these facts with its value erased; and each new one says that one
      of them was forgotten, now, by this actor. */
  ghost predicate OnlyForgets(log: Log, later: Log, ids: set<Id>, now: Time, actor: string) {
    && |log| <= |later|
    && (forall i :: 0 <= i < |log| ==> later[i] == log[i] || ErasedAt(log[i], later[i], ids, now))
    && forall i :: |log| <= i < |later| ==>
         later[i].Forget? && later[i].about in ids && later[i].tx == now && later[i].actor == actor
  }

  ghost predicate ErasedAt(e: Event, e': Event, ids: set<Id>, now: Time) {
    && e.Assert? && e.fact.factId in ids
    && exists mark: Mark :: mark.at == now && e' == e.(fact := e.fact.(value := None, forgotten := Some(mark)))
  }

  lemma ForgetOnly(log: Log, keyed: bool, now: Time, id: Id, actor: string, keepDigest: bool, ids: set<Id>)
    requires MayForget(log, id) && id in ids
    ensures OnlyForgets(log, ForgetFact(log, keyed, now, id, actor, keepDigest), ids, now, actor)
  {
    hide FactById, Held;
    EraseLength(log, map[id := MarkFor(FactById(log, id).value, keyed, keepDigest, now)]);
  }

  lemma ErasedTwice(e: Event, e': Event, e'': Event, ids: set<Id>, now: Time)
    requires ErasedAt(e, e', ids, now) && ErasedAt(e', e'', ids, now)
    ensures ErasedAt(e, e'', ids, now)
  {
  }

  lemma OnlyForgetsThen(a: Log, b: Log, c: Log, ids: set<Id>, now: Time, actor: string)
    requires OnlyForgets(a, b, ids, now, actor) && OnlyForgets(b, c, ids, now, actor)
    ensures OnlyForgets(a, c, ids, now, actor)
  {
    hide ErasedAt;
    forall i | 0 <= i < |a|
      ensures c[i] == a[i] || ErasedAt(a[i], c[i], ids, now)
    {
      if b[i] != a[i] && c[i] != b[i] {
        ErasedTwice(a[i], b[i], c[i], ids, now);
      }
    }
    forall i | |a| <= i < |c|
      ensures c[i].Forget? && c[i].about in ids && c[i].tx == now && c[i].actor == actor
    {
      if i < |b| && c[i] != b[i] {
        NotErased(b[i], c[i], ids, now);
      }
    }
  }

  lemma NotErased(e: Event, e': Event, ids: set<Id>, now: Time)
    requires ErasedAt(e, e', ids, now)
    ensures e.Assert?
  {
  }

  lemma {:induction false} SweepOnlyForgets(log: Log, keyed: bool, now: Time, ids: seq<Id>, actor: string,
      keepDigest: bool, all: set<Id>)
    requires forall id :: id in ids && !Held(log, id) ==> id in all
    ensures OnlyForgets(log, SweepIds(log, keyed, now, ids, actor, keepDigest).0, all, now, actor)
    decreases |ids|
  {
    hide Held, FactById, ForgetFact, ErasedAt;
    if ids != [] {
      if Held(log, ids[0]) {
        SweepOnlyForgets(log, keyed, now, ids[1..], actor, keepDigest, all);
      } else if MayForget(log, ids[0]) {
        var next := ForgetFact(log, keyed, now, ids[0], actor, keepDigest);
        ForgetOnly(log, keyed, now, ids[0], actor, keepDigest, all);
        forall id
          ensures Held(next, id) <==> Held(log, id)
        {
          ForgetKeepsHeld(log, keyed, now, ids[0], actor, keepDigest, id);
        }
        SweepOnlyForgets(next, keyed, now, ids[1..], actor, keepDigest, all);
        OnlyForgetsThen(log, next, SweepIds(next, keyed, now, ids[1..], actor, keepDigest).0, all, now, actor);
      }
    }
  }

  /** A sweep, finished or not, touches nothing but facts that are due and not on hold. */
  lemma {:induction false} SweepTouchesOnlyDue(log: Log, keyed: bool, now: Time, before: Time, space: Option<string>,
      actor: string, keepDigest: bool, due: set<Id>)
    requires forall id :: DueOnce(log, before, space, id) && !B.OnHold(log, id) ==> id in due
    ensures OnlyForgets(log, Apply(log, keyed, DoSweep(now, before, space, actor, keepDigest)).0, due, now, actor)
  {
    hide Held, B.OnHold, DueOnce, OnlyForgets, LearnedBefore;
    var ids := LearnedBefore(log, before, space);
    forall id | id in ids && !Held(log, id)
      ensures id in due
    {
      LearnedExactly(log, before, space, id);
      B.HeldExactly(log, id);
    }
    SweepOnlyForgets(log, keyed, now, ids, actor, keepDigest, due);
  }
}
