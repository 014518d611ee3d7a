/** What the ledger's operations keep about supersession, whatever ids they are given: when a fact may come to have two
    live superseders, and when it cannot. */
module Superseders {
  import opened Options
  import opened FactLog
  import opened Ledger

  /** e was recorded as superseding id. */
  predicate Replaces(e: Event, id: Id) {
    e.Assert? && e.supersedes == Some(id)
  }

  predicate Asserts(e: Event, id: Id) {
    e.Assert? && e.fact.factId == id
  }

  /** Each id is asserted once. */
  ghost predicate Unique(log: Log) {
    forall i, j :: 0 <= i < j < |log| && log[i].Assert? && log[j].Assert? ==> log[i].fact.factId != log[j].fact.factId
  }

  /** A replacement comes after the fact it replaces and does not start before it. */
  ghost predicate Grounded(log: Log) {
    forall j, id :: 0 <= j < |log| && Replaces(log[j], id) ==>
      exists i :: 0 <= i < j && Asserts(log[i], id) && log[i].fact.validFrom <= log[j].fact.validFrom
  }

  /** Asserts are recorded open-ended. */
  ghost predicate Open(log: Log) {
    forall i :: 0 <= i < |log| && log[i].Assert? ==> log[i].fact.validTo.None?
  }

  ghost predicate Live(log: Log, j: nat, id: Id)
    requires j < |log|
  {
    Replaces(log[j], id) && log[j].fact.factId !in Retracted(log)
  }

  /** At most one superseder of each fact is neither retracted nor forgotten. */
  ghost predicate OneLive(log: Log) {
    forall i, j, id :: 0 <= i < j < |log| && Live(log, i, id) ==> !Live(log, j, id)
  }

  ghost predicate NoneLive(log: Log, id: Id) {
    forall j: nat :: j < |log| ==> !Live(log, j, id)
  }

  /** The fact was asserted again after a live superseder, or by it. */
  ghost predicate Reopened(log: Log, id: Id) {
    exists i: nat, k: nat :: i <= k < |log| && Live(log, i, id) && Asserts(log[k], id)
  }

  ghost predicate NoneReopened(log: Log) {
    forall id :: !Reopened(log, id)
  }

  ghost predicate Chained(log: Log) {
    OneLive(log) && NoneReopened(log)
  }

  /** Everything an operation can be asked to keep. */
  ghost predicate StaysSound(log: Log, log': Log) {
    && (Grounded(log) ==> Grounded(log'))
    && (Open(log) ==> Open(log'))
    && (Chained(log) ==> Chained(log'))
    && (Unique(log) ==> Unique(log'))
  }

  // ----- A live superseder shows -----

  lemma {:induction false} AssertedIsFound(log: Log, r: set<Id>, id: Id, i: nat)
    requires i < |log| && Asserts(log[i], id)
    ensures FoundIn(log, r, id).Some?
  {
    var n := |log| - 1;
    if i < n {
      assert log[..n][i] == log[i];
      AssertedIsFound(log[..n], r, id, i);
    }
  }

  /** A fact with a live superseder is closed, unless it was asserted again since. */
  lemma {:induction false} LiveShows(log: Log, r: set<Id>, id: Id, i: nat, j: nat)
    requires i < j < |log| && Asserts(log[i], id) && Replaces(log[j], id) && log[j].fact.factId !in r
    requires forall k :: j <= k < |log| ==> !Asserts(log[k], id)
    ensures FoundIn(log, r, id).Some? && FoundIn(log, r, id).value.validTo.Some?
    decreases |log|
  {
    var n := |log| - 1;
    assert log[..n][i] == log[i];
    if j == n {
      AssertedIsFound(log[..n], r, id, i);
    } else {
      assert log[..n][j] == log[j];
      LiveShows(log[..n], r, id, i, j);
    }
  }

  lemma PriorIsAsserted(log: Log, r: set<Id>, id: Id) returns (i: nat)
    requires FoundIn(log, r, id).Some?
    ensures i < |log| && Asserts(log[i], id) && log[i].fact.validFrom == FoundIn(log, r, id).value.validFrom
  {
    var n := |log| - 1;
    if Asserts(log[n], id) {
      i := n;
    } else {
      i := PriorIsAsserted(log[..n], r, id);
    }
  }

  /** What the check on a replacement lets through: a fact with a live superseder only if it was reopened. */
  lemma OpenMeansReopened(log: Log, id: Id, j: nat)
    requires Grounded(log) && j < |log| && Live(log, j, id)
    requires FactById(log, id).Some? && FactById(log, id).value.validTo.None?
    ensures Reopened(log, id)
  {
    var r := Retracted(log);
    SelectForExact(log, r, id);
    var i :| 0 <= i < j && Asserts(log[i], id);
    if forall k :: j <= k < |log| ==> !Asserts(log[k], id) {
      LiveShows(log, r, id, i, j);
    }
  }

  // ----- Events that assert nothing -----

  lemma GroundedPrefix(log: Log, e: Event)
    requires Grounded(log) && (e.Assert? && e.supersedes.Some? ==>
               exists i :: 0 <= i < |log| && Asserts(log[i], e.supersedes.value)
                 && log[i].fact.validFrom <= e.fact.validFrom)
    ensures Grounded(log + [e])
  {
    var log' := log + [e];
    forall j, id | 0 <= j < |log'| && Replaces(log'[j], id)
      ensures exists i :: 0 <= i < j && Asserts(log'[i], id) && log'[i].fact.validFrom <= log'[j].fact.validFrom
    {
      if j < |log| {
        var i :| 0 <= i < j && Asserts(log[i], id) && log[i].fact.validFrom <= log[j].fact.validFrom;
        assert log'[i] == log[i];
      } else {
        var i :| 0 <= i < |log| && Asserts(log[i], id) && log[i].fact.validFrom <= e.fact.validFrom;
        assert log'[i] == log[i];
      }
    }
  }

  /** Nothing old comes alive. */
  lemma OldLive(log: Log, e: Event, j: nat, id: Id)
    requires j < |log|
    ensures Live(log + [e], j, id) ==> Live(log, j, id)
    ensures e.Assert? ==> (Live(log + [e], j, id) <==> Live(log, j, id))
  {
    SetsSnoc(log, e);
  }

  lemma OldReopened(log: Log, e: Event, id: Id, i: nat, k: nat)
    requires i <= k < |log| && Live(log + [e], i, id) && Asserts((log + [e])[k], id)
    ensures Reopened(log, id)
  {
    OldLive(log, e, i, id);
    assert Asserts(log[k], id);
  }

  lemma OtherKeepsChained(log: Log, e: Event)
    requires Chained(log) && !e.Assert?
    ensures Chained(log + [e])
  {
    var log' := log + [e];
    forall i, j, id | 0 <= i < j < |log'| && Live(log', i, id)
      ensures !Live(log', j, id)
    {
      OldLive(log, e, i, id);
      if j < |log| {
        OldLive(log, e, j, id);
      }
    }
    forall id
      ensures !Reopened(log', id)
    {
      if Reopened(log', id) {
        var i: nat, k: nat :| i <= k < |log'| && Live(log', i, id) && Asserts(log'[k], id);
        OldReopened(log, e, id, i, k);
      }
    }
  }

  lemma AppendOther(log: Log, e: Event)
    requires !e.Assert?
    ensures StaysSound(log, log + [e])
  {
    if Grounded(log) {
      GroundedPrefix(log, e);
    }
    if Chained(log) {
      OtherKeepsChained(log, e);
    }
  }

  // ----- Asserts -----

  function Asserted(log: Log, input: AssertInput, now: Time): Log {
    log + [Assert(now, NewFact(input, now), input.supersedes)]
  }

  lemma AssertKeepsGrounded(log: Log, input: AssertInput, now: Time)
    requires Grounded(log) && MayAssert(log, input, now)
    ensures Grounded(Asserted(log, input, now))
  {
    if input.supersedes.Some? {
      SelectForExact(log, Retracted(log), input.supersedes.value);
      var i := PriorIsAsserted(log, Retracted(log), input.supersedes.value);
    }
    GroundedPrefix(log, Assert(now, NewFact(input, now), input.supersedes));
  }

  /** The log has two live superseders of the fact, the new event being one. */
  ghost predicate SecondLive(log: Log, input: AssertInput, now: Time, id: Id) {
    var log' := Asserted(log, input, now);
    Live(log', |log|, id) && exists i: nat :: i < |log| && Live(log', i, id)
  }

  /** One accepted assert: it makes a second live superseder exactly when what it supersedes was reopened, and the new
      id is not already retracted. */
  lemma SecondLiveExactly(log: Log, input: AssertInput, now: Time, id: Id)
    requires Grounded(log) && MayAssert(log, input, now) && input.supersedes == Some(id)
    ensures SecondLive(log, input, now, id) <==> input.factId !in Retracted(log) && Reopened(log, id)
  {
    var e := Assert(now, NewFact(input, now), input.supersedes);
    var log' := Asserted(log, input, now);
    SetsSnoc(log, e);
    if SecondLive(log, input, now, id) {
      var i: nat :| i < |log| && Live(log', i, id);
      OldLive(log, e, i, id);
      OpenMeansReopened(log, id, i);
    }
    if Reopened(log, id) {
      var i: nat, k: nat :| i <= k < |log| && Live(log, i, id) && Asserts(log[k], id);
      OldLive(log, e, i, id);
      assert Live(log', i, id);
    }
  }

  lemma AssertKeepsOneLive(log: Log, input: AssertInput, now: Time)
    requires Grounded(log) && MayAssert(log, input, now) && Chained(log)
    ensures OneLive(Asserted(log, input, now))
  {
    var e := Assert(now, NewFact(input, now), input.supersedes);
    var log' := Asserted(log, input, now);
    forall i, j, id | 0 <= i < j < |log'| && Live(log', i, id)
      ensures !Live(log', j, id)
    {
      OldLive(log, e, i, id);
      if j < |log| {
        OldLive(log, e, j, id);
      } else if Live(log', j, id) {
        SecondLiveExactly(log, input, now, id);
      }
    }
  }

  lemma AssertKeepsNoneReopened(log: Log, input: AssertInput, now: Time)
    requires NoneReopened(log) && NoneLive(Asserted(log, input, now), input.factId)
    ensures NoneReopened(Asserted(log, input, now))
  {
    var e := Assert(now, NewFact(input, now), input.supersedes);
    var log' := Asserted(log, input, now);
    forall id
      ensures !Reopened(log', id)
    {
      if Reopened(log', id) {
        var i: nat, k: nat :| i <= k < |log'| && Live(log', i, id) && Asserts(log'[k], id);
        if k < |log| {
          OldReopened(log, e, id, i, k);
        }
      }
    }
  }

  // ----- Erasure -----

  lemma EraseKeepsGrounded(log: Log, marks: map<Id, Mark>)
    requires Grounded(log)
    ensures Grounded(Erase(log, marks))
  {
    var log' := Erase(log, marks);
    EraseLength(log, marks);
    forall j, id | 0 <= j < |log'| && Replaces(log'[j], id)
      ensures exists i :: 0 <= i < j && Asserts(log'[i], id) && log'[i].fact.validFrom <= log'[j].fact.validFrom
    {
      assert Replaces(log[j], id);
      var i :| 0 <= i < j && Asserts(log[i], id) && log[i].fact.validFrom <= log[j].fact.validFrom;
      assert Asserts(log'[i], id);
    }
  }

  lemma ErasedLive(log: Log, marks: map<Id, Mark>, j: nat, id: Id)
    requires j < |log|
    ensures |Erase(log, marks)| == |log|
    ensures Live(Erase(log, marks), j, id) <==> Live(log, j, id)
    ensures Asserts(Erase(log, marks)[j], id) <==> Asserts(log[j], id)
  {
    EraseLength(log, marks);
    SetsErase(log, marks);
  }

  lemma EraseKeepsChained(log: Log, marks: map<Id, Mark>)
    requires Chained(log)
    ensures Chained(Erase(log, marks))
  {
    var log' := Erase(log, marks);
    EraseLength(log, marks);
    forall i, j, id | 0 <= i < j < |log'| && Live(log', i, id)
      ensures !Live(log', j, id)
    {
      ErasedLive(log, marks, i, id);
      ErasedLive(log, marks, j, id);
    }
    forall id
      ensures !Reopened(log', id)
    {
      if Reopened(log', id) {
        var i: nat, k: nat :| i <= k < |log'| && Live(log', i, id) && Asserts(log'[k], id);
        ErasedLive(log, marks, i, id);
        ErasedLive(log, marks, k, id);
        assert Reopened(log, id);
      }
    }
  }

  lemma EraseKeeps(log: Log, marks: map<Id, Mark>)
    ensures StaysSound(log, Erase(log, marks))
  {
    hide Grounded, Chained;
    EraseLength(log, marks);
    if Grounded(log) {
      EraseKeepsGrounded(log, marks);
    }
    if Chained(log) {
      EraseKeepsChained(log, marks);
    }
  }

  lemma ForgetKeeps(log: Log, keyed: bool, now: Time, id: Id, actor: string, keepDigest: bool)
    requires MayForget(log, id)
    ensures StaysSound(log, ForgetFact(log, keyed, now, id, actor, keepDigest))
  {
    hide Grounded, Chained, Unique, Open;
    var mark := MarkFor(FactById(log, id).value, keyed, keepDigest, now);
    EraseKeeps(log, map[id := mark]);
    AppendOther(Erase(log, map[id := mark]), Forget(now, id, actor, mark));
  }

  lemma {:induction false} SweepKeeps(log: Log, keyed: bool, now: Time, ids: seq<Id>, actor: string, keepDigest: bool)
    ensures StaysSound(log, SweepIds(log, keyed, now, ids, actor, keepDigest).0)
    decreases |ids|
  {
    hide Grounded, Chained, Unique, Open, Held, FactById, ForgetFact;
    if ids != [] {
      if Held(log, ids[0]) {
        SweepKeeps(log, keyed, now, ids[1..], actor, keepDigest);
      } else if MayForget(log, ids[0]) {
        ForgetKeeps(log, keyed, now, ids[0], actor, keepDigest);
        SweepKeeps(ForgetFact(log, keyed, now, ids[0], actor, keepDigest), keyed, now, ids[1..], actor, keepDigest);
      }
    }
  }

  // ----- Every operation -----

  /** The caller gives a new fact an id the ledger has not seen; a fresh UUID when it gives none. */
  ghost predicate FreshId(log: Log, op: Op) {
    op.DoAssert? ==> forall i :: 0 <= i < |log| ==> !Asserts(log[i], op.input.factId)
  }

  /** The operation asserts an id that something live then supersedes, perhaps the new fact itself. */
  ghost predicate Reopens(log: Log, keyed: bool, op: Op) {
    op.DoAssert? && Apply(log, keyed, op).1 && !NoneLive(Apply(log, keyed, op).0, op.input.factId)
  }

  /** A fresh id has no superseder. */
  lemma FreshReopensNothing(log: Log, keyed: bool, op: Op)
    requires Grounded(log) && FreshId(log, op)
    ensures !Reopens(log, keyed, op)
  {
    if Reopens(log, keyed, op) {
      AssertKeepsGrounded(log, op.input, op.now);
    }
  }

  lemma AssertKeeps(log: Log, input: AssertInput, now: Time)
    requires Grounded(log) && MayAssert(log, input, now)
    ensures Grounded(Asserted(log, input, now))
    ensures Open(log) ==> Open(Asserted(log, input, now))
    ensures Chained(log) && NoneLive(Asserted(log, input, now), input.factId) ==> Chained(Asserted(log, input, now))
    ensures Unique(log) && (forall i :: 0 <= i < |log| ==> !Asserts(log[i], input.factId)) ==>
            Unique(Asserted(log, input, now))
  {
    AssertKeepsGrounded(log, input, now);
    if Chained(log) && NoneLive(Asserted(log, input, now), input.factId) {
      AssertKeepsOneLive(log, input, now);
      AssertKeepsNoneReopened(log, input, now);
    }
  }

  lemma OtherOpKeeps(log: Log, keyed: bool, op: Op)
    requires !op.DoAssert?
    ensures StaysSound(log, Apply(log, keyed, op).0)
  {
    hide Grounded, Chained, Unique, Open, Held, FactById, ForgetFact, RetractedAt, ConfirmedAt, SweepIds;
    var r := Apply(log, keyed, op);
    if op.DoSweep? {
      SweepKeeps(log, keyed, op.now, LearnedBefore(log, op.before, op.space), op.actor, op.keepDigest);
    } else if r.1 {
      if op.DoForget? {
        ForgetKeeps(log, keyed, op.now, op.id, op.actor, op.keepDigest);
      } else {
        AppendOther(log, r.0[|log|]);
      }
    }
  }

  lemma ApplyKeeps(log: Log, keyed: bool, op: Op)
    requires Grounded(log) && Open(log)
    ensures Grounded(Apply(log, keyed, op).0) && Open(Apply(log, keyed, op).0)
    ensures Chained(log) && !Reopens(log, keyed, op) ==> Chained(Apply(log, keyed, op).0)
    ensures Unique(log) && FreshId(log, op) ==> Unique(Apply(log, keyed, op).0)
  {
    hide Grounded, Chained, Unique, Open, MayAssert, NoneLive;
    if !op.DoAssert? {
      OtherOpKeeps(log, keyed, op);
    } else if MayAssert(log, op.input, op.now) {
      AssertKeeps(log, op.input, op.now);
    }
  }

  // ----- Runs -----

  /** In every ledger the operations can build, whatever ids they are given. */
  lemma {:induction false} AlwaysGrounded(keyed: bool, ops: seq<Op>)
    ensures Grounded(Run([], keyed, ops)) && Open(Run([], keyed, ops))
    decreases |ops|
  {
    if ops != [] {
      var n := |ops| - 1;
      AlwaysGrounded(keyed, ops[..n]);
      ApplyKeeps(Run([], keyed, ops[..n]), keyed, ops[n]);
    }
  }

  ghost predicate NeverReopens(keyed: bool, ops: seq<Op>) {
    forall i :: 0 <= i < |ops| ==> !Reopens(Run([], keyed, ops[..i]), keyed, ops[i])
  }

  ghost predicate FreshIds(keyed: bool, ops: seq<Op>) {
    forall i :: 0 <= i < |ops| ==> FreshId(Run([], keyed, ops[..i]), ops[i])
  }

  /** Two live superseders of one fact: in every ledger, an accepted assert brings about the second exactly when the
      fact was asserted again after the first, and the new id is not already retracted. */
  lemma ForksExactly(keyed: bool, ops: seq<Op>, input: AssertInput, now: Time, id: Id)
    requires MayAssert(Run([], keyed, ops), input, now) && input.supersedes == Some(id)
    ensures var log := Run([], keyed, ops);
            SecondLive(log, input, now, id) <==> input.factId !in Retracted(log) && Reopened(log, id)
  {
    AlwaysGrounded(keyed, ops);
    SecondLiveExactly(Run([], keyed, ops), input, now, id);
  }

  /** So ids may be used again: as long as none is asserted again while something live supersedes it, no fact ever has
      two live superseders. */
  lemma {:induction false} OneLiveUnlessReopened(keyed: bool, ops: seq<Op>)
    requires NeverReopens(keyed, ops)
    ensures OneLive(Run([], keyed, ops)) && NoneReopened(Run([], keyed, ops))
    decreases |ops|
  {
    hide Apply, Grounded, Open;
    if ops != [] {
      var n := |ops| - 1;
      forall i | 0 <= i < n
        ensures !Reopens(Run([], keyed, ops[..n][..i]), keyed, ops[..n][i])
      {
        assert ops[..n][..i] == ops[..i];
      }
      OneLiveUnlessReopened(keyed, ops[..n]);
      AlwaysGrounded(keyed, ops[..n]);
      ApplyKeeps(Run([], keyed, ops[..n]), keyed, ops[n]);
    }
  }

  ghost predicate LedgerInv(log: Log) {
    Unique(log) && Grounded(log) && Open(log) && OneLive(log)
  }

  lemma {:induction false} FreshIsUnique(keyed: bool, ops: seq<Op>)
    requires FreshIds(keyed, ops)
    ensures Unique(Run([], keyed, ops)) && NeverReopens(keyed, ops)
    decreases |ops|
  {
    hide Apply, Grounded, Open, Unique, Reopens, FreshId;
    if ops != [] {
      var n := |ops| - 1;
      forall i | 0 <= i < n
        ensures FreshId(Run([], keyed, ops[..n][..i]), ops[..n][i])
      {
        assert ops[..n][..i] == ops[..i];
      }
      FreshIsUnique(keyed, ops[..n]);
      AlwaysGrounded(keyed, ops[..n]);
      ApplyKeeps(Run([], keyed, ops[..n]), keyed, ops[n]);
      FreshReopensNothing(Run([], keyed, ops[..n]), keyed, ops[n]);
      forall i | 0 <= i < |ops|
        ensures !Reopens(Run([], keyed, ops[..i]), keyed, ops[i])
      {
        if i < n {
          assert ops[..n][..i] == ops[..i] && ops[..n][i] == ops[i];
          assert !Reopens(Run([], keyed, ops[..n][..i]), keyed, ops[..n][i]);
        }
      }
    } else {
      UniqueEmpty();
    }
  }

  lemma UniqueEmpty()
    ensures Unique([])
  {
  }

  /** In every ledger built by operations whose new facts get new ids. */
  lemma {:induction false} ReachableInv(keyed: bool, ops: seq<Op>)
    requires FreshIds(keyed, ops)
    ensures LedgerInv(Run([], keyed, ops))
  {
    AlwaysGrounded(keyed, ops);
    FreshIsUnique(keyed, ops);
    OneLiveUnlessReopened(keyed, ops);
  }

  // ----- A run that forks -----

  lemma FoundSnoc(log: Log, e: Event, id: Id)
    requires !e.Retract? && !e.Forget?
    ensures Retracted(log + [e]) == Retracted(log)
    ensures FactById(log + [e], id) ==
            if Asserts(e, id) then Some(e.fact)
            else if Replaces(e, id) && FactById(log, id).Some? && e.fact.factId !in Retracted(log)
            then Some(FactById(log, id).value.(validTo := Some(e.fact.validFrom)))
            else FactById(log, id)
    ensures RetractedAt(log + [e], id) == RetractedAt(log, id)
  {
    SetsSnoc(log, e);
    SelectForExact(log, Retracted(log), id);
    SelectForExact(log + [e], Retracted(log), id);
    assert (log + [e])[..|log|] == log;
  }

  /** One accepted assert more. */
  lemma OneMore(keyed: bool, ops: seq<Op>, input: AssertInput, now: Time)
    requires MayAssert(Run([], keyed, ops), input, now)
    ensures Run([], keyed, ops + [DoAssert(now, input)]) == Asserted(Run([], keyed, ops), input, now)
  {
    assert (ops + [DoAssert(now, input)])[..|ops|] == ops;
  }

  /** Where nothing was retracted, the fact a plain assert leaves open is open for a replacement. */
  lemma OpenAfter(log: Log, input: AssertInput, now: Time)
    requires Retracted(log) == {} && input.supersedes.None?
    ensures var log' := Asserted(log, input, now);
            && Retracted(log') == {}
            && FactById(log', input.factId) == Some(NewFact(input, now)) && !RetractedAt(log', input.factId)
  {
    FoundSnoc(log, Assert(now, NewFact(input, now), None), input.factId);
    SelectForExact(Asserted(log, input, now), {}, input.factId);
  }

  /** A first assert, in any ledger that is still empty. */
  lemma FirstAssert(keyed: bool, a: AssertInput, now: Time)
    requires a.supersedes.None?
    ensures var log := Run([], keyed, [DoAssert(now, a)]);
            && log == Asserted([], a, now) && Retracted(log) == {}
            && FactById(log, a.factId) == Some(NewFact(a, now)) && !RetractedAt(log, a.factId)
  {
    OneMore(keyed, [], a, now);
    assert [] + [DoAssert(now, a)] == [DoAssert(now, a)];
    OpenAfter([], a, now);
  }

  /** And its replacement. */
  lemma ThenReplaced(keyed: bool, a: AssertInput, b: AssertInput, now: Time)
    requires a.supersedes.None? && b.supersedes == Some(a.factId) && StartOf(a, now) <= StartOf(b, now)
    ensures var log := Run([], keyed, [DoAssert(now, a), DoAssert(now, b)]);
            log == Asserted(Asserted([], a, now), b, now) && Retracted(log) == {}
  {
    FirstAssert(keyed, a, now);
    OneMore(keyed, [DoAssert(now, a)], b, now);
    SetsSnoc(Asserted([], a, now), Assert(now, NewFact(b, now), b.supersedes));
    assert [DoAssert(now, a)] + [DoAssert(now, b)] == [DoAssert(now, a), DoAssert(now, b)];
  }

  /** Such runs exist, with any contents: an id asserted, superseded and asserted again is open for a second
      superseder. */
  lemma ReusedIdForks(keyed: bool, a: AssertInput, b: AssertInput, again: AssertInput, c: AssertInput, now: Time)
    requires a.supersedes.None? && b.supersedes == Some(a.factId) && StartOf(a, now) <= StartOf(b, now)
    requires again.factId == a.factId && again.supersedes.None?
    requires c.supersedes == Some(a.factId) && StartOf(again, now) <= StartOf(c, now)
    ensures var log := Run([], keyed, [DoAssert(now, a), DoAssert(now, b), DoAssert(now, again)]);
            MayAssert(log, c, now) && SecondLive(log, c, now, a.factId)
  {
    hide Run, FactById, RetractedAt;
    var two := [DoAssert(now, a), DoAssert(now, b)];
    var log := Asserted(Run([], keyed, two), again, now);
    ThenReplaced(keyed, a, b, now);
    OneMore(keyed, two, again, now);
    assert two + [DoAssert(now, again)] == [DoAssert(now, a), DoAssert(now, b), DoAssert(now, again)];
    OpenAfter(Run([], keyed, two), again, now);
    AlwaysGrounded(keyed, two + [DoAssert(now, again)]);
    assert Live(log, 1, a.factId) && Asserts(log[2], a.factId);
    SecondLiveExactly(log, c, now, a.factId);
  }
}
