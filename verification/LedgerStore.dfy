/** The ledger and its in-memory store as the objects they are: each question a loop over events, each operation an
    append or an in-place rewrite, tied to the log functions. */
module LedgerStore {
  import opened Options
  import opened FactLog
  import L = Ledger

  class JsonlStore {
    var events: Log

    constructor (events: Log)
      ensures this.events == events
    {
      this.events := events;
    }

    /** The matched facts, then everything that supersedes them, then every event about either. */
    method EventsAbout(q: Query) returns (known: Log)
      ensures known == SelectAbout(events, q)
    {
      var ids := MatchedIds(q);
      ids := CloseOver(ids);
      known := [];
      var i := 0;
      while i < |events|
        invariant 0 <= i <= |events| && known == Cut(Only(events[..i], ids), q.txAt)
      {
        var e := events[i];
        assert events[..i + 1] == events[..i] + [e];
        OnlySnoc(events[..i], e, ids);
        CutSnoc(Only(events[..i], ids), e, q.txAt);
        if FactIdOf(e) in ids && e.tx <= q.txAt {
          known := known + [e];
        }
        i := i + 1;
      }
      assert events[..i] == events;
    }

    method MatchedIds(q: Query) returns (ids: set<Id>)
      ensures ids == Matched(events, q)
    {
      ids := {};
      var i := 0;
      while i < |events|
        invariant 0 <= i <= |events| && ids == Matched(events[..i], q)
      {
        var e := events[i];
        assert events[..i + 1][..i] == events[..i];
        if e.Assert? && e.tx <= q.txAt && About(e.fact, q) {
          ids := ids + {e.fact.factId};
        }
        i := i + 1;
      }
      assert events[..i] == events;
    }

    method CloseOver(matched: set<Id>) returns (ids: set<Id>)
      ensures ids == Closed(events, matched)
    {
      ids := matched;
      var i := 0;
      while i < |events|
        invariant 0 <= i <= |events| && ids == Closed(events[..i], matched)
      {
        var e := events[i];
        assert events[..i + 1][..i] == events[..i];
        if e.Assert? && e.supersedes.Some? && e.supersedes.value != "" && e.supersedes.value in ids {
          ids := ids + {e.fact.factId};
        }
        i := i + 1;
      }
      assert events[..i] == events;
    }

    method EventsFor(id: Id) returns (touched: Log)
      ensures touched == SelectFor(events, id)
    {
      touched := [];
      var i := 0;
      while i < |events|
        invariant 0 <= i <= |events| && touched == SelectFor(events[..i], id)
      {
        var e := events[i];
        assert events[..i + 1][..i] == events[..i];
        if FactIdOf(e) == id || (e.Assert? && e.supersedes == Some(id)) {
          touched := touched + [e];
        }
        i := i + 1;
      }
      assert events[..i] == events;
    }

    method Append(e: Event)
      modifies this
      ensures events == old(events) + [e]
    {
      events := events + [e];
    }

    /** Rewrites every assert of the fact in place. */
    method EraseAsserts(id: Id, mark: Mark)
      modifies this
      ensures events == L.Erase(old(events), map[id := mark])
    {
      var all: Log := [];
      var i := 0;
      while i < |events|
        invariant 0 <= i <= |events| && events == old(events)
        invariant all == L.Erase(events[..i], map[id := mark])
      {
        var e := events[i];
        assert events[..i + 1][..i] == events[..i];
        if e.Assert? && e.fact.factId == id {
          all := all + [e.(fact := e.fact.(value := None, forgotten := Some(mark)))];
        } else {
          all := all + [e];
        }
        i := i + 1;
      }
      assert events[..i] == events;
      events := all;
    }
  }

  class Ledger {
    const store: JsonlStore
    const keyed: bool

    constructor (store: JsonlStore, keyed: bool)
      ensures this.store == store && this.keyed == keyed
    {
      this.store, this.keyed := store, keyed;
    }

    /** What was believed: the same facts, in the same order, as filtering every event recorded by txAt. */
    method AsOf(q: Query) returns (believed: seq<Fact>)
      ensures believed == FullRead(store.events, q)
    {
      var known := store.EventsAbout(q);
      SelectAboutExact(store.events, q);
      var retracted, confirmed := Retracted(known), Confirmed(known);
      var t := Table([], map[]);
      var i := 0;
      while i < |known|
        invariant 0 <= i <= |known| && t == Scan(known[..i], retracted, confirmed)
      {
        var e := known[i];
        assert known[..i + 1][..i] == known[..i];
        if e.Assert? {
          t := Put(t, e.fact.factId, if e.fact.factId in confirmed then e.fact.(provenance := Attested) else e.fact);
          if e.supersedes.Some? && e.supersedes.value != "" && e.supersedes.value in t.facts
            && e.fact.factId !in retracted {
            var prior := t.facts[e.supersedes.value];
            t := t.(facts := t.facts[e.supersedes.value := prior.(validTo := Some(e.fact.validFrom))]);
          }
        }
        i := i + 1;
      }
      assert known[..i] == known;
      believed := [];
      i := 0;
      while i < |t.order|
        invariant 0 <= i <= |t.order| && believed == Kept(t.order[..i], t.facts, retracted, q)
      {
        var id := t.order[i];
        assert t.order[..i + 1][..i] == t.order[..i];
        if id in t.facts && Keeps(t.facts[id], retracted, q) {
          believed := believed + [t.facts[id]];
        }
        i := i + 1;
      }
      assert t.order[..i] == t.order;
    }

    method RetractedAt(id: Id) returns (b: bool)
      ensures b == L.RetractedAt(store.events, id) == (id in Retracted(store.events))
    {
      var touched := store.EventsFor(id);
      L.SelectForExact(store.events, {}, id);
      b := id in Retracted(touched);
    }

    method FactById(id: Id) returns (found: Option<Fact>)
      ensures found == L.FactById(store.events, id)
    {
      var touched := store.EventsFor(id);
      found := None;
      var i := 0;
      while i < |touched|
        invariant 0 <= i <= |touched| && found == L.FoundIn(touched[..i], Retracted(store.events), id)
      {
        var e := touched[i];
        assert touched[..i + 1][..i] == touched[..i];
        if e.Assert? && e.fact.factId == id {
          found := Some(e.fact);
        } else if e.Assert? && e.supersedes == Some(id) && found.Some? {
          var dead := RetractedAt(e.fact.factId);
          if !dead {
            found := Some(found.value.(validTo := Some(e.fact.validFrom)));
          }
        }
        i := i + 1;
      }
      assert touched[..i] == touched;
    }

    method HeldNow(id: Id) returns (held: bool)
      ensures held == L.Held(store.events, id)
    {
      var touched := store.EventsFor(id);
      held := false;
      var i := 0;
      while i < |touched|
        invariant 0 <= i <= |touched| && held == L.HeldIn(touched[..i], id)
      {
        var e := touched[i];
        assert touched[..i + 1][..i] == touched[..i];
        if (e.Hold? || e.Release?) && e.about == id {
          held := e.Hold?;
        }
        i := i + 1;
      }
      assert touched[..i] == touched;
    }

    method Assert(now: Time, input: L.AssertInput) returns (ok: bool)
      modifies store
      ensures (store.events, ok) == L.Apply(old(store.events), keyed, L.DoAssert(now, input))
    {
      var validFrom := if input.validFrom.Some? then input.validFrom.value else now;
      if input.supersedes.Some? {
        var prior := FactById(input.supersedes.value);
        if prior.None? || prior.value.validTo.Some? { return false; }
        var dead := RetractedAt(input.supersedes.value);
        if dead || validFrom < prior.value.validFrom { return false; }
      }
      store.Append(Event.Assert(now, L.NewFact(input, now), input.supersedes));
      ok := true;
    }

    method Retract(now: Time, id: Id, actor: string) returns (ok: bool)
      modifies store
      ensures (store.events, ok) == L.Apply(old(store.events), keyed, L.DoRetract(now, id, actor))
    {
      var prior := FactById(id);
      if prior.None? { return false; }
      var dead := RetractedAt(id);
      if dead { return false; }
      store.Append(Event.Retract(now, id, actor));
      ok := true;
    }

    method Confirm(now: Time, id: Id, actor: string) returns (ok: bool)
      modifies store
      ensures (store.events, ok) == L.Apply(old(store.events), keyed, L.DoConfirm(now, id, actor))
    {
      var prior := FactById(id);
      if prior.None? { return false; }
      var dead := RetractedAt(id);
      if dead || prior.value.provenance != Claimed { return false; }
      var touched := store.EventsFor(id);
      if id in Confirmed(touched) { return false; }
      store.Append(Event.Confirm(now, id, actor));
      ok := true;
    }

    method Hold(now: Time, id: Id, actor: string) returns (ok: bool)
      modifies store
      ensures (store.events, ok) == L.Apply(old(store.events), keyed, L.DoHold(now, id, actor))
    {
      var prior := FactById(id);
      if prior.None? || prior.value.forgotten.Some? { return false; }
      var held := HeldNow(id);
      if held { return false; }
      store.Append(Event.Hold(now, id, actor));
      ok := true;
    }

    method Release(now: Time, id: Id, actor: string) returns (ok: bool)
      modifies store
      ensures (store.events, ok) == L.Apply(old(store.events), keyed, L.DoRelease(now, id, actor))
    {
      var held := HeldNow(id);
      if !held { return false; }
      store.Append(Event.Release(now, id, actor));
      ok := true;
    }

    method Forget(now: Time, id: Id, actor: string, keepDigest: bool) returns (ok: bool)
      modifies store
      ensures (store.events, ok) == L.Apply(old(store.events), keyed, L.DoForget(now, id, actor, keepDigest))
    {
      var prior := FactById(id);
      if prior.None? || prior.value.forgotten.Some? { return false; }
      var held := HeldNow(id);
      if held { return false; }
      var mark := L.MarkFor(prior.value, keyed, keepDigest, now);
      store.EraseAsserts(id, mark);
      store.Append(Event.Forget(now, id, actor, mark));
      ok := true;
    }

    method Sweep(now: Time, before: Time, space: Option<string>, actor: string, keepDigest: bool) returns (ok: bool)
      modifies store
      ensures (store.events, ok) == L.Apply(old(store.events), keyed, L.DoSweep(now, before, space, actor, keepDigest))
    {
      hide L.LearnedBefore, L.SelectBefore, L.FactById, L.HeldIn, L.ForgetFact, SelectFor;
      L.SweepSelectionExact(store.events, before, space);
      var ids := L.LearnedBefore(L.SelectBefore(store.events, before, space), before, space);
      ghost var goal := L.SweepIds(store.events, keyed, now, ids, actor, keepDigest);
      var i := 0;
      while i < |ids|
        invariant 0 <= i <= |ids| && goal == L.SweepIds(store.events, keyed, now, ids[i..], actor, keepDigest)
      {
        assert ids[i..][0] == ids[i] && ids[i..][1..] == ids[i + 1..];
        var held := HeldNow(ids[i]);
        if !held {
          var forgotten := Forget(now, ids[i], actor, keepDigest);
          if !forgotten { return false; }
        }
        i := i + 1;
      }
      ok := true;
    }
  }
}
