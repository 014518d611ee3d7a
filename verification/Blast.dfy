/** Blast radius: from one fact, every receipt of a call made after the agent had been shown it, and every fact
    written in one of those calls, until nothing more is reached. */
module Blast {
  import opened Options
  import opened FactLog

  /** The parts of a receipt the query needs. */
  datatype Summary = Summary(receiptId: string, timestamp: Time, consumed: seq<Id>)

  /** The call behind r had been shown the root or one of the facts. */
  predicate Shows(r: Summary, root: Id, facts: set<Id>) {
    exists id :: id in r.consumed && (id == root || id in facts)
  }

  /** f was written in a call whose receipt is among those named. */
  predicate WrittenIn(f: Fact, root: Id, receipts: set<string>) {
    f.factId != root && f.receiptId.Some? && f.receiptId.value != "" && f.receiptId.value in receipts
  }

  /** Nothing is reached from these receipts and facts but these receipts and facts. */
  ghost predicate ClosedSets(receipts: seq<Summary>, all: seq<Fact>, root: Id, rs: set<string>, fs: set<Id>) {
    && (forall i :: 0 <= i < |receipts| && Shows(receipts[i], root, fs) ==> receipts[i].receiptId in rs)
    && (forall i :: 0 <= i < |all| && WrittenIn(all[i], root, rs) ==> all[i].factId in fs)
  }

  /** The least such sets. */
  ghost predicate LeastClosed(receipts: seq<Summary>, all: seq<Fact>, root: Id, rs: set<string>, fs: set<Id>) {
    && ClosedSets(receipts, all, root, rs, fs)
    && forall rs', fs' :: ClosedSets(receipts, all, root, rs', fs') ==> rs <= rs' && fs <= fs'
  }

  ghost predicate WithinEvery(receipts: seq<Summary>, all: seq<Fact>, root: Id, rs: set<string>, fs: set<Id>) {
    forall rs', fs' :: ClosedSets(receipts, all, root, rs', fs') ==> rs <= rs' && fs <= fs'
  }

  lemma AddReceipt(receipts: seq<Summary>, all: seq<Fact>, root: Id, rs: set<string>, fs: set<Id>, i: nat)
    requires WithinEvery(receipts, all, root, rs, fs) && i < |receipts| && Shows(receipts[i], root, fs)
    ensures WithinEvery(receipts, all, root, rs + {receipts[i].receiptId}, fs)
  {
    forall rs', fs' | ClosedSets(receipts, all, root, rs', fs')
      ensures rs + {receipts[i].receiptId} <= rs' && fs <= fs'
    {
      assert Shows(receipts[i], root, fs');
    }
  }

  lemma AddFact(receipts: seq<Summary>, all: seq<Fact>, root: Id, rs: set<string>, fs: set<Id>, i: nat)
    requires WithinEvery(receipts, all, root, rs, fs) && i < |all| && WrittenIn(all[i], root, rs)
    ensures WithinEvery(receipts, all, root, rs, fs + {all[i].factId})
  {
    forall rs', fs' | ClosedSets(receipts, all, root, rs', fs')
      ensures rs <= rs' && fs + {all[i].factId} <= fs'
    {
      assert WrittenIn(all[i], root, rs');
    }
  }

  function ReceiptIds(receipts: seq<Summary>): set<string> {
    set i | 0 <= i < |receipts| :: receipts[i].receiptId
  }

  function FactIds(all: seq<Fact>): set<Id> {
    set i | 0 <= i < |all| :: all[i].factId
  }

  ghost predicate HitsFrom(hit: map<string, Summary>, receipts: seq<Summary>) {
    forall k :: k in hit ==> hit[k] in receipts && hit[k].receiptId == k
  }

  ghost predicate FactsFrom(derived: map<Id, Fact>, all: seq<Fact>) {
    forall k :: k in derived ==> derived[k] in all && derived[k].factId == k
  }

  /** Either nothing was added, or the rest of the universe shrank. */
  ghost predicate Progress<T>(universe: set<T>, before: set<T>, after: set<T>, grew: bool) {
    before <= after <= universe && (grew <==> before != after)
  }

  lemma ProgressStep<T>(universe: set<T>, before: set<T>, now: set<T>, grew: bool, x: T)
    requires Progress(universe, before, now, grew) && x in universe && x !in now
    ensures Progress(universe, before, now + {x}, true)
  {
    assert x in now + {x};
  }

  lemma ProgressShrinks<T>(universe: set<T>, before: set<T>, after: set<T>, grew: bool)
    requires Progress(universe, before, after, grew)
    ensures |universe - after| <= |universe - before|
    ensures grew ==> |universe - after| < |universe - before|
  {
    assert universe - before == (universe - after) + (after - before);
    if grew {
      assert exists x :: x in after && x !in before;
      assert after - before != {};
    }
  }

  /** The query's fixpoint loop: it ends, and returns exactly the least closure. */
  method BlastRadius(receipts: seq<Summary>, all: seq<Fact>, root: Id)
    returns (hit: map<string, Summary>, derived: map<Id, Fact>)
    ensures LeastClosed(receipts, all, root, hit.Keys, derived.Keys)
    ensures HitsFrom(hit, receipts) && FactsFrom(derived, all)
  {
    hit, derived := map[], map[];
    var seen := {root};
    var grew := true;
    ghost var rids, fids := ReceiptIds(receipts), FactIds(all);
    while grew
      invariant seen == {root} + derived.Keys
      invariant hit.Keys <= rids && derived.Keys <= fids
      invariant WithinEvery(receipts, all, root, hit.Keys, derived.Keys)
      invariant !grew ==> ClosedSets(receipts, all, root, hit.Keys, derived.Keys)
      invariant HitsFrom(hit, receipts) && FactsFrom(derived, all)
      decreases |rids - hit.Keys| + |fids - derived.Keys|, grew
    {
      var hit', grewReceipts := SweepReceipts(receipts, all, root, seen, hit, derived.Keys, rids);
      var derived', seen', grewFacts := SweepFacts(receipts, all, root, seen, hit', derived, fids);
      ProgressShrinks(rids, hit.Keys, hit'.Keys, grewReceipts);
      ProgressShrinks(fids, derived.Keys, derived'.Keys, grewFacts);
      hit, derived, seen, grew := hit', derived', seen', grewReceipts || grewFacts;
    }
  }

  /** One pass over the receipts. */
  method SweepReceipts(receipts: seq<Summary>, ghost all: seq<Fact>, root: Id, seen: set<Id>,
                       hit0: map<string, Summary>, ghost fs: set<Id>, ghost rids: set<string>)
    returns (hit: map<string, Summary>, grew: bool)
    requires seen == {root} + fs && WithinEvery(receipts, all, root, hit0.Keys, fs) && HitsFrom(hit0, receipts)
    requires hit0.Keys <= rids && forall i :: 0 <= i < |receipts| ==> receipts[i].receiptId in rids
    ensures WithinEvery(receipts, all, root, hit.Keys, fs) && HitsFrom(hit, receipts)
    ensures forall i :: 0 <= i < |receipts| && Shows(receipts[i], root, fs) ==> receipts[i].receiptId in hit
    ensures Progress(rids, hit0.Keys, hit.Keys, grew)
  {
    hide WithinEvery;
    hit, grew := hit0, false;
    for i := 0 to |receipts|
      invariant WithinEvery(receipts, all, root, hit.Keys, fs) && HitsFrom(hit, receipts)
      invariant forall j :: 0 <= j < i && Shows(receipts[j], root, fs) ==> receipts[j].receiptId in hit
      invariant Progress(rids, hit0.Keys, hit.Keys, grew)
    {
      var r := receipts[i];
      var shown := exists id :: id in r.consumed && id in seen;
      assert shown == Shows(r, root, fs);
      hide Shows;
      if r.receiptId !in hit && shown {
        AddReceipt(receipts, all, root, hit.Keys, fs, i);
        ProgressStep(rids, hit0.Keys, hit.Keys, grew, r.receiptId);
        var hit' := hit[r.receiptId := r];
        assert hit'.Keys == hit.Keys + {r.receiptId};
        hit, grew := hit', true;
      }
    }
  }

  /** One pass over the facts. */
  method SweepFacts(ghost receipts: seq<Summary>, all: seq<Fact>, root: Id, seen0: set<Id>, hit: map<string, Summary>,
                    derived0: map<Id, Fact>, ghost fids: set<Id>)
    returns (derived: map<Id, Fact>, seen: set<Id>, grew: bool)
    requires seen0 == {root} + derived0.Keys && WithinEvery(receipts, all, root, hit.Keys, derived0.Keys)
             && FactsFrom(derived0, all)
    requires derived0.Keys <= fids && forall i :: 0 <= i < |all| ==> all[i].factId in fids
    ensures seen == {root} + derived.Keys && WithinEvery(receipts, all, root, hit.Keys, derived.Keys)
            && FactsFrom(derived, all)
    ensures forall i :: 0 <= i < |all| && WrittenIn(all[i], root, hit.Keys) ==> all[i].factId in derived
    ensures Progress(fids, derived0.Keys, derived.Keys, grew)
  {
    hide WithinEvery;
    derived, seen, grew := derived0, seen0, false;
    for i := 0 to |all|
      invariant seen == {root} + derived.Keys && WithinEvery(receipts, all, root, hit.Keys, derived.Keys)
                && FactsFrom(derived, all)
      invariant forall j :: 0 <= j < i && WrittenIn(all[j], root, hit.Keys) ==> all[j].factId in derived
      invariant Progress(fids, derived0.Keys, derived.Keys, grew)
    {
      var f := all[i];
      var written := f.factId != root && f.receiptId.Some? && f.receiptId.value != "" && f.receiptId.value in hit;
      assert written == WrittenIn(f, root, hit.Keys);
      hide WrittenIn;
      if f.factId !in derived && written {
        AddFact(receipts, all, root, hit.Keys, derived.Keys, i);
        ProgressStep(fids, derived0.Keys, derived.Keys, grew, f.factId);
        var derived' := derived[f.factId := f];
        assert derived'.Keys == derived.Keys + {f.factId};
        derived, seen, grew := derived', seen + {f.factId}, true;
      }
    }
  }

  lemma SameClosedSets(receipts: seq<Summary>, receipts': seq<Summary>, all: seq<Fact>, all': seq<Fact>, root: Id,
      rs: set<string>, fs: set<Id>)
    requires forall r :: r in receipts' ==> r in receipts
    requires forall f :: f in all' ==> f in all
    requires ClosedSets(receipts, all, root, rs, fs)
    ensures ClosedSets(receipts', all', root, rs, fs)
  {
    forall i | 0 <= i < |receipts'| && Shows(receipts'[i], root, fs)
      ensures receipts'[i].receiptId in rs
    {
      assert receipts'[i] in receipts;
    }
    forall i | 0 <= i < |all'| && WrittenIn(all'[i], root, rs)
      ensures all'[i].factId in fs
    {
      assert all'[i] in all;
    }
  }

  /** The order the lists come in, and repetitions in them, change nothing. */
  lemma OrderIsIrrelevant(receipts: seq<Summary>, receipts': seq<Summary>, all: seq<Fact>, all': seq<Fact>, root: Id,
                          rs: set<string>, fs: set<Id>, rs': set<string>, fs': set<Id>)
    requires forall r :: r in receipts <==> r in receipts'
    requires forall f :: f in all <==> f in all'
    requires LeastClosed(receipts, all, root, rs, fs) && LeastClosed(receipts', all', root, rs', fs')
    ensures rs == rs' && fs == fs'
  {
    SameClosedSets(receipts, receipts', all, all', root, rs, fs);
    SameClosedSets(receipts', receipts, all', all, root, rs', fs');
  }

  // ----- Least sets are what chains reach -----

  /** Fact b was written in a call that was made after the agent had been shown a. */
  ghost predicate Link(receipts: seq<Summary>, all: seq<Fact>, a: Id, b: Id) {
    exists i, j ::
      && 0 <= i < |receipts| && 0 <= j < |all| && a in receipts[i].consumed
      && all[j].factId == b && all[j].receiptId == Some(receipts[i].receiptId) && receipts[i].receiptId != ""
  }

  /** Facts from the root on, each written in view of the one before. */
  ghost predicate ChainFrom(receipts: seq<Summary>, all: seq<Fact>, root: Id, ids: seq<Id>) {
    && ids != [] && ids[0] == root
    && forall k :: 0 < k < |ids| ==> ids[k] != root && Link(receipts, all, ids[k - 1], ids[k])
  }

  /** A chain from the root ends at the fact. */
  ghost predicate Reaches(receipts: seq<Summary>, all: seq<Fact>, root: Id, id: Id) {
    exists ids :: ChainFrom(receipts, all, root, ids) && ids[|ids| - 1] == id
  }

  lemma ReachesNext(receipts: seq<Summary>, all: seq<Fact>, root: Id, a: Id, b: Id)
    requires Reaches(receipts, all, root, a) && b != root && Link(receipts, all, a, b)
    ensures Reaches(receipts, all, root, b)
  {
    var ids :| ChainFrom(receipts, all, root, ids) && ids[|ids| - 1] == a;
    assert ChainFrom(receipts, all, root, ids + [b]);
  }

  lemma {:induction false} ChainStaysInside(receipts: seq<Summary>, all: seq<Fact>, root: Id, rs: set<string>,
      fs: set<Id>, ids: seq<Id>)
    requires ClosedSets(receipts, all, root, rs, fs) && ChainFrom(receipts, all, root, ids)
    ensures ids[|ids| - 1] == root || ids[|ids| - 1] in fs
    decreases |ids|
  {
    var n := |ids| - 1;
    if n > 0 {
      ChainStaysInside(receipts, all, root, rs, fs, ids[..n]);
      var i, j :| 0 <= i < |receipts| && 0 <= j < |all| && ids[n - 1] in receipts[i].consumed
                  && all[j].factId == ids[n] && all[j].receiptId == Some(receipts[i].receiptId)
                  && receipts[i].receiptId != "";
      assert Shows(receipts[i], root, fs);
      assert WrittenIn(all[j], root, rs);
    }
  }

  /** The call was made after the agent had been shown a fact a chain ends at. */
  ghost predicate SawOne(receipts: seq<Summary>, all: seq<Fact>, root: Id, r: Summary) {
    exists id :: id in r.consumed && Reaches(receipts, all, root, id)
  }

  lemma ReachedIsClosed(receipts: seq<Summary>, all: seq<Fact>, root: Id) returns (rs: set<string>, fs: set<Id>)
    ensures ClosedSets(receipts, all, root, rs, fs)
    ensures forall x :: x in rs ==> exists i :: 0 <= i < |receipts| && receipts[i].receiptId == x
                                                && SawOne(receipts, all, root, receipts[i])
    ensures forall id :: id in fs ==> id != root && Reaches(receipts, all, root, id)
  {
    rs := set i | 0 <= i < |receipts| && SawOne(receipts, all, root, receipts[i]) :: receipts[i].receiptId;
    fs := set j | 0 <= j < |all| && all[j].factId != root && Reaches(receipts, all, root, all[j].factId)
            :: all[j].factId;
    assert ChainFrom(receipts, all, root, [root]) && [root][0] == root;
    assert Reaches(receipts, all, root, root);
    forall i | 0 <= i < |receipts| && Shows(receipts[i], root, fs)
      ensures receipts[i].receiptId in rs
    {
      assert SawOne(receipts, all, root, receipts[i]);
    }
    forall j | 0 <= j < |all| && WrittenIn(all[j], root, rs)
      ensures all[j].factId in fs
    {
      var i :| 0 <= i < |receipts| && receipts[i].receiptId == all[j].receiptId.value
               && SawOne(receipts, all, root, receipts[i]);
      var id :| id in receipts[i].consumed && Reaches(receipts, all, root, id);
      ReachesNext(receipts, all, root, id, all[j].factId);
    }
  }

  /** What the loop returns is what chains reach: a fact exactly if a chain from the root ends at it, a receipt exactly
      if its call was shown the root or such a fact. */
  lemma {:induction false} ReachedExactly(receipts: seq<Summary>, all: seq<Fact>, root: Id, rs: set<string>,
      fs: set<Id>, id: Id, x: string)
    requires LeastClosed(receipts, all, root, rs, fs)
    ensures id in fs <==> id != root && Reaches(receipts, all, root, id)
    ensures x in rs <==>
            exists i :: 0 <= i < |receipts| && receipts[i].receiptId == x && SawOne(receipts, all, root, receipts[i])
  {
    var rs', fs' := ReachedIsClosed(receipts, all, root);
    if id != root && Reaches(receipts, all, root, id) {
      var ids :| ChainFrom(receipts, all, root, ids) && ids[|ids| - 1] == id;
      ChainStaysInside(receipts, all, root, rs, fs, ids);
    }
    if i :| 0 <= i < |receipts| && receipts[i].receiptId == x && SawOne(receipts, all, root, receipts[i]) {
      var seen :| seen in receipts[i].consumed && Reaches(receipts, all, root, seen);
      var ids :| ChainFrom(receipts, all, root, ids) && ids[|ids| - 1] == seen;
      ChainStaysInside(receipts, all, root, rs, fs, ids);
      assert Shows(receipts[i], root, fs);
    }
  }
}
