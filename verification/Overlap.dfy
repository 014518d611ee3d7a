/** Publishing passes that overlap: what they still achieve, and exactly when they can raise a false alarm. */
module Overlap {
  import opened BitWalk
  import opened Hashing
  import opened Merkle
  import opened Proofs
  import opened Options
  import opened Wire
  import opened Checkpoints
  import opened Publication
  import MerkleLog
  import Witness

  /** Each pass has left the tables it saved to at its own size or beyond. */
  ghost predicate TablesReached(w: World) {
    forall p, k :: 0 <= p < |w.inFlight| && 0 <= k < |w.stores| && k < w.inFlight[p].next && w.stores[k].Pg? ==>
      Reached(w.stores[k]) >= w.inFlight[p].checkpoint.treeSize
  }

  ghost predicate NaturalSizes(w: World) {
    forall p :: 0 <= p < |w.inFlight| ==> w.inFlight[p].checkpoint.treeSize >= 0
  }

  lemma SaveKeepsReached(u: Setup, w: World, p: nat)
    requires u.watched < |w.stores| && p < |w.inFlight| && w.inFlight[p].next < |w.stores|
    requires TablesReached(w) && NaturalSizes(w)
    ensures TablesReached(Next(u, w, SaveNext(p, true))) && NaturalSizes(Next(u, w, SaveNext(p, true)))
  {
    var f := w.inFlight[p];
    if w.stores[f.next].Pg? {
      TableNeverFallsBack(w.stores[f.next].rows, f.checkpoint);
    }
  }

  lemma NextKeepsReached(u: Setup, w: World, e: Event)
    requires u.watched < |w.stores| && TablesReached(w) && NaturalSizes(w)
    ensures TablesReached(Next(u, w, e)) && NaturalSizes(Next(u, w, e))
    ensures forall k :: 0 <= k < |w.stores| ==> (Next(u, w, e).stores[k].Pg? <==> w.stores[k].Pg?)
  {
    if e.SaveNext? && e.pass < |w.inFlight| && e.ok && w.inFlight[e.pass].next < |w.stores| {
      SaveKeepsReached(u, w, e.pass);
    }
  }

  lemma {:induction false} RunKeepsReached(u: Setup, w: World, events: seq<Event>)
    requires u.watched < |w.stores| && TablesReached(w) && NaturalSizes(w)
    ensures TablesReached(After(u, w, events)) && NaturalSizes(After(u, w, events))
    ensures forall k :: 0 <= k < |w.stores| ==> (After(u, w, events).stores[k].Pg? <==> w.stores[k].Pg?)
    decreases |events|
  {
    hide Next, TablesReached, NaturalSizes;
    if events != [] {
      var n := |events| - 1;
      RunKeepsReached(u, w, events[..n]);
      NextKeepsReached(u, After(u, w, events[..n]), events[n]);
    }
  }

  /** However passes overlap, a pass whose saves have all succeeded leaves each table at the size it read or beyond. */
  lemma FinishedPassInTables(u: Setup, leaves: Leaves, tables: seq<bool>, events: seq<Event>, p: nat, k: nat)
    requires u.watched < |tables| && k < |tables| && tables[k]
    ensures var w := After(u, Fresh(leaves, tables), events);
            p < |w.inFlight| && w.inFlight[p].next >= |tables| ==>
              Reached(w.stores[k]) >= w.inFlight[p].checkpoint.treeSize
  {
    RunKeepsReached(u, Fresh(leaves, tables), events);
  }

  lemma {:induction false} AfterConcat(u: Setup, w: World, a: seq<Event>, b: seq<Event>)
    requires u.watched < |w.stores|
    ensures After(u, w, a + b) == After(u, After(u, w, a), b)
    decreases |b|
  {
    hide Next;
    if b == [] {
      assert a + b == a;
    } else {
      var n := |b| - 1;
      assert (a + b)[..|a + b| - 1] == a + b[..n];
      AfterConcat(u, w, a, b[..n]);
    }
  }

  lemma AfterOne(u: Setup, w: World, e: Event)
    requires u.watched < |w.stores|
    ensures After(u, w, [e]) == Next(u, w, e)
  {
    hide Next;
    assert [e][..0] == [];
    assert After(u, w, []) == w;
  }

  function Saves(p: nat, n: nat): seq<Event> {
    if n == 0 then [] else Saves(p, n - 1) + [SaveNext(p, true)]
  }

  /** One successful save. */
  lemma OneSave(u: Setup, w: World, p: nat)
    requires u.watched < |w.stores| && p < |w.inFlight| && w.inFlight[p].next < |w.stores|
    ensures var w', f := Next(u, w, SaveNext(p, true)), w.inFlight[p];
            && w'.leaves == w.leaves && w'.folder == w.folder && w'.inFlight == w.inFlight[p := f.(next := f.next + 1)]
            && w'.stores == w.stores[f.next := Save(w.stores[f.next], f.checkpoint)]
  {
  }

  /** w' is w after the first n saves of pass p. */
  ghost predicate SavedFirst(w: World, w': World, p: nat, n: nat)
    requires p < |w.inFlight|
  {
    var f := w.inFlight[p];
    && w'.leaves == w.leaves && w'.folder == w.folder && w'.inFlight == w.inFlight[p := f.(next := n)]
    && |w'.stores| == |w.stores|
    && forall k :: 0 <= k < |w.stores| ==>
         w'.stores[k] == if k < n then Save(w.stores[k], f.checkpoint) else w.stores[k]
  }

  lemma SavedOneMore(u: Setup, w: World, w': World, p: nat, n: nat)
    requires u.watched < |w.stores| && p < |w.inFlight| && n < |w.stores| && SavedFirst(w, w', p, n)
    ensures SavedFirst(w, Next(u, w', SaveNext(p, true)), p, n + 1)
  {
    hide Save;
    OneSave(u, w', p);
  }

  lemma {:induction false} SavesDo(u: Setup, w: World, p: nat, n: nat)
    requires u.watched < |w.stores| && p < |w.inFlight| && w.inFlight[p].next == 0 && n <= |w.stores|
    ensures SavedFirst(w, After(u, w, Saves(p, n)), p, n)
    decreases n, 1
  {
    if n > 0 {
      SavesStep(u, w, p, n);
    }
  }

  lemma {:induction false} SavesStep(u: Setup, w: World, p: nat, n: nat)
    requires u.watched < |w.stores| && p < |w.inFlight| && w.inFlight[p].next == 0 && 0 < n <= |w.stores|
    ensures SavedFirst(w, After(u, w, Saves(p, n)), p, n)
    decreases n, 0
  {
    hide Next, SavedFirst;
    SavesDo(u, w, p, n - 1);
    var mid := After(u, w, Saves(p, n - 1));
    AfterConcat(u, w, Saves(p, n - 1), [SaveNext(p, true)]);
    AfterOne(u, mid, SaveNext(p, true));
    SavedOneMore(u, w, mid, p, n - 1);
  }

  lemma {:induction false} SavesOfNone(u: Setup, w: World, p: nat, n: nat)
    requires u.watched < |w.stores| && p >= |w.inFlight|
    ensures After(u, w, Saves(p, n)) == w
  {
    if n > 0 {
      SavesOfNone(u, w, p, n - 1);
      AfterConcat(u, w, Saves(p, n - 1), [SaveNext(p, true)]);
      AfterOne(u, w, SaveNext(p, true));
    }
  }

  /** A pass taken as one step leaves the stores as its own steps do, up to the save that fails. */
  lemma {:induction false} PassIsItsSteps(u: Setup, w: World, now: Time, failsAt: nat)
    requires u.watched < |w.stores|
    ensures var n := if failsAt < |w.stores| then failsAt else |w.stores|;
            After(u, w, [Begin(now)] + Saves(|w.inFlight|, n)).stores
            == PublishOne(u, w.leaves, w.stores, now, failsAt)
  {
    hide Due, Save, SignHead;
    var n, p := if failsAt < |w.stores| then failsAt else |w.stores|, |w.inFlight|;
    AfterOne(u, w, Begin(now));
    AfterConcat(u, w, [Begin(now)], Saves(p, n));
    var w' := Next(u, w, Begin(now));
    if Due(u, w.leaves, w.stores, now) {
      SavesDo(u, w', p, n);
    } else {
      SavesOfNone(u, w, p, n);
    }
  }

  /** While every store is empty a pass is due. */
  lemma DueWhenEmpty(u: Setup, leaves: Leaves, tables: seq<bool>, now: Time)
    requires leaves != []
    ensures Due(u, leaves, Fresh(leaves, tables).stores, now)
  {
    var stores := Fresh(leaves, tables).stores;
    forall i | 0 <= i < |stores|
      ensures Latest(stores[i]).None?
    {
      assert stores[i] == EmptyStore(tables[i]);
    }
  }

  /** Two passes, the second of a longer log, both begun before either has saved. */
  lemma TwoBegun(u: Setup, tables: seq<bool>, a: Digest, b: Digest)
    requires u.watched < |tables|
    ensures var w := After(u, Fresh([a], tables), [Begin(0), AppendLeaf(b), Begin(0)]);
            && w.inFlight == [InFlight(SignHead(u, [a], 0), 0), InFlight(SignHead(u, [a, b], 0), 0)]
            && w.leaves == [a, b] && w.stores == Fresh([a], tables).stores && w.folder == Witness.Folder(None, [], [])
  {
    var w0 := Fresh([a], tables);
    DueWhenEmpty(u, [a], tables, 0);
    DueWhenEmpty(u, [a, b], tables, 0);
    assert [a] + [b] == [a, b];
    AfterOne(u, w0, Begin(0));
    var w1 := Next(u, w0, Begin(0));
    AfterOne(u, w1, AppendLeaf(b));
    AfterOne(u, Next(u, w1, AppendLeaf(b)), Begin(0));
    AfterConcat(u, w0, [Begin(0)], [AppendLeaf(b)]);
    AfterConcat(u, w0, [Begin(0)] + [AppendLeaf(b)], [Begin(0)]);
    assert [Begin(0)] + [AppendLeaf(b)] + [Begin(0)] == [Begin(0), AppendLeaf(b), Begin(0)];
  }

  lemma FirstLookSigns(u: Setup, w: World, leaves: Leaves)
    requires u.watched < |w.stores| && leaves != [] && Latest(w.stores[u.watched]) == Some(SignHead(u, leaves, 0))
    requires w.folder.state.None?
    ensures OutcomeOf(u, w, Look(true, true)) == Witness.Countersigned(|leaves|)
    ensures Served(u, w, Look(true, true)).checkpoint == Witness.Found(SignHead(u, leaves, 0).envelope)
  {
    hide VerdictFrom, Mth, ConsistencyAccepts, ConsistencyProof, MerkleLog.Answer;
    SignThenVerify(TREEHEAD_TYPE, SignHead(u, leaves, 0).envelope.payload, u.key, [u.key]);
  }

  /** What the witness makes of a signed head at first sight. */
  lemma FirstLook(u: Setup, w: World, leaves: Leaves)
    requires u.watched < |w.stores| && leaves != [] && Latest(w.stores[u.watched]) == Some(SignHead(u, leaves, 0))
    requires w.folder.state.None?
    ensures Next(u, w, Look(true, true)).folder.state == Some(Witness.Head(|leaves|, Mth(leaves), NamedLog(u.logId)))
  {
    hide OutcomeOf, Served, Mth, Latest;
    FirstLookSigns(u, w, leaves);
  }

  /** And what of one after a larger head. */
  lemma SmallerLook(u: Setup, w: World, leaves: Leaves)
    requires u.watched < |w.stores| && leaves != [] && Latest(w.stores[u.watched]) == Some(SignHead(u, leaves, 0))
    requires w.folder.state.Some? && w.folder.state.value.logId == NamedLog(u.logId)
    requires w.folder.state.value.treeSize > |leaves|
    ensures OutcomeOf(u, w, Look(true, true)) == Witness.Refused(Witness.Smaller)
  {
    hide VerdictFrom, Mth, ConsistencyAccepts, ConsistencyProof, MerkleLog.Answer;
    SignThenVerify(TREEHEAD_TYPE, SignHead(u, leaves, 0).envelope.payload, u.key, [u.key]);
  }

  function OverlappingRun(u: Setup, b: Digest): seq<Event> {
    [Begin(0), AppendLeaf(b), Begin(0)] + Saves(1, u.watched + 1) + [Look(true, true)] + Saves(0, u.watched + 1)
  }

  /** With a directory in front of the witness the proviso is needed, whatever other stores there are: a pass that
      overlaps another can put latest.json back to a smaller size, and the witness takes an honest log for a rewritten
      one. */
  lemma OverlapRaisesAlarm(u: Setup, tables: seq<bool>, a: Digest, b: Digest)
    requires u.watched < |tables| && !tables[u.watched]
    ensures var w := After(u, Fresh([a], tables), OverlappingRun(u, b));
            OutcomeOf(u, w, Look(true, true)) == Witness.Refused(Witness.Smaller) && w.leaves == [a, b]
  {
    hide Next, OutcomeOf, SignHead;
    var n := u.watched + 1;
    var w0, begin := Fresh([a], tables), [Begin(0), AppendLeaf(b), Begin(0)];
    TwoBegun(u, tables, a, b);
    var w1 := After(u, w0, begin);
    SavesDo(u, w1, 1, n);
    var w2 := After(u, w1, Saves(1, n));
    FirstLook(u, w2, [a, b]);
    var w3 := Next(u, w2, Look(true, true));
    LookChangesFolder(u, w2);
    SavesDo(u, w3, 0, n);
    var w4 := After(u, w3, Saves(0, n));
    SmallerLook(u, w4, [a]);
    AfterOne(u, w2, Look(true, true));
    AfterConcat(u, w0, begin, Saves(1, n));
    AfterConcat(u, w0, begin + Saves(1, n), [Look(true, true)]);
    AfterConcat(u, w0, begin + Saves(1, n) + [Look(true, true)], Saves(0, n));
  }

  lemma LookChangesFolder(u: Setup, w: World)
    requires u.watched < |w.stores|
    ensures var w' := Next(u, w, Look(true, true));
            w'.leaves == w.leaves && w'.stores == w.stores && w'.inFlight == w.inFlight
  {
  }

  /** So, with any stores, passes may overlap without any alarm exactly when the store the witness reads is a table. */
  lemma OverlapHarmlessExactly(u: Setup, tables: seq<bool>)
    requires u.watched < |tables|
    ensures (forall leaves: Leaves, events: seq<Event> ::
               var w := After(u, Fresh(leaves, tables), events);
               |w.leaves| <= TWO32 + 1 ==> !OutcomeOf(u, w, Look(true, true)).Refused?) <==> tables[u.watched]
  {
    hide Next, OutcomeOf;
    if tables[u.watched] {
      forall leaves: Leaves, events: seq<Event>
        ensures var w := After(u, Fresh(leaves, tables), events);
                |w.leaves| <= TWO32 + 1 ==> !OutcomeOf(u, w, Look(true, true)).Refused?
      {
        NoFalseAlarm(u, leaves, tables, events, Look(true, true));
      }
    } else {
      OverlapRaisesAlarm(u, tables, EmptyHash, EmptyHash);
    }
  }
}
