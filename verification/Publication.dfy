/** The log, its checkpoint publisher and its witness together: an honest log is never refused, as long as publishing
    passes take turns, or a table serves its checkpoints, and the consistency verifier can judge its sizes. */
module Publication {
  import opened BitWalk
  import opened Hashing
  import opened Merkle
  import opened Proofs
  import opened Options
  import opened Wire
  import opened Checkpoints
  import MerkleLog
  import Witness

  /** What stays fixed: the log's key and id, the witness, the store its checkpoints are served from, the heartbeat. */
  datatype Setup = Setup(key: KeyId, logId: Option<string>, me: KeyId, tenant: string, watched: nat, heartbeat: Time)

  // ----- One tenant's part of a publishing pass -----

  function SignHead(u: Setup, leaves: Leaves, now: Time): Checkpoint {
    var root := Mth(leaves);
    var head := TreeHead(|leaves|, root, now, NamedLog(u.logId));
    Checkpoint(u.logId, |leaves|, root, now, DsseSign(TREEHEAD_TYPE, HeadPayload(head), u.key))
  }

  /** A log is published when it is not empty and has grown, or when its latest checkpoint is older than the
      heartbeat. */
  predicate Due(u: Setup, leaves: Leaves, stores: seq<Store>, now: Time) {
    var last := Behind(stores);
    |leaves| != 0 && !(last.Some? && last.value.treeSize >= |leaves| && now - last.value.signedAt < u.heartbeat)
  }

  /** The pass as one step: an exception in store number failsAt leaves the stores before it written. */
  function PublishOne(u: Setup, leaves: Leaves, stores: seq<Store>, now: Time, failsAt: nat): seq<Store> {
    if Due(u, leaves, stores, now) then
      SaveFirst(stores, SignHead(u, leaves, now), if failsAt < |stores| then failsAt else |stores|)
    else stores
  }

  /** What one publishing pass finds of one tenant: nothing if it cannot be resolved. */
  datatype View = View(setup: Setup, leaves: Option<Leaves>, failsAt: nat)

  class CheckpointPublisher {
    const stores: map<string, BothCheckpoints>

    constructor (stores: map<string, BothCheckpoints>)
      ensures this.stores == stores
    {
      this.stores := stores;
    }

    ghost predicate Separate() {
      forall a, b :: a in stores && b in stores && a != b ==> stores[a] != stores[b]
    }

    method PublishTenant(v: View, now: Time) returns (published: Option<Checkpoint>)
      requires Separate() && v.setup.tenant in stores
      modifies stores[v.setup.tenant]
      ensures var s := stores[v.setup.tenant];
              s.stores == if v.leaves.None? then old(s.stores)
                else PublishOne(v.setup, v.leaves.value, old(s.stores), now, v.failsAt)
      ensures published.Some? <==> v.leaves.Some? && v.failsAt >= |old(stores[v.setup.tenant].stores)|
                                   && Due(v.setup, v.leaves.value, old(stores[v.setup.tenant].stores), now)
      ensures published.Some? ==> published.value == SignHead(v.setup, v.leaves.value, now)
    {
      if v.leaves.None? { return None; }
      var size := |v.leaves.value|;
      if size == 0 { return None; }
      var store := stores[v.setup.tenant];
      var last := store.LatestOfAll();
      if last.Some? && last.value.treeSize >= size && now - last.value.signedAt < v.setup.heartbeat { return None; }
      var c := SignHead(v.setup, v.leaves.value, now);
      var ok := store.SaveAll(c, v.failsAt);
      published := if ok then Some(c) else None;
    }
  }

  /** After a pass in which every save succeeds, every store has reached the size the pass read. */
  lemma PassCatchesUp(u: Setup, leaves: Leaves, stores: seq<Store>, now: Time, failsAt: nat, i: nat)
    requires i < |stores| && failsAt >= |stores| && |leaves| > 0
    requires forall k :: 0 <= k < |stores| ==> AtMost(stores[k], |leaves|)
    ensures |PublishOne(u, leaves, stores, now, failsAt)| == |stores|
    ensures Reached(PublishOne(u, leaves, stores, now, failsAt)[i]) == |leaves|
  {
    if Due(u, leaves, stores, now) {
      SaveReaches(stores[i], SignHead(u, leaves, now));
    } else {
      LatestIsHeld(stores[i]);
    }
  }

  // ----- The three of them, step by step -----

  /** A pass between reading the log and finishing its saves. */
  datatype InFlight = InFlight(checkpoint: Checkpoint, next: nat)

  datatype World = World(leaves: Leaves, stores: seq<Store>, inFlight: seq<InFlight>, folder: Witness.Folder)

  datatype Event =
    | AppendLeaf(leaf: Digest)
    | Begin(now: Time)
    | SaveNext(pass: nat, ok: bool)
    | Look(checkpointServed: bool, proofServed: bool)

  function Drop(fs: seq<InFlight>, p: nat): seq<InFlight>
    requires p < |fs|
  {
    fs[..p] + fs[p + 1..]
  }

  /** What the witness is served when it looks. */
  function Served(u: Setup, w: World, e: Event): Witness.Input
    requires e.Look? && u.watched < |w.stores|
  {
    var latest := Latest(w.stores[u.watched]);
    if !e.checkpointServed then Witness.Input(u.tenant, Witness.Unreachable, Witness.Unreachable)
    else if latest.None? then Witness.Input(u.tenant, Witness.NotFound, Witness.Unreachable)
    else
      var from := if w.folder.state.Some? then w.folder.state.value.treeSize else 0;
      var reply := MerkleLog.Answer(w.leaves, MerkleLog.AskConsistency(from, latest.value.treeSize));
      Witness.Input(u.tenant, Witness.Found(latest.value.envelope),
                    if e.proofServed && reply.ProofIs? then Witness.Found(reply.proof) else Witness.Unreachable)
  }

  function OutcomeOf(u: Setup, w: World, e: Event): Witness.Outcome
    requires e.Look? && u.watched < |w.stores|
  {
    Witness.OutcomeOf(w.folder, [u.key], Served(u, w, e))
  }

  function Next(u: Setup, w: World, e: Event): World
    requires u.watched < |w.stores|
    ensures |Next(u, w, e).stores| == |w.stores|
  {
    match e
    case AppendLeaf(leaf) => w.(leaves := w.leaves + [leaf])
    case Begin(now) =>
      if Due(u, w.leaves, w.stores, now) then w.(inFlight := w.inFlight + [InFlight(SignHead(u, w.leaves, now), 0)])
        else w
    case SaveNext(p, ok) =>
      if p >= |w.inFlight| then w
      else
        var f := w.inFlight[p];
        if !ok || f.next >= |w.stores| then w.(inFlight := Drop(w.inFlight, p))
        else w.(stores := w.stores[f.next := Save(w.stores[f.next], f.checkpoint)],
                inFlight := w.inFlight[p := f.(next := f.next + 1)])
    case Look(_, _) =>
      w.(folder := Witness.Write(w.folder, u.me, Served(u, w, e), OutcomeOf(u, w, e)))
  }

  function After(u: Setup, w: World, events: seq<Event>): (r: World)
    requires u.watched < |w.stores|
    ensures |r.stores| == |w.stores|
    decreases |events|
  {
    if events == [] then w else Next(u, After(u, w, events[..|events| - 1]), events[|events| - 1])
  }

  /** No pass begins while another is under way. */
  ghost predicate NoOverlap(u: Setup, w: World, events: seq<Event>)
    requires u.watched < |w.stores|
  {
    forall i :: 0 <= i < |events| && events[i].Begin? ==> After(u, w, events[..i]).inFlight == []
  }

  /** When a pass publishes, and what: nothing of an empty log, and nothing while the checkpoint of the store furthest
      behind has the log's size or more and is younger than the heartbeat; else the head of the log as it stands, with
      the log's id unless that is empty, signed by its key. */
  lemma PublishesExactly(u: Setup, w: World, now: Time)
    requires u.watched < |w.stores|
    ensures var w', n, root := Next(u, w, Begin(now)), |w.leaves|, Mth(w.leaves);
            if w.leaves == [] || exists i: nat, c ::
                 FurthestBehind(w.stores, i, c) && c.treeSize >= n && now - c.signedAt < u.heartbeat
            then w' == w
            else
              var head := TreeHead(n, root, now, if u.logId == Some("") then None else u.logId);
              w' == w.(inFlight := w.inFlight + [InFlight(
                Checkpoint(u.logId, n, root, now, DsseSign(TREEHEAD_TYPE, HeadPayload(head), u.key)), 0)])
  {
    hide FurthestBehind, Mth;
    if Behind(w.stores).Some? {
      BehindExactly(w.stores, Behind(w.stores).value);
    }
    if i: nat, c :| FurthestBehind(w.stores, i, c) && c.treeSize >= |w.leaves| && now - c.signedAt < u.heartbeat {
      BehindExactly(w.stores, c);
    }
  }

  // ----- What every step keeps -----

  ghost predicate HonestHead(u: Setup, leaves: Leaves, size: int, root: Bytes) {
    0 < size <= |leaves| && root == Mth(leaves[..size])
  }

  ghost predicate Honest(u: Setup, leaves: Leaves, c: Checkpoint) {
    && HonestHead(u, leaves, c.treeSize, c.rootHash)
    && c.envelope.payload.HeadPayload?
    && var t := c.envelope.payload.treeHead;
       && t.treeSize == c.treeSize && t.rootHash == c.rootHash && t.log == NamedLog(u.logId)
       && c.envelope == DsseSign(TREEHEAD_TYPE, HeadPayload(t), u.key)
  }

  ghost predicate StoreHonest(u: Setup, leaves: Leaves, s: Store) {
    forall c :: c in Held(s) ==> Honest(u, leaves, c)
  }

  /** Everything saved, about to be saved, or signed by the witness is a head of this log. */
  ghost predicate Core(u: Setup, w: World) {
    && u.watched < |w.stores|
    && (forall k :: 0 <= k < |w.stores| ==> StoreHonest(u, w.leaves, w.stores[k]))
    && (forall p :: 0 <= p < |w.inFlight| ==> Honest(u, w.leaves, w.inFlight[p].checkpoint))
    && (w.folder.state.Some? ==>
          var h := w.folder.state.value;
          HonestHead(u, w.leaves, h.treeSize, h.rootHash) && h.logId == NamedLog(u.logId))
  }

  /** The store the witness reads has not fallen below the head it last signed. */
  ghost predicate NotBehind(u: Setup, w: World)
    requires u.watched < |w.stores|
  {
    w.folder.state.Some? ==> w.folder.state.value.treeSize <= Reached(w.stores[u.watched])
  }

  /** With passes one after another, the pass under way has left each store it saved to at its own size. */
  ghost predicate InTurn(w: World) {
    && |w.inFlight| <= 1
    && (w.inFlight != [] ==>
          && (forall k :: 0 <= k < |w.stores| && k < w.inFlight[0].next ==>
                Reached(w.stores[k]) == w.inFlight[0].checkpoint.treeSize)
          && forall k :: 0 <= k < |w.stores| ==> AtMost(w.stores[k], w.inFlight[0].checkpoint.treeSize))
  }

  ghost predicate Inv(u: Setup, w: World) {
    Core(u, w) && NotBehind(u, w) && InTurn(w)
  }

  lemma HonestGrows(u: Setup, leaves: Leaves, leaf: Digest, c: Checkpoint)
    requires Honest(u, leaves, c)
    ensures Honest(u, leaves + [leaf], c)
  {
    assert (leaves + [leaf])[..c.treeSize] == leaves[..c.treeSize];
  }

  lemma AppendKeeps(u: Setup, w: World, leaf: Digest)
    requires Core(u, w)
    ensures Core(u, Next(u, w, AppendLeaf(leaf)))
  {
    forall k, c | 0 <= k < |w.stores| && c in Held(w.stores[k])
      ensures Honest(u, w.leaves + [leaf], c)
    {
      HonestGrows(u, w.leaves, leaf, c);
    }
    forall p | 0 <= p < |w.inFlight|
      ensures Honest(u, w.leaves + [leaf], w.inFlight[p].checkpoint)
    {
      HonestGrows(u, w.leaves, leaf, w.inFlight[p].checkpoint);
    }
    if w.folder.state.Some? {
      assert (w.leaves + [leaf])[..w.folder.state.value.treeSize] == w.leaves[..w.folder.state.value.treeSize];
    }
  }

  lemma BeginKeeps(u: Setup, w: World, now: Time)
    requires Core(u, w)
    ensures Core(u, Next(u, w, Begin(now)))
    ensures w.inFlight == [] ==> InTurn(Next(u, w, Begin(now)))
  {
    assert w.leaves[..|w.leaves|] == w.leaves;
    if Due(u, w.leaves, w.stores, now) {
      assert Honest(u, w.leaves, SignHead(u, w.leaves, now));
    }
  }

  lemma HeldAfterSave(u: Setup, leaves: Leaves, s: Store, c: Checkpoint)
    requires StoreHonest(u, leaves, s) && Honest(u, leaves, c)
    ensures StoreHonest(u, leaves, Save(s, c))
  {
    if s.Pg? {
      UpsertHas(s.rows, c);
    }
  }

  lemma SaveKeeps(u: Setup, w: World, p: nat, ok: bool)
    requires Core(u, w)
    ensures Core(u, Next(u, w, SaveNext(p, ok)))
  {
    if p < |w.inFlight| {
      var f := w.inFlight[p];
      if ok && f.next < |w.stores| {
        HeldAfterSave(u, w.leaves, w.stores[f.next], f.checkpoint);
      }
    }
  }

  /** A save does not set the watched store back if passes take turns, or if that store is a table: its largest row
      stays. */
  lemma SaveKeepsOrder(u: Setup, w: World, p: nat, ok: bool)
    requires Core(u, w) && (InTurn(w) || w.stores[u.watched].Pg?)
    ensures NotBehind(u, w) ==> NotBehind(u, Next(u, w, SaveNext(p, ok)))
    ensures InTurn(w) ==> InTurn(Next(u, w, SaveNext(p, ok)))
  {
    if p < |w.inFlight| {
      var f := w.inFlight[p];
      if ok && f.next < |w.stores| {
        if InTurn(w) {
          SaveReaches(w.stores[f.next], f.checkpoint);
        }
        if w.stores[f.next].Pg? {
          TableNeverFallsBack(w.stores[f.next].rows, f.checkpoint);
        }
        LatestIsHeld(w.stores[f.next]);
      }
    }
  }

  /** What the witness makes of an honest log, in any state: it refuses exactly when the store it reads has fallen
      below the head it last signed, or when it is asked to extend a head of a size the 32-bit test gets wrong; and it
      signs exactly what else is new to it. */
  lemma LookExact(u: Setup, w: World, e: Event)
    requires Core(u, w) && e.Look?
    ensures var o := OutcomeOf(u, w, e); var prev, size := w.folder.state, Reached(w.stores[u.watched]);
            o.Refused? <==>
            && e.checkpointServed && Latest(w.stores[u.watched]).Some? && prev.Some?
            && (size < prev.value.treeSize
                 || (e.proofServed && prev.value.treeSize < size && Misjudged(prev.value.treeSize)))
    ensures var o := OutcomeOf(u, w, e); var prev := w.folder.state;
            o.Countersigned? <==> e.checkpointServed && Latest(w.stores[u.watched]).Some?
                                  && (prev.Some? ==> e.proofServed && prev.value.treeSize < Reached(w.stores[u.watched])
                                                     && !Misjudged(prev.value.treeSize))
    ensures var o := OutcomeOf(u, w, e); o.Countersigned? ==>
              && o.treeSize == Reached(w.stores[u.watched])
              && Next(u, w, e).folder.state.Some? && Next(u, w, e).folder.state.value.treeSize == o.treeSize
    ensures Core(u, Next(u, w, e)) && (NotBehind(u, w) ==> NotBehind(u, Next(u, w, e)))
  {
    var latest := Latest(w.stores[u.watched]);
    LatestIsHeld(w.stores[u.watched]);
    if e.checkpointServed && latest.Some? {
      var c := latest.value;
      assert Honest(u, w.leaves, c);
      SignThenVerify(TREEHEAD_TYPE, c.envelope.payload, u.key, [u.key]);
      if w.folder.state.Some? && w.folder.state.value.treeSize <= c.treeSize {
        ProofOfLatest(u, w, c);
      }
    }
  }

  /** The log's answer to the witness's question is accepted exactly when the older size is judged rightly. */
  lemma ProofOfLatest(u: Setup, w: World, c: Checkpoint)
    requires w.folder.state.Some? && HonestHead(u, w.leaves, c.treeSize, c.rootHash)
    requires var h := w.folder.state.value;
             HonestHead(u, w.leaves, h.treeSize, h.rootHash) && h.treeSize <= c.treeSize
    ensures var h := w.folder.state.value;
            var reply := MerkleLog.Answer(w.leaves, MerkleLog.AskConsistency(h.treeSize, c.treeSize));
            reply.ProofIs? && (h.treeSize < c.treeSize ==>
              (ConsistencyAccepts(h.treeSize, h.rootHash, c.treeSize, c.rootHash, reply.proof) <==>
                !Misjudged(h.treeSize)))
  {
    var h := w.folder.state.value;
    MerkleLog.OwnProofsAccepted(w.leaves, h.treeSize, c.treeSize);
  }

  /** The two ways to keep a witness quiet: passes one after another, or a table in front of it. */
  ghost predicate Orderly(u: Setup, w: World, events: seq<Event>)
    requires u.watched < |w.stores|
  {
    NoOverlap(u, w, events) || w.stores[u.watched].Pg?
  }

  lemma NextKeeps(u: Setup, w: World, e: Event)
    requires Core(u, w)
    ensures Core(u, Next(u, w, e))
  {
    match e
    case AppendLeaf(leaf) => AppendKeeps(u, w, leaf);
    case Begin(now) => BeginKeeps(u, w, now);
    case SaveNext(p, ok) => SaveKeeps(u, w, p, ok);
    case Look(_, _) => LookExact(u, w, e);
  }

  lemma NextKeepsOrder(u: Setup, w: World, e: Event)
    requires Core(u, w) && NotBehind(u, w) && (InTurn(w) || w.stores[u.watched].Pg?)
    ensures NotBehind(u, Next(u, w, e))
    ensures InTurn(w) && (e.Begin? ==> w.inFlight == []) ==> InTurn(Next(u, w, e))
    ensures w.stores[u.watched].Pg? ==> Next(u, w, e).stores[u.watched].Pg?
  {
    match e
    case AppendLeaf(_) =>
    case Begin(now) => BeginKeeps(u, w, now);
    case SaveNext(p, ok) => SaveKeepsOrder(u, w, p, ok);
    case Look(_, _) => LookExact(u, w, e);
  }

  /** Over every run, however its passes overlap. */
  lemma {:induction false} RunKeeps(u: Setup, w: World, events: seq<Event>)
    requires Core(u, w)
    ensures Core(u, After(u, w, events))
    decreases |events|
  {
    hide Next;
    if events != [] {
      var n := |events| - 1;
      RunKeeps(u, w, events[..n]);
      NextKeeps(u, After(u, w, events[..n]), events[n]);
    }
  }

  lemma {:induction false} NoOverlapBefore(u: Setup, w: World, events: seq<Event>)
    requires u.watched < |w.stores| && NoOverlap(u, w, events) && events != []
    ensures NoOverlap(u, w, events[..|events| - 1])
    ensures events[|events| - 1].Begin? ==> After(u, w, events[..|events| - 1]).inFlight == []
  {
    var n := |events| - 1;
    forall i | 0 <= i < n && events[..n][i].Begin?
      ensures After(u, w, events[..n][..i]).inFlight == []
    {
      assert events[..n][..i] == events[..i];
    }
  }

  lemma {:induction false} RunKeepsOrder(u: Setup, w: World, events: seq<Event>)
    requires u.watched < |w.stores| && Inv(u, w) && Orderly(u, w, events)
    ensures NotBehind(u, After(u, w, events))
    ensures NoOverlap(u, w, events) ==> InTurn(After(u, w, events))
    ensures w.stores[u.watched].Pg? ==> After(u, w, events).stores[u.watched].Pg?
    decreases |events|
  {
    hide Core, InTurn, NoOverlap, Next, NotBehind;
    if events != [] {
      if NoOverlap(u, w, events) {
        NoOverlapBefore(u, w, events);
      }
      var n := |events| - 1;
      RunKeeps(u, w, events[..n]);
      RunKeepsOrder(u, w, events[..n]);
      NextKeepsOrder(u, After(u, w, events[..n]), events[n]);
    }
  }

  function EmptyStore(table: bool): Store {
    if table then Pg([]) else Dir(None, map[])
  }

  /** The start: any log, nothing published in any of the stores, directories and tables, nothing witnessed. */
  function Fresh(leaves: Leaves, tables: seq<bool>): World {
    World(leaves, seq(|tables|, i requires 0 <= i < |tables| => EmptyStore(tables[i])), [],
      Witness.Folder(None, [], []))
  }

  /** Which runs raise an alarm: in every interleaving of appends, publications with failing saves, overlapping or
      not, and witness passes, the witness refuses an honest log exactly when the store it reads has fallen below the
      head it last signed, or when it is asked to extend a head of a size the 32-bit test misjudges. */
  lemma {:induction false} AlarmExactly(u: Setup, leaves: Leaves, tables: seq<bool>, events: seq<Event>, e: Event)
    requires u.watched < |tables| && e.Look?
    ensures var w := After(u, Fresh(leaves, tables), events);
            var prev, size := w.folder.state, Reached(w.stores[u.watched]);
            OutcomeOf(u, w, e).Refused? <==>
            && e.checkpointServed && Latest(w.stores[u.watched]).Some? && prev.Some? && prev.value.treeSize >= 1
            && (size < prev.value.treeSize
                 || (e.proofServed && prev.value.treeSize < size && Misjudged(prev.value.treeSize)))
  {
    RunKeeps(u, Fresh(leaves, tables), events);
    LookExact(u, After(u, Fresh(leaves, tables), events), e);
  }

  /** So there are no false alarms where passes take turns or a table is read: the witness refuses only on a misjudged
      size, and never while the log has at most 2^32 + 1 leaves. */
  lemma {:induction false} NoFalseAlarm(u: Setup, leaves: Leaves, tables: seq<bool>, events: seq<Event>, e: Event)
    requires u.watched < |tables| && Orderly(u, Fresh(leaves, tables), events) && e.Look?
    ensures var w := After(u, Fresh(leaves, tables), events); var o := OutcomeOf(u, w, e); var prev := w.folder.state;
            && o.Refused? == (e.checkpointServed && e.proofServed && prev.Some?
                              && 1 <= prev.value.treeSize < Reached(w.stores[u.watched])
                                   && Misjudged(prev.value.treeSize))
            && (|w.leaves| <= TWO32 + 1 ==> !o.Refused?)
  {
    hide OutcomeOf, Next;
    var w := After(u, Fresh(leaves, tables), events);
    RunKeeps(u, Fresh(leaves, tables), events);
    RunKeepsOrder(u, Fresh(leaves, tables), events);
    AlarmExactly(u, leaves, tables, events, e);
    if w.folder.state.Some? {
      LatestIsHeld(w.stores[u.watched]);
      FirstMisjudgedSize();
    }
  }

  /** And every pass catches all stores up, whatever happens in between: once its saves have all succeeded each store
      has reached the size it read, and a pass that finds nothing to do finds each store at the log's size already. */
  lemma {:induction false} FinishedPassReached(u: Setup, leaves: Leaves, tables: seq<bool>, events: seq<Event>,
      now: Time, k: nat)
    requires u.watched < |tables| && NoOverlap(u, Fresh(leaves, tables), events) && k < |tables|
    ensures var w := After(u, Fresh(leaves, tables), events);
            && (w.inFlight != [] && w.inFlight[0].next >= |tables| ==>
                 Reached(w.stores[k]) == w.inFlight[0].checkpoint.treeSize)
            && (|w.leaves| > 0 && !Due(u, w.leaves, w.stores, now) ==> Reached(w.stores[k]) == |w.leaves|)
  {
    RunKeeps(u, Fresh(leaves, tables), events);
    RunKeepsOrder(u, Fresh(leaves, tables), events);
    var w := After(u, Fresh(leaves, tables), events);
    LatestIsHeld(w.stores[k]);
  }
}
