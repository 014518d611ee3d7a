/** One tenant's log as rows of a shared table, appended to by any number of instances. Each instance keeps its own copy
    of the leaf hashes and its own cache, and takes a lock for the transaction of an append. */
module PostgresLog {
  import opened BitWalk
  import opened Hashing
  import opened Merkle
  import opened SubtreeCache
  import opened MerkleLog

  datatype Row = Row(seqNo: nat, hash: Digest)

  // ----- The table -----

  /** MAX(seq) + 1, or 0 for an empty table. */
  function Count(rows: seq<Row>): nat {
    if rows == [] then 0
    else
      var n, last := Count(rows[..|rows| - 1]), rows[|rows| - 1].seqNo + 1;
      if last > n then last else n
  }

  function Lookup(rows: seq<Row>, k: nat): seq<Digest> {
    if rows == [] then []
    else if rows[0].seqNo == k then [rows[0].hash]
    else Lookup(rows[1..], k)
  }

  /** The leaf hashes of rows seq lo..hi, in order of seq. */
  function OrderBySeq(rows: seq<Row>, hi: nat): Leaves {
    if hi == 0 then [] else OrderBySeq(rows, hi - 1) + Lookup(rows, hi - 1)
  }

  function Select(rows: seq<Row>): Leaves {
    OrderBySeq(rows, Count(rows))
  }

  // ----- One instance -----

  datatype Instance = Instance(hashes: Leaves, memo: Memo)

  /** How a transaction ends: it may fail before or after the instance re-reads the table, the COMMIT may take effect
      and its answer be lost, or all goes well. */
  datatype Fate = FailsEarly | FailsLate | AnswerLost | Commits

  datatype Result = Failed | Done(reply: Reply)

  function Reload(rows: seq<Row>): Instance {
    Instance(Select(rows), map[])
  }

  function Sync(rows: seq<Row>, inst: Instance): Instance {
    if Count(rows) != |inst.hashes| then Reload(rows) else inst
  }

  function CommitStep(rows: seq<Row>, inst: Instance, hash: Digest, fate: Fate): (seq<Row>, Instance, Result) {
    if fate == FailsEarly then (rows, inst, Failed)
    else
      var synced := Sync(rows, inst);
      if fate == FailsLate || Lookup(rows, |synced.hashes|) != [] then (rows, synced, Failed)
      else
        var rows' := rows + [Row(|synced.hashes|, hash)];
        if fate == AnswerLost then (rows', synced, Failed)
        else
          var o := Step(State([], synced.hashes, synced.memo), Append(HashOnly(hash)));
          (rows', Instance(o.state.hashes, o.state.memo), Done(o.reply))
  }

  /** A read first catches up with the table. */
  function ReadStep(rows: seq<Row>, inst: Instance, op: Op): (Instance, Reply)
    requires !op.Append?
  {
    var synced := Sync(rows, inst);
    var o := Step(State([], synced.hashes, synced.memo), op);
    (Instance(o.state.hashes, o.state.memo), o.reply)
  }

  // ----- Any number of instances -----

  datatype System = System(rows: seq<Row>, insts: seq<Instance>)

  datatype Event =
    | Start
    | Commit(id: nat, hash: Digest, fate: Fate)
    | Read(id: nat, op: Op)

  /** One event; an event of an instance that was never started does nothing. */
  function Next(s: System, e: Event): (System, Result) {
    match e
    case Start => (s.(insts := s.insts + [Reload(s.rows)]), Failed)
    case Commit(id, hash, fate) =>
      if id >= |s.insts| then (s, Failed)
      else
        var r := CommitStep(s.rows, s.insts[id], hash, fate);
        (System(r.0, s.insts[id := r.1]), r.2)
    case Read(id, op) =>
      if id >= |s.insts| || op.Append? then (s, Failed)
      else var r := ReadStep(s.rows, s.insts[id], op); (s.(insts := s.insts[id := r.0]), Done(r.1))
  }

  /** The system after a run of events. */
  function After(s: System, events: seq<Event>): System
    decreases |events|
  {
    if events == [] then s else After(Next(s, events[0]).0, events[1..])
  }

  // ----- What every event keeps -----

  ghost predicate GapFree(rows: seq<Row>) {
    forall i :: 0 <= i < |rows| ==> rows[i].seqNo == i
  }

  function Hashes(rows: seq<Row>): Leaves {
    seq(|rows|, i requires 0 <= i < |rows| => rows[i].hash)
  }

  ghost predicate UpToDate(inst: Instance, rows: seq<Row>) {
    inst.hashes <= Hashes(rows) && Faithful(inst.memo, inst.hashes)
  }

  ghost predicate Inv(s: System) {
    GapFree(s.rows) && forall i :: 0 <= i < |s.insts| ==> UpToDate(s.insts[i], s.rows)
  }

  lemma {:induction false} CountGapFree(rows: seq<Row>)
    requires GapFree(rows)
    ensures Count(rows) == |rows|
    decreases |rows|
  {
    if rows != [] {
      CountGapFree(rows[..|rows| - 1]);
    }
  }

  lemma {:induction false} LookupFrom(rows: seq<Row>, base: nat, k: nat)
    requires forall i :: 0 <= i < |rows| ==> rows[i].seqNo == base + i
    ensures Lookup(rows, k) == (if base <= k < base + |rows| then [rows[k - base].hash] else [])
    decreases |rows|
  {
    if rows != [] {
      LookupFrom(rows[1..], base + 1, k);
    }
  }

  lemma {:induction false} OrderGapFree(rows: seq<Row>, hi: nat)
    requires GapFree(rows) && hi <= |rows|
    ensures OrderBySeq(rows, hi) == Hashes(rows)[..hi]
  {
    if hi > 0 {
      OrderGapFree(rows, hi - 1);
      LookupFrom(rows, 0, hi - 1);
    }
  }

  /** What the table returns is its rows, in order. */
  lemma SelectGapFree(rows: seq<Row>)
    requires GapFree(rows)
    ensures Count(rows) == |rows| && Select(rows) == Hashes(rows)
  {
    CountGapFree(rows);
    OrderGapFree(rows, |rows|);
  }

  /** Catching up by comparing counts is enough: afterwards the instance holds the table. */
  lemma SyncCatchesUp(rows: seq<Row>, inst: Instance)
    requires GapFree(rows) && UpToDate(inst, rows)
    ensures var synced := Sync(rows, inst); synced.hashes == Hashes(rows) && Faithful(synced.memo, synced.hashes)
  {
    SelectGapFree(rows);
  }

  lemma HashesSnoc(rows: seq<Row>, row: Row)
    ensures Hashes(rows + [row]) == Hashes(rows) + [row.hash]
  {
  }

  /** The log's answers do not depend on its file lines. */
  lemma StepRefines(hashes: Leaves, memo: Memo, op: Op)
    requires Faithful(memo, hashes)
    ensures var o := Step(State([], hashes, memo), op);
            o.reply == Answer(hashes, op) && Faithful(o.state.memo, o.state.hashes)
    ensures var o := Step(State([], hashes, memo), op);
            o.state.hashes == if op.Append? then hashes + [HashOf(op.line)] else hashes
  {
    var lines := seq(|hashes|, i requires 0 <= i < |hashes| => HashOnly(hashes[i]));
    assert HashesOf(lines) == hashes;
    var s := State(lines, hashes, memo);
    if op.Append? {
      AppendRefines(s, op.line);
    } else {
      QueryRefines(s, op);
    }
  }

  /** One append: the row lands at the end or nowhere, and the answer is the sequential log's. A transaction that does
      not fail on its own never fails on the primary key. */
  lemma CommitExact(rows: seq<Row>, inst: Instance, hash: Digest, fate: Fate)
    requires GapFree(rows) && UpToDate(inst, rows)
    ensures var r := CommitStep(rows, inst, hash, fate);
            && r.0 == (if fate == Commits || fate == AnswerLost then rows + [Row(|rows|, hash)] else rows)
            && r.2 == (if fate == Commits then Done(Answer(Hashes(rows), Append(HashOnly(hash)))) else Failed)
            && GapFree(r.0) && UpToDate(r.1, r.0)
  {
    SyncCatchesUp(rows, inst);
    var synced := Sync(rows, inst);
    LookupFrom(rows, 0, |rows|);
    HashesSnoc(rows, Row(|rows|, hash));
    StepRefines(synced.hashes, synced.memo, Append(HashOnly(hash)));
  }

  lemma ReadExact(rows: seq<Row>, inst: Instance, op: Op)
    requires GapFree(rows) && UpToDate(inst, rows) && !op.Append?
    ensures var r := ReadStep(rows, inst, op); r.1 == Answer(Hashes(rows), op) && UpToDate(r.0, rows)
  {
    SyncCatchesUp(rows, inst);
    var synced := Sync(rows, inst);
    StepRefines(synced.hashes, synced.memo, op);
  }

  /** The rows an event adds, and what it answers, on the one log the table is. */
  ghost predicate LikeOneLog(rows: seq<Row>, insts: nat, e: Event, rows': seq<Row>, result: Result) {
    match e
    case Start => rows' == rows && result == Failed
    case Commit(id, hash, fate) =>
      && (rows' == if id < insts && (fate == Commits || fate == AnswerLost) then rows + [Row(|rows|, hash)] else rows)
      && (result == if id < insts && fate == Commits then Done(Answer(Hashes(rows), Append(HashOnly(hash))))
           else Failed)
    case Read(id, op) =>
      && rows' == rows
      && (result == if id < insts && !op.Append? then Done(Answer(Hashes(rows), op)) else Failed)
  }

  lemma NextKeeps(s: System, e: Event)
    requires Inv(s)
    ensures var r := Next(s, e); Inv(r.0) && LikeOneLog(s.rows, |s.insts|, e, r.0.rows, r.1)
    ensures s.rows <= Next(s, e).0.rows && |s.insts| <= |Next(s, e).0.insts|
  {
    match e
    case Start =>
      SelectGapFree(s.rows);
    case Commit(id, hash, fate) =>
      if id < |s.insts| {
        CommitExact(s.rows, s.insts[id], hash, fate);
        HashesSnoc(s.rows, Row(|s.rows|, hash));
      }
    case Read(id, op) =>
      if id < |s.insts| && !op.Append? {
        ReadExact(s.rows, s.insts[id], op);
      }
  }

  /** Any number of instances, any order of their commits, failures, lost answers and reads: rows stay 0..n-1 without
      gaps, every instance's list is a prefix of the table, and event i behaves as on one sequential log. */
  lemma {:induction false} ManyInstancesOneLog(s: System, events: seq<Event>, i: nat)
    requires Inv(s) && i < |events|
    ensures Inv(After(s, events))
    ensures var at, then' := After(s, events[..i]), After(s, events[..i + 1]);
            && Inv(at) && at.rows <= then'.rows <= After(s, events).rows
            && then' == Next(at, events[i]).0
            && LikeOneLog(at.rows, |at.insts|, events[i], then'.rows, Next(at, events[i]).1)
    decreases |events|
  {
    hide Next, LikeOneLog, Inv;
    NextKeeps(s, events[0]);
    var s' := Next(s, events[0]).0;
    if i > 0 {
      ManyInstancesOneLog(s', events[1..], i - 1);
      assert events[..i][1..] == events[1..][..i - 1] && events[..i + 1][1..] == events[1..][..i];
    } else {
      assert events[..1][1..] == [];
      AfterGrows(s', events[1..]);
    }
  }

  lemma {:induction false} AfterGrows(s: System, events: seq<Event>)
    requires Inv(s)
    ensures Inv(After(s, events)) && s.rows <= After(s, events).rows
    decreases |events|
  {
    if events != [] {
      NextKeeps(s, events[0]);
      AfterGrows(Next(s, events[0]).0, events[1..]);
    }
  }

  // ----- The class -----

  class Table {
    var rows: seq<Row>
  }

  class PostgresLog {
    const table: Table
    var hashes: LeafList
    var cache: Cache

    ghost predicate Valid()
      reads this, cache
    {
      cache.leaves == hashes
    }

    ghost function Abstract(): Instance
      reads this, hashes, cache
    {
      Instance(hashes.items, cache.perfect)
    }

    /** A started instance has read the table once. */
    constructor (table: Table)
      ensures this.table == table && Valid() && fresh(hashes) && fresh(cache)
      ensures Abstract() == Reload(table.rows)
    {
      var list := new LeafList(Select(table.rows));
      var c := new Cache(list);
      this.table, hashes, cache := table, list, c;
    }

    method CatchUp()
      requires Valid()
      modifies this
      ensures Valid() && Abstract() == Sync(table.rows, old(Abstract()))
      ensures (hashes == old(hashes) && cache == old(cache)) || (fresh(hashes) && fresh(cache))
    {
      if Count(table.rows) != |hashes.items| {
        hashes := new LeafList(Select(table.rows));
        cache := new Cache(hashes);
      }
    }

    method Commit(hash: Digest, fate: Fate) returns (result: Result)
      requires Valid()
      modifies this, hashes, cache, table
      ensures Valid()
      ensures (table.rows, Abstract(), result) == CommitStep(old(table.rows), old(Abstract()), hash, fate)
    {
      hide Select, Count, Lookup, PathRun, MthRun;
      if fate == FailsEarly { return Failed; }
      CatchUp();
      if fate == FailsLate || Lookup(table.rows, |hashes.items|) != [] { return Failed; }
      table.rows := table.rows + [Row(|hashes.items|, hash)];
      if fate == AnswerLost { return Failed; }
      hashes.items := hashes.items + [hash];
      var treeSize := |hashes.items|;
      var path, c1 := cache.Path(treeSize - 1, 0, treeSize);
      var root, c2 := cache.Mth(0, treeSize);
      result := Done(Appended(treeSize - 1, treeSize, path, root));
    }

    method Root(size: int) returns (reply: Reply)
      requires Valid()
      modifies this, hashes, cache
      ensures Valid() && (Abstract(), reply) == ReadStep(table.rows, old(Abstract()), AskRoot(size))
    {
      CatchUp();
      if size < 0 || size > |hashes.items| { return OutOfRange; }
      var root, c := cache.Mth(0, size);
      reply := RootIs(root);
    }

    method Consistency(oldSize: int, newSize: int) returns (reply: Reply)
      requires Valid()
      modifies this, hashes, cache
      ensures Valid() && (Abstract(), reply) == ReadStep(table.rows, old(Abstract()), AskConsistency(oldSize, newSize))
    {
      CatchUp();
      if oldSize < 0 || oldSize > newSize || newSize > |hashes.items| { return OutOfRange; }
      if oldSize == 0 || oldSize == newSize { return ProofIs([]); }
      var proof, c := cache.Subproof(oldSize, 0, newSize, true);
      reply := ProofIs(proof);
    }
  }
}
