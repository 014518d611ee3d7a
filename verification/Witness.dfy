/** The witness: it keeps the last head it signed of each log it watches, and countersigns a newer one only with a proof
    that it extends that head. */
module Witness {
  import opened BitWalk
  import opened Hashing
  import opened Merkle
  import opened Proofs
  import opened Options
  import opened Wire

  /** The head last signed, as state.json holds it. */
  datatype Head = Head(treeSize: int, rootHash: Bytes, logId: Option<string>)

  /** One <treeSize>.json file. */
  datatype Record = Record(tenant: string, head: Head, envelope: Envelope)

  datatype Reason = BadSignature | OtherLog | Smaller | TwoHistories | NotAnExtension

  /** What stands on disk under one tenant's folder, records and alarms in the order they were written. */
  datatype Folder = Folder(state: Option<Head>, records: seq<Record>, alarms: seq<Reason>)

  type Disk = map<string, Folder>

  datatype Fetched<T> = Unreachable | NotFound | Found(value: T)

  datatype Outcome = Countersigned(treeSize: int) | Unchanged(treeSize: int) | Refused(reason: Reason) | Unavailable

  /** What the outside gives one pass over one tenant: the published checkpoint and, if it comes to that, a proof. */
  datatype Input = Input(tenant: string, checkpoint: Fetched<Envelope>, proof: Fetched<seq<Bytes>>)

  // ----- Folder names -----

  function SafeChar(c: char): char {
    if 'A' <= c <= 'Z' || 'a' <= c <= 'z' || '0' <= c <= '9' || c in "_.-" then c else '_'
  }

  function Safe(s: string): string {
    seq(|s|, i requires 0 <= i < |s| => SafeChar(s[i]))
  }

  function FolderAt(disk: Disk, tenant: string): Folder {
    if Safe(tenant) in disk then disk[Safe(tenant)] else Folder(None, [], [])
  }

  // ----- One pass over one tenant -----

  function HeadOf(t: TreeHead): Head {
    Head(t.treeSize, t.rootHash, t.log)
  }

  /** What to do with a verified head, given the last one signed. */
  function Judge(prev: Option<Head>, head: Head, proof: Fetched<seq<Bytes>>): Outcome {
    if prev.None? then Countersigned(head.treeSize)
    else if prev.value.logId != head.logId then Refused(OtherLog)
    else if head.treeSize < prev.value.treeSize then Refused(Smaller)
    else if head.treeSize == prev.value.treeSize then
      if head.rootHash != prev.value.rootHash then Refused(TwoHistories) else Unchanged(head.treeSize)
    else if !proof.Found? then Unavailable
    else if ConsistencyAccepts(prev.value.treeSize, prev.value.rootHash, head.treeSize, head.rootHash, proof.value) then
      Countersigned(head.treeSize)
    else Refused(NotAnExtension)
  }

  function OutcomeOf(f: Folder, keys: seq<KeyId>, i: Input): Outcome {
    if !i.checkpoint.Found? then Unavailable
    else
      var env := i.checkpoint.value;
      if DsseVerify(env, keys).Bad? || env.payloadType != TREEHEAD_TYPE || !env.payload.HeadPayload?
        then Refused(BadSignature)
      else Judge(f.state, HeadOf(env.payload.treeHead), i.proof)
  }

  /** The folder after a pass: a countersignature is recorded, a refusal raises an alarm, nothing else is written. */
  function Write(f: Folder, me: KeyId, i: Input, o: Outcome): Folder
    requires o.Countersigned? ==> i.checkpoint.Found? && i.checkpoint.value.payload.HeadPayload?
  {
    match o
    case Countersigned(_) =>
      var env := i.checkpoint.value;
      var head := HeadOf(env.payload.treeHead);
      Folder(Some(head), f.records + [Record(i.tenant, head, DsseCountersign(env, me))], f.alarms)
    case Refused(reason) => f.(alarms := f.alarms + [reason])
    case _ => f
  }

  function PassOne(disk: Disk, me: KeyId, keys: seq<KeyId>, i: Input): Disk {
    var f := FolderAt(disk, i.tenant);
    disk[Safe(i.tenant) := Write(f, me, i, OutcomeOf(f, keys, i))]
  }

  /** One pass over every watched log: the log's keys are fetched first, and without them nothing is looked at. */
  datatype Pass = Pass(keys: Fetched<seq<KeyId>>, inputs: seq<Input>)

  function PassOver(disk: Disk, me: KeyId, keys: seq<KeyId>, inputs: seq<Input>): Disk
    decreases |inputs|
  {
    if inputs == [] then disk
    else PassOne(PassOver(disk, me, keys, inputs[..|inputs| - 1]), me, keys, inputs[|inputs| - 1])
  }

  /** What a pass reports, input by input, each judged on the folder as the inputs before it left it. */
  function Reports(disk: Disk, me: KeyId, keys: seq<KeyId>, inputs: seq<Input>): seq<Outcome>
    decreases |inputs|
  {
    if inputs == [] then []
    else
      var before, i := inputs[..|inputs| - 1], inputs[|inputs| - 1];
      Reports(disk, me, keys, before) + [OutcomeOf(FolderAt(PassOver(disk, me, keys, before), i.tenant), keys, i)]
  }

  function RunPass(disk: Disk, me: KeyId, p: Pass): Disk {
    if p.keys.Found? then PassOver(disk, me, p.keys.value, p.inputs) else disk
  }

  function RunPasses(disk: Disk, me: KeyId, passes: seq<Pass>): Disk {
    if passes == [] then disk else RunPass(RunPasses(disk, me, passes[..|passes| - 1]), me, passes[|passes| - 1])
  }

  // ----- What every pass keeps -----

  /** What was fetched is a proof of digests, if it was fetched. */
  predicate FetchedDigests(proof: Fetched<seq<Bytes>>) {
    proof.Found? ==> AllDigests(proof.value)
  }

  /** b may be signed after a; after a proof of digests, if only such proofs are fetched. */
  ghost predicate Extends(a: Head, b: Head, digests: bool) {
    && a.treeSize < b.treeSize
    && a.logId == b.logId
    && exists proof :: ConsistencyAccepts(a.treeSize, a.rootHash, b.treeSize, b.rootHash, proof)
                       && (digests ==> AllDigests(proof))
  }

  ghost predicate Chain(records: seq<Record>, digests: bool) {
    forall i :: 0 <= i < |records| - 1 ==> Extends(records[i].head, records[i + 1].head, digests)
  }

  ghost predicate Genuine(r: Record, me: KeyId) {
    && r.envelope.payloadType == TREEHEAD_TYPE && r.envelope.payload.HeadPayload?
    && HeadOf(r.envelope.payload.treeHead) == r.head
    && SignedBy(r.envelope, me)
  }

  ghost predicate FolderInv(f: Folder, me: KeyId, digests: bool) {
    && Chain(f.records, digests)
    && (forall i :: 0 <= i < |f.records| ==> Genuine(f.records[i], me))
    && f.state == if f.records == [] then None else Some(f.records[|f.records| - 1].head)
  }

  ghost predicate DiskInv(disk: Disk, me: KeyId, digests: bool) {
    forall name :: name in disk ==> FolderInv(disk[name], me, digests)
  }

  lemma WriteKeeps(f: Folder, me: KeyId, keys: seq<KeyId>, i: Input, digests: bool)
    requires FolderInv(f, me, digests) && (digests ==> FetchedDigests(i.proof))
    ensures FolderInv(Write(f, me, i, OutcomeOf(f, keys, i)), me, digests)
  {
    var o := OutcomeOf(f, keys, i);
    if o.Countersigned? {
      var f' := Write(f, me, i, o);
      var n := |f.records|;
      assert Genuine(f'.records[n], me);
      assert f'.records[..n] == f.records;
      if n > 0 {
        var a, b := f.records[n - 1].head, f'.records[n].head;
        assert ConsistencyAccepts(a.treeSize, a.rootHash, b.treeSize, b.rootHash, i.proof.value);
        assert Extends(a, b, digests);
      }
    }
  }

  ghost predicate InputsOf(inputs: seq<Input>, digests: bool) {
    digests ==> forall k :: 0 <= k < |inputs| ==> FetchedDigests(inputs[k].proof)
  }

  lemma {:induction false} PassOverKeeps(disk: Disk, me: KeyId, keys: seq<KeyId>, inputs: seq<Input>, digests: bool)
    requires DiskInv(disk, me, digests) && InputsOf(inputs, digests)
    ensures DiskInv(PassOver(disk, me, keys, inputs), me, digests)
    decreases |inputs|
  {
    if inputs != [] {
      var before, i := inputs[..|inputs| - 1], inputs[|inputs| - 1];
      PassOverKeeps(disk, me, keys, before, digests);
      WriteKeeps(FolderAt(PassOver(disk, me, keys, before), i.tenant), me, keys, i, digests);
    }
  }

  ghost predicate PassesOf(passes: seq<Pass>, digests: bool) {
    forall k :: 0 <= k < |passes| ==> InputsOf(passes[k].inputs, digests)
  }

  /** Over any run of passes, whatever the outside serves; and if it serves proofs of digests only. */
  lemma {:induction false} RunPassesKeep(disk: Disk, me: KeyId, passes: seq<Pass>, digests: bool)
    requires DiskInv(disk, me, digests) && PassesOf(passes, digests)
    ensures DiskInv(RunPasses(disk, me, passes), me, digests)
    decreases |passes|
  {
    if passes != [] {
      var before, p := passes[..|passes| - 1], passes[|passes| - 1];
      RunPassesKeep(disk, me, before, digests);
      if p.keys.Found? {
        PassOverKeeps(RunPasses(disk, me, before), me, p.keys.value, p.inputs, digests);
      }
    }
  }

  // ----- What a chain of countersigned heads means -----

  lemma {:induction false} ChainIncreases(records: seq<Record>, i: nat, j: nat, digests: bool)
    requires Chain(records, digests) && i < j < |records|
    ensures records[i].head.treeSize < records[j].head.treeSize && records[i].head.logId == records[j].head.logId
    decreases j
  {
    assert Extends(records[j - 1].head, records[j].head, digests);
    if i < j - 1 {
      ChainIncreases(records, i, j - 1, digests);
    }
  }

  lemma ExtendedRootFixed(a: Head, b: Head, d: Leaves)
    requires Extends(a, b, true) && |d| == b.treeSize && Mth(d) == b.rootHash && a.treeSize >= 1
    ensures a.treeSize <= |d| && a.rootHash == Mth(d[..a.treeSize])
  {
    var proof :| ConsistencyAccepts(a.treeSize, a.rootHash, b.treeSize, b.rootHash, proof) && AllDigests(proof);
    DigestProofExact(d, a.treeSize, a.rootHash, proof);
  }

  /** Where only proofs of digests were accepted, whoever holds the leaves behind one countersigned head holds the
      leaves behind every earlier non-empty one. */
  lemma {:induction false} EarlierRootsFixed(records: seq<Record>, i: nat, j: nat, d: Leaves)
    requires Chain(records, true) && i <= j < |records|
    requires |d| == records[j].head.treeSize && Mth(d) == records[j].head.rootHash
    requires records[i].head.treeSize >= 1
    ensures records[i].head.treeSize <= |d| && records[i].head.rootHash == Mth(d[..records[i].head.treeSize])
    decreases j
  {
    if i == j {
      assert d[..|d|] == d;
    } else {
      var a, b := records[j - 1].head, records[j].head;
      assert Extends(a, b, true);
      hide Extends;
      if i < j - 1 {
        ChainIncreases(records, i, j - 1, true);
      }
      ExtendedRootFixed(a, b, d);
      var d' := d[..a.treeSize];
      EarlierRootsFixed(records, i, j - 1, d');
      assert d'[..records[i].head.treeSize] == d[..records[i].head.treeSize];
    }
  }

  /** Two heads signed one after the other, whatever the proof: lists behind them nest. */
  lemma NextListNests(a: Head, b: Head, digests: bool, early: Leaves, late: Leaves)
    requires Extends(a, b, digests) && |early| == a.treeSize >= 1 && Mth(early) == a.rootHash
    requires |late| == b.treeSize && Mth(late) == b.rootHash
    ensures early <= late
  {
    var proof :| ConsistencyAccepts(a.treeSize, a.rootHash, b.treeSize, b.rootHash, proof);
    ConsistencySound(late, early, a.rootHash, proof);
  }

  /** Witness safety, for one folder after any run of passes against arbitrary checkpoints, keys and proofs: the heads
      it countersigned grow and name one log; and no two readers who each check leaves against a countersigned
      non-empty head can be shown different histories, if their heads were signed one after the other or all proofs
      were of digests. */
  lemma {:induction false} WitnessSafety(me: KeyId, passes: seq<Pass>, name: string, i: nat, j: nat, early: Leaves,
      late: Leaves, digests: bool)
    requires name in RunPasses(map[], me, passes) && PassesOf(passes, digests)
    requires i < j < |RunPasses(map[], me, passes)[name].records|
    ensures var rs := RunPasses(map[], me, passes)[name].records; var a, b := rs[i].head, rs[j].head;
            && a.treeSize < b.treeSize && a.logId == b.logId
            && Genuine(rs[i], me) && Genuine(rs[j], me)
            && (|early| == a.treeSize >= 1 && Mth(early) == a.rootHash && |late| == b.treeSize
                 && Mth(late) == b.rootHash
                ==> (digests || j == i + 1 ==> early <= late))
  {
    RunPassesKeep(map[], me, passes, digests);
    var f := RunPasses(map[], me, passes)[name];
    assert FolderInv(f, me, digests);
    var a, b := f.records[i].head, f.records[j].head;
    ChainIncreases(f.records, i, j, digests);
    if |early| == a.treeSize >= 1 && Mth(early) == a.rootHash && |late| == b.treeSize && Mth(late) == b.rootHash {
      if j == i + 1 {
        NextListNests(a, b, digests, early, late);
      } else if digests {
        EarlierRootsFixed(f.records, i, j, late);
        MthInjective(early, late[..a.treeSize]);
      }
    }
  }

  // ----- What a look reports and leaves behind -----

  /** One more input of a pass, after any inputs before it. */
  lemma OneMoreInput(disk: Disk, me: KeyId, keys: seq<KeyId>, before: seq<Input>, i: Input)
    ensures var was := FolderAt(PassOver(disk, me, keys, before), i.tenant); var o := OutcomeOf(was, keys, i);
            && Reports(disk, me, keys, before + [i]) == Reports(disk, me, keys, before) + [o]
            && PassOver(disk, me, keys, before + [i])
               == PassOver(disk, me, keys, before)[Safe(i.tenant) := Write(was, me, i, o)]
  {
    assert (before + [i])[..|before|] == before;
  }

  /** A head some given key signed, by the first signature that counts. */
  predicate GoodHead(c: Fetched<Envelope>, keys: seq<KeyId>) {
    && c.Found? && DsseVerify(c.value, keys).Good?
    && c.value.payloadType == TREEHEAD_TYPE && c.value.payload.HeadPayload?
  }

  /** The report names the outcome that what is on record calls for: a first head is signed, the same head again is
      left alone, a larger one of the same log waits for a proof and is signed if the proof is accepted, and whatever
      else there is to read is refused. */
  predicate Reported(o: Outcome, records: seq<Record>, keys: seq<KeyId>, i: Input) {
    if !i.checkpoint.Found? then o.Unavailable?
    else if !GoodHead(i.checkpoint, keys) then o.Refused?
    else
      var t := i.checkpoint.value.payload.treeHead;
      if records == [] then o == Countersigned(t.treeSize)
      else
        var last := records[|records| - 1].head;
        var grown := last.logId == t.log && last.treeSize < t.treeSize;
        && (o == Unchanged(t.treeSize) <==>
             last.logId == t.log && last.treeSize == t.treeSize && last.rootHash == t.rootHash)
        && (o.Unavailable? <==> grown && !i.proof.Found?)
        && (o == Countersigned(t.treeSize) <==>
             grown && i.proof.Found?
             && ConsistencyAccepts(last.treeSize, last.rootHash, t.treeSize, t.rootHash, i.proof.value))
        && (o.Unchanged? ==> o.treeSize == t.treeSize) && (o.Countersigned? ==> o.treeSize == t.treeSize)
  }

  /** The folder after the report: a signed head is recorded with the countersigned envelope, a refusal adds an alarm,
      nothing else changes. */
  predicate Kept(o: Outcome, was: Folder, now: Folder, me: KeyId, i: Input) {
    && now.alarms == (if o.Refused? then was.alarms + [o.reason] else was.alarms)
    && if o.Countersigned? then
         && i.checkpoint.Found? && i.checkpoint.value.payload.HeadPayload?
         && var env := i.checkpoint.value; var t := env.payload.treeHead;
           now.records
           == was.records + [Record(i.tenant, Head(t.treeSize, t.rootHash, t.log), DsseCountersign(env, me))]
       else now.records == was.records && now.state == was.state
  }

  lemma EmptyFolder(me: KeyId)
    ensures FolderInv(Folder(None, [], []), me, false)
  {
  }

  lemma OneLook(f: Folder, me: KeyId, keys: seq<KeyId>, i: Input)
    requires FolderInv(f, me, false)
    ensures var o := OutcomeOf(f, keys, i); Reported(o, f.records, keys, i) && Kept(o, f, Write(f, me, i, o), me, i)
  {
    hide Chain, Genuine, ConsistencyAccepts, VerdictFrom;
  }

  lemma OnePassMore(me: KeyId, passes: seq<Pass>)
    ensures forall p: Pass ::
              RunPasses(map[], me, passes + [p]) ==
              if p.keys.Found? then PassOver(RunPasses(map[], me, passes), me, p.keys.value, p.inputs)
              else RunPasses(map[], me, passes)
  {
    forall p: Pass
      ensures RunPasses(map[], me, passes + [p]) == RunPass(RunPasses(map[], me, passes), me, p)
    {
      assert (passes + [p])[..|passes|] == passes;
    }
  }

  /** Every look of every run: wherever in a pass it comes, its report is the one the tenant's records call for, and
      its folder alone is written, as reported. A pass without the log's keys changes nothing. */
  lemma {:induction false} EveryLook(me: KeyId, passes: seq<Pass>, keys: seq<KeyId>, before: seq<Input>, i: Input,
      was: Folder)
    requires var disk := PassOver(RunPasses(map[], me, passes), me, keys, before);
             was == if Safe(i.tenant) in disk then disk[Safe(i.tenant)] else Folder(None, [], [])
    ensures var start := RunPasses(map[], me, passes);
            var disk, disk' := PassOver(start, me, keys, before), PassOver(start, me, keys, before + [i]);
            var reports := Reports(start, me, keys, before + [i]);
            && |reports| >= 1 && reports[..|reports| - 1] == Reports(start, me, keys, before)
            && Reported(reports[|reports| - 1], was.records, keys, i)
            && (forall name :: name in disk' <==> name in disk || name == Safe(i.tenant))
            && Kept(reports[|reports| - 1], was, disk'[Safe(i.tenant)], me, i)
            && (forall name :: name in disk && name != Safe(i.tenant) ==> disk'[name] == disk[name])
            && RunPasses(map[], me, passes + [Pass(Found(keys), before + [i])]) == disk'
            && forall p: Pass :: !p.keys.Found? ==> RunPasses(map[], me, passes + [p]) == start
  {
    OnePassMore(me, passes);
    hide PassOver, RunPasses, OutcomeOf, Write, Reports, Reported, Kept, FolderInv;
    var start := RunPasses(map[], me, passes);
    RunPassesKeep(map[], me, passes, false);
    PassOverKeeps(start, me, keys, before, false);
    OneMoreInput(start, me, keys, before, i);
    EmptyFolder(me);
    OneLook(was, me, keys, i);
  }

  /** The two heads cannot both be of one log that only grows: the served one is another log's, or smaller, or of the
      same size with another root, or there are lists behind the two that do not nest. */
  ghost predicate Conflict(last: Head, t: TreeHead) {
    || last.logId != t.log
    || t.treeSize < last.treeSize
    || (t.treeSize == last.treeSize && t.rootHash != last.rootHash)
    || exists early: Leaves, late: Leaves ::
         && |early| == last.treeSize >= 1 && Mth(early) == last.rootHash
         && |late| == t.treeSize && Mth(late) == t.rootHash && !(early <= late)
  }

  /** A log that shows two histories is found out: after any run, a served head that conflicts with the last one signed
      is refused once a proof is fetched, as is anything that no given key signed as a tree head; the refusal leaves
      one more alarm, and neither a countersignature nor a new state. */
  lemma {:induction false} ForkRaisesAlarm(me: KeyId, passes: seq<Pass>, keys: seq<KeyId>, before: seq<Input>,
      i: Input, was: Folder)
    requires var disk := PassOver(RunPasses(map[], me, passes), me, keys, before);
             was == if Safe(i.tenant) in disk then disk[Safe(i.tenant)] else Folder(None, [], [])
    requires i.checkpoint.Found?
    requires var env := i.checkpoint.value;
             || env.payloadType != TREEHEAD_TYPE || !env.payload.HeadPayload?
             || (forall k :: k in keys ==> Signature(k, Signed(k, env.payloadType, env.payload)) !in env.signatures)
             || (was.records != [] && i.proof.Found?
                 && Conflict(was.records[|was.records| - 1].head, env.payload.treeHead))
    ensures var start := RunPasses(map[], me, passes);
            var disk', reports := PassOver(start, me, keys, before + [i]), Reports(start, me, keys, before + [i]);
            && |reports| >= 1 && reports[|reports| - 1].Refused?
            && Safe(i.tenant) in disk'
            && var now := disk'[Safe(i.tenant)];
               |now.alarms| == |was.alarms| + 1 && now.records == was.records && now.state == was.state
  {
    hide PassOver, RunPasses, Reports, ConsistencyAccepts, VerdictFrom;
    EveryLook(me, passes, keys, before, i, was);
    var env := i.checkpoint.value;
    if GoodHead(i.checkpoint, keys) {
      GoodMeansSigned(env, keys, 0);
      var last, t := was.records[|was.records| - 1].head, env.payload.treeHead;
      if last.logId == t.log && last.treeSize <= t.treeSize {
        ConflictNotAccepted(last, t, i.proof.value);
      }
    }
  }

  lemma ConflictNotAccepted(last: Head, t: TreeHead, proof: seq<Bytes>)
    requires Conflict(last, t) && last.logId == t.log && last.treeSize <= t.treeSize
    ensures last.treeSize < t.treeSize ==>
              !ConsistencyAccepts(last.treeSize, last.rootHash, t.treeSize, t.rootHash, proof)
    ensures last.treeSize == t.treeSize ==> last.rootHash != t.rootHash
  {
    if t.treeSize != last.treeSize || t.rootHash == last.rootHash {
      var early: Leaves, late: Leaves :|
        && |early| == last.treeSize >= 1 && Mth(early) == last.rootHash
        && |late| == t.treeSize && Mth(late) == t.rootHash && !(early <= late);
      if last.treeSize == t.treeSize {
        MthInjective(early, late);
      }
      if ConsistencyAccepts(last.treeSize, last.rootHash, t.treeSize, t.rootHash, proof) {
        ConsistencySound(late, early, last.rootHash, proof);
      }
    }
  }

  // ----- The class -----

  class Witness {
    const me: KeyId
    var disk: Disk

    constructor (me: KeyId)
      ensures this.me == me && disk == map[]
    {
      this.me, disk := me, map[];
    }

    method WitnessOne(keys: seq<KeyId>, i: Input) returns (o: Outcome)
      modifies this
      ensures o == OutcomeOf(FolderAt(old(disk), i.tenant), keys, i)
      ensures disk == PassOne(old(disk), me, keys, i)
    {
      var f := FolderAt(disk, i.tenant);
      o := Judgement(f, keys, i);
      disk := disk[Safe(i.tenant) := Write(f, me, i, o)];
    }

    /** The branches of a pass, with the proof checked by the verifier's own loop. */
    method Judgement(f: Folder, keys: seq<KeyId>, i: Input) returns (o: Outcome)
      ensures o == OutcomeOf(f, keys, i)
    {
      if !i.checkpoint.Found? { return Unavailable; }
      var env := i.checkpoint.value;
      var v := RunDsseVerify(env, keys);
      if v.Bad? || env.payloadType != TREEHEAD_TYPE || !env.payload.HeadPayload? { return Refused(BadSignature); }
      var head := HeadOf(env.payload.treeHead);
      if f.state.Some? {
        var prev := f.state.value;
        if prev.logId != head.logId { return Refused(OtherLog); }
        if head.treeSize < prev.treeSize { return Refused(Smaller); }
        if head.treeSize == prev.treeSize {
          if head.rootHash != prev.rootHash { return Refused(TwoHistories); }
          return Unchanged(head.treeSize);
        }
        if !i.proof.Found? { return Unavailable; }
        var ok := VerifyConsistency(prev.treeSize, prev.rootHash, head.treeSize, head.rootHash, i.proof.value);
        if !ok { return Refused(NotAnExtension); }
      }
      o := Countersigned(head.treeSize);
    }

    method RunOnce(p: Pass) returns (out: seq<Outcome>)
      modifies this
      ensures disk == RunPass(old(disk), me, p)
      ensures p.keys.Found? ==> out == Reports(old(disk), me, p.keys.value, p.inputs)
      ensures !p.keys.Found? ==> |out| == |p.inputs| && forall k :: 0 <= k < |out| ==> out[k] == Unavailable
    {
      hide OutcomeOf, PassOne, FolderAt;
      out := [];
      if !p.keys.Found? {
        out := seq(|p.inputs|, _ => Unavailable);
        return;
      }
      var k := 0;
      while k < |p.inputs|
        invariant 0 <= k <= |p.inputs|
        invariant disk == PassOver(old(disk), me, p.keys.value, p.inputs[..k])
        invariant out == Reports(old(disk), me, p.keys.value, p.inputs[..k])
      {
        assert p.inputs[..k + 1][..k] == p.inputs[..k];
        var o := WitnessOne(p.keys.value, p.inputs[k]);
        out := out + [o];
        k := k + 1;
      }
      assert p.inputs[..k] == p.inputs;
    }
  }
}
