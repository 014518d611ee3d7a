/** What a witness that takes proofs of any byte strings can be led to sign, and exactly what keeps it from that. */
module WitnessGap {
  import opened BitWalk
  import opened Hashing
  import opened Merkle
  import opened Climbing
  import opened Proofs
  import opened Options
  import opened Wire
  import opened Witness

  /** Both lists stand behind heads the witness has countersigned in this folder, the first before the second. */
  ghost predicate BothSigned(me: KeyId, passes: seq<Pass>, name: string, i: nat, j: nat, early: Leaves, late: Leaves) {
    && name in RunPasses(map[], me, passes)
    && var rs := RunPasses(map[], me, passes)[name].records;
       && i < j < |rs|
       && |early| == rs[i].head.treeSize >= 1 && Mth(early) == rs[i].head.rootHash
       && |late| == rs[j].head.treeSize && Mth(late) == rs[j].head.rootHash
  }

  /** Over all runs, or all runs in which only proofs of digests are served: such lists nest. */
  ghost predicate ListsNest(me: KeyId, digests: bool) {
    forall passes: seq<Pass>, name: string, i: nat, j: nat, early: Leaves, late: Leaves ::
      PassesOf(passes, digests) && BothSigned(me, passes, name, i, j, early, late) ==> early <= late
  }

  // ----- Three heads over eight leaves -----

  /** The roots of the first four leaves, of the next two and of the last two. */
  function Quarter(d: Leaves): (Digest, Digest, Digest)
    requires |d| == 8
  {
    (Mth(d[..4]), NodeHash(d[4], d[5]), NodeHash(d[6], d[7]))
  }

  function Join(a: Bytes, b: Bytes): Bytes {
    Bytes(a.content + b.content)
  }

  const NOTHING := Bytes([])

  /** What the witness is shown for five leaves, for six, and for all eight. */
  function Roots(d: Leaves): (Digest, Digest, Digest)
    requires |d| == 8
  {
    var (a, c, e) := Quarter(d);
    (NodeHash(a, c), NodeHash(a, Join(c, e)), Mth(d))
  }

  function FiveToSix(d: Leaves): seq<Bytes>
    requires |d| == 8
  {
    var (a, c, _) := Quarter(d);
    [NOTHING, Join(d[6], d[7]), Join(a, c)]
  }

  function SixToEight(d: Leaves): seq<Bytes>
    requires |d| == 8
  {
    var (a, c, e) := Quarter(d);
    [Join(c, e), NOTHING, a]
  }

  /** The first root has a list of five leaves behind it: the last of them is no leaf of d. */
  function OtherFive(d: Leaves): Leaves
    requires |d| == 8
  {
    d[..4] + [Quarter(d).1]
  }

  lemma SplitsOfEight()
    ensures Split(2) == 1 && Split(4) == 2 && Split(5) == 4 && Split(6) == 4 && Split(8) == 4
  {
    SplitUnique(2, 1);
    SplitUnique(4, 2);
    SplitUnique(5, 4);
    SplitUnique(6, 4);
    SplitUnique(8, 4);
  }

  lemma RootOfEight(d: Leaves)
    requires |d| == 8
    ensures var (a, c, e) := Quarter(d); Mth(d) == NodeHash(a, NodeHash(c, e))
  {
    SplitsOfEight();
    var right := d[4..];
    assert right[..2] == [d[4], d[5]] && right[2..] == [d[6], d[7]];
    RootOfTwo(d[4], d[5]);
    RootOfTwo(d[6], d[7]);
    assert Mth(right) == NodeHash(Mth(right[..2]), Mth(right[2..]));
  }

  lemma RootOfTwo(x: Digest, y: Digest)
    ensures Mth([x, y]) == NodeHash(x, y)
  {
    SplitsOfEight();
    assert [x, y][..1] == [x] && [x, y][1..] == [y];
  }

  lemma RootOfOtherFive(d: Leaves)
    requires |d| == 8
    ensures |OtherFive(d)| == 5 && Mth(OtherFive(d)) == Roots(d).0
    ensures !(OtherFive(d) <= d)
  {
    SplitsOfEight();
    var five, c := OtherFive(d), Quarter(d).1;
    assert five[..4] == d[..4] && five[4..] == [c];
    assert five[4] == c;
    NodeIsDeeper(d[4], d[5]);
  }

  /** The sides of both walks: one hash on the right, then one on the left. */
  lemma WalksOfEight()
    ensures ConsistencyWalk(5, 6) == [SiblingRight, SiblingLeft] && ConsistencyWalk(6, 8) == [SiblingRight, SiblingLeft]
  {
    assert Walk(1, 1) == [SiblingLeft] + Walk(0, 0) && Walk(0, 0) == [];
    assert Walk(2, 3) == [SiblingRight] + Walk(1, 1);
    assert Walk(4, 5) == [SiblingRight] + Walk(2, 2);
    assert StripZeros(2) == StripZeros(1) && StripZeros(1) == 1;
    assert Walk(2, 2) == [SiblingLeft] + Walk(0, 0);
    assert StripOnes(4, 5) == (4, 5) && StripOnes(5, 7) == StripOnes(2, 3) && StripOnes(2, 3) == (2, 3);
  }

  lemma ClimbTwice(first: Bytes, x: Bytes, y: Bytes)
    ensures Climb(first, [SiblingRight, SiblingLeft], [x, y]) == NodeHash(y, NodeHash(first, x))
    ensures ClimbOld(first, [SiblingRight, SiblingLeft], [x, y]) == NodeHash(y, first)
  {
    ClimbNothing(first);
    ClimbSnoc(first, [], SiblingRight, [], x);
    ClimbSnoc(first, [SiblingRight], SiblingLeft, [x], y);
    assert [] + [SiblingRight] == [SiblingRight] && [] + [x] == [x];
    assert [SiblingRight] + [SiblingLeft] == [SiblingRight, SiblingLeft] && [x] + [y] == [x, y];
  }

  lemma NotPowers()
    ensures !PowerTest(5) && !PowerTest(6)
  {
    FirstMisjudgedSize();
    assert !IsPow2(5) && !IsPow2(3) && !IsPow2(6);
    assert Misjudged(5) <==> PowerTest(5) != IsPow2(5);
    assert Misjudged(6) <==> PowerTest(6) != IsPow2(6);
  }

  lemma BothAccepted(d: Leaves)
    requires |d| == 8
    ensures var r := Roots(d);
            && ConsistencyAccepts(5, r.0, 6, r.1, FiveToSix(d))
            && ConsistencyAccepts(6, r.1, 8, r.2, SixToEight(d))
  {
    var (a, c, e) := Quarter(d);
    WalksOfEight();
    NotPowers();
    RootOfEight(d);
    hide Climb, ClimbOld, Mth;
    var p, q := FiveToSix(d), SixToEight(d);
    assert p[1..] == [Join(d[6], d[7]), Join(a, c)] && q[1..] == [NOTHING, a];
    ClimbTwice(NOTHING, Join(d[6], d[7]), Join(a, c));
    ClimbTwice(Join(c, e), NOTHING, a);
    NodeHashExact(NOTHING, Join(d[6], d[7]), d[6], d[7]);
    NodeHashExact(Join(a, c), NOTHING, a, c);
    NodeHashExact(Join(a, c), e, a, Join(c, e));
    NodeHashExact(Join(c, e), NOTHING, c, e);
    assert a.content + c.content + e.content == a.content + (c.content + e.content);
  }

  // ----- A run that signs them -----

  function HeadFor(size: nat, root: Bytes, key: KeyId): Envelope {
    DsseSign(TREEHEAD_TYPE, HeadPayload(TreeHead(size, root, 0, None)), key)
  }

  function Shows(size: nat, root: Bytes, key: KeyId, tenant: string, proof: seq<Bytes>): Pass {
    Pass(Found([key]), [Input(tenant, Found(HeadFor(size, root, key)), Found(proof))])
  }

  function FoolingRun(d: Leaves, key: KeyId, tenant: string): seq<Pass>
    requires |d| == 8
  {
    var r := Roots(d);
    [Shows(5, r.0, key, tenant, []), Shows(6, r.1, key, tenant, FiveToSix(d)),
      Shows(8, r.2, key, tenant, SixToEight(d))]
  }

  /** One such pass, when the head is the first or extends the last one signed. */
  lemma SignsNext(disk: Disk, me: KeyId, size: nat, root: Bytes, key: KeyId, tenant: string, proof: seq<Bytes>)
    requires var f := FolderAt(disk, tenant);
             f.state.Some? ==>
               && f.state.value.logId.None? && f.state.value.treeSize < size
               && ConsistencyAccepts(f.state.value.treeSize, f.state.value.rootHash, size, root, proof)
    ensures var f, disk' := FolderAt(disk, tenant), RunPass(disk, me, Shows(size, root, key, tenant, proof));
            && Safe(tenant) in disk'
            && disk'[Safe(tenant)] == Folder(Some(Head(size, root, None)),
                                             f.records + [Record(tenant, Head(size, root, None),
                                                                 DsseCountersign(HeadFor(size, root, key), me))],
                                             f.alarms)
  {
    hide ConsistencyAccepts, VerdictFrom;
    SignThenVerify(TREEHEAD_TYPE, HeadFor(size, root, key).payload, key, [key]);
    var inputs := Shows(size, root, key, tenant, proof).inputs;
    assert inputs[..0] == [];
    assert PassOver(disk, me, [key], inputs[..0]) == disk;
  }

  lemma RunOfThree(me: KeyId, x: Pass, y: Pass, z: Pass)
    ensures RunPasses(map[], me, [x, y, z]) == RunPass(RunPass(RunPass(map[], me, x), me, y), me, z)
  {
    hide RunPass;
    assert [x, y, z][..2] == [x, y] && [x, y][..1] == [x] && [x][..0] == [];
    assert RunPasses(map[], me, []) == map[];
    assert RunPasses(map[], me, [x]) == RunPass(map[], me, x);
    assert RunPasses(map[], me, [x, y]) == RunPass(RunPasses(map[], me, [x]), me, y);
  }

  /** For any eight leaves: the witness signs three heads one after the other, and lists of leaves stand behind the
      first and the last of which neither is part of the other. */
  lemma WitnessFooled(me: KeyId, d: Leaves, key: KeyId, tenant: string)
    requires |d| == 8
    ensures BothSigned(me, FoolingRun(d, key, tenant), Safe(tenant), 0, 2, OtherFive(d), d) && !(OtherFive(d) <= d)
  {
    hide RunPass, RunPasses, ConsistencyAccepts, Mth, Roots, FiveToSix, SixToEight, OtherFive;
    var r := Roots(d);
    BothAccepted(d);
    RootOfOtherFive(d);
    LastRoot(d);
    var x, y, z := Shows(5, r.0, key, tenant, []), Shows(6, r.1, key, tenant, FiveToSix(d)),
      Shows(8, r.2, key, tenant, SixToEight(d));
    RunOfThree(me, x, y, z);
    SignsNext(map[], me, 5, r.0, key, tenant, []);
    var d1 := RunPass(map[], me, x);
    SignsNext(d1, me, 6, r.1, key, tenant, FiveToSix(d));
    var d2 := RunPass(d1, me, y);
    SignsNext(d2, me, 8, r.2, key, tenant, SixToEight(d));
  }

  lemma LastRoot(d: Leaves)
    requires |d| == 8
    ensures Roots(d).2 == Mth(d)
  {
  }

  // ----- The exact condition -----

  /** Whatever a log serves, the lists behind the heads a witness has signed nest exactly if only proofs of digests
      are let through to it. */
  lemma ListsNestExactly(me: KeyId, digests: bool)
    ensures ListsNest(me, digests) <==> digests
  {
    if digests {
      forall passes: seq<Pass>, name: string, i: nat, j: nat, early: Leaves, late: Leaves
        | PassesOf(passes, digests) && BothSigned(me, passes, name, i, j, early, late)
        ensures early <= late
      {
        WitnessSafety(me, passes, name, i, j, early, late, true);
      }
    } else {
      var d := seq(8, _ => EmptyHash);
      WitnessFooled(me, d, "log", "tenant");
      assert PassesOf(FoolingRun(d, "log", "tenant"), false);
    }
  }
}
