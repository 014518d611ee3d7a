/** The append-only log in a file: a list of leaf hashes, the cache over it, and the lines it is rebuilt from. */
module MerkleLog {
  import opened BitWalk
  import opened Hashing
  import opened Merkle
  import opened Proofs
  import opened SubtreeCache
  import opened AppendCost

  /** One line of the log file: the leaf itself, or only its hash (appended by hash, or pruned later). */
  datatype Line = Content(leaf: string) | HashOnly(hash: Digest)

  function HashOf(line: Line): Digest {
    match line
    case Content(leaf) => LeafHash(leaf)
    case HashOnly(hash) => hash
  }

  function HashesOf(lines: seq<Line>): Leaves {
    seq(|lines|, i requires 0 <= i < |lines| => HashOf(lines[i]))
  }

  datatype Op =
    | Append(line: Line)
    | AskRoot(size: int)
    | AskConsistency(oldSize: int, newSize: int)

  datatype Reply =
    | Appended(leafIndex: nat, treeSize: nat, path: seq<Digest>, root: Digest)
    | RootIs(root: Digest)
    | ProofIs(proof: seq<Digest>)
    | OutOfRange

  // ----- What a log answers, from its lines alone -----

  function Answer(d: Leaves, op: Op): Reply {
    match op
    case Append(line) =>
      var d' := d + [HashOf(line)];
      Appended(|d|, |d| + 1, Path(|d|, d'), Mth(d'))
    case AskRoot(size) => if 0 <= size <= |d| then RootIs(Mth(d[..size])) else OutOfRange
    case AskConsistency(m, n) => if 0 <= m <= n <= |d| then ProofIs(ConsistencyProof(m, d[..n])) else OutOfRange
  }

  // ----- What the log does -----

  /** The file, the hashes in memory, and the memo of the cache over them. */
  datatype State = State(lines: seq<Line>, hashes: Leaves, memo: Memo)

  function Load(lines: seq<Line>): State {
    State(lines, HashesOf(lines), map[])
  }

  datatype Outcome = Outcome(state: State, reply: Reply, cost: nat)

  function Step(s: State, op: Op): Outcome {
    match op
    case Append(line) =>
      var d := s.hashes + [HashOf(line)];
      var p := PathRun(d, s.memo, |d| - 1, 0, |d|);
      var r := MthRun(d, p.memo, 0, |d|);
      Outcome(State(s.lines + [line], d, r.memo), Appended(|d| - 1, |d|, p.value, r.value), p.cost + r.cost)
    case AskRoot(size) =>
      if 0 <= size <= |s.hashes| then
        var r := MthRun(s.hashes, s.memo, 0, size);
        Outcome(s.(memo := r.memo), RootIs(r.value), r.cost)
      else Outcome(s, OutOfRange, 0)
    case AskConsistency(m, n) =>
      if !(0 <= m <= n <= |s.hashes|) then Outcome(s, OutOfRange, 0)
      else if m == 0 || m == n then Outcome(s, ProofIs([]), 0)
      else
        var r := SubproofRun(s.hashes, s.memo, m, 0, n, true);
        Outcome(s.(memo := r.memo), ProofIs(r.value), r.cost)
  }

  /** The replies and costs of a run of operations. */
  function Replies(s: State, ops: seq<Op>): seq<(Reply, nat)>
    decreases |ops|
  {
    if ops == [] then []
    else var o := Step(s, ops[0]); [(o.reply, o.cost)] + Replies(o.state, ops[1..])
  }

  function LinesAfter(lines: seq<Line>, ops: seq<Op>): seq<Line>
    decreases |ops|
  {
    if ops == [] then lines
    else LinesAfter(if ops[0].Append? then lines + [ops[0].line] else lines, ops[1..])
  }

  // ----- The memoised log answers like the plain recursion -----

  ghost predicate Consistent(s: State) {
    s.hashes == HashesOf(s.lines) && Faithful(s.memo, s.hashes)
  }

  lemma AppendRefines(s: State, line: Line)
    requires Consistent(s)
    ensures var o := Step(s, Append(line)); o.reply == Answer(s.hashes, Append(line)) && Consistent(o.state)
  {
    var d := s.hashes + [HashOf(line)];
    assert d[0..0 + |d|] == d;
    FaithfulAsListGrows(s.memo, s.hashes, d);
    PathRunCorrect(d, s.memo, |d| - 1, 0, d);
    MthRunCorrect(d, PathRun(d, s.memo, |d| - 1, 0, |d|).memo, 0, d);
  }

  lemma QueryRefines(s: State, op: Op)
    requires Consistent(s) && !op.Append?
    ensures var o := Step(s, op); o.reply == Answer(s.hashes, op) && Consistent(o.state) && o.state.lines == s.lines
  {
    match op
    case AskRoot(size) =>
      if 0 <= size <= |s.hashes| {
        MthRunCorrect(s.hashes, s.memo, 0, s.hashes[..size]);
      }
    case AskConsistency(m, n) =>
      if 0 < m < n <= |s.hashes| {
        SubproofRunCorrect(s.hashes, s.memo, m, 0, s.hashes[..n], true);
      }
  }

  /** Under any interleaving of appends and queries, on a log loaded from any file, every answer is the one the plain
      recursion gives on the lines at that moment. */
  lemma {:induction false} CacheNeverShows(s: State, ops: seq<Op>, i: nat)
    requires Consistent(s) && i < |ops|
    ensures |Replies(s, ops)| == |ops|
    ensures Replies(s, ops)[i].0 == Answer(HashesOf(LinesAfter(s.lines, ops[..i])), ops[i])
    decreases |ops|
  {
    var o := Step(s, ops[0]);
    if ops[0].Append? {
      AppendRefines(s, ops[0].line);
    } else {
      QueryRefines(s, ops[0]);
    }
    if i > 0 {
      CacheNeverShows(o.state, ops[1..], i - 1);
      assert ops[..i][0] == ops[0] && ops[..i][1..] == ops[1..][..i - 1];
    } else if |ops| > 1 {
      CacheNeverShows(o.state, ops[1..], 0);
    }
  }

  /** The proof returned with an append is accepted for that leaf, and for no other leaf at that index. */
  lemma AppendProvesItsLeaf(d: Leaves, line: Line, leaf: Digest)
    ensures var a := Answer(d, Append(line));
            InclusionAccepts(leaf, InclusionProof(a.leafIndex, a.treeSize, a.path), a.root) <==> leaf == HashOf(line)
  {
    InclusionExact(d + [HashOf(line)], leaf, |d|, Answer(d, Append(line)).path);
  }

  /** A log's own consistency answers are accepted against its own roots, exactly while the older size is one the
      32-bit test gets right. */
  lemma OwnProofsAccepted(d: Leaves, m: nat, n: nat)
    requires m <= n <= |d|
    ensures ConsistencyAccepts(m, Answer(d, AskRoot(m)).root, n, Answer(d, AskRoot(n)).root,
            Answer(d, AskConsistency(m, n)).proof)
            <==> (0 < m < n ==> !Misjudged(m))
  {
    assert d[..n][..m] == d[..m];
    DigestProofExact(d[..n], m, Mth(d[..m]), ConsistencyProof(m, d[..n]));
  }

  // ----- Reloading and pruning -----

  /** A log reloaded from its file answers as the one that wrote it. */
  lemma {:induction false} ReloadAnswersAlike(s: State, op: Op)
    requires Consistent(s)
    ensures Step(Load(s.lines), op).reply == Step(s, op).reply
  {
    if op.Append? {
      AppendRefines(s, op.line);
      AppendRefines(Load(s.lines), op.line);
    } else {
      QueryRefines(s, op);
      QueryRefines(Load(s.lines), op);
    }
  }

  /** A line whose content was dropped for its hash. */
  predicate PrunedFrom(line: Line, was: Line) {
    line == was || (was.Content? && line == HashOnly(LeafHash(was.leaf)))
  }

  /** Pruning leaves of the file changes no answer. */
  lemma PruningChangesNothing(lines: seq<Line>, pruned: seq<Line>, op: Op)
    requires |lines| == |pruned| && forall i :: 0 <= i < |lines| ==> PrunedFrom(pruned[i], lines[i])
    ensures Step(Load(pruned), op).reply == Step(Load(lines), op).reply
  {
    assert HashesOf(pruned) == HashesOf(lines);
  }

  // ----- What an append costs -----

  lemma QueryStaysWarm(s: State, op: Op)
    requires Warm(s.memo, |s.hashes|) && !op.Append?
    ensures var o := Step(s, op); Warm(o.state.memo, |o.state.hashes|)
  {
    match op
    case AskRoot(size) =>
      if 0 <= size <= |s.hashes| {
        MthRunGrows(s.hashes, s.memo, 0, size);
      }
    case AskConsistency(m, n) =>
      if 0 < m < n <= |s.hashes| {
        SubproofRunGrows(s.hashes, s.memo, m, 0, n, true);
      }
  }

  lemma AppendStaysWarm(s: State, line: Line)
    requires Warm(s.memo, |s.hashes|)
    ensures var o := Step(s, Append(line)); var n := |s.hashes| + 1;
            && Warm(o.state.memo, |o.state.hashes|) && o.reply.Appended? && o.reply.treeSize == n
            && o.cost + 1 == TrailingZeros(n) + PopCount(n) && o.cost <= Log2(n)
  {
    WarmAppend(s.hashes + [HashOf(line)], s.memo);
    FreshCostClosedForm(|s.hashes| + 1);
    FreshCostLogarithmic(|s.hashes| + 1);
  }

  lemma {:induction false} AppendCostFrom(s: State, ops: seq<Op>, i: nat)
    requires Warm(s.memo, |s.hashes|) && i < |ops| && ops[i].Append?
    ensures |Replies(s, ops)| == |ops| && Replies(s, ops)[i].0.Appended?
    ensures var n, cost := Replies(s, ops)[i].0.treeSize, Replies(s, ops)[i].1;
            n >= 1 && cost + 1 == TrailingZeros(n) + PopCount(n) && cost <= Log2(n)
    decreases |ops|
  {
    var o := Step(s, ops[0]);
    if ops[0].Append? {
      AppendStaysWarm(s, ops[0].line);
    } else {
      QueryStaysWarm(s, ops[0]);
    }
    hide Step;
    hide Warm;
    RunLength(o.state, ops[1..]);
    if i > 0 {
      AppendCostFrom(o.state, ops[1..], i - 1);
    }
  }

  /** In a log grown from empty, with any queries in between, the append that reaches size n computes exactly
      trailing-zeros(n) + popcount(n) - 1 node hashes, which is at most floor(log2 n). No bound on n is needed. */
  lemma AppendCostExact(ops: seq<Op>, i: nat)
    requires i < |ops| && ops[i].Append?
    ensures |Replies(Load([]), ops)| == |ops| && Replies(Load([]), ops)[i].0.Appended?
    ensures var n, cost := Replies(Load([]), ops)[i].0.treeSize, Replies(Load([]), ops)[i].1;
            n >= 1 && cost + 1 == TrailingZeros(n) + PopCount(n) && cost <= Log2(n)
  {
    WarmEmpty();
    AppendCostFrom(Load([]), ops, i);
  }

  lemma {:induction false} RunLength(s: State, ops: seq<Op>)
    ensures |Replies(s, ops)| == |ops|
    decreases |ops|
  {
    if ops != [] {
      RunLength(Step(s, ops[0]).state, ops[1..]);
    }
  }

  // ----- The class -----

  class MerkleLog {
    const hashes: LeafList
    const tree: Cache
    var file: seq<Line>

    ghost predicate Valid()
      reads this, hashes, tree
    {
      tree.leaves == hashes && hashes.items == HashesOf(file) && Faithful(tree.perfect, hashes.items)
    }

    ghost function Abstract(): State
      reads this, hashes, tree
    {
      State(file, hashes.items, tree.perfect)
    }

    constructor (lines: seq<Line>)
      ensures Valid() && fresh(hashes) && fresh(tree) && Abstract() == Load(lines)
    {
      var list := new LeafList(HashesOf(lines));
      var cache := new Cache(list);
      hashes, tree, file := list, cache, lines;
    }

    method Append(line: Line) returns (reply: Reply, ghost cost: nat)
      requires Valid()
      modifies this`file, hashes, tree
      ensures Valid() && Outcome(Abstract(), reply, cost) == Step(old(Abstract()), Op.Append(line))
      ensures reply == Answer(old(hashes.items), Op.Append(line))
    {
      hide MthRun, PathRun, Mth, Path, HashesOf;
      AppendRefines(Abstract(), line);
      file := file + [line];
      hashes.items := hashes.items + [HashOf(line)];
      var treeSize := |hashes.items|;
      var path, c1 := tree.Path(treeSize - 1, 0, treeSize);
      var root, c2 := tree.Mth(0, treeSize);
      reply, cost := Appended(treeSize - 1, treeSize, path, root), c1 + c2;
    }

    method Root(size: int) returns (reply: Reply, ghost cost: nat)
      requires Valid()
      modifies tree
      ensures Valid() && Outcome(Abstract(), reply, cost) == Step(old(Abstract()), AskRoot(size))
      ensures reply == Answer(hashes.items, AskRoot(size))
    {
      QueryRefines(Abstract(), AskRoot(size));
      if size < 0 || size > |hashes.items| { return OutOfRange, 0; }
      var root, c := tree.Mth(0, size);
      reply, cost := RootIs(root), c;
    }

    method Consistency(oldSize: int, newSize: int) returns (reply: Reply, ghost cost: nat)
      requires Valid()
      modifies tree
      ensures Valid() && Outcome(Abstract(), reply, cost) == Step(old(Abstract()), AskConsistency(oldSize, newSize))
      ensures reply == Answer(hashes.items, AskConsistency(oldSize, newSize))
    {
      hide SubproofRun, Subproof;
      QueryRefines(Abstract(), AskConsistency(oldSize, newSize));
      if oldSize < 0 || oldSize > newSize || newSize > |hashes.items| { return OutOfRange, 0; }
      if oldSize == 0 || oldSize == newSize { return ProofIs([]), 0; }
      var proof, c := tree.Subproof(oldSize, 0, newSize, true);
      reply, cost := ProofIs(proof), c;
    }
  }
}
