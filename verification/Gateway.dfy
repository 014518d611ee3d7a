/** The gateway: one handled call after another in a session, each decided, committed to the log when it is
    consequential, forwarded or not, and recorded in a receipt. What lookups, policy, log and upstream do is given per
    call. */
module Gateway {
  import opened Hashing
  import opened Merkle
  import opened Proofs
  import opened Options
  import opened Wire
  import opened Delegation
  import MerkleLog

  // ----- Configuration -----

  datatype Mode = Enforce | Observe

  /** A configured lookup argument: one of the call's own, or a fixed text. */
  datatype Template = FromArg(key: string) | Literal(text: string)

  datatype FactConfig = FactConfig(name: string, tool: string, args: map<string, Template>, forTools: seq<string>,
      optional: bool)

  /** A server behind the gateway and the tools it lists. */
  datatype Upstream = Upstream(name: string, tools: seq<string>)

  /** The shared part of a gateway. The log's key may be the gateway's own. */
  datatype Host = Host(
    key: KeyId,
    logKey: KeyId,
    logId: Option<string>,
    mode: Mode,
    precommit: set<string>,
    facts: seq<FactConfig>,
    upstreams: seq<Upstream>,
    canon: Envelope -> string)

  /** Every tool of every upstream, in order. */
  function AllTools(us: seq<Upstream>): seq<string> {
    if us == [] then [] else AllTools(us[..|us| - 1]) + us[|us| - 1].tools
  }

  ghost predicate Distinct(names: seq<string>) {
    forall i, j :: 0 <= i < j < |names| ==> names[i] != names[j]
  }

  predicate Offers(h: Host, tool: string) {
    tool in AllTools(h.upstreams)
  }

  /** A host starts only if no lookup uses a tool that precommit names, and each tool has one owner. */
  ghost predicate Starts(h: Host) {
    && (forall i :: 0 <= i < |h.facts| ==> h.facts[i].tool !in h.precommit)
    && Distinct(AllTools(h.upstreams))
  }

  predicate Consequential(h: Host, tool: string) {
    "*" in h.precommit || tool in h.precommit
  }

  datatype Session = Session(grant: Envelope, delegation: Wire.Delegation, keyid: KeyId)

  // ----- One call and its environment -----

  datatype Call = Call(tool: string, args: Args)

  datatype UpstreamReply = Replies(result: ToolResult) | Throws(message: string)

  datatype PolicyAnswer =
    | Reserved(path: string)
    | Failure(errors: seq<string>)
    | Response(decision: Decision, reasons: seq<string>, errors: seq<string>)
    | Crash(message: string)

  /** Whether the log takes a leaf, and which leaves of others come in first. A log that refuses, or whose answer is
      lost, may hold anything afterwards, this leaf included. */
  datatype LogAnswer = Takes(others: Leaves, at: Time) | Refuses(others: Leaves, message: string)

  datatype Env = Env(
    receiptId: string,
    now: Time,
    lookups: nat -> UpstreamReply,
    policy: PolicyAnswer,
    authorization: LogAnswer,
    upstream: UpstreamReply,
    receipt: LogAnswer)

  /** What others can see a call do, in order. */
  datatype Effect =
    | Asked(tool: string, args: Args)
    | Committed(index: int, envelope: Envelope)
    | Sent(receiptId: string, tool: string, args: Args)

  // ----- Deciding -----

  function Resolve(template: map<string, Template>, args: Args): Option<Args> {
    if forall k :: k in template && template[k].FromArg? ==> template[k].key in args then
      Some(map k | k in template :: match template[k] case FromArg(key) => args[key] case Literal(text) => text)
    else None
  }

  datatype Gathered = Gathered(facts: map<string, Fact>, failure: Option<string>, trace: seq<Effect>)

  function Abort(g: Gathered, message: string): Gathered {
    g.(facts := map[], failure := Some(message))
  }

  /** The lookups from position i on. The first that fails ends them, and none of their facts are kept. */
  function Gather(h: Host, c: Call, env: Env, i: nat, g: Gathered): Gathered
    requires i <= |h.facts|
    decreases |h.facts| - i
  {
    if i == |h.facts| then g
    else
      var f := h.facts[i];
      if c.tool !in f.forTools then Gather(h, c, env, i + 1, g)
      else
        var args := Resolve(f.args, c.args);
        if args.None? then (if f.optional then Gather(h, c, env, i + 1, g) else Abort(g, "missing argument"))
        else if !Offers(h, f.tool) then Abort(g, "no upstream")
        else
          var g' := g.(trace := g.trace + [Asked(f.tool, args.value)]);
          match env.lookups(i)
          case Throws(message) => Abort(g', message)
          case Replies(r) =>
            if r.isError then Abort(g', r.content)
            else Gather(h, c, env, i + 1, g'.(facts := g.facts[f.name := Fact(f.tool, args.value, r.content)]))
  }

  function Evaluate(answer: PolicyAnswer): Policy {
    match answer
    case Reserved(path) => Policy(Deny, [], [path], true)
    case Failure(errors) => Policy(Deny, [], errors, true)
    case Response(decision, reasons, errors) => Policy(if errors == [] then decision else Deny, reasons, errors, true)
    case Crash(message) => Policy(Deny, [], [message], true)
  }

  datatype Decided = Decided(policy: Policy, facts: map<string, Fact>, trace: seq<Effect>)

  function Decide(h: Host, s: Session, c: Call, env: Env): Decided {
    var enforced := h.mode.Enforce?;
    if c.tool !in s.delegation.scopes then Decided(Policy(Deny, [], [c.tool], enforced), map[], [])
    else
      var g := Gather(h, c, env, 0, Gathered(map[], None, []));
      var policy := if g.failure.Some? then Policy(Deny, [], [g.failure.value], true) else Evaluate(env.policy);
      Decided(policy.(enforced := enforced), g.facts, g.trace)
  }

  function HeadOf(h: Host, s: Session, consumed: seq<string>, c: Call, env: Env, facts: map<string, Fact>): CallHead {
    CallHead(env.receiptId, env.now, Issuer("gateway", h.key), Attested(s.delegation.principal, s.keyid),
      s.delegation.agent,
             Some(s.grant), c.tool, c.args, DigestOf(c.args), facts, Some(consumed))
  }

  // ----- The log -----

  datatype Logged = Logged(log: Leaves, bundle: Option<Bundle>)

  /** The signed answer of a log that now ends with the envelope. */
  function Receive(h: Host, d: Leaves, envelope: Envelope, at: Time): Bundle {
    var r := MerkleLog.Answer(d, MerkleLog.Append(MerkleLog.Content(h.canon(envelope))));
    var head := TreeHead(r.treeSize, r.root, at, NamedLog(h.logId));
    Bundle(envelope, DsseSign(TREEHEAD_TYPE, HeadPayload(head), h.logKey),
      InclusionProof(r.leafIndex, r.treeSize, r.path))
  }

  function AppendTo(h: Host, log: Leaves, envelope: Envelope, answer: LogAnswer): Logged {
    match answer
    case Takes(others, at) =>
      Logged(log + others + [LeafHash(h.canon(envelope))], Some(Receive(h, log + others, envelope, at)))
    case Refuses(others, _) => Logged(log + others, None)
  }

  // ----- A whole call -----

  function AuthorizationOf(h: Host, head: CallHead, policy: Policy): Envelope {
    DsseSign(RECEIPT_TYPE, AuthorizationPayload(Authorization(Some(head.argsDigest), head, Some(policy))), h.key)
  }

  function ReceiptOf(h: Host, head: CallHead, policy: Policy, authorization: Option<Bundle>,
      execution: Execution): Envelope {
    DsseSign(RECEIPT_TYPE,
      ReceiptPayload(Receipt(Some(head.argsDigest), head, Some(policy), authorization, execution)), h.key)
  }

  /** A consequential call that is allowed goes to the log first. */
  function Authorize(h: Host, log: Leaves, head: CallHead, policy: Policy, env: Env): Logged {
    if policy.decision.Allow? && Consequential(h, head.tool)
      then AppendTo(h, log, AuthorizationOf(h, head, policy), env.authorization)
    else Logged(log, None)
  }

  predicate IsWithheld(h: Host, head: CallHead, policy: Policy, env: Env) {
    policy.decision.Allow? && Consequential(h, head.tool) && env.authorization.Refuses? && h.mode.Enforce?
  }

  function Execute(h: Host, head: CallHead, policy: Policy, env: Env): Execution {
    if IsWithheld(h, head, policy, env) then Withheld(env.authorization.message)
    else if policy.decision.Allow? || !policy.enforced then
      if !Offers(h, head.tool) then Error("no upstream")
      else
        match env.upstream
        case Throws(message) => Error(message)
        case Replies(r) => if r.isError then Failed(r) else Executed(r)
    else Denied(policy.reasons + policy.errors)
  }

  predicate IsSent(h: Host, head: CallHead, policy: Policy, env: Env) {
    !IsWithheld(h, head, policy, env) && (policy.decision.Allow? || !policy.enforced) && Offers(h, head.tool)
  }

  /** Ids in order of first sight. */
  function Note(consumed: seq<string>, ids: seq<string>): seq<string>
    decreases |ids|
  {
    if ids == [] then consumed
    else Note(if ids[0] in consumed then consumed else consumed + [ids[0]], ids[1..])
  }

  function Shown(e: Execution): seq<string> {
    if e.Executed? || e.Failed? then e.result.served else []
  }

  datatype Reply = Threw(message: string) | Refused(execution: Execution) | Returned(result: ToolResult)

  datatype State = State(log: Leaves, consumed: seq<string>)

  datatype Outcome = Outcome(state: State, reply: Reply, bundle: Option<Bundle>, trace: seq<Effect>)

  function CommittedAs(l: Logged): seq<Effect> {
    if l.bundle.Some? then [Committed(l.bundle.value.inclusion.leafIndex, l.bundle.value.envelope)] else []
  }

  function ReplyTo(e: Execution, receipt: LogAnswer): Reply {
    if receipt.Refuses? then Threw(receipt.message)
    else if e.Executed? || e.Failed? then Returned(e.result)
    else Refused(e)
  }

  function Handle(h: Host, s: Session, st: State, c: Call, env: Env): Outcome {
    var d := Decide(h, s, c, env);
    var head := HeadOf(h, s, st.consumed, c, env, d.facts);
    var a := Authorize(h, st.log, head, d.policy, env);
    var execution := Execute(h, head, d.policy, env);
    var sent := if IsSent(h, head, d.policy, env) then [Sent(env.receiptId, c.tool, c.args)] else [];
    var r := AppendTo(h, a.log, ReceiptOf(h, head, d.policy, a.bundle, execution), env.receipt);
    Outcome(State(r.log, Note(st.consumed, Shown(execution))), ReplyTo(execution, env.receipt), r.bundle,
            d.trace + CommittedAs(a) + sent + CommittedAs(r))
  }

  // ----- The classes -----

  /** The log as a producer reaches it. */
  class LogSink {
    var leaves: Leaves

    constructor (leaves: Leaves)
      ensures this.leaves == leaves
    {
      this.leaves := leaves;
    }

    method Append(h: Host, envelope: Envelope, answer: LogAnswer) returns (entry: Option<Bundle>)
      modifies this
      ensures Logged(leaves, entry) == AppendTo(h, old(leaves), envelope, answer)
    {
      leaves := leaves + answer.others;
      if answer.Refuses? { return None; }
      var d := leaves;
      leaves := leaves + [LeafHash(h.canon(envelope))];
      entry := Some(Receive(h, d, envelope, answer.at));
    }
  }

  predicate Fills(t: Template, args: Args, value: string) {
    match t
    case FromArg(key) => key in args && value == args[key]
    case Literal(text) => value == text
  }

  method ResolveArgs(template: map<string, Template>, args: Args) returns (r: Option<Args>)
    ensures r == Resolve(template, args)
  {
    var out: Args, left := map[], template.Keys;
    while left != {}
      invariant left <= template.Keys && out.Keys == template.Keys - left
      invariant forall k :: k in out ==> Fills(template[k], args, out[k])
      decreases |left|
    {
      var k :| k in left;
      left := left - {k};
      match template[k] {
        case FromArg(key) =>
          if key !in args { return None; }
          out := out[k := args[key]];
        case Literal(text) =>
          out := out[k := text];
      }
    }
    assert Resolve(template, args).Some? && out == Resolve(template, args).value;
    r := Some(out);
  }

  class Gateway {
    const host: Host
    const session: Session
    const sink: LogSink
    var consumed: seq<string>

    constructor (host: Host, session: Session, sink: LogSink)
      ensures this.host == host && this.session == session && this.sink == sink && consumed == []
    {
      this.host, this.session, this.sink, consumed := host, session, sink, [];
    }

    method NoteServedFacts(ids: seq<string>)
      modifies this
      ensures consumed == Note(old(consumed), ids)
    {
      for i := 0 to |ids|
        invariant Note(consumed, ids[i..]) == Note(old(consumed), ids)
      {
        assert ids[i..][1..] == ids[i + 1..];
        if ids[i] !in consumed {
          consumed := consumed + [ids[i]];
        }
      }
    }

    method GatherFacts(c: Call, env: Env) returns (g: Gathered)
      ensures g == Gather(host, c, env, 0, Gathered(map[], None, []))
    {
      g := Gathered(map[], None, []);
      for i := 0 to |host.facts|
        invariant Gather(host, c, env, i, g) == Gather(host, c, env, 0, Gathered(map[], None, []))
      {
        var f := host.facts[i];
        if c.tool in f.forTools {
          var args := ResolveArgs(f.args, c.args);
          if args.None? {
            if !f.optional { return Abort(g, "missing argument"); }
          } else {
            if !Offers(host, f.tool) { return Abort(g, "no upstream"); }
            var lookup := env.lookups(i);
            g := g.(trace := g.trace + [Asked(f.tool, args.value)]);
            if lookup.Throws? { return Abort(g, lookup.message); }
            if lookup.result.isError { return Abort(g, lookup.result.content); }
            g := g.(facts := g.facts[f.name := Fact(f.tool, args.value, lookup.result.content)]);
          }
        }
      }
    }

    method DecideCall(c: Call, env: Env) returns (d: Decided)
      ensures d == Decide(host, session, c, env)
    {
      var policy;
      var g := Gathered(map[], None, []);
      if c.tool !in session.delegation.scopes {
        policy := Policy(Deny, [], [c.tool], true);
      } else {
        g := GatherFacts(c, env);
        policy := if g.failure.Some? then Policy(Deny, [], [g.failure.value], true) else Evaluate(env.policy);
      }
      if host.mode.Observe? {
        policy := policy.(enforced := false);
      }
      d := Decided(policy, g.facts, g.trace);
    }

    method HandleCall(c: Call, env: Env) returns (reply: Reply, bundle: Option<Bundle>, trace: seq<Effect>)
      modifies this, sink
      ensures Outcome(State(sink.leaves, consumed), reply, bundle, trace)
              == Handle(host, session, State(old(sink.leaves), old(consumed)), c, env)
    {
      hide Decide, AuthorizationOf, ReceiptOf, Receive;
      var consumedNow := consumed;
      var d := DecideCall(c, env);
      var policy := d.policy;
      var forward := policy.decision.Allow? || !policy.enforced;
      var head := HeadOf(host, session, consumedNow, c, env, d.facts);
      trace := d.trace;
      var authorization: Option<Bundle> := None;
      var execution: Option<Execution> := None;
      if policy.decision.Allow? && Consequential(host, c.tool) {
        authorization := sink.Append(host, AuthorizationOf(host, head, policy), env.authorization);
        trace := trace + CommittedAs(Logged(sink.leaves, authorization));
        if authorization.None? && host.mode.Enforce? {
          execution := Some(Withheld(env.authorization.message));
        }
      }
      if execution.None? {
        if forward {
          if !Offers(host, c.tool) {
            execution := Some(Error("no upstream"));
          } else {
            trace := trace + [Sent(env.receiptId, c.tool, c.args)];
            match env.upstream {
              case Throws(message) =>
                execution := Some(Error(message));
              case Replies(r) =>
                execution := Some(if r.isError then Failed(r) else Executed(r));
                NoteServedFacts(r.served);
            }
          }
        } else {
          execution := Some(Denied(policy.reasons + policy.errors));
        }
      }
      bundle := sink.Append(host, ReceiptOf(host, head, policy, authorization, execution.value), env.receipt);
      trace := trace + CommittedAs(Logged(sink.leaves, bundle));
      reply := ReplyTo(execution.value, env.receipt);
    }
  }
}
