/** The gateway and the verifier agree: what the gateway sends was allowed and logged first, what it issues verifies,
    and what verifies says the same of any log it is checked against. */
module Agreement {
  import opened Hashing
  import opened Merkle
  import opened Proofs
  import opened Options
  import opened Wire
  import opened Delegation
  import MerkleLog
  import Verify
  import opened Gateway

  // ----- One call -----

  /** The parts of a handled call that its outcome is made of. */
  function PolicyIn(h: Host, s: Session, c: Call, env: Env): Policy {
    Decide(h, s, c, env).policy
  }

  function HeadIn(h: Host, s: Session, st: State, c: Call, env: Env): CallHead {
    HeadOf(h, s, st.consumed, c, env, Decide(h, s, c, env).facts)
  }

  function ExecutionIn(h: Host, s: Session, st: State, c: Call, env: Env): Execution {
    Execute(h, HeadIn(h, s, st, c, env), PolicyIn(h, s, c, env), env)
  }

  function AuthorizedIn(h: Host, s: Session, st: State, c: Call, env: Env): Logged {
    Authorize(h, st.log, HeadIn(h, s, st, c, env), PolicyIn(h, s, c, env), env)
  }

  function ReceiptIn(h: Host, s: Session, st: State, c: Call, env: Env): Receipt {
    var head := HeadIn(h, s, st, c, env);
    Receipt(Some(head.argsDigest), head, Some(PolicyIn(h, s, c, env)), AuthorizedIn(h, s, st, c, env).bundle,
      ExecutionIn(h, s, st, c, env))
  }

  /** Lookups and nothing else, by tools that are configured for one. */
  ghost predicate OnlyLookups(h: Host, trace: seq<Effect>) {
    forall i :: 0 <= i < |trace| ==> trace[i].Asked? && exists f :: f in h.facts && f.tool == trace[i].tool
  }

  lemma DecideOnlyLooks(h: Host, s: Session, c: Call, env: Env)
    ensures OnlyLookups(h, Decide(h, s, c, env).trace)
  {
    var trace := Decide(h, s, c, env).trace;
    forall i | 0 <= i < |trace|
      ensures trace[i].Asked? && exists f :: f in h.facts && f.tool == trace[i].tool
    {
      GatherAsks(h, c, env, 0, Gathered(map[], None, []), trace[i]);
    }
  }

  /** Some upstream lists the tool. */
  ghost predicate Listed(h: Host, tool: string) {
    exists u :: u in h.upstreams && tool in u.tools
  }

  lemma {:induction false} AllToolsHas(us: seq<Upstream>, tool: string)
    ensures tool in AllTools(us) <==> exists u :: u in us && tool in u.tools
    decreases |us|
  {
    if us != [] {
      var n := |us| - 1;
      AllToolsHas(us[..n], tool);
      assert us == us[..n] + [us[n]];
    }
  }

  lemma OffersExactly(h: Host, tool: string)
    ensures Offers(h, tool) <==> Listed(h, tool)
  {
    AllToolsHas(h.upstreams, tool);
  }

  /** The arguments a lookup is made with: the call's own where the configuration names one, else the fixed text. */
  ghost predicate FilledIn(template: map<string, Template>, args: Args, filled: Args) {
    && filled.Keys == template.Keys
    && forall x :: x in template ==>
         if template[x].FromArg? then template[x].key in args && filled[x] == args[template[x].key]
         else filled[x] == template[x].text
  }

  /** Lookup k is for this tool and all its arguments are there. */
  ghost predicate Applies(h: Host, c: Call, k: nat)
    requires k < |h.facts|
  {
    && c.tool in h.facts[k].forTools
    && forall x :: x in h.facts[k].args && h.facts[k].args[x].FromArg? ==> h.facts[k].args[x].key in c.args
  }

  lemma ResolveExactly(template: map<string, Template>, args: Args)
    ensures Resolve(template, args).Some? <==>
            forall x :: x in template && template[x].FromArg? ==> template[x].key in args
    ensures Resolve(template, args).Some? ==> FilledIn(template, args, Resolve(template, args).value)
  {
  }

  /** Lookup k ends the gathering. */
  ghost predicate Breaks(h: Host, c: Call, env: Env, k: nat)
    requires k < |h.facts|
  {
    && c.tool in h.facts[k].forTools
    && if Applies(h, c, k) then !Listed(h, h.facts[k].tool) || env.lookups(k).Throws? || env.lookups(k).result.isError
       else !h.facts[k].optional
  }

  /** f is what lookup k returned, under its name. */
  ghost predicate ComesFrom(h: Host, c: Call, env: Env, k: nat, name: string, f: Fact) {
    && k < |h.facts| && Applies(h, c, k) && h.facts[k].name == name
    && env.lookups(k).Replies? && !env.lookups(k).result.isError
    && f.tool == h.facts[k].tool && FilledIn(h.facts[k].args, c.args, f.args)
    && f.value == env.lookups(k).result.content
  }

  /** The facts are those of the first n lookups: each one observed, and none that applies left out. */
  ghost predicate Observed(h: Host, c: Call, env: Env, n: nat, facts: map<string, Fact>)
    requires n <= |h.facts|
  {
    && (forall name :: name in facts ==> exists k: nat :: k < n && ComesFrom(h, c, env, k, name, facts[name]))
    && (forall k: nat :: k < n && Applies(h, c, k) ==> h.facts[k].name in facts)
  }

  lemma ObservedNext(h: Host, c: Call, env: Env, i: nat, facts: map<string, Fact>, facts': map<string, Fact>)
    requires i < |h.facts| && Observed(h, c, env, i, facts) && !Breaks(h, c, env, i)
    requires if Applies(h, c, i)
             then
               && Resolve(h.facts[i].args, c.args).Some?
               && var args := Resolve(h.facts[i].args, c.args).value;
                 facts' == facts[h.facts[i].name := Fact(h.facts[i].tool, args, env.lookups(i).result.content)]
             else facts' == facts
    ensures Observed(h, c, env, i + 1, facts')
  {
    ResolveExactly(h.facts[i].args, c.args);
    forall name | name in facts'
      ensures exists k: nat :: k < i + 1 && ComesFrom(h, c, env, k, name, facts'[name])
    {
      if Applies(h, c, i) && name == h.facts[i].name {
        assert ComesFrom(h, c, env, i, name, facts'[name]);
      } else {
        var k: nat :| k < i && ComesFrom(h, c, env, k, name, facts[name]);
      }
    }
  }

  /** Gathering fails exactly when some lookup breaks it, and then keeps nothing; otherwise what it keeps was
      observed. */
  lemma {:induction false} GatherExact(h: Host, c: Call, env: Env, i: nat, g: Gathered)
    requires i <= |h.facts| && g.failure.None? && Observed(h, c, env, i, g.facts)
    ensures var r := Gather(h, c, env, i, g);
            && (r.failure.Some? <==> exists k: nat :: i <= k < |h.facts| && Breaks(h, c, env, k))
            && (if r.failure.Some? then r.facts == map[] else Observed(h, c, env, |h.facts|, r.facts))
    decreases |h.facts| - i
  {
    hide Observed, Resolve, Listed, Offers;
    if i < |h.facts| {
      var f := h.facts[i];
      OffersExactly(h, f.tool);
      ResolveExactly(f.args, c.args);
      if !Breaks(h, c, env, i) {
        var g' := if !Applies(h, c, i) then g
                  else var args := Resolve(f.args, c.args).value;
                       Gathered(g.facts[f.name := Fact(f.tool, args, env.lookups(i).result.content)], g.failure,
                         g.trace + [Asked(f.tool, args)]);
        ObservedNext(h, c, env, i, g.facts, g'.facts);
        GatherExact(h, c, env, i + 1, g');
        assert Gather(h, c, env, i, g) == Gather(h, c, env, i + 1, g');
      }
    }
  }

  /** The call is one the gateway lets its agent make: in scope, every lookup for it went through, and the policy
      answered with an allow and no errors. */
  ghost predicate Permitted(h: Host, s: Session, c: Call, env: Env) {
    && c.tool in s.delegation.scopes
    && (forall k: nat :: k < |h.facts| ==> !Breaks(h, c, env, k))
    && env.policy.Response? && env.policy.decision == Allow && env.policy.errors == []
  }

  /** The decision: an allow exactly for a permitted call, enforced exactly in enforce mode, with the reasons and errors
      the policy gave if it was asked, and some error if it was not. */
  lemma DecisionExactly(h: Host, s: Session, c: Call, env: Env)
    ensures var p := PolicyIn(h, s, c, env);
            && (p.decision == Allow <==> Permitted(h, s, c, env))
            && (p.enforced <==> h.mode == Enforce)
            && if c.tool in s.delegation.scopes && forall k: nat :: k < |h.facts| ==> !Breaks(h, c, env, k) then
                 match env.policy
                 case Response(_, reasons, errors) => p.reasons == reasons && p.errors == errors
                 case Failure(errors) => p.reasons == [] && p.errors == errors
                 case Reserved(text) => p.reasons == [] && p.errors == [text]
                 case Crash(text) => p.reasons == [] && p.errors == [text]
               else p.reasons == [] && |p.errors| == 1
  {
    GatherExact(h, c, env, 0, Gathered(map[], None, []));
  }

  /** A leaf of the log that authorizes exactly the call that was sent, signed with the gateway's key. */
  ghost predicate Vouches(h: Host, e: Effect, sent: Effect, log: Leaves) {
    && e.Committed? && sent.Sent?
    && 0 <= e.index < |log| && log[e.index] == LeafHash(h.canon(e.envelope))
    && SignedBy(e.envelope, h.key)
    && e.envelope.payload.AuthorizationPayload?
    && var a := e.envelope.payload.authorization;
       && a.head.receiptId == sent.receiptId && a.head.tool == sent.tool && a.head.args == sent.args
       && a.policy.Some? && a.policy.value.decision.Allow? && a.policy.value.errors == []
  }

  /** What a run may show in enforce mode at position k: a lookup of a tool that precommit does not name, a commit, or a
      call in scope that is, when consequential, already in the log. */
  ghost predicate Safe(h: Host, s: Session, trace: seq<Effect>, k: nat, log: Leaves)
    requires k < |trace|
  {
    match trace[k]
    case Asked(tool, _) => tool !in h.precommit
    case Committed(_, _) => true
    case Sent(_, tool, _) =>
      && tool in s.delegation.scopes
      && ("*" in h.precommit || tool in h.precommit ==>
            exists j: nat :: j < k && Vouches(h, trace[j], trace[k], log))
  }

  lemma AppendGrows(h: Host, log: Leaves, envelope: Envelope, answer: LogAnswer)
    ensures var l := AppendTo(h, log, envelope, answer);
            && log <= l.log
            && (l.bundle.Some? <==> answer.Takes?)
            && (l.bundle.Some? ==>
                  && l.bundle.value.inclusion.leafIndex == |l.log| - 1 >= |log|
                  && l.log[|l.log| - 1] == LeafHash(h.canon(envelope))
                  && l.bundle.value.envelope == envelope)
  {
  }

  /** When a call goes out: in observe mode always, in enforce mode if it is permitted and, where precommit covers its
      tool, the log took the authorization. */
  ghost predicate GoesOut(h: Host, s: Session, c: Call, env: Env) {
    && Listed(h, c.tool)
    && (h.mode == Observe ||
        (Permitted(h, s, c, env)
         && !(("*" in h.precommit || c.tool in h.precommit) && env.authorization.Refuses?)))
  }

  lemma GoesOutExactly(h: Host, s: Session, st: State, c: Call, env: Env)
    ensures IsSent(h, HeadIn(h, s, st, c, env), PolicyIn(h, s, c, env), env) <==> GoesOut(h, s, c, env)
  {
    hide Decide;
    DecisionExactly(h, s, c, env);
    OffersExactly(h, c.tool);
  }

  /** What a call lets go out to an upstream was permitted and, when precommit covers it, is in the log by then. */
  lemma SentMeans(h: Host, s: Session, st: State, c: Call, env: Env)
    requires h.mode.Enforce? && GoesOut(h, s, c, env) && ("*" in h.precommit || c.tool in h.precommit)
    ensures var a := AuthorizedIn(h, s, st, c, env);
            a.bundle.Some? && Vouches(h, CommittedAs(a)[0], Sent(env.receiptId, c.tool, c.args), a.log)
  {
    hide Decide;
    DecisionExactly(h, s, c, env);
    AppendGrows(h, st.log, AuthorizationOf(h, HeadIn(h, s, st, c, env), PolicyIn(h, s, c, env)), env.authorization);
  }

  /** The trace of one call, taken apart. */
  lemma TraceOf(h: Host, s: Session, st: State, c: Call, env: Env)
    ensures var o := Handle(h, s, st, c, env);
            var a := AuthorizedIn(h, s, st, c, env);
            var sent := if GoesOut(h, s, c, env) then [Sent(env.receiptId, c.tool, c.args)] else [];
            && o.trace == Decide(h, s, c, env).trace + CommittedAs(a) + sent
                          + CommittedAs(Logged(o.state.log, o.bundle))
            && st.log <= a.log <= o.state.log
  {
    hide Decide, GoesOut;
    GoesOutExactly(h, s, st, c, env);
    var head, policy := HeadIn(h, s, st, c, env), PolicyIn(h, s, c, env);
    var a := AuthorizedIn(h, s, st, c, env);
    AppendGrows(h, st.log, AuthorizationOf(h, head, policy), env.authorization);
    AppendGrows(h, a.log, ReceiptOf(h, head, policy, a.bundle, ExecutionIn(h, s, st, c, env)), env.receipt);
  }

  lemma CallSafe(h: Host, s: Session, st: State, c: Call, env: Env, k: nat)
    requires Starts(h) && h.mode.Enforce? && k < |Handle(h, s, st, c, env).trace|
    ensures var o := Handle(h, s, st, c, env); Safe(h, s, o.trace, k, o.state.log)
  {
    hide Handle, Decide, Authorize, Listed, Breaks;
    TraceOf(h, s, st, c, env);
    DecideOnlyLooks(h, s, c, env);
    var o := Handle(h, s, st, c, env);
    if o.trace[k].Sent? && ("*" in h.precommit || c.tool in h.precommit) {
      SentMeans(h, s, st, c, env);
      var j := |Decide(h, s, c, env).trace|;
      assert o.trace[j] == CommittedAs(AuthorizedIn(h, s, st, c, env))[0];
      assert Vouches(h, o.trace[j], o.trace[k], o.state.log);
    }
  }

  /** Whether a call is sent can be read off the host, the session and what happened around the call, in either
      direction; and it is sent once. */
  lemma SentExactly(h: Host, s: Session, st: State, c: Call, env: Env)
    ensures var trace, sent := Handle(h, s, st, c, env).trace, Sent(env.receiptId, c.tool, c.args);
            && (sent in trace <==> GoesOut(h, s, c, env))
            && (forall k :: 0 <= k < |trace| && trace[k].Sent? ==> trace[k] == sent)
            && (forall j, k :: 0 <= j < k < |trace| && trace[j].Sent? ==> !trace[k].Sent?)
  {
    hide Handle, Decide, Authorize, GoesOut;
    TraceOf(h, s, st, c, env);
    DecideOnlyLooks(h, s, c, env);
  }

  // ----- Runs -----

  /** The session and the log after a run of calls. */
  function After(h: Host, s: Session, st: State, calls: seq<(Call, Env)>): State {
    if calls == [] then st
    else
      var last := calls[|calls| - 1];
      Handle(h, s, After(h, s, st, calls[..|calls| - 1]), last.0, last.1).state
  }

  function Trace(h: Host, s: Session, st: State, calls: seq<(Call, Env)>): seq<Effect> {
    if calls == [] then []
    else
      var before, last := calls[..|calls| - 1], calls[|calls| - 1];
      Trace(h, s, st, before) + Handle(h, s, After(h, s, st, before), last.0, last.1).trace
  }

  lemma SafeLater(h: Host, s: Session, trace: seq<Effect>, more: seq<Effect>, k: nat, log: Leaves, log': Leaves)
    requires k < |trace| && Safe(h, s, trace, k, log) && log <= log'
    ensures Safe(h, s, trace + more, k, log')
  {
    if trace[k].Sent? && ("*" in h.precommit || trace[k].tool in h.precommit) {
      var j: nat :| j < k && Vouches(h, trace[j], trace[k], log);
      assert Vouches(h, (trace + more)[j], (trace + more)[k], log');
    }
  }

  lemma SafeShifted(h: Host, s: Session, front: seq<Effect>, trace: seq<Effect>, k: nat, log: Leaves)
    requires k < |trace| && Safe(h, s, trace, k, log)
    ensures Safe(h, s, front + trace, |front| + k, log)
  {
    if trace[k].Sent? && ("*" in h.precommit || trace[k].tool in h.precommit) {
      var j: nat :| j < k && Vouches(h, trace[j], trace[k], log);
      assert Vouches(h, (front + trace)[|front| + j], (front + trace)[|front| + k], log);
    }
  }

  /** Over every run in enforce mode, whatever lookups, policy, log and upstreams do: an agent's call goes out only in
      scope and, when precommit covers its tool, after an authorization of exactly that call is a leaf of the log, where
      it stays; and a tool that precommit names is never used for a lookup. */
  lemma {:induction false} RunSafe(h: Host, s: Session, st: State, calls: seq<(Call, Env)>, k: nat)
    requires Starts(h) && h.mode.Enforce? && k < |Trace(h, s, st, calls)|
    ensures Safe(h, s, Trace(h, s, st, calls), k, After(h, s, st, calls).log)
  {
    hide Handle, Safe;
    var before, last := calls[..|calls| - 1], calls[|calls| - 1];
    var mid := After(h, s, st, before);
    var o := Handle(h, s, mid, last.0, last.1);
    var t := Trace(h, s, st, before);
    if k < |t| {
      RunSafe(h, s, st, before, k);
      TraceOf(h, s, mid, last.0, last.1);
      SafeLater(h, s, t, o.trace, k, mid.log, o.state.log);
    } else {
      CallSafe(h, s, mid, last.0, last.1, k - |t|);
      SafeShifted(h, s, t, o.trace, k - |t|, o.state.log);
    }
  }

  // ----- What a receipt says happened -----

  /** The facts a receipt lists are those the gateway observed for the call, or none: none out of scope, and none
      after a lookup that failed, whatever came before it. */
  lemma ReceiptFactsObserved(h: Host, s: Session, st: State, c: Call, env: Env)
    requires env.receipt.Takes?
    ensures var b := Handle(h, s, st, c, env).bundle;
            && b.Some? && b.value.envelope.payload.ReceiptPayload?
            && var facts := b.value.envelope.payload.receipt.head.facts;
            if c.tool in s.delegation.scopes && forall k: nat :: k < |h.facts| ==> !Breaks(h, c, env, k)
            then Observed(h, c, env, |h.facts|, facts) else facts == map[]
  {
    hide Observed, Authorize, Execute;
    ObservedNone(h, c, env);
    GatherExact(h, c, env, 0, Gathered(map[], None, []));
  }

  lemma ObservedNone(h: Host, c: Call, env: Env)
    ensures Observed(h, c, env, 0, map[])
  {
  }

  /** Lookup k is made for the call, with these arguments. */
  ghost predicate Makes(h: Host, c: Call, k: nat, e: Effect) {
    && k < |h.facts| && e.Asked? && e.tool == h.facts[k].tool
    && Applies(h, c, k) && Listed(h, e.tool) && FilledIn(h.facts[k].args, c.args, e.args)
  }

  lemma {:induction false} GatherAsks(h: Host, c: Call, env: Env, i: nat, g: Gathered, e: Effect)
    requires i <= |h.facts|
    ensures e in Gather(h, c, env, i, g).trace <==>
            || e in g.trace
            || exists k: nat ::
                 i <= k && Makes(h, c, k, e) && forall j: nat :: i <= j < k ==> !Breaks(h, c, env, j)
    decreases |h.facts| - i
  {
    hide Resolve, Listed, Offers;
    if i < |h.facts| {
      var f := h.facts[i];
      OffersExactly(h, f.tool);
      ResolveExactly(f.args, c.args);
      var g' := g;
      if Applies(h, c, i) {
        var args := Resolve(f.args, c.args).value;
        FilledOnce(f.args, c.args, args);
        assert Makes(h, c, i, e) <==> Listed(h, f.tool) && e == Asked(f.tool, args);
        if Listed(h, f.tool) && env.lookups(i).Replies? {
          g' := Gathered(g.facts[f.name := Fact(f.tool, args, env.lookups(i).result.content)], g.failure,
            g.trace + [Asked(f.tool, args)]);
        }
      }
      if !Breaks(h, c, env, i) {
        GatherAsks(h, c, env, i + 1, g', e);
      }
    }
  }

  lemma FilledOnce(template: map<string, Template>, args: Args, filled: Args)
    requires FilledIn(template, args, filled)
    ensures forall other: Args :: FilledIn(template, args, other) ==> other == filled
  {
  }

  /** The lookups a call causes: for a tool in scope each configured one that applies, up to the first that breaks, with
      the arguments filled in; for any other tool none. */
  lemma LookupsExactly(h: Host, s: Session, st: State, c: Call, env: Env, e: Effect)
    requires e.Asked?
    ensures e in Handle(h, s, st, c, env).trace <==>
            && c.tool in s.delegation.scopes
            && exists k: nat :: Makes(h, c, k, e) && forall j: nat :: j < k ==> !Breaks(h, c, env, j)
  {
    hide Handle, Gather, Authorize, GoesOut, Makes;
    TraceOf(h, s, st, c, env);
    GatherAsks(h, c, env, 0, Gathered(map[], None, []), e);
  }

  /** Who called what, when, under which receipt id and grant. */
  ghost predicate NamesTheCall(p: CallHead, h: Host, s: Session, c: Call, env: Env) {
    && p.receiptId == env.receiptId && p.timestamp == env.now
    && p.issuer == Issuer("gateway", h.key)
    && p.tool == c.tool && p.args == c.args && p.argsDigest == DigestOf(c.args)
    && p.agent == s.delegation.agent && p.principal == Attested(s.delegation.principal, s.keyid)
    && p.grant == Some(s.grant)
  }

  /** What became of the call: for a call that was sent what the upstream did, else why it was not. */
  ghost predicate TellsWhatHappened(e: Execution, h: Host, s: Session, c: Call, env: Env, policy: Policy) {
    if GoesOut(h, s, c, env) then
      match env.upstream
      case Throws(message) => e == Error(message)
      case Replies(r) => e == if r.isError then Failed(r) else Executed(r)
    else if h.mode == Enforce && !Permitted(h, s, c, env) then e == Denied(policy.reasons + policy.errors)
    else if h.mode == Enforce && ("*" in h.precommit || c.tool in h.precommit) && env.authorization.Refuses? then
      e == Withheld(env.authorization.message)
    else e.Error?
  }

  lemma ExecutionExactly(h: Host, s: Session, st: State, c: Call, env: Env)
    ensures TellsWhatHappened(ExecutionIn(h, s, st, c, env), h, s, c, env, PolicyIn(h, s, c, env))
  {
    hide Decide, Permitted;
    DecisionExactly(h, s, c, env);
    GoesOutExactly(h, s, st, c, env);
    OffersExactly(h, c.tool);
  }

  /** What a handled call leaves behind, in any mode. If the log takes the receipt, it is a receipt signed with the
      gateway's key that names the call and says what became of it, and the agent gets the upstream's result exactly if
      the call was sent and answered; if the log does not take it, the agent gets no result at all. */
  lemma ReceiptTellsTruth(h: Host, s: Session, st: State, c: Call, env: Env)
    ensures var o := Handle(h, s, st, c, env);
            match env.receipt
            case Refuses(_, message) => o.bundle.None? && o.reply == Threw(message)
            case Takes(_, _) =>
              && o.bundle.Some? && o.bundle.value.envelope.payload.ReceiptPayload?
              && SignedBy(o.bundle.value.envelope, h.key) && o.bundle.value.envelope.payloadType == RECEIPT_TYPE
              && o.state.log != [] && o.state.log[|o.state.log| - 1] == LeafHash(h.canon(o.bundle.value.envelope))
              && Committed(|o.state.log| - 1, o.bundle.value.envelope) in o.trace
              && var p := o.bundle.value.envelope.payload.receipt;
              && NamesTheCall(p.head, h, s, c, env) && p.subject == Some(DigestOf(c.args))
              && p.head.consumed == Some(st.consumed) && p.policy == Some(PolicyIn(h, s, c, env))
              && TellsWhatHappened(p.execution, h, s, c, env, p.policy.value)
              && (if GoesOut(h, s, c, env) && env.upstream.Replies? then o.reply == Returned(env.upstream.result)
                  else o.reply == Refused(p.execution))
  {
    hide Decide, Authorize, Receive, GoesOut, Permitted;
    var head, policy := HeadIn(h, s, st, c, env), PolicyIn(h, s, c, env);
    var a := AuthorizedIn(h, s, st, c, env);
    TraceOf(h, s, st, c, env);
    ExecutionExactly(h, s, st, c, env);
    AppendGrows(h, a.log, ReceiptOf(h, head, policy, a.bundle, ExecutionIn(h, s, st, c, env)), env.receipt);
  }

  /** What a handled call adds to the log: for a permitted call that precommit covers the leaf of an authorization that
      names the call, unless the log refuses, and the leaf of the receipt, unless the log refuses; each after what
      others appended, and nothing else. The receipt carries the authorization exactly if its leaf was taken. */
  lemma LogGrowsExactly(h: Host, s: Session, st: State, c: Call, env: Env) returns (a: Envelope, b: Envelope)
    ensures var o := Handle(h, s, st, c, env);
            var asks := Permitted(h, s, c, env) && ("*" in h.precommit || c.tool in h.precommit);
            && o.state.log
               == st.log + (if asks then Taken(h, a, env.authorization) else []) + Taken(h, b, env.receipt)
            && (env.receipt.Takes? ==> o.bundle.Some? && o.bundle.value.envelope == b)
            && b.payload.ReceiptPayload?
            && (b.payload.receipt.authorization.Some? <==> asks && env.authorization.Takes?)
            && (asks && env.authorization.Takes? ==> b.payload.receipt.authorization.value.envelope == a)
            && SignedBy(a, h.key) && a.payload.AuthorizationPayload?
            && NamesTheCall(a.payload.authorization.head, h, s, c, env)
            && a.payload.authorization.policy == b.payload.receipt.policy
  {
    hide Decide, Receive, Permitted, Execute, Note, Shown;
    DecisionExactly(h, s, c, env);
    var head, policy := HeadIn(h, s, st, c, env), PolicyIn(h, s, c, env);
    a := AuthorizationOf(h, head, policy);
    var l := AuthorizedIn(h, s, st, c, env);
    b := ReceiptOf(h, head, policy, l.bundle, ExecutionIn(h, s, st, c, env));
    AppendGrows(h, st.log, a, env.authorization);
    AppendGrows(h, l.log, b, env.receipt);
    AppendTakes(h, st.log, a, env.authorization);
    AppendTakes(h, l.log, b, env.receipt);
  }

  lemma AppendTakes(h: Host, log: Leaves, envelope: Envelope, answer: LogAnswer)
    ensures AppendTo(h, log, envelope, answer).log == log + Taken(h, envelope, answer)
  {
  }

  /** What others appended first, and the envelope's leaf if it was taken. */
  function Taken(h: Host, envelope: Envelope, answer: LogAnswer): Leaves {
    answer.others + if answer.Takes? then [LeafHash(h.canon(envelope))] else []
  }

  /** In enforce mode every call that goes out is one the agent made and was permitted to make. */
  lemma {:induction false} RunAllowed(h: Host, s: Session, st: State, calls: seq<(Call, Env)>, k: nat)
    requires h.mode.Enforce? && k < |Trace(h, s, st, calls)| && Trace(h, s, st, calls)[k].Sent?
    ensures exists i: nat ::
              && i < |calls|
              && Trace(h, s, st, calls)[k] == Sent(calls[i].1.receiptId, calls[i].0.tool, calls[i].0.args)
              && Permitted(h, s, calls[i].0, calls[i].1)
  {
    hide Handle, Permitted;
    var before, last := calls[..|calls| - 1], calls[|calls| - 1];
    var mid := After(h, s, st, before);
    var t := Trace(h, s, st, before);
    if k < |t| {
      RunAllowed(h, s, st, before, k);
      var i: nat :| i < |before| && t[k] == Sent(before[i].1.receiptId, before[i].0.tool, before[i].0.args)
                    && Permitted(h, s, before[i].0, before[i].1);
      assert before[i] == calls[i];
    } else {
      var o := Handle(h, s, mid, last.0, last.1);
      assert Trace(h, s, st, calls)[k] == o.trace[k - |t|];
      SentExactly(h, s, mid, last.0, last.1);
      assert calls[|calls| - 1] == last;
    }
  }

  // ----- What a session was shown -----

  lemma {:induction false} NoteKeeps(consumed: seq<string>, ids: seq<string>)
    requires Distinct(consumed)
    ensures var n := Note(consumed, ids);
            && consumed <= n && Distinct(n)
            && forall x :: x in n <==> x in consumed || x in ids
    decreases |ids|
  {
    if ids != [] {
      var next := if ids[0] in consumed then consumed else consumed + [ids[0]];
      NoteKeeps(next, ids[1..]);
    }
  }

  /** The id was declared in the result of a call that was sent. */
  ghost predicate Declared(h: Host, s: Session, c: Call, env: Env, id: string) {
    GoesOut(h, s, c, env) && env.upstream.Replies? && id in env.upstream.result.served
  }

  lemma DeclaredIsShown(h: Host, s: Session, st: State, c: Call, env: Env, id: string)
    ensures Declared(h, s, c, env, id) <==> id in Shown(ExecutionIn(h, s, st, c, env))
  {
    hide GoesOut, Permitted, Execute, Decide;
    ExecutionExactly(h, s, st, c, env);
  }

  /** So the ids of a session are those of all its calls. */
  lemma {:induction false} ConsumedIsShown(h: Host, s: Session, st: State, calls: seq<(Call, Env)>, id: string)
    requires st.consumed == []
    ensures var ids := After(h, s, st, calls).consumed;
            Distinct(ids) && (id in ids <==> exists x :: x in calls && Declared(h, s, x.0, x.1, id))
  {
    hide Decide, Authorize, Execute, AppendTo, Declared;
    if calls != [] {
      var before, last := calls[..|calls| - 1], calls[|calls| - 1];
      ConsumedIsShown(h, s, st, before, id);
      assert calls == before + [last];
      var mid := After(h, s, st, before);
      DeclaredIsShown(h, s, mid, last.0, last.1, id);
      NoteKeeps(mid.consumed, Shown(ExecutionIn(h, s, mid, last.0, last.1)));
    }
  }

  /** In a session that starts with nothing, after any calls: the ids the next receipt lists as consumed are, without
      repeats, exactly those declared in the results of those calls, and not any of its own call. */
  lemma {:induction false} ConsumedExact(h: Host, s: Session, st: State, calls: seq<(Call, Env)>, c: Call, env: Env,
      id: string)
    requires st.consumed == [] && env.receipt.Takes?
    ensures var b := Handle(h, s, After(h, s, st, calls), c, env).bundle;
            && b.Some? && b.value.envelope.payload.ReceiptPayload?
            && var ids := b.value.envelope.payload.receipt.head.consumed;
               && ids.Some? && (forall i, j :: 0 <= i < j < |ids.value| ==> ids.value[i] != ids.value[j])
               && (id in ids.value <==> exists x :: x in calls && Declared(h, s, x.0, x.1, id))
  {
    hide After, Declared, Decide, Authorize, Execute;
    ConsumedIsShown(h, s, st, calls, id);
  }

  // ----- Issued receipts verify -----

  /** The verifier trusts this gateway, its log, and the principals the session was opened with. */
  ghost predicate Trusts(o: Verify.Knowledge, h: Host, s: Session) {
    && h.key in o.issuerKeys
    && h.logKey in o.logKeys + o.issuerKeys
    && var r := VerifyDelegation(s.grant, o.principalKeys, 1);
       r.Accepted? && r.delegation == s.delegation && r.keyid == s.keyid
  }

  /** A log's answer puts the envelope in the log for every verifier that trusts the log's key. */
  lemma ReceivedInLog(h: Host, d: Leaves, envelope: Envelope, at: Time, keys: seq<KeyId>)
    requires h.logKey in keys
    ensures var b := Receive(h, d, envelope, at);
            var d' := d + [LeafHash(h.canon(envelope))];
            && Verify.InLog(h.canon, b, keys) && Verify.HeadOf(b.treeHead, d')
            && b.envelope == envelope && b.treeHead.payload.treeHead.log == NamedLog(h.logId)
            && b.inclusion.leafIndex == |d| && b.inclusion.treeSize == |d| + 1
  {
    hide Mth, Path;
    var d' := d + [LeafHash(h.canon(envelope))];
    var b := Receive(h, d, envelope, at);
    SignThenVerify(TREEHEAD_TYPE, b.treeHead.payload, h.logKey, keys);
    Verify.InLogExact(h.canon, b, keys, d');
  }

  lemma PolicyHoldsAlways(h: Host, s: Session, st: State, c: Call, env: Env)
    ensures Verify.PolicyHolds(ReceiptIn(h, s, st, c, env))
  {
    hide Decide, Breaks, Listed, Execute, Authorize;
    DecisionExactly(h, s, c, env);
    ExecutionExactly(h, s, st, c, env);
  }

  /** The authorization a receipt carries passes its checks, and its tree head names the log the receipt's own does. */
  lemma AuthorizationVerifies(h: Host, s: Session, st: State, c: Call, env: Env, o: Verify.Knowledge)
    requires Trusts(o, h, s) && env.receipt.Takes?
    ensures var x, p := Handle(h, s, st, c, env), ReceiptIn(h, s, st, c, env);
            && x.bundle.Some? && Verify.AuthorizationHolds(h.canon, p, h.key, x.bundle.value.inclusion, o)
            && Verify.AllName(x.bundle.value, p, if h.logId == Some("") then None else h.logId)
  {
    hide Decide, Receive, Verify.InLog, VerifyDelegation;
    var head, policy := HeadIn(h, s, st, c, env), PolicyIn(h, s, c, env);
    var a := AuthorizedIn(h, s, st, c, env);
    var keys := o.logKeys + o.issuerKeys;
    var receipt := ReceiptOf(h, head, policy, a.bundle, ExecutionIn(h, s, st, c, env));
    ReceivedInLog(h, a.log + env.receipt.others, receipt, env.receipt.at, keys);
    if a.bundle.Some? {
      var envelope := AuthorizationOf(h, head, policy);
      SignThenVerify(RECEIPT_TYPE, envelope.payload, h.key, o.issuerKeys);
      ReceivedInLog(h, st.log + env.authorization.others, envelope, env.authorization.at, keys);
    }
  }

  /** The evidence of a call that was sent and answered passes, for a verifier with the means to judge it: an upstream's
      signature over this result of this tool for this receipt, or a delivery its secret accepts. */
  ghost predicate EvidencePasses(h: Host, s: Session, c: Call, env: Env, o: Verify.Knowledge) {
    GoesOut(h, s, c, env) && env.upstream.Replies? && env.upstream.result.evidence.Some? ==>
      var r := env.upstream.result;
      match r.evidence.value
      case UpstreamSignature(e) =>
        o.upstreamKeys != [] ==>
          && DsseVerify(e, o.upstreamKeys).Good? && e.payloadType == UPSTREAM_TYPE
          && e.payload == UpstreamPayload(env.receiptId, c.tool, r.content, r.isError)
      case ProviderDelivery(delivery) => o.provider.Some? ==> o.provider.value(delivery, env.now, r)
  }

  lemma EvidenceExactly(h: Host, s: Session, st: State, c: Call, env: Env, o: Verify.Knowledge)
    ensures var p := ReceiptIn(h, s, st, c, env);
            && (Verify.EvidenceHolds(p, o) <==> EvidencePasses(h, s, c, env, o))
            && (Verify.Ran(p.execution) <==> GoesOut(h, s, c, env) && env.upstream.Replies?)
  {
    hide Decide, Execute, Authorize, Permitted, GoesOut, VerdictFrom;
    ExecutionExactly(h, s, st, c, env);
  }

  /** Of the verifier's checks on what a gateway issued, all but these pass always, in any mode and whatever lookups,
      policy, log and upstream did. The receipt verifies exactly when the grant's window holds the call, a call that ran
      was in scope, upstream evidence passes, and the log is the one expected. */
  lemma ReceiptVerifiesExactly(h: Host, s: Session, st: State, c: Call, env: Env, o: Verify.Knowledge)
    requires Trusts(o, h, s) && env.receipt.Takes?
    ensures var x := Handle(h, s, st, c, env);
            x.bundle.Some? &&
            (Verify.Holds(h.canon, x.bundle.value, o) <==>
             && s.delegation.issuedAt <= env.now <= s.delegation.expiresAt
             && (GoesOut(h, s, c, env) && env.upstream.Replies? ==> c.tool in s.delegation.scopes)
             && EvidencePasses(h, s, c, env, o)
             && (o.logId.Some? ==> o.logId == if h.logId == Some("") then None else h.logId)
             && (o.logFile.Some? ==> x.state.log <= o.logFile.value))
  {
    hide Decide, Receive, Verify.InLog, VerifyDelegation, Verify.EvidenceHolds, Verify.AuthorizationHolds,
      Verify.PolicyHolds, Verify.FileAgrees, Execute, Authorize, GoesOut, EvidencePasses;
    var head, policy := HeadIn(h, s, st, c, env), PolicyIn(h, s, c, env);
    var a := AuthorizedIn(h, s, st, c, env);
    var p := ReceiptIn(h, s, st, c, env);
    var x := Handle(h, s, st, c, env);
    var envelope := ReceiptOf(h, head, policy, a.bundle, ExecutionIn(h, s, st, c, env));
    SignThenVerify(RECEIPT_TYPE, envelope.payload, h.key, o.issuerKeys);
    ReceivedInLog(h, a.log + env.receipt.others, envelope, env.receipt.at, o.logKeys + o.issuerKeys);
    PolicyHoldsAlways(h, s, st, c, env);
    EvidenceExactly(h, s, st, c, env, o);
    AuthorizationVerifies(h, s, st, c, env, o);
    assert x.bundle == Some(Receive(h, a.log + env.receipt.others, envelope, env.receipt.at));
    assert envelope.payload == ReceiptPayload(p);
    if o.logFile.Some? {
      Verify.FileAgreesExactly(o.logFile.value, x.state.log, x.bundle.value.treeHead.payload.treeHead);
    }
  }

  /** In enforce mode every receipt issued inside the grant's window verifies, for a verifier that expects this log and
      holds no means to judge upstream evidence. */
  lemma {:induction false} EnforcedReceiptVerifies(h: Host, s: Session, st: State, c: Call, env: Env,
      o: Verify.Knowledge)
    requires Trusts(o, h, s) && env.receipt.Takes? && h.mode.Enforce?
    requires s.delegation.issuedAt <= env.now <= s.delegation.expiresAt
    requires o.upstreamKeys == [] && o.provider.None? && o.logFile.None?
             && (o.logId.Some? ==> o.logId == if h.logId == Some("") then None else h.logId)
    ensures Verify.Holds(h.canon, Handle(h, s, st, c, env).bundle.value, o)
  {
    hide Handle, Verify.Holds, Listed, Breaks;
    ReceiptVerifiesExactly(h, s, st, c, env, o);
  }
}
