/** Starting a gateway: one owner per tool, lookups that only read, and a session for a grant that verifies. */
module Hosting {
  import opened Options
  import opened Wire
  import opened Delegation
  import opened G = Gateway

  lemma {:induction false} ToolsPrefix(us: seq<Upstream>, i: nat)
    requires i <= |us|
    ensures AllTools(us[..i]) <= AllTools(us)
  {
    var n := |us| - 1;
    if i <= n {
      ToolsPrefix(us[..n], i);
      assert us[..n][..i] == us[..i];
    } else {
      assert us[..i] == us;
    }
  }

  lemma NotDistinct(front: seq<string>, name: string, all: seq<string>)
    requires name in front && front + [name] <= all
    ensures !Distinct(all)
  {
    var i :| 0 <= i < |front| && front[i] == name;
    assert all[i] == name && all[|front|] == name;
  }

  ghost predicate Owns(owner: map<string, string>, names: seq<string>) {
    forall t :: t in owner <==> t in names
  }

  /** Adds the tools of one upstream, unless one of them is taken. */
  method ClaimOne(u: Upstream, claimed: map<string, string>, ghost before: seq<string>)
    returns (owner: Option<map<string, string>>)
    requires Distinct(before) && Owns(claimed, before)
    ensures owner.Some? <==> Distinct(before + u.tools)
    ensures owner.Some? ==> Owns(owner.value, before + u.tools) && forall t :: t in u.tools ==> owner.value[t] == u.name
    ensures owner.Some? ==> forall t :: t in before ==> owner.value[t] == claimed[t]
  {
    var now, tools := claimed, u.tools;
    assert before + tools[..0] == before;
    for j := 0 to |tools|
      invariant Distinct(before + tools[..j]) && Owns(now, before + tools[..j])
      invariant forall t :: t in tools[..j] ==> now[t] == u.name
      invariant forall t :: t in before ==> now[t] == claimed[t]
    {
      assert before + tools[..j + 1] == before + tools[..j] + [tools[j]];
      if tools[j] in now {
        NotDistinct(before + tools[..j], tools[j], before + tools);
        return None;
      }
      now := now[tools[j] := u.name];
    }
    assert tools[..|tools|] == tools;
    owner := Some(now);
  }

  /** Which upstream owns each tool; nothing if some tool is offered twice. */
  method ClaimTools(us: seq<Upstream>) returns (owner: Option<map<string, string>>)
    ensures owner.Some? <==> Distinct(AllTools(us))
    ensures owner.Some? ==> Owns(owner.value, AllTools(us))
    ensures owner.Some? ==> forall i, t :: 0 <= i < |us| && t in us[i].tools ==>
              t in AllTools(us) && owner.value[t] == us[i].name
  {
    var claimed: map<string, string> := map[];
    for i := 0 to |us|
      invariant Distinct(AllTools(us[..i])) && Owns(claimed, AllTools(us[..i]))
      invariant forall k, t :: 0 <= k < i && t in us[k].tools ==> t in AllTools(us[..i]) && claimed[t] == us[k].name
    {
      assert us[..i + 1][..i] == us[..i];
      var more := ClaimOne(us[i], claimed, AllTools(us[..i]));
      if more.None? {
        ToolsPrefix(us, i + 1);
        return None;
      }
      claimed := more.value;
    }
    assert us[..|us|] == us;
    owner := Some(claimed);
  }

  /** A host and a session on it: exactly if no lookup uses a tool that precommit names, no tool is listed twice, and
      the grant is accepted and inside its window now. */
  method Connect(host: Host, grant: Envelope, trusted: seq<KeyId>, now: Time, sink: LogSink) returns (g: Gateway?)
    ensures var tools, r := AllTools(host.upstreams), VerifyDelegation(grant, trusted, 1);
            g != null <==>
            && (forall f :: f in host.facts ==> f.tool !in host.precommit)
            && (forall i, j :: 0 <= i < j < |tools| ==> tools[i] != tools[j])
            && r.Accepted? && r.delegation.issuedAt <= now <= r.delegation.expiresAt
    ensures g != null ==> fresh(g) && g.host == host && g.sink == sink && g.consumed == [] && Starts(host)
    ensures g != null ==>
              && g.session.grant == grant
              && var r := VerifyDelegation(grant, trusted, 1);
                 g.session.delegation == r.delegation && g.session.keyid == r.keyid
  {
    for i := 0 to |host.facts|
      invariant forall j :: 0 <= j < i ==> host.facts[j].tool !in host.precommit
    {
      if host.facts[i].tool in host.precommit { return null; }
    }
    var owner := ClaimTools(host.upstreams);
    if owner.None? { return null; }
    var r := VerifyDelegation(grant, trusted, 1);
    if r.Rejected? || !ValidAt(r.delegation, now) { return null; }
    g := new Gateway(host, Session(grant, r.delegation, r.keyid), sink);
  }
}
