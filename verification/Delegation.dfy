/** Delegation chains: a grant signed by a trusted principal, and narrower grants below it, each signed by the key its
    parent names and carrying its parent inside. */
module Delegation {
  import opened Options
  import opened Wire

  const MAX_DELEGATION_DEPTH: nat := 4

  /** What the schema asks of a grant beyond its shape. */
  predicate WellFormed(d: Delegation) {
    && d.principal != "" && d.agent != ""
    && d.scopes != [] && "" !in d.scopes
    && (d.agentKey.Some? && d.agentKey.value.NotAKey? ==> d.agentKey.value.text != "")
    && (d.parent.Some? ==> d.parent.value.signatures != [])
  }

  /** The grant as written in the envelope, verified or not. */
  function Decode(env: Envelope): Option<Delegation> {
    if env.payload.GrantPayload? && WellFormed(env.payload.grant) then Some(env.payload.grant) else None
  }

  predicate Within(inner: Delegation, outer: Delegation) {
    outer.issuedAt <= inner.issuedAt && inner.expiresAt <= outer.expiresAt
  }

  predicate SubScopes(inner: Delegation, outer: Delegation) {
    forall s :: s in inner.scopes ==> s in outer.scopes
  }

  predicate ValidAt(d: Delegation, at: Time) {
    d.issuedAt <= at <= d.expiresAt
  }

  datatype Result = Accepted(delegation: Delegation, keyid: KeyId, chain: seq<Delegation>) | Rejected

  /** Walks a chain up to a grant signed by a trusted principal key. */
  function VerifyDelegation(env: Envelope, trusted: seq<KeyId>, depth: nat): Result
    decreases env
  {
    if env.payloadType != DELEGATION_TYPE then Rejected
    else if depth > MAX_DELEGATION_DEPTH then Rejected
    else if Decode(env).None? then Rejected
    else
      var d := Decode(env).value;
      if d.parent.None? then
        match DsseVerify(env, trusted)
        case Bad => Rejected
        case Good(_, keyid) => Accepted(d, keyid, [d])
      else
        var up := VerifyDelegation(d.parent.value, trusted, depth + 1);
        if up.Rejected? then Rejected
        else if up.delegation.agentKey.None? || up.delegation.agentKey.value.NotAKey? then Rejected
        else if DsseVerify(env, [up.delegation.agentKey.value.key]).Bad? then Rejected
        else if d.principal != up.delegation.principal then Rejected
        else if !SubScopes(d, up.delegation) then Rejected
        else if !Within(d, up.delegation) then Rejected
        else Accepted(d, up.keyid, up.chain + [d])
  }

  datatype SubDelegation = SubDelegation(
    agent: string,
    scopes: seq<string>,
    issuedAt: Option<Time>,
    expiresAt: Option<Time>,
    agentKey: Option<AgentKey>)

  function SubGrant(p: Delegation, parent: Envelope, sub: SubDelegation, now: Time): Delegation {
    Wire.Delegation(p.principal, sub.agent, sub.scopes,
                    if sub.issuedAt.Some? then sub.issuedAt.value else now,
                    if sub.expiresAt.Some? then sub.expiresAt.value else p.expiresAt,
                    if sub.agentKey == Some(NotAKey("")) then None else sub.agentKey, Some(parent))
  }

  /** An agent delegates part of its grant; none where the code throws. It gets a signed grant exactly if it holds the
      key the parent names, asks for scopes of the parent only, and for at least one, for a window inside the parent's,
      and names the sub-agent; and the grant is the one asked for. */
  function DelegateFrom(parent: Envelope, agentKey: KeyId, sub: SubDelegation, now: Time): (r: Option<Envelope>)
    ensures r.Some? <==>
            && Complete(parent)
            && var p := parent.payload.grant;
            && p.agentKey == Some(Pem(agentKey))
            && sub.agent != "" && sub.scopes != [] && (forall x :: x in sub.scopes ==> x in p.scopes)
            && p.issuedAt <= (if sub.issuedAt.Some? then sub.issuedAt.value else now)
            && (sub.expiresAt.Some? ==> sub.expiresAt.value <= p.expiresAt)
            && parent.signatures != []
    ensures r.Some? ==> && r.value.payloadType == DELEGATION_TYPE && r.value.payload.GrantPayload?
                        && AskedFor(r.value.payload.grant, parent, sub, now) && SignedBy(r.value, agentKey)
  {
    if Decode(parent).None? then None
    else
      var p := Decode(parent).value;
      var d := SubGrant(p, parent, sub, now);
      if p.agentKey != Some(Pem(agentKey)) then None
      else if !SubScopes(d, p) || !Within(d, p) || !WellFormed(d) then None
      else Some(DsseSign(DELEGATION_TYPE, GrantPayload(d), agentKey))
  }

  // ----- What an accepted chain is -----

  /** The envelopes of a chain, root first. */
  function Links(env: Envelope): seq<Envelope>
    decreases env
  {
    if env.payload.GrantPayload? && env.payload.grant.parent.Some? then Links(env.payload.grant.parent.value) + [env]
      else [env]
  }

  /** The grant in an envelope has what every grant must have: names, a scope, and no empty text where one is given. */
  ghost predicate Complete(link: Envelope) {
    && link.payload.GrantPayload?
    && var d := link.payload.grant;
       && |d.principal| >= 1 && |d.agent| >= 1 && |d.scopes| >= 1
       && (forall k :: 0 <= k < |d.scopes| ==> |d.scopes[k]| >= 1)
       && d.agentKey != Some(NotAKey(""))
       && (d.parent.Some? ==> |d.parent.value.signatures| >= 1)
  }

  /** Each link under the one before: it embeds that envelope, is signed by the key it names, keeps its principal, asks
      for none but its scopes, and stays inside its window. */
  ghost predicate Under(above: Envelope, below: Envelope)
    requires above.payload.GrantPayload? && below.payload.GrantPayload?
  {
    var outer, inner := above.payload.grant, below.payload.grant;
    && inner.parent == Some(above)
    && outer.agentKey.Some? && outer.agentKey.value.Pem? && DsseVerify(below, [outer.agentKey.value.key]).Good?
    && inner.principal == outer.principal
    && (forall k :: 0 <= k < |inner.scopes| ==> inner.scopes[k] in outer.scopes)
    && outer.issuedAt <= inner.issuedAt && inner.expiresAt <= outer.expiresAt
  }

  ghost predicate SoundChain(links: seq<Envelope>, trusted: seq<KeyId>) {
    && links != [] && DsseVerify(links[0], trusted).Good?
    && (forall i :: 0 <= i < |links| ==> links[i].payloadType == DELEGATION_TYPE && Complete(links[i]))
    && (forall i :: 0 < i < |links| ==> Under(links[i - 1], links[i]))
  }

  function Grants(links: seq<Envelope>): (r: seq<Delegation>)
    requires forall i :: 0 <= i < |links| ==> links[i].payload.GrantPayload?
  {
    seq(|links|, i requires 0 <= i < |links| => links[i].payload.grant)
  }

  lemma SoundSnoc(links: seq<Envelope>, env: Envelope, trusted: seq<KeyId>)
    requires links != []
    ensures SoundChain(links + [env], trusted) <==>
            && SoundChain(links, trusted) && env.payloadType == DELEGATION_TYPE && Complete(env)
            && Under(links[|links| - 1], env)
    ensures SoundChain(links + [env], trusted) ==> Grants(links + [env]) == Grants(links) + [env.payload.grant]
  {
    var all := links + [env];
    assert all[|links|] == env && forall i :: 0 <= i < |links| ==> all[i] == links[i];
  }

  lemma CompleteExactly(env: Envelope)
    ensures Complete(env) <==> Decode(env).Some?
  {
    if env.payload.GrantPayload? && "" in env.payload.grant.scopes {
      var k :| 0 <= k < |env.payload.grant.scopes| && env.payload.grant.scopes[k] == "";
    }
  }

  lemma LastLink(env: Envelope)
    ensures Links(env) != [] && Links(env)[|Links(env)| - 1] == env
  {
  }

  lemma SoundAlone(env: Envelope, trusted: seq<KeyId>)
    ensures SoundChain([env], trusted) <==>
            DsseVerify(env, trusted).Good? && env.payloadType == DELEGATION_TYPE && Complete(env)
    ensures SoundChain([env], trusted) ==> Grants([env]) == [env.payload.grant]
  {
  }

  /** A grant is accepted exactly if its chain is short enough and sound: complete links, the first signed by a trusted
      key, each under the one before. What is reported is the last grant, the first one's signer, and all of them. */
  lemma {:induction false} AcceptedExactly(env: Envelope, trusted: seq<KeyId>, depth: nat)
    ensures VerifyDelegation(env, trusted, depth) ==
            if SoundChain(Links(env), trusted) && |Links(env)| + depth <= 5
            then Accepted(env.payload.grant, DsseVerify(Links(env)[0], trusted).keyid, Grants(Links(env)))
            else Rejected
    decreases env
  {
    hide VerdictFrom, Complete, WellFormed, SoundChain, Grants;
    CompleteExactly(env);
    LastLink(env);
    SoundAlone(env, trusted);
    if env.payload.GrantPayload? && env.payload.grant.parent.Some? {
      var parent := env.payload.grant.parent.value;
      AcceptedExactly(parent, trusted, depth + 1);
      LastLink(parent);
      SoundSnoc(Links(parent), env, trusted);
    }
  }

  lemma {:induction false} DownTheChain(links: seq<Envelope>, trusted: seq<KeyId>, i: nat, j: nat)
    requires SoundChain(links, trusted) && i <= j < |links|
    ensures var outer, inner := links[i].payload.grant, links[j].payload.grant;
            && inner.principal == outer.principal && (forall x :: x in inner.scopes ==> x in outer.scopes)
            && outer.issuedAt <= inner.issuedAt && inner.expiresAt <= outer.expiresAt
    decreases j - i
  {
    if i < j {
      DownTheChain(links, trusted, i, j - 1);
      assert Under(links[j - 1], links[j]);
    }
  }

  /** Delegation only narrows. An accepted chain has at most four links and one principal, is rooted in a trusted key,
      and has each link signed by the key its parent names; and whatever the last link allows, at any instant, every
      link above it allows. */
  lemma {:induction false} DelegationNarrows(env: Envelope, trusted: seq<KeyId>, scope: string, at: Time, i: nat)
    requires VerifyDelegation(env, trusted, 1).Accepted? && i < |VerifyDelegation(env, trusted, 1).chain|
    ensures var r, links := VerifyDelegation(env, trusted, 1), Links(env);
            && |links| == |r.chain| <= 4 && r.delegation == r.chain[|r.chain| - 1]
            && r.keyid in trusted && SignedBy(links[0], r.keyid)
            && links[i].payload == GrantPayload(r.chain[i])
            && (i > 0 ==>
                  && r.chain[i].parent == Some(links[i - 1])
                  && r.chain[i - 1].agentKey.Some? && r.chain[i - 1].agentKey.value.Pem?
                  && SignedBy(links[i], r.chain[i - 1].agentKey.value.key))
            && r.chain[i].principal == r.delegation.principal
            && (scope in r.delegation.scopes ==> scope in r.chain[i].scopes)
            && (r.delegation.issuedAt <= at <= r.delegation.expiresAt ==>
                  r.chain[i].issuedAt <= at <= r.chain[i].expiresAt)
  {
    hide VerifyDelegation, VerdictFrom;
    var links := Links(env);
    AcceptedExactly(env, trusted, 1);
    LastLink(env);
    GoodMeansSigned(links[0], trusted, 0);
    DownTheChain(links, trusted, i, |links| - 1);
    if i > 0 {
      assert Under(links[i - 1], links[i]);
      GoodMeansSigned(links[i], [links[i - 1].payload.grant.agentKey.value.key], 0);
    }
  }

  // ----- What delegateFrom makes -----

  /** The grant an agent asks for: the principal's as before, to the sub-agent, for the scopes and the window asked
      for, from now and to the end of the parent's where none is given. An empty key is none. */
  ghost predicate AskedFor(d: Delegation, parent: Envelope, sub: SubDelegation, now: Time) {
    && parent.payload.GrantPayload? && d.principal == parent.payload.grant.principal && d.parent == Some(parent)
    && d.agent == sub.agent && d.scopes == sub.scopes
    && (match sub.issuedAt case Some(t) => d.issuedAt == t case None => d.issuedAt == now)
    && (match sub.expiresAt case Some(t) => d.expiresAt == t case None => d.expiresAt == parent.payload.grant.expiresAt)
    && (if sub.agentKey.Some? && sub.agentKey.value == NotAKey("") then d.agentKey.None?
        else d.agentKey == sub.agentKey)
  }

  /** Below an accepted grant, what delegateFrom returns is accepted, as the grant asked for at the end of a chain one
      longer, exactly while the chain has fewer than four links; and what it refuses to sign no verifier would accept
      if it were signed. */
  lemma {:induction false} DelegateFromAccepted(parent: Envelope, trusted: seq<KeyId>, agentKey: KeyId,
      sub: SubDelegation, now: Time, d: Delegation)
    requires VerifyDelegation(parent, trusted, 1).Accepted? && AskedFor(d, parent, sub, now)
    ensures var up, r := VerifyDelegation(parent, trusted, 1), DelegateFrom(parent, agentKey, sub, now);
            && (r.Some? ==>
                  VerifyDelegation(r.value, trusted, 1) ==
                  if |up.chain| < 4 then Accepted(d, up.keyid, up.chain + [d]) else Rejected)
            && (r.None? ==>
                  VerifyDelegation(DsseSign(DELEGATION_TYPE, GrantPayload(d), agentKey), trusted, 1).Rejected?)
  {
    hide VerifyDelegation, VerdictFrom;
    AcceptedExactly(parent, trusted, 1);
    LastLink(parent);
    var env := DsseSign(DELEGATION_TYPE, GrantPayload(d), agentKey);
    AcceptedExactly(env, trusted, 1);
    SoundSnoc(Links(parent), env, trusted);
    CompleteExactly(parent);
    CompleteExactly(env);
    if parent.payload.grant.agentKey.Some? && parent.payload.grant.agentKey.value.Pem? {
      SignThenVerify(DELEGATION_TYPE, GrantPayload(d), agentKey, [parent.payload.grant.agentKey.value.key]);
    }
  }
}
