/** The independent check of a receipt bundle, and the audit of two tree heads. Both collect named checks; a bundle is
    good when every check passed. */
module Verify {
  import opened Hashing
  import opened Merkle
  import opened Proofs
  import opened Options
  import opened Wire
  import opened Delegation
  import opened BitWalk
  import MerkleLog

  datatype Check = Check(name: string, ok: bool)

  predicate AllOk(checks: seq<Check>) {
    forall i :: 0 <= i < |checks| ==> checks[i].ok
  }

  /** What a verifier knows. A provider's delivery is judged by the secret its holder has, an opaque predicate; a copy
      of the log is the leaf hashes in its file. */
  datatype Knowledge = Knowledge(
    issuerKeys: seq<KeyId>,
    principalKeys: seq<KeyId>,
    logKeys: seq<KeyId>,
    upstreamKeys: seq<KeyId>,
    provider: Option<(string, Time, ToolResult) -> bool>,
    logFile: Option<Leaves>,
    logId: Option<string>)

  // ----- What each group of checks asks -----

  predicate Ran(e: Execution) {
    e.Executed? || e.Failed?
  }

  predicate IssuerHolds(p: Receipt, signer: KeyId) {
    && (p.head.issuer.kind == "gateway" || p.head.issuer.kind == "sdk")
    && p.head.issuer.keyid == signer
    && (p.head.issuer.kind == "gateway" ==> p.head.grant.Some? && p.policy.Some?)
  }

  predicate GrantHolds(p: Receipt, principalKeys: seq<KeyId>) {
    if p.head.grant.None? then p.head.principal.Claimed?
    else
      var r := VerifyDelegation(p.head.grant.value, principalKeys, 1);
      && r.Accepted?
      && p.head.principal == Attested(r.delegation.principal, r.keyid)
      && p.head.agent == r.delegation.agent
      && ValidAt(r.delegation, p.head.timestamp)
      && (Ran(p.execution) ==> p.head.tool in r.delegation.scopes)
  }

  predicate ArgsHold(p: Receipt) {
    p.head.argsDigest == DigestOf(p.head.args) && p.subject == Some(p.head.argsDigest)
  }

  predicate UpstreamSigned(env: Envelope, keys: seq<KeyId>, p: Receipt, result: ToolResult) {
    && DsseVerify(env, keys).Good?
    && env.payloadType == UPSTREAM_TYPE
    && env.payload == UpstreamPayload(p.head.receiptId, p.head.tool, result.content, result.isError)
  }

  /** Upstream evidence is judged only by a verifier that holds the means to judge it. */
  predicate EvidenceHolds(p: Receipt, o: Knowledge) {
    Ran(p.execution) && p.execution.result.evidence.Some? ==>
      match p.execution.result.evidence.value
      case ProviderDelivery(delivery) =>
        o.provider.Some? ==> o.provider.value(delivery, p.head.timestamp, p.execution.result)
      case UpstreamSignature(env) =>
        o.upstreamKeys != [] ==> UpstreamSigned(env, o.upstreamKeys, p, p.execution.result)
  }

  predicate PolicyHolds(p: Receipt) {
    p.policy.Some? ==>
      && (p.policy.value.decision.Deny? && p.policy.value.enforced <==> p.execution.Denied?)
      && (p.policy.value.decision.Allow? ==> p.policy.value.errors == [])
  }

  predicate SameCall(a: Authorization, p: Receipt) {
    && a.head.receiptId == p.head.receiptId
    && a.head.tool == p.head.tool
    && a.head.argsDigest == p.head.argsDigest
    && a.head.agent == p.head.agent
    && PrincipalId(a.head.principal) == PrincipalId(p.head.principal)
    && a.policy.Some? && a.policy.value.decision.Allow?
  }

  /** A head signed by one of the keys puts the envelope where its bundle says it is. */
  predicate InLog(canon: Envelope -> string, b: Bundle, keys: seq<KeyId>) {
    && DsseVerify(b.treeHead, keys).Good?
    && b.treeHead.payloadType == TREEHEAD_TYPE
    && b.treeHead.payload.HeadPayload?
    && b.treeHead.payload.treeHead.treeSize == b.inclusion.treeSize
    && InclusionAccepts(LeafHash(canon(b.envelope)), b.inclusion, b.treeHead.payload.treeHead.rootHash)
  }

  predicate AuthorizationHolds(canon: Envelope -> string, p: Receipt, signer: KeyId, place: InclusionProof,
      o: Knowledge) {
    p.authorization.Some? ==>
      var a := p.authorization.value;
      var v := DsseVerify(a.envelope, o.issuerKeys);
      && v.Good? && v.keyid == signer
      && a.envelope.payloadType == RECEIPT_TYPE && v.payload.AuthorizationPayload?
      && SameCall(v.payload.authorization, p)
      && InLog(canon, a, o.logKeys + o.issuerKeys)
      && a.inclusion.leafIndex < place.leafIndex && a.inclusion.treeSize <= place.treeSize
  }

  /** The copy of the log has the root the head states, at the head's size. */
  predicate FileAgrees(file: Leaves, head: TreeHead) {
    0 <= head.treeSize <= |file| && Mth(file[..head.treeSize]) == head.rootHash
  }

  predicate LogHolds(canon: Envelope -> string, b: Bundle, o: Knowledge) {
    && InLog(canon, b, o.logKeys + o.issuerKeys)
    && (o.logId.Some? ==> b.treeHead.payload.treeHead.log == o.logId)
    && (o.logFile.Some? ==> FileAgrees(o.logFile.value, b.treeHead.payload.treeHead))
  }

  predicate ReceiptHolds(canon: Envelope -> string, b: Bundle, p: Receipt, signer: KeyId, o: Knowledge) {
    && IssuerHolds(p, signer)
    && GrantHolds(p, o.principalKeys)
    && ArgsHold(p)
    && EvidenceHolds(p, o)
    && PolicyHolds(p)
    && AuthorizationHolds(canon, p, signer, b.inclusion, o)
    && LogHolds(canon, b, o)
  }

  /** Everything a verified bundle has. */
  predicate Holds(canon: Envelope -> string, b: Bundle, o: Knowledge) {
    var v := DsseVerify(b.envelope, o.issuerKeys);
    && v.Good? && b.envelope.payloadType == RECEIPT_TYPE && v.payload.ReceiptPayload?
    && ReceiptHolds(canon, b, v.payload.receipt, v.keyid, o)
  }

  // ----- The checks, in order -----

  lemma AllOkConcat(a: seq<Check>, b: seq<Check>)
    ensures AllOk(a + b) <==> AllOk(a) && AllOk(b)
  {
    if AllOk(a + b) {
      assert forall i :: 0 <= i < |a| ==> a[i] == (a + b)[i];
      assert forall i :: 0 <= i < |b| ==> b[i] == (a + b)[|a| + i];
    }
  }

  method CheckIssuer(p: Receipt, signer: KeyId) returns (checks: seq<Check>)
    ensures AllOk(checks) <==> IssuerHolds(p, signer)
  {
    checks := [Check("issuer kind is known", p.head.issuer.kind == "gateway" || p.head.issuer.kind == "sdk"),
               Check("issuer keyid matches signer", p.head.issuer.keyid == signer)];
    assert AllOk(checks) <==> checks[0].ok && checks[1].ok;
    if p.head.issuer.kind == "gateway" {
      var more := [Check("gateway receipt carries a delegation", p.head.grant.Some?),
                   Check("gateway receipt carries a policy decision", p.policy.Some?)];
      AllOkConcat(checks, more);
      assert AllOk(more) <==> more[0].ok && more[1].ok;
      checks := checks + more;
    }
  }

  method CheckGrant(p: Receipt, principalKeys: seq<KeyId>) returns (checks: seq<Check>)
    ensures AllOk(checks) <==> GrantHolds(p, principalKeys)
  {
    hide VerifyDelegation;
    if p.head.grant.None? {
      checks := [Check("principal is claimed, not attested", p.head.principal.Claimed?)];
      assert AllOk(checks) <==> checks[0].ok;
      return;
    }
    var env := p.head.grant.value;
    var r := VerifyDelegation(env, principalKeys, 1);
    var links := if env.payload.GrantPayload? && env.payload.grant.parent.Some?
                 then [Check("delegation chain to the principal", r.Accepted?)] else [];
    checks := [Check("delegation signature (principal key)", r.Accepted?)] + links;
    assert AllOk(checks) <==> checks[0].ok;
    if r.Accepted? {
      var d := r.delegation;
      var principalKeyid := if p.head.principal.Attested? then Some(p.head.principal.keyid) else None;
      var more := [Check("delegation binds principal and agent",
                         Some(d.principal) == PrincipalId(p.head.principal) && d.agent == p.head.agent
                           && Some(r.keyid) == principalKeyid),
                   Check("delegation valid at receipt time", ValidAt(d, p.head.timestamp)),
                   Check("executed tool within delegated scope", !Ran(p.execution) || p.head.tool in d.scopes)];
      AllOkConcat(checks, more);
      assert AllOk(more) <==> more[0].ok && more[1].ok && more[2].ok;
      checks := checks + more;
    }
  }

  method CheckEvidence(p: Receipt, o: Knowledge) returns (checks: seq<Check>)
    ensures AllOk(checks) <==> EvidenceHolds(p, o)
  {
    checks := [];
    if Ran(p.execution) && p.execution.result.evidence.Some? {
      var result := p.execution.result;
      match result.evidence.value {
        case ProviderDelivery(delivery) =>
          if o.provider.Some? {
            checks := [Check("upstream signature (provider secret)",
                             o.provider.value(delivery, p.head.timestamp, result))];
          }
        case UpstreamSignature(env) =>
          if |o.upstreamKeys| > 0 {
            checks := [Check("upstream signature (upstream key)", UpstreamSigned(env, o.upstreamKeys, p, result))];
          }
      }
      assert AllOk(checks) <==> (checks == [] || checks[0].ok);
    }
  }

  method CheckPolicy(p: Receipt) returns (checks: seq<Check>)
    ensures AllOk(checks) <==> PolicyHolds(p)
  {
    if p.policy.None? { return []; }
    var policy := p.policy.value;
    var consistent := if policy.decision.Allow? then !p.execution.Denied?
                      else if !policy.enforced then !p.execution.Denied?
                      else p.execution.Denied?;
    checks := [Check("policy decision consistent with execution", consistent),
               Check("no policy errors on an allow", !(policy.decision.Allow? && |policy.errors| > 0))];
    assert AllOk(checks) <==> checks[0].ok && checks[1].ok;
  }

  method CheckExecution(p: Receipt, o: Knowledge) returns (checks: seq<Check>)
    ensures AllOk(checks) <==> ArgsHold(p) && EvidenceHolds(p, o) && PolicyHolds(p)
  {
    hide EvidenceHolds, PolicyHolds;
    var args := DigestOf(p.head.args) == p.head.argsDigest && p.subject == Some(p.head.argsDigest);
    checks := [Check("request args digest", args)];
    assert AllOk(checks) <==> checks[0].ok;
    var evidence := CheckEvidence(p, o);
    var policy := CheckPolicy(p);
    AllOkConcat(checks, evidence);
    AllOkConcat(checks + evidence, policy);
    checks := checks + evidence + policy;
  }

  /** The inclusion verifier, run against whatever a head's payload turned out to be. */
  method Included(canon: Envelope -> string, b: Bundle) returns (sizes: bool, included: bool)
    ensures sizes <==> b.treeHead.payload.HeadPayload? && b.treeHead.payload.treeHead.treeSize == b.inclusion.treeSize
    ensures included <==> b.treeHead.payload.HeadPayload?
                          && InclusionAccepts(LeafHash(canon(b.envelope)), b.inclusion,
                               b.treeHead.payload.treeHead.rootHash)
  {
    if !b.treeHead.payload.HeadPayload? { return false, false; }
    var head := b.treeHead.payload.treeHead;
    sizes := head.treeSize == b.inclusion.treeSize;
    included := VerifyInclusion(LeafHash(canon(b.envelope)), b.inclusion, head.rootHash);
  }

  method CheckAuthorization(canon: Envelope -> string, p: Receipt, signer: KeyId, place: InclusionProof, o: Knowledge)
    returns (checks: seq<Check>)
    ensures AllOk(checks) <==> AuthorizationHolds(canon, p, signer, place, o)
  {
    hide VerdictFrom;
    hide InclusionAccepts;
    if p.authorization.None? { return []; }
    var a := p.authorization.value;
    var v := RunDsseVerify(a.envelope, o.issuerKeys);
    var typed := v.Good? && a.envelope.payloadType == RECEIPT_TYPE && v.payload.AuthorizationPayload?;
    checks := [Check("authorization signature (issuer key)", typed && v.keyid == signer)];
    assert AllOk(checks) <==> checks[0].ok;
    if !typed { return; }
    var named := [Check("authorization names this call", SameCall(v.payload.authorization, p))];
    var th := RunDsseVerify(a.treeHead, o.logKeys + o.issuerKeys);
    named := named + [Check("authorization tree head signature", th.Good? && a.treeHead.payloadType == TREEHEAD_TYPE)];
    AllOkConcat(checks, named);
    assert AllOk(named) <==> named[0].ok && named[1].ok;
    checks := checks + named;
    if th.Good? {
      var sizes, included := Included(canon, a);
      var before := a.inclusion.leafIndex < place.leafIndex && a.inclusion.treeSize <= place.treeSize;
      var more := [Check("authorization log inclusion proof", sizes && included),
                   Check("authorization logged before execution", before)];
      AllOkConcat(checks, more);
      assert AllOk(more) <==> more[0].ok && more[1].ok;
      checks := checks + more;
    }
  }

  method CheckTreeHead(canon: Envelope -> string, b: Bundle, o: Knowledge) returns (checks: seq<Check>)
    ensures AllOk(checks) <==> LogHolds(canon, b, o)
  {
    hide VerdictFrom;
    hide InclusionAccepts;
    hide Mth;
    var th := RunDsseVerify(b.treeHead, o.logKeys + o.issuerKeys);
    checks := [Check("tree head signature", th.Good? && b.treeHead.payloadType == TREEHEAD_TYPE)];
    assert AllOk(checks) <==> checks[0].ok;
    if th.Bad? { return; }
    var payload := b.treeHead.payload;
    if o.logId.Some? {
      var named := [Check("tree head names the expected log", payload.HeadPayload? && payload.treeHead.log == o.logId)];
      AllOkConcat(checks, named);
      assert AllOk(named) <==> named[0].ok;
      checks := checks + named;
    }
    var sizes, included := Included(canon, b);
    var more := [Check("tree head matches inclusion proof size", sizes), Check("log inclusion proof", included)];
    AllOkConcat(checks, more);
    assert AllOk(more) <==> more[0].ok && more[1].ok;
    checks := checks + more;
    if o.logFile.Some? {
      var same := [Check("log file root matches tree head",
                         payload.HeadPayload? && FileAgrees(o.logFile.value, payload.treeHead))];
      AllOkConcat(checks, same);
      assert AllOk(same) <==> same[0].ok;
      checks := checks + same;
    }
  }

  /** Verifies a bundle: every check passes exactly when the bundle has all that Holds asks. The statement comes back
      whenever the signature and the type are right. */
  method VerifyBundle(canon: Envelope -> string, b: Bundle, o: Knowledge)
    returns (ok: bool, checks: seq<Check>, statement: Option<Receipt>)
    ensures ok <==> AllOk(checks)
    ensures ok <==> Holds(canon, b, o)
    ensures statement.Some? <==> DsseVerify(b.envelope, o.issuerKeys).Good? && b.envelope.payloadType == RECEIPT_TYPE
                                 && b.envelope.payload.ReceiptPayload?
    ensures statement.Some? ==> b.envelope.payload == ReceiptPayload(statement.value)
  {
    hide ReceiptHolds;
    var v := RunDsseVerify(b.envelope, o.issuerKeys);
    if v.Bad? {
      checks := [Check("receipt signature (issuer key)", false)];
      assert !checks[0].ok;
      return false, checks, None;
    }
    GoodMeansSigned(b.envelope, o.issuerKeys, 0);
    checks := [Check("receipt signature (issuer key)", true),
               Check("receipt payload type", b.envelope.payloadType == RECEIPT_TYPE && v.payload.ReceiptPayload?)];
    if !checks[1].ok {
      return false, checks, None;
    }
    var more := CheckReceipt(canon, b, v.payload.receipt, v.keyid, o);
    AllOkConcat(checks, more);
    assert AllOk(checks);
    checks := checks + more;
    ok := CheckAll(checks);
    statement := Some(v.payload.receipt);
  }

  method CheckReceipt(canon: Envelope -> string, b: Bundle, p: Receipt, signer: KeyId, o: Knowledge)
      returns (checks: seq<Check>)
    ensures AllOk(checks) <==> ReceiptHolds(canon, b, p, signer, o)
  {
    hide AllOk, IssuerHolds, GrantHolds, ArgsHold, EvidenceHolds, PolicyHolds, AuthorizationHolds, LogHolds;
    var issuer := CheckIssuer(p, signer);
    var grant := CheckGrant(p, o.principalKeys);
    var execution := CheckExecution(p, o);
    var authorization := CheckAuthorization(canon, p, signer, b.inclusion, o);
    var treeHead := CheckTreeHead(canon, b, o);
    AllOkConcat(issuer, grant);
    AllOkConcat(issuer + grant, execution);
    AllOkConcat(issuer + grant + execution, authorization);
    AllOkConcat(issuer + grant + execution + authorization, treeHead);
    checks := issuer + grant + execution + authorization + treeHead;
  }

  method CheckAll(checks: seq<Check>) returns (ok: bool)
    ensures ok <==> AllOk(checks)
  {
    for i := 0 to |checks|
      invariant AllOk(checks[..i])
    {
      if !checks[i].ok { return false; }
      assert checks[..i + 1] == checks[..i] + [checks[i]];
    }
    assert checks[..|checks|] == checks;
    ok := true;
  }

  // ----- The audit -----

  predicate SignedHead(env: Envelope, keys: seq<KeyId>) {
    DsseVerify(env, keys).Good? && env.payloadType == TREEHEAD_TYPE && env.payload.HeadPayload?
  }

  /** Everything a passed audit has. With no expected log id, the two heads need only agree on theirs; with no witness
      keys, no countersignature is asked for. */
  predicate Extends(older: Envelope, newer: Envelope, proof: seq<Bytes>, keys: seq<KeyId>, logId: Option<string>,
      witnesses: seq<KeyId>) {
    && SignedHead(older, keys) && SignedHead(newer, keys)
    && var a, b := older.payload.treeHead, newer.payload.treeHead;
    && a.log == b.log && (logId.Some? ==> a.log == logId)
    && a.treeSize <= b.treeSize
    && ConsistencyAccepts(a.treeSize, a.rootHash, b.treeSize, b.rootHash, proof)
    && (witnesses != [] ==> DsseVerifiers(newer, witnesses) != [])
  }

  /** Two heads whose payloads are heads, the second said to extend the first. */
  method AuditExtends(older: Envelope, newer: Envelope, proof: seq<Bytes>, keys: seq<KeyId>, logId: Option<string>,
      witnesses: seq<KeyId>)
    returns (ok: bool)
    ensures ok <==> Extends(older, newer, proof, keys, logId, witnesses)
  {
    hide ConsistencyAccepts;
    hide VerdictFrom;
    var v := RunDsseVerify(older, keys);
    var w := RunDsseVerify(newer, keys);
    if !(v.Good? && older.payload.HeadPayload?) || !(w.Good? && newer.payload.HeadPayload?) { return false; }
    var signed := older.payloadType == TREEHEAD_TYPE && newer.payloadType == TREEHEAD_TYPE;
    var a, b := older.payload.treeHead, newer.payload.treeHead;
    var named := if logId.Some? then a.log == logId && b.log == logId else a.log == b.log;
    if a.treeSize > b.treeSize { return false; }
    var consistent := VerifyConsistency(a.treeSize, a.rootHash, b.treeSize, b.rootHash, proof);
    var countersigned := witnesses == [] || |DsseVerifiers(newer, witnesses)| > 0;
    ok := signed && named && consistent && countersigned;
  }

  /** A passed audit against the true newer head: any list behind the older head is a prefix of the newer one. */
  lemma {:induction false} AuditSound(older: Envelope, newer: Envelope, proof: seq<Bytes>, keys: seq<KeyId>,
      logId: Option<string>,
      witnesses: seq<KeyId>, earlier: Leaves, d: Leaves)
    requires Extends(older, newer, proof, keys, logId, witnesses) && earlier != []
    requires older.payload.treeHead.treeSize == |earlier| && older.payload.treeHead.rootHash == Mth(earlier)
    requires newer.payload.treeHead.treeSize == |d| && newer.payload.treeHead.rootHash == Mth(d)
    ensures earlier <= d
  {
    ConsistencySound(d, earlier, Mth(earlier), proof);
  }

  /** Of two heads of lists that are not empty, audited with what the log answers when asked for a proof between their
      sizes: the audit passes exactly if both are signed and named alike, the older list is a prefix of the newer one,
      a witness signed the newer head where one is asked for, and the older size is not misjudged. */
  lemma {:induction false} AuditExactly(older: Envelope, newer: Envelope, keys: seq<KeyId>, logId: Option<string>,
      witnesses: seq<KeyId>, earlier: Leaves, d: Leaves)
    requires HeadOf(older, earlier) && HeadOf(newer, d) && earlier != [] && |earlier| <= |d|
    ensures Extends(older, newer, ConsistencyProof(|earlier|, d), keys, logId, witnesses) <==>
            && DsseVerify(older, keys).Good? && older.payloadType == TREEHEAD_TYPE
            && DsseVerify(newer, keys).Good? && newer.payloadType == TREEHEAD_TYPE
            && older.payload.treeHead.log == newer.payload.treeHead.log
            && (logId.Some? ==> newer.payload.treeHead.log == logId)
            && earlier <= d && (|earlier| < |d| ==> !Misjudged(|earlier|))
            && (witnesses != [] ==> exists k :: k in witnesses && SignedBy(newer, k))
  {
    hide VerdictFrom, VerifiersFrom, ConsistencyAccepts, ConsistencyProof, Mth;
    var m := |earlier|;
    DigestProofExact(d, m, Mth(earlier), ConsistencyProof(m, d));
    if earlier <= d {
      assert d[..m] == earlier;
    } else if Mth(d[..m]) == Mth(earlier) {
      MthInjective(d[..m], earlier);
    }
    AnyVerifier(newer, witnesses);
  }

  lemma AnyVerifier(env: Envelope, trusted: seq<KeyId>)
    ensures DsseVerifiers(env, trusted) != [] <==> exists k :: k in trusted && SignedBy(env, k)
  {
    var signers := DsseVerifiers(env, trusted);
    if signers != [] {
      VerifiersExact(env, trusted, env.signatures, signers[0]);
    }
    if k :| k in trusted && SignedBy(env, k) {
      VerifiersExact(env, trusted, env.signatures, k);
    }
  }

  // ----- What a verified bundle means -----

  ghost predicate Injective(canon: Envelope -> string) {
    forall a, b :: canon(a) == canon(b) ==> a == b
  }

  /** The head in a bundle is the true head of this list. */
  predicate HeadOf(env: Envelope, d: Leaves) {
    && env.payload.HeadPayload?
    && env.payload.treeHead.treeSize == |d| && env.payload.treeHead.rootHash == Mth(d)
  }

  /** Against the true head of d, the bundle's envelope is the leaf at its index, with the proof the log gives. */
  lemma InLogExact(canon: Envelope -> string, b: Bundle, keys: seq<KeyId>, d: Leaves)
    requires HeadOf(b.treeHead, d)
    ensures InLog(canon, b, keys) <==>
            && DsseVerify(b.treeHead, keys).Good? && b.treeHead.payloadType == TREEHEAD_TYPE
            && b.inclusion.treeSize == |d| && 0 <= b.inclusion.leafIndex < |d|
            && d[b.inclusion.leafIndex] == LeafHash(canon(b.envelope))
                 && b.inclusion.hashes == Path(b.inclusion.leafIndex, d)
  {
    InclusionExact(d, LeafHash(canon(b.envelope)), b.inclusion.leafIndex, b.inclusion.hashes);
    if b.inclusion.treeSize == |d| {
      assert b.inclusion == InclusionProof(b.inclusion.leafIndex, |d|, b.inclusion.hashes);
    }
  }

  /** A leaf digest that can only be this envelope's. */
  ghost predicate OnlyLeaf(canon: Envelope -> string, leaf: Digest, env: Envelope) {
    forall e: Envelope :: leaf == LeafHash(canon(e)) <==> e == env
  }

  lemma LeafIsOnly(canon: Envelope -> string, env: Envelope)
    requires Injective(canon)
    ensures OnlyLeaf(canon, LeafHash(canon(env)), env)
  {
    forall e: Envelope
      ensures LeafHash(canon(env)) == LeafHash(canon(e)) <==> e == env
    {
      LeafHashInjective(canon(env), canon(e));
    }
  }

  /** A verified receipt against the true head of d: it is a leaf of d and can be no other, signed by its issuer, under
      a head the verifier trusts of the log it expects, and its arguments are those it has the digest of. A committed
      authorization, against a head of an earlier state of the same log, is a leaf before it, signed by the same key,
      of the same call, allowed. A verifier's own copy of the log begins with d. */
  lemma {:induction false} VerifiedIsLogged(canon: Envelope -> string, b: Bundle, p: Receipt, o: Knowledge, d: Leaves,
      earlier: Leaves)
    requires Injective(canon) && Holds(canon, b, o) && b.envelope.payload == ReceiptPayload(p)
    requires HeadOf(b.treeHead, d)
    requires p.authorization.Some? ==> HeadOf(p.authorization.value.treeHead, earlier) && earlier <= d
    ensures var j := b.inclusion.leafIndex;
            && 0 <= j < |d| && OnlyLeaf(canon, d[j], b.envelope) && b.envelope.payloadType == RECEIPT_TYPE
            && p.head.issuer.keyid in o.issuerKeys && SignedBy(b.envelope, p.head.issuer.keyid)
            && (exists k :: k in o.logKeys + o.issuerKeys && SignedBy(b.treeHead, k))
            && (o.logId.Some? ==> b.treeHead.payload.treeHead.log == o.logId)
            && (o.logFile.Some? ==> d <= o.logFile.value)
            && p.head.argsDigest == DigestOf(p.head.args) && p.subject == Some(DigestOf(p.head.args))
            && (p.authorization.Some? ==>
                  var a := p.authorization.value;
                  && 0 <= a.inclusion.leafIndex < j && OnlyLeaf(canon, d[a.inclusion.leafIndex], a.envelope)
                  && SignedBy(a.envelope, p.head.issuer.keyid)
                  && a.envelope.payloadType == RECEIPT_TYPE && a.envelope.payload.AuthorizationPayload?
                  && var q := a.envelope.payload.authorization;
                     && q.head.receiptId == p.head.receiptId && q.head.tool == p.head.tool
                     && q.head.argsDigest == DigestOf(p.head.args) && q.head.agent == p.head.agent
                     && PrincipalId(q.head.principal) == PrincipalId(p.head.principal)
                     && q.policy.Some? && q.policy.value.decision == Allow)
  {
    hide VerdictFrom, InclusionAccepts, Mth, Path;
    GoodMeansSigned(b.envelope, o.issuerKeys, 0);
    GoodMeansSigned(b.treeHead, o.logKeys + o.issuerKeys, 0);
    LeafIsOnly(canon, b.envelope);
    InLogExact(canon, b, o.logKeys + o.issuerKeys, d);
    if o.logFile.Some? {
      FileAgreesExactly(o.logFile.value, d, b.treeHead.payload.treeHead);
    }
    if p.authorization.Some? {
      var a := p.authorization.value;
      GoodMeansSigned(a.envelope, o.issuerKeys, 0);
      LeafIsOnly(canon, a.envelope);
      InLogExact(canon, a, o.logKeys + o.issuerKeys, earlier);
    }
  }

  lemma FileAgreesExactly(file: Leaves, d: Leaves, head: TreeHead)
    requires head.treeSize == |d| && head.rootHash == Mth(d)
    ensures FileAgrees(file, head) <==> d <= file
  {
    if d <= file {
      assert file[..|d|] == d;
    }
    if |d| <= |file| && Mth(file[..|d|]) == Mth(d) {
      MthInjective(file[..|d|], d);
    }
  }

  /** Who a verified receipt says acted: under a grant, the agent of a sound chain's last grant, inside its window, for
      the principal its first signer attests; without one, whoever the producer claims. And a call is reported denied
      exactly if an enforced policy denied it. */
  lemma {:induction false} VerifiedNamesTheAgent(canon: Envelope -> string, b: Bundle, p: Receipt, o: Knowledge)
    requires Holds(canon, b, o) && b.envelope.payload == ReceiptPayload(p)
    ensures p.head.issuer.kind == "gateway" || p.head.issuer.kind == "sdk"
    ensures p.head.issuer.kind == "gateway" ==> p.head.grant.Some? && p.policy.Some?
    ensures match p.head.grant
            case None => p.head.principal.Claimed?
            case Some(grant) =>
              && SoundChain(Links(grant), o.principalKeys) && |Links(grant)| <= 4 && grant.payload.GrantPayload?
              && p.head.principal.Attested? && p.head.principal.id == grant.payload.grant.principal
              && p.head.principal.keyid in o.principalKeys && SignedBy(Links(grant)[0], p.head.principal.keyid)
              && p.head.agent == grant.payload.grant.agent
              && grant.payload.grant.issuedAt <= p.head.timestamp <= grant.payload.grant.expiresAt
    ensures p.policy.Some? ==>
              && (p.execution.Denied? <==> p.policy.value.decision == Deny && p.policy.value.enforced)
              && (p.policy.value.decision == Allow ==> p.policy.value.errors == [])
  {
    hide VerifyDelegation, InLog, VerdictFrom, SoundChain;
    GoodMeansSigned(b.envelope, o.issuerKeys, 0);
    if p.head.grant.Some? {
      var grant := p.head.grant.value;
      AcceptedExactly(grant, o.principalKeys, 1);
      LastLink(grant);
      DelegationNarrows(grant, o.principalKeys, "", 0, |Links(grant)| - 1);
    }
  }

  /** A verified gateway receipt of a call that ran: every grant up the chain to a trusted principal held the tool and
      was in its window, and the policy allowed the call without errors or was not being enforced. */
  lemma {:induction false} VerifiedWasPermitted(canon: Envelope -> string, b: Bundle, p: Receipt, o: Knowledge, i: nat)
    requires Holds(canon, b, o) && b.envelope.payload == ReceiptPayload(p)
    requires p.head.issuer.kind == "gateway" && (p.execution.Executed? || p.execution.Failed?)
    ensures p.head.grant.Some? && p.policy.Some?
    ensures var links := Links(p.head.grant.value);
            && (i < |links| ==>
                  && links[i].payload.GrantPayload?
                  && var d := links[i].payload.grant;
                    && p.head.tool in d.scopes && d.issuedAt <= p.head.timestamp <= d.expiresAt
                    && PrincipalId(p.head.principal) == Some(d.principal))
            && (exists k :: k in o.principalKeys && SignedBy(links[0], k))
            && (if p.policy.value.decision.Allow? then p.policy.value.errors == [] else !p.policy.value.enforced)
  {
    hide VerifyDelegation, InLog, VerdictFrom, SoundChain;
    GoodMeansSigned(b.envelope, o.issuerKeys, 0);
    var grant := p.head.grant.value;
    AcceptedExactly(grant, o.principalKeys, 1);
    LastLink(grant);
    DelegationNarrows(grant, o.principalKeys, p.head.tool, p.head.timestamp, |Links(grant)| - 1);
    if i < |Links(grant)| {
      DelegationNarrows(grant, o.principalKeys, p.head.tool, p.head.timestamp, i);
    }
  }

  /** Upstream evidence in a verified receipt of a call that ran, for a verifier with the means to judge it: a trusted
      upstream key signed this result of this tool for this receipt, or the delivery passes the secret's check for this
      result at this time. */
  lemma {:induction false} VerifiedEvidence(canon: Envelope -> string, b: Bundle, p: Receipt, o: Knowledge)
    requires Holds(canon, b, o) && b.envelope.payload == ReceiptPayload(p)
    requires (p.execution.Executed? || p.execution.Failed?) && p.execution.result.evidence.Some?
    ensures match p.execution.result.evidence.value
            case UpstreamSignature(env) =>
              var said := UpstreamPayload(p.head.receiptId, p.head.tool, p.execution.result.content,
                                          p.execution.result.isError);
              o.upstreamKeys != [] ==>
                exists k :: k in o.upstreamKeys && Signature(k, Signed(k, UPSTREAM_TYPE, said)) in env.signatures
            case ProviderDelivery(delivery) =>
              o.provider.Some? ==> o.provider.value(delivery, p.head.timestamp, p.execution.result)
  {
    hide VerdictFrom, InLog;
    GoodMeansSigned(b.envelope, o.issuerKeys, 0);
    var evidence := p.execution.result.evidence.value;
    if evidence.UpstreamSignature? && o.upstreamKeys != [] {
      GoodMeansSigned(evidence.envelope, o.upstreamKeys, 0);
    }
  }

  // ----- An authorization from another log -----

  /** Every tree head in the bundle names this log. */
  ghost predicate AllName(b: Bundle, p: Receipt, logId: Option<string>) {
    && b.treeHead.payload.HeadPayload? && b.treeHead.payload.treeHead.log == logId
    && (p.authorization.Some? ==>
          var head := p.authorization.value.treeHead; head.payload.HeadPayload? && head.payload.treeHead.log == logId)
  }

  /** The head of a log with these leaves. */
  function HeadFor(d: Leaves, log: string, key: KeyId): Envelope {
    DsseSign(TREEHEAD_TYPE, HeadPayload(TreeHead(|d|, Mth(d), 0, Some(log))), key)
  }

  function SdkHead(key: KeyId): CallHead {
    CallHead("r", 0, Issuer("sdk", key), Claimed(None), "agent", None, "tool", map[], DigestOf(map[]), map[], None)
  }

  /** An authorization committed as the only leaf of a log. */
  function CommittedTo(canon: Envelope -> string, key: KeyId, log: string): Bundle {
    var authorization := Authorization(Some(DigestOf(map[])), SdkHead(key), Some(Policy(Allow, [], [], true)));
    var envelope := DsseSign(RECEIPT_TYPE, AuthorizationPayload(authorization), key);
    Bundle(envelope, HeadFor([LeafHash(canon(envelope))], log, key), InclusionProof(0, 1, []))
  }

  function ReceiptWith(key: KeyId, authorization: Bundle): Receipt {
    Receipt(Some(DigestOf(map[])), SdkHead(key), None, Some(authorization), Error("none"))
  }

  /** A receipt that carries it, as the second leaf of a log. */
  function LoggedIn(canon: Envelope -> string, key: KeyId, log: string, authorization: Bundle): Bundle {
    var envelope := DsseSign(RECEIPT_TYPE, ReceiptPayload(ReceiptWith(key, authorization)), key);
    var d := [EmptyHash, LeafHash(canon(envelope))];
    Bundle(envelope, HeadFor(d, log, key), InclusionProof(1, 2, Path(1, d)))
  }

  /** Whatever log a verifier expects, it accepts a receipt in it whose authorization sits in any other one. */
  lemma AuthorizationElsewhere(canon: Envelope -> string, o: Knowledge, elsewhere: string)
    requires o.logId.Some? && o.issuerKeys != [] && o.logFile.None?
    ensures var key := o.issuerKeys[0];
            Holds(canon, LoggedIn(canon, key, o.logId.value, CommittedTo(canon, key, elsewhere)), o)
  {
    var key, keys := o.issuerKeys[0], o.logKeys + o.issuerKeys;
    var a := CommittedTo(canon, key, elsewhere);
    var b := LoggedIn(canon, key, o.logId.value, a);
    var d := [EmptyHash, LeafHash(canon(b.envelope))];
    SignThenVerify(RECEIPT_TYPE, b.envelope.payload, key, o.issuerKeys);
    SignThenVerify(RECEIPT_TYPE, a.envelope.payload, key, o.issuerKeys);
    SignThenVerify(TREEHEAD_TYPE, b.treeHead.payload, key, keys);
    SignThenVerify(TREEHEAD_TYPE, a.treeHead.payload, key, keys);
    InLogExact(canon, b, keys, d);
    InLogExact(canon, a, keys, [LeafHash(canon(a.envelope))]);
  }

  /** What a verifier told which log to expect can rely on: that every tree head in an accepted bundle names it holds
      of all bundles that carry no authorization, and fails of those that carry one. */
  lemma LogIdCheckedExactly(canon: Envelope -> string, o: Knowledge, carries: bool)
    requires o.logId.Some? && o.issuerKeys != [] && o.logFile.None?
    ensures (forall b: Bundle, p: Receipt ::
               Holds(canon, b, o) && b.envelope.payload == ReceiptPayload(p) && p.authorization.Some? == carries
               ==> AllName(b, p, o.logId)) <==> !carries
  {
    if carries {
      var key, elsewhere := o.issuerKeys[0], o.logId.value + "'";
      var a := CommittedTo(canon, key, elsewhere);
      var b, p := LoggedIn(canon, key, o.logId.value, a), ReceiptWith(key, a);
      AuthorizationElsewhere(canon, o, elsewhere);
      assert |elsewhere| != |o.logId.value|;
      assert a.treeHead.payload.treeHead.log == Some(elsewhere);
      assert b.envelope.payload == ReceiptPayload(p) && !AllName(b, p, o.logId);
    } else {
      forall b: Bundle, p: Receipt
        | Holds(canon, b, o) && b.envelope.payload == ReceiptPayload(p) && p.authorization.None?
        ensures AllName(b, p, o.logId)
      {
        GoodMeansSigned(b.envelope, o.issuerKeys, 0);
      }
    }
  }
}
