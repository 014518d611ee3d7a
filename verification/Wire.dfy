/** Signed envelopes and the payloads they carry. A signature is the statement its key made: it verifies for exactly the
    key, payload type and payload it was made over. Key ids are digests of keys, so a key is its id. */
module Wire {
  import opened Hashing
  import opened Merkle
  import opened Proofs
  import opened Options

  type KeyId = string
  type Time = int

  const TREEHEAD_TYPE := "application/vnd.agent-custody.treehead+json"
  const DELEGATION_TYPE := "application/vnd.agent-custody.delegation+json"
  const UPSTREAM_TYPE := "application/vnd.agent-custody.upstream+json"
  const RECEIPT_TYPE := "application/vnd.in-toto+json"

  // ----- Payloads -----

  datatype TreeHead = TreeHead(treeSize: int, rootHash: Bytes, timestamp: Time, log: Option<string>)

  /** The log id a signed head carries: an empty one is left out. */
  function NamedLog(logId: Option<string>): Option<string> {
    if logId == Some("") then None else logId
  }

  /** The text of an agent's own public key, which need not be one. */
  datatype AgentKey = Pem(key: KeyId) | NotAKey(text: string)

  datatype Delegation = Delegation(
    principal: string,
    agent: string,
    scopes: seq<string>,
    issuedAt: Time,
    expiresAt: Time,
    agentKey: Option<AgentKey>,
    parent: Option<Envelope>)

  datatype Decision = Allow | Deny

  /** enforced is false only in observe mode. */
  datatype Policy = Policy(decision: Decision, reasons: seq<string>, errors: seq<string>, enforced: bool)

  type Args = map<string, string>

  /** The digest of the canonical JSON of call arguments. */
  datatype ValueDigest = DigestOf(args: Args)

  datatype Fact = Fact(tool: string, args: Args, value: string)

  datatype Issuer = Issuer(kind: string, keyid: KeyId)

  datatype Principal = Attested(id: string, keyid: KeyId) | Claimed(claim: Option<string>)

  function PrincipalId(p: Principal): Option<string> {
    match p
    case Attested(id, _) => Some(id)
    case Claimed(claim) => claim
  }

  /** What an issuer says of one call before its outcome is known. */
  datatype CallHead = CallHead(
    receiptId: string,
    timestamp: Time,
    issuer: Issuer,
    principal: Principal,
    agent: string,
    grant: Option<Envelope>,
    tool: string,
    args: Args,
    argsDigest: ValueDigest,
    facts: map<string, Fact>,
    consumed: Option<seq<string>>)

  /** What an upstream attached to its result to vouch for it. */
  datatype Evidence = UpstreamSignature(envelope: Envelope) | ProviderDelivery(delivery: string)

  datatype ToolResult = ToolResult(content: string, isError: bool, served: seq<string>, evidence: Option<Evidence>)

  datatype Execution =
    | Executed(result: ToolResult)
    | Failed(result: ToolResult)
    | Denied(reasons: seq<string>)
    | Error(message: string)
    | Withheld(message: string)

  /** An authorization or a receipt, the signed head that commits it to the log, and its place there. */
  datatype Bundle = Bundle(envelope: Envelope, treeHead: Envelope, inclusion: InclusionProof)

  datatype Receipt = Receipt(
    subject: Option<ValueDigest>,
    head: CallHead,
    policy: Option<Policy>,
    authorization: Option<Bundle>,
    execution: Execution)

  datatype Authorization = Authorization(subject: Option<ValueDigest>, head: CallHead, policy: Option<Policy>)

  datatype Payload =
    | HeadPayload(treeHead: TreeHead)
    | GrantPayload(grant: Delegation)
    | ReceiptPayload(receipt: Receipt)
    | AuthorizationPayload(authorization: Authorization)
    | UpstreamPayload(receiptId: string, tool: string, content: string, isError: bool)
    | OtherJson(text: string)
    | NotJson(text: string)

  // ----- Envelopes -----

  datatype Envelope = Envelope(payloadType: string, payload: Payload, signatures: seq<Signature>)

  datatype Signature = Signature(keyid: KeyId, value: SignatureValue)

  datatype SignatureValue =
    | Signed(signer: KeyId, payloadType: string, payload: Payload)
    | Garbage(bytes: string)

  predicate Verifies(env: Envelope, s: Signature) {
    s.value == Signed(s.keyid, env.payloadType, env.payload)
  }

  function DsseSign(payloadType: string, payload: Payload, key: KeyId): Envelope {
    Envelope(payloadType, payload, [Signature(key, Signed(key, payloadType, payload))])
  }

  function Without(signatures: seq<Signature>, key: KeyId): seq<Signature> {
    if signatures == [] then []
    else (if signatures[0].keyid == key then [] else [signatures[0]]) + Without(signatures[1..], key)
  }

  /** Adds a signature over the same payload, replacing any the key already had there. */
  function DsseCountersign(env: Envelope, key: KeyId): Envelope {
    env.(signatures := Without(env.signatures, key) + [Signature(key, Signed(key, env.payloadType, env.payload))])
  }

  datatype Verdict = Good(payload: Payload, keyid: KeyId) | Bad

  /** The first signature by a trusted key decides, from position i on. */
  function VerdictFrom(env: Envelope, trusted: seq<KeyId>, i: nat): Verdict
    requires i <= |env.signatures|
    decreases |env.signatures| - i
  {
    if i == |env.signatures| then Bad
    else
      var s := env.signatures[i];
      if s.keyid !in trusted then VerdictFrom(env, trusted, i + 1)
      else if Verifies(env, s) && !env.payload.NotJson? then Good(env.payload, s.keyid)
      else Bad
  }

  function DsseVerify(env: Envelope, trusted: seq<KeyId>): Verdict {
    VerdictFrom(env, trusted, 0)
  }

  method RunDsseVerify(env: Envelope, trusted: seq<KeyId>) returns (v: Verdict)
    ensures v == DsseVerify(env, trusted)
  {
    var i := 0;
    while i < |env.signatures|
      invariant i <= |env.signatures| && DsseVerify(env, trusted) == VerdictFrom(env, trusted, i)
    {
      var s := env.signatures[i];
      if s.keyid in trusted {
        if Verifies(env, s) && !env.payload.NotJson? {
          return Good(env.payload, s.keyid);
        }
        return Bad;
      }
      i := i + 1;
    }
    v := Bad;
  }

  function VerifiersFrom(env: Envelope, trusted: seq<KeyId>, signatures: seq<Signature>): seq<KeyId> {
    if signatures == [] then []
    else
      (if signatures[0].keyid in trusted && Verifies(env, signatures[0]) then [signatures[0].keyid] else [])
      + VerifiersFrom(env, trusted, signatures[1..])
  }

  /** The trusted keys that did sign, one entry for each signature of theirs. */
  function DsseVerifiers(env: Envelope, trusted: seq<KeyId>): seq<KeyId> {
    VerifiersFrom(env, trusted, env.signatures)
  }

  // ----- What a verdict means -----

  ghost predicate SignedBy(env: Envelope, key: KeyId) {
    Signature(key, Signed(key, env.payloadType, env.payload)) in env.signatures
  }

  /** A good verdict names a trusted key that signed exactly this payload under this type. */
  lemma {:induction false} GoodMeansSigned(env: Envelope, trusted: seq<KeyId>, i: nat)
    requires i <= |env.signatures| && VerdictFrom(env, trusted, i).Good?
    ensures var v := VerdictFrom(env, trusted, i);
            v.payload == env.payload && v.keyid in trusted && SignedBy(env, v.keyid) && !env.payload.NotJson?
    decreases |env.signatures| - i
  {
    if env.signatures[i].keyid !in trusted {
      GoodMeansSigned(env, trusted, i + 1);
    }
  }

  /** What a key signs, a verifier accepts exactly when it trusts the key. */
  lemma SignThenVerify(payloadType: string, payload: Payload, key: KeyId, trusted: seq<KeyId>)
    requires !payload.NotJson?
    ensures DsseVerify(DsseSign(payloadType, payload, key), trusted)
            == if key in trusted then Good(payload, key) else Bad
  {
    var env := DsseSign(payloadType, payload, key);
    assert VerdictFrom(env, trusted, 1) == Bad;
  }

  /** The verdict is that of the first signature by a trusted key, and only of that one. */
  lemma {:induction false} FirstTrustedDecides(env: Envelope, trusted: seq<KeyId>, i: nat)
    requires i <= |env.signatures|
    ensures var v := VerdictFrom(env, trusted, i);
            v.Good? <==> exists j: nat ::
              && i <= j < |env.signatures| && env.signatures[j].keyid in trusted && !env.payload.NotJson?
              && env.signatures[j].value == Signed(env.signatures[j].keyid, env.payloadType, env.payload)
              && forall k: nat :: i <= k < j ==> env.signatures[k].keyid !in trusted
    decreases |env.signatures| - i
  {
    if i < |env.signatures| && env.signatures[i].keyid !in trusted {
      FirstTrustedDecides(env, trusted, i + 1);
    }
  }

  /** Those said to have signed are the trusted keys with a signature over this payload under this type. */
  lemma {:induction false} VerifiersExact(env: Envelope, trusted: seq<KeyId>, signatures: seq<Signature>, k: KeyId)
    ensures k in VerifiersFrom(env, trusted, signatures) <==>
            k in trusted && Signature(k, Signed(k, env.payloadType, env.payload)) in signatures
  {
    if signatures != [] {
      VerifiersExact(env, trusted, signatures[1..], k);
      assert signatures == [signatures[0]] + signatures[1..];
    }
  }

  lemma {:induction false} WithoutHas(a: seq<Signature>, key: KeyId, s: Signature)
    ensures s in Without(a, key) <==> s in a && s.keyid != key
  {
    if a != [] {
      WithoutHas(a[1..], key, s);
      assert a == [a[0]] + a[1..];
    }
  }

  lemma {:induction false} UntrustedUnseen(env: Envelope, env': Envelope, trusted: seq<KeyId>, key: KeyId, i: nat,
      j: nat)
    requires i <= |env.signatures| && j <= |env'.signatures| && key !in trusted
    requires env'.payloadType == env.payloadType && env'.payload == env.payload
    requires exists s: Signature :: s.keyid == key && env'.signatures[j..] == Without(env.signatures[i..], key) + [s]
    ensures VerdictFrom(env', trusted, j) == VerdictFrom(env, trusted, i)
    decreases |env.signatures| - i
  {
    var s: Signature :| s.keyid == key && env'.signatures[j..] == Without(env.signatures[i..], key) + [s];
    if i == |env.signatures| {
      assert env'.signatures[j..] == [s] && env'.signatures[j..][0] == s;
    } else {
      assert env.signatures[i..][1..] == env.signatures[i + 1..];
      if env.signatures[i].keyid == key {
        UntrustedUnseen(env, env', trusted, key, i + 1, j);
      } else {
        assert env'.signatures[j..][0] == env.signatures[i];
        assert env'.signatures[j + 1..] == env'.signatures[j..][1..] == Without(env.signatures[i + 1..], key) + [s];
        if env.signatures[i].keyid !in trusted {
          UntrustedUnseen(env, env', trusted, key, i + 1, j + 1);
        }
      }
    }
  }

  /** A countersignature adds its key to those that signed the same payload and takes none of the others away; whoever
      does not trust it gets the verdict they got before. */
  lemma {:induction false} CountersignAddsOne(env: Envelope, key: KeyId, trusted: seq<KeyId>, k: KeyId)
    ensures var env' := DsseCountersign(env, key);
            && env'.payloadType == env.payloadType && env'.payload == env.payload
            && (SignedBy(env', k) <==> k == key || SignedBy(env, k))
            && (k in DsseVerifiers(env', trusted) <==> k in trusted && (k == key || SignedBy(env, k)))
            && (key !in trusted ==> DsseVerify(env', trusted) == DsseVerify(env, trusted))
  {
    var env' := DsseCountersign(env, key);
    VerifiersExact(env', trusted, env'.signatures, k);
    WithoutHas(env.signatures, key, Signature(k, Signed(k, env.payloadType, env.payload)));
    if key !in trusted {
      assert env.signatures[0..] == env.signatures && env'.signatures[0..] == env'.signatures;
      UntrustedUnseen(env, env', trusted, key, 0, 0);
    }
  }
}
