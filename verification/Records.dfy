/** `record.rs`: the links of the audit log, their canonical encoding, and that
    the encoding identifies the record. */
module Records {
  import opened Bytes
  import opened Canonical
  import opened Json

  datatype PrincipalKind = Human | DelegatedHuman | Machine
  datatype ApprovalMode = Implicit | Interactive | FourEyes
  datatype Outcome = Allow | Deny | AllowFailOpen
  datatype EffectStatus = EffectOk | EffectError | Blocked | Timeout
  datatype ConfigKind = IdentityBundle | PolicyBundle | DeploymentBundleKind
  datatype ReloadStatus = Applied | Rejected
  datatype SealedRef = SealedRef(keyId: Text, blobRef: Text)

  datatype SessionCert = SessionCert(sessionPubkey: Text, identityKeyId: Text, gatewayId: Text,
                                     notBeforeMs: SignedWord, notAfterMs: SignedWord, identitySig: Text)

  datatype Payload =
    | Delegation(principalSub: Text, principalIssuer: Text, scopes: seq<Text>, expiresAtMs: SignedWord,
                 approvedBy: Option<Text>, approvalMode: ApprovalMode)
    | Actor(chain: seq<Text>, principalKind: PrincipalKind)
    | AgentSession(agentId: Text, agentVersion: Text, configHash: Hash)
    | LlmTurn(provider: Text, model: Text, promptHash: Hash, responseHash: Hash,
              inputTokens: Option<Word>, outputTokens: Option<Word>, costMicros: Option<Word>)
    | ToolCall(server: Text, tool: Text, argsHash: Hash, argsSealed: Option<SealedRef>)
    | McpAccess(accessServer: Text, accessMethod: Text, target: Text, paramsHash: Hash)
    | PrincipalLabel(issuer: Text, subject: Text, labelText: Text, claim: Text)
    | Unknown(kind: Text, raw: Json)
    | Decision(outcome: Outcome, policyId: Option<Text>, bundleVersion: Text, reason: Option<Text>)
    | Effect(status: EffectStatus, resultHash: Option<Hash>, latencyMs: Word)
    | ConfigReload(configKind: ConfigKind, reloadStatus: ReloadStatus, reloadVersion: Text,
                   bundleHash: Option<Hash>, reloadReason: Option<Text>)
    | Session(cert: SessionCert)

  datatype Record = Record(seqNo: Word, tsMs: SignedWord, prevHash: Hash, id: Text, parentId: Option<Text>,
                           sessionId: Text, payload: Payload)

  /** Of a type the model knows, not one carried along as JSON. */
  predicate IsUnderstood(p: Payload) {
    !p.Unknown?
  }

  // ------------------------------------------------- discriminants

  function PrincipalKindStr(k: PrincipalKind): Text {
    match k case Human => Ascii("human") case DelegatedHuman => Ascii("delegated_human") case Machine => Ascii("machine")
  }

  function ApprovalModeStr(m: ApprovalMode): Text {
    match m
    case Implicit => Ascii("implicit") case Interactive => Ascii("interactive") case FourEyes => Ascii("four_eyes")
  }

  function OutcomeStr(o: Outcome): Text {
    match o
    case Allow => Ascii("allow") case Deny => Ascii("deny") case AllowFailOpen => Ascii("allow_fail_open")
  }

  function EffectStatusStr(s: EffectStatus): Text {
    match s
    case EffectOk => Ascii("ok") case EffectError => Ascii("error")
    case Blocked => Ascii("blocked") case Timeout => Ascii("timeout")
  }

  function ConfigKindStr(k: ConfigKind): Text {
    match k
    case IdentityBundle => Ascii("identity_bundle") case PolicyBundle => Ascii("policy_bundle")
    case DeploymentBundleKind => Ascii("deployment_bundle")
  }

  function ReloadStatusStr(s: ReloadStatus): Text {
    match s case Applied => Ascii("applied") case Rejected => Ascii("rejected")
  }

  /** The frozen payload discriminant. */
  function PayloadTag(p: Payload): Byte {
    match p
    case Delegation(_, _, _, _, _, _) => 1
    case AgentSession(_, _, _) => 2
    case LlmTurn(_, _, _, _, _, _, _) => 3
    case ToolCall(_, _, _, _) => 4
    case Decision(_, _, _, _) => 5
    case Effect(_, _, _) => 6
    case Actor(_, _) => 7
    case ConfigReload(_, _, _, _, _) => 8
    case Session(_) => 9
    case McpAccess(_, _, _, _) => 10
    case PrincipalLabel(_, _, _, _) => 11
    case Unknown(_, _) => 0
  }

  // ------------------------------------------------- the encoding

  function EncSealed(s: Option<SealedRef>): seq<Byte> {
    match s case None => [0] case Some(r) => [1] + (EncText(r.keyId) + EncText(r.blobRef))
  }

  function EncFieldsOf(p: Payload): seq<Byte> {
    match p
    case Delegation(sub, iss, scopes, exp, approver, mode) =>
      EncText(sub) + (EncText(iss) + (EncTextSeq(scopes) + (EncSigned(exp) + (EncOptText(approver) + EncText(ApprovalModeStr(mode))))))
    case Actor(chain, kind) => EncTextSeq(chain) + EncText(PrincipalKindStr(kind))
    case AgentSession(id, version, config) => EncText(id) + (EncText(version) + config)
    case LlmTurn(provider, model, prompt, response, input, output, cost) =>
      EncText(provider) + (EncText(model) + (prompt + (response + (EncOptWord(input) + (EncOptWord(output) + EncOptWord(cost))))))
    case ToolCall(server, tool, args, sealed) => EncText(server) + (EncText(tool) + (args + EncSealed(sealed)))
    case McpAccess(server, method', target, params) =>
      EncText(server) + (EncText(method') + (EncText(target) + params))
    case PrincipalLabel(issuer, subject, label', claim) =>
      EncText(issuer) + (EncText(subject) + (EncText(label') + EncText(claim)))
    case Unknown(kind, raw) => EncText(kind) + EncJson(raw)
    case Decision(outcome, policy, version, reason) =>
      EncText(OutcomeStr(outcome)) + (EncOptText(policy) + (EncText(version) + EncOptText(reason)))
    case Effect(status, result, latency) =>
      EncText(EffectStatusStr(status)) + (EncOptHash(result) + EncWord(latency))
    case ConfigReload(kind, status, version, hash, reason) =>
      EncText(ConfigKindStr(kind)) + (EncText(ReloadStatusStr(status)) + (EncText(version) + (EncOptHash(hash) + EncOptText(reason))))
    case Session(c) =>
      EncText(c.sessionPubkey) + (EncText(c.identityKeyId) + (EncText(c.gatewayId)
      + (EncSigned(c.notBeforeMs) + (EncSigned(c.notAfterMs) + EncText(c.identitySig)))))
  }

  function EncPayload(p: Payload): seq<Byte> {
    [PayloadTag(p)] + EncFieldsOf(p)
  }

  /** The bytes `Record::hash` digests. */
  function EncRecord(r: Record): seq<Byte> {
    EncWord(r.seqNo) + (EncSigned(r.tsMs) + (r.prevHash + (EncText(r.id) + (EncOptText(r.parentId)
    + (EncText(r.sessionId) + EncPayload(r.payload))))))
  }

  /** `Payload::encode`. */
  method EncodePayload(e: Encoder, p: Payload)
    modifies e
    ensures e.buf == old(e.buf) + EncPayload(p)
  {
    ghost var start := e.buf;
    e.U8(PayloadTag(p));
    EncodeFieldsOf(e, p);
    Assoc(start, [PayloadTag(p)], EncFieldsOf(p));
  }

  method EncodeFieldsOf(e: Encoder, p: Payload)
    modifies e
    ensures e.buf == old(e.buf) + EncFieldsOf(p)
  {
    ghost var start := e.buf;
    match p {
      case Delegation(sub, iss, scopes, exp, approver, mode) =>
        e.Str(sub); e.Str(iss); e.StrSeq(scopes); e.I64(exp); e.OptStr(approver); e.Str(ApprovalModeStr(mode));
        Cat6(start, EncText(sub), EncText(iss), EncTextSeq(scopes), EncSigned(exp), EncOptText(approver), EncText(ApprovalModeStr(mode)));
      case Actor(chain, kind) =>
        e.StrSeq(chain); e.Str(PrincipalKindStr(kind));
        Assoc(start, EncTextSeq(chain), EncText(PrincipalKindStr(kind)));
      case AgentSession(id, version, config) =>
        e.Str(id); e.Str(version); e.Digest(config);
        Cat3(start, EncText(id), EncText(version), config);
      case LlmTurn(provider, model, prompt, response, input, output, cost) =>
        e.Str(provider); e.Str(model); e.Digest(prompt); e.Digest(response); e.OptU64(input); e.OptU64(output); e.OptU64(cost);
        Cat7(start, EncText(provider), EncText(model), prompt, response, EncOptWord(input), EncOptWord(output), EncOptWord(cost));
      case ToolCall(server, tool, args, sealed) =>
        e.Str(server); e.Str(tool); e.Digest(args);
        EncodeSealed(e, sealed);
        Cat4(start, EncText(server), EncText(tool), args, EncSealed(sealed));
      case McpAccess(server, method', target, params) =>
        e.Str(server); e.Str(method'); e.Str(target); e.Digest(params);
        Cat4(start, EncText(server), EncText(method'), EncText(target), params);
      case PrincipalLabel(issuer, subject, label', claim) =>
        e.Str(issuer); e.Str(subject); e.Str(label'); e.Str(claim);
        Cat4(start, EncText(issuer), EncText(subject), EncText(label'), EncText(claim));
      case Unknown(kind, raw) =>
        e.Str(kind);
        EncodeJson(e, raw);
        Assoc(start, EncText(kind), EncJson(raw));
      case Decision(outcome, policy, version, reason) =>
        e.Str(OutcomeStr(outcome)); e.OptStr(policy); e.Str(version); e.OptStr(reason);
        Cat4(start, EncText(OutcomeStr(outcome)), EncOptText(policy), EncText(version), EncOptText(reason));
      case Effect(status, result, latency) =>
        e.Str(EffectStatusStr(status)); e.OptHash(result); e.U64(latency);
        Cat3(start, EncText(EffectStatusStr(status)), EncOptHash(result), EncWord(latency));
      case ConfigReload(kind, status, version, hash, reason) =>
        e.Str(ConfigKindStr(kind)); e.Str(ReloadStatusStr(status)); e.Str(version); e.OptHash(hash); e.OptStr(reason);
        Cat5(start, EncText(ConfigKindStr(kind)), EncText(ReloadStatusStr(status)), EncText(version), EncOptHash(hash), EncOptText(reason));
      case Session(c) =>
        e.Str(c.sessionPubkey); e.Str(c.identityKeyId); e.Str(c.gatewayId);
        e.I64(c.notBeforeMs); e.I64(c.notAfterMs); e.Str(c.identitySig);
        Cat6(start, EncText(c.sessionPubkey), EncText(c.identityKeyId), EncText(c.gatewayId),
             EncSigned(c.notBeforeMs), EncSigned(c.notAfterMs), EncText(c.identitySig));
    }
  }

  method EncodeSealed(e: Encoder, s: Option<SealedRef>)
    modifies e
    ensures e.buf == old(e.buf) + EncSealed(s)
  {
    ghost var start := e.buf;
    match s {
      case None => e.U8(0);
      case Some(r) =>
        e.U8(1); e.Str(r.keyId); e.Str(r.blobRef);
        Cat3(start, [1 as Byte], EncText(r.keyId), EncText(r.blobRef));
    }
  }

  /** The encoder run of `Record::hash`. */
  method EncodeRecord(r: Record) returns (body: seq<Byte>)
    ensures body == EncRecord(r)
  {
    var e := new Encoder();
    e.U64(r.seqNo);
    e.I64(r.tsMs);
    e.Digest(r.prevHash);
    e.Str(r.id);
    e.OptStr(r.parentId);
    e.Str(r.sessionId);
    EncodePayload(e, r.payload);
    Cat7([], EncWord(r.seqNo), EncSigned(r.tsMs), r.prevHash, EncText(r.id), EncOptText(r.parentId),
         EncText(r.sessionId), EncPayload(r.payload));
    assert [] + EncRecord(r) == EncRecord(r);
    body := e.buf;
  }

  // ------------------------------------------------- the encoding identifies the record

  /** Every length within its cast, and JSON as the parser leaves it. */
  predicate Encodable(p: Payload) {
    match p
    case Delegation(sub, iss, scopes, _, approver, _) => Short(sub) && Short(iss) && ShortSeq(scopes) && ShortOpt(approver)
    case Actor(chain, _) => ShortSeq(chain)
    case AgentSession(id, version, _) => Short(id) && Short(version)
    case LlmTurn(provider, model, _, _, _, _, _) => Short(provider) && Short(model)
    case ToolCall(server, tool, _, sealed) =>
      Short(server) && Short(tool) && (sealed.Some? ==> Short(sealed.value.keyId) && Short(sealed.value.blobRef))
    case McpAccess(server, method', target, _) => Short(server) && Short(method') && Short(target)
    case PrincipalLabel(issuer, subject, label', claim) => Short(issuer) && Short(subject) && Short(label') && Short(claim)
    case Unknown(kind, raw) => Short(kind) && raw.JObject? && WellFormed(raw)
    case Decision(_, policy, version, reason) => ShortOpt(policy) && Short(version) && ShortOpt(reason)
    case Effect(_, _, _) => true
    case ConfigReload(_, _, version, _, reason) => Short(version) && ShortOpt(reason)
    case Session(c) =>
      Short(c.sessionPubkey) && Short(c.identityKeyId) && Short(c.gatewayId) && Short(c.identitySig)
  }

  predicate EncodableRecord(r: Record) {
    Short(r.id) && ShortOpt(r.parentId) && Short(r.sessionId) && Encodable(r.payload)
  }

  /** Equal, except that an unknown payload's objects may list their keys in another order. */
  predicate SamePayload(p: Payload, q: Payload) {
    if p.Unknown? then q.Unknown? && p.kind == q.kind && SameJson(p.raw, q.raw) else p == q
  }

  predicate SameRecord(r: Record, s: Record) {
    r.(payload := s.payload) == s && SamePayload(r.payload, s.payload)
  }

  lemma DiscriminantsDistinct()
    ensures forall a, b :: PrincipalKindStr(a) == PrincipalKindStr(b) ==> a == b
    ensures forall a, b :: ApprovalModeStr(a) == ApprovalModeStr(b) ==> a == b
    ensures forall a, b :: OutcomeStr(a) == OutcomeStr(b) ==> a == b
    ensures forall a, b :: EffectStatusStr(a) == EffectStatusStr(b) ==> a == b
    ensures forall a, b :: ConfigKindStr(a) == ConfigKindStr(b) ==> a == b
    ensures forall a, b :: ReloadStatusStr(a) == ReloadStatusStr(b) ==> a == b
    ensures forall a :: |PrincipalKindStr(a)| < 100
    ensures forall a :: |ApprovalModeStr(a)| < 100
    ensures forall a :: |OutcomeStr(a)| < 100
    ensures forall a :: |EffectStatusStr(a)| < 100
    ensures forall a :: |ConfigKindStr(a)| < 100
    ensures forall a :: |ReloadStatusStr(a)| < 100
  {
    assert Ascii("blocked")[0] == 'b' as int && Ascii("timeout")[0] == 't' as int;
    assert Ascii("blocked") != Ascii("timeout");
  }

  lemma TagsDistinct(p: Payload, q: Payload)
    requires PayloadTag(p) == PayloadTag(q)
    ensures p.Delegation? <==> q.Delegation?
    ensures p.Actor? <==> q.Actor?
    ensures p.AgentSession? <==> q.AgentSession?
    ensures p.LlmTurn? <==> q.LlmTurn?
    ensures p.ToolCall? <==> q.ToolCall?
    ensures p.McpAccess? <==> q.McpAccess?
    ensures p.PrincipalLabel? <==> q.PrincipalLabel?
    ensures p.Unknown? <==> q.Unknown?
    ensures p.Decision? <==> q.Decision?
    ensures p.Effect? <==> q.Effect?
    ensures p.ConfigReload? <==> q.ConfigReload?
    ensures p.Session? <==> q.Session?
  {
  }

  lemma ReadSealed(a: Option<SealedRef>, b: Option<SealedRef>, s: seq<Byte>, t: seq<Byte>)
    requires a.Some? ==> Short(a.value.keyId) && Short(a.value.blobRef)
    requires b.Some? ==> Short(b.value.keyId) && Short(b.value.blobRef)
    requires EncSealed(a) + s == EncSealed(b) + t
    ensures a == b && s == t
  {
    var va := if a.Some? then EncText(a.value.keyId) + EncText(a.value.blobRef) else [];
    var vb := if b.Some? then EncText(b.value.keyId) + EncText(b.value.blobRef) else [];
    ReadPresence(a.Some?, b.Some?, va, vb, s, t);
    if a.Some? {
      PeelText(a.value.keyId, b.value.keyId, EncText(a.value.blobRef), EncText(b.value.blobRef), s, t);
      ReadText(a.value.blobRef, b.value.blobRef, s, t);
    }
  }

  lemma ReadDelegation(p: Payload, q: Payload, s: seq<Byte>, t: seq<Byte>)
    requires p.Delegation? && q.Delegation? && Encodable(p) && Encodable(q)
    requires EncFieldsOf(p) + s == EncFieldsOf(q) + t
    ensures SamePayload(p, q) && s == t
  {
    DiscriminantsDistinct();
    var x5 := EncText(ApprovalModeStr(p.approvalMode));
    var x4 := EncOptText(p.approvedBy) + x5;
    var x3 := EncSigned(p.expiresAtMs) + x4;
    var x2 := EncTextSeq(p.scopes) + x3;
    var x1 := EncText(p.principalIssuer) + x2;
    var y5 := EncText(ApprovalModeStr(q.approvalMode));
    var y4 := EncOptText(q.approvedBy) + y5;
    var y3 := EncSigned(q.expiresAtMs) + y4;
    var y2 := EncTextSeq(q.scopes) + y3;
    var y1 := EncText(q.principalIssuer) + y2;
    PeelText(p.principalSub, q.principalSub, x1, y1, s, t);
    PeelText(p.principalIssuer, q.principalIssuer, x2, y2, s, t);
    PeelTextSeq(p.scopes, q.scopes, x3, y3, s, t);
    PeelSigned(p.expiresAtMs, q.expiresAtMs, x4, y4, s, t);
    PeelOptText(p.approvedBy, q.approvedBy, x5, y5, s, t);
    ReadText(ApprovalModeStr(p.approvalMode), ApprovalModeStr(q.approvalMode), s, t);
  }

  lemma ReadActor(p: Payload, q: Payload, s: seq<Byte>, t: seq<Byte>)
    requires p.Actor? && q.Actor? && Encodable(p) && Encodable(q)
    requires EncFieldsOf(p) + s == EncFieldsOf(q) + t
    ensures SamePayload(p, q) && s == t
  {
    DiscriminantsDistinct();
    var x1 := EncText(PrincipalKindStr(p.principalKind));
    var y1 := EncText(PrincipalKindStr(q.principalKind));
    PeelTextSeq(p.chain, q.chain, x1, y1, s, t);
    ReadText(PrincipalKindStr(p.principalKind), PrincipalKindStr(q.principalKind), s, t);
  }

  lemma ReadAgentSession(p: Payload, q: Payload, s: seq<Byte>, t: seq<Byte>)
    requires p.AgentSession? && q.AgentSession? && Encodable(p) && Encodable(q)
    requires EncFieldsOf(p) + s == EncFieldsOf(q) + t
    ensures SamePayload(p, q) && s == t
  {
    var x2 := p.configHash;
    var x1 := EncText(p.agentVersion) + x2;
    var y2 := q.configHash;
    var y1 := EncText(q.agentVersion) + y2;
    PeelText(p.agentId, q.agentId, x1, y1, s, t);
    PeelText(p.agentVersion, q.agentVersion, x2, y2, s, t);
    ReadHash(p.configHash, q.configHash, s, t);
  }

  lemma ReadLlmTurn(p: Payload, q: Payload, s: seq<Byte>, t: seq<Byte>)
    requires p.LlmTurn? && q.LlmTurn? && Encodable(p) && Encodable(q)
    requires EncFieldsOf(p) + s == EncFieldsOf(q) + t
    ensures SamePayload(p, q) && s == t
  {
    var x6 := EncOptWord(p.costMicros);
    var x5 := EncOptWord(p.outputTokens) + x6;
    var x4 := EncOptWord(p.inputTokens) + x5;
    var x3 := p.responseHash + x4;
    var x2 := p.promptHash + x3;
    var x1 := EncText(p.model) + x2;
    var y6 := EncOptWord(q.costMicros);
    var y5 := EncOptWord(q.outputTokens) + y6;
    var y4 := EncOptWord(q.inputTokens) + y5;
    var y3 := q.responseHash + y4;
    var y2 := q.promptHash + y3;
    var y1 := EncText(q.model) + y2;
    PeelText(p.provider, q.provider, x1, y1, s, t);
    PeelText(p.model, q.model, x2, y2, s, t);
    PeelHash(p.promptHash, q.promptHash, x3, y3, s, t);
    PeelHash(p.responseHash, q.responseHash, x4, y4, s, t);
    PeelOptWord(p.inputTokens, q.inputTokens, x5, y5, s, t);
    PeelOptWord(p.outputTokens, q.outputTokens, x6, y6, s, t);
    ReadOptWord(p.costMicros, q.costMicros, s, t);
  }

  lemma ReadToolCall(p: Payload, q: Payload, s: seq<Byte>, t: seq<Byte>)
    requires p.ToolCall? && q.ToolCall? && Encodable(p) && Encodable(q)
    requires EncFieldsOf(p) + s == EncFieldsOf(q) + t
    ensures SamePayload(p, q) && s == t
  {
    var x3 := EncSealed(p.argsSealed);
    var x2 := p.argsHash + x3;
    var x1 := EncText(p.tool) + x2;
    var y3 := EncSealed(q.argsSealed);
    var y2 := q.argsHash + y3;
    var y1 := EncText(q.tool) + y2;
    PeelText(p.server, q.server, x1, y1, s, t);
    PeelText(p.tool, q.tool, x2, y2, s, t);
    PeelHash(p.argsHash, q.argsHash, x3, y3, s, t);
    ReadSealed(p.argsSealed, q.argsSealed, s, t);
  }

  lemma ReadMcpAccess(p: Payload, q: Payload, s: seq<Byte>, t: seq<Byte>)
    requires p.McpAccess? && q.McpAccess? && Encodable(p) && Encodable(q)
    requires EncFieldsOf(p) + s == EncFieldsOf(q) + t
    ensures SamePayload(p, q) && s == t
  {
    var x3 := p.paramsHash;
    var x2 := EncText(p.target) + x3;
    var x1 := EncText(p.accessMethod) + x2;
    var y3 := q.paramsHash;
    var y2 := EncText(q.target) + y3;
    var y1 := EncText(q.accessMethod) + y2;
    PeelText(p.accessServer, q.accessServer, x1, y1, s, t);
    PeelText(p.accessMethod, q.accessMethod, x2, y2, s, t);
    PeelText(p.target, q.target, x3, y3, s, t);
    ReadHash(p.paramsHash, q.paramsHash, s, t);
  }

  lemma ReadPrincipalLabel(p: Payload, q: Payload, s: seq<Byte>, t: seq<Byte>)
    requires p.PrincipalLabel? && q.PrincipalLabel? && Encodable(p) && Encodable(q)
    requires EncFieldsOf(p) + s == EncFieldsOf(q) + t
    ensures SamePayload(p, q) && s == t
  {
    var x3 := EncText(p.claim);
    var x2 := EncText(p.labelText) + x3;
    var x1 := EncText(p.subject) + x2;
    var y3 := EncText(q.claim);
    var y2 := EncText(q.labelText) + y3;
    var y1 := EncText(q.subject) + y2;
    PeelText(p.issuer, q.issuer, x1, y1, s, t);
    PeelText(p.subject, q.subject, x2, y2, s, t);
    PeelText(p.labelText, q.labelText, x3, y3, s, t);
    ReadText(p.claim, q.claim, s, t);
  }

  lemma ReadUnknown(p: Payload, q: Payload, s: seq<Byte>, t: seq<Byte>)
    requires p.Unknown? && q.Unknown? && Encodable(p) && Encodable(q)
    requires EncFieldsOf(p) + s == EncFieldsOf(q) + t
    ensures SamePayload(p, q) && s == t
  {
    var x1 := EncJson(p.raw);
    var y1 := EncJson(q.raw);
    PeelText(p.kind, q.kind, x1, y1, s, t);
    ReadJson(p.raw, q.raw, s, t);
  }

  lemma ReadDecision(p: Payload, q: Payload, s: seq<Byte>, t: seq<Byte>)
    requires p.Decision? && q.Decision? && Encodable(p) && Encodable(q)
    requires EncFieldsOf(p) + s == EncFieldsOf(q) + t
    ensures SamePayload(p, q) && s == t
  {
    DiscriminantsDistinct();
    var x3 := EncOptText(p.reason);
    var x2 := EncText(p.bundleVersion) + x3;
    var x1 := EncOptText(p.policyId) + x2;
    var y3 := EncOptText(q.reason);
    var y2 := EncText(q.bundleVersion) + y3;
    var y1 := EncOptText(q.policyId) + y2;
    PeelText(OutcomeStr(p.outcome), OutcomeStr(q.outcome), x1, y1, s, t);
    PeelOptText(p.policyId, q.policyId, x2, y2, s, t);
    PeelText(p.bundleVersion, q.bundleVersion, x3, y3, s, t);
    ReadOptText(p.reason, q.reason, s, t);
  }

  lemma ReadEffect(p: Payload, q: Payload, s: seq<Byte>, t: seq<Byte>)
    requires p.Effect? && q.Effect? && Encodable(p) && Encodable(q)
    requires EncFieldsOf(p) + s == EncFieldsOf(q) + t
    ensures SamePayload(p, q) && s == t
  {
    DiscriminantsDistinct();
    var x2 := EncWord(p.latencyMs);
    var x1 := EncOptHash(p.resultHash) + x2;
    var y2 := EncWord(q.latencyMs);
    var y1 := EncOptHash(q.resultHash) + y2;
    PeelText(EffectStatusStr(p.status), EffectStatusStr(q.status), x1, y1, s, t);
    PeelOptHash(p.resultHash, q.resultHash, x2, y2, s, t);
    ReadWord(p.latencyMs, q.latencyMs, s, t);
  }

  lemma ReadConfigReload(p: Payload, q: Payload, s: seq<Byte>, t: seq<Byte>)
    requires p.ConfigReload? && q.ConfigReload? && Encodable(p) && Encodable(q)
    requires EncFieldsOf(p) + s == EncFieldsOf(q) + t
    ensures SamePayload(p, q) && s == t
  {
    DiscriminantsDistinct();
    var x4 := EncOptText(p.reloadReason);
    var x3 := EncOptHash(p.bundleHash) + x4;
    var x2 := EncText(p.reloadVersion) + x3;
    var x1 := EncText(ReloadStatusStr(p.reloadStatus)) + x2;
    var y4 := EncOptText(q.reloadReason);
    var y3 := EncOptHash(q.bundleHash) + y4;
    var y2 := EncText(q.reloadVersion) + y3;
    var y1 := EncText(ReloadStatusStr(q.reloadStatus)) + y2;
    PeelText(ConfigKindStr(p.configKind), ConfigKindStr(q.configKind), x1, y1, s, t);
    PeelText(ReloadStatusStr(p.reloadStatus), ReloadStatusStr(q.reloadStatus), x2, y2, s, t);
    PeelText(p.reloadVersion, q.reloadVersion, x3, y3, s, t);
    PeelOptHash(p.bundleHash, q.bundleHash, x4, y4, s, t);
    ReadOptText(p.reloadReason, q.reloadReason, s, t);
  }

  lemma ReadSession(p: Payload, q: Payload, s: seq<Byte>, t: seq<Byte>)
    requires p.Session? && q.Session? && Encodable(p) && Encodable(q)
    requires EncFieldsOf(p) + s == EncFieldsOf(q) + t
    ensures SamePayload(p, q) && s == t
  {
    var x5 := EncText(p.cert.identitySig);
    var x4 := EncSigned(p.cert.notAfterMs) + x5;
    var x3 := EncSigned(p.cert.notBeforeMs) + x4;
    var x2 := EncText(p.cert.gatewayId) + x3;
    var x1 := EncText(p.cert.identityKeyId) + x2;
    var y5 := EncText(q.cert.identitySig);
    var y4 := EncSigned(q.cert.notAfterMs) + y5;
    var y3 := EncSigned(q.cert.notBeforeMs) + y4;
    var y2 := EncText(q.cert.gatewayId) + y3;
    var y1 := EncText(q.cert.identityKeyId) + y2;
    PeelText(p.cert.sessionPubkey, q.cert.sessionPubkey, x1, y1, s, t);
    PeelText(p.cert.identityKeyId, q.cert.identityKeyId, x2, y2, s, t);
    PeelText(p.cert.gatewayId, q.cert.gatewayId, x3, y3, s, t);
    PeelSigned(p.cert.notBeforeMs, q.cert.notBeforeMs, x4, y4, s, t);
    PeelSigned(p.cert.notAfterMs, q.cert.notAfterMs, x5, y5, s, t);
    ReadText(p.cert.identitySig, q.cert.identitySig, s, t);
  }

  lemma ReadPayload(p: Payload, q: Payload, s: seq<Byte>, t: seq<Byte>)
    requires Encodable(p) && Encodable(q) && EncPayload(p) + s == EncPayload(q) + t
    ensures SamePayload(p, q) && s == t
  {
    Assoc([PayloadTag(p)], EncFieldsOf(p), s);
    Assoc([PayloadTag(q)], EncFieldsOf(q), t);
    ReadByte(PayloadTag(p), PayloadTag(q), EncFieldsOf(p) + s, EncFieldsOf(q) + t);
    TagsDistinct(p, q);
    match p
    case Delegation(_, _, _, _, _, _) => ReadDelegation(p, q, s, t);
    case Actor(_, _) => ReadActor(p, q, s, t);
    case AgentSession(_, _, _) => ReadAgentSession(p, q, s, t);
    case LlmTurn(_, _, _, _, _, _, _) => ReadLlmTurn(p, q, s, t);
    case ToolCall(_, _, _, _) => ReadToolCall(p, q, s, t);
    case McpAccess(_, _, _, _) => ReadMcpAccess(p, q, s, t);
    case PrincipalLabel(_, _, _, _) => ReadPrincipalLabel(p, q, s, t);
    case Unknown(_, _) => ReadUnknown(p, q, s, t);
    case Decision(_, _, _, _) => ReadDecision(p, q, s, t);
    case Effect(_, _, _) => ReadEffect(p, q, s, t);
    case ConfigReload(_, _, _, _, _) => ReadConfigReload(p, q, s, t);
    case Session(_) => ReadSession(p, q, s, t);
  }

  /** Records with equal encodings are equal, unknown payloads up to key order. */
  lemma EncodingIdentifiesRecord(r: Record, s: Record)
    requires EncodableRecord(r) && EncodableRecord(s)
    ensures EncRecord(r) == EncRecord(s) <==> SameRecord(r, s)
  {
    if EncRecord(r) == EncRecord(s) {
      ReadRecord(r, s);
    } else if SameRecord(r, s) && r.payload.Unknown? {
      SameJsonSameBytes(r.payload.raw, s.payload.raw);
    }
  }

  lemma ReadRecord(r: Record, s: Record)
    requires EncodableRecord(r) && EncodableRecord(s) && EncRecord(r) == EncRecord(s)
    ensures SameRecord(r, s)
  {
    var x6, y6 := EncPayload(r.payload), EncPayload(s.payload);
    var x5, y5 := EncText(r.sessionId) + x6, EncText(s.sessionId) + y6;
    var x4, y4 := EncOptText(r.parentId) + x5, EncOptText(s.parentId) + y5;
    var x3, y3 := EncText(r.id) + x4, EncText(s.id) + y4;
    var x2, y2 := r.prevHash + x3, s.prevHash + y3;
    var x1, y1 := EncSigned(r.tsMs) + x2, EncSigned(s.tsMs) + y2;
    PeelWord(r.seqNo, s.seqNo, x1, y1, [], []);
    PeelSigned(r.tsMs, s.tsMs, x2, y2, [], []);
    PeelHash(r.prevHash, s.prevHash, x3, y3, [], []);
    PeelText(r.id, s.id, x4, y4, [], []);
    PeelOptText(r.parentId, s.parentId, x5, y5, [], []);
    PeelText(r.sessionId, s.sessionId, x6, y6, [], []);
    ReadPayload(r.payload, s.payload, [], []);
  }

  /** An understood record is pinned exactly. */
  lemma UnderstoodPinned(r: Record, s: Record)
    requires EncodableRecord(r) && EncodableRecord(s) && IsUnderstood(r.payload) && EncRecord(r) == EncRecord(s)
    ensures r == s
  {
    EncodingIdentifiesRecord(r, s);
  }
}
