/** `origin.rs` and `deployment.rs`: who may write records. Keys, session
    certificates, origin signatures and the deployment bundle that enrols keys. */
module Origin {
  import opened Bytes
  import opened Canonical
  import opened Hashing
  import opened Records
  import opened Chain

  /** An Ed25519 public key, by its bytes. */
  type Key = k: seq<Byte> | |k| == 32 witness seq(32, _ => 0)

  datatype KeyRole = SealRole | OriginRole | OpsRole

  datatype KeyEntry = KeyEntry(keyId: Text, algo: Text, publicKey: Text, role: KeyRole)

  /** A remote attestation, checked by `attestation.rs`, which is a parameter here. */
  datatype KeyAttestation = KeyAttestation(keyId: Text, blob: Text)

  datatype DeploymentBundle = DeploymentBundle(format: Text, version: Text, originKeys: seq<KeyEntry>,
                                               attestations: seq<KeyAttestation>)
  datatype SignedDeployment = SignedDeployment(bundle: DeploymentBundle, keyId: Text, signature: Text)

  datatype TokenReading = BadEncoding | TokenRejected | TokenUnreadable | Imprint(hashed: seq<Byte>)

  /** The primitives below this model: Ed25519 verification of a hex signature, decoding of a hex public
      key, the bytes a deployment bundle is signed over, the attestation check and the RFC 3161 reader;
      with the names the source compares text against. */
  datatype Crypto = Crypto(
    h: Hasher,
    ed25519: Text,
    deploymentFormat: Text,
    evidenceFormat: Text,
    verifies: (Key, seq<Byte>, Text) -> bool,
    decodeKey: Text -> Option<Key>,
    bundleBytes: DeploymentBundle -> seq<Byte>,
    attests: (KeyEntry, KeyAttestation) -> bool,
    readToken: Text -> TokenReading)

  /** `PublicKeyEntry::to_verifying_key`. */
  function ToKey(c: Crypto, e: KeyEntry): Option<Key> {
    if e.algo == c.ed25519 then c.decodeKey(e.publicKey) else None
  }

  function HexDigit(n: nat): (b: Byte)
    requires n < 16
  {
    if n < 10 then 48 + n else 87 + n
  }

  function Hex(b: seq<Byte>): (t: Text)
    ensures |t| == 2 * |b|
  {
    if b == [] then [] else [HexDigit(b[0] as int / 16), HexDigit(b[0] as int % 16)] + Hex(b[1..])
  }

  /** `key_id_for`: sixteen hex characters of the key. */
  function KeyIdFor(k: Key): Text {
    Ascii("origin-") + Hex(k)[..16]
  }

  // ------------------------------------------------- session certificates

  function EncCert(chainId: Text, cert: SessionCert): seq<Byte> {
    EncText(chainId) + (EncText(cert.sessionPubkey) + (EncText(cert.identityKeyId) + (EncText(cert.gatewayId)
    + (EncSigned(cert.notBeforeMs) + EncSigned(cert.notAfterMs)))))
  }

  /** The bytes the identity key signs. */
  function CertBytes(digest: Digest, chainId: Text, cert: SessionCert): Hash {
    digest(SESSION_CERT, EncCert(chainId, cert))
  }

  /** Equal signed bytes bind the same chain, the same keys, the same gateway and the same window. */
  lemma CertBytesBind(digest: Digest, chainA: Text, a: SessionCert, chainB: Text, b: SessionCert)
    requires Short(chainA) && Short(chainB)
    requires Encodable(Session(a)) && Encodable(Session(b))
    requires CollisionFree(digest, {Input(SESSION_CERT, EncCert(chainA, a)), Input(SESSION_CERT, EncCert(chainB, b))})
    requires CertBytes(digest, chainA, a) == CertBytes(digest, chainB, b)
    ensures chainA == chainB && a.(identitySig := b.identitySig) == b
  {
    var i, j := Input(SESSION_CERT, EncCert(chainA, a)), Input(SESSION_CERT, EncCert(chainB, b));
    assert Apply(digest, i) == Apply(digest, j);
    assert i == j;
    var x5, y5 := EncSigned(a.notAfterMs), EncSigned(b.notAfterMs);
    var x4, y4 := EncSigned(a.notBeforeMs) + x5, EncSigned(b.notBeforeMs) + y5;
    var x3, y3 := EncText(a.gatewayId) + x4, EncText(b.gatewayId) + y4;
    var x2, y2 := EncText(a.identityKeyId) + x3, EncText(b.identityKeyId) + y3;
    var x1, y1 := EncText(a.sessionPubkey) + x2, EncText(b.sessionPubkey) + y2;
    PeelText(chainA, chainB, x1, y1, [], []);
    PeelText(a.sessionPubkey, b.sessionPubkey, x2, y2, [], []);
    PeelText(a.identityKeyId, b.identityKeyId, x3, y3, [], []);
    PeelText(a.gatewayId, b.gatewayId, x4, y4, [], []);
    PeelSigned(a.notBeforeMs, b.notBeforeMs, x5, y5, [], []);
    ReadSigned(a.notAfterMs, b.notAfterMs, [], []);
  }

  /** `verify_session_cert`: the session key the certificate authorizes, if the identity key signed it. */
  function VerifyCert(c: Crypto, chainId: Text, cert: SessionCert, identity: Key): Option<Key> {
    if c.verifies(identity, CertBytes(c.h.digest, chainId, cert), cert.identitySig)
    then c.decodeKey(cert.sessionPubkey) else None
  }

  datatype SignedRecord = SignedRecord(record: Record, originSig: Option<Text>, originKeyId: Option<Text>)

  /** The session key a record authorizes, if it is a certificate by a known identity key that checks out. */
  function CertifiedKey(c: Crypto, identity: map<Text, Key>, chainId: Text, sr: SignedRecord): Option<Key> {
    match sr.record.payload
    case Session(cert) =>
      if cert.identityKeyId in identity then VerifyCert(c, chainId, cert, identity[cert.identityKeyId]) else None
    case _ => None
  }

  /** All session keys a chain certifies, by key id; a later certificate for the same id wins. */
  function CertifiedKeys(c: Crypto, identity: map<Text, Key>, chainId: Text, records: seq<SignedRecord>): map<Text, Key> {
    if records == [] then map[]
    else
      var n := |records| - 1;
      var m := CertifiedKeys(c, identity, chainId, records[..n]);
      match CertifiedKey(c, identity, chainId, records[n])
      case Some(k) => m[KeyIdFor(k) := k]
      case None => m
  }

  /** The harvesting loop shared by the sealer and the gateway. */
  method HarvestCertified(c: Crypto, identity: map<Text, Key>, chainId: Text, records: seq<SignedRecord>)
    returns (m: map<Text, Key>)
    ensures m == CertifiedKeys(c, identity, chainId, records)
  {
    m := map[];
    for i := 0 to |records|
      invariant m == CertifiedKeys(c, identity, chainId, records[..i])
    {
      assert records[..i + 1][..i] == records[..i];
      match records[i].record.payload {
        case Session(cert) =>
          if cert.identityKeyId in identity {
            var vk := VerifyCert(c, chainId, cert, identity[cert.identityKeyId]);
            if vk.Some? {
              m := m[KeyIdFor(vk.value) := vk.value];
            }
          }
        case _ =>
      }
    }
    assert records[..|records|] == records;
  }

  /** A certified key is listed under its own id and was certified by some record of the chain. */
  lemma {:induction false} CertifiedMeans(c: Crypto, identity: map<Text, Key>, chainId: Text, records: seq<SignedRecord>, kid: Text)
    ensures var m := CertifiedKeys(c, identity, chainId, records);
      kid in m ==>
        (kid == KeyIdFor(m[kid]) &&
         exists i :: 0 <= i < |records| && CertifiedKey(c, identity, chainId, records[i]) == Some(m[kid]))
  {
    if records != [] {
      var n := |records| - 1;
      CertifiedMeans(c, identity, chainId, records[..n], kid);
      var m, m' := CertifiedKeys(c, identity, chainId, records), CertifiedKeys(c, identity, chainId, records[..n]);
      if kid in m {
        if kid in m' && m[kid] == m'[kid] {
          var i :| 0 <= i < n && CertifiedKey(c, identity, chainId, records[..n][i]) == Some(m[kid]);
          assert records[i] == records[..n][i];
        } else {
          assert CertifiedKey(c, identity, chainId, records[n]) == Some(m[kid]);
        }
      }
    }
  }

  // ------------------------------------------------- record signatures

  /** The bytes an origin key signs for one record. */
  function OriginBytes(digest: Digest, chainId: Text, recordHash: Hash): Hash {
    digest(ORIGIN_RECORD, EncText(chainId) + recordHash)
  }

  /** `SignedRecord::verify_origin`. */
  predicate VerifyOrigin(c: Crypto, chainId: Text, sr: SignedRecord, key: Key) {
    && sr.originSig.Some? && sr.originKeyId.Some?
    && c.verifies(key, OriginBytes(c.h.digest, chainId, c.h.record(sr.record)), sr.originSig.value)
  }

  /** The record's signature is the key's over the record's own hash on this chain. */
  predicate SignedBy(c: Crypto, chainId: Text, sr: SignedRecord, key: Key) {
    && sr.originSig.Some?
    && c.verifies(key, c.h.digest(ORIGIN_RECORD, EncText(chainId) + c.h.record(sr.record)), sr.originSig.value)
  }

  // ------------------------------------------------- the deployment bundle

  /** `SignedDeploymentBundle::verify`. */
  predicate VerifyDeployment(c: Crypto, d: SignedDeployment, ops: Key) {
    c.verifies(ops, c.h.digest(DEPLOYMENT_BUNDLE, c.bundleBytes(d.bundle)), d.signature)
    && d.bundle.format == c.deploymentFormat
  }

  /** An entry that may be enrolled. */
  predicate UsableOrigin(c: Crypto, e: KeyEntry) {
    e.role == OriginRole && ToKey(c, e).Some?
  }

  predicate DistinctIds(es: seq<KeyEntry>) {
    forall i, j :: 0 <= i < j < |es| ==> es[i].keyId != es[j].keyId
  }

  /** The keys a list of entries names, a later entry for the same id winning. */
  function KeyMap(c: Crypto, es: seq<KeyEntry>, role: KeyRole): map<Text, Key> {
    if es == [] then map[]
    else
      var n := |es| - 1;
      var m := KeyMap(c, es[..n], role);
      match ToKey(c, es[n])
      case Some(k) => if es[n].role == role then m[es[n].keyId := k] else m
      case None => m
  }

  /** `active_origin_keys`: every entry a usable origin key and no id twice, or an error. */
  function ActiveOriginKeys(c: Crypto, b: DeploymentBundle): Option<map<Text, Key>> {
    if (forall i :: 0 <= i < |b.originKeys| ==> UsableOrigin(c, b.originKeys[i])) && DistinctIds(b.originKeys)
    then Some(KeyMap(c, b.originKeys, OriginRole)) else None
  }

  lemma {:induction false} KeyMapIds(c: Crypto, es: seq<KeyEntry>, role: KeyRole, kid: Text)
    ensures kid in KeyMap(c, es, role) ==>
      exists i :: 0 <= i < |es| && es[i].keyId == kid && es[i].role == role && ToKey(c, es[i]) == Some(KeyMap(c, es, role)[kid])
    ensures (exists i :: 0 <= i < |es| && es[i].keyId == kid && es[i].role == role && ToKey(c, es[i]).Some?) ==>
      kid in KeyMap(c, es, role)
  {
    if es != [] {
      var n := |es| - 1;
      var m, m' := KeyMap(c, es, role), KeyMap(c, es[..n], role);
      KeyMapIds(c, es[..n], role, kid);
      if kid in m {
        if es[n].keyId == kid && es[n].role == role && ToKey(c, es[n]) == Some(m[kid]) {
        } else {
          var i :| 0 <= i < n && es[..n][i].keyId == kid && es[..n][i].role == role && ToKey(c, es[..n][i]) == Some(m'[kid]);
          assert es[i] == es[..n][i];
        }
      }
      if i :| 0 <= i < |es| && es[i].keyId == kid && es[i].role == role && ToKey(c, es[i]).Some? {
        if i < n {
          assert es[..n][i] == es[i];
        }
      }
    }
  }

  /** The map built so far holds an id exactly when an earlier entry has it. */
  lemma FreshId(c: Crypto, es: seq<KeyEntry>, i: nat)
    requires i < |es| && DistinctIds(es[..i]) && forall j :: 0 <= j < i ==> UsableOrigin(c, es[j])
    ensures es[i].keyId in KeyMap(c, es[..i], OriginRole) <==> !DistinctIds(es[..i + 1])
    ensures es[i].keyId in KeyMap(c, es[..i], OriginRole) ==> !DistinctIds(es)
  {
    KeyMapIds(c, es[..i], OriginRole, es[i].keyId);
    if es[i].keyId in KeyMap(c, es[..i], OriginRole) {
      var j :| 0 <= j < i && es[..i][j].keyId == es[i].keyId;
      assert es[..i + 1][j].keyId == es[..i + 1][i].keyId && es[j].keyId == es[i].keyId;
    } else {
      var pre := es[..i + 1];
      forall j, k | 0 <= j < k < |pre| ensures pre[j].keyId != pre[k].keyId {
        assert es[..i][j] == es[j] && UsableOrigin(c, es[j]);
        if k < i {
          assert es[..i][k] == es[k];
        }
      }
    }
  }

  method CollectActive(c: Crypto, b: DeploymentBundle) returns (r: Option<map<Text, Key>>)
    ensures r == ActiveOriginKeys(c, b)
  {
    var es := b.originKeys;
    var m: map<Text, Key> := map[];
    for i := 0 to |es|
      invariant forall j :: 0 <= j < i ==> UsableOrigin(c, es[j])
      invariant DistinctIds(es[..i])
      invariant m == KeyMap(c, es[..i], OriginRole)
    {
      assert es[..i + 1][..i] == es[..i];
      if es[i].role != OriginRole {
        assert !UsableOrigin(c, es[i]);
        return None;
      }
      var vk := ToKey(c, es[i]);
      if vk.None? {
        assert !UsableOrigin(c, es[i]);
        return None;
      }
      FreshId(c, es, i);
      if es[i].keyId in m {
        assert !DistinctIds(es);
        return None;
      }
      m := m[es[i].keyId := vk.value];
    }
    assert es[..|es|] == es;
    return Some(m);
  }

  /** A signature scheme simple enough to compute with: the signature is the key followed by the message. */
  function PlainScheme(h: Hasher): (c: Crypto)
    ensures c.h == h
  {
    Crypto(h, [], [], [], (k: Key, m: seq<Byte>, s: Text) => s == k + m, (t: Text) => if |t| == 32 then Some(t) else None,
           (b: DeploymentBundle) => [], (e: KeyEntry, a: KeyAttestation) => false, (t: Text) => BadEncoding)
  }

  // ------------------------------------------------- the gateway's resume trust

  /** `resume_session_trust`: what the chain certifies, plus the session key about to sign. */
  method ResumeSessionTrust(c: Crypto, existing: seq<SignedRecord>, chainId: Text, identity: map<Text, Key>, session: Key)
    returns (trusted: map<Text, Key>)
    ensures trusted == CertifiedKeys(c, identity, chainId, existing)[KeyIdFor(session) := session]
  {
    trusted := HarvestCertified(c, identity, chainId, existing);
    trusted := trusted[KeyIdFor(session) := session];
  }
}
