/** `evidence.rs`: the offline verifier. Each pass is a function from the evidence
    to findings; `VerifyWith` runs them in the source's order. */
module Verifier {
  import opened Bytes
  import opened Canonical
  import opened Hashing
  import opened Records
  import opened Chain
  import opened Origin
  import opened Pack
  import opened Ledger

  datatype Severity = Error | Warning
  /** The stable codes of a report's findings. */
  datatype Code =
    | UnknownFormat | KeysNotAnchored | InvalidKey | DeploymentBundleInvalid | AttestationInvalid
    | AttestationNotRooted | IdentityNotAttested | DeploymentBundleUnverified | SessionCertInvalid
    | SessionCertUnverified | InconsistentAnchor | PartialChain | InvalidGenesis | InvalidOrder | SequenceGap
    | BrokenLink | UnknownPayloadType | DuplicateSequence | EmptyPack | OriginUnverified | KeyRoleMismatch
    | OriginInvalid | ForeignChain | BrokenCheckpointLink | UnknownKey | InvalidSignature | InvalidInterval
    | MissingRecords | RootMismatch | HeadMismatch | AnchorOrphan | AnchorBadEncoding | AnchorRejected
    | AnchorUnreadable | AnchorMismatch | AnchorNotValidated | UnsealedRecords

  datatype Finding = Finding(severity: Severity, code: Code)
  datatype Options = Options(requireOrigin: bool, requireAttestation: bool)

  datatype Report = Report(chainId: Text, recordsTotal: nat, recordsSealed: nat, checkpointsTotal: nat,
                           checkpointsValid: nat, anchorsTotal: nat, anchorsOk: nat, recordsOriginOk: nat,
                           recordsUnknown: nat, selfReferential: bool, findings: seq<Finding>)

  function Fault(code: Code): Finding { Finding(Error, code) }
  function Warn(code: Code): Finding { Finding(Warning, code) }

  /** No Error-severity finding: `Report::is_valid`. */
  predicate Clean(fs: seq<Finding>) {
    forall i :: 0 <= i < |fs| ==> fs[i].severity == Warning
  }

  lemma CleanConcat(a: seq<Finding>, b: seq<Finding>)
    ensures Clean(a + b) <==> Clean(a) && Clean(b)
  {
    if Clean(a + b) {
      forall i | 0 <= i < |a| ensures a[i].severity == Warning { assert (a + b)[i] == a[i]; }
      forall i | 0 <= i < |b| ensures b[i].severity == Warning { assert (a + b)[|a| + i] == b[i]; }
    }
  }

  /** An absence of proof: a warning, or an error when the caller mandates the proof. */
  function Missing(n: nat, mandated: bool, code: Code): seq<Finding> {
    if n == 0 then [] else if mandated then [Fault(code)] else [Warn(code)]
  }

  // ------------------------------------------------- trusted keys

  function KeyFindings(c: Crypto, es: seq<KeyEntry>): seq<Finding> {
    if es == [] then []
    else
      var n := |es| - 1;
      KeyFindings(c, es[..n]) + if ToKey(c, es[n]).None? then [Fault(InvalidKey)] else []
  }

  datatype KeySets = KeySets(sealKeys: map<Text, Key>, originKeys: map<Text, Key>, opsKeys: map<Text, Key>)

  /** The verifier holds some key under the id, in whatever role. */
  predicate Listed(ks: KeySets, kid: Text) {
    kid in ks.originKeys || kid in ks.sealKeys || kid in ks.opsKeys
  }

  method SortKeys(c: Crypto, es: seq<KeyEntry>) returns (k: KeySets, fs: seq<Finding>)
    ensures k == KeySets(KeyMap(c, es, SealRole), KeyMap(c, es, OriginRole), KeyMap(c, es, OpsRole))
    ensures fs == KeyFindings(c, es)
  {
    k, fs := KeySets(map[], map[], map[]), [];
    for i := 0 to |es|
      invariant k == KeySets(KeyMap(c, es[..i], SealRole), KeyMap(c, es[..i], OriginRole), KeyMap(c, es[..i], OpsRole))
      invariant fs == KeyFindings(c, es[..i])
    {
      var e := es[i];
      assert es[..i + 1][..i] == es[..i];
      var vk := ToKey(c, e);
      if vk.Some? {
        match e.role {
          case SealRole => k := k.(sealKeys := k.sealKeys[e.keyId := vk.value]);
          case OriginRole => k := k.(originKeys := k.originKeys[e.keyId := vk.value]);
          case OpsRole => k := k.(opsKeys := k.opsKeys[e.keyId := vk.value]);
        }
      } else {
        fs := fs + [Fault(InvalidKey)];
      }
    }
    assert es[..|es|] == es;
  }

  // ------------------------------------------------- deployment bundle

  /** A key the bundle enrols under an id already listed with other material. */
  function MergeFindings(c: Crypto, es: seq<KeyEntry>, keys: map<Text, Key>): seq<Finding> {
    if es == [] then []
    else
      var n := |es| - 1;
      MergeFindings(c, es[..n], keys)
      + if es[n].keyId in keys && Some(keys[es[n].keyId]) != ToKey(c, es[n]) then [Fault(DeploymentBundleInvalid)] else []
  }

  function FindAttestation(ats: seq<KeyAttestation>, id: Text): (r: Option<KeyAttestation>)
    ensures r.Some? ==> r.value in ats && r.value.keyId == id
    ensures r.None? <==> forall a :: a in ats ==> a.keyId != id
  {
    if ats == [] then None else if ats[0].keyId == id then Some(ats[0]) else FindAttestation(ats[1..], id)
  }

  function AttestationErrors(c: Crypto, b: DeploymentBundle, n: nat): seq<Finding>
    requires n <= |b.originKeys|
  {
    if n == 0 then []
    else
      var e := b.originKeys[n - 1];
      var a := FindAttestation(b.attestations, e.keyId);
      AttestationErrors(c, b, n - 1) + if a.Some? && !c.attests(e, a.value) then [Fault(AttestationInvalid)] else []
  }

  function Attested(c: Crypto, b: DeploymentBundle, n: nat): nat
    requires n <= |b.originKeys|
  {
    if n == 0 then 0
    else
      var e := b.originKeys[n - 1];
      var a := FindAttestation(b.attestations, e.keyId);
      Attested(c, b, n - 1) + if a.Some? && c.attests(e, a.value) then 1 else 0
  }

  function Unattested(b: DeploymentBundle, n: nat): nat
    requires n <= |b.originKeys|
  {
    if n == 0 then 0
    else Unattested(b, n - 1) + if FindAttestation(b.attestations, b.originKeys[n - 1].keyId).None? then 1 else 0
  }

  function AttestationFindings(c: Crypto, b: DeploymentBundle, o: Options): seq<Finding> {
    var n := |b.originKeys|;
    AttestationErrors(c, b, n)
    + (if Attested(c, b, n) > 0 then [Warn(AttestationNotRooted)] else [])
    + Missing(Unattested(b, n), o.requireAttestation, IdentityNotAttested)
  }

  method ResolveAttestations(c: Crypto, b: DeploymentBundle, o: Options) returns (fs: seq<Finding>)
    ensures fs == AttestationFindings(c, b, o)
  {
    fs := [];
    var attested, unattested := 0, 0;
    for i := 0 to |b.originKeys|
      invariant fs == AttestationErrors(c, b, i)
      invariant attested == Attested(c, b, i) && unattested == Unattested(b, i)
    {
      var e := b.originKeys[i];
      var a := FindAttestation(b.attestations, e.keyId);
      if a.None? {
        unattested := unattested + 1;
      } else if c.attests(e, a.value) {
        attested := attested + 1;
      } else {
        fs := fs + [Fault(AttestationInvalid)];
      }
    }
    if attested > 0 {
      fs := fs + [Warn(AttestationNotRooted)];
    }
    if unattested > 0 {
      fs := fs + [if o.requireAttestation then Fault(IdentityNotAttested) else Warn(IdentityNotAttested)];
    }
  }

  function OpsKey(c: Crypto, d: SignedDeployment, source: seq<KeyEntry>): Option<Key> {
    match FindKey(source, d.keyId) case Some(e) => ToKey(c, e) case None => None
  }

  /** The identity keys after the bundle has been taken into account. */
  function DeploymentKeys(c: Crypto, d: Option<SignedDeployment>, source: seq<KeyEntry>, keys: map<Text, Key>): map<Text, Key> {
    match d
    case None => keys
    case Some(sd) =>
      var ops, active := OpsKey(c, sd, source), ActiveOriginKeys(c, sd.bundle);
      if ops.Some? && VerifyDeployment(c, sd, ops.value) && active.Some? then active.value + keys else keys
  }

  function DeploymentFindings(c: Crypto, d: Option<SignedDeployment>, source: seq<KeyEntry>, keys: map<Text, Key>, o: Options): seq<Finding> {
    match d
    case None => []
    case Some(sd) =>
      var ops := OpsKey(c, sd, source);
      if ops.None? then [Warn(DeploymentBundleUnverified)]
      else if !VerifyDeployment(c, sd, ops.value) || ActiveOriginKeys(c, sd.bundle).None? then [Fault(DeploymentBundleInvalid)]
      else MergeFindings(c, sd.bundle.originKeys, keys) + AttestationFindings(c, sd.bundle, o)
  }

  method ResolveDeployment(c: Crypto, d: Option<SignedDeployment>, source: seq<KeyEntry>, keys: map<Text, Key>, o: Options)
    returns (keys': map<Text, Key>, fs: seq<Finding>)
    ensures keys' == DeploymentKeys(c, d, source, keys) && fs == DeploymentFindings(c, d, source, keys, o)
  {
    keys', fs := keys, [];
    if d.None? {
      return;
    }
    var sd := d.value;
    var ops := OpsKey(c, sd, source);
    if ops.None? {
      return keys, [Warn(DeploymentBundleUnverified)];
    }
    if !VerifyDeployment(c, sd, ops.value) {
      return keys, [Fault(DeploymentBundleInvalid)];
    }
    var active := CollectActive(c, sd.bundle);
    if active.None? {
      return keys, [Fault(DeploymentBundleInvalid)];
    }
    var merged, disagreements := MergeActive(c, sd.bundle.originKeys, keys);
    var att := ResolveAttestations(c, sd.bundle, o);
    keys', fs := merged, disagreements + att;
  }

  lemma Overlay<K, V>(m: map<K, V>, over: map<K, V>, k: K, v: V)
    ensures m[k := v] + over == if k in over then m + over else (m + over)[k := v]
  {
  }

  /** The bundle's keys join those listed directly; a listed key wins and a disagreement is reported. */
  method MergeActive(c: Crypto, es: seq<KeyEntry>, keys: map<Text, Key>) returns (merged: map<Text, Key>, fs: seq<Finding>)
    requires forall i :: 0 <= i < |es| ==> UsableOrigin(c, es[i])
    ensures merged == KeyMap(c, es, OriginRole) + keys && fs == MergeFindings(c, es, keys)
  {
    merged, fs := keys, [];
    for i := 0 to |es|
      invariant fs == MergeFindings(c, es[..i], keys)
      invariant merged == KeyMap(c, es[..i], OriginRole) + keys
    {
      assert es[..i + 1][..i] == es[..i];
      assert UsableOrigin(c, es[i]);
      var kid := es[i].keyId;
      var vk := ToKey(c, es[i]).value;
      Overlay(KeyMap(c, es[..i], OriginRole), keys, kid, vk);
      if kid in keys {
        if keys[kid] != vk {
          fs := fs + [Fault(DeploymentBundleInvalid)];
        }
      } else {
        merged := merged[kid := vk];
      }
    }
    assert es[..|es|] == es;
  }

  // ------------------------------------------------- session certificates

  /** A certificate naming an identity key nobody vouched for. */
  predicate CertUnverified(identity: map<Text, Key>, sr: SignedRecord) {
    sr.record.payload.Session? && sr.record.payload.cert.identityKeyId !in identity
  }

  predicate CertInvalid(c: Crypto, identity: map<Text, Key>, chainId: Text, sr: SignedRecord) {
    && sr.record.payload.Session? && sr.record.payload.cert.identityKeyId in identity
    && CertifiedKey(c, identity, chainId, sr).None?
  }

  function CertErrors(c: Crypto, identity: map<Text, Key>, chainId: Text, rs: seq<SignedRecord>): seq<Finding> {
    if rs == [] then []
    else
      var n := |rs| - 1;
      CertErrors(c, identity, chainId, rs[..n]) + if CertInvalid(c, identity, chainId, rs[n]) then [Fault(SessionCertInvalid)] else []
  }

  function CertsUnverified(identity: map<Text, Key>, rs: seq<SignedRecord>): nat {
    if rs == [] then 0
    else var n := |rs| - 1; CertsUnverified(identity, rs[..n]) + if CertUnverified(identity, rs[n]) then 1 else 0
  }

  function CertFindings(c: Crypto, identity: map<Text, Key>, chainId: Text, rs: seq<SignedRecord>, o: Options): seq<Finding> {
    CertErrors(c, identity, chainId, rs)
    + Missing(CertsUnverified(identity, rs), o.requireOrigin, SessionCertUnverified)
  }

  method CheckCert(c: Crypto, identity: map<Text, Key>, chainId: Text, sr: SignedRecord)
    returns (vk: Option<Key>, missing: bool, invalid: bool)
    ensures vk == CertifiedKey(c, identity, chainId, sr)
    ensures missing == CertUnverified(identity, sr) && invalid == CertInvalid(c, identity, chainId, sr)
  {
    match sr.record.payload {
      case Session(cert) =>
        if cert.identityKeyId !in identity {
          return None, true, false;
        }
        vk := VerifyCert(c, chainId, cert, identity[cert.identityKeyId]);
        return vk, false, vk.None?;
      case _ =>
        return None, false, false;
    }
  }

  method ResolveCerts(c: Crypto, identity: map<Text, Key>, chainId: Text, rs: seq<SignedRecord>, o: Options)
    returns (origin: map<Text, Key>, fs: seq<Finding>)
    ensures origin == identity + CertifiedKeys(c, identity, chainId, rs)
    ensures fs == CertFindings(c, identity, chainId, rs, o)
  {
    origin, fs := identity, [];
    var unverified := 0;
    assert identity + map[] == identity;
    for i := 0 to |rs|
      invariant origin == identity + CertifiedKeys(c, identity, chainId, rs[..i])
      invariant fs == CertErrors(c, identity, chainId, rs[..i])
      invariant unverified == CertsUnverified(identity, rs[..i])
    {
      assert rs[..i + 1][..i] == rs[..i];
      var vk, missing, invalid := CheckCert(c, identity, chainId, rs[i]);
      if missing {
        unverified := unverified + 1;
      } else if vk.Some? {
        origin := origin[KeyIdFor(vk.value) := vk.value];
      } else if invalid {
        fs := fs + [Fault(SessionCertInvalid)];
      }
    }
    assert rs[..|rs|] == rs;
    if unverified > 0 {
      fs := fs + [if o.requireOrigin then Fault(SessionCertUnverified) else Warn(SessionCertUnverified)];
    }
  }

  // ------------------------------------------------- integrity chain

  /** What the record before position i leaves behind: its seq and its hash. */
  function Before(h: Hasher, rs: seq<Record>, i: nat): Option<(Word, Hash)>
    requires i <= |rs|
  {
    if i == 0 then None else Some((rs[i - 1].seqNo, h.record(rs[i - 1])))
  }

  /** Order and link of one record against the one before it. */
  function LinkFindings(prev: Option<(Word, Hash)>, rec: Record): seq<Finding> {
    match prev
    case None =>
      if rec.seqNo != 0 && rec.prevHash == GENESIS then [Fault(InconsistentAnchor)]
      else if rec.seqNo != 0 then [Warn(PartialChain)]
      else if rec.prevHash != GENESIS then [Fault(InvalidGenesis)]
      else []
    case Some(p) =>
      var order :=
        if rec.seqNo <= p.0 then [Fault(InvalidOrder)]
        else if rec.seqNo as int != p.0 as int + 1 then [Fault(SequenceGap)] else [];
      if rec.prevHash != p.1 then order + [Fault(BrokenLink)] else order
  }

  predicate SeqSeen(rs: seq<Record>, i: nat)
    requires i < |rs|
  {
    exists j :: 0 <= j < i && rs[j].seqNo == rs[i].seqNo
  }

  /** What the record at position i reports, given the records before it. */
  function ChainFindingsAt(h: Hasher, rs: seq<Record>, i: nat): seq<Finding>
    requires i < |rs|
  {
    var link := LinkFindings(Before(h, rs, i), rs[i]);
    var read := if IsUnderstood(rs[i].payload) then link else [Fault(UnknownPayloadType)] + link;
    if SeqSeen(rs, i) then read + [Fault(DuplicateSequence)] else read
  }

  function ChainFindings(h: Hasher, rs: seq<Record>, n: nat): seq<Finding>
    requires n <= |rs|
  {
    if n == 0 then [] else ChainFindings(h, rs, n - 1) + ChainFindingsAt(h, rs, n - 1)
  }

  /** The hash kept for each sequence number: the last record that claims it. */
  function HashBySeq(h: Hasher, rs: seq<Record>, n: nat): map<Word, Hash>
    requires n <= |rs|
  {
    if n == 0 then map[] else HashBySeq(h, rs, n - 1)[rs[n - 1].seqNo := h.record(rs[n - 1])]
  }

  function UnknownCount(rs: seq<Record>, n: nat): nat
    requires n <= |rs|
  {
    if n == 0 then 0 else UnknownCount(rs, n - 1) + if IsUnderstood(rs[n - 1].payload) then 0 else 1
  }

  lemma {:induction false} HashBySeqKeys(h: Hasher, rs: seq<Record>, n: nat, s: Word)
    requires n <= |rs|
    ensures s in HashBySeq(h, rs, n) <==> exists j :: 0 <= j < n && rs[j].seqNo == s
  {
    if n > 0 {
      HashBySeqKeys(h, rs, n - 1, s);
    }
  }

  method CheckLink(prev: Option<(Word, Hash)>, rec: Record) returns (fs: seq<Finding>)
    ensures fs == LinkFindings(prev, rec)
  {
    fs := [];
    match prev {
      case None =>
        if rec.seqNo != 0 && rec.prevHash == GENESIS {
          fs := [Fault(InconsistentAnchor)];
        } else if rec.seqNo != 0 {
          fs := [Warn(PartialChain)];
        } else if rec.prevHash != GENESIS {
          fs := [Fault(InvalidGenesis)];
        }
      case Some(p) =>
        if rec.seqNo <= p.0 {
          fs := [Fault(InvalidOrder)];
        } else if rec.seqNo as int != p.0 as int + 1 {
          fs := [Fault(SequenceGap)];
        }
        if rec.prevHash != p.1 {
          fs := fs + [Fault(BrokenLink)];
        }
    }
  }

  /** One turn of the chain loop. */
  method CheckRecord(h: Hasher, rs: seq<Record>, i: nat, prev: Option<(Word, Hash)>, hashes: map<Word, Hash>)
    returns (rh: Hash, fs: seq<Finding>)
    requires h.Valid() && i < |rs| && hashes == HashBySeq(h, rs, i) && prev == Before(h, rs, i)
    ensures rh == h.record(rs[i]) && fs == ChainFindingsAt(h, rs, i)
  {
    fs := [];
    if !IsUnderstood(rs[i].payload) {
      fs := [Fault(UnknownPayloadType)];
    }
    rh := h.HashRecord(rs[i]);
    var link := CheckLink(prev, rs[i]);
    fs := fs + link;
    HashBySeqKeys(h, rs, i, rs[i].seqNo);
    if rs[i].seqNo in hashes {
      fs := fs + [Fault(DuplicateSequence)];
    }
  }

  method CheckChain(h: Hasher, rs: seq<Record>) returns (hashes: map<Word, Hash>, fs: seq<Finding>)
    requires h.Valid()
    ensures hashes == HashBySeq(h, rs, |rs|) && fs == ChainFindings(h, rs, |rs|)
  {
    fs, hashes := [], map[];
    var prev: Option<(Word, Hash)> := None;
    for i := 0 to |rs|
      invariant fs == ChainFindings(h, rs, i) && hashes == HashBySeq(h, rs, i) && prev == Before(h, rs, i)
    {
      var rh, at := CheckRecord(h, rs, i, prev, hashes);
      fs := fs + at;
      hashes := hashes[rs[i].seqNo := rh];
      prev := Some((rs[i].seqNo, rh));
    }
  }

  method CountUnknown(rs: seq<Record>) returns (unknown: nat)
    ensures unknown == UnknownCount(rs, |rs|)
  {
    unknown := 0;
    for i := 0 to |rs|
      invariant unknown == UnknownCount(rs, i)
    {
      if !IsUnderstood(rs[i].payload) {
        unknown := unknown + 1;
      }
    }
  }

  // ------------------------------------------------- origin

  /** What one record's origin signature proves. */
  datatype OriginStatus = OriginOk | OriginMissing | OriginBad(code: Code)

  function OriginOf(c: Crypto, chainId: Text, ks: KeySets, sr: SignedRecord): OriginStatus {
    match (sr.originSig, sr.originKeyId)
    case (None, None) => OriginMissing
    case (Some(_), Some(kid)) =>
      if kid in ks.originKeys then
        if VerifyOrigin(c, chainId, sr, ks.originKeys[kid]) then OriginOk else OriginBad(OriginInvalid)
      else if kid in ks.sealKeys || kid in ks.opsKeys then OriginBad(KeyRoleMismatch)
      else OriginMissing
    case _ => OriginBad(OriginInvalid)
  }

  datatype OriginTally = OriginTally(ok: nat, missing: nat, findings: seq<Finding>)

  function TallyOrigin(c: Crypto, chainId: Text, ks: KeySets, rs: seq<SignedRecord>, n: nat): OriginTally
    requires n <= |rs|
  {
    if n == 0 then OriginTally(0, 0, [])
    else
      var t := TallyOrigin(c, chainId, ks, rs, n - 1);
      match OriginOf(c, chainId, ks, rs[n - 1])
      case OriginOk => t.(ok := t.ok + 1)
      case OriginMissing => t.(missing := t.missing + 1)
      case OriginBad(code) => t.(findings := t.findings + [Fault(code)])
  }

  function OriginFindings(c: Crypto, chainId: Text, ks: KeySets, rs: seq<SignedRecord>, o: Options): seq<Finding> {
    var t := TallyOrigin(c, chainId, ks, rs, |rs|);
    t.findings + Missing(t.missing, o.requireOrigin, OriginUnverified)
  }

  method CheckOrigin(c: Crypto, chainId: Text, ks: KeySets, rs: seq<SignedRecord>, o: Options)
    returns (ok: nat, fs: seq<Finding>)
    ensures ok == TallyOrigin(c, chainId, ks, rs, |rs|).ok
    ensures fs == OriginFindings(c, chainId, ks, rs, o)
  {
    ok, fs := 0, [];
    var missing := 0;
    for i := 0 to |rs|
      invariant OriginTally(ok, missing, fs) == TallyOrigin(c, chainId, ks, rs, i)
    {
      match OriginOf(c, chainId, ks, rs[i]) {
        case OriginOk => ok := ok + 1;
        case OriginMissing => missing := missing + 1;
        case OriginBad(code) => fs := fs + [Fault(code)];
      }
    }
    if missing > 0 {
      fs := fs + [if o.requireOrigin then Fault(OriginUnverified) else Warn(OriginUnverified)];
    }
  }

  // ------------------------------------------------- checkpoints

  /** Every sequence number of the interval has a hash. */
  predicate Present(hashes: map<Word, Hash>, a: Word, b: Word) {
    forall s: Word :: a <= s <= b ==> s in hashes
  }

  /** The hashes of the interval, in order. */
  function Gather(hashes: map<Word, Hash>, a: Word, n: nat): (hs: seq<Hash>)
    requires a as int + n <= 0x1_0000_0000_0000_0000
    requires forall s: Word :: a as int <= s as int < a as int + n ==> s in hashes
    ensures |hs| == n
    ensures forall i :: 0 <= i < n ==> hs[i] == hashes[a as int + i]
  {
    seq(n, i requires 0 <= i < n => hashes[a as int + i])
  }

  function IntervalFindings(c: Crypto, hashes: map<Word, Hash>, cp: Checkpoint): seq<Finding> {
    if cp.toSeq < cp.fromSeq then [Fault(InvalidInterval)]
    else if !Present(hashes, cp.fromSeq, cp.toSeq) then [Fault(MissingRecords)]
    else
      var hs := Gather(hashes, cp.fromSeq, cp.toSeq as int - cp.fromSeq as int + 1);
      (if Merkle.Root(c.h.digest, hs) != Some(cp.root) then [Fault(RootMismatch)] else [])
      + (if hashes[cp.toSeq] != cp.headHash then [Fault(HeadMismatch)] else [])
  }

  function SealKeyFindings(c: Crypto, ks: KeySets, sc: SignedCheckpoint): seq<Finding> {
    var kid := sc.checkpoint.keyId;
    if kid in ks.sealKeys then
      if VerifySeal(c, sc, ks.sealKeys[kid]) then [] else [Fault(InvalidSignature)]
    else if kid in ks.originKeys || kid in ks.opsKeys then [Fault(KeyRoleMismatch)]
    else [Fault(UnknownKey)]
  }

  function CheckpointFindingsAt(c: Crypto, chainId: Text, ks: KeySets, hashes: map<Word, Hash>,
                                cps: seq<SignedCheckpoint>, i: nat): seq<Finding>
    requires i < |cps|
  {
    var cp := cps[i].checkpoint;
    (if cp.chainId != chainId then [Fault(ForeignChain)] else [])
    + (if cp.prevCheckpointHash != PrevHash(c, cps, i) then [Fault(BrokenCheckpointLink)] else [])
    + SealKeyFindings(c, ks, cps[i])
    + IntervalFindings(c, hashes, cp)
  }

  datatype SealTally = SealTally(intervals: seq<(Word, Word)>, findings: seq<Finding>)

  /** What each checkpoint reports. */
  function SealReports(c: Crypto, chainId: Text, ks: KeySets, hashes: map<Word, Hash>, cps: seq<SignedCheckpoint>)
    : (reports: seq<seq<Finding>>)
    ensures |reports| == |cps|
  {
    seq(|cps|, i requires 0 <= i < |cps| => CheckpointFindingsAt(c, chainId, ks, hashes, cps, i))
  }

  /** All findings, and the intervals of the checkpoints that raised none. */
  function TallySeals(cps: seq<SignedCheckpoint>, reports: seq<seq<Finding>>, n: nat): SealTally
    requires n <= |cps| == |reports|
  {
    if n == 0 then SealTally([], [])
    else CountSeal(TallySeals(cps, reports, n - 1), cps[n - 1].checkpoint, reports[n - 1])
  }

  function CountSeal(t: SealTally, cp: Checkpoint, fs: seq<Finding>): SealTally {
    SealTally(if fs == [] then t.intervals + [(cp.fromSeq, cp.toSeq)] else t.intervals, t.findings + fs)
  }

  method CheckInterval(c: Crypto, hashes: map<Word, Hash>, cp: Checkpoint) returns (fs: seq<Finding>)
    ensures fs == IntervalFindings(c, hashes, cp)
  {
    if cp.toSeq < cp.fromSeq {
      return [Fault(InvalidInterval)];
    }
    var leaves: seq<Hash> := [];
    var missing := 0;
    for s: int := cp.fromSeq as int to cp.toSeq as int + 1
      invariant missing == 0 <==> forall k: Word :: cp.fromSeq as int <= k as int < s ==> k in hashes
      invariant missing == 0 ==> leaves == Gather(hashes, cp.fromSeq, s - cp.fromSeq as int)
    {
      var w: Word := s;
      if w in hashes {
        leaves := leaves + [hashes[w]];
      } else {
        missing := missing + 1;
      }
    }
    if missing != 0 {
      return [Fault(MissingRecords)];
    }
    fs := [];
    // The interval holds at least one record, so the root exists.
    var root := Merkle.MerkleRoot(c.h.digest, leaves);
    if root != Some(cp.root) {
      fs := [Fault(RootMismatch)];
    }
    if hashes[cp.toSeq] != cp.headHash {
      fs := fs + [Fault(HeadMismatch)];
    }
  }

  method CheckSealKey(c: Crypto, ks: KeySets, sc: SignedCheckpoint, bytes: Hash) returns (fs: seq<Finding>)
    requires bytes == c.h.checkpoint(sc.checkpoint)
    ensures fs == SealKeyFindings(c, ks, sc)
  {
    var kid := sc.checkpoint.keyId;
    if kid in ks.sealKeys {
      return if c.verifies(ks.sealKeys[kid], bytes, sc.signature) then [] else [Fault(InvalidSignature)];
    }
    if kid in ks.originKeys || kid in ks.opsKeys {
      return [Fault(KeyRoleMismatch)];
    }
    return [Fault(UnknownKey)];
  }

  /** One turn of the checkpoint loop. */
  method CheckSeal(c: Crypto, chainId: Text, ks: KeySets, hashes: map<Word, Hash>, cps: seq<SignedCheckpoint>, i: nat,
                   prev: Option<Hash>) returns (bytes: Hash, fs: seq<Finding>)
    requires c.h.Valid() && i < |cps| && prev == PrevHash(c, cps, i)
    ensures bytes == c.h.checkpoint(cps[i].checkpoint)
    ensures fs == CheckpointFindingsAt(c, chainId, ks, hashes, cps, i)
  {
    var cp := cps[i].checkpoint;
    fs := if cp.chainId != chainId then [Fault(ForeignChain)] else [];
    if cp.prevCheckpointHash != prev {
      fs := fs + [Fault(BrokenCheckpointLink)];
    }
    bytes := c.h.HashCheckpoint(cp);
    var key := CheckSealKey(c, ks, cps[i], bytes);
    var interval := CheckInterval(c, hashes, cp);
    fs := fs + key + interval;
  }

  method CheckSeals(c: Crypto, chainId: Text, ks: KeySets, hashes: map<Word, Hash>, cps: seq<SignedCheckpoint>)
    returns (t: SealTally)
    requires c.h.Valid()
    ensures t == TallySeals(cps, SealReports(c, chainId, ks, hashes, cps), |cps|)
  {
    t := SealTally([], []);
    ghost var reports := SealReports(c, chainId, ks, hashes, cps);
    var prev: Option<Hash> := None;
    for i := 0 to |cps|
      invariant t == TallySeals(cps, reports, i) && prev == PrevHash(c, cps, i)
    {
      var bytes, fs := CheckSeal(c, chainId, ks, hashes, cps, i, prev);
      assert fs == reports[i];
      t := CountSeal(t, cps[i].checkpoint, fs);
      prev := Some(bytes);
    }
  }

  // ------------------------------------------------- anchors

  /** What is wrong with an anchor, if anything. */
  function AnchorFault(c: Crypto, cps: seq<SignedCheckpoint>, a: Anchor): Option<Code> {
    if !AnchorOk(c, cps, a) then Some(AnchorOrphan)
    else
      match c.readToken(a.tokenHex)
      case BadEncoding => Some(AnchorBadEncoding)
      case TokenRejected => Some(AnchorRejected)
      case TokenUnreadable => Some(AnchorUnreadable)
      case Imprint(bytes) => if bytes != a.checkpointHash then Some(AnchorMismatch) else None
  }

  datatype AnchorTally = AnchorTally(ok: nat, findings: seq<Finding>)

  function TallyAnchors(c: Crypto, cps: seq<SignedCheckpoint>, anchors: seq<Anchor>, n: nat): AnchorTally
    requires n <= |anchors|
  {
    if n == 0 then AnchorTally(0, [])
    else
      var t := TallyAnchors(c, cps, anchors, n - 1);
      match AnchorFault(c, cps, anchors[n - 1])
      case None => t.(ok := t.ok + 1)
      case Some(code) => t.(findings := t.findings + [Fault(code)])
  }

  function AnchorFindings(c: Crypto, cps: seq<SignedCheckpoint>, anchors: seq<Anchor>): seq<Finding> {
    var t := TallyAnchors(c, cps, anchors, |anchors|);
    t.findings + if t.ok > 0 then [Warn(AnchorNotValidated)] else []
  }

  method CheckAnchors(c: Crypto, cps: seq<SignedCheckpoint>, anchors: seq<Anchor>) returns (ok: nat, fs: seq<Finding>)
    ensures ok == TallyAnchors(c, cps, anchors, |anchors|).ok
    ensures fs == AnchorFindings(c, cps, anchors)
  {
    ok, fs := 0, [];
    for i := 0 to |anchors|
      invariant AnchorTally(ok, fs) == TallyAnchors(c, cps, anchors, i)
    {
      match AnchorFault(c, cps, anchors[i]) {
        case None => ok := ok + 1;
        case Some(code) => fs := fs + [Fault(code)];
      }
    }
    if ok > 0 {
      fs := fs + [Warn(AnchorNotValidated)];
    }
  }

  // ------------------------------------------------- coverage

  predicate Covered(s: Word, sealed: seq<(Word, Word)>) {
    exists i :: 0 <= i < |sealed| && sealed[i].0 <= s <= sealed[i].1
  }

  /** The sequence numbers of the evidence that some valid checkpoint covers. */
  function CoveredSeqs(seqs: set<Word>, sealed: seq<(Word, Word)>): set<Word> {
    set s | s in seqs && Covered(s, sealed)
  }

  // ------------------------------------------------- the whole verification

  function KeySource(ev: Evidence, trusted: seq<KeyEntry>): seq<KeyEntry> {
    if trusted == [] then ev.keys else trusted
  }

  /** The origin keys enrolled by name, before any session certificate is read. */
  function Identities(c: Crypto, ev: Evidence, trusted: seq<KeyEntry>): map<Text, Key> {
    var source := KeySource(ev, trusted);
    DeploymentKeys(c, ev.deployment, source, KeyMap(c, source, OriginRole))
  }

  /** The keys each pass resolves against. */
  function Resolved(c: Crypto, ev: Evidence, trusted: seq<KeyEntry>): KeySets {
    var source, identity := KeySource(ev, trusted), Identities(c, ev, trusted);
    KeySets(KeyMap(c, source, SealRole), identity + CertifiedKeys(c, identity, ev.chainId, ev.records),
            KeyMap(c, source, OpsRole))
  }

  /** Findings about the evidence format and the keys it is verified with. */
  function TrustFindings(c: Crypto, ev: Evidence, trusted: seq<KeyEntry>, o: Options): seq<Finding> {
    var source := KeySource(ev, trusted);
    (if ev.format != c.evidenceFormat then [Fault(UnknownFormat)] else [])
    + (if trusted == [] then [Warn(KeysNotAnchored)] else [])
    + KeyFindings(c, source)
    + DeploymentFindings(c, ev.deployment, source, KeyMap(c, source, OriginRole), o)
    + CertFindings(c, Identities(c, ev, trusted), ev.chainId, ev.records, o)
  }

  function RecordFindings(c: Crypto, ev: Evidence, trusted: seq<KeyEntry>, o: Options): seq<Finding> {
    (if ev.records == [] then [Warn(EmptyPack)] else [])
    + ChainFindings(c.h, Plain(ev.records), |ev.records|)
    + OriginFindings(c, ev.chainId, Resolved(c, ev, trusted), ev.records, o)
  }

  function Hashed(c: Crypto, ev: Evidence): map<Word, Hash> {
    HashBySeq(c.h, Plain(ev.records), |ev.records|)
  }

  function Seals(c: Crypto, ev: Evidence, trusted: seq<KeyEntry>): SealTally {
    var reports := SealReports(c, ev.chainId, Resolved(c, ev, trusted), Hashed(c, ev), ev.checkpoints);
    TallySeals(ev.checkpoints, reports, |ev.checkpoints|)
  }

  function SealedSeqs(c: Crypto, ev: Evidence, trusted: seq<KeyEntry>): set<Word> {
    CoveredSeqs(Hashed(c, ev).Keys, Seals(c, ev, trusted).intervals)
  }

  function CoverageFindings(c: Crypto, ev: Evidence, trusted: seq<KeyEntry>): seq<Finding> {
    if Hashed(c, ev).Keys == SealedSeqs(c, ev, trusted) then [] else [Warn(UnsealedRecords)]
  }

  function AllFindings(c: Crypto, ev: Evidence, trusted: seq<KeyEntry>, o: Options): seq<Finding> {
    TrustFindings(c, ev, trusted, o)
    + RecordFindings(c, ev, trusted, o)
    + Seals(c, ev, trusted).findings
    + AnchorFindings(c, ev.checkpoints, ev.anchors)
    + CoverageFindings(c, ev, trusted)
  }

  function Verdict(c: Crypto, ev: Evidence, trusted: seq<KeyEntry>, o: Options): Report {
    Report(ev.chainId, |ev.records|, |SealedSeqs(c, ev, trusted)|, |ev.checkpoints|,
           |Seals(c, ev, trusted).intervals|, |ev.anchors|,
           TallyAnchors(c, ev.checkpoints, ev.anchors, |ev.anchors|).ok,
           TallyOrigin(c, ev.chainId, Resolved(c, ev, trusted), ev.records, |ev.records|).ok,
           UnknownCount(Plain(ev.records), |ev.records|), trusted == [], AllFindings(c, ev, trusted, o))
  }

  method ResolveTrust(c: Crypto, ev: Evidence, trusted: seq<KeyEntry>, o: Options) returns (ks: KeySets, fs: seq<Finding>)
    ensures ks == Resolved(c, ev, trusted) && fs == TrustFindings(c, ev, trusted, o)
  {
    fs := if ev.format != c.evidenceFormat then [Fault(UnknownFormat)] else [];
    var source := trusted;
    if trusted == [] {
      fs := fs + [Warn(KeysNotAnchored)];
      source := ev.keys;
    }
    assert fs == (if ev.format != c.evidenceFormat then [Fault(UnknownFormat)] else [])
      + (if trusted == [] then [Warn(KeysNotAnchored)] else []);
    assert source == KeySource(ev, trusted);
    var unusable;
    ks, unusable := SortKeys(c, source);
    var identity, bundle := ResolveDeployment(c, ev.deployment, source, ks.originKeys, o);
    var origin, certs := ResolveCerts(c, identity, ev.chainId, ev.records, o);
    ks := ks.(originKeys := origin);
    fs := fs + unusable + bundle + certs;
  }

  lemma SubsetSizes<T>(a: set<T>, b: set<T>)
    requires a <= b
    ensures |a| <= |b| && (|a| == |b| <==> a == b)
  {
    assert b == a + (b - a) && |b| == |a| + |b - a|;
  }

  /** `verify_with`. */
  method VerifyWith(c: Crypto, ev: Evidence, trusted: seq<KeyEntry>, o: Options) returns (report: Report)
    requires c.h.Valid()
    ensures report == Verdict(c, ev, trusted, o)
  {
    var plain := Plain(ev.records);
    var ks, fs := ResolveTrust(c, ev, trusted, o);
    var unknown := CountUnknown(plain);
    var hashes, chain := CheckChain(c.h, plain);
    var originOk, origin := CheckOrigin(c, ev.chainId, ks, ev.records, o);
    var seals := CheckSeals(c, ev.chainId, ks, hashes, ev.checkpoints);
    var anchorsOk, anchors := CheckAnchors(c, ev.checkpoints, ev.anchors);
    var covered := CoveredSeqs(hashes.Keys, seals.intervals);
    SubsetSizes(covered, hashes.Keys);
    var records := (if ev.records == [] then [Warn(EmptyPack)] else []) + chain + origin;
    var coverage := if |hashes.Keys| > |covered| then [Warn(UnsealedRecords)] else [];
    fs := fs + records + seals.findings + anchors + coverage;
    report := Report(ev.chainId, |ev.records|, |covered|, |ev.checkpoints|, |seals.intervals|, |ev.anchors|, anchorsOk, originOk,
                     unknown, trusted == [], fs);
  }
}
