/** Why a report says what it says: every finding has exactly one kind of cause, and every count counts something. */
module Causes {
  import opened Bytes
  import opened Canonical
  import opened Hashing
  import opened Records
  import opened Chain
  import opened Origin
  import opened Pack
  import opened Verifier
  import opened Meaning
  import Merkle

  /** Of an absence of proof: a warning, or an error under the mandate. */
  function Severe(mandated: bool): Severity {
    if mandated then Error else Warning
  }

  lemma MissingHas(n: nat, mandated: bool, code: Code, f: Finding)
    ensures f in Missing(n, mandated, code) <==> n > 0 && f == Finding(Severe(mandated), code)
  {
  }

  // ------------------------------------------------- keys, bundle and certificates

  predicate SomeUnusable(c: Crypto, es: seq<KeyEntry>) {
    exists i :: 0 <= i < |es| && !Usable(c, es[i])
  }

  lemma {:induction false} KeyCause(c: Crypto, es: seq<KeyEntry>, f: Finding)
    ensures f in KeyFindings(c, es) <==> f == Finding(Error, InvalidKey) && SomeUnusable(c, es)
  {
    if es != [] {
      var n := |es| - 1;
      KeyCause(c, es[..n], f);
      assert SomeUnusable(c, es) <==> SomeUnusable(c, es[..n]) || !Usable(c, es[n]) by {
        if i :| 0 <= i < n && !Usable(c, es[i]) {
          assert es[..n][i] == es[i];
        }
      }
    }
  }

  /** An entry whose attestation was found and answers as asked. */
  predicate SomeAttestation(c: Crypto, b: DeploymentBundle, good: bool, n: nat)
    requires n <= |b.originKeys|
  {
    exists i :: 0 <= i < n && AttestationIs(c, b, good, i)
  }

  predicate AttestationIs(c: Crypto, b: DeploymentBundle, good: bool, i: nat)
    requires i < |b.originKeys|
  {
    var a := FindAttestation(b.attestations, b.originKeys[i].keyId);
    a.Some? && c.attests(b.originKeys[i], a.value) == good
  }

  predicate SomeUnattested(b: DeploymentBundle, n: nat)
    requires n <= |b.originKeys|
  {
    exists i :: 0 <= i < n && forall a :: a in b.attestations ==> a.keyId != b.originKeys[i].keyId
  }

  lemma {:induction false} AttestationErrorCause(c: Crypto, b: DeploymentBundle, n: nat, f: Finding)
    requires n <= |b.originKeys|
    ensures f in AttestationErrors(c, b, n) <==> f == Finding(Error, AttestationInvalid) && SomeAttestation(c, b, false, n)
  {
    if n > 0 {
      AttestationErrorCause(c, b, n - 1, f);
      assert SomeAttestation(c, b, false, n) <==> SomeAttestation(c, b, false, n - 1) || AttestationIs(c, b, false, n - 1);
    }
  }

  lemma {:induction false} AttestedCause(c: Crypto, b: DeploymentBundle, n: nat)
    requires n <= |b.originKeys|
    ensures Attested(c, b, n) > 0 <==> SomeAttestation(c, b, true, n)
  {
    if n > 0 {
      AttestedCause(c, b, n - 1);
      assert SomeAttestation(c, b, true, n) <==> SomeAttestation(c, b, true, n - 1) || AttestationIs(c, b, true, n - 1);
    }
  }

  lemma {:induction false} UnattestedCause(b: DeploymentBundle, n: nat)
    requires n <= |b.originKeys|
    ensures Unattested(b, n) > 0 <==> SomeUnattested(b, n)
  {
    if n > 0 {
      UnattestedCause(b, n - 1);
      assert SomeUnattested(b, n) <==> SomeUnattested(b, n - 1) || FindAttestation(b.attestations, b.originKeys[n - 1].keyId).None?;
    }
  }

  predicate AttestationCause(c: Crypto, b: DeploymentBundle, o: Options, f: Finding) {
    match f.code
    case AttestationInvalid => f.severity == Error && SomeAttestation(c, b, false, |b.originKeys|)
    case AttestationNotRooted => f.severity == Warning && SomeAttestation(c, b, true, |b.originKeys|)
    case IdentityNotAttested => f.severity == Severe(o.requireAttestation) && SomeUnattested(b, |b.originKeys|)
    case _ => false
  }

  lemma AttestationHas(c: Crypto, b: DeploymentBundle, o: Options, f: Finding)
    ensures f in AttestationFindings(c, b, o) <==> AttestationCause(c, b, o, f)
  {
    var n := |b.originKeys|;
    AttestationErrorCause(c, b, n, f);
    AttestedCause(c, b, n);
    UnattestedCause(b, n);
    MissingHas(Unattested(b, n), o.requireAttestation, IdentityNotAttested, f);
  }

  /** A key the bundle enrols and a listed one disagree about an id. */
  lemma {:induction false} MergeCause(c: Crypto, es: seq<KeyEntry>, listed: map<Text, Key>, f: Finding)
    ensures f in MergeFindings(c, es, listed) <==> f == Finding(Error, DeploymentBundleInvalid) && !NoDisagreement(c, es, listed)
  {
    if es != [] {
      var n := |es| - 1;
      MergeCause(c, es[..n], listed, f);
      assert NoDisagreement(c, es, listed) <==>
        NoDisagreement(c, es[..n], listed) && (es[n].keyId in listed ==> ToKey(c, es[n]) == Some(listed[es[n].keyId])) by {
        forall i | 0 <= i < n ensures es[..n][i] == es[i] {
        }
      }
    }
  }

  /** Nobody trusted signed the bundle; or it does not hold; or it enrols its keys, and their attestations give cause. */
  predicate DeploymentCause(c: Crypto, d: Option<SignedDeployment>, source: seq<KeyEntry>, listed: map<Text, Key>, o: Options, f: Finding) {
    && d.Some?
    && match OpsKey(c, d.value, source)
       case None => f == Finding(Warning, DeploymentBundleUnverified)
       case Some(ops) =>
         || (f == Finding(Error, DeploymentBundleInvalid) && !BundleHolds(c, d.value, ops, listed))
         || (Enrols(c, d.value, ops) && AttestationCause(c, d.value.bundle, o, f))
  }

  lemma DeploymentHas(c: Crypto, d: Option<SignedDeployment>, source: seq<KeyEntry>, listed: map<Text, Key>, o: Options, f: Finding)
    ensures f in DeploymentFindings(c, d, source, listed, o) <==> DeploymentCause(c, d, source, listed, o, f)
  {
    if d.Some? && OpsKey(c, d.value, source).Some? {
      var b, ops := d.value.bundle, OpsKey(c, d.value, source).value;
      EnrolsMeans(c, d.value, ops);
      MergeCause(c, b.originKeys, listed, f);
      AttestationHas(c, b, o, f);
    }
  }

  /** A certificate by an enrolled identity key that did not sign it, or for a key that does not decode. */
  predicate BadCert(c: Crypto, identity: map<Text, Key>, chainId: Text, sr: SignedRecord) {
    && sr.record.payload.Session? && sr.record.payload.cert.identityKeyId in identity
    && var cert := sr.record.payload.cert;
       !c.verifies(identity[cert.identityKeyId], CertBytes(c.h.digest, chainId, cert), cert.identitySig)
       || c.decodeKey(cert.sessionPubkey).None?
  }

  predicate SomeBadCert(c: Crypto, identity: map<Text, Key>, chainId: Text, rs: seq<SignedRecord>) {
    exists i :: 0 <= i < |rs| && BadCert(c, identity, chainId, rs[i])
  }

  predicate UnknownCert(identity: map<Text, Key>, sr: SignedRecord) {
    sr.record.payload.Session? && sr.record.payload.cert.identityKeyId !in identity
  }

  predicate SomeUnknownCert(identity: map<Text, Key>, rs: seq<SignedRecord>) {
    exists i :: 0 <= i < |rs| && UnknownCert(identity, rs[i])
  }

  lemma {:induction false} CertErrorCause(c: Crypto, identity: map<Text, Key>, chainId: Text, rs: seq<SignedRecord>, f: Finding)
    ensures f in CertErrors(c, identity, chainId, rs) <==> f == Finding(Error, SessionCertInvalid) && SomeBadCert(c, identity, chainId, rs)
    ensures CertsUnverified(identity, rs) > 0 <==> SomeUnknownCert(identity, rs)
  {
    if rs != [] {
      var n := |rs| - 1;
      var pre := rs[..n];
      CertErrorCause(c, identity, chainId, pre, f);
      assert CertInvalid(c, identity, chainId, rs[n]) <==> BadCert(c, identity, chainId, rs[n]);
      assert SomeBadCert(c, identity, chainId, rs) <==> SomeBadCert(c, identity, chainId, pre) || BadCert(c, identity, chainId, rs[n]) by {
        forall i | 0 <= i < n ensures pre[i] == rs[i] {
        }
      }
      assert SomeUnknownCert(identity, rs) <==> SomeUnknownCert(identity, pre) || UnknownCert(identity, rs[n]) by {
        forall i | 0 <= i < n ensures pre[i] == rs[i] {
        }
      }
    }
  }

  lemma CertHas(c: Crypto, identity: map<Text, Key>, chainId: Text, rs: seq<SignedRecord>, o: Options, f: Finding)
    ensures f in CertFindings(c, identity, chainId, rs, o) <==>
      || (f == Finding(Error, SessionCertInvalid) && SomeBadCert(c, identity, chainId, rs))
      || (f == Finding(Severe(o.requireOrigin), SessionCertUnverified) && SomeUnknownCert(identity, rs))
  {
    CertErrorCause(c, identity, chainId, rs, f);
    MissingHas(CertsUnverified(identity, rs), o.requireOrigin, SessionCertUnverified, f);
  }

  predicate TrustCause(c: Crypto, ev: Evidence, trusted: seq<KeyEntry>, o: Options, f: Finding) {
    var source := if trusted == [] then ev.keys else trusted;
    var identity := Identities(c, ev, trusted);
    || (f == Finding(Error, UnknownFormat) && ev.format != c.evidenceFormat)
    || (f == Finding(Warning, KeysNotAnchored) && trusted == [])
    || (f == Finding(Error, InvalidKey) && SomeUnusable(c, source))
    || DeploymentCause(c, ev.deployment, source, KeyMap(c, source, OriginRole), o, f)
    || (f == Finding(Error, SessionCertInvalid) && SomeBadCert(c, identity, ev.chainId, ev.records))
    || (f == Finding(Severe(o.requireOrigin), SessionCertUnverified) && SomeUnknownCert(identity, ev.records))
  }

  lemma TrustHas(c: Crypto, ev: Evidence, trusted: seq<KeyEntry>, o: Options, f: Finding)
    ensures f in TrustFindings(c, ev, trusted, o) <==> TrustCause(c, ev, trusted, o, f)
  {
    var source := KeySource(ev, trusted);
    KeyCause(c, source, f);
    DeploymentHas(c, ev.deployment, source, KeyMap(c, source, OriginRole), o, f);
    CertHas(c, Identities(c, ev, trusted), ev.chainId, ev.records, o, f);
  }

  // ------------------------------------------------- the chain

  /** What the record at position i gives cause for. */
  predicate ChainCauseAt(h: Hasher, rs: seq<Record>, i: nat, f: Finding)
    requires i < |rs|
  {
    match f.code
    case InconsistentAnchor => f.severity == Error && i == 0 && rs[0].seqNo != 0 && rs[0].prevHash == GENESIS
    case PartialChain => f.severity == Warning && i == 0 && rs[0].seqNo != 0 && rs[0].prevHash != GENESIS
    case InvalidGenesis => f.severity == Error && i == 0 && rs[0].seqNo == 0 && rs[0].prevHash != GENESIS
    case InvalidOrder => f.severity == Error && i > 0 && rs[i].seqNo <= rs[i - 1].seqNo
    case SequenceGap => f.severity == Error && i > 0 && rs[i].seqNo as int > rs[i - 1].seqNo as int + 1
    case BrokenLink => f.severity == Error && i > 0 && rs[i].prevHash != h.record(rs[i - 1])
    case UnknownPayloadType => f.severity == Error && rs[i].payload.Unknown?
    case DuplicateSequence => f.severity == Error && exists j :: 0 <= j < i && rs[j].seqNo == rs[i].seqNo
    case _ => false
  }

  predicate ChainCause(h: Hasher, rs: seq<Record>, n: nat, f: Finding)
    requires n <= |rs|
  {
    exists i :: 0 <= i < n && ChainCauseAt(h, rs, i, f)
  }

  lemma LinkHas(h: Hasher, rs: seq<Record>, i: nat, f: Finding)
    requires i < |rs|
    ensures f in LinkFindings(Before(h, rs, i), rs[i]) <==>
      ChainCauseAt(h, rs, i, f) && !f.code.UnknownPayloadType? && !f.code.DuplicateSequence?
  {
  }

  lemma ChainHasAt(h: Hasher, rs: seq<Record>, i: nat, f: Finding)
    requires i < |rs|
    ensures f in ChainFindingsAt(h, rs, i) <==> ChainCauseAt(h, rs, i, f)
  {
    LinkHas(h, rs, i, f);
  }

  lemma ChainHasNext(h: Hasher, rs: seq<Record>, n: nat, f: Finding)
    requires n < |rs|
    ensures f in ChainFindings(h, rs, n + 1) <==> f in ChainFindings(h, rs, n) || ChainCauseAt(h, rs, n, f)
  {
    ChainHasAt(h, rs, n, f);
  }

  lemma ChainCauseNext(h: Hasher, rs: seq<Record>, n: nat, f: Finding)
    requires n < |rs|
    ensures ChainCause(h, rs, n + 1, f) <==> ChainCause(h, rs, n, f) || ChainCauseAt(h, rs, n, f)
  {
  }

  lemma {:induction false} ChainHas(h: Hasher, rs: seq<Record>, n: nat, f: Finding)
    requires n <= |rs|
    ensures f in ChainFindings(h, rs, n) <==> ChainCause(h, rs, n, f)
  {
    if n > 0 {
      ChainHas(h, rs, n - 1, f);
      ChainHasNext(h, rs, n - 1, f);
      ChainCauseNext(h, rs, n - 1, f);
    }
  }

  // ------------------------------------------------- origin

  /** What one record's signature gives cause for. */
  predicate OriginCauseAt(c: Crypto, chainId: Text, ks: KeySets, sr: SignedRecord, mandated: bool, f: Finding) {
    var signed := sr.originSig.Some? && sr.originKeyId.Some?;
    match f.code
    case OriginInvalid =>
      f.severity == Error
      && if signed then sr.originKeyId.value in ks.originKeys && !SignedBy(c, chainId, sr, ks.originKeys[sr.originKeyId.value])
         else sr.originSig.Some? || sr.originKeyId.Some?
    case KeyRoleMismatch =>
      f.severity == Error && signed && Listed(ks, sr.originKeyId.value) && sr.originKeyId.value !in ks.originKeys
    case OriginUnverified =>
      f.severity == Severe(mandated)
      && if signed then !Listed(ks, sr.originKeyId.value) else sr.originSig.None? && sr.originKeyId.None?
    case _ => false
  }

  predicate OriginCause(c: Crypto, chainId: Text, ks: KeySets, rs: seq<SignedRecord>, n: nat, mandated: bool, f: Finding)
    requires n <= |rs|
  {
    exists i :: 0 <= i < n && OriginCauseAt(c, chainId, ks, rs[i], mandated, f)
  }

  /** What the origin pass does with one record, and when. */
  lemma OriginIs(c: Crypto, chainId: Text, ks: KeySets, sr: SignedRecord, mandated: bool, f: Finding)
    ensures var s := OriginOf(c, chainId, ks, sr);
      && (s == OriginOk <==> Signed(c, chainId, ks, sr))
      && (OriginCauseAt(c, chainId, ks, sr, mandated, f) <==>
           || (s.OriginBad? && f == Finding(Error, s.code))
           || (s == OriginMissing && f == Finding(Severe(mandated), OriginUnverified)))
  {
  }

  /** The record names an origin key, and that key signed it. */
  predicate Signed(c: Crypto, chainId: Text, ks: KeySets, sr: SignedRecord) {
    && sr.originKeyId.Some? && sr.originKeyId.value in ks.originKeys
    && SignedBy(c, chainId, sr, ks.originKeys[sr.originKeyId.value])
  }

  lemma {:induction false} OriginTallied(c: Crypto, chainId: Text, ks: KeySets, rs: seq<SignedRecord>, n: nat, mandated: bool, f: Finding)
    requires n <= |rs|
    ensures var t := TallyOrigin(c, chainId, ks, rs, n);
      OriginCause(c, chainId, ks, rs, n, mandated, f) <==>
        f in t.findings || (t.missing > 0 && f == Finding(Severe(mandated), OriginUnverified))
  {
    if n > 0 {
      OriginTallied(c, chainId, ks, rs, n - 1, mandated, f);
      OriginIs(c, chainId, ks, rs[n - 1], mandated, f);
      assert OriginCause(c, chainId, ks, rs, n, mandated, f) <==>
        OriginCause(c, chainId, ks, rs, n - 1, mandated, f) || OriginCauseAt(c, chainId, ks, rs[n - 1], mandated, f);
    }
  }

  lemma OriginHas(c: Crypto, chainId: Text, ks: KeySets, rs: seq<SignedRecord>, o: Options, f: Finding)
    ensures f in OriginFindings(c, chainId, ks, rs, o) <==> OriginCause(c, chainId, ks, rs, |rs|, o.requireOrigin, f)
  {
    OriginTallied(c, chainId, ks, rs, |rs|, o.requireOrigin, f);
    MissingHas(TallyOrigin(c, chainId, ks, rs, |rs|).missing, o.requireOrigin, OriginUnverified, f);
  }

  // ------------------------------------------------- checkpoints

  /** What the checkpoint at position i gives cause for. */
  predicate SealCauseAt(c: Crypto, chainId: Text, ks: KeySets, hashes: map<Word, Hash>, cps: seq<SignedCheckpoint>, i: nat, f: Finding)
    requires i < |cps|
  {
    var cp := cps[i].checkpoint;
    && f.severity == Error
    && match f.code
       case ForeignChain => cp.chainId != chainId
       case BrokenCheckpointLink => cp.prevCheckpointHash != if i == 0 then None else Some(c.h.checkpoint(cps[i - 1].checkpoint))
       case UnknownKey => !Listed(ks, cp.keyId)
       case KeyRoleMismatch => Listed(ks, cp.keyId) && cp.keyId !in ks.sealKeys
       case InvalidSignature => cp.keyId in ks.sealKeys && !c.verifies(ks.sealKeys[cp.keyId], c.h.checkpoint(cp), cps[i].signature)
       case InvalidInterval => cp.toSeq < cp.fromSeq
       case MissingRecords => exists s: Word :: cp.fromSeq <= s <= cp.toSeq && s !in hashes
       case RootMismatch => Complete(hashes, cp) && Merkle.Root(c.h.digest, Leaves(hashes, cp)) != Some(cp.root)
       case HeadMismatch => Complete(hashes, cp) && hashes[cp.toSeq] != cp.headHash
       case _ => false
  }

  /** Every record of the interval is there. */
  predicate Complete(hashes: map<Word, Hash>, cp: Checkpoint) {
    cp.fromSeq <= cp.toSeq && forall s: Word :: cp.fromSeq <= s <= cp.toSeq ==> s in hashes
  }

  function Leaves(hashes: map<Word, Hash>, cp: Checkpoint): seq<Hash>
    requires Complete(hashes, cp)
  {
    seq(cp.toSeq as int - cp.fromSeq as int + 1,
        i requires 0 <= i <= cp.toSeq as int - cp.fromSeq as int => hashes[cp.fromSeq as int + i])
  }

  lemma LeavesGathered(hashes: map<Word, Hash>, cp: Checkpoint)
    requires Complete(hashes, cp)
    ensures Present(hashes, cp.fromSeq, cp.toSeq)
    ensures Gather(hashes, cp.fromSeq, cp.toSeq as int - cp.fromSeq as int + 1) == Leaves(hashes, cp)
  {
  }

  lemma CompleteHas(c: Crypto, hashes: map<Word, Hash>, cp: Checkpoint, f: Finding)
    requires Complete(hashes, cp)
    ensures f in IntervalFindings(c, hashes, cp) <==>
      || (f == Finding(Error, RootMismatch) && Merkle.Root(c.h.digest, Leaves(hashes, cp)) != Some(cp.root))
      || (f == Finding(Error, HeadMismatch) && hashes[cp.toSeq] != cp.headHash)
  {
    LeavesGathered(hashes, cp);
  }

  lemma IncompleteHas(c: Crypto, hashes: map<Word, Hash>, cp: Checkpoint, f: Finding)
    requires !Complete(hashes, cp)
    ensures f in IntervalFindings(c, hashes, cp) <==> f == Finding(Error, if cp.toSeq < cp.fromSeq then InvalidInterval else MissingRecords)
    ensures cp.fromSeq <= cp.toSeq ==> exists s: Word :: cp.fromSeq <= s <= cp.toSeq && s !in hashes
  {
  }

  lemma IntervalHas(c: Crypto, chainId: Text, ks: KeySets, hashes: map<Word, Hash>, cps: seq<SignedCheckpoint>, i: nat, f: Finding)
    requires i < |cps|
    ensures f in IntervalFindings(c, hashes, cps[i].checkpoint) <==>
      SealCauseAt(c, chainId, ks, hashes, cps, i, f)
      && (f.code.InvalidInterval? || f.code.MissingRecords? || f.code.RootMismatch? || f.code.HeadMismatch?)
  {
    if Complete(hashes, cps[i].checkpoint) {
      CompleteHas(c, hashes, cps[i].checkpoint, f);
    } else {
      IncompleteHas(c, hashes, cps[i].checkpoint, f);
    }
  }

  lemma SealKeyHas(c: Crypto, chainId: Text, ks: KeySets, hashes: map<Word, Hash>, cps: seq<SignedCheckpoint>, i: nat, f: Finding)
    requires i < |cps|
    ensures f in SealKeyFindings(c, ks, cps[i]) <==>
      SealCauseAt(c, chainId, ks, hashes, cps, i, f) && (f.code.UnknownKey? || f.code.KeyRoleMismatch? || f.code.InvalidSignature?)
  {
  }

  lemma SealHasAt(c: Crypto, chainId: Text, ks: KeySets, hashes: map<Word, Hash>, cps: seq<SignedCheckpoint>, i: nat, f: Finding)
    requires i < |cps|
    ensures f in CheckpointFindingsAt(c, chainId, ks, hashes, cps, i) <==> SealCauseAt(c, chainId, ks, hashes, cps, i, f)
  {
    IntervalHas(c, chainId, ks, hashes, cps, i, f);
    SealKeyHas(c, chainId, ks, hashes, cps, i, f);
  }

  predicate SealCause(c: Crypto, chainId: Text, ks: KeySets, hashes: map<Word, Hash>, cps: seq<SignedCheckpoint>, n: nat, f: Finding)
    requires n <= |cps|
  {
    exists i :: 0 <= i < n && SealCauseAt(c, chainId, ks, hashes, cps, i, f)
  }

  lemma {:induction false} ReportsTallied(cps: seq<SignedCheckpoint>, reports: seq<seq<Finding>>, n: nat, f: Finding)
    requires n <= |cps| == |reports|
    ensures f in TallySeals(cps, reports, n).findings <==> exists i :: 0 <= i < n && f in reports[i]
  {
    if n > 0 {
      ReportsTallied(cps, reports, n - 1, f);
    }
  }

  lemma SealHas(c: Crypto, chainId: Text, ks: KeySets, hashes: map<Word, Hash>, cps: seq<SignedCheckpoint>, f: Finding)
    ensures f in TallySeals(cps, SealReports(c, chainId, ks, hashes, cps), |cps|).findings <==>
      SealCause(c, chainId, ks, hashes, cps, |cps|, f)
  {
    var reports := SealReports(c, chainId, ks, hashes, cps);
    forall i | 0 <= i < |cps| ensures f in reports[i] <==> SealCauseAt(c, chainId, ks, hashes, cps, i, f) {
      SealHasAt(c, chainId, ks, hashes, cps, i, f);
    }
    ReportsCause(c, chainId, ks, hashes, cps, reports, f);
  }

  lemma ReportsCause(c: Crypto, chainId: Text, ks: KeySets, hashes: map<Word, Hash>, cps: seq<SignedCheckpoint>,
                     reports: seq<seq<Finding>>, f: Finding)
    requires |reports| == |cps|
    requires forall i :: 0 <= i < |cps| ==> (f in reports[i] <==> SealCauseAt(c, chainId, ks, hashes, cps, i, f))
    ensures f in TallySeals(cps, reports, |cps|).findings <==> SealCause(c, chainId, ks, hashes, cps, |cps|, f)
  {
    ReportsTallied(cps, reports, |cps|, f);
  }

  /** Nothing is wrong with the checkpoint. */
  ghost predicate Faultless(c: Crypto, chainId: Text, ks: KeySets, hashes: map<Word, Hash>, cps: seq<SignedCheckpoint>, i: nat)
    requires i < |cps|
  {
    forall f :: !SealCauseAt(c, chainId, ks, hashes, cps, i, f)
  }

  lemma FaultlessMeans(c: Crypto, chainId: Text, ks: KeySets, hashes: map<Word, Hash>, cps: seq<SignedCheckpoint>, i: nat)
    requires i < |cps|
    ensures Faultless(c, chainId, ks, hashes, cps, i) <==> CheckpointFindingsAt(c, chainId, ks, hashes, cps, i) == []
  {
    var fs := CheckpointFindingsAt(c, chainId, ks, hashes, cps, i);
    forall f ensures f in fs <==> SealCauseAt(c, chainId, ks, hashes, cps, i, f) {
      SealHasAt(c, chainId, ks, hashes, cps, i, f);
    }
    if fs != [] {
      assert fs[0] in fs;
    }
  }

  // ------------------------------------------------- anchors

  predicate AnchorCauseAt(c: Crypto, cps: seq<SignedCheckpoint>, a: Anchor, f: Finding) {
    var held, token := Held(c, cps, a.checkpointHash), c.readToken(a.tokenHex);
    match f.code
    case AnchorOrphan => f.severity == Error && !held
    case AnchorBadEncoding => f.severity == Error && held && token == BadEncoding
    case AnchorRejected => f.severity == Error && held && token == TokenRejected
    case AnchorUnreadable => f.severity == Error && held && token == TokenUnreadable
    case AnchorMismatch => f.severity == Error && held && token.Imprint? && token.hashed != a.checkpointHash
    case AnchorNotValidated => f.severity == Warning && held && token == Imprint(a.checkpointHash)
    case _ => false
  }

  predicate AnchorCause(c: Crypto, cps: seq<SignedCheckpoint>, anchors: seq<Anchor>, n: nat, f: Finding)
    requires n <= |anchors|
  {
    exists i :: 0 <= i < n && AnchorCauseAt(c, cps, anchors[i], f)
  }

  lemma {:induction false} AnchorTallied(c: Crypto, cps: seq<SignedCheckpoint>, anchors: seq<Anchor>, n: nat, f: Finding)
    requires n <= |anchors|
    ensures var t := TallyAnchors(c, cps, anchors, n);
      AnchorCause(c, cps, anchors, n, f) <==> f in t.findings || (t.ok > 0 && f == Finding(Warning, AnchorNotValidated))
  {
    if n > 0 {
      AnchorTallied(c, cps, anchors, n - 1, f);
      AnchorMeans(c, cps, anchors[n - 1]);
      AnchorIs(c, cps, anchors[n - 1], f);
      assert AnchorCause(c, cps, anchors, n, f) <==> AnchorCause(c, cps, anchors, n - 1, f) || AnchorCauseAt(c, cps, anchors[n - 1], f);
    }
  }

  lemma AnchorIs(c: Crypto, cps: seq<SignedCheckpoint>, a: Anchor, f: Finding)
    ensures var fault := AnchorFault(c, cps, a);
      AnchorCauseAt(c, cps, a, f) <==> f == if fault.Some? then Finding(Error, fault.value) else Finding(Warning, AnchorNotValidated)
  {
  }

  lemma AnchorHas(c: Crypto, cps: seq<SignedCheckpoint>, anchors: seq<Anchor>, f: Finding)
    ensures f in AnchorFindings(c, cps, anchors) <==> AnchorCause(c, cps, anchors, |anchors|, f)
  {
    AnchorTallied(c, cps, anchors, |anchors|, f);
  }

  // ------------------------------------------------- coverage

  /** Some faultless checkpoint covers the sequence number. */
  ghost predicate SealedBy(c: Crypto, ev: Evidence, ks: KeySets, s: Word) {
    exists i :: 0 <= i < |ev.checkpoints| && Faultless(c, ev.chainId, ks, Hashed(c, ev), ev.checkpoints, i)
                && ev.checkpoints[i].checkpoint.fromSeq <= s <= ev.checkpoints[i].checkpoint.toSeq
  }

  lemma {:induction false} IntervalsTallied(cps: seq<SignedCheckpoint>, reports: seq<seq<Finding>>, n: nat, s: Word)
    requires n <= |cps| == |reports|
    ensures Covered(s, TallySeals(cps, reports, n).intervals) <==>
      exists i :: 0 <= i < n && reports[i] == [] && cps[i].checkpoint.fromSeq <= s <= cps[i].checkpoint.toSeq
  {
    if n > 0 {
      IntervalsTallied(cps, reports, n - 1, s);
      var was, now := TallySeals(cps, reports, n - 1).intervals, TallySeals(cps, reports, n).intervals;
      if reports[n - 1] == [] {
        CoveredAppend(s, was, (cps[n - 1].checkpoint.fromSeq, cps[n - 1].checkpoint.toSeq));
      }
    }
  }

  lemma CoveredAppend(s: Word, was: seq<(Word, Word)>, last: (Word, Word))
    ensures Covered(s, was + [last]) <==> Covered(s, was) || last.0 <= s <= last.1
  {
    var now := was + [last];
    if i :| 0 <= i < |was| && was[i].0 <= s <= was[i].1 {
      assert now[i] == was[i];
    }
    assert now[|was|] == last;
  }

  lemma CoveredMeans(c: Crypto, ev: Evidence, trusted: seq<KeyEntry>, s: Word)
    ensures Covered(s, Seals(c, ev, trusted).intervals) <==> SealedBy(c, ev, Resolved(c, ev, trusted), s)
  {
    var ks := Resolved(c, ev, trusted);
    var reports := SealReports(c, ev.chainId, ks, Hashed(c, ev), ev.checkpoints);
    IntervalsTallied(ev.checkpoints, reports, |ev.checkpoints|, s);
    forall i | 0 <= i < |ev.checkpoints|
      ensures reports[i] == [] <==> Faultless(c, ev.chainId, ks, Hashed(c, ev), ev.checkpoints, i) {
      FaultlessMeans(c, ev.chainId, ks, Hashed(c, ev), ev.checkpoints, i);
    }
  }

  ghost predicate SomeUnsealed(c: Crypto, ev: Evidence, ks: KeySets) {
    exists i :: 0 <= i < |ev.records| && !SealedBy(c, ev, ks, ev.records[i].record.seqNo)
  }

  lemma CoverageHas(c: Crypto, ev: Evidence, trusted: seq<KeyEntry>, f: Finding)
    ensures f in CoverageFindings(c, ev, trusted) <==>
      f == Finding(Warning, UnsealedRecords) && SomeUnsealed(c, ev, Resolved(c, ev, trusted))
  {
    var hashes, sealed := Hashed(c, ev), SealedSeqs(c, ev, trusted);
    var rs, ks := Plain(ev.records), Resolved(c, ev, trusted);
    forall s: Word ensures s in sealed <==> s in hashes && SealedBy(c, ev, ks, s) {
      CoveredMeans(c, ev, trusted, s);
    }
    forall s: Word ensures s in hashes <==> exists j :: 0 <= j < |rs| && rs[j].seqNo == s {
      HashBySeqKeys(c.h, rs, |rs|, s);
    }
    if SomeUnsealed(c, ev, ks) {
      var i :| 0 <= i < |ev.records| && !SealedBy(c, ev, ks, ev.records[i].record.seqNo);
      assert rs[i].seqNo in hashes && rs[i].seqNo !in sealed;
    } else {
      forall s: Word | s in hashes ensures s in sealed {
        var j :| 0 <= j < |rs| && rs[j].seqNo == s;
        assert ev.records[j].record.seqNo == s;
      }
      assert hashes.Keys == sealed;
    }
  }

  // ------------------------------------------------- the whole report

  /** What gives cause for a finding, anywhere in the pack. */
  ghost predicate Cause(c: Crypto, ev: Evidence, trusted: seq<KeyEntry>, o: Options, f: Finding) {
    var ks := Resolved(c, ev, trusted);
    || TrustCause(c, ev, trusted, o, f)
    || (f == Finding(Warning, EmptyPack) && ev.records == [])
    || ChainCause(c.h, Plain(ev.records), |ev.records|, f)
    || OriginCause(c, ev.chainId, ks, ev.records, |ev.records|, o.requireOrigin, f)
    || SealCause(c, ev.chainId, ks, Hashed(c, ev), ev.checkpoints, |ev.checkpoints|, f)
    || AnchorCause(c, ev.checkpoints, ev.anchors, |ev.anchors|, f)
    || (f == Finding(Warning, UnsealedRecords) && SomeUnsealed(c, ev, ks))
  }

  /** A report carries a finding, of its code and severity, exactly when the pack gives cause for it. */
  lemma FindingsHaveCauses(c: Crypto, ev: Evidence, trusted: seq<KeyEntry>, o: Options, f: Finding)
    ensures f in Verdict(c, ev, trusted, o).findings <==> Cause(c, ev, trusted, o, f)
  {
    var ks := Resolved(c, ev, trusted);
    TrustHas(c, ev, trusted, o, f);
    ChainHas(c.h, Plain(ev.records), |ev.records|, f);
    OriginHas(c, ev.chainId, ks, ev.records, o, f);
    SealHas(c, ev.chainId, ks, Hashed(c, ev), ev.checkpoints, f);
    AnchorHas(c, ev.checkpoints, ev.anchors, f);
    CoverageHas(c, ev, trusted, f);
  }

  // ------------------------------------------------- the counts

  /** The positions below n of what a predicate holds of. */
  function Where(n: nat, p: nat -> bool): (at: set<nat>)
    ensures forall i: nat :: i in at <==> i < n && p(i)
  {
    set i: nat | i < n && p(i)
  }

  lemma OneMore(n: nat, p: nat -> bool)
    ensures |Where(n + 1, p)| == |Where(n, p)| + (if p(n) then 1 else 0)
  {
    assert Where(n + 1, p) == if p(n) then Where(n, p) + {n} else Where(n, p);
  }

  lemma {:induction false} SignedTallied(c: Crypto, chainId: Text, ks: KeySets, rs: seq<SignedRecord>, n: nat, p: nat -> bool)
    requires n <= |rs| && forall i :: 0 <= i < |rs| ==> (p(i) <==> Signed(c, chainId, ks, rs[i]))
    ensures TallyOrigin(c, chainId, ks, rs, n).ok == |Where(n, p)|
  {
    if n > 0 {
      SignedTallied(c, chainId, ks, rs, n - 1, p);
      OneMore(n - 1, p);
      OriginIs(c, chainId, ks, rs[n - 1], false, Finding(Error, EmptyPack));
    }
  }

  lemma {:induction false} AnchorsTallied(c: Crypto, cps: seq<SignedCheckpoint>, anchors: seq<Anchor>, n: nat, p: nat -> bool)
    requires n <= |anchors| && forall i :: 0 <= i < |anchors| ==> (p(i) <==> AnchorHolds(c, cps, anchors[i]))
    ensures TallyAnchors(c, cps, anchors, n).ok == |Where(n, p)|
  {
    if n > 0 {
      AnchorsTallied(c, cps, anchors, n - 1, p);
      OneMore(n - 1, p);
      AnchorTally(c, cps, anchors, n - 1);
    }
  }

  lemma AnchorTally(c: Crypto, cps: seq<SignedCheckpoint>, anchors: seq<Anchor>, n: nat)
    requires n < |anchors|
    ensures TallyAnchors(c, cps, anchors, n + 1).ok
      == TallyAnchors(c, cps, anchors, n).ok + (if AnchorHolds(c, cps, anchors[n]) then 1 else 0)
  {
    AnchorMeans(c, cps, anchors[n]);
  }

  lemma {:induction false} UnknownTallied(rs: seq<Record>, n: nat, p: nat -> bool)
    requires n <= |rs| && forall i :: 0 <= i < |rs| ==> (p(i) <==> rs[i].payload.Unknown?)
    ensures UnknownCount(rs, n) == |Where(n, p)|
  {
    if n > 0 {
      UnknownTallied(rs, n - 1, p);
      OneMore(n - 1, p);
    }
  }

  lemma {:induction false} SealsTallied(cps: seq<SignedCheckpoint>, reports: seq<seq<Finding>>, n: nat, p: nat -> bool)
    requires n <= |cps| == |reports| && forall i :: 0 <= i < |cps| ==> (p(i) <==> reports[i] == [])
    ensures |TallySeals(cps, reports, n).intervals| == |Where(n, p)|
  {
    if n > 0 {
      SealsTallied(cps, reports, n - 1, p);
      OneMore(n - 1, p);
    }
  }

  /** The checkpoint at i is there and nothing is wrong with it. */
  ghost predicate SoundSeal(c: Crypto, ev: Evidence, ks: KeySets, i: nat) {
    i < |ev.checkpoints| && Faultless(c, ev.chainId, ks, Hashed(c, ev), ev.checkpoints, i)
  }

  ghost predicate Seen(ev: Evidence, s: Word) {
    exists i :: 0 <= i < |ev.records| && ev.records[i].record.seqNo == s
  }

  lemma ValidCounted(c: Crypto, ev: Evidence, trusted: seq<KeyEntry>)
    ensures |Seals(c, ev, trusted).intervals| == |set i | 0 <= i < |ev.checkpoints| && SoundSeal(c, ev, Resolved(c, ev, trusted), i)|
  {
    var ks, n := Resolved(c, ev, trusted), |ev.checkpoints|;
    var reports := SealReports(c, ev.chainId, ks, Hashed(c, ev), ev.checkpoints);
    var p := (i: nat) => i < n && reports[i] == [];
    SealsTallied(ev.checkpoints, reports, n, p);
    forall i | 0 <= i < n ensures p(i) <==> SoundSeal(c, ev, ks, i) {
      FaultlessMeans(c, ev.chainId, ks, Hashed(c, ev), ev.checkpoints, i);
    }
    assert Where(n, p) == set i | 0 <= i < n && SoundSeal(c, ev, ks, i);
  }

  lemma SignedCounted(c: Crypto, ev: Evidence, ks: KeySets)
    ensures TallyOrigin(c, ev.chainId, ks, ev.records, |ev.records|).ok
      == |set i | 0 <= i < |ev.records| && Signed(c, ev.chainId, ks, ev.records[i])|
  {
    var n := |ev.records|;
    var p := (i: nat) => i < n && Signed(c, ev.chainId, ks, ev.records[i]);
    SignedTallied(c, ev.chainId, ks, ev.records, n, p);
    assert Where(n, p) == set i | 0 <= i < n && Signed(c, ev.chainId, ks, ev.records[i]);
  }

  lemma AnchorsCounted(c: Crypto, ev: Evidence)
    ensures TallyAnchors(c, ev.checkpoints, ev.anchors, |ev.anchors|).ok
      == |set i | 0 <= i < |ev.anchors| && AnchorHolds(c, ev.checkpoints, ev.anchors[i])|
  {
    var n := |ev.anchors|;
    var p := (i: nat) => i < n && AnchorHolds(c, ev.checkpoints, ev.anchors[i]);
    AnchorsTallied(c, ev.checkpoints, ev.anchors, n, p);
    assert Where(n, p) == set i | 0 <= i < n && AnchorHolds(c, ev.checkpoints, ev.anchors[i]);
  }

  lemma UnknownCounted(ev: Evidence)
    ensures UnknownCount(Plain(ev.records), |ev.records|)
      == |set i | 0 <= i < |ev.records| && ev.records[i].record.payload.Unknown?|
  {
    var rs, n := Plain(ev.records), |ev.records|;
    var p := (i: nat) => i < n && rs[i].payload.Unknown?;
    UnknownTallied(rs, n, p);
    assert Where(n, p) == set i | 0 <= i < n && ev.records[i].record.payload.Unknown?;
  }

  lemma SealedCounts(c: Crypto, ev: Evidence, trusted: seq<KeyEntry>, s: Word)
    ensures s in SealedSeqs(c, ev, trusted) <==> Seen(ev, s) && SealedBy(c, ev, Resolved(c, ev, trusted), s)
  {
    var rs := Plain(ev.records);
    CoveredMeans(c, ev, trusted, s);
    HashBySeqKeys(c.h, rs, |rs|, s);
    if j :| 0 <= j < |rs| && rs[j].seqNo == s {
      assert ev.records[j].record.seqNo == s;
    }
    if Seen(ev, s) {
      var i :| 0 <= i < |ev.records| && ev.records[i].record.seqNo == s;
      assert rs[i].seqNo == s;
    }
  }

  /** Every counter of a report counts something: the records, the checkpoints and the anchors of the pack, those of them
      that hold, and the sequence numbers a faultless checkpoint covers. */
  lemma CountsCount(c: Crypto, ev: Evidence, trusted: seq<KeyEntry>, o: Options)
    ensures var ks, report := Resolved(c, ev, trusted), Verdict(c, ev, trusted, o);
      && report.chainId == ev.chainId && (report.selfReferential <==> trusted == [])
      && report.recordsTotal == |ev.records| && report.checkpointsTotal == |ev.checkpoints| && report.anchorsTotal == |ev.anchors|
      && report.recordsOriginOk == |set i | 0 <= i < |ev.records| && Signed(c, ev.chainId, ks, ev.records[i])|
      && report.recordsUnknown == |set i | 0 <= i < |ev.records| && ev.records[i].record.payload.Unknown?|
      && report.anchorsOk == |set i | 0 <= i < |ev.anchors| && AnchorHolds(c, ev.checkpoints, ev.anchors[i])|
      && report.checkpointsValid == |set i | 0 <= i < |ev.checkpoints| && SoundSeal(c, ev, ks, i)|
      && report.recordsSealed == |set s: Word | Seen(ev, s) && SealedBy(c, ev, ks, s)|
  {
    SignedCounted(c, ev, Resolved(c, ev, trusted));
    UnknownCounted(ev);
    AnchorsCounted(c, ev);
    ValidCounted(c, ev, trusted);
    SealedCounted(c, ev, trusted);
  }

  lemma SealedCounted(c: Crypto, ev: Evidence, trusted: seq<KeyEntry>)
    ensures |SealedSeqs(c, ev, trusted)| == |set s: Word | Seen(ev, s) && SealedBy(c, ev, Resolved(c, ev, trusted), s)|
  {
    var ks := Resolved(c, ev, trusted);
    forall s: Word ensures s in SealedSeqs(c, ev, trusted) <==> Seen(ev, s) && SealedBy(c, ev, ks, s) {
      SealedCounts(c, ev, trusted, s);
    }
    assert SealedSeqs(c, ev, trusted) == set s: Word | Seen(ev, s) && SealedBy(c, ev, ks, s);
  }

  // ------------------------------------------------- what the reports are judged with

  /** The hash kept for a sequence number is that of the last record to claim it. */
  lemma {:induction false} LastHash(h: Hasher, rs: seq<Record>, n: nat, j: nat)
    requires j < n <= |rs| && forall k :: j < k < n ==> rs[k].seqNo != rs[j].seqNo
    ensures rs[j].seqNo in HashBySeq(h, rs, n) && HashBySeq(h, rs, n)[rs[j].seqNo] == h.record(rs[j])
  {
    if j < n - 1 {
      LastHash(h, rs, n - 1, j);
    }
  }

  /** The key an id resolves to in one role is that of the last usable entry under it. */
  lemma {:induction false} LastKey(c: Crypto, es: seq<KeyEntry>, role: KeyRole, j: nat)
    requires j < |es| && es[j].role == role && Usable(c, es[j])
    requires forall k :: j < k < |es| ==> es[k].keyId != es[j].keyId || es[k].role != role || !Usable(c, es[k])
    ensures es[j].keyId in KeyMap(c, es, role) && KeyMap(c, es, role)[es[j].keyId] == c.decodeKey(es[j].publicKey).value
  {
    var n := |es| - 1;
    if j < n {
      var pre := es[..n];
      assert pre[j] == es[j];
      LastKey(c, pre, role, j);
    }
  }

  /** An identity is a listed origin key, or else one a bundle enrols that a trusted ops key signed. */
  lemma IdentitiesAre(c: Crypto, ev: Evidence, trusted: seq<KeyEntry>, kid: Text)
    ensures var source := if trusted == [] then ev.keys else trusted;
      var listed, ids := KeyMap(c, source, OriginRole), Identities(c, ev, trusted);
      var enrolled := if ev.deployment.Some? && OpsKey(c, ev.deployment.value, source).Some?
                         && Enrols(c, ev.deployment.value, OpsKey(c, ev.deployment.value, source).value)
                      then KeyMap(c, ev.deployment.value.bundle.originKeys, OriginRole) else map[];
      && (kid in ids <==> kid in listed || kid in enrolled)
      && (kid in ids ==> ids[kid] == if kid in listed then listed[kid] else enrolled[kid])
  {
    var source := KeySource(ev, trusted);
    if ev.deployment.Some? && OpsKey(c, ev.deployment.value, source).Some? {
      EnrolsMeans(c, ev.deployment.value, OpsKey(c, ev.deployment.value, source).value);
    }
  }
}
