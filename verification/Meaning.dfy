/** What an error-free report says about a pack, stated without the verifier. */
module Meaning {
  import opened Bytes
  import opened Canonical
  import opened Hashing
  import opened Records
  import opened Chain
  import opened Origin
  import opened Pack
  import opened Verifier

  // ------------------------------------------------- the chain pass

  predicate AllUnderstood(rs: seq<Record>) {
    forall i :: 0 <= i < |rs| ==> IsUnderstood(rs[i].payload)
  }

  /** A readable, unbroken run of the chain, anchored on genesis exactly when it starts at zero. */
  predicate Intact(h: Hasher, rs: seq<Record>) {
    && Contiguous(h, rs) && AllUnderstood(rs)
    && (rs != [] ==> (rs[0].seqNo == 0 <==> rs[0].prevHash == GENESIS))
  }

  lemma CleanIf(fault: bool, code: Code)
    ensures Clean(if fault then [Fault(code)] else []) <==> !fault
  {
    assert [Fault(code)][0].severity == Error;
  }

  lemma CleanLink(prev: Option<(Word, Hash)>, rec: Record)
    ensures Clean(LinkFindings(prev, rec)) <==>
      match prev
      case None => rec.seqNo == 0 <==> rec.prevHash == GENESIS
      case Some(p) => rec.seqNo as int == p.0 as int + 1 && rec.prevHash == p.1
  {
    match prev {
      case None =>
        CleanIf(true, InconsistentAnchor);
        CleanIf(true, InvalidGenesis);
      case Some(p) =>
        CleanIf(true, InvalidOrder);
        CleanIf(true, SequenceGap);
        CleanIf(rec.prevHash != p.1, BrokenLink);
        CleanConcat(if rec.seqNo <= p.0 then [Fault(InvalidOrder)] else if rec.seqNo as int != p.0 as int + 1 then [Fault(SequenceGap)] else [],
                    if rec.prevHash != p.1 then [Fault(BrokenLink)] else []);
    }
  }

  /** The record at position i is readable, follows its predecessor and claims no number twice. */
  predicate StandsAt(h: Hasher, rs: seq<Record>, i: nat)
    requires i < |rs|
  {
    && IsUnderstood(rs[i].payload) && !SeqSeen(rs, i)
    && if i == 0 then rs[0].seqNo == 0 <==> rs[0].prevHash == GENESIS else FollowsAt(h, rs, i)
  }

  lemma CleanAt(h: Hasher, rs: seq<Record>, i: nat)
    requires i < |rs|
    ensures Clean(ChainFindingsAt(h, rs, i)) <==> StandsAt(h, rs, i)
  {
    var link := LinkFindings(Before(h, rs, i), rs[i]);
    var read := if IsUnderstood(rs[i].payload) then link else [Fault(UnknownPayloadType)] + link;
    CleanLink(Before(h, rs, i), rs[i]);
    CleanIf(true, UnknownPayloadType);
    CleanIf(true, DuplicateSequence);
    CleanConcat([Fault(UnknownPayloadType)], link);
    CleanConcat(read, [Fault(DuplicateSequence)]);
  }

  lemma CleanNext(h: Hasher, rs: seq<Record>, n: nat)
    requires n < |rs|
    ensures Clean(ChainFindings(h, rs, n + 1)) <==> Clean(ChainFindings(h, rs, n)) && StandsAt(h, rs, n)
  {
    CleanAt(h, rs, n);
    CleanConcat(ChainFindings(h, rs, n), ChainFindingsAt(h, rs, n));
  }

  predicate AllStand(h: Hasher, rs: seq<Record>, n: nat)
    requires n <= |rs|
  {
    n == 0 || (AllStand(h, rs, n - 1) && StandsAt(h, rs, n - 1))
  }

  lemma {:induction false} AllStandMeans(h: Hasher, rs: seq<Record>, n: nat)
    requires n <= |rs|
    ensures AllStand(h, rs, n) <==> forall i :: 0 <= i < n ==> StandsAt(h, rs, i)
  {
    if n > 0 {
      AllStandMeans(h, rs, n - 1);
    }
  }

  lemma {:induction false} CleanChain(h: Hasher, rs: seq<Record>, n: nat)
    requires n <= |rs|
    ensures Clean(ChainFindings(h, rs, n)) <==> AllStand(h, rs, n)
  {
    if n > 0 {
      CleanChain(h, rs, n - 1);
      CleanNext(h, rs, n - 1);
    }
  }

  lemma ContiguousSeq(h: Hasher, rs: seq<Record>, i: nat)
    requires Contiguous(h, rs) && i < |rs|
    ensures rs[i].seqNo as int == rs[0].seqNo as int + i
  {
    SeqIsPosition(h, rs, rs[0].seqNo as int, rs[0].prevHash, i);
  }

  lemma NoneSeen(h: Hasher, rs: seq<Record>, i: nat)
    requires Contiguous(h, rs) && i < |rs|
    ensures !SeqSeen(rs, i)
  {
    forall j | 0 <= j < i ensures rs[j].seqNo != rs[i].seqNo {
      ContiguousSeq(h, rs, j);
      ContiguousSeq(h, rs, i);
    }
  }

  lemma IntactStands(h: Hasher, rs: seq<Record>)
    ensures Intact(h, rs) <==> forall i :: 0 <= i < |rs| ==> StandsAt(h, rs, i)
  {
    if Intact(h, rs) {
      forall i | 0 <= i < |rs| ensures StandsAt(h, rs, i) {
        NoneSeen(h, rs, i);
      }
    }
    if forall i :: 0 <= i < |rs| ==> StandsAt(h, rs, i) {
      forall i | 0 <= i < |rs| ensures IsUnderstood(rs[i].payload) && (i == 0 || FollowsAt(h, rs, i)) {
        assert StandsAt(h, rs, i);
      }
      assert rs != [] ==> StandsAt(h, rs, 0);
    }
  }

  /** The chain pass reports no error exactly on an intact run. */
  lemma ChainPassMeans(h: Hasher, rs: seq<Record>)
    ensures Clean(ChainFindings(h, rs, |rs|)) <==> Intact(h, rs)
  {
    CleanChain(h, rs, |rs|);
    AllStandMeans(h, rs, |rs|);
    IntactStands(h, rs);
  }

  // ------------------------------------------------- the map of hashes of an intact run

  lemma {:induction false} HashAt(h: Hasher, rs: seq<Record>, n: nat, j: nat)
    requires Contiguous(h, rs) && j < n <= |rs|
    ensures rs[j].seqNo in HashBySeq(h, rs, n) && HashBySeq(h, rs, n)[rs[j].seqNo] == h.record(rs[j])
  {
    if j < n - 1 {
      HashAt(h, rs, n - 1, j);
      ContiguousSeq(h, rs, j);
      ContiguousSeq(h, rs, n - 1);
    }
  }

  /** The interval lies inside the run. */
  predicate Inside(rs: seq<Record>, a: Word, b: Word) {
    rs != [] && rs[0].seqNo <= a <= b && b as int < rs[0].seqNo as int + |rs|
  }

  /** The records of an interval. */
  function Slice(rs: seq<Record>, a: Word, b: Word): seq<Record>
    requires Inside(rs, a, b)
  {
    rs[a as int - rs[0].seqNo as int..b as int - rs[0].seqNo as int + 1]
  }

  lemma PresentMeans(h: Hasher, rs: seq<Record>, a: Word, b: Word)
    requires Contiguous(h, rs) && a <= b
    ensures Present(HashBySeq(h, rs, |rs|), a, b) <==> Inside(rs, a, b)
  {
    var m := HashBySeq(h, rs, |rs|);
    HashBySeqKeys(h, rs, |rs|, a);
    HashBySeqKeys(h, rs, |rs|, b);
    if Present(m, a, b) {
      assert a in m && b in m;
      var i :| 0 <= i < |rs| && rs[i].seqNo == a;
      var j :| 0 <= j < |rs| && rs[j].seqNo == b;
      ContiguousSeq(h, rs, i);
      ContiguousSeq(h, rs, j);
    }
    if Inside(rs, a, b) {
      forall s: Word | a <= s <= b ensures s in m {
        var j := s as int - rs[0].seqNo as int;
        HashAt(h, rs, |rs|, j);
        ContiguousSeq(h, rs, j);
      }
    }
  }

  lemma GatherMeans(h: Hasher, rs: seq<Record>, a: Word, b: Word)
    requires Contiguous(h, rs) && Inside(rs, a, b)
    ensures Present(HashBySeq(h, rs, |rs|), a, b)
    ensures Gather(HashBySeq(h, rs, |rs|), a, b as int - a as int + 1) == Hashes(h, Slice(rs, a, b))
    ensures HashBySeq(h, rs, |rs|)[b] == h.record(Slice(rs, a, b)[b as int - a as int])
  {
    PresentMeans(h, rs, a, b);
    var m, n, rest := HashBySeq(h, rs, |rs|), b as int - a as int + 1, Slice(rs, a, b);
    var hs := Gather(m, a, n);
    forall i | 0 <= i < n ensures hs[i] == h.record(rest[i]) {
      HashWithin(h, rs, a, b, i);
    }
    HashWithin(h, rs, a, b, n - 1);
  }

  lemma HashWithin(h: Hasher, rs: seq<Record>, a: Word, b: Word, i: nat)
    requires Contiguous(h, rs) && Inside(rs, a, b) && a as int + i <= b as int
    ensures a as int + i in HashBySeq(h, rs, |rs|)
    ensures HashBySeq(h, rs, |rs|)[a as int + i] == h.record(Slice(rs, a, b)[i])
  {
    var j := a as int - rs[0].seqNo as int + i;
    HashAt(h, rs, |rs|, j);
    ContiguousSeq(h, rs, j);
  }

  // ------------------------------------------------- the checkpoint pass

  /** The checkpoint is the seal of the records of its interval. */
  predicate SealsSlice(h: Hasher, chainId: Text, rs: seq<Record>, prev: Option<Hash>, cp: Checkpoint) {
    && Inside(rs, cp.fromSeq, cp.toSeq)
    && SealOf(h, chainId, Slice(rs, cp.fromSeq, cp.toSeq), prev, cp.tsMs, cp.keyId) == Ok(cp)
  }

  lemma SliceSeal(h: Hasher, chainId: Text, rs: seq<Record>, prev: Option<Hash>, cp: Checkpoint)
    requires Contiguous(h, rs) && Inside(rs, cp.fromSeq, cp.toSeq)
    ensures SealOf(h, chainId, Slice(rs, cp.fromSeq, cp.toSeq), prev, cp.tsMs, cp.keyId)
      == Ok(Checkpoint(chainId, cp.fromSeq, cp.toSeq,
                       Merkle.Root(h.digest, Hashes(h, Slice(rs, cp.fromSeq, cp.toSeq))).value,
                       h.record(Slice(rs, cp.fromSeq, cp.toSeq)[cp.toSeq as int - cp.fromSeq as int]),
                       prev, cp.tsMs, cp.keyId))
  {
    var j, k := cp.fromSeq as int - rs[0].seqNo as int, cp.toSeq as int - rs[0].seqNo as int;
    SliceContiguous(h, rs, j, k + 1);
    ContiguousSeq(h, rs, j);
    ContiguousSeq(h, rs, k);
  }

  /** The seal was made by a key the caller resolves as a sealing key. */
  predicate SealedByKnownKey(c: Crypto, ks: KeySets, sc: SignedCheckpoint) {
    sc.checkpoint.keyId in ks.sealKeys && VerifySeal(c, sc, ks.sealKeys[sc.checkpoint.keyId])
  }

  /** Over records that are all there, the interval check compares the root and the head. */
  lemma InsideMeans(c: Crypto, rs: seq<Record>, cp: Checkpoint)
    requires Contiguous(c.h, rs) && Inside(rs, cp.fromSeq, cp.toSeq)
    ensures var part := Slice(rs, cp.fromSeq, cp.toSeq);
      IntervalFindings(c, HashBySeq(c.h, rs, |rs|), cp) == [] <==>
        Merkle.Root(c.h.digest, Hashes(c.h, part)) == Some(cp.root) && c.h.record(part[|part| - 1]) == cp.headHash
  {
    GatherMeans(c.h, rs, cp.fromSeq, cp.toSeq);
  }

  /** Outside them it always complains. */
  lemma OutsideMeans(c: Crypto, rs: seq<Record>, cp: Checkpoint)
    requires Contiguous(c.h, rs) && !Inside(rs, cp.fromSeq, cp.toSeq)
    ensures IntervalFindings(c, HashBySeq(c.h, rs, |rs|), cp) != []
  {
    if cp.fromSeq <= cp.toSeq {
      PresentMeans(c.h, rs, cp.fromSeq, cp.toSeq);
    }
  }

  lemma IntervalMeans(c: Crypto, rs: seq<Record>, chainId: Text, prev: Option<Hash>, cp: Checkpoint)
    requires Contiguous(c.h, rs)
    ensures (IntervalFindings(c, HashBySeq(c.h, rs, |rs|), cp) == [] && cp.chainId == chainId && cp.prevCheckpointHash == prev)
      <==> SealsSlice(c.h, chainId, rs, prev, cp)
  {
    if Inside(rs, cp.fromSeq, cp.toSeq) {
      InsideMeans(c, rs, cp);
      SliceSeal(c.h, chainId, rs, prev, cp);
    } else {
      OutsideMeans(c, rs, cp);
    }
  }

  /** A checkpoint raises no finding exactly when it is the seal of its records, chained to the one before,
      and signed by a known sealing key. */
  lemma CheckpointMeans(c: Crypto, chainId: Text, ks: KeySets, rs: seq<Record>, cps: seq<SignedCheckpoint>, i: nat)
    requires Contiguous(c.h, rs) && i < |cps|
    ensures CheckpointFindingsAt(c, chainId, ks, HashBySeq(c.h, rs, |rs|), cps, i) == [] <==>
      SealsSlice(c.h, chainId, rs, PrevHash(c, cps, i), cps[i].checkpoint) && SealedByKnownKey(c, ks, cps[i])
  {
    IntervalMeans(c, rs, chainId, PrevHash(c, cps, i), cps[i].checkpoint);
  }

  lemma IntervalErrors(c: Crypto, hashes: map<Word, Hash>, cp: Checkpoint)
    ensures Clean(IntervalFindings(c, hashes, cp)) ==> IntervalFindings(c, hashes, cp) == []
  {
    var fs := IntervalFindings(c, hashes, cp);
    assert fs == [] || fs[0].severity == Error;
  }

  lemma CheckpointErrors(c: Crypto, chainId: Text, ks: KeySets, hashes: map<Word, Hash>, cps: seq<SignedCheckpoint>, i: nat)
    requires i < |cps|
    ensures var fs := CheckpointFindingsAt(c, chainId, ks, hashes, cps, i); Clean(fs) <==> fs == []
  {
    var cp := cps[i].checkpoint;
    var a := if cp.chainId != chainId then [Fault(ForeignChain)] else [];
    var b := if cp.prevCheckpointHash != PrevHash(c, cps, i) then [Fault(BrokenCheckpointLink)] else [];
    var d, e := SealKeyFindings(c, ks, cps[i]), IntervalFindings(c, hashes, cp);
    CleanConcat(a, b);
    CleanConcat(a + b, d);
    CleanConcat(a + b + d, e);
    CleanIf(cp.chainId != chainId, ForeignChain);
    CleanIf(cp.prevCheckpointHash != PrevHash(c, cps, i), BrokenCheckpointLink);
    assert d == [] || d[0].severity == Error;
    IntervalErrors(c, hashes, cp);
  }

  predicate AllSilent(reports: seq<seq<Finding>>, n: nat)
    requires n <= |reports|
  {
    forall i :: 0 <= i < n ==> reports[i] == []
  }

  /** When every finding on a checkpoint is an error: no error at all, no finding on any checkpoint, and every
      checkpoint counted valid are the same thing; and then each contributes its interval. */
  lemma {:induction false} SealPassMeans(cps: seq<SignedCheckpoint>, reports: seq<seq<Finding>>, n: nat)
    requires n <= |cps| == |reports|
    requires forall i :: 0 <= i < n ==> (Clean(reports[i]) <==> reports[i] == [])
    ensures var t := TallySeals(cps, reports, n);
      && |t.intervals| <= n
      && (Clean(t.findings) <==> AllSilent(reports, n)) && (|t.intervals| == n <==> AllSilent(reports, n))
      && (AllSilent(reports, n) ==>
           forall i :: 0 <= i < n ==> t.intervals[i] == (cps[i].checkpoint.fromSeq, cps[i].checkpoint.toSeq))
  {
    if n > 0 {
      SealPassMeans(cps, reports, n - 1);
      CleanConcat(TallySeals(cps, reports, n - 1).findings, reports[n - 1]);
    }
  }

  // ------------------------------------------------- the other passes

  lemma CleanMissing(n: nat, mandated: bool, code: Code)
    ensures Clean(Missing(n, mandated, code)) <==> n == 0 || !mandated
  {
    CleanIf(true, code);
  }

  lemma {:induction false} TallyOriginMeans(c: Crypto, chainId: Text, ks: KeySets, rs: seq<SignedRecord>, n: nat)
    requires n <= |rs|
    ensures var t := TallyOrigin(c, chainId, ks, rs, n);
      && (Clean(t.findings) <==> forall i :: 0 <= i < n ==> !OriginOf(c, chainId, ks, rs[i]).OriginBad?)
      && (t.missing == 0 <==> forall i :: 0 <= i < n ==> OriginOf(c, chainId, ks, rs[i]) != OriginMissing)
      && t.ok <= n && (t.ok == n <==> forall i :: 0 <= i < n ==> OriginOf(c, chainId, ks, rs[i]) == OriginOk)
  {
    if n > 0 {
      TallyOriginMeans(c, chainId, ks, rs, n - 1);
      if OriginOf(c, chainId, ks, rs[n - 1]).OriginBad? {
        var code := OriginOf(c, chainId, ks, rs[n - 1]).code;
        CleanConcat(TallyOrigin(c, chainId, ks, rs, n - 1).findings, [Fault(code)]);
        CleanIf(true, code);
      }
    }
  }

  /** Nobody the verifier cannot rule out: no record claims a wrong or foreign signature, and under a mandate
      every record carries a verified one. */
  predicate OriginHolds(c: Crypto, chainId: Text, ks: KeySets, rs: seq<SignedRecord>, mandated: bool) {
    forall i :: 0 <= i < |rs| ==>
      var s := OriginOf(c, chainId, ks, rs[i]); if mandated then s == OriginOk else !s.OriginBad?
  }

  lemma OriginPassMeans(c: Crypto, chainId: Text, ks: KeySets, rs: seq<SignedRecord>, o: Options)
    ensures Clean(OriginFindings(c, chainId, ks, rs, o)) <==> OriginHolds(c, chainId, ks, rs, o.requireOrigin)
  {
    var t := TallyOrigin(c, chainId, ks, rs, |rs|);
    TallyOriginMeans(c, chainId, ks, rs, |rs|);
    CleanMissing(t.missing, o.requireOrigin, OriginUnverified);
    CleanConcat(t.findings, Missing(t.missing, o.requireOrigin, OriginUnverified));
  }

  /** Some checkpoint of the pack has the hash. */
  predicate Held(c: Crypto, cps: seq<SignedCheckpoint>, hash: Hash) {
    exists i :: 0 <= i < |cps| && c.h.checkpoint(cps[i].checkpoint) == hash
  }

  /** The anchor names a checkpoint of the pack, and its granted token imprints that checkpoint's hash. */
  predicate AnchorHolds(c: Crypto, cps: seq<SignedCheckpoint>, a: Anchor) {
    Held(c, cps, a.checkpointHash) && c.readToken(a.tokenHex) == Imprint(a.checkpointHash)
  }

  lemma AnchorMeans(c: Crypto, cps: seq<SignedCheckpoint>, a: Anchor)
    ensures AnchorFault(c, cps, a) == None <==> AnchorHolds(c, cps, a)
  {
  }

  lemma {:induction false} TallyAnchorsMeans(c: Crypto, cps: seq<SignedCheckpoint>, anchors: seq<Anchor>, n: nat)
    requires n <= |anchors|
    ensures var t := TallyAnchors(c, cps, anchors, n);
      && (Clean(t.findings) <==> forall i :: 0 <= i < n ==> AnchorHolds(c, cps, anchors[i]))
      && t.ok <= n && (t.ok == n <==> Clean(t.findings))
  {
    if n > 0 {
      TallyAnchorsMeans(c, cps, anchors, n - 1);
      AnchorMeans(c, cps, anchors[n - 1]);
      if AnchorFault(c, cps, anchors[n - 1]).Some? {
        var code := AnchorFault(c, cps, anchors[n - 1]).value;
        CleanConcat(TallyAnchors(c, cps, anchors, n - 1).findings, [Fault(code)]);
        CleanIf(true, code);
      }
    }
  }

  lemma AnchorPassMeans(c: Crypto, cps: seq<SignedCheckpoint>, anchors: seq<Anchor>)
    ensures Clean(AnchorFindings(c, cps, anchors)) <==> forall i :: 0 <= i < |anchors| ==> AnchorHolds(c, cps, anchors[i])
  {
    var t := TallyAnchors(c, cps, anchors, |anchors|);
    TallyAnchorsMeans(c, cps, anchors, |anchors|);
    CleanConcat(t.findings, if t.ok > 0 then [Warn(AnchorNotValidated)] else []);
  }

  lemma {:induction false} KeyFindingsMeans(c: Crypto, es: seq<KeyEntry>)
    ensures Clean(KeyFindings(c, es)) <==> forall i :: 0 <= i < |es| ==> ToKey(c, es[i]).Some?
  {
    if es != [] {
      var n := |es| - 1;
      KeyFindingsMeans(c, es[..n]);
      CleanIf(ToKey(c, es[n]).None?, InvalidKey);
      CleanConcat(KeyFindings(c, es[..n]), if ToKey(c, es[n]).None? then [Fault(InvalidKey)] else []);
      forall i | 0 <= i < n ensures es[i] == es[..n][i] {
      }
    }
  }

  lemma {:induction false} CertErrorsMeans(c: Crypto, identity: map<Text, Key>, chainId: Text, rs: seq<SignedRecord>)
    ensures Clean(CertErrors(c, identity, chainId, rs)) <==> forall i :: 0 <= i < |rs| ==> !CertInvalid(c, identity, chainId, rs[i])
    ensures CertsUnverified(identity, rs) == 0 <==> forall i :: 0 <= i < |rs| ==> !CertUnverified(identity, rs[i])
  {
    if rs != [] {
      var n := |rs| - 1;
      CertErrorsMeans(c, identity, chainId, rs[..n]);
      CleanIf(CertInvalid(c, identity, chainId, rs[n]), SessionCertInvalid);
      CleanConcat(CertErrors(c, identity, chainId, rs[..n]), if CertInvalid(c, identity, chainId, rs[n]) then [Fault(SessionCertInvalid)] else []);
      forall i | 0 <= i < n ensures rs[i] == rs[..n][i] {
      }
    }
  }

  /** Every certificate by an enrolled identity key checks out; under a mandate, every certificate has one. */
  predicate CertsHold(c: Crypto, identity: map<Text, Key>, chainId: Text, rs: seq<SignedRecord>, mandated: bool) {
    forall i :: 0 <= i < |rs| ==>
      !CertInvalid(c, identity, chainId, rs[i]) && (mandated ==> !CertUnverified(identity, rs[i]))
  }

  lemma CertPassMeans(c: Crypto, identity: map<Text, Key>, chainId: Text, rs: seq<SignedRecord>, o: Options)
    ensures Clean(CertFindings(c, identity, chainId, rs, o)) <==> CertsHold(c, identity, chainId, rs, o.requireOrigin)
  {
    var n := CertsUnverified(identity, rs);
    CertErrorsMeans(c, identity, chainId, rs);
    CleanMissing(n, o.requireOrigin, SessionCertUnverified);
    CleanConcat(CertErrors(c, identity, chainId, rs), Missing(n, o.requireOrigin, SessionCertUnverified));
  }

  // ------------------------------------------------- the deployment bundle

  /** The attestation found for an entry checks; under a mandate there is one. */
  predicate AttestedAt(c: Crypto, b: DeploymentBundle, mandated: bool, i: nat)
    requires i < |b.originKeys|
  {
    match FindAttestation(b.attestations, b.originKeys[i].keyId)
    case None => !mandated
    case Some(a) => c.attests(b.originKeys[i], a)
  }

  predicate AttestationsHold(c: Crypto, b: DeploymentBundle, mandated: bool) {
    forall i :: 0 <= i < |b.originKeys| ==> AttestedAt(c, b, mandated, i)
  }

  /** No key listed to the verifier contradicts the bundle about an id. */
  predicate NoDisagreement(c: Crypto, es: seq<KeyEntry>, listed: map<Text, Key>) {
    forall i :: 0 <= i < |es| && es[i].keyId in listed ==> ToKey(c, es[i]) == Some(listed[es[i].keyId])
  }

  /** The bundle is signed by the ops key, in the format known, and enrols usable origin keys under distinct ids. */
  predicate Enrols(c: Crypto, sd: SignedDeployment, ops: Key) {
    var es := sd.bundle.originKeys;
    && c.verifies(ops, c.h.digest(DEPLOYMENT_BUNDLE, c.bundleBytes(sd.bundle)), sd.signature)
    && sd.bundle.format == c.deploymentFormat
    && (forall i :: 0 <= i < |es| ==> es[i].role == OriginRole && Usable(c, es[i]))
    && forall i, j :: 0 <= i < j < |es| ==> es[i].keyId != es[j].keyId
  }

  /** The entry holds an Ed25519 key that decodes. */
  predicate Usable(c: Crypto, e: KeyEntry) {
    e.algo == c.ed25519 && c.decodeKey(e.publicKey).Some?
  }

  /** The bundle enrols its keys, and no listed key contradicts it. */
  predicate BundleHolds(c: Crypto, sd: SignedDeployment, ops: Key, listed: map<Text, Key>) {
    Enrols(c, sd, ops) && NoDisagreement(c, sd.bundle.originKeys, listed)
  }

  lemma EnrolsMeans(c: Crypto, sd: SignedDeployment, ops: Key)
    ensures Enrols(c, sd, ops) <==> VerifyDeployment(c, sd, ops) && ActiveOriginKeys(c, sd.bundle).Some?
  {
    var es := sd.bundle.originKeys;
    forall i | 0 <= i < |es| ensures UsableOrigin(c, es[i]) <==> es[i].role == OriginRole && Usable(c, es[i]) {
    }
  }

  /** There is no bundle, or nobody the caller trusts could have signed it, or it holds and so do its attestations. */
  predicate DeploymentHolds(c: Crypto, d: Option<SignedDeployment>, source: seq<KeyEntry>, listed: map<Text, Key>, mandated: bool) {
    match d
    case None => true
    case Some(sd) =>
      var ops := OpsKey(c, sd, source);
      ops.None? || (BundleHolds(c, sd, ops.value, listed) && AttestationsHold(c, sd.bundle, mandated))
  }

  lemma {:induction false} MergeMeans(c: Crypto, es: seq<KeyEntry>, listed: map<Text, Key>)
    ensures Clean(MergeFindings(c, es, listed)) <==> NoDisagreement(c, es, listed)
  {
    if es != [] {
      var n := |es| - 1;
      var fault := es[n].keyId in listed && Some(listed[es[n].keyId]) != ToKey(c, es[n]);
      MergeMeans(c, es[..n], listed);
      CleanIf(fault, DeploymentBundleInvalid);
      CleanConcat(MergeFindings(c, es[..n], listed), if fault then [Fault(DeploymentBundleInvalid)] else []);
      forall i | 0 <= i < n ensures es[i] == es[..n][i] {
      }
    }
  }

  /** No attestation that was found fails. */
  predicate NoneFails(c: Crypto, b: DeploymentBundle, i: nat)
    requires i < |b.originKeys|
  {
    var a := FindAttestation(b.attestations, b.originKeys[i].keyId);
    a.Some? ==> c.attests(b.originKeys[i], a.value)
  }

  lemma {:induction false} AttestationErrorsMean(c: Crypto, b: DeploymentBundle, n: nat)
    requires n <= |b.originKeys|
    ensures Clean(AttestationErrors(c, b, n)) <==> forall i :: 0 <= i < n ==> NoneFails(c, b, i)
  {
    if n > 0 {
      var e := b.originKeys[n - 1];
      var a := FindAttestation(b.attestations, e.keyId);
      var fault := a.Some? && !c.attests(e, a.value);
      AttestationErrorsMean(c, b, n - 1);
      CleanIf(fault, AttestationInvalid);
      CleanConcat(AttestationErrors(c, b, n - 1), if fault then [Fault(AttestationInvalid)] else []);
      assert fault <==> !NoneFails(c, b, n - 1);
    }
  }

  lemma {:induction false} UnattestedMeans(b: DeploymentBundle, n: nat)
    requires n <= |b.originKeys|
    ensures Unattested(b, n) == 0 <==>
      forall i :: 0 <= i < n ==> FindAttestation(b.attestations, b.originKeys[i].keyId).Some?
  {
    if n > 0 {
      UnattestedMeans(b, n - 1);
    }
  }

  lemma AttestationPassMeans(c: Crypto, b: DeploymentBundle, o: Options)
    ensures Clean(AttestationFindings(c, b, o)) <==> AttestationsHold(c, b, o.requireAttestation)
  {
    var n := |b.originKeys|;
    var x := AttestationErrors(c, b, n);
    var y := if Attested(c, b, n) > 0 then [Warn(AttestationNotRooted)] else [];
    AttestationErrorsMean(c, b, n);
    UnattestedMeans(b, n);
    CleanMissing(Unattested(b, n), o.requireAttestation, IdentityNotAttested);
    CleanConcat(x, y);
    CleanConcat(x + y, Missing(Unattested(b, n), o.requireAttestation, IdentityNotAttested));
    forall i | 0 <= i < n
      ensures AttestedAt(c, b, o.requireAttestation, i) <==>
        NoneFails(c, b, i) && (o.requireAttestation ==> FindAttestation(b.attestations, b.originKeys[i].keyId).Some?)
    {
    }
  }

  /** The deployment pass reports no error exactly when the bundle, if one is carried and its ops key resolves, holds. */
  lemma DeploymentMeans(c: Crypto, d: Option<SignedDeployment>, source: seq<KeyEntry>, listed: map<Text, Key>, o: Options)
    ensures Clean(DeploymentFindings(c, d, source, listed, o)) <==> DeploymentHolds(c, d, source, listed, o.requireAttestation)
  {
    if d.Some? {
      var sd := d.value;
      CleanIf(true, DeploymentBundleInvalid);
      if OpsKey(c, sd, source).Some? {
        EnrolsMeans(c, sd, OpsKey(c, sd, source).value);
      }
      MergeMeans(c, sd.bundle.originKeys, listed);
      AttestationPassMeans(c, sd.bundle, o);
      CleanConcat(MergeFindings(c, sd.bundle.originKeys, listed), AttestationFindings(c, sd.bundle, o));
    }
  }

  // ------------------------------------------------- the whole report

  /** The keys and certificates a pack is judged with are in order. */
  predicate TrustHolds(c: Crypto, ev: Evidence, trusted: seq<KeyEntry>, o: Options) {
    var source := KeySource(ev, trusted);
    && ev.format == c.evidenceFormat
    && (forall i :: 0 <= i < |source| ==> Usable(c, source[i]))
    && DeploymentHolds(c, ev.deployment, source, KeyMap(c, source, OriginRole), o.requireAttestation)
    && CertsHold(c, Identities(c, ev, trusted), ev.chainId, ev.records, o.requireOrigin)
  }

  lemma TrustMeans(c: Crypto, ev: Evidence, trusted: seq<KeyEntry>, o: Options)
    ensures Clean(TrustFindings(c, ev, trusted, o)) <==> TrustHolds(c, ev, trusted, o)
  {
    var source := KeySource(ev, trusted);
    var a := if ev.format != c.evidenceFormat then [Fault(UnknownFormat)] else [];
    var b := if trusted == [] then [Warn(KeysNotAnchored)] else [];
    var d, e := KeyFindings(c, source), DeploymentFindings(c, ev.deployment, source, KeyMap(c, source, OriginRole), o);
    var f := CertFindings(c, Identities(c, ev, trusted), ev.chainId, ev.records, o);
    CleanConcat(a, b);
    CleanConcat(a + b, d);
    CleanConcat(a + b + d, e);
    CleanConcat(a + b + d + e, f);
    CleanIf(ev.format != c.evidenceFormat, UnknownFormat);
    KeyFindingsMeans(c, source);
    DeploymentMeans(c, ev.deployment, source, KeyMap(c, source, OriginRole), o);
    CertPassMeans(c, Identities(c, ev, trusted), ev.chainId, ev.records, o);
  }

  predicate SealHoldsAt(c: Crypto, ev: Evidence, ks: KeySets, i: nat)
    requires i < |ev.checkpoints|
  {
    && SealsSlice(c.h, ev.chainId, Plain(ev.records), PrevHash(c, ev.checkpoints, i), ev.checkpoints[i].checkpoint)
    && SealedByKnownKey(c, ks, ev.checkpoints[i])
  }

  /** Every checkpoint of the evidence seals its own records under a known key. */
  predicate SealsHold(c: Crypto, ev: Evidence, ks: KeySets) {
    forall i :: 0 <= i < |ev.checkpoints| ==> SealHoldsAt(c, ev, ks, i)
  }

  /** What an error-free report asserts. */
  predicate Proven(c: Crypto, ev: Evidence, trusted: seq<KeyEntry>, o: Options) {
    var ks := Resolved(c, ev, trusted);
    && TrustHolds(c, ev, trusted, o)
    && Intact(c.h, Plain(ev.records))
    && OriginHolds(c, ev.chainId, ks, ev.records, o.requireOrigin)
    && SealsHold(c, ev, ks)
    && (forall i :: 0 <= i < |ev.anchors| ==> AnchorHolds(c, ev.checkpoints, ev.anchors[i]))
  }

  lemma CleanSplits(c: Crypto, ev: Evidence, trusted: seq<KeyEntry>, o: Options)
    ensures Clean(AllFindings(c, ev, trusted, o)) <==>
      && Clean(TrustFindings(c, ev, trusted, o))
      && Clean(ChainFindings(c.h, Plain(ev.records), |ev.records|))
      && Clean(OriginFindings(c, ev.chainId, Resolved(c, ev, trusted), ev.records, o))
      && Clean(Seals(c, ev, trusted).findings)
      && Clean(AnchorFindings(c, ev.checkpoints, ev.anchors))
  {
    var a, b, d := TrustFindings(c, ev, trusted, o), RecordFindings(c, ev, trusted, o), Seals(c, ev, trusted).findings;
    var e, f := AnchorFindings(c, ev.checkpoints, ev.anchors), CoverageFindings(c, ev, trusted);
    CleanConcat(a, b);
    CleanConcat(a + b, d);
    CleanConcat(a + b + d, e);
    CleanConcat(a + b + d + e, f);
    var x := if ev.records == [] then [Warn(EmptyPack)] else [];
    var y := ChainFindings(c.h, Plain(ev.records), |ev.records|);
    CleanConcat(x, y);
    CleanConcat(x + y, OriginFindings(c, ev.chainId, Resolved(c, ev, trusted), ev.records, o));
  }

  lemma ReportsMean(c: Crypto, ev: Evidence, ks: KeySets)
    requires Contiguous(c.h, Plain(ev.records))
    ensures var reports := SealReports(c, ev.chainId, ks, Hashed(c, ev), ev.checkpoints);
      AllSilent(reports, |ev.checkpoints|) <==> SealsHold(c, ev, ks)
  {
    var reports := SealReports(c, ev.chainId, ks, Hashed(c, ev), ev.checkpoints);
    forall i | 0 <= i < |ev.checkpoints| ensures reports[i] == [] <==> SealHoldsAt(c, ev, ks, i) {
      CheckpointMeans(c, ev.chainId, ks, Plain(ev.records), ev.checkpoints, i);
    }
  }

  lemma SealsMean(c: Crypto, ev: Evidence, trusted: seq<KeyEntry>)
    requires Contiguous(c.h, Plain(ev.records))
    ensures Clean(Seals(c, ev, trusted).findings) <==> SealsHold(c, ev, Resolved(c, ev, trusted))
    ensures |Seals(c, ev, trusted).intervals| == |ev.checkpoints| <==> SealsHold(c, ev, Resolved(c, ev, trusted))
    ensures SealsHold(c, ev, Resolved(c, ev, trusted)) ==> forall i :: 0 <= i < |ev.checkpoints| ==>
      Seals(c, ev, trusted).intervals[i] == (ev.checkpoints[i].checkpoint.fromSeq, ev.checkpoints[i].checkpoint.toSeq)
  {
    var ks := Resolved(c, ev, trusted);
    var reports := SealReports(c, ev.chainId, ks, Hashed(c, ev), ev.checkpoints);
    forall i | 0 <= i < |ev.checkpoints| ensures Clean(reports[i]) <==> reports[i] == [] {
      CheckpointErrors(c, ev.chainId, ks, Hashed(c, ev), ev.checkpoints, i);
    }
    SealPassMeans(ev.checkpoints, reports, |ev.checkpoints|);
    ReportsMean(c, ev, ks);
  }

  /** A report without errors means exactly this. */
  lemma ErrorFreeMeans(c: Crypto, ev: Evidence, trusted: seq<KeyEntry>, o: Options)
    ensures Clean(Verdict(c, ev, trusted, o).findings) <==> Proven(c, ev, trusted, o)
  {
    CleanSplits(c, ev, trusted, o);
    TrustMeans(c, ev, trusted, o);
    ChainPassMeans(c.h, Plain(ev.records));
    OriginPassMeans(c, ev.chainId, Resolved(c, ev, trusted), ev.records, o);
    AnchorPassMeans(c, ev.checkpoints, ev.anchors);
    if Intact(c.h, Plain(ev.records)) {
      SealsMean(c, ev, trusted);
    }
  }
}
