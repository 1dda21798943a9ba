/** Every honest run verifies: what the passes stored and exported raises no
    error with the independent checker. */
module Completeness {
  import opened Bytes
  import opened Hashing
  import opened Records
  import opened Chain
  import opened Origin
  import opened Pack
  import opened Ledger
  import opened Pass
  import opened Verifier
  import opened Meaning
  import opened History
  import opened Agreement
  import Soundness

  // ------------------------------------------------- keys

  /** In a list with no id twice, every usable entry resolves to its own key. */
  lemma {:induction false} KeyMapAt(c: Crypto, es: seq<KeyEntry>, role: KeyRole, i: nat)
    requires i < |es| && DistinctIds(es) && es[i].role == role && ToKey(c, es[i]).Some?
    ensures es[i].keyId in KeyMap(c, es, role) && KeyMap(c, es, role)[es[i].keyId] == ToKey(c, es[i]).value
  {
    var n := |es| - 1;
    if i < n {
      var pre := es[..n];
      assert pre[i] == es[i];
      KeyMapAt(c, pre, role, i);
    }
  }

  /** The keys a pack is verified with: all usable, no id twice, and the store's sealing keys among them. */
  predicate SourceSound(c: Crypto, st: StoreState, source: seq<KeyEntry>) {
    && DistinctIds(source) && (forall i :: 0 <= i < |source| ==> ToKey(c, source[i]).Some?)
    && (forall k :: k in st.keys ==> k in source)
  }

  /** A seal that resolves in the store resolves for the verifier, to the same key. */
  lemma ResolvesForVerifier(c: Crypto, st: StoreState, source: seq<KeyEntry>, sc: SignedCheckpoint)
    requires KeysSound(c, st) && SourceSound(c, st, source) && SealResolves(c, st.keys, sc)
    ensures var m := KeyMap(c, source, SealRole); sc.checkpoint.keyId in m && VerifySeal(c, sc, m[sc.checkpoint.keyId])
  {
    var k := FindKey(st.keys, sc.checkpoint.keyId).value;
    assert k in source;
    var i :| 0 <= i < |source| && source[i] == k;
    KeyMapAt(c, source, SealRole, i);
  }

  // ------------------------------------------------- coverage

  lemma {:induction false} TilesAll(c: Crypto, st: StoreState, rs: seq<Record>, n: nat, s: int)
    requires n <= |st.checkpoints| && forall k :: 0 <= k < |st.checkpoints| ==> CoversAt(c, st, rs, k)
    requires 0 <= s < NextFrom(st.checkpoints, n)
    ensures exists i :: 0 <= i < n && st.checkpoints[i].checkpoint.fromSeq as int <= s <= st.checkpoints[i].checkpoint.toSeq as int
  {
    assert CoversAt(c, st, rs, n - 1);
    if s < st.checkpoints[n - 1].checkpoint.fromSeq as int {
      TilesAll(c, st, rs, n - 1, s);
    }
  }

  function Below(n: nat): (s: set<Word>)
    requires n <= 0x1_0000_0000_0000_0000
    ensures |s| == n && forall w: Word :: w in s <==> w as int < n
  {
    if n == 0 then {}
    else
      var last: Word := n - 1;
      Below(n - 1) + {last}
  }

  lemma FitsWord(h: Hasher, rs: seq<Record>)
    requires Linked(h, rs)
    ensures |rs| <= 0x1_0000_0000_0000_0000
  {
    if rs != [] {
      SeqIsPosition(h, rs, 0, GENESIS, |rs| - 1);
    }
  }

  lemma SealedBelow(c: Crypto, ev: Evidence, st: StoreState, trusted: seq<KeyEntry>, s: Word)
    requires Covers(c, st, Plain(ev.records)) && ev.checkpoints == st.checkpoints && SealsHold(c, ev, Resolved(c, ev, trusted))
    ensures s in SealedSeqs(c, ev, trusted) <==> s as int < SealedCount(st)
  {
    var rs, n := Plain(ev.records), SealedCount(st);
    Soundness.SealedMeans(c, ev, trusted, s);
    if s as int < n {
      TilesAll(c, st, rs, |st.checkpoints|, s as int);
    }
    if i :| 0 <= i < |st.checkpoints| && st.checkpoints[i].checkpoint.fromSeq <= s <= st.checkpoints[i].checkpoint.toSeq {
      EndsInOrder(c, st, rs, i + 1, |st.checkpoints|);
    }
  }

  /** Exactly the records below the last sealed one count as sealed. */
  lemma SealedExactly(c: Crypto, ev: Evidence, st: StoreState, trusted: seq<KeyEntry>)
    requires Covers(c, st, Plain(ev.records)) && ev.checkpoints == st.checkpoints && SealsHold(c, ev, Resolved(c, ev, trusted))
    ensures |SealedSeqs(c, ev, trusted)| == SealedCount(st)
  {
    var rs, n := Plain(ev.records), SealedCount(st);
    FitsWord(c.h, rs);
    forall s: Word ensures s in SealedSeqs(c, ev, trusted) <==> s in Below(n) {
      SealedBelow(c, ev, st, trusted, s);
    }
    assert SealedSeqs(c, ev, trusted) == Below(n);
  }

  // ------------------------------------------------- export, then verify

  /** Every anchor's token is granted and imprints the checkpoint it names. */
  predicate TokensHold(c: Crypto, anchors: seq<Anchor>) {
    forall i :: 0 <= i < |anchors| ==> c.readToken(anchors[i].tokenHex) == Imprint(anchors[i].checkpointHash)
  }

  lemma WholeRunIntact(h: Hasher, rs: seq<Record>)
    requires Linked(h, rs) && AllUnderstood(rs)
    ensures Intact(h, rs)
  {
  }

  lemma StoreSealsHold(c: Crypto, ev: Evidence, st: StoreState, trusted: seq<KeyEntry>)
    requires Covers(c, st, Plain(ev.records)) && Reopens(c, st) && KeysSound(c, st)
    requires ev.checkpoints == st.checkpoints && ev.chainId == st.chainId
    requires SourceSound(c, st, KeySource(ev, trusted))
    ensures SealsHold(c, ev, Resolved(c, ev, trusted))
  {
    forall i | 0 <= i < |ev.checkpoints| ensures SealHoldsAt(c, ev, Resolved(c, ev, trusted), i) {
      assert CoversAt(c, st, Plain(ev.records), i) && CheckpointOk(c, st, i);
      ResolvesForVerifier(c, st, KeySource(ev, trusted), st.checkpoints[i]);
    }
  }

  lemma StoreAnchorsHold(c: Crypto, st: StoreState)
    requires Reopens(c, st) && TokensHold(c, st.anchors)
    ensures forall i :: 0 <= i < |st.anchors| ==> AnchorHolds(c, st.checkpoints, st.anchors[i])
  {
    forall i | 0 <= i < |st.anchors| ensures AnchorHolds(c, st.checkpoints, st.anchors[i]) {
      assert AnchorOk(c, st.checkpoints, st.anchors[i]);
    }
  }

  /** What is left to the parties a pack comes from, once the ledger has done its part: the bundle, the certificates
      and the origin signatures are in order. */
  predicate OriginsHold(c: Crypto, ev: Evidence, trusted: seq<KeyEntry>, o: Options) {
    var source := KeySource(ev, trusted);
    && DeploymentHolds(c, ev.deployment, source, KeyMap(c, source, OriginRole), o.requireAttestation)
    && CertsHold(c, Identities(c, ev, trusted), ev.chainId, ev.records, o.requireOrigin)
    && OriginHolds(c, ev.chainId, Resolved(c, ev, trusted), ev.records, o.requireOrigin)
  }

  /** The ledger's part of a report on its own export: every seal and every anchor holds. */
  lemma LedgerHolds(c: Crypto, ev: Evidence, st: StoreState, trusted: seq<KeyEntry>)
    requires Covers(c, st, Plain(ev.records)) && AllUnderstood(Plain(ev.records)) && Reopens(c, st) && KeysSound(c, st)
    requires TokensHold(c, st.anchors) && SourceSound(c, st, KeySource(ev, trusted))
    requires ev.checkpoints == st.checkpoints && ev.anchors == st.anchors && ev.chainId == st.chainId
    ensures Intact(c.h, Plain(ev.records)) && SealsHold(c, ev, Resolved(c, ev, trusted))
    ensures forall i :: 0 <= i < |ev.anchors| ==> AnchorHolds(c, ev.checkpoints, ev.anchors[i])
    ensures |Seals(c, ev, trusted).intervals| == |st.checkpoints| && |SealedSeqs(c, ev, trusted)| == SealedCount(st)
    ensures TallyAnchors(c, ev.checkpoints, ev.anchors, |ev.anchors|).ok == |st.anchors|
  {
    WholeRunIntact(c.h, Plain(ev.records));
    StoreSealsHold(c, ev, st, trusted);
    StoreAnchorsHold(c, st);
    SealsMean(c, ev, trusted);
    SealedExactly(c, ev, st, trusted);
    TallyAnchorsMeans(c, ev.checkpoints, ev.anchors, |ev.anchors|);
  }

  /** Completeness. A store whose checkpoints tile a readable log and that reopens, exported and verified under keys
      that include its own: every checkpoint is valid, every anchor holds, exactly the records up to the last seal are counted
      sealed, and the report is free of errors exactly when the origins hold. */
  lemma ExportVerifies(c: Crypto, rs: seq<SignedRecord>, st: StoreState, originKeys: seq<KeyEntry>, deployment: Option<SignedDeployment>,
                       trusted: seq<KeyEntry>, o: Options)
    requires Covers(c, st, Plain(rs)) && AllUnderstood(Plain(rs)) && Reopens(c, st) && KeysSound(c, st)
    requires TokensHold(c, st.anchors)
    requires SourceSound(c, st, KeySource(Export(c, rs, st, originKeys, deployment), trusted))
    ensures var ev := Export(c, rs, st, originKeys, deployment); var report := Verdict(c, ev, trusted, o);
      && report.checkpointsValid == |st.checkpoints| && report.recordsSealed == SealedCount(st)
      && report.recordsTotal == |rs| && report.anchorsOk == |st.anchors|
      && (Clean(report.findings) <==> OriginsHold(c, ev, trusted, o))
  {
    var ev := Export(c, rs, st, originKeys, deployment);
    LedgerHolds(c, ev, st, trusted);
    ErrorFreeMeans(c, ev, trusted, o);
    SourceUsable(c, ev, st, trusted);
  }

  lemma SourceUsable(c: Crypto, ev: Evidence, st: StoreState, trusted: seq<KeyEntry>)
    requires SourceSound(c, st, KeySource(ev, trusted))
    ensures forall i :: 0 <= i < |KeySource(ev, trusted)| ==> Usable(c, KeySource(ev, trusted)[i])
  {
  }

  /** Nothing is lost or added on the way out: the store, the log and the bundle can be read back from the evidence. */
  lemma ExportKeepsAll(c: Crypto, rs: seq<SignedRecord>, st: StoreState, originKeys: seq<KeyEntry>, deployment: Option<SignedDeployment>)
    ensures var ev := Export(c, rs, st, originKeys, deployment); var n := |st.keys|;
      && StoreState(ev.chainId, ev.checkpoints, ev.anchors, ev.keys[..n]) == st
      && ev.records == rs && ev.keys[n..] == originKeys && ev.deployment == deployment && ev.format == c.evidenceFormat
  {
  }

  // ------------------------------------------------- from the first append to the report

  /** A pass over an earlier or later part of one log keeps covering the whole of it; no hash has to be trusted
      for that, since nothing was rewritten. */
  lemma StepCoversLog(c: Crypto, st: StoreState, log: seq<SignedRecord>, call: PassCall)
    requires Covers(c, st, Plain(log)) && call.rs <= log && Linked(c.h, Plain(call.rs))
    ensures Covers(c, Step(c, st, call), Plain(log))
    ensures Step(c, st, call).chainId == st.chainId && Step(c, st, call).anchors == st.anchors
  {
    var st' := Step(c, st, call);
    PassSealsLongestRun(c, call.rs, st, call.sealer, call.policy, call.nowMs, call.minNew);
    if st' != st {
      StartMeans(c, st, call.rs);
      PrefixCovers(c, st, log, call.rs);
      var cut := Authentic(c, call.rs, SealedCount(st), st.chainId, call.policy);
      var sc :| Extends(c, call.rs, SealedCount(st), cut, st, st', call.sealer, sc);
      ExtendKeepsCover(c, call.rs, cut, st, st', call.sealer, sc);
      PrefixCovers(c, st', log, call.rs);
    }
  }

  /** Covering a log and covering one of its prefixes are the same, as long as the prefix holds what is sealed. */
  lemma PrefixCovers(c: Crypto, st: StoreState, log: seq<SignedRecord>, part: seq<SignedRecord>)
    requires part <= log && Linked(c.h, Plain(log)) && Linked(c.h, Plain(part)) && 0 <= SealedCount(st) <= |part|
    ensures Covers(c, st, Plain(log)) <==> Covers(c, st, Plain(part))
  {
    var n := SealedCount(st);
    assert Plain(part)[..n] == Plain(log)[..n];
    if Covers(c, st, Plain(log)) {
      CoversPrefix(c, st, Plain(log), Plain(part));
    }
    if Covers(c, st, Plain(part)) {
      CoversPrefix(c, st, Plain(part), Plain(log));
    }
  }

  /** The passes of one chain: each over some prefix of its log, by a sealer that names its own key. */
  predicate HonestCalls(c: Crypto, calls: seq<PassCall>, log: seq<SignedRecord>) {
    forall i :: 0 <= i < |calls| ==> calls[i].rs <= log && Honest(calls[i].sealer)
  }

  lemma PrefixLinked(h: Hasher, a: seq<SignedRecord>, b: seq<SignedRecord>)
    requires a <= b && Linked(h, Plain(b))
    ensures Linked(h, Plain(a))
  {
    forall i | 0 < i < |a| ensures FollowsAt(h, Plain(a), i) {
      assert FollowsAt(h, Plain(b), i);
    }
  }

  lemma {:induction false} RunCoversLog(c: Crypto, st: StoreState, log: seq<SignedRecord>, calls: seq<PassCall>)
    requires Covers(c, st, Plain(log)) && HonestCalls(c, calls, log) && Reopens(c, st) && KeysSound(c, st)
    ensures var st' := Run(c, st, calls);
      && Covers(c, st', Plain(log)) && Reopens(c, st') && KeysSound(c, st')
      && st'.chainId == st.chainId && st'.anchors == st.anchors
    decreases |calls|
  {
    if calls != [] {
      var call := calls[0];
      assert call.rs <= log && Honest(call.sealer);
      PrefixLinked(c.h, call.rs, log);
      StepCoversLog(c, st, log, call);
      StepReopens(c, st, call);
      RunCoversLog(c, Step(c, st, call), log, calls[1..]);
    }
  }

  /** The store after passes over one chain, from nothing. */
  function StoreAfter(c: Crypto, chainId: Text, calls: seq<PassCall>): StoreState {
    Run(c, StoreState(chainId, [], [], []), calls)
  }

  /** From the first append to the report. Whatever a chain writer appended, whatever passes ran over it and whenever,
      whatever bundle is embedded and whatever keys and options it is verified under: every checkpoint is valid, exactly
      the records up to the last seal are counted sealed, and the report is free of errors exactly when the origins hold. */
  lemma PipelineVerifies(c: Crypto, chainId: Text, log: seq<SignedRecord>, calls: seq<PassCall>, originKeys: seq<KeyEntry>,
                         deployment: Option<SignedDeployment>, trusted: seq<KeyEntry>, o: Options)
    requires Linked(c.h, Plain(log)) && AllUnderstood(Plain(log)) && HonestCalls(c, calls, log)
    requires SourceSound(c, StoreAfter(c, chainId, calls),
                         KeySource(Export(c, log, StoreAfter(c, chainId, calls), originKeys, deployment), trusted))
    ensures var st := StoreAfter(c, chainId, calls); var ev := Export(c, log, st, originKeys, deployment);
      var report := Verdict(c, ev, trusted, o);
      && report.checkpointsValid == |st.checkpoints| && report.recordsSealed == SealedCount(st)
      && (Clean(report.findings) <==> OriginsHold(c, ev, trusted, o))
  {
    var empty := StoreState(chainId, [], [], []);
    assert Covers(c, empty, Plain(log)) && Reopens(c, empty) && KeysSound(c, empty);
    RunCoversLog(c, empty, log, calls);
    ExportVerifies(c, log, StoreAfter(c, chainId, calls), originKeys, deployment, trusted, o);
  }

  // ------------------------------------------------- what passes seal, and what the verifier makes of it

  /** The id a record names, if the verifier holds a key under it, was known to the policy by then: enrolled, or
      certified by this record or an earlier one. */
  predicate Foreseen(c: Crypto, p: OriginPolicy, ks: KeySets, chainId: Text, log: seq<SignedRecord>, i: nat)
    requires i < |log|
  {
    log[i].originKeyId.Some? && Listed(ks, log[i].originKeyId.value) ==>
      || log[i].originKeyId.value in p.trusted
      || exists j :: 0 <= j <= i && Certifies(c, p, chainId, log[j], log[i].originKeyId.value)
  }

  predicate Certifies(c: Crypto, p: OriginPolicy, chainId: Text, sr: SignedRecord, kid: Text) {
    match CertifiedKey(c, p.trusted, chainId, sr) case None => false case Some(k) => KeyIdFor(k) == kid
  }

  predicate AllForeseen(c: Crypto, p: OriginPolicy, ks: KeySets, chainId: Text, log: seq<SignedRecord>) {
    forall i :: 0 <= i < |log| ==> Foreseen(c, p, ks, chainId, log, i)
  }

  /** The pass requires origin, or at least no record surprises it; under the mandate only the first will do. */
  predicate Careful(c: Crypto, call: PassCall, ids: map<Text, Key>, ks: KeySets, chainId: Text, log: seq<SignedRecord>, mandated: bool) {
    Within(call.policy.trusted, ids) && (call.policy.require || (!mandated && AllForeseen(c, call.policy, ks, chainId, log)))
  }

  predicate AllCareful(c: Crypto, calls: seq<PassCall>, ids: map<Text, Key>, ks: KeySets, chainId: Text, log: seq<SignedRecord>, mandated: bool) {
    forall i :: 0 <= i < |calls| ==> Careful(c, calls[i], ids, ks, chainId, log, mandated)
  }

  /** The record raises no origin error; under the mandate it is authentic. */
  predicate Stands(c: Crypto, chainId: Text, ks: KeySets, sr: SignedRecord, mandated: bool) {
    if mandated then OriginOf(c, chainId, ks, sr) == OriginOk else !OriginOf(c, chainId, ks, sr).OriginBad?
  }

  /** So do the first n records of the log. */
  predicate StandsTo(c: Crypto, chainId: Text, ks: KeySets, log: seq<SignedRecord>, n: int, mandated: bool) {
    forall i :: 0 <= i < n && i < |log| ==> Stands(c, chainId, ks, log[i], mandated)
  }

  /** A foreseen id is one the pass knows the key of. */
  lemma ForeseenKnown(c: Crypto, p: OriginPolicy, ks: KeySets, chainId: Text, part: seq<SignedRecord>, log: seq<SignedRecord>, i: nat)
    requires part <= log && i < |part| && Foreseen(c, p, ks, chainId, log, i)
    requires log[i].originKeyId.Some? && Listed(ks, log[i].originKeyId.value)
    ensures KnownTo(p, CertifiedKeys(c, p.trusted, chainId, part), log[i].originKeyId.value).Some?
  {
    var kid := log[i].originKeyId.value;
    if kid !in p.trusted {
      var j :| 0 <= j <= i && Certifies(c, p, chainId, log[j], kid);
      CertifiedListed(c, p.trusted, chainId, part, j);
    }
  }

  lemma AcceptedStands(c: Crypto, call: PassCall, ids: map<Text, Key>, ks: KeySets, chainId: Text, log: seq<SignedRecord>, i: nat, mandated: bool)
    requires call.rs <= log && i < |call.rs| && Careful(c, call, ids, ks, chainId, log, mandated)
    requires ks.originKeys == ids + CertifiedKeys(c, ids, chainId, log) && OneKeyPerId(c, ids, chainId, log)
    requires Acceptable(c, call.rs, chainId, call.policy, i)
    ensures Stands(c, chainId, ks, log[i], mandated)
  {
    if call.policy.require {
      SealedIsAuthentic(c, call.policy, ids, ks, chainId, call.rs, log, log[i]);
    } else {
      SealedBadIs(c, call.policy, ids, ks, chainId, call.rs, log, log[i]);
      assert Foreseen(c, call.policy, ks, chainId, log, i);
      if log[i].originKeyId.Some? && Listed(ks, log[i].originKeyId.value) {
        ForeseenKnown(c, call.policy, ks, chainId, call.rs, log, i);
      }
    }
  }

  /** How a step that changed the store extended it. */
  lemma StepExtends(c: Crypto, st: StoreState, call: PassCall) returns (cut: nat)
    requires Linked(c.h, Plain(call.rs)) && Step(c, st, call) != st
    ensures 0 <= SealedCount(st) && SealedCount(st) + cut <= |call.rs|
    ensures LongestAcceptable(c, call.rs, st.chainId, call.policy, SealedCount(st), cut)
    ensures SealedCount(Step(c, st, call)) == SealedCount(st) + cut
  {
    var st' := Step(c, st, call);
    PassSealsLongestRun(c, call.rs, st, call.sealer, call.policy, call.nowMs, call.minNew);
    StartMeans(c, st, call.rs);
    cut := Authentic(c, call.rs, SealedCount(st), st.chainId, call.policy);
    var sc :| Extends(c, call.rs, SealedCount(st), cut, st, st', call.sealer, sc);
  }

  lemma StepStands(c: Crypto, st: StoreState, log: seq<SignedRecord>, call: PassCall, ids: map<Text, Key>, ks: KeySets, mandated: bool)
    requires call.rs <= log && Linked(c.h, Plain(call.rs)) && Careful(c, call, ids, ks, st.chainId, log, mandated)
    requires ks.originKeys == ids + CertifiedKeys(c, ids, st.chainId, log) && OneKeyPerId(c, ids, st.chainId, log)
    requires StandsTo(c, st.chainId, ks, log, SealedCount(st), mandated)
    ensures StandsTo(c, st.chainId, ks, log, SealedCount(Step(c, st, call)), mandated)
  {
    if Step(c, st, call) != st {
      var start := SealedCount(st);
      var cut := StepExtends(c, st, call);
      forall i | start <= i < start + cut ensures Stands(c, st.chainId, ks, log[i], mandated) {
        assert Acceptable(c, call.rs, st.chainId, call.policy, i);
        AcceptedStands(c, call, ids, ks, st.chainId, log, i, mandated);
      }
    }
  }

  /** Over a run of passes that require origin, or that no record surprises, each harvesting from the prefix it was
      handed, every record sealed so far stands before a verifier that harvests from the whole log. */
  lemma {:induction false} RunStands(c: Crypto, st: StoreState, log: seq<SignedRecord>, calls: seq<PassCall>, ids: map<Text, Key>, ks: KeySets, mandated: bool)
    requires Covers(c, st, Plain(log)) && HonestCalls(c, calls, log) && AllCareful(c, calls, ids, ks, st.chainId, log, mandated)
    requires ks.originKeys == ids + CertifiedKeys(c, ids, st.chainId, log) && OneKeyPerId(c, ids, st.chainId, log)
    requires StandsTo(c, st.chainId, ks, log, SealedCount(st), mandated)
    ensures StandsTo(c, st.chainId, ks, log, SealedCount(Run(c, st, calls)), mandated)
    decreases |calls|
  {
    if calls != [] {
      var call := calls[0];
      assert call.rs <= log && Careful(c, call, ids, ks, st.chainId, log, mandated);
      PrefixLinked(c.h, call.rs, log);
      StepCoversLog(c, st, log, call);
      StepStands(c, st, log, call, ids, ks, mandated);
      RunStands(c, Step(c, st, call), log, calls[1..], ids, ks, mandated);
    }
  }

  /** The records no pass has sealed yet raise no origin error either. */
  predicate UnsealedHolds(c: Crypto, chainId: Text, ks: KeySets, log: seq<SignedRecord>, from: int, mandated: bool) {
    forall i :: 0 <= i < |log| && from <= i ==> Stands(c, chainId, ks, log[i], mandated)
  }

  /** The keys a bundle enrols are among the identities of a verifier whose ops key signed it, unless a listed key
      contradicts it. */
  lemma BundleWithin(c: Crypto, ev: Evidence, trusted: seq<KeyEntry>, ops: Key)
    requires ev.deployment.Some? && OpsKey(c, ev.deployment.value, KeySource(ev, trusted)) == Some(ops)
    requires BundleHolds(c, ev.deployment.value, ops, KeyMap(c, KeySource(ev, trusted), OriginRole))
    ensures var active := ActiveOriginKeys(c, ev.deployment.value.bundle);
      active.Some? && Within(active.value, Identities(c, ev, trusted))
  {
    var es, listed := ev.deployment.value.bundle.originKeys, KeyMap(c, KeySource(ev, trusted), OriginRole);
    var active := KeyMap(c, es, OriginRole);
    forall kid | kid in active ensures kid in active + listed && (active + listed)[kid] == active[kid] {
      KeyMapIds(c, es, OriginRole, kid);
    }
  }

  /** With the bundle in order and the sealed records standing, what is left of the origins. */
  lemma OriginsLeft(c: Crypto, ev: Evidence, trusted: seq<KeyEntry>, o: Options, ops: Key, n: int, mandated: bool)
    requires ev.deployment.Some? && OpsKey(c, ev.deployment.value, KeySource(ev, trusted)) == Some(ops)
    requires BundleHolds(c, ev.deployment.value, ops, KeyMap(c, KeySource(ev, trusted), OriginRole))
    requires StandsTo(c, ev.chainId, Resolved(c, ev, trusted), ev.records, n, mandated) && (o.requireOrigin ==> mandated)
    ensures OriginsHold(c, ev, trusted, o) <==>
      && AttestationsHold(c, ev.deployment.value.bundle, o.requireAttestation)
      && CertsHold(c, Identities(c, ev, trusted), ev.chainId, ev.records, o.requireOrigin)
      && UnsealedHolds(c, ev.chainId, Resolved(c, ev, trusted), ev.records, n, o.requireOrigin)
  {
    StandsRest(c, ev.chainId, Resolved(c, ev, trusted), ev.records, n, mandated, o.requireOrigin);
  }

  lemma StandsRest(c: Crypto, chainId: Text, ks: KeySets, log: seq<SignedRecord>, n: int, sealed: bool, mandated: bool)
    requires StandsTo(c, chainId, ks, log, n, sealed) && (mandated ==> sealed)
    ensures OriginHolds(c, chainId, ks, log, mandated) <==> UnsealedHolds(c, chainId, ks, log, n, mandated)
  {
    forall i | 0 <= i < |log| && i < n ensures Stands(c, chainId, ks, log[i], mandated) {
      assert Stands(c, chainId, ks, log[i], sealed);
    }
    forall i | 0 <= i < |log|
      ensures (if mandated then OriginOf(c, chainId, ks, log[i]) == OriginOk else !OriginOf(c, chainId, ks, log[i]).OriginBad?)
        <==> Stands(c, chainId, ks, log[i], mandated) {
    }
  }

  /** The evidence of a run under a bundle: exported with it, and verified under keys among which its ops key resolves. */
  predicate BundledRun(c: Crypto, chainId: Text, log: seq<SignedRecord>, calls: seq<PassCall>, originKeys: seq<KeyEntry>,
                       signed: SignedDeployment, ops: Key, trusted: seq<KeyEntry>)
  {
    var st := StoreAfter(c, chainId, calls);
    var ev := Export(c, log, st, originKeys, Some(signed));
    var source := KeySource(ev, trusted);
    && Linked(c.h, Plain(log)) && AllUnderstood(Plain(log)) && HonestCalls(c, calls, log)
    && SourceSound(c, st, source)
    && OpsKey(c, signed, source) == Some(ops) && BundleHolds(c, signed, ops, KeyMap(c, source, OriginRole))
    && OneKeyPerId(c, Identities(c, ev, trusted), chainId, log)
    && forall i :: 0 <= i < |calls| ==> ActiveOriginKeys(c, signed.bundle) == Some(calls[i].policy.trusted)
  }

  lemma BundledRunVerifies(c: Crypto, chainId: Text, log: seq<SignedRecord>, calls: seq<PassCall>, originKeys: seq<KeyEntry>,
                           signed: SignedDeployment, ops: Key, trusted: seq<KeyEntry>, o: Options, mandated: bool)
    requires BundledRun(c, chainId, log, calls, originKeys, signed, ops, trusted) && (o.requireOrigin ==> mandated)
    requires var ev := Export(c, log, StoreAfter(c, chainId, calls), originKeys, Some(signed));
      forall i :: 0 <= i < |calls| ==>
        calls[i].policy.require || (!mandated && AllForeseen(c, calls[i].policy, Resolved(c, ev, trusted), chainId, log))
    ensures var st := StoreAfter(c, chainId, calls); var ev := Export(c, log, st, originKeys, Some(signed));
      var ks, report := Resolved(c, ev, trusted), Verdict(c, ev, trusted, o);
      && StandsTo(c, chainId, ks, log, SealedCount(st), mandated)
      && report.checkpointsValid == |st.checkpoints| && report.recordsSealed == SealedCount(st)
      && (Clean(report.findings) <==>
           && AttestationsHold(c, signed.bundle, o.requireAttestation)
           && CertsHold(c, Identities(c, ev, trusted), chainId, log, o.requireOrigin)
           && UnsealedHolds(c, chainId, ks, log, SealedCount(st), o.requireOrigin))
  {
    var empty, st := StoreState(chainId, [], [], []), StoreAfter(c, chainId, calls);
    assert Covers(c, empty, Plain(log)) && Reopens(c, empty) && KeysSound(c, empty);
    RunCoversLog(c, empty, log, calls);
    var ev := Export(c, log, st, originKeys, Some(signed));
    BundleWithin(c, ev, trusted, ops);
    RunStands(c, empty, log, calls, Identities(c, ev, trusted), Resolved(c, ev, trusted), mandated);
    OriginsLeft(c, ev, trusted, o, ops, SealedCount(st), mandated);
    PipelineVerifies(c, chainId, log, calls, originKeys, Some(signed), trusted, o);
  }

  /** Sealing under a mandate, then verifying. Passes that all require origin under the bundle an evidence pack embeds seal
      only records the verifier counts authentic, as long as no id is shared by two keys, enrolled or certified
      anywhere on the final log; so the report is free of errors exactly when the attestations and the certificates
      are in order and the records not yet sealed are. */
  lemma MandatedRunVerifies(c: Crypto, chainId: Text, log: seq<SignedRecord>, calls: seq<PassCall>, originKeys: seq<KeyEntry>,
                            signed: SignedDeployment, ops: Key, trusted: seq<KeyEntry>, o: Options)
    requires BundledRun(c, chainId, log, calls, originKeys, signed, ops, trusted)
    requires forall i :: 0 <= i < |calls| ==> calls[i].policy.require
    ensures var st := StoreAfter(c, chainId, calls); var ev := Export(c, log, st, originKeys, Some(signed));
      var ks, report := Resolved(c, ev, trusted), Verdict(c, ev, trusted, o);
      && (forall i :: 0 <= i < |log| && i < SealedCount(st) ==> OriginOf(c, chainId, ks, log[i]) == OriginOk)
      && report.checkpointsValid == |st.checkpoints| && report.recordsSealed == SealedCount(st)
      && (Clean(report.findings) <==>
           && AttestationsHold(c, signed.bundle, o.requireAttestation)
           && CertsHold(c, Identities(c, ev, trusted), chainId, log, o.requireOrigin)
           && UnsealedHolds(c, chainId, ks, log, SealedCount(st), o.requireOrigin))
  {
    BundledRunVerifies(c, chainId, log, calls, originKeys, signed, ops, trusted, o, true);
    var st := StoreAfter(c, chainId, calls);
    var ks := Resolved(c, Export(c, log, st, originKeys, Some(signed)), trusted);
    forall i | 0 <= i < |log| && i < SealedCount(st) ensures OriginOf(c, chainId, ks, log[i]) == OriginOk {
      assert Stands(c, chainId, ks, log[i], true);
    }
  }

  /** Sealing without the mandate, or with it only at times: as long as every id that a record names, and under which the
      verifier holds a key, was enrolled or certified by then, no sealed record raises an origin error. */
  lemma LenientRunVerifies(c: Crypto, chainId: Text, log: seq<SignedRecord>, calls: seq<PassCall>, originKeys: seq<KeyEntry>,
                           signed: SignedDeployment, ops: Key, trusted: seq<KeyEntry>, o: Options)
    requires BundledRun(c, chainId, log, calls, originKeys, signed, ops, trusted) && !o.requireOrigin
    requires var ev := Export(c, log, StoreAfter(c, chainId, calls), originKeys, Some(signed));
      forall i :: 0 <= i < |calls| ==>
        calls[i].policy.require || AllForeseen(c, calls[i].policy, Resolved(c, ev, trusted), chainId, log)
    ensures var st := StoreAfter(c, chainId, calls); var ev := Export(c, log, st, originKeys, Some(signed));
      var ks, report := Resolved(c, ev, trusted), Verdict(c, ev, trusted, o);
      && (forall i :: 0 <= i < |log| && i < SealedCount(st) ==> !OriginOf(c, chainId, ks, log[i]).OriginBad?)
      && report.checkpointsValid == |st.checkpoints| && report.recordsSealed == SealedCount(st)
      && (Clean(report.findings) <==>
           && AttestationsHold(c, signed.bundle, o.requireAttestation)
           && CertsHold(c, Identities(c, ev, trusted), chainId, log, false)
           && UnsealedHolds(c, chainId, ks, log, SealedCount(st), false))
  {
    BundledRunVerifies(c, chainId, log, calls, originKeys, signed, ops, trusted, o, false);
    var st := StoreAfter(c, chainId, calls);
    var ks := Resolved(c, Export(c, log, st, originKeys, Some(signed)), trusted);
    forall i | 0 <= i < |log| && i < SealedCount(st) ensures !OriginOf(c, chainId, ks, log[i]).OriginBad? {
      assert Stands(c, chainId, ks, log[i], false);
    }
  }

  // ------------------------------------------------- runs nobody signed

  /** The origin signature is absent, or names a key nobody lists. */
  predicate Unresolvable(sr: SignedRecord, keys: seq<KeyEntry>) {
    match (sr.originSig, sr.originKeyId)
    case (None, None) => true
    case (Some(_), Some(kid)) => forall i :: 0 <= i < |keys| ==> keys[i].keyId != kid
    case _ => false
  }

  lemma {:induction false} NoOtherRole(c: Crypto, es: seq<KeyEntry>, role: KeyRole)
    requires forall i :: 0 <= i < |es| ==> es[i].role != role
    ensures KeyMap(c, es, role) == map[]
  {
    if es != [] {
      NoOtherRole(c, es[..|es| - 1], role);
    }
  }

  lemma {:induction false} NoCertified(c: Crypto, chainId: Text, rs: seq<SignedRecord>)
    ensures CertifiedKeys(c, map[], chainId, rs) == map[]
  {
    if rs != [] {
      NoCertified(c, chainId, rs[..|rs| - 1]);
    }
  }

  /** Verified with sealing keys alone, a pack without a deployment bundle resolves no origin key at all. */
  lemma SealKeysOnly(c: Crypto, ev: Evidence, trusted: seq<KeyEntry>, mandated: bool)
    requires trusted != [] && ev.deployment == None && forall i :: 0 <= i < |trusted| ==> trusted[i].role == SealRole
    requires !mandated && forall i :: 0 <= i < |ev.records| ==> Unresolvable(ev.records[i], trusted)
    ensures CertsHold(c, Identities(c, ev, trusted), ev.chainId, ev.records, mandated)
    ensures OriginHolds(c, ev.chainId, Resolved(c, ev, trusted), ev.records, mandated)
  {
    NoOtherRole(c, trusted, OriginRole);
    NoOtherRole(c, trusted, OpsRole);
    NoCertified(c, ev.chainId, ev.records);
    assert Identities(c, ev, trusted) == map[];
    var ks := Resolved(c, ev, trusted);
    assert ks == KeySets(KeyMap(c, trusted, SealRole), map[], map[]);
    forall i | 0 <= i < |ev.records| ensures !OriginOf(c, ev.chainId, ks, ev.records[i]).OriginBad? {
      if ev.records[i].originKeyId.Some? {
        KeyMapIds(c, trusted, SealRole, ev.records[i].originKeyId.value);
      }
    }
  }

  /** A chain whose records carry no signature anyone can resolve, verified under the store's own sealing keys with
      nothing mandated, raises no error. */
  lemma UnsignedRunVerifies(c: Crypto, chainId: Text, log: seq<SignedRecord>, calls: seq<PassCall>, originKeys: seq<KeyEntry>)
    requires Linked(c.h, Plain(log)) && AllUnderstood(Plain(log)) && HonestCalls(c, calls, log)
    requires var keys := StoreAfter(c, chainId, calls).keys;
      keys != [] && forall i :: 0 <= i < |log| ==> Unresolvable(log[i], keys)
    ensures var st := StoreAfter(c, chainId, calls);
      var report := Verdict(c, Export(c, log, st, originKeys, None), st.keys, Options(false, false));
      Clean(report.findings) && report.recordsSealed == SealedCount(st) && report.checkpointsValid == |st.checkpoints|
  {
    var empty, st := StoreState(chainId, [], [], []), StoreAfter(c, chainId, calls);
    assert Covers(c, empty, Plain(log)) && Reopens(c, empty) && KeysSound(c, empty);
    RunCoversLog(c, empty, log, calls);
    SealKeysOnly(c, Export(c, log, st, originKeys, None), st.keys, false);
    PipelineVerifies(c, chainId, log, calls, originKeys, None, st.keys, Options(false, false));
  }
}
