/** `pass.rs`: one sealing pass over the log, and the evidence it exports. */
module Pass {
  import opened Bytes
  import opened Hashing
  import opened Records
  import opened Chain
  import opened Origin
  import opened Pack
  import opened Ledger

  /** Which origin keys the ledger accepts, and how strictly. */
  datatype OriginPolicy = OriginPolicy(trusted: map<Text, Key>, require: bool, bundle: Option<SignedDeployment>)

  /** `OriginPolicy::from_bundle`. */
  method PolicyFromBundle(c: Crypto, signed: SignedDeployment, ops: Key, require: bool) returns (r: Option<OriginPolicy>)
    ensures r.Some? <==>
      (VerifyDeployment(c, signed, ops) && ActiveOriginKeys(c, signed.bundle).Some?
       && !(require && ActiveOriginKeys(c, signed.bundle).value == map[]))
    ensures r.Some? ==> r.value == OriginPolicy(ActiveOriginKeys(c, signed.bundle).value, require, Some(signed))
  {
    if !VerifyDeployment(c, signed, ops) {
      return None;
    }
    var active := CollectActive(c, signed.bundle);
    if active.None? || (require && active.value == map[]) {
      return None;
    }
    return Some(OriginPolicy(active.value, require, Some(signed)));
  }

  datatype Refusal = NoSignature | NotTrusted | Invalid | HalfSigned

  /** `OriginPolicy::refusal`: why a record may not be sealed, or nothing if it may. */
  function RefusalOf(c: Crypto, p: OriginPolicy, chainId: Text, sr: SignedRecord, session: map<Text, Key>): Option<Refusal> {
    match (sr.originSig, sr.originKeyId)
    case (None, None) => if p.require then Some(NoSignature) else None
    case (Some(_), Some(kid)) =>
      if kid in p.trusted then
        if VerifyOrigin(c, chainId, sr, p.trusted[kid]) then None else Some(Invalid)
      else if kid in session then
        if VerifyOrigin(c, chainId, sr, session[kid]) then None else Some(Invalid)
      else if p.require then Some(NotTrusted) else None
    case _ => Some(HalfSigned)
  }

  /** The key an id names to the sealer: one the bundle enrols, or else one the chain certifies. */
  function KnownTo(p: OriginPolicy, session: map<Text, Key>, kid: Text): Option<Key> {
    if kid in p.trusted then Some(p.trusted[kid]) else if kid in session then Some(session[kid]) else None
  }

  /** What any policy accepts, requiring or not: a record without a signature, or one whose id names no key, only when it
      does not require origin; a record whose id names a key, only when that key signed it; half a signature never. */
  lemma RefusalMeans(c: Crypto, p: OriginPolicy, chainId: Text, sr: SignedRecord, session: map<Text, Key>)
    ensures var why := RefusalOf(c, p, chainId, sr, session);
      match sr.originKeyId
      case None =>
        (why.None? <==> sr.originSig.None? && !p.require) && (why == Some(HalfSigned) <==> sr.originSig.Some?)
      case Some(kid) =>
        (why == Some(HalfSigned) <==> sr.originSig.None?)
        && (why.None? <==> sr.originSig.Some? && match KnownTo(p, session, kid)
                                                case Some(key) => SignedBy(c, chainId, sr, key)
                                                case None => !p.require)
        && (why == Some(Invalid) <==> sr.originSig.Some? && KnownTo(p, session, kid).Some?
                                      && !SignedBy(c, chainId, sr, KnownTo(p, session, kid).value))
  {
  }

  /** A signing boundary: what it signs with, and the public half it claims. */
  datatype Sealer = Sealer(keyId: Text, entry: KeyEntry, sign: seq<Byte> -> Option<Text>)

  /** `sign_checkpoint`: sign, then re-verify under the sealer's own public key. */
  function SignCheckpoint(c: Crypto, cp: Checkpoint, sealer: Sealer): Option<SignedCheckpoint> {
    match sealer.sign(c.h.checkpoint(cp))
    case None => None
    case Some(sig) =>
      var sc := SignedCheckpoint(cp, sig);
      match ToKey(c, sealer.entry)
      case None => None
      case Some(vk) => if VerifySeal(c, sc, vk) then Some(sc) else None
  }

  datatype PassResult =
    | Sealed(sc: SignedCheckpoint)
    | NothingToSeal
    | UnreadablePayload(at: Word)
    | TruncatedLog
    | DivergedLog(sealedTo: Word)
    | SealingFailed
    | Unauthenticated(seqNo: Word, reason: Refusal, prefixSealedTo: Option<Word>)

  // ------------------------------------------------- the pass as a function

  /** The first record that satisfies p, or the length. */
  function FirstIndex<T>(s: seq<T>, p: T -> bool): (i: nat)
    ensures i <= |s|
    ensures forall j :: 0 <= j < i ==> !p(s[j])
    ensures i < |s| ==> p(s[i])
  {
    if s == [] || p(s[0]) then 0
    else
      var i := FirstIndex(s[1..], p);
      assert forall j :: 0 < j < 1 + i ==> !p(s[j]) by {
        forall j | 0 < j < 1 + i ensures !p(s[j]) {
          assert s[j] == s[1..][j - 1];
        }
      }
      1 + i
  }

  /** Where the unsealed suffix starts, if the log still holds the sealed head. */
  function UnsealedStart(c: Crypto, rs: seq<SignedRecord>, st: StoreState): Result<nat, PassResult> {
    if st.checkpoints == [] then Ok(0)
    else
      var last := st.checkpoints[|st.checkpoints| - 1].checkpoint;
      if last.toSeq as int >= |rs| then Err(TruncatedLog)
      else if c.h.record(rs[last.toSeq].record) != last.headHash then Err(DivergedLog(last.toSeq))
      else Ok(last.toSeq as int + 1)
  }

  /** The pass over a log whose positions are its sequence numbers: new store contents, and what is returned. */
  function PassSpec(c: Crypto, rs: seq<SignedRecord>, st: StoreState, sealer: Sealer, p: OriginPolicy,
                    nowMs: SignedWord, minNew: nat): (StoreState, PassResult)
  {
    var unread := FirstIndex(rs, (r: SignedRecord) => !IsUnderstood(r.record.payload));
    if unread < |rs| then (st, UnreadablePayload(rs[unread].record.seqNo))
    else
      match UnsealedStart(c, rs, st)
      case Err(e) => (st, e)
      case Ok(start) => SealSuffix(c, rs, start, st, sealer, p, nowMs, minNew)
  }

  /** How much of the unsealed suffix is authentic. */
  function Authentic(c: Crypto, rs: seq<SignedRecord>, start: nat, chainId: Text, p: OriginPolicy): (cut: nat)
    requires start <= |rs|
    ensures cut <= |rs| - start
  {
    var session := CertifiedKeys(c, p.trusted, chainId, rs);
    FirstIndex(rs[start..], sr => RefusalOf(c, p, chainId, sr, session).Some?)
  }

  function SealSuffix(c: Crypto, rs: seq<SignedRecord>, start: nat, st: StoreState, sealer: Sealer, p: OriginPolicy,
                      nowMs: SignedWord, minNew: nat): (StoreState, PassResult)
    requires start <= |rs|
  {
    var cut := Authentic(c, rs, start, st.chainId, p);
    var blocked := StoppedBy(c, rs, start + cut, st.chainId, p);
    if cut == 0 || (blocked.None? && cut < Batch(minNew)) then (st, Conclude(Ok(None), blocked))
    else
      var (st', sealed) := SealPrefix(c, rs[start..start + cut], st, sealer, nowMs);
      (st', Conclude(sealed, blocked))
  }

  /** At least one record makes a batch. */
  function Batch(minNew: nat): nat {
    if minNew > 1 then minNew else 1
  }

  /** The record that stops the seal at position i, and why. */
  function StoppedBy(c: Crypto, rs: seq<SignedRecord>, i: nat, chainId: Text, p: OriginPolicy): Option<(Word, Refusal)>
    requires i <= |rs|
  {
    if i == |rs| then None
    else
      match RefusalOf(c, p, chainId, rs[i], CertifiedKeys(c, p.trusted, chainId, rs))
      case Some(why) => Some((rs[i].record.seqNo, why))
      case None => None
  }

  /** What the pass answers once the authentic run has, or has not, been sealed. */
  function Conclude(sealed: Result<Option<SignedCheckpoint>, ()>, blocked: Option<(Word, Refusal)>): PassResult {
    match sealed
    case Err(_) => SealingFailed
    case Ok(sc) =>
      if blocked.Some? then
        Unauthenticated(blocked.value.0, blocked.value.1, if sc.Some? then Some(sc.value.checkpoint.toSeq) else None)
      else if sc.Some? then Sealed(sc.value) else NothingToSeal
  }

  /** Seal a run of records and store the checkpoint. */
  function SealPrefix(c: Crypto, run: seq<SignedRecord>, st: StoreState, sealer: Sealer, nowMs: SignedWord)
    : (StoreState, Result<Option<SignedCheckpoint>, ()>)
  {
    match SealOf(c.h, st.chainId, Plain(run), PrevHash(c, st.checkpoints, |st.checkpoints|), nowMs, sealer.keyId)
    case Err(_) => (st, Err(()))
    case Ok(cp) =>
      match SignCheckpoint(c, cp, sealer)
      case None => (st, Err(()))
      case Some(sc) =>
        var (st', r) := AppendCheckpointSpec(c, st, sc, sealer.entry);
        (st', if r.Ok? then Ok(Some(sc)) else Err(()))
  }

  // ------------------------------------------------- the pass as the source runs it

  /** `seal_pass`. The log reader has already checked the chain from genesis. */
  method SealPass(rs: seq<SignedRecord>, store: Store, sealer: Sealer, p: OriginPolicy, nowMs: SignedWord, minNew: nat)
    returns (r: PassResult)
    requires store.c.h.Valid() && Linked(store.c.h, Plain(rs))
    modifies store
    ensures (store.Contents(), r) == PassSpec(store.c, rs, old(store.Contents()), sealer, p, nowMs, minNew)
  {
    var c := store.c;
    ghost var st := store.Contents();
    var unread := FirstIndex(rs, (x: SignedRecord) => !IsUnderstood(x.record.payload));
    if unread < |rs| {
      return UnreadablePayload(rs[unread].record.seqNo);
    }
    var start := 0;
    if store.checkpoints != [] {
      var last := store.checkpoints[|store.checkpoints| - 1].checkpoint;
      var idx := FindSeq(c.h, rs, last.toSeq);
      if idx.None? {
        return TruncatedLog;
      }
      var h := c.h.HashRecord(rs[idx.value].record);
      if h != last.headHash {
        return DivergedLog(last.toSeq);
      }
      start := idx.value + 1;
    }
    assert UnsealedStart(c, rs, st) == Ok(start);
    r := SealFrom(rs, start, store, sealer, p, nowMs, minNew);
  }

  /** Looking a sequence number up in a log whose positions are its sequence numbers. */
  method FindSeq(h: Hasher, rs: seq<SignedRecord>, target: Word) returns (i: Option<nat>)
    requires Linked(h, Plain(rs))
    ensures i == if target as int < |rs| then Some(target as int) else None
  {
    forall j | 0 <= j < |rs| ensures rs[j].record.seqNo as int == j {
      SeqIsPosition(h, Plain(rs), 0, GENESIS, j);
    }
    assert target as int < |rs| ==> rs[target].record.seqNo == target;
    if k :| 0 <= k < |rs| && rs[k].record.seqNo == target {
      return Some(k);
    }
    return None;
  }

  /** The suffix is sealed, or left, as the run found and what ends it decide. */
  lemma SuffixUnfolds(c: Crypto, rs: seq<SignedRecord>, start: nat, st: StoreState, sealer: Sealer, p: OriginPolicy,
                      nowMs: SignedWord, minNew: nat, cut: nat, blocked: Option<(Word, Refusal)>)
    requires start + cut <= |rs|
    requires cut == Authentic(c, rs, start, st.chainId, p) && blocked == StoppedBy(c, rs, start + cut, st.chainId, p)
    ensures SealSuffix(c, rs, start, st, sealer, p, nowMs, minNew)
      == if cut == 0 || (blocked.None? && cut < Batch(minNew)) then (st, Conclude(Ok(None), blocked))
         else (SealPrefix(c, rs[start..start + cut], st, sealer, nowMs).0,
               Conclude(SealPrefix(c, rs[start..start + cut], st, sealer, nowMs).1, blocked))
  {
  }

  method SealFrom(rs: seq<SignedRecord>, start: nat, store: Store, sealer: Sealer, p: OriginPolicy, nowMs: SignedWord, minNew: nat)
    returns (r: PassResult)
    requires store.c.h.Valid() && start <= |rs|
    modifies store
    ensures (store.Contents(), r) == SealSuffix(store.c, rs, start, old(store.Contents()), sealer, p, nowMs, minNew)
  {
    var c := store.c;
    var cut, blocked := FindBlock(c, rs, start, store.chainId, p);
    SuffixUnfolds(c, rs, start, store.Contents(), sealer, p, nowMs, minNew, cut, blocked);
    if cut == 0 || (blocked.None? && cut < Batch(minNew)) {
      return Conclude(Ok(None), blocked);
    }
    var done := SealRun(rs[start..start + cut], store, sealer, nowMs);
    return Conclude(done, blocked);
  }

  /** How long the authentic run is, and what ends it. */
  method FindBlock(c: Crypto, rs: seq<SignedRecord>, start: nat, chainId: Text, p: OriginPolicy)
    returns (cut: nat, blocked: Option<(Word, Refusal)>)
    requires start <= |rs|
    ensures cut == Authentic(c, rs, start, chainId, p) && blocked == StoppedBy(c, rs, start + cut, chainId, p)
  {
    // Session certificates live at the chain top, so trust is harvested from the whole chain.
    var session := HarvestCertified(c, p.trusted, chainId, rs);
    var unsealed := rs[start..];
    cut := FirstRefused(c, p, chainId, unsealed, session);
    blocked := None;
    if cut < |unsealed| {
      var why := RefusalOf(c, p, chainId, unsealed[cut], session);
      blocked := Some((unsealed[cut].record.seqNo, why.value));
    }
  }

  method FirstRefused(c: Crypto, p: OriginPolicy, chainId: Text, rs: seq<SignedRecord>, session: map<Text, Key>) returns (cut: nat)
    ensures cut == FirstIndex(rs, sr => RefusalOf(c, p, chainId, sr, session).Some?)
  {
    cut := 0;
    while cut < |rs| && RefusalOf(c, p, chainId, rs[cut], session).None?
      invariant 0 <= cut <= |rs|
      invariant forall j :: 0 <= j < cut ==> RefusalOf(c, p, chainId, rs[j], session).None?
    {
      cut := cut + 1;
    }
  }

  method SealRun(run: seq<SignedRecord>, store: Store, sealer: Sealer, nowMs: SignedWord)
    returns (r: Result<Option<SignedCheckpoint>, ()>)
    requires store.c.h.Valid()
    modifies store
    ensures (store.Contents(), r) == SealPrefix(store.c, run, old(store.Contents()), sealer, nowMs)
  {
    var c := store.c;
    var plain := Plain(run);
    var prev := store.LastHash();
    var cp := SealInterval(c.h, store.chainId, plain, prev, nowMs, sealer.keyId);
    if cp.Err? {
      return Err(());
    }
    var signed := SignCheckpoint(c, cp.value, sealer);
    if signed.None? {
      return Err(());
    }
    var done := store.AppendCheckpoint(signed.value, sealer.entry);
    return if done.Ok? then Ok(Some(signed.value)) else Err(());
  }

  /** `export`: the store, the records and the reading keys, nothing filtered. */
  function Export(c: Crypto, rs: seq<SignedRecord>, st: StoreState, originKeys: seq<KeyEntry>, deployment: Option<SignedDeployment>): Evidence {
    Evidence(c.evidenceFormat, st.chainId, rs, st.checkpoints, st.keys + originKeys, st.anchors, deployment)
  }
}
