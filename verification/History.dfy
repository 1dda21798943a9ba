/** Runs of sealing passes: what every pass keeps, whatever log it is handed. */
module History {
  import opened Bytes
  import opened Canonical
  import opened Hashing
  import opened Records
  import opened Chain
  import opened Origin
  import opened Pack
  import opened Ledger
  import opened Pass
  import opened Meaning

  /** How many records the store's checkpoints cover. */
  function SealedCount(st: StoreState): (n: int) {
    NextFrom(st.checkpoints, |st.checkpoints|)
  }

  predicate CoversAt(c: Crypto, st: StoreState, rs: seq<Record>, i: nat)
    requires i < |st.checkpoints|
  {
    var cp := st.checkpoints[i].checkpoint;
    && cp.fromSeq as int == NextFrom(st.checkpoints, i)
    && SealsSlice(c.h, st.chainId, rs, PrevHash(c, st.checkpoints, i), cp)
  }

  /** The store's checkpoints tile the first records of a readable, well-linked log with no gap and no overlap:
      each starts where the one before ended, and is the seal of its records. */
  predicate Covers(c: Crypto, st: StoreState, rs: seq<Record>) {
    && Linked(c.h, rs) && 0 <= SealedCount(st) <= |rs|
    && AllUnderstood(rs[..SealedCount(st)])
    && (forall i :: 0 <= i < |st.checkpoints| ==> CoversAt(c, st, rs, i))
  }

  /** Intervals end in order, so none reaches past what the store covers. */
  lemma {:induction false} EndsInOrder(c: Crypto, st: StoreState, rs: seq<Record>, i: nat, j: nat)
    requires forall k :: 0 <= k < |st.checkpoints| ==> CoversAt(c, st, rs, k)
    requires i <= j <= |st.checkpoints|
    ensures NextFrom(st.checkpoints, i) <= NextFrom(st.checkpoints, j)
  {
    if i < j {
      EndsInOrder(c, st, rs, i, j - 1);
      assert CoversAt(c, st, rs, j - 1);
    }
  }

  lemma StartsAtZero(h: Hasher, rs: seq<Record>)
    requires Linked(h, rs) && rs != []
    ensures rs[0].seqNo == 0
  {
  }

  /** Two logs that agree up to the end of an interval give it the same seal. */
  lemma SliceAgrees(h: Hasher, a: seq<Record>, b: seq<Record>, n: nat, chainId: Text, prev: Option<Hash>, cp: Checkpoint)
    requires Linked(h, a) && Linked(h, b) && n <= |a| && n <= |b| && a[..n] == b[..n]
    requires cp.toSeq as int < n && SealsSlice(h, chainId, a, prev, cp)
    ensures SealsSlice(h, chainId, b, prev, cp)
  {
    var f, t := cp.fromSeq as int, cp.toSeq as int + 1;
    StartsAtZero(h, a);
    StartsAtZero(h, b);
    assert a[f..t] == a[..n][f..t] && b[f..t] == b[..n][f..t];
  }

  /** A store that covers one log covers any other that begins with the same sealed records. */
  lemma CoversPrefix(c: Crypto, st: StoreState, a: seq<Record>, b: seq<Record>)
    requires Covers(c, st, a) && Linked(c.h, b)
    requires SealedCount(st) <= |b| && a[..SealedCount(st)] == b[..SealedCount(st)]
    ensures Covers(c, st, b)
  {
    forall i | 0 <= i < |st.checkpoints| ensures CoversAt(c, st, b, i) {
      assert CoversAt(c, st, a, i);
      EndsInOrder(c, st, a, i + 1, |st.checkpoints|);
      SliceAgrees(c.h, a, b, SealedCount(st), st.chainId, PrevHash(c, st.checkpoints, i), st.checkpoints[i].checkpoint);
    }
  }

  // ------------------------------------------------- the boundary check

  /** The sealed head: the hash of the last covered record. */
  lemma BoundaryHash(c: Crypto, st: StoreState, rs: seq<Record>)
    requires Covers(c, st, rs) && st.checkpoints != []
    ensures SealedCount(st) > 0
    ensures c.h.record(rs[SealedCount(st) - 1]) == st.checkpoints[|st.checkpoints| - 1].checkpoint.headHash
  {
    assert CoversAt(c, st, rs, |st.checkpoints| - 1);
    StartsAtZero(c.h, rs);
  }

  /** The pass compares one hash, at the boundary. It accepts the log exactly when the log still begins with
      every record ever sealed, or two of the record encodings collide. */
  lemma BoundaryPins(c: Crypto, st: StoreState, was: seq<Record>, rs: seq<SignedRecord>, inputs: set<Input>)
    requires c.h.Valid() && Covers(c, st, was) && Linked(c.h, Plain(rs))
    requires AllEncodable(was) && AllEncodable(Plain(rs))
    requires CollisionFree(c.h.digest, inputs) && RecordInputs(was) <= inputs && RecordInputs(Plain(rs)) <= inputs
    ensures UnsealedStart(c, rs, st).Ok? <==>
      (SealedCount(st) <= |rs| && Plain(rs)[..SealedCount(st)] == was[..SealedCount(st)])
    ensures UnsealedStart(c, rs, st).Ok? ==> UnsealedStart(c, rs, st).value == SealedCount(st)
  {
    StartMeans(c, st, rs);
    if st.checkpoints != [] {
      BoundaryHash(c, st, was);
      if SealedCount(st) <= |rs| {
        HeadPins(c.h, Plain(rs), was, SealedCount(st), inputs);
      }
    }
  }

  lemma StartMeans(c: Crypto, st: StoreState, rs: seq<SignedRecord>)
    ensures var n := SealedCount(st);
      && (UnsealedStart(c, rs, st).Ok? ==> UnsealedStart(c, rs, st).value == n)
      && (UnsealedStart(c, rs, st).Ok? <==>
           st.checkpoints == []
           || (n <= |rs| && c.h.record(Plain(rs)[n - 1]) == st.checkpoints[|st.checkpoints| - 1].checkpoint.headHash))
  {
  }

  /** In two logs anchored on genesis, the hash at one position decides whether everything up to it is equal. */
  lemma HeadPins(h: Hasher, a: seq<Record>, b: seq<Record>, n: nat, inputs: set<Input>)
    requires Linked(h, a) && Linked(h, b) && AllEncodable(a) && AllEncodable(b) && 0 < n <= |a| && n <= |b|
    requires h.Valid() && CollisionFree(h.digest, inputs) && RecordInputs(a) <= inputs && RecordInputs(b) <= inputs
    ensures h.record(a[n - 1]) == h.record(b[n - 1]) <==> a[..n] == b[..n]
  {
    if a[..n] == b[..n] {
      assert a[n - 1] == a[..n][n - 1] && b[n - 1] == b[..n][n - 1];
    }
    if h.record(a[n - 1]) == h.record(b[n - 1]) {
      PrefixPinned(h, a, b, n - 1, inputs);
    }
  }

  // ------------------------------------------------- one pass

  /** What a successful seal adds: the checkpoint over exactly the run it was given. */
  predicate Extends(c: Crypto, rs: seq<SignedRecord>, start: nat, cut: nat, st: StoreState, st': StoreState, sealer: Sealer,
                    sc: SignedCheckpoint)
  {
    && AppendCheckpointSpec(c, st, sc, sealer.entry) == (st', Ok(()))
    && st'.checkpoints == st.checkpoints + [sc] && st'.anchors == st.anchors && st'.chainId == st.chainId
    && RecordKey(st.keys, sealer.entry).Ok? && st'.keys == RecordKey(st.keys, sealer.entry).value
    && ToKey(c, sealer.entry).Some? && VerifySeal(c, sc, ToKey(c, sealer.entry).value)
    && sc.checkpoint.keyId == sealer.keyId
    && sc.checkpoint.fromSeq as int == start && sc.checkpoint.toSeq as int == start + cut - 1
    && SealsSlice(c.h, st.chainId, Plain(rs), PrevHash(c, st.checkpoints, |st.checkpoints|), sc.checkpoint)
  }

  lemma RunSeal(h: Hasher, rs: seq<Record>, start: nat, cut: nat, chainId: Text, prev: Option<Hash>, nowMs: SignedWord, keyId: Text)
    requires Linked(h, rs) && 0 < cut && start + cut <= |rs|
    ensures var s := SealOf(h, chainId, rs[start..start + cut], prev, nowMs, keyId);
      && s.Ok? && s.value.fromSeq as int == start && s.value.toSeq as int == start + cut - 1
      && s.value.chainId == chainId && s.value.prevCheckpointHash == prev && s.value.keyId == keyId
      && s.value.tsMs == nowMs
  {
    SliceContiguous(h, rs, start, start + cut);
    SeqIsPosition(h, rs, 0, GENESIS, start);
    SeqIsPosition(h, rs, 0, GENESIS, start + cut - 1);
  }

  lemma RunSealsSlice(h: Hasher, rs: seq<Record>, start: nat, cut: nat, chainId: Text, prev: Option<Hash>, cp: Checkpoint)
    requires Linked(h, rs) && 0 < cut && start + cut <= |rs|
    requires SealOf(h, chainId, rs[start..start + cut], prev, cp.tsMs, cp.keyId) == Ok(cp)
    requires cp.fromSeq as int == start && cp.toSeq as int == start + cut - 1
    ensures SealsSlice(h, chainId, rs, prev, cp)
  {
    StartsAtZero(h, rs);
  }

  /** Sealing a run either fails and leaves the store as it was, or adds the seal of that run. */
  lemma SealPrefixAdds(c: Crypto, rs: seq<SignedRecord>, start: nat, cut: nat, st: StoreState, sealer: Sealer, nowMs: SignedWord)
    requires Linked(c.h, Plain(rs)) && 0 < cut && start + cut <= |rs| && start == SealedCount(st)
    ensures var (st', r) := SealPrefix(c, rs[start..start + cut], st, sealer, nowMs);
      && (r.Err? ==> st' == st)
      && (r.Ok? ==> r.value.Some? && Extends(c, rs, start, cut, st, st', sealer, r.value.value))
  {
    var prev := PrevHash(c, st.checkpoints, |st.checkpoints|);
    assert Plain(rs[start..start + cut]) == Plain(rs)[start..start + cut];
    RunSeal(c.h, Plain(rs), start, cut, st.chainId, prev, nowMs, sealer.keyId);
    var cp := SealOf(c.h, st.chainId, Plain(rs)[start..start + cut], prev, nowMs, sealer.keyId).value;
    RunSealsSlice(c.h, Plain(rs), start, cut, st.chainId, prev, cp);
  }

  /** The record may be sealed under the policy. */
  predicate Acceptable(c: Crypto, rs: seq<SignedRecord>, chainId: Text, p: OriginPolicy, i: nat)
    requires i < |rs|
  {
    RefusalOf(c, p, chainId, rs[i], CertifiedKeys(c, p.trusted, chainId, rs)).None?
  }

  /** The run from start is the longest acceptable one. */
  predicate LongestAcceptable(c: Crypto, rs: seq<SignedRecord>, chainId: Text, p: OriginPolicy, start: nat, cut: nat)
    requires start + cut <= |rs|
  {
    && (forall i :: start <= i < start + cut ==> Acceptable(c, rs, chainId, p, i))
    && (start + cut < |rs| ==> !Acceptable(c, rs, chainId, p, start + cut))
  }

  lemma AuthenticIsLongest(c: Crypto, rs: seq<SignedRecord>, start: nat, chainId: Text, p: OriginPolicy)
    requires start <= |rs|
    ensures LongestAcceptable(c, rs, chainId, p, start, Authentic(c, rs, start, chainId, p))
  {
    var cut := Authentic(c, rs, start, chainId, p);
    forall i | start <= i < start + cut ensures Acceptable(c, rs, chainId, p, i) {
      assert rs[start..][i - start] == rs[i];
    }
    if start + cut < |rs| {
      assert rs[start..][cut] == rs[start + cut];
    }
  }

  /** The run is worth a checkpoint: something is ready and either a refusal ends it or the batch is full. */
  predicate WorthSealing(rs: seq<SignedRecord>, start: nat, cut: nat, minNew: nat) {
    cut > 0 && (start + cut < |rs| || cut >= minNew)
  }

  /** The store gained one checkpoint over the run, and the answer names it. */
  ghost predicate Reported(c: Crypto, rs: seq<SignedRecord>, start: nat, cut: nat, st: StoreState, st': StoreState, sealer: Sealer,
                           r: PassResult)
  {
    exists sc :: Extends(c, rs, start, cut, st, st', sealer, sc)
      && r == if start + cut == |rs| then Sealed(sc)
              else if r.Unauthenticated? then r.(prefixSealedTo := Some(sc.checkpoint.toSeq)) else NothingToSeal
  }

  /** A pass over a well-linked log touches the store only to add one checkpoint over exactly the longest
      acceptable run after what is sealed, and does so whenever that run is worth a seal and sealing succeeds. */
  lemma PassSealsLongestRun(c: Crypto, rs: seq<SignedRecord>, st: StoreState, sealer: Sealer, p: OriginPolicy, nowMs: SignedWord, minNew: nat)
    requires Linked(c.h, Plain(rs))
    ensures var (st', r) := PassSpec(c, rs, st, sealer, p, nowMs, minNew);
      st' != st ==>
        && AllUnderstood(Plain(rs)) && UnsealedStart(c, rs, st) == Ok(SealedCount(st))
        && var cut := Authentic(c, rs, SealedCount(st), st.chainId, p);
           && WorthSealing(rs, SealedCount(st), cut, minNew)
           && LongestAcceptable(c, rs, st.chainId, p, SealedCount(st), cut)
           && Reported(c, rs, SealedCount(st), cut, st, st', sealer, r)
    ensures var (st', r) := PassSpec(c, rs, st, sealer, p, nowMs, minNew);
      st' == st && AllUnderstood(Plain(rs)) && UnsealedStart(c, rs, st).Ok? && r != SealingFailed ==>
        !WorthSealing(rs, SealedCount(st), Authentic(c, rs, SealedCount(st), st.chainId, p), minNew)
  {
    UnderstoodPass(rs);
    if AllUnderstood(Plain(rs)) && UnsealedStart(c, rs, st).Ok? {
      SuffixOutcome(c, rs, st, sealer, p, nowMs, minNew);
    }
  }

  /** What each answer of a pass says about the log and the store. The cases exclude one another, so each is given exactly
      when what it says is so, unless signing or storing fails. */
  ghost predicate AnswerTold(c: Crypto, rs: seq<SignedRecord>, st: StoreState, p: OriginPolicy, minNew: nat, st': StoreState, r: PassResult) {
    var start := SealedCount(st);
    match r
    case UnreadablePayload(at) => st' == st && exists i :: 0 <= i < |rs| && FirstUnread(rs, i) && at == rs[i].record.seqNo
    case TruncatedLog => st' == st && st.checkpoints != [] && |rs| < start
    case DivergedLog(to) =>
      && st' == st && st.checkpoints != [] && 0 < start <= |rs| && to as int == start - 1
      && c.h.record(rs[start - 1].record) != st.checkpoints[|st.checkpoints| - 1].checkpoint.headHash
    case Unauthenticated(seqNo, reason, sealedTo) => exists k :: StopsAt(c, rs, st, p, k, seqNo, reason, sealedTo, st')
    case Sealed(sc) => st'.checkpoints == st.checkpoints + [sc] && SealedCount(st') == |rs| && AllAcceptable(c, rs, st, p)
    case NothingToSeal => st' == st && AllAcceptable(c, rs, st, p) && (|rs| == start || |rs| - start < minNew)
    case SealingFailed => st' == st
  }

  predicate FirstUnread(rs: seq<SignedRecord>, i: nat) {
    i < |rs| && rs[i].record.payload.Unknown? && forall j :: 0 <= j < i ==> !rs[j].record.payload.Unknown?
  }

  /** Everything after what is sealed may be sealed. */
  predicate AllAcceptable(c: Crypto, rs: seq<SignedRecord>, st: StoreState, p: OriginPolicy) {
    0 <= SealedCount(st) <= |rs| && forall i :: SealedCount(st) <= i < |rs| ==> Acceptable(c, rs, st.chainId, p, i)
  }

  /** Record k is the first that may not be sealed, for the reason given, and everything before it now is, if anything was. */
  predicate StopsAt(c: Crypto, rs: seq<SignedRecord>, st: StoreState, p: OriginPolicy, k: nat, seqNo: Word, reason: Refusal,
                    sealedTo: Option<Word>, st': StoreState)
  {
    var start := SealedCount(st);
    && 0 <= start <= k < |rs| && seqNo == rs[k].record.seqNo
    && RefusalOf(c, p, st.chainId, rs[k], CertifiedKeys(c, p.trusted, st.chainId, rs)) == Some(reason)
    && (forall i :: start <= i < k ==> Acceptable(c, rs, st.chainId, p, i))
    && SealedCount(st') == k
    && (sealedTo.None? <==> st' == st && k == start) && (sealedTo.Some? ==> sealedTo.value as int == k - 1)
  }

  lemma PassAnswers(c: Crypto, rs: seq<SignedRecord>, st: StoreState, sealer: Sealer, p: OriginPolicy, nowMs: SignedWord, minNew: nat)
    requires Linked(c.h, Plain(rs))
    ensures var (st', r) := PassSpec(c, rs, st, sealer, p, nowMs, minNew); AnswerTold(c, rs, st, p, minNew, st', r)
  {
    var unread := FirstIndex(rs, (r: SignedRecord) => !IsUnderstood(r.record.payload));
    if unread < |rs| {
      forall j | 0 <= j < unread ensures !rs[j].record.payload.Unknown? {
        assert !(!IsUnderstood(rs[j].record.payload));
      }
      assert FirstUnread(rs, unread);
    } else if UnsealedStart(c, rs, st).Ok? {
      SuffixTold(c, rs, st, sealer, p, nowMs, minNew);
    }
  }

  /** Nothing was sealed: no acceptable record is ready, or too few and none refused. */
  lemma LeftTold(c: Crypto, rs: seq<SignedRecord>, st: StoreState, p: OriginPolicy, minNew: nat, cut: nat, blocked: Option<(Word, Refusal)>)
    requires 0 <= SealedCount(st) && SealedCount(st) + cut <= |rs|
    requires LongestAcceptable(c, rs, st.chainId, p, SealedCount(st), cut)
    requires blocked == StoppedBy(c, rs, SealedCount(st) + cut, st.chainId, p)
    requires cut == 0 || (blocked.None? && cut < Batch(minNew))
    ensures AnswerTold(c, rs, st, p, minNew, st, Conclude(Ok(None), blocked))
  {
    if blocked.Some? {
      assert StopsAt(c, rs, st, p, SealedCount(st), blocked.value.0, blocked.value.1, None, st);
    }
  }

  /** The run was sealed, or sealing it failed and left the store. */
  lemma SealTold(c: Crypto, rs: seq<SignedRecord>, st: StoreState, sealer: Sealer, p: OriginPolicy, minNew: nat, cut: nat,
                 blocked: Option<(Word, Refusal)>, st': StoreState, done: Result<Option<SignedCheckpoint>, ()>)
    requires 0 <= SealedCount(st) && 0 < cut && SealedCount(st) + cut <= |rs|
    requires LongestAcceptable(c, rs, st.chainId, p, SealedCount(st), cut)
    requires blocked == StoppedBy(c, rs, SealedCount(st) + cut, st.chainId, p)
    requires done.Err? ==> st' == st
    requires done.Ok? ==> done.value.Some? && Extends(c, rs, SealedCount(st), cut, st, st', sealer, done.value.value)
    ensures AnswerTold(c, rs, st, p, minNew, st', Conclude(done, blocked))
  {
    if done.Ok? {
      var sc := done.value.value;
      assert SealedCount(st') == sc.checkpoint.toSeq as int + 1;
      if blocked.Some? {
        assert StopsAt(c, rs, st, p, SealedCount(st) + cut, blocked.value.0, blocked.value.1, Some(sc.checkpoint.toSeq), st');
      }
    }
  }

  lemma SuffixTold(c: Crypto, rs: seq<SignedRecord>, st: StoreState, sealer: Sealer, p: OriginPolicy, nowMs: SignedWord, minNew: nat)
    requires Linked(c.h, Plain(rs)) && 0 <= SealedCount(st) <= |rs|
    ensures var (st', r) := SealSuffix(c, rs, SealedCount(st), st, sealer, p, nowMs, minNew); AnswerTold(c, rs, st, p, minNew, st', r)
  {
    var start := SealedCount(st);
    var cut := Authentic(c, rs, start, st.chainId, p);
    var blocked := StoppedBy(c, rs, start + cut, st.chainId, p);
    AuthenticIsLongest(c, rs, start, st.chainId, p);
    SuffixUnfolds(c, rs, start, st, sealer, p, nowMs, minNew, cut, blocked);
    if cut == 0 || (blocked.None? && cut < Batch(minNew)) {
      LeftTold(c, rs, st, p, minNew, cut, blocked);
    } else {
      SealPrefixAdds(c, rs, start, cut, st, sealer, nowMs);
      var (st', done) := SealPrefix(c, rs[start..start + cut], st, sealer, nowMs);
      SealTold(c, rs, st, sealer, p, minNew, cut, blocked, st', done);
    }
  }

  lemma UnderstoodPass(rs: seq<SignedRecord>)
    ensures FirstIndex(rs, (r: SignedRecord) => !IsUnderstood(r.record.payload)) == |rs| <==> AllUnderstood(Plain(rs))
  {
    var k := FirstIndex(rs, (r: SignedRecord) => !IsUnderstood(r.record.payload));
    if k < |rs| {
      assert !IsUnderstood(Plain(rs)[k].payload);
    } else {
      forall i | 0 <= i < |rs| ensures IsUnderstood(Plain(rs)[i].payload) {
        assert !(!IsUnderstood(rs[i].record.payload));
      }
    }
  }

  lemma SuffixOutcome(c: Crypto, rs: seq<SignedRecord>, st: StoreState, sealer: Sealer, p: OriginPolicy, nowMs: SignedWord, minNew: nat)
    requires Linked(c.h, Plain(rs)) && 0 <= SealedCount(st) <= |rs|
    ensures var start := SealedCount(st);
      var cut := Authentic(c, rs, start, st.chainId, p);
      var (st', r) := SealSuffix(c, rs, start, st, sealer, p, nowMs, minNew);
      && LongestAcceptable(c, rs, st.chainId, p, start, cut)
      && (st' != st ==>
           WorthSealing(rs, start, cut, minNew) && Reported(c, rs, start, cut, st, st', sealer, r))
      && (st' == st && r != SealingFailed ==> !WorthSealing(rs, start, cut, minNew))
  {
    var start := SealedCount(st);
    var cut := Authentic(c, rs, start, st.chainId, p);
    AuthenticIsLongest(c, rs, start, st.chainId, p);
    if WorthSealing(rs, start, cut, minNew) {
      SealPrefixAdds(c, rs, start, cut, st, sealer, nowMs);
      WorthIsSealed(c, rs, start, cut, st, sealer, p, nowMs, minNew);
    }
  }

  lemma WorthIsSealed(c: Crypto, rs: seq<SignedRecord>, start: nat, cut: nat, st: StoreState, sealer: Sealer, p: OriginPolicy,
                      nowMs: SignedWord, minNew: nat)
    requires start + cut <= |rs| && cut == Authentic(c, rs, start, st.chainId, p) && WorthSealing(rs, start, cut, minNew)
    requires LongestAcceptable(c, rs, st.chainId, p, start, cut)
    ensures SealSuffix(c, rs, start, st, sealer, p, nowMs, minNew)
      == var (st', sealed) := SealPrefix(c, rs[start..start + cut], st, sealer, nowMs);
         (st', Conclude(sealed, StoppedBy(c, rs, start + cut, st.chainId, p)))
    ensures StoppedBy(c, rs, start + cut, st.chainId, p).Some? <==> start + cut < |rs|
  {
  }

  /** A pass keeps the tiling: if it accepts the log, the store covers that log; otherwise nothing changed. */
  lemma PassKeepsCover(c: Crypto, st: StoreState, was: seq<Record>, rs: seq<SignedRecord>, sealer: Sealer, p: OriginPolicy,
                       nowMs: SignedWord, minNew: nat, inputs: set<Input>)
    requires c.h.Valid() && Covers(c, st, was) && Linked(c.h, Plain(rs))
    requires AllEncodable(was) && AllEncodable(Plain(rs))
    requires CollisionFree(c.h.digest, inputs) && RecordInputs(was) <= inputs && RecordInputs(Plain(rs)) <= inputs
    ensures var st' := PassSpec(c, rs, st, sealer, p, nowMs, minNew).0;
      && st.checkpoints <= st'.checkpoints && st'.chainId == st.chainId && st'.anchors == st.anchors
      && (if UnsealedStart(c, rs, st).Ok? then Covers(c, st', Plain(rs)) else st' == st)
  {
    var st' := PassSpec(c, rs, st, sealer, p, nowMs, minNew).0;
    PassSealsLongestRun(c, rs, st, sealer, p, nowMs, minNew);
    BoundaryPins(c, st, was, rs, inputs);
    if UnsealedStart(c, rs, st).Ok? {
      CoversPrefix(c, st, was, Plain(rs));
      if st' != st {
        var cut := Authentic(c, rs, SealedCount(st), st.chainId, p);
        var sc :| Extends(c, rs, SealedCount(st), cut, st, st', sealer, sc);
        ExtendKeepsCover(c, rs, cut, st, st', sealer, sc);
      }
    }
  }

  lemma ExtendKeepsCover(c: Crypto, rs: seq<SignedRecord>, cut: nat, st: StoreState, st': StoreState, sealer: Sealer, sc: SignedCheckpoint)
    requires Covers(c, st, Plain(rs)) && AllUnderstood(Plain(rs)) && SealedCount(st) + cut <= |rs| && cut > 0
    requires Extends(c, rs, SealedCount(st), cut, st, st', sealer, sc)
    ensures Covers(c, st', Plain(rs))
  {
    forall i | 0 <= i < |st'.checkpoints| ensures CoversAt(c, st', Plain(rs), i) {
      if i < |st.checkpoints| {
        assert CoversAt(c, st, Plain(rs), i);
      }
    }
  }

  // ------------------------------------------------- runs of passes

  datatype PassCall = PassCall(rs: seq<SignedRecord>, sealer: Sealer, policy: OriginPolicy, nowMs: SignedWord, minNew: nat)

  function Step(c: Crypto, st: StoreState, call: PassCall): StoreState {
    PassSpec(c, call.rs, st, call.sealer, call.policy, call.nowMs, call.minNew).0
  }

  function Run(c: Crypto, st: StoreState, calls: seq<PassCall>): StoreState
    decreases |calls|
  {
    if calls == [] then st else Run(c, Step(c, st, calls[0]), calls[1..])
  }

  /** The pass gets as far as weighing what to seal. */
  predicate Accepted(c: Crypto, st: StoreState, rs: seq<SignedRecord>) {
    AllUnderstood(Plain(rs)) && UnsealedStart(c, rs, st).Ok?
  }

  /** The log the store covers after a run: the last one a pass accepted. */
  function LogAfter(c: Crypto, st: StoreState, was: seq<Record>, calls: seq<PassCall>): seq<Record>
    decreases |calls|
  {
    if calls == [] then was
    else LogAfter(c, Step(c, st, calls[0]), if Accepted(c, st, calls[0].rs) then Plain(calls[0].rs) else was, calls[1..])
  }

  predicate EncodableRecords(rs: seq<Record>) {
    forall i :: 0 <= i < |rs| ==> EncodableRecord(rs[i])
  }

  /** What the log reader hands over: a log checked from genesis, with fields short enough to encode. */
  predicate ReaderLog(c: Crypto, rs: seq<Record>) {
    Linked(c.h, rs) && EncodableRecords(rs)
  }

  predicate ReaderLogs(c: Crypto, calls: seq<PassCall>) {
    forall i :: 0 <= i < |calls| ==> ReaderLog(c, Plain(calls[i].rs))
  }

  function CallInputs(calls: seq<PassCall>): set<Input> {
    if calls == [] then {} else RecordInputs(Plain(calls[0].rs)) + CallInputs(calls[1..])
  }

  lemma StepKeepsCover(c: Crypto, st: StoreState, was: seq<Record>, call: PassCall, inputs: set<Input>)
    requires c.h.Valid() && Covers(c, st, was) && AllEncodable(was) && ReaderLog(c, Plain(call.rs))
    requires CollisionFree(c.h.digest, inputs) && RecordInputs(was) <= inputs && RecordInputs(Plain(call.rs)) <= inputs
    ensures var st' := Step(c, st, call);
      && st.checkpoints <= st'.checkpoints && st'.chainId == st.chainId && st'.anchors == st.anchors
      && (if Accepted(c, st, call.rs) then AllEncodable(Plain(call.rs)) && Covers(c, st', Plain(call.rs)) else st' == st)
  {
    UnderstoodPass(call.rs);
    if AllUnderstood(Plain(call.rs)) {
      PassKeepsCover(c, st, was, call.rs, call.sealer, call.policy, call.nowMs, call.minNew, inputs);
    }
  }

  /** Over every run of passes, whatever logs they are handed: the checkpoints already stored are never altered,
      and together they tile, with no gap and no overlap, a prefix of the last log accepted. */
  lemma {:induction false} RunsKeepCover(c: Crypto, st: StoreState, was: seq<Record>, calls: seq<PassCall>, inputs: set<Input>)
    requires c.h.Valid() && Covers(c, st, was) && AllEncodable(was) && ReaderLogs(c, calls)
    requires CollisionFree(c.h.digest, inputs) && RecordInputs(was) <= inputs && CallInputs(calls) <= inputs
    ensures var st' := Run(c, st, calls);
      && st.checkpoints <= st'.checkpoints && st'.chainId == st.chainId && st'.anchors == st.anchors
      && Covers(c, st', LogAfter(c, st, was, calls)) && AllEncodable(LogAfter(c, st, was, calls))
    decreases |calls|
  {
    if calls != [] {
      assert ReaderLog(c, Plain(calls[0].rs));
      StepKeepsCover(c, st, was, calls[0], inputs);
      RunsKeepCover(c, Step(c, st, calls[0]), if Accepted(c, st, calls[0].rs) then Plain(calls[0].rs) else was, calls[1..], inputs);
    }
  }

  lemma StepKeepsSealed(c: Crypto, st: StoreState, was: seq<Record>, call: PassCall, inputs: set<Input>)
    requires c.h.Valid() && Covers(c, st, was) && AllEncodable(was) && ReaderLog(c, Plain(call.rs))
    requires CollisionFree(c.h.digest, inputs) && RecordInputs(was) <= inputs && RecordInputs(Plain(call.rs)) <= inputs
    requires Accepted(c, st, call.rs)
    ensures SealedCount(st) <= |call.rs| && Plain(call.rs)[..SealedCount(st)] == was[..SealedCount(st)]
  {
    BoundaryPins(c, st, was, call.rs, inputs);
  }

  lemma SharedPrefix<T>(a: seq<T>, b: seq<T>, d: seq<T>, n: nat, m: nat)
    requires n <= m <= |b| && m <= |d| && n <= |a| && a[..n] == b[..n] && b[..m] == d[..m]
    ensures d[..n] == a[..n]
  {
    assert d[..n] == d[..m][..n] && b[..n] == b[..m][..n];
  }

  /** Once sealed, never rewritten: any log a pass accepts later begins with every record the store covered before. */
  lemma {:induction false} SealedNeverRewritten(c: Crypto, st: StoreState, was: seq<Record>, calls: seq<PassCall>, inputs: set<Input>)
    requires c.h.Valid() && Covers(c, st, was) && AllEncodable(was) && ReaderLogs(c, calls)
    requires CollisionFree(c.h.digest, inputs) && RecordInputs(was) <= inputs && CallInputs(calls) <= inputs
    ensures var now := LogAfter(c, st, was, calls);
      SealedCount(st) <= |now| && now[..SealedCount(st)] == was[..SealedCount(st)]
    decreases |calls|
  {
    if calls != [] {
      var st' := Step(c, st, calls[0]);
      var next := if Accepted(c, st, calls[0].rs) then Plain(calls[0].rs) else was;
      assert ReaderLog(c, Plain(calls[0].rs));
      StepKeepsCover(c, st, was, calls[0], inputs);
      if Accepted(c, st, calls[0].rs) {
        StepKeepsSealed(c, st, was, calls[0], inputs);
      }
      SealedNeverRewritten(c, st', next, calls[1..], inputs);
      CountGrows(c, st, st', next);
      SharedPrefix(was, next, LogAfter(c, st, was, calls), SealedCount(st), SealedCount(st'));
    }
  }

  lemma CountGrows(c: Crypto, st: StoreState, st': StoreState, rs: seq<Record>)
    requires st.checkpoints <= st'.checkpoints && Covers(c, st', rs)
    ensures SealedCount(st) <= SealedCount(st')
  {
    EndsInOrder(c, st', rs, |st.checkpoints|, |st'.checkpoints|);
  }

  // ------------------------------------------------- reopening

  /** Every key the store recorded is a usable sealing key, and no id is recorded twice. */
  predicate KeysSound(c: Crypto, st: StoreState) {
    DistinctIds(st.keys) && forall k :: k in st.keys ==> k.role == SealRole && ToKey(c, k).Some?
  }

  /** A seal reopens exactly when the id it names resolves, among the keys then recorded, to a key that verifies it. */
  lemma ExtendReopens(c: Crypto, rs: seq<SignedRecord>, start: nat, cut: nat, st: StoreState, st': StoreState, sealer: Sealer, sc: SignedCheckpoint)
    requires Reopens(c, st) && Extends(c, rs, start, cut, st, st', sealer, sc)
    ensures Reopens(c, st') <==> SealResolves(c, st'.keys, sc)
    ensures sealer.keyId == sealer.entry.keyId ==> Reopens(c, st')
  {
    AppendReopens(c, st, sc, sealer.entry);
    if sealer.keyId == sealer.entry.keyId {
      HonestAppendReopens(c, st, sc, sealer.entry);
    }
  }

  /** A sealer whose seals name another id than the key it presents leaves a store that no longer opens, unless
      that id was already recorded. Neither the pass nor the append checks it. */
  lemma MismatchedSealerBreaksStore(c: Crypto, rs: seq<SignedRecord>, start: nat, cut: nat, st: StoreState, st': StoreState,
                                    sealer: Sealer, sc: SignedCheckpoint)
    requires Reopens(c, st) && Extends(c, rs, start, cut, st, st', sealer, sc)
    requires sealer.keyId != sealer.entry.keyId && FindKey(st.keys, sealer.keyId).None?
    ensures !Reopens(c, st')
  {
    ExtendReopens(c, rs, start, cut, st, st', sealer, sc);
    FindKeyAppend(st.keys, sealer.entry, sealer.keyId);
  }

  /** A log of one effect record. */
  function OneEffect(): seq<SignedRecord> {
    [SignedRecord(Record(0, 0, GENESIS, [], None, [], Effect(Blocked, None, 0)), None, None)]
  }

  /** A sealer that signs with a key and presents it under one id, but writes another into its seals. */
  function TwoFaced(key: Key, named: Text, presented: Text): Sealer {
    Sealer(named, KeyEntry(presented, [], key, SealRole), m => Some(key + m))
  }

  /** Sealing a new store's first record succeeds with any key that signs. */
  lemma FirstSeal(h: Hasher, chainId: Text, key: Key, named: Text, presented: Text) returns (sc: SignedCheckpoint)
    ensures var c, st, call := PlainScheme(h), StoreState(chainId, [], [], []),
                               PassCall(OneEffect(), TwoFaced(key, named, presented), OriginPolicy(map[], false, None), 0, 1);
      Extends(c, OneEffect(), 0, 1, st, Step(c, st, call), call.sealer, sc)
  {
    var c, st, rs := PlainScheme(h), StoreState(chainId, [], [], []), OneEffect();
    var sealer, p := TwoFaced(key, named, presented), OriginPolicy(map[], false, None);
    UnderstoodPass(rs);
    AuthenticIsLongest(c, rs, 0, chainId, p);
    assert Acceptable(c, rs, chainId, p, 0);
    assert Authentic(c, rs, 0, chainId, p) == 1;
    SealPrefixAdds(c, rs, 0, 1, st, sealer, 0);
    WorthIsSealed(c, rs, 0, 1, st, sealer, p, 0, 1);
    assert Plain(rs[0..1]) == Plain(rs);
    sc := SealPrefix(c, rs[0..1], st, sealer, 0).1.value.value;
  }

  /** The input: one record, a new store, and a sealer whose two ids differ. One pass, and the store does not open. */
  lemma MismatchedSealerWitness(h: Hasher, chainId: Text, key: Key, named: Text, presented: Text)
    ensures var c, st, call := PlainScheme(h), StoreState(chainId, [], [], []),
                               PassCall(OneEffect(), TwoFaced(key, named, presented), OriginPolicy(map[], false, None), 0, 1);
      Reopens(c, st) && (Reopens(c, Step(c, st, call)) <==> named == presented)
  {
    var c, st := PlainScheme(h), StoreState(chainId, [], [], []);
    var call := PassCall(OneEffect(), TwoFaced(key, named, presented), OriginPolicy(map[], false, None), 0, 1);
    var sc := FirstSeal(h, chainId, key, named, presented);
    ExtendReopens(c, OneEffect(), 0, 1, st, Step(c, st, call), call.sealer, sc);
    if named != presented {
      MismatchedSealerBreaksStore(c, OneEffect(), 0, 1, st, Step(c, st, call), call.sealer, sc);
    }
  }

  lemma ExtendKeepsKeys(c: Crypto, rs: seq<SignedRecord>, start: nat, cut: nat, st: StoreState, st': StoreState, sealer: Sealer, sc: SignedCheckpoint)
    requires KeysSound(c, st) && Extends(c, rs, start, cut, st, st', sealer, sc) && sealer.entry.role == SealRole
    ensures KeysSound(c, st')
  {
    if st'.keys != st.keys {
      assert FindKey(st.keys, sealer.entry.keyId).None?;
      forall i, j | 0 <= i < j < |st'.keys| ensures st'.keys[i].keyId != st'.keys[j].keyId {
        assert st'.keys[i] in st.keys;
      }
    }
  }

  /** A sealer that names the sealing key it presents. */
  predicate Honest(sealer: Sealer) {
    sealer.keyId == sealer.entry.keyId && sealer.entry.role == SealRole
  }

  lemma StepReopens(c: Crypto, st: StoreState, call: PassCall)
    requires Linked(c.h, Plain(call.rs)) && Reopens(c, st) && KeysSound(c, st) && Honest(call.sealer)
    ensures Reopens(c, Step(c, st, call)) && KeysSound(c, Step(c, st, call))
  {
    var st' := Step(c, st, call);
    PassSealsLongestRun(c, call.rs, st, call.sealer, call.policy, call.nowMs, call.minNew);
    if st' != st {
      var cut := Authentic(c, call.rs, SealedCount(st), st.chainId, call.policy);
      var sc :| Extends(c, call.rs, SealedCount(st), cut, st, st', call.sealer, sc);
      ExtendReopens(c, call.rs, SealedCount(st), cut, st, st', call.sealer, sc);
      ExtendKeepsKeys(c, call.rs, SealedCount(st), cut, st, st', call.sealer, sc);
    }
  }

  /** Whatever passes honest sealers ran, the store reopens. */
  lemma {:induction false} RunsReopen(c: Crypto, st: StoreState, calls: seq<PassCall>)
    requires ReaderLogs(c, calls) && Reopens(c, st) && KeysSound(c, st)
    requires forall i :: 0 <= i < |calls| ==> Honest(calls[i].sealer)
    ensures Reopens(c, Run(c, st, calls)) && KeysSound(c, Run(c, st, calls))
    decreases |calls|
  {
    if calls != [] {
      assert ReaderLog(c, Plain(calls[0].rs)) && Honest(calls[0].sealer);
      StepReopens(c, st, calls[0]);
      RunsReopen(c, Step(c, st, calls[0]), calls[1..]);
    }
  }
}
