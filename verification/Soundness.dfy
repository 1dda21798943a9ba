/** What a verified pack pins: two packs that verify and share a seal share the
    history below it. */
module Soundness {
  import opened Bytes
  import opened Canonical
  import opened Hashing
  import opened Records
  import opened Chain
  import opened Origin
  import opened Pack
  import opened Verifier
  import opened Meaning

  function RecordOf(rs: seq<Record>, s: Word): Record
    requires Inside(rs, s, s)
  {
    rs[s as int - rs[0].seqNo as int]
  }

  lemma SameAt(h: Hasher, a: seq<Record>, i: nat, b: seq<Record>, j: nat, inputs: set<Input>)
    requires i < |a| && j < |b| && h.record(a[i]) == h.record(b[j]) && AllEncodable(a) && AllEncodable(b)
    requires h.Valid() && CollisionFree(h.digest, inputs) && RecordInputs(a) <= inputs && RecordInputs(b) <= inputs
    ensures a[i] == b[j]
  {
    InputsInclude(a, i, inputs);
    InputsInclude(b, j, inputs);
    SameHashSameRecord(h, a[i], b[j], inputs);
  }

  /** Two unbroken runs that hold the same record hold the same records before it, as far back as both go. */
  lemma {:induction false} BackFrom(h: Hasher, a: seq<Record>, b: seq<Record>, i: nat, j: nat, k: nat, inputs: set<Input>)
    requires Contiguous(h, a) && Contiguous(h, b) && AllEncodable(a) && AllEncodable(b)
    requires k <= i < |a| && k <= j < |b| && h.record(a[i]) == h.record(b[j])
    requires h.Valid() && CollisionFree(h.digest, inputs) && RecordInputs(a) <= inputs && RecordInputs(b) <= inputs
    ensures a[i - k] == b[j - k]
    decreases k
  {
    SameAt(h, a, i, b, j, inputs);
    if k > 0 {
      assert FollowsAt(h, a, i) && FollowsAt(h, b, j);
      BackFrom(h, a, b, i - 1, j - 1, k - 1, inputs);
    }
  }

  /** A Merkle root alone pins the records it was computed over, and how many they are. */
  lemma RootPinsRecords(h: Hasher, p: seq<Record>, q: seq<Record>, inputs: set<Input>)
    requires Merkle.Root(h.digest, Hashes(h, p)) == Merkle.Root(h.digest, Hashes(h, q))
    requires AllEncodable(p) && AllEncodable(q) && h.Valid() && CollisionFree(h.digest, inputs)
    requires RecordInputs(p) <= inputs && RecordInputs(q) <= inputs
    requires Merkle.RootInputs(h.digest, Hashes(h, p)) + Merkle.RootInputs(h.digest, Hashes(h, q)) <= inputs
    ensures p == q
  {
    var hp, hq := Hashes(h, p), Hashes(h, q);
    CollisionFreeSubset(h.digest, Merkle.RootInputs(h.digest, hp) + Merkle.RootInputs(h.digest, hq), inputs);
    Merkle.RootInjective(h.digest, hp, hq);
    forall k | 0 <= k < |p| ensures p[k] == q[k] {
      assert hp[k] == hq[k];
      SameAt(h, p, k, q, k, inputs);
    }
  }

  /** The head a seal names is the hash of the last record of its interval. */
  lemma SealedHead(h: Hasher, chainId: Text, rs: seq<Record>, prev: Option<Hash>, cp: Checkpoint)
    requires SealsSlice(h, chainId, rs, prev, cp)
    ensures Inside(rs, cp.toSeq, cp.toSeq) && h.record(RecordOf(rs, cp.toSeq)) == cp.headHash
  {
  }

  /** A seal and the chain below it pin every record the two runs share up to the sealed head, including those
      no checkpoint of either covers. */
  lemma SealPinsHistory(h: Hasher, a: seq<Record>, b: seq<Record>, to: Word, s: Word, inputs: set<Input>)
    requires Inside(a, to, to) && Inside(b, to, to) && h.record(RecordOf(a, to)) == h.record(RecordOf(b, to))
    requires Contiguous(h, a) && Contiguous(h, b) && AllEncodable(a) && AllEncodable(b)
    requires h.Valid() && CollisionFree(h.digest, inputs) && RecordInputs(a) <= inputs && RecordInputs(b) <= inputs
    requires Inside(a, s, s) && Inside(b, s, s) && s <= to
    ensures RecordOf(a, s) == RecordOf(b, s)
  {
    BackFrom(h, a, b, to as int - a[0].seqNo as int, to as int - b[0].seqNo as int, to as int - s as int, inputs);
  }

  /** The bytes hashed to recompute the hashes of a pack's records. */
  function PackInputs(ev: Evidence): set<Input> {
    RecordInputs(Plain(ev.records))
  }

  predicate EncodablePack(ev: Evidence) {
    forall i :: 0 <= i < |ev.records| ==> EncodableRecord(ev.records[i].record)
  }

  /** Soundness. Two packs that verify without error and carry a common checkpoint, under whatever keys and
      options each was verified with, hold its whole interval and agree record for record on it and on
      everything earlier that both hold; or two of the record encodings hashed collide. */
  lemma SealedRecordsAgree(c: Crypto, a: Evidence, ta: seq<KeyEntry>, oa: Options, i: nat,
                           b: Evidence, tb: seq<KeyEntry>, ob: Options, j: nat, s: Word)
    requires c.h.Valid() && EncodablePack(a) && EncodablePack(b)
    requires Clean(Verdict(c, a, ta, oa).findings) && Clean(Verdict(c, b, tb, ob).findings)
    requires i < |a.checkpoints| && j < |b.checkpoints| && a.checkpoints[i].checkpoint == b.checkpoints[j].checkpoint
    requires CollisionFree(c.h.digest, PackInputs(a) + PackInputs(b))
    ensures var cp := a.checkpoints[i].checkpoint; var ra, rb := Plain(a.records), Plain(b.records);
      && (cp.fromSeq <= s <= cp.toSeq ==> Inside(ra, s, s) && Inside(rb, s, s))
      && (s <= cp.toSeq && Inside(ra, s, s) && Inside(rb, s, s) ==> RecordOf(ra, s) == RecordOf(rb, s))
  {
    var cp := a.checkpoints[i].checkpoint;
    ErrorFreeSeal(c, a, ta, oa, i);
    ErrorFreeSeal(c, b, tb, ob, j);
    if s <= cp.toSeq && Inside(Plain(a.records), s, s) && Inside(Plain(b.records), s, s) {
      SealPinsHistory(c.h, Plain(a.records), Plain(b.records), cp.toSeq, s, PackInputs(a) + PackInputs(b));
    }
  }

  lemma ErrorFreeSeal(c: Crypto, ev: Evidence, trusted: seq<KeyEntry>, o: Options, i: nat)
    requires EncodablePack(ev) && Clean(Verdict(c, ev, trusted, o).findings) && i < |ev.checkpoints|
    ensures Contiguous(c.h, Plain(ev.records)) && AllEncodable(Plain(ev.records))
    ensures Inside(Plain(ev.records), ev.checkpoints[i].checkpoint.fromSeq, ev.checkpoints[i].checkpoint.toSeq)
    ensures c.h.record(RecordOf(Plain(ev.records), ev.checkpoints[i].checkpoint.toSeq)) == ev.checkpoints[i].checkpoint.headHash
  {
    ErrorFreeMeans(c, ev, trusted, o);
    assert SealHoldsAt(c, ev, Resolved(c, ev, trusted), i);
    SealedHead(c.h, ev.chainId, Plain(ev.records), PrevHash(c, ev.checkpoints, i), ev.checkpoints[i].checkpoint);
  }

  /** Two packs with the same checkpoints report the same sealed records. */
  lemma SameSealsSameCoverage(c: Crypto, a: Evidence, ta: seq<KeyEntry>, oa: Options, b: Evidence, tb: seq<KeyEntry>, ob: Options)
    requires Clean(Verdict(c, a, ta, oa).findings) && Clean(Verdict(c, b, tb, ob).findings)
    requires a.checkpoints == b.checkpoints
    ensures SealedSeqs(c, a, ta) == SealedSeqs(c, b, tb)
    ensures Verdict(c, a, ta, oa).recordsSealed == Verdict(c, b, tb, ob).recordsSealed
  {
    forall s: Word ensures s in SealedSeqs(c, a, ta) <==> s in SealedSeqs(c, b, tb) {
      CleanSealedMeans(c, a, ta, oa, s);
      CleanSealedMeans(c, b, tb, ob, s);
    }
  }

  lemma SealedIsHashed(c: Crypto, ev: Evidence, ks: KeySets, i: nat, s: Word)
    requires Contiguous(c.h, Plain(ev.records)) && SealsHold(c, ev, ks) && i < |ev.checkpoints|
    requires ev.checkpoints[i].checkpoint.fromSeq <= s <= ev.checkpoints[i].checkpoint.toSeq
    ensures s in Hashed(c, ev)
  {
    var cp := ev.checkpoints[i].checkpoint;
    assert SealHoldsAt(c, ev, ks, i);
    PresentMeans(c.h, Plain(ev.records), cp.fromSeq, cp.toSeq);
  }

  /** Where every checkpoint seals its own records, a record is counted sealed exactly when some interval covers it. */
  lemma SealedMeans(c: Crypto, ev: Evidence, trusted: seq<KeyEntry>, s: Word)
    requires Contiguous(c.h, Plain(ev.records)) && SealsHold(c, ev, Resolved(c, ev, trusted))
    ensures s in SealedSeqs(c, ev, trusted) <==>
      exists i :: 0 <= i < |ev.checkpoints| && ev.checkpoints[i].checkpoint.fromSeq <= s <= ev.checkpoints[i].checkpoint.toSeq
  {
    SealsMean(c, ev, trusted);
    var intervals := Seals(c, ev, trusted).intervals;
    if i :| 0 <= i < |ev.checkpoints| && ev.checkpoints[i].checkpoint.fromSeq <= s <= ev.checkpoints[i].checkpoint.toSeq {
      SealedIsHashed(c, ev, Resolved(c, ev, trusted), i, s);
      assert intervals[i].0 <= s <= intervals[i].1;
    }
  }

  lemma CleanSealedMeans(c: Crypto, ev: Evidence, trusted: seq<KeyEntry>, o: Options, s: Word)
    requires Clean(Verdict(c, ev, trusted, o).findings)
    ensures s in SealedSeqs(c, ev, trusted) <==>
      exists i :: 0 <= i < |ev.checkpoints| && ev.checkpoints[i].checkpoint.fromSeq <= s <= ev.checkpoints[i].checkpoint.toSeq
  {
    ErrorFreeMeans(c, ev, trusted, o);
    SealedMeans(c, ev, trusted, s);
  }

  /** The counters of an error-free report. */
  lemma ErrorFreeCounts(c: Crypto, ev: Evidence, trusted: seq<KeyEntry>, o: Options)
    requires Clean(Verdict(c, ev, trusted, o).findings)
    ensures var r := Verdict(c, ev, trusted, o);
      && r.checkpointsValid == r.checkpointsTotal && r.anchorsOk == r.anchorsTotal && r.recordsUnknown == 0
      && (o.requireOrigin ==> r.recordsOriginOk == r.recordsTotal)
  {
    ErrorFreeMeans(c, ev, trusted, o);
    SealsMean(c, ev, trusted);
    TallyAnchorsMeans(c, ev.checkpoints, ev.anchors, |ev.anchors|);
    TallyOriginMeans(c, ev.chainId, Resolved(c, ev, trusted), ev.records, |ev.records|);
    NoneUnknown(Plain(ev.records), |ev.records|);
    CleanSplits(c, ev, trusted, o);
    CleanConcat(TallyAnchors(c, ev.checkpoints, ev.anchors, |ev.anchors|).findings,
                if TallyAnchors(c, ev.checkpoints, ev.anchors, |ev.anchors|).ok > 0 then [Warn(AnchorNotValidated)] else []);
  }

  lemma {:induction false} NoneUnknown(rs: seq<Record>, n: nat)
    requires n <= |rs|
    ensures UnknownCount(rs, n) == 0 <==> forall i :: 0 <= i < n ==> IsUnderstood(rs[i].payload)
  {
    if n > 0 {
      NoneUnknown(rs, n - 1);
    }
  }
}
