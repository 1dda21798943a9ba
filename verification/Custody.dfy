/** What a store that opens is: one history of seals, each by a recorded key, covering everything up to its end. */
module Custody {
  import opened Bytes
  import opened Canonical
  import opened Hashing
  import opened Chain
  import opened Origin
  import opened Pack
  import opened Ledger

  /** The key recorded first under the id a seal names signed it. */
  predicate SealedByRecorded(c: Crypto, keys: seq<KeyEntry>, sc: SignedCheckpoint) {
    exists j :: 0 <= j < |keys| && keys[j].keyId == sc.checkpoint.keyId
      && (forall k :: 0 <= k < j ==> keys[k].keyId != sc.checkpoint.keyId)
      && SignsSeal(c, keys[j], sc)
  }

  /** The entry is an Ed25519 key that decodes, and its signature is on the checkpoint's hash. */
  predicate SignsSeal(c: Crypto, e: KeyEntry, sc: SignedCheckpoint) {
    && e.algo == c.ed25519 && c.decodeKey(e.publicKey).Some?
    && c.verifies(c.decodeKey(e.publicKey).value, c.h.checkpoint(sc.checkpoint), sc.signature)
  }

  /** The checkpoint continues the ones before it: same chain, their last hash, the next sequence number. */
  predicate Continues(c: Crypto, chainId: Text, before: seq<SignedCheckpoint>, cp: Checkpoint) {
    && cp.chainId == chainId && cp.fromSeq <= cp.toSeq
    && if before == [] then cp.fromSeq == 0 && cp.prevCheckpointHash == None
       else var last := before[|before| - 1].checkpoint;
            cp.fromSeq as int == last.toSeq as int + 1 && cp.prevCheckpointHash == Some(c.h.checkpoint(last))
  }

  lemma {:induction false} FindsFirst(keys: seq<KeyEntry>, id: Text, j: nat)
    requires j < |keys| && keys[j].keyId == id && forall k :: 0 <= k < j ==> keys[k].keyId != id
    ensures FindKey(keys, id) == Some(keys[j])
  {
    if j > 0 {
      FindsFirst(keys[1..], id, j - 1);
    }
  }

  lemma {:induction false} FirstFound(keys: seq<KeyEntry>, id: Text) returns (j: nat)
    requires FindKey(keys, id).Some?
    ensures j < |keys| && keys[j] == FindKey(keys, id).value && keys[j].keyId == id && forall k :: 0 <= k < j ==> keys[k].keyId != id
  {
    if keys[0].keyId == id {
      j := 0;
    } else {
      var i := FirstFound(keys[1..], id);
      j := i + 1;
      forall k | 0 <= k < j ensures keys[k].keyId != id {
        if k > 0 {
          assert keys[k] == keys[1..][k - 1];
        }
      }
    }
  }

  lemma ResolvesMeans(c: Crypto, keys: seq<KeyEntry>, sc: SignedCheckpoint)
    ensures SealResolves(c, keys, sc) <==> SealedByRecorded(c, keys, sc)
  {
    var id := sc.checkpoint.keyId;
    if SealResolves(c, keys, sc) {
      var j := FirstFound(keys, id);
      assert SignsSeal(c, keys[j], sc);
    }
    if SealedByRecorded(c, keys, sc) {
      var j :| 0 <= j < |keys| && keys[j].keyId == id && (forall k :: 0 <= k < j ==> keys[k].keyId != id) && SignsSeal(c, keys[j], sc);
      FindsFirst(keys, id, j);
    }
  }

  predicate InPlace(c: Crypto, st: StoreState, i: nat)
    requires i < |st.checkpoints|
  {
    && Continues(c, st.chainId, st.checkpoints[..i], st.checkpoints[i].checkpoint)
    && SealedByRecorded(c, st.keys, st.checkpoints[i])
  }

  /** The hash is that of one of the checkpoints. */
  predicate Names(c: Crypto, cps: seq<SignedCheckpoint>, hash: Hash) {
    exists j :: 0 <= j < |cps| && c.h.checkpoint(cps[j].checkpoint) == hash
  }

  /** A store opens exactly when every checkpoint continues the ones before it and is signed by the key recorded under its
      id, and every anchor names a checkpoint by its hash. */
  lemma OpensWhen(c: Crypto, st: StoreState)
    ensures Reopens(c, st) <==>
      && (forall i :: 0 <= i < |st.checkpoints| ==> InPlace(c, st, i))
      && (forall i :: 0 <= i < |st.anchors| ==> Names(c, st.checkpoints, st.anchors[i].checkpointHash))
  {
    forall i | 0 <= i < |st.checkpoints| ensures CheckpointOk(c, st, i) <==> InPlace(c, st, i) {
      ResolvesMeans(c, st.keys, st.checkpoints[i]);
      assert i > 0 ==> st.checkpoints[..i][i - 1] == st.checkpoints[i - 1];
    }
    forall i | 0 <= i < |st.anchors|
      ensures AnchorOk(c, st.checkpoints, st.anchors[i]) <==> Names(c, st.checkpoints, st.anchors[i].checkpointHash)
    {
    }
  }

  /** A checkpoint is appended exactly when it continues the store's, the key presented with it contradicts none recorded
      under its id, and that key signed it. Anchors and earlier checkpoints never change; the key is recorded as soon as
      nothing else stands in the way, even if the signature then fails. */
  lemma AppendsWhen(c: Crypto, st: StoreState, sc: SignedCheckpoint, key: KeyEntry)
    ensures var (st', r) := AppendCheckpointSpec(c, st, sc, key);
      var known, next := FindKey(st.keys, key.keyId), Continues(c, st.chainId, st.checkpoints, sc.checkpoint);
      var agrees := known.Some? ==> known.value.publicKey == key.publicKey && known.value.algo == key.algo;
      && (r.Ok? <==> next && agrees && SignsSeal(c, key, sc))
      && st' == StoreState(st.chainId, if r.Ok? then st.checkpoints + [sc] else st.checkpoints, st.anchors,
                           if next && known.None? then st.keys + [key] else st.keys)
      && (r == Err(StoreBroken) <==> !next) && (r == Err(KeyConflict) <==> next && !agrees)
  {
  }

  /** Appending a seal under the key it names, to a store that opens, succeeds exactly when the extended store opens too. */
  lemma AppendIsOpen(c: Crypto, st: StoreState, sc: SignedCheckpoint, key: KeyEntry)
    requires Reopens(c, st) && key.keyId == sc.checkpoint.keyId && RecordKey(st.keys, key).Ok?
    ensures AppendCheckpointSpec(c, st, sc, key).1.Ok? <==>
      Reopens(c, st.(checkpoints := st.checkpoints + [sc], keys := RecordKey(st.keys, key).value))
  {
    var st' := st.(checkpoints := st.checkpoints + [sc], keys := RecordKey(st.keys, key).value);
    var n := |st.checkpoints|;
    FindKeyAppend(st.keys, key, key.keyId);
    if AppendCheckpointSpec(c, st, sc, key).1.Ok? {
      HonestAppendReopens(c, st, sc, key);
    }
    if Reopens(c, st') {
      assert CheckpointOk(c, st', n);
      assert st'.checkpoints[..n] == st.checkpoints && PrevHash(c, st'.checkpoints, n) == PrevHash(c, st.checkpoints, n);
    }
  }

  // ------------------------------------------------- one history

  function CheckpointInputs(cps: seq<SignedCheckpoint>): set<Input> {
    set sc | sc in cps :: CheckpointInput(sc.checkpoint)
  }

  predicate AllSealable(cps: seq<SignedCheckpoint>) {
    forall sc :: sc in cps ==> EncodableCheckpoint(sc.checkpoint)
  }

  /** The checkpoint at i names the hash of the one before, and is among the inputs that do not collide. */
  predicate ChainsAt(c: Crypto, cps: seq<SignedCheckpoint>, inputs: set<Input>, i: nat)
    requires i < |cps|
  {
    && cps[i].checkpoint.prevCheckpointHash == PrevHash(c, cps, i)
    && EncodableCheckpoint(cps[i].checkpoint) && CheckpointInput(cps[i].checkpoint) in inputs
  }

  predicate Chains(c: Crypto, cps: seq<SignedCheckpoint>, inputs: set<Input>) {
    forall i :: 0 <= i < |cps| ==> ChainsAt(c, cps, inputs, i)
  }

  lemma {:induction false} HashPinsChain(c: Crypto, a: seq<SignedCheckpoint>, b: seq<SignedCheckpoint>, i: nat, j: nat, inputs: set<Input>)
    requires c.h.Valid() && CollisionFree(c.h.digest, inputs) && Chains(c, a, inputs) && Chains(c, b, inputs)
    requires i < |a| && j < |b| && c.h.checkpoint(a[i].checkpoint) == c.h.checkpoint(b[j].checkpoint)
    ensures i == j && forall k :: 0 <= k <= i ==> a[k].checkpoint == b[k].checkpoint
    decreases i
  {
    assert ChainsAt(c, a, inputs, i) && ChainsAt(c, b, inputs, j);
    SameCheckpoint(c, a[i], b[j], inputs);
    if i > 0 {
      HashPinsChain(c, a, b, i - 1, j - 1, inputs);
    }
  }

  lemma OpenedChains(c: Crypto, st: StoreState, inputs: set<Input>)
    requires Reopens(c, st) && AllSealable(st.checkpoints) && CheckpointInputs(st.checkpoints) <= inputs
    ensures Chains(c, st.checkpoints, inputs)
  {
    forall i | 0 <= i < |st.checkpoints| ensures ChainsAt(c, st.checkpoints, inputs, i) {
      assert CheckpointOk(c, st, i) && st.checkpoints[i] in st.checkpoints;
    }
  }

  /** Two stores that open and hold a checkpoint of the same hash hold it at the same place, after the same checkpoints:
      whoever keeps that hash pins all the sealed history before it, or two of the signed encodings collide. */
  lemma HashPinsHistory(c: Crypto, a: StoreState, b: StoreState, i: nat, j: nat, inputs: set<Input>)
    requires c.h.Valid() && Reopens(c, a) && Reopens(c, b) && i < |a.checkpoints| && j < |b.checkpoints|
    requires AllSealable(a.checkpoints) && AllSealable(b.checkpoints) && CollisionFree(c.h.digest, inputs)
    requires CheckpointInputs(a.checkpoints) <= inputs && CheckpointInputs(b.checkpoints) <= inputs
    requires c.h.checkpoint(a.checkpoints[i].checkpoint) == c.h.checkpoint(b.checkpoints[j].checkpoint)
    ensures i == j && a.chainId == b.chainId
    ensures forall k :: 0 <= k <= i ==> a.checkpoints[k].checkpoint == b.checkpoints[k].checkpoint
  {
    OpenedChains(c, a, inputs);
    OpenedChains(c, b, inputs);
    HashPinsChain(c, a.checkpoints, b.checkpoints, i, j, inputs);
    assert CheckpointOk(c, a, i) && CheckpointOk(c, b, i);
  }

  lemma SameCheckpoint(c: Crypto, x: SignedCheckpoint, y: SignedCheckpoint, inputs: set<Input>)
    requires c.h.Valid() && EncodableCheckpoint(x.checkpoint) && EncodableCheckpoint(y.checkpoint)
    requires CheckpointInput(x.checkpoint) in inputs && CheckpointInput(y.checkpoint) in inputs && CollisionFree(c.h.digest, inputs)
    requires c.h.checkpoint(x.checkpoint) == c.h.checkpoint(y.checkpoint)
    ensures x.checkpoint == y.checkpoint
  {
    assert c.h.CheckpointAt(x.checkpoint) && c.h.CheckpointAt(y.checkpoint);
    CheckpointEncodingInjective(x.checkpoint, y.checkpoint);
  }

  predicate CoversSeq(sc: SignedCheckpoint, s: int) {
    sc.checkpoint.fromSeq as int <= s <= sc.checkpoint.toSeq as int
  }

  lemma {:induction false} EndsGrow(c: Crypto, st: StoreState, i: nat, j: nat)
    requires Reopens(c, st) && i < j < |st.checkpoints|
    ensures st.checkpoints[i].checkpoint.toSeq < st.checkpoints[j].checkpoint.fromSeq
  {
    assert CheckpointOk(c, st, j) && CheckpointOk(c, st, j - 1);
    if i < j - 1 {
      EndsGrow(c, st, i, j - 1);
    }
  }

  lemma {:induction false} SomeCovers(c: Crypto, st: StoreState, n: nat, s: int) returns (i: nat)
    requires Reopens(c, st) && n <= |st.checkpoints| && 0 <= s < NextFrom(st.checkpoints, n)
    ensures i < n && CoversSeq(st.checkpoints[i], s)
  {
    assert CheckpointOk(c, st, n - 1);
    if st.checkpoints[n - 1].checkpoint.fromSeq as int <= s {
      i := n - 1;
    } else {
      i := SomeCovers(c, st, n - 1, s);
    }
  }

  /** The checkpoints of a store that opens cover every sequence number up to the last end exactly once, and none beyond. */
  lemma OpenedCoversOnce(c: Crypto, st: StoreState, s: int)
    requires Reopens(c, st) && st.checkpoints != []
    ensures (exists i :: 0 <= i < |st.checkpoints| && CoversSeq(st.checkpoints[i], s))
      <==> 0 <= s <= st.checkpoints[|st.checkpoints| - 1].checkpoint.toSeq as int
    ensures forall i, j | 0 <= i < |st.checkpoints| && 0 <= j < |st.checkpoints| ::
      CoversSeq(st.checkpoints[i], s) && CoversSeq(st.checkpoints[j], s) ==> i == j
  {
    var n := |st.checkpoints|;
    if 0 <= s <= st.checkpoints[n - 1].checkpoint.toSeq as int {
      var i := SomeCovers(c, st, n, s);
    }
    if i :| 0 <= i < n && CoversSeq(st.checkpoints[i], s) {
      if i < n - 1 {
        EndsGrow(c, st, i, n - 1);
        assert CheckpointOk(c, st, n - 1);
      }
    }
    forall i, j | 0 <= i < n && 0 <= j < n && CoversSeq(st.checkpoints[i], s) && CoversSeq(st.checkpoints[j], s) ensures i == j {
      if i < j {
        EndsGrow(c, st, i, j);
      } else if j < i {
        EndsGrow(c, st, j, i);
      }
    }
  }
}
