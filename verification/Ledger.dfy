/** `store.rs`: the ledger's durable lists, checked on every open and every append. */
module Ledger {
  import opened Bytes
  import opened Canonical
  import opened Origin
  import opened Pack

  datatype StoreState = StoreState(chainId: Text, checkpoints: seq<SignedCheckpoint>, anchors: seq<Anchor>,
                                   keys: seq<KeyEntry>)

  datatype StoreError = StoreBroken | KeyConflict | BadKey | BadSignature | UnknownCheckpoint

  /** First entry under an id. */
  function FindKey(keys: seq<KeyEntry>, id: Text): (r: Option<KeyEntry>)
    ensures r.Some? ==> r.value in keys && r.value.keyId == id
    ensures r.None? <==> forall k :: k in keys ==> k.keyId != id
  {
    if keys == [] then None
    else if keys[0].keyId == id then Some(keys[0]) else FindKey(keys[1..], id)
  }

  lemma {:induction false} FindKeyAppend(keys: seq<KeyEntry>, k: KeyEntry, id: Text)
    ensures FindKey(keys + [k], id) == if FindKey(keys, id).Some? then FindKey(keys, id)
                                       else if k.keyId == id then Some(k) else None
  {
    if keys == [] {
      assert keys + [k] == [k];
    } else {
      FindKeyAppend(keys[1..], k, id);
      assert (keys + [k])[1..] == keys[1..] + [k];
    }
  }

  /** Where coverage resumes after the first i checkpoints. */
  function NextFrom(cps: seq<SignedCheckpoint>, i: nat): (n: int)
    requires i <= |cps|
  {
    if i == 0 then 0 else cps[i - 1].checkpoint.toSeq as int + 1
  }

  /** A seal whose recorded key, looked up by the id the seal names, verifies it. */
  predicate SealResolves(c: Crypto, keys: seq<KeyEntry>, sc: SignedCheckpoint) {
    var k := FindKey(keys, sc.checkpoint.keyId);
    k.Some? && ToKey(c, k.value).Some? && VerifySeal(c, sc, ToKey(c, k.value).value)
  }

  /** What `open` demands of the checkpoint at position i. */
  predicate CheckpointOk(c: Crypto, st: StoreState, i: nat)
    requires i < |st.checkpoints|
  {
    var cp := st.checkpoints[i].checkpoint;
    && cp.chainId == st.chainId
    && cp.prevCheckpointHash == PrevHash(c, st.checkpoints, i)
    && cp.fromSeq as int == NextFrom(st.checkpoints, i) && cp.fromSeq <= cp.toSeq
    && SealResolves(c, st.keys, st.checkpoints[i])
  }

  predicate AnchorOk(c: Crypto, cps: seq<SignedCheckpoint>, a: Anchor) {
    exists i :: 0 <= i < |cps| && c.h.checkpoint(cps[i].checkpoint) == a.checkpointHash
  }

  /** A store that `open` accepts. */
  predicate Reopens(c: Crypto, st: StoreState) {
    && (forall i :: 0 <= i < |st.checkpoints| ==> CheckpointOk(c, st, i))
    && (forall i :: 0 <= i < |st.anchors| ==> AnchorOk(c, st.checkpoints, st.anchors[i]))
  }

  /** `record_key` on the key list: one id, one key, forever. */
  function RecordKey(keys: seq<KeyEntry>, key: KeyEntry): Result<seq<KeyEntry>, StoreError> {
    var existing := FindKey(keys, key.keyId);
    if existing.Some? then
      if existing.value.publicKey != key.publicKey || existing.value.algo != key.algo then Err(KeyConflict) else Ok(keys)
    else Ok(keys + [key])
  }

  /** `append_checkpoint` on the store's contents: the new contents and what is returned. The key is recorded
      before the signature is checked, so a refused seal can still leave its key behind. */
  function AppendCheckpointSpec(c: Crypto, st: StoreState, sc: SignedCheckpoint, key: KeyEntry)
    : (StoreState, Result<(), StoreError>)
  {
    var cp, n := sc.checkpoint, |st.checkpoints|;
    if cp.chainId != st.chainId || cp.prevCheckpointHash != PrevHash(c, st.checkpoints, n)
       || cp.fromSeq as int != NextFrom(st.checkpoints, n) || cp.toSeq < cp.fromSeq then (st, Err(StoreBroken))
    else
      match RecordKey(st.keys, key)
      case Err(e) => (st, Err(e))
      case Ok(keys) =>
        var st' := st.(keys := keys);
        match ToKey(c, key)
        case None => (st', Err(BadKey))
        case Some(vk) =>
          if !VerifySeal(c, sc, vk) then (st', Err(BadSignature))
          else (st'.(checkpoints := st.checkpoints + [sc]), Ok(()))
  }

  class Store {
    const c: Crypto
    const chainId: Text
    var checkpoints: seq<SignedCheckpoint>
    var anchors: seq<Anchor>
    var keys: seq<KeyEntry>

    function Contents(): StoreState
      reads this
    {
      StoreState(chainId, checkpoints, anchors, keys)
    }

    constructor (c: Crypto, st: StoreState)
      ensures this.c == c && Contents() == st
    {
      this.c := c;
      chainId, checkpoints, anchors, keys := st.chainId, st.checkpoints, st.anchors, st.keys;
    }

    method LastHash() returns (r: Option<Hash>)
      requires c.h.Valid()
      ensures r == PrevHash(c, checkpoints, |checkpoints|)
    {
      if checkpoints == [] {
        return None;
      }
      var h := c.h.HashCheckpoint(checkpoints[|checkpoints| - 1].checkpoint);
      return Some(h);
    }

    method RecordSealingKey(key: KeyEntry) returns (r: Result<(), StoreError>)
      modifies this`keys
      ensures RecordKey(old(keys), key).Ok? ==> r.Ok? && keys == RecordKey(old(keys), key).value
      ensures RecordKey(old(keys), key).Err? ==> r == Err(RecordKey(old(keys), key).error) && keys == old(keys)
    {
      var existing := FindKey(keys, key.keyId);
      if existing.Some? {
        if existing.value.publicKey != key.publicKey || existing.value.algo != key.algo {
          return Err(KeyConflict);
        }
        return Ok(());
      }
      keys := keys + [key];
      return Ok(());
    }

    method AppendCheckpoint(sc: SignedCheckpoint, key: KeyEntry) returns (r: Result<(), StoreError>)
      requires c.h.Valid()
      modifies this
      ensures (Contents(), r) == AppendCheckpointSpec(c, old(Contents()), sc, key)
    {
      var cp := sc.checkpoint;
      if cp.chainId != chainId {
        return Err(StoreBroken);
      }
      var last := LastHash();
      if cp.prevCheckpointHash != last {
        return Err(StoreBroken);
      }
      var nextFrom := if checkpoints == [] then 0 else checkpoints[|checkpoints| - 1].checkpoint.toSeq as int + 1;
      if cp.fromSeq as int != nextFrom || cp.toSeq < cp.fromSeq {
        return Err(StoreBroken);
      }
      var recorded := RecordSealingKey(key);
      if recorded.Err? {
        return recorded;
      }
      var vk := ToKey(c, key);
      if vk.None? {
        return Err(BadKey);
      }
      var h := c.h.HashCheckpoint(cp);
      if !c.verifies(vk.value, h, sc.signature) {
        return Err(BadSignature);
      }
      checkpoints := checkpoints + [sc];
      return Ok(());
    }

    method AppendAnchor(a: Anchor) returns (r: Result<(), StoreError>)
      requires c.h.Valid()
      modifies this`anchors
      ensures r.Ok? <==> AnchorOk(c, checkpoints, a)
      ensures anchors == if r.Ok? then old(anchors) + [a] else old(anchors)
    {
      var found := false;
      for i := 0 to |checkpoints|
        invariant found <==> exists j :: 0 <= j < i && c.h.checkpoint(checkpoints[j].checkpoint) == a.checkpointHash
        invariant anchors == old(anchors)
      {
        var h := c.h.HashCheckpoint(checkpoints[i].checkpoint);
        found := found || h == a.checkpointHash;
      }
      if !found {
        return Err(UnknownCheckpoint);
      }
      anchors := anchors + [a];
      return Ok(());
    }
  }

  /** `Store::open` over what was read from disk: everything re-verified. */
  method Open(c: Crypto, st: StoreState) returns (store: Store?)
    requires c.h.Valid()
    ensures store != null <==> Reopens(c, st)
    ensures store != null ==> fresh(store) && store.c == c && store.Contents() == st
  {
    var prevHash: Option<Hash> := None;
    var nextFrom := 0;
    for i := 0 to |st.checkpoints|
      invariant forall j :: 0 <= j < i ==> CheckpointOk(c, st, j)
      invariant prevHash == PrevHash(c, st.checkpoints, i)
      invariant nextFrom == NextFrom(st.checkpoints, i)
    {
      var sc := st.checkpoints[i];
      var cp := sc.checkpoint;
      var key := FindKey(st.keys, cp.keyId);
      if cp.chainId != st.chainId || cp.prevCheckpointHash != prevHash
         || cp.fromSeq as int != nextFrom || cp.toSeq < cp.fromSeq || key.None? {
        assert !CheckpointOk(c, st, i);
        return null;
      }
      var vk := ToKey(c, key.value);
      var h := c.h.HashCheckpoint(cp);
      if vk.None? || !c.verifies(vk.value, h, sc.signature) {
        assert !CheckpointOk(c, st, i);
        return null;
      }
      prevHash := Some(h);
      nextFrom := cp.toSeq as int + 1;
    }
    for i := 0 to |st.anchors|
      invariant forall j :: 0 <= j < i ==> AnchorOk(c, st.checkpoints, st.anchors[j])
    {
      var found := false;
      for j := 0 to |st.checkpoints|
        invariant found <==> exists k :: 0 <= k < j && c.h.checkpoint(st.checkpoints[k].checkpoint) == st.anchors[i].checkpointHash
      {
        var h := c.h.HashCheckpoint(st.checkpoints[j].checkpoint);
        found := found || h == st.anchors[i].checkpointHash;
      }
      if !found {
        assert !AnchorOk(c, st.checkpoints, st.anchors[i]);
        return null;
      }
    }
    store := new Store(c, st);
  }

  // ------------------------------------------------- what an append keeps

  /** Recording a key never changes which key an id already resolves to. */
  lemma RecordKeyKeeps(c: Crypto, keys: seq<KeyEntry>, key: KeyEntry, sc: SignedCheckpoint)
    requires RecordKey(keys, key).Ok? && SealResolves(c, keys, sc)
    ensures SealResolves(c, RecordKey(keys, key).value, sc)
  {
    FindKeyAppend(keys, key, sc.checkpoint.keyId);
  }

  lemma AnchorKept(c: Crypto, cps: seq<SignedCheckpoint>, sc: SignedCheckpoint, a: Anchor)
    requires AnchorOk(c, cps, a)
    ensures AnchorOk(c, cps + [sc], a)
  {
    var i :| 0 <= i < |cps| && c.h.checkpoint(cps[i].checkpoint) == a.checkpointHash;
    assert (cps + [sc])[i] == cps[i];
  }

  /** After any append to a store that reopens, the store still reopens, except that a successful append
      reopens exactly when the seal's own key id resolves to a key that verifies it. */
  lemma AppendReopens(c: Crypto, st: StoreState, sc: SignedCheckpoint, key: KeyEntry)
    requires Reopens(c, st)
    ensures var (st', r) := AppendCheckpointSpec(c, st, sc, key);
      && (r.Err? ==> Reopens(c, st') && st'.checkpoints == st.checkpoints && st'.anchors == st.anchors)
      && (r.Ok? ==> (Reopens(c, st') <==> SealResolves(c, RecordKey(st.keys, key).value, sc)))
  {
    var (st', r) := AppendCheckpointSpec(c, st, sc, key);
    forall i | 0 <= i < |st.checkpoints| ensures CheckpointOk(c, st', i) {
      assert CheckpointOk(c, st, i);
      if st'.keys != st.keys {
        RecordKeyKeeps(c, st.keys, key, st.checkpoints[i]);
      }
    }
    forall i | 0 <= i < |st.anchors| ensures AnchorOk(c, st'.checkpoints, st'.anchors[i]) {
      assert AnchorOk(c, st.checkpoints, st.anchors[i]);
      if r.Ok? {
        AnchorKept(c, st.checkpoints, sc, st.anchors[i]);
      }
    }
    if r.Ok? {
      var n := |st.checkpoints|;
      assert CheckpointOk(c, st', n) <==> SealResolves(c, st'.keys, sc);
    }
  }

  /** A seal appended under the key it names always reopens. */
  lemma HonestAppendReopens(c: Crypto, st: StoreState, sc: SignedCheckpoint, key: KeyEntry)
    requires Reopens(c, st) && sc.checkpoint.keyId == key.keyId
    ensures Reopens(c, AppendCheckpointSpec(c, st, sc, key).0)
  {
    AppendReopens(c, st, sc, key);
    if AppendCheckpointSpec(c, st, sc, key).1.Ok? {
      FindKeyAppend(st.keys, key, key.keyId);
    }
  }
}
