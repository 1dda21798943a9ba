/** `checkpoint.rs` and `lib.rs`: seals over intervals of the chain, and the
    writer that keeps `seq` and `prev_hash`. */
module Chain {
  import opened Bytes
  import opened Canonical
  import opened Hashing
  import opened Records
  import Merkle

  // ------------------------------------------------- record hashes

  function RecordInput(r: Record): Input {
    Input(RECORD, EncRecord(r))
  }

  /** `Record::hash`. */
  function RecordHash(digest: Digest, r: Record): Hash {
    Apply(digest, RecordInput(r))
  }

  /** A digest function with the two hashes derived from it, named so that links
      between records can be reasoned about without their encodings. */
  datatype Hasher = Hasher(digest: Digest, record: Record -> Hash, checkpoint: Checkpoint -> Hash) {

    predicate RecordAt(r: Record) {
      record(r) == RecordHash(digest, r)
    }

    predicate CheckpointAt(c: Checkpoint) {
      checkpoint(c) == CheckpointHash(digest, c)
    }

    ghost predicate Valid() {
      (forall r :: RecordAt(r)) && (forall c :: CheckpointAt(c))
    }

    method HashRecord(r: Record) returns (h: Hash)
      requires Valid()
      ensures h == record(r)
    {
      assert RecordAt(r);
      var body := EncodeRecord(r);
      h := digest(RECORD, body);
    }

    /** `Checkpoint::hash`, which is also `Checkpoint::signing_bytes`. */
    method HashCheckpoint(c: Checkpoint) returns (h: Hash)
      requires Valid()
      ensures h == checkpoint(c)
    {
      assert CheckpointAt(c);
      h := SigningBytes(digest, c);
    }
  }

  /** Every digest function has its hasher. */
  function HasherOf(digest: Digest): (h: Hasher)
    ensures h.digest == digest && h.Valid()
  {
    var h := Hasher(digest, r => RecordHash(digest, r), c => CheckpointHash(digest, c));
    assert forall r :: h.RecordAt(r);
    assert forall c :: h.CheckpointAt(c);
    h
  }

  function Hashes(h: Hasher, rs: seq<Record>): (hs: seq<Hash>)
    ensures |hs| == |rs|
    ensures forall i :: 0 <= i < |rs| ==> hs[i] == h.record(rs[i])
  {
    seq(|rs|, i requires 0 <= i < |rs| => h.record(rs[i]))
  }

  /** A record follows the one before it: next `seq`, and `prev_hash` its hash. */
  predicate FollowsAt(h: Hasher, rs: seq<Record>, i: nat)
    requires 0 < i < |rs|
  {
    rs[i].seqNo as int == rs[i - 1].seqNo as int + 1 && rs[i].prevHash == h.record(rs[i - 1])
  }

  predicate Contiguous(h: Hasher, rs: seq<Record>) {
    forall i :: 0 < i < |rs| ==> FollowsAt(h, rs, i)
  }

  /** A well-linked log starting at a given position after a given hash. */
  predicate LinkedFrom(h: Hasher, rs: seq<Record>, start: int, head: Hash) {
    Contiguous(h, rs) && (rs != [] ==> rs[0].seqNo as int == start && rs[0].prevHash == head)
  }

  /** A whole chain, from genesis. */
  predicate Linked(h: Hasher, rs: seq<Record>) {
    LinkedFrom(h, rs, 0, GENESIS)
  }

  lemma {:induction false} SeqIsPosition(h: Hasher, rs: seq<Record>, start: int, head: Hash, i: nat)
    requires LinkedFrom(h, rs, start, head) && i < |rs|
    ensures rs[i].seqNo as int == start + i
  {
    if i > 0 {
      SeqIsPosition(h, rs, start, head, i - 1);
      assert FollowsAt(h, rs, i);
    }
  }

  // ------------------------------------------------- checkpoints

  datatype Checkpoint = Checkpoint(chainId: Text, fromSeq: Word, toSeq: Word, root: Hash, headHash: Hash,
                                   prevCheckpointHash: Option<Hash>, tsMs: SignedWord, keyId: Text)

  function EncCheckpoint(c: Checkpoint): seq<Byte> {
    EncText(c.chainId) + (EncWord(c.fromSeq) + (EncWord(c.toSeq) + (c.root + (c.headHash
    + (EncOptHash(c.prevCheckpointHash) + (EncSigned(c.tsMs) + EncText(c.keyId)))))))
  }

  function CheckpointInput(c: Checkpoint): Input {
    Input(CHECKPOINT, EncCheckpoint(c))
  }

  /** `Checkpoint::hash`, which is also what is signed. */
  function CheckpointHash(digest: Digest, c: Checkpoint): Hash {
    Apply(digest, CheckpointInput(c))
  }

  /** `Checkpoint::signing_bytes`. */
  method SigningBytes(digest: Digest, c: Checkpoint) returns (bytes: Hash)
    ensures bytes == CheckpointHash(digest, c)
  {
    var e := new Encoder();
    e.Str(c.chainId);
    e.U64(c.fromSeq);
    e.U64(c.toSeq);
    e.Digest(c.root);
    e.Digest(c.headHash);
    e.OptHash(c.prevCheckpointHash);
    e.I64(c.tsMs);
    assert e.buf == ((((((EncText(c.chainId) + EncWord(c.fromSeq)) + EncWord(c.toSeq)) + c.root) + c.headHash)
                     + EncOptHash(c.prevCheckpointHash)) + EncSigned(c.tsMs)) by {
      assert [] + EncText(c.chainId) == EncText(c.chainId);
    }
    e.Str(c.keyId);
    Cat7(EncText(c.chainId), EncWord(c.fromSeq), EncWord(c.toSeq), c.root, c.headHash,
         EncOptHash(c.prevCheckpointHash), EncSigned(c.tsMs), EncText(c.keyId));
    bytes := digest(CHECKPOINT, e.buf);
  }

  predicate EncodableCheckpoint(c: Checkpoint) {
    Short(c.chainId) && Short(c.keyId)
  }

  /** The signed bytes pin every field of the checkpoint. */
  lemma CheckpointEncodingInjective(a: Checkpoint, b: Checkpoint)
    requires EncodableCheckpoint(a) && EncodableCheckpoint(b) && EncCheckpoint(a) == EncCheckpoint(b)
    ensures a == b
  {
    var x7, y7 := EncText(a.keyId), EncText(b.keyId);
    var x6, y6 := EncSigned(a.tsMs) + x7, EncSigned(b.tsMs) + y7;
    var x5, y5 := EncOptHash(a.prevCheckpointHash) + x6, EncOptHash(b.prevCheckpointHash) + y6;
    var x4, y4 := a.headHash + x5, b.headHash + y5;
    var x3, y3 := a.root + x4, b.root + y4;
    var x2, y2 := EncWord(a.toSeq) + x3, EncWord(b.toSeq) + y3;
    var x1, y1 := EncWord(a.fromSeq) + x2, EncWord(b.fromSeq) + y2;
    PeelText(a.chainId, b.chainId, x1, y1, [], []);
    PeelWord(a.fromSeq, b.fromSeq, x2, y2, [], []);
    PeelWord(a.toSeq, b.toSeq, x3, y3, [], []);
    PeelHash(a.root, b.root, x4, y4, [], []);
    PeelHash(a.headHash, b.headHash, x5, y5, [], []);
    PeelOptHash(a.prevCheckpointHash, b.prevCheckpointHash, x6, y6, [], []);
    PeelSigned(a.tsMs, b.tsMs, x7, y7, [], []);
    ReadText(a.keyId, b.keyId, [], []);
  }

  datatype SealError = EmptySeal | BrokenInterval

  /** What a checkpoint over a slice of records is. */
  function SealOf(h: Hasher, chainId: Text, rs: seq<Record>, prev: Option<Hash>, tsMs: SignedWord, keyId: Text)
    : Result<Checkpoint, SealError>
  {
    if rs == [] then Err(EmptySeal)
    else if !Contiguous(h, rs) then Err(BrokenInterval)
    else
      var last := rs[|rs| - 1];
      Ok(Checkpoint(chainId, rs[0].seqNo, last.seqNo, Merkle.Root(h.digest, Hashes(h, rs)).value,
                    h.record(last), prev, tsMs, keyId))
  }

  /** A seal is refused exactly for no records, or for records that do not follow one another; otherwise it holds the ends
      of the interval, the root of its hashes and the last of them. */
  lemma SealMeans(h: Hasher, chainId: Text, rs: seq<Record>, prev: Option<Hash>, tsMs: SignedWord, keyId: Text)
    ensures var s := SealOf(h, chainId, rs, prev, tsMs, keyId);
      && (s == Err(EmptySeal) <==> rs == [])
      && (s.Ok? <==> rs != [] && forall i :: 0 < i < |rs| ==>
           rs[i].seqNo as int == rs[i - 1].seqNo as int + 1 && rs[i].prevHash == h.record(rs[i - 1]))
      && (s.Ok? ==>
           var cp, last := s.value, rs[|rs| - 1];
           && (cp.fromSeq, cp.toSeq, cp.headHash) == (rs[0].seqNo, last.seqNo, h.record(last))
           && (cp.chainId, cp.prevCheckpointHash, cp.tsMs, cp.keyId) == (chainId, prev, tsMs, keyId)
           && Some(cp.root) == Merkle.Root(h.digest, Hashes(h, rs)))
  {
    assert Contiguous(h, rs) <==> forall i :: 0 < i < |rs| ==>
      rs[i].seqNo as int == rs[i - 1].seqNo as int + 1 && rs[i].prevHash == h.record(rs[i - 1]) by {
      forall i | 0 < i < |rs|
        ensures FollowsAt(h, rs, i) <==> rs[i].seqNo as int == rs[i - 1].seqNo as int + 1 && rs[i].prevHash == h.record(rs[i - 1]) {
      }
    }
  }

  /** `seal_interval`. */
  method SealInterval(h: Hasher, chainId: Text, rs: seq<Record>, prev: Option<Hash>, tsMs: SignedWord, keyId: Text)
    returns (r: Result<Checkpoint, SealError>)
    requires h.Valid()
    ensures r == SealOf(h, chainId, rs, prev, tsMs, keyId)
  {
    if rs == [] {
      return Err(EmptySeal);
    }
    var leaves: seq<Hash> := [];
    var before: Option<(Word, Hash)> := None;
    for i := 0 to |rs|
      invariant leaves == Hashes(h, rs)[..i]
      invariant before == if i == 0 then None else Some((rs[i - 1].seqNo, h.record(rs[i - 1])))
      invariant forall j :: 0 < j < i ==> FollowsAt(h, rs, j)
    {
      if before.Some? {
        if rs[i].seqNo as int != before.value.0 as int + 1 {
          assert !FollowsAt(h, rs, i);
          return Err(BrokenInterval);
        }
        if rs[i].prevHash != before.value.1 {
          assert !FollowsAt(h, rs, i);
          return Err(BrokenInterval);
        }
      }
      var rh := h.HashRecord(rs[i]);
      leaves := leaves + [rh];
      before := Some((rs[i].seqNo, rh));
    }
    assert leaves == Hashes(h, rs);
    var root := Merkle.MerkleRoot(h.digest, leaves);
    r := Ok(Checkpoint(chainId, rs[0].seqNo, before.value.0, root.value, before.value.1, prev, tsMs, keyId));
  }

  // ------------------------------------------------- the chain writer

  class ChainWriter {
    const h: Hasher
    const chainId: Text
    var nextSeq: Word
    var head: Hash
    var pending: seq<Hash>
    var pendingFrom: Word
    var lastCheckpoint: Option<Hash>

    /** Where this writer took the chain up, and every record it appended. */
    ghost const baseSeq: Word
    ghost const baseHead: Hash
    ghost var log: seq<Record>
    ghost var sealedLen: nat

    ghost predicate Valid()
      reads this
    {
      && h.Valid() && sealedLen <= |log|
      && LinkedFrom(h, log, baseSeq, baseHead)
      && nextSeq as int == baseSeq as int + |log|
      && head == (if log == [] then baseHead else h.record(log[|log| - 1]))
      && pending == Hashes(h, log[sealedLen..])
      && pendingFrom as int == baseSeq as int + sealedLen
    }

    /** New chain, anchored on genesis. */
    constructor (h: Hasher, chainId: Text)
      requires h.Valid()
      ensures Valid() && log == [] && this.h == h && this.chainId == chainId
      ensures baseSeq == 0 && baseHead == GENESIS && lastCheckpoint == None
    {
      this.h := h;
      this.chainId := chainId;
      nextSeq, head, pending, pendingFrom, lastCheckpoint := 0, GENESIS, [], 0, None;
      baseSeq, baseHead, log, sealedLen := 0, GENESIS, [], 0;
    }

    /** Resume an existing chain. */
    constructor Resume(h: Hasher, chainId: Text, nextSeq: Word, head: Hash, lastCheckpoint: Option<Hash>)
      requires h.Valid()
      ensures Valid() && log == [] && this.h == h && this.chainId == chainId
      ensures baseSeq == nextSeq && baseHead == head && this.lastCheckpoint == lastCheckpoint
    {
      this.h := h;
      this.chainId := chainId;
      this.nextSeq, this.head, pending, pendingFrom := nextSeq, head, [], nextSeq;
      this.lastCheckpoint := lastCheckpoint;
      baseSeq, baseHead, log, sealedLen := nextSeq, head, [], 0;
    }

    /** Appends a record, giving it its position and linking it to the head. */
    method Append(tsMs: SignedWord, id: Text, parentId: Option<Text>, sessionId: Text, payload: Payload) returns (rec: Record)
      requires Valid() && nextSeq < 0xFFFF_FFFF_FFFF_FFFF
      modifies this
      ensures Valid()
      ensures rec == Record(old(nextSeq), tsMs, old(head), id, parentId, sessionId, payload)
      ensures log == old(log) + [rec]
      ensures sealedLen == old(sealedLen) && lastCheckpoint == old(lastCheckpoint)
    {
      rec := Record(nextSeq, tsMs, head, id, parentId, sessionId, payload);
      var rh := h.HashRecord(rec);
      if pending == [] {
        pendingFrom := rec.seqNo;
      }
      pending := pending + [rh];
      head := rh;
      nextSeq := nextSeq + 1;
      AppendKeepsLinks(h, log, baseSeq as int, baseHead, rec);
      HashesSnoc(h, log, sealedLen, rec);
      log := log + [rec];
    }

    /** The checkpoint over everything appended since the last seal: exactly what `SealInterval` makes of it. */
    method Draft(tsMs: SignedWord, keyId: Text) returns (r: Option<Checkpoint>)
      requires Valid()
      ensures r.None? <==> sealedLen == |log|
      ensures r.Some? ==> SealOf(h, chainId, log[sealedLen..], lastCheckpoint, tsMs, keyId) == Ok(r.value)
    {
      var root := Merkle.MerkleRoot(h.digest, pending);
      if root.None? {
        return None;
      }
      TailSeal(h, log, baseSeq as int, baseHead, sealedLen, chainId, lastCheckpoint, tsMs, keyId);
      return Some(Checkpoint(chainId, pendingFrom, nextSeq - 1, root.value, head, lastCheckpoint, tsMs, keyId));
    }

    /** Seals what is pending and starts the next interval. */
    method Seal(tsMs: SignedWord, keyId: Text) returns (r: Option<Checkpoint>)
      requires Valid()
      modifies this
      ensures Valid() && log == old(log) && nextSeq == old(nextSeq) && head == old(head)
      ensures r.None? <==> old(sealedLen) == |log|
      ensures r.None? ==> sealedLen == old(sealedLen) && lastCheckpoint == old(lastCheckpoint)
      ensures r.Some? ==> SealOf(h, chainId, log[old(sealedLen)..], old(lastCheckpoint), tsMs, keyId) == Ok(r.value)
      ensures r.Some? ==> sealedLen == |log| && lastCheckpoint == Some(h.checkpoint(r.value))
    {
      r := Draft(tsMs, keyId);
      if r.Some? {
        NextInterval(r.value);
      }
    }

    method NextInterval(cp: Checkpoint)
      requires Valid()
      modifies this
      ensures Valid() && log == old(log) && nextSeq == old(nextSeq) && head == old(head)
      ensures sealedLen == |log| && lastCheckpoint == Some(h.checkpoint(cp))
    {
      var bytes := h.HashCheckpoint(cp);
      lastCheckpoint := Some(bytes);
      pending := [];
      pendingFrom := nextSeq;
      sealedLen := |log|;
      assert log[|log|..] == [];
    }
  }

  lemma AppendKeepsLinks(h: Hasher, rs: seq<Record>, start: int, head: Hash, rec: Record)
    requires LinkedFrom(h, rs, start, head)
    requires rec.seqNo as int == start + |rs|
    requires rec.prevHash == if rs == [] then head else h.record(rs[|rs| - 1])
    ensures LinkedFrom(h, rs + [rec], start, head)
  {
    if rs != [] {
      SeqIsPosition(h, rs, start, head, |rs| - 1);
    }
    forall i | 0 < i < |rs + [rec]| ensures FollowsAt(h, rs + [rec], i) {
      if i < |rs| {
        assert FollowsAt(h, rs, i);
      }
    }
  }

  lemma HashesSnoc(h: Hasher, rs: seq<Record>, k: nat, rec: Record)
    requires k <= |rs|
    ensures Hashes(h, (rs + [rec])[k..]) == Hashes(h, rs[k..]) + [h.record(rec)]
  {
    assert (rs + [rec])[k..] == rs[k..] + [rec];
  }

  /** The seal of the unsealed tail of a well-linked log. */
  lemma TailSeal(h: Hasher, rs: seq<Record>, start: int, head: Hash, k: nat, chainId: Text, prev: Option<Hash>,
                 tsMs: SignedWord, keyId: Text)
    requires LinkedFrom(h, rs, start, head) && k < |rs|
    requires 0 <= start && start + |rs| <= 0x1_0000_0000_0000_0000
    ensures SealOf(h, chainId, rs[k..], prev, tsMs, keyId)
      == Ok(Checkpoint(chainId, start + k, start + |rs| - 1, Merkle.Root(h.digest, Hashes(h, rs[k..])).value,
                       h.record(rs[|rs| - 1]), prev, tsMs, keyId))
  {
    SuffixContiguous(h, rs, k);
    SeqIsPosition(h, rs, start, head, k);
    SeqIsPosition(h, rs, start, head, |rs| - 1);
  }

  lemma SuffixContiguous(h: Hasher, rs: seq<Record>, k: nat)
    requires Contiguous(h, rs) && k <= |rs|
    ensures Contiguous(h, rs[k..])
  {
    forall i | 0 < i < |rs[k..]| ensures FollowsAt(h, rs[k..], i) {
      assert FollowsAt(h, rs, k + i);
    }
  }

  lemma SliceContiguous(h: Hasher, rs: seq<Record>, j: nat, k: nat)
    requires Contiguous(h, rs) && j <= k <= |rs|
    ensures Contiguous(h, rs[j..k])
  {
    forall i | 0 < i < k - j ensures FollowsAt(h, rs[j..k], i) {
      assert FollowsAt(h, rs, j + i);
    }
  }

  // ------------------------------------------------- one hash pins the whole prefix

  function RecordInputs(rs: seq<Record>): set<Input> {
    set r | r in rs :: RecordInput(r)
  }

  predicate AllEncodable(rs: seq<Record>) {
    forall i :: 0 <= i < |rs| ==> EncodableRecord(rs[i]) && IsUnderstood(rs[i].payload)
  }

  /** Equal hashes of two understood records come from equal records. */
  lemma SameHashSameRecord(h: Hasher, r: Record, s: Record, inputs: set<Input>)
    requires h.Valid() && CollisionFree(h.digest, inputs) && RecordInput(r) in inputs && RecordInput(s) in inputs
    requires EncodableRecord(r) && EncodableRecord(s) && IsUnderstood(r.payload)
    requires h.record(r) == h.record(s)
    ensures r == s
  {
    assert h.RecordAt(r) && h.RecordAt(s);
    assert RecordInput(r) == RecordInput(s);
    UnderstoodPinned(r, s);
  }

  lemma InputsInclude(rs: seq<Record>, k: nat, inputs: set<Input>)
    requires k < |rs| && RecordInputs(rs) <= inputs
    ensures RecordInput(rs[k]) in inputs
  {
    assert rs[k] in rs;
  }

  /** Two well-linked logs that agree on the hash at one position agree on everything up to it. */
  lemma {:induction false} PrefixPinned(h: Hasher, a: seq<Record>, b: seq<Record>, k: nat, inputs: set<Input>)
    requires Linked(h, a) && Linked(h, b) && AllEncodable(a) && AllEncodable(b)
    requires k < |a| && k < |b| && h.record(a[k]) == h.record(b[k])
    requires h.Valid() && CollisionFree(h.digest, inputs) && RecordInputs(a) <= inputs && RecordInputs(b) <= inputs
    ensures a[..k + 1] == b[..k + 1]
  {
    InputsInclude(a, k, inputs);
    InputsInclude(b, k, inputs);
    SameHashSameRecord(h, a[k], b[k], inputs);
    if k > 0 {
      assert FollowsAt(h, a, k) && FollowsAt(h, b, k);
      PrefixPinned(h, a, b, k - 1, inputs);
      assert a[..k + 1] == a[..k] + [a[k]] && b[..k + 1] == b[..k] + [b[k]];
    }
  }
}
