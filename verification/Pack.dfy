/** What the ledger stores and what an auditor receives. */
module Pack {
  import opened Bytes
  import opened Canonical
  import opened Records
  import opened Chain
  import opened Origin

  datatype SignedCheckpoint = SignedCheckpoint(checkpoint: Checkpoint, signature: Text)
  datatype Anchor = Anchor(checkpointHash: Hash, tokenHex: Text, tsa: Option<Text>)

  datatype Evidence = Evidence(format: Text, chainId: Text, records: seq<SignedRecord>,
                               checkpoints: seq<SignedCheckpoint>, keys: seq<KeyEntry>,
                               anchors: seq<Anchor>, deployment: Option<SignedDeployment>)

  /** `SignedCheckpoint::verify`. */
  predicate VerifySeal(c: Crypto, sc: SignedCheckpoint, key: Key) {
    c.verifies(key, c.h.checkpoint(sc.checkpoint), sc.signature)
  }

  function Plain(rs: seq<SignedRecord>): (ps: seq<Record>)
    ensures |ps| == |rs|
    ensures forall i :: 0 <= i < |rs| ==> ps[i] == rs[i].record
  {
    seq(|rs|, i requires 0 <= i < |rs| => rs[i].record)
  }

  /** What the hash of a checkpoint at position i must chain from. */
  function PrevHash(c: Crypto, cps: seq<SignedCheckpoint>, i: nat): Option<Hash>
    requires i <= |cps|
  {
    if i == 0 then None else Some(c.h.checkpoint(cps[i - 1].checkpoint))
  }
}
