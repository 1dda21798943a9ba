/** `hash.rs`: domain-separated digests. The digest function is a parameter of
    everything below: what is proved holds for every function, and where the
    source relies on collision resistance the hypothesis is that no two of the
    inputs actually hashed collide. */
module Hashing {
  import opened Bytes
  import opened Canonical

  const RECORD: Byte := 0x01
  const MERKLE_LEAF: Byte := 0x02
  const MERKLE_NODE: Byte := 0x03
  const CHECKPOINT: Byte := 0x04
  const ORIGIN_RECORD: Byte := 0x0A
  const DEPLOYMENT_BUNDLE: Byte := 0x0B
  const SESSION_CERT: Byte := 0x0C

  type Digest = (Byte, seq<Byte>) -> Hash

  /** Anchor of a chain. */
  const GENESIS: Hash :=
    [0, 0, 0, 0, 0, 0, 0, 0, 0, 0, 0, 0, 0, 0, 0, 0,
     0, 0, 0, 0, 0, 0, 0, 0, 0, 0, 0, 0, 0, 0, 0, 0]

  /** One hashed input: its domain byte and its body. */
  datatype Input = Input(domain: Byte, body: seq<Byte>)

  function Apply(digest: Digest, i: Input): Hash {
    digest(i.domain, i.body)
  }

  /** No two distinct inputs of the set share a digest. */
  ghost predicate CollisionFree(digest: Digest, inputs: set<Input>) {
    forall i, j :: i in inputs && j in inputs && Apply(digest, i) == Apply(digest, j) ==> i == j
  }

  lemma CollisionFreeSubset(digest: Digest, small: set<Input>, large: set<Input>)
    requires small <= large && CollisionFree(digest, large)
    ensures CollisionFree(digest, small)
  {
  }
}
