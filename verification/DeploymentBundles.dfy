/** `deployment.rs`: the signed deployment bundle that enrols identity keys.

    Keys and attestations are sorted by id before signing, and the segment of
    attestations is there only when there are any: its absence and an empty
    segment never meet in one body, since an empty one is never written. */
module DeploymentBundles {
  import opened Bytes
  import opened Canonical
  import opened SignedLists
  import opened Origin

  datatype Pcr = Pcr(index: Word, digest: Text)
  datatype Attestation = Attestation(keyId: Text, akPub: Text, ekCert: Text, certify: Text, quote: Text,
                                     identityPub: Option<Text>, expected: seq<Pcr>)
  datatype Bundle = Bundle(format: Text, version: Text, keys: seq<KeyEntry>, attestations: seq<Attestation>)

  function RoleText(r: KeyRole): Text {
    match r case SealRole => Ascii("seal") case OriginRole => Ascii("origin") case OpsRole => Ascii("ops")
  }

  lemma RoleTexts(a: KeyRole, b: KeyRole)
    requires RoleText(a) == RoleText(b)
    ensures a == b
  {
    assert |RoleText(SealRole)| == 4 && |RoleText(OriginRole)| == 6 && |RoleText(OpsRole)| == 3;
  }

  function KeyId(k: KeyEntry): Text { k.keyId }
  function AttId(a: Attestation): Text { a.keyId }

  function EncKey(k: KeyEntry): seq<Byte> {
    EncText(k.keyId) + (EncText(k.algo) + (EncText(k.publicKey) + EncText(RoleText(k.role))))
  }

  function EncPcr(p: Pcr): seq<Byte> {
    EncWord(p.index) + EncText(p.digest)
  }

  function EncAttestation(a: Attestation): seq<Byte> {
    EncText(a.keyId) + (EncText(a.akPub) + (EncText(a.ekCert) + (EncText(a.certify) + (EncText(a.quote)
    + (EncOptText(a.identityPub) + EncCounted(EncPcr, a.expected))))))
  }

  /** Absent when there is no attestation at all. */
  function AttestationPart(b: Bundle): seq<Byte> {
    if b.attestations == [] then [] else EncCounted(EncAttestation, SortBy(AttId, b.attestations))
  }

  /** The body that is digested and signed. */
  function Body(b: Bundle): seq<Byte> {
    EncText(b.format) + (EncText(b.version) + (EncCounted(EncKey, SortBy(KeyId, b.keys)) + AttestationPart(b)))
  }

  predicate ShortKey(k: KeyEntry) {
    Short(k.keyId) && Short(k.algo) && Short(k.publicKey)
  }

  predicate ShortAttestation(a: Attestation) {
    && Short(a.keyId) && Short(a.akPub) && Short(a.ekCert) && Short(a.certify) && Short(a.quote) && ShortOpt(a.identityPub)
    && Countable(a.expected) && forall p :: p in a.expected ==> Short(p.digest)
  }

  predicate ShortBundle(b: Bundle) {
    && Short(b.format) && Short(b.version)
    && Countable(b.keys) && (forall k :: k in b.keys ==> ShortKey(k))
    && Countable(b.attestations) && forall a :: a in b.attestations ==> ShortAttestation(a)
  }

  method EncodeKeys(e: Encoder, keys: seq<KeyEntry>)
    modifies e
    ensures e.buf == old(e.buf) + EncCounted(EncKey, keys)
  {
    e.U64(|keys| % 0x1_0000_0000_0000_0000);
    ghost var start := e.buf;
    for i := 0 to |keys|
      invariant e.buf + EncList(EncKey, keys[i..]) == start + EncList(EncKey, keys)
    {
      ListStep(EncKey, keys, i, e.buf);
      var k := keys[i];
      Cat4(e.buf, EncText(k.keyId), EncText(k.algo), EncText(k.publicKey), EncText(RoleText(k.role)));
      e.Str(k.keyId);
      e.Str(k.algo);
      e.Str(k.publicKey);
      e.Str(RoleText(k.role));
    }
    assert e.buf + [] == e.buf;
    Assoc(old(e.buf), EncWord(|keys| % 0x1_0000_0000_0000_0000), EncList(EncKey, keys));
  }

  method EncodePcrs(e: Encoder, ps: seq<Pcr>)
    modifies e
    ensures e.buf == old(e.buf) + EncCounted(EncPcr, ps)
  {
    e.U64(|ps| % 0x1_0000_0000_0000_0000);
    ghost var start := e.buf;
    for i := 0 to |ps|
      invariant e.buf + EncList(EncPcr, ps[i..]) == start + EncList(EncPcr, ps)
    {
      ListStep(EncPcr, ps, i, e.buf);
      Assoc(e.buf, EncWord(ps[i].index), EncText(ps[i].digest));
      e.U64(ps[i].index);
      e.Str(ps[i].digest);
    }
    assert e.buf + [] == e.buf;
    Assoc(old(e.buf), EncWord(|ps| % 0x1_0000_0000_0000_0000), EncList(EncPcr, ps));
  }

  method EncodeAttestation(e: Encoder, a: Attestation)
    modifies e
    ensures e.buf == old(e.buf) + EncAttestation(a)
  {
    Cat7(old(e.buf), EncText(a.keyId), EncText(a.akPub), EncText(a.ekCert), EncText(a.certify), EncText(a.quote),
         EncOptText(a.identityPub), EncCounted(EncPcr, a.expected));
    e.Str(a.keyId);
    e.Str(a.akPub);
    e.Str(a.ekCert);
    e.Str(a.certify);
    e.Str(a.quote);
    e.OptStr(a.identityPub);
    EncodePcrs(e, a.expected);
  }

  method EncodeAttestations(e: Encoder, ats: seq<Attestation>)
    modifies e
    ensures e.buf == old(e.buf) + EncCounted(EncAttestation, ats)
  {
    e.U64(|ats| % 0x1_0000_0000_0000_0000);
    EncodeAttestationItems(e, ats);
    Assoc(old(e.buf), EncWord(|ats| % 0x1_0000_0000_0000_0000), EncList(EncAttestation, ats));
  }

  method EncodeAttestationItems(e: Encoder, ats: seq<Attestation>)
    modifies e
    ensures e.buf == old(e.buf) + EncList(EncAttestation, ats)
  {
    for i := 0 to |ats|
      invariant e.buf + EncList(EncAttestation, ats[i..]) == old(e.buf) + EncList(EncAttestation, ats)
    {
      ListStep(EncAttestation, ats, i, e.buf);
      EncodeAttestation(e, ats[i]);
    }
    assert e.buf + [] == e.buf;
  }

  /** `DeploymentBundle::signing_bytes`, before the digest. */
  method SigningBody(b: Bundle) returns (body: seq<Byte>)
    ensures body == Body(b)
  {
    var e := new Encoder();
    e.Str(b.format);
    assert [] + EncText(b.format) == EncText(b.format);
    e.Str(b.version);
    EncodeKeys(e, SortBy(KeyId, b.keys));
    if b.attestations != [] {
      EncodeAttestations(e, SortBy(AttId, b.attestations));
    } else {
      assert e.buf + [] == e.buf;
    }
    Cat3(EncText(b.format), EncText(b.version), EncCounted(EncKey, SortBy(KeyId, b.keys)), AttestationPart(b));
    body := e.buf;
  }

  // ------------------------------------------------- reading the body back

  lemma KeyReads(a: KeyEntry, b: KeyEntry)
    requires ShortKey(a) && ShortKey(b)
    ensures Reads(EncKey, a, b)
  {
    forall s, t ensures ReadAt(EncKey, a, b, s, t) {
      if EncKey(a) + s == EncKey(b) + t {
        var x2, y2 := EncText(a.publicKey) + EncText(RoleText(a.role)), EncText(b.publicKey) + EncText(RoleText(b.role));
        PeelText(a.keyId, b.keyId, EncText(a.algo) + x2, EncText(b.algo) + y2, s, t);
        PeelText(a.algo, b.algo, x2, y2, s, t);
        PeelText(a.publicKey, b.publicKey, EncText(RoleText(a.role)), EncText(RoleText(b.role)), s, t);
        ReadText(RoleText(a.role), RoleText(b.role), s, t);
        RoleTexts(a.role, b.role);
      }
    }
  }

  lemma PcrReads(a: Pcr, b: Pcr)
    requires Short(a.digest) && Short(b.digest)
    ensures Reads(EncPcr, a, b)
  {
    forall s, t ensures ReadAt(EncPcr, a, b, s, t) {
      if EncPcr(a) + s == EncPcr(b) + t {
        PeelWord(a.index, b.index, EncText(a.digest), EncText(b.digest), s, t);
        ReadText(a.digest, b.digest, s, t);
      }
    }
  }

  lemma ReadPcrs(a: Attestation, b: Attestation, s: seq<Byte>, t: seq<Byte>)
    requires ShortAttestation(a) && ShortAttestation(b) && EncCounted(EncPcr, a.expected) + s == EncCounted(EncPcr, b.expected) + t
    ensures a.expected == b.expected && s == t
  {
    forall p, q | p in a.expected && q in b.expected ensures Reads(EncPcr, p, q) {
      PcrReads(p, q);
    }
    ReadCounted(EncPcr, a.expected, b.expected, s, t);
  }

  lemma ReadAttestation(a: Attestation, b: Attestation, s: seq<Byte>, t: seq<Byte>)
    requires ShortAttestation(a) && ShortAttestation(b) && EncAttestation(a) + s == EncAttestation(b) + t
    ensures a == b && s == t
  {
    var x6, y6 := EncCounted(EncPcr, a.expected), EncCounted(EncPcr, b.expected);
    var x5, y5 := EncOptText(a.identityPub) + x6, EncOptText(b.identityPub) + y6;
    var x4, y4 := EncText(a.quote) + x5, EncText(b.quote) + y5;
    var x3, y3 := EncText(a.certify) + x4, EncText(b.certify) + y4;
    var x2, y2 := EncText(a.ekCert) + x3, EncText(b.ekCert) + y3;
    PeelText(a.keyId, b.keyId, EncText(a.akPub) + x2, EncText(b.akPub) + y2, s, t);
    PeelText(a.akPub, b.akPub, x2, y2, s, t);
    PeelText(a.ekCert, b.ekCert, x3, y3, s, t);
    PeelText(a.certify, b.certify, x4, y4, s, t);
    PeelText(a.quote, b.quote, x5, y5, s, t);
    PeelOptText(a.identityPub, b.identityPub, x6, y6, s, t);
    ReadPcrs(a, b, s, t);
  }

  lemma AttestationReads(a: Attestation, b: Attestation)
    requires ShortAttestation(a) && ShortAttestation(b)
    ensures Reads(EncAttestation, a, b)
  {
    forall s, t ensures ReadAt(EncAttestation, a, b, s, t) {
      if EncAttestation(a) + s == EncAttestation(b) + t {
        ReadAttestation(a, b, s, t);
      }
    }
  }

  lemma SameSize<T>(key: T -> Text, xs: seq<T>)
    ensures |SortBy(key, xs)| == |xs|
  {
    assert |multiset(SortBy(key, xs))| == |SortBy(key, xs)| && |multiset(xs)| == |xs|;
  }

  lemma ReadAttestations(a: Bundle, b: Bundle)
    requires ShortBundle(a) && ShortBundle(b) && AttestationPart(a) == AttestationPart(b)
    ensures multiset(a.attestations) == multiset(b.attestations)
  {
    var p, q := SortBy(AttId, a.attestations), SortBy(AttId, b.attestations);
    SameSize(AttId, a.attestations);
    SameSize(AttId, b.attestations);
    if a.attestations != [] && b.attestations != [] {
      forall x, y | x in p && y in q ensures Reads(EncAttestation, x, y) {
        SameMembers(p, a.attestations, x);
        SameMembers(q, b.attestations, y);
        AttestationReads(x, y);
      }
      ReadCounted(EncAttestation, p, q, [], []);
    }
  }

  /** Two bundles are the same but for the order of keys and of attestations. */
  predicate SameBundle(a: Bundle, b: Bundle) {
    && a.format == b.format && a.version == b.version
    && multiset(a.keys) == multiset(b.keys) && multiset(a.attestations) == multiset(b.attestations)
  }

  lemma ReadKeysPart(a: Bundle, b: Bundle)
    requires ShortBundle(a) && ShortBundle(b)
    requires EncCounted(EncKey, SortBy(KeyId, a.keys)) + AttestationPart(a) == EncCounted(EncKey, SortBy(KeyId, b.keys)) + AttestationPart(b)
    ensures multiset(a.keys) == multiset(b.keys) && multiset(a.attestations) == multiset(b.attestations)
  {
    var ka, kb := SortBy(KeyId, a.keys), SortBy(KeyId, b.keys);
    SameSize(KeyId, a.keys);
    SameSize(KeyId, b.keys);
    forall x, y | x in ka && y in kb ensures Reads(EncKey, x, y) {
      SameMembers(ka, a.keys, x);
      SameMembers(kb, b.keys, y);
      KeyReads(x, y);
    }
    ReadCounted(EncKey, ka, kb, AttestationPart(a), AttestationPart(b));
    ReadAttestations(a, b);
  }

  /** The optional last segment costs nothing: equal bodies come from the same bundle up to order. */
  lemma BodyIdentifiesBundle(a: Bundle, b: Bundle)
    requires ShortBundle(a) && ShortBundle(b) && Body(a) == Body(b)
    ensures SameBundle(a, b)
  {
    var x2, y2 := EncCounted(EncKey, SortBy(KeyId, a.keys)) + AttestationPart(a), EncCounted(EncKey, SortBy(KeyId, b.keys)) + AttestationPart(b);
    assert Body(a) + [] == Body(b) + [];
    PeelText(a.format, b.format, EncText(a.version) + x2, EncText(b.version) + y2, [], []);
    PeelText(a.version, b.version, x2, y2, [], []);
    assert x2 + [] == x2 && y2 + [] == y2;
    ReadKeysPart(a, b);
  }

  /** With no id repeated in either list, order never reaches the signature and nothing else escapes it. */
  lemma BodyDecidesBundle(a: Bundle, b: Bundle)
    requires ShortBundle(a) && ShortBundle(b) && DistinctBy(KeyId, a.keys) && DistinctBy(AttId, a.attestations)
    ensures Body(a) == Body(b) <==> SameBundle(a, b)
  {
    if SameBundle(a, b) {
      SortForgetsOrder(KeyId, a.keys, b.keys);
      SortForgetsOrder(AttId, a.attestations, b.attestations);
      assert |multiset(a.attestations)| == |a.attestations| && |multiset(b.attestations)| == |b.attestations|;
    } else if Body(a) == Body(b) {
      BodyIdentifiesBundle(a, b);
    }
  }
}
