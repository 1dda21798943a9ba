/** When the resuming gateway, the sealer and the verifier read certificates and signatures alike, and when not. */
module Agreement {
  import opened Bytes
  import opened Hashing
  import opened Records
  import opened Chain
  import opened Origin
  import opened Pack
  import opened Pass
  import opened Verifier

  /** Every id of the first map is in the second, for the same key. */
  predicate Within(a: map<Text, Key>, b: map<Text, Key>) {
    forall kid :: kid in a ==> kid in b && b[kid] == a[kid]
  }

  /** Where the bundle and the chain's certificates name the same key id, they name the same key. */
  predicate SharedIdsAgree(enrolled: map<Text, Key>, session: map<Text, Key>) {
    forall kid :: kid in enrolled && kid in session ==> enrolled[kid] == session[kid]
  }

  /** The sealer's policy and the verifier's evidence come from one signed bundle under one ops key, and the verifier
      was listed no origin key beyond those. */
  predicate SameRoot(c: Crypto, p: OriginPolicy, ev: Evidence, trusted: seq<KeyEntry>) {
    && ev.deployment.Some? && p.bundle == ev.deployment
    && var source, signed := KeySource(ev, trusted), ev.deployment.value;
       var ops := OpsKey(c, signed, source);
       && Within(KeyMap(c, source, OriginRole), p.trusted)
       && ops.Some? && VerifyDeployment(c, signed, ops.value)
       && ActiveOriginKeys(c, signed.bundle) == Some(p.trusted)
  }

  lemma SameIdentities(c: Crypto, p: OriginPolicy, ev: Evidence, trusted: seq<KeyEntry>)
    requires SameRoot(c, p, ev, trusted)
    ensures Identities(c, ev, trusted) == p.trusted
    ensures Resolved(c, ev, trusted).originKeys == p.trusted + CertifiedKeys(c, p.trusted, ev.chainId, ev.records)
  {
    assert p.trusted + KeyMap(c, KeySource(ev, trusted), OriginRole) == p.trusted;
  }

  /** The sealer looks in the bundle first, the verifier lets a certificate overwrite it. On one record they agree
      unless its key id is shared by two different keys. */
  lemma SameAnswer(c: Crypto, p: OriginPolicy, ks: KeySets, chainId: Text, session: map<Text, Key>, sr: SignedRecord)
    requires p.require && ks.originKeys == p.trusted + session && SharedIdsAgree(p.trusted, session)
    ensures RefusalOf(c, p, chainId, sr, session).None? <==> OriginOf(c, chainId, ks, sr) == OriginOk
  {
  }

  /** The record names an id two keys share, and only one of the two verifies it. */
  predicate Disputed(c: Crypto, trusted: map<Text, Key>, session: map<Text, Key>, chainId: Text, sr: SignedRecord) {
    && sr.originSig.Some? && sr.originKeyId.Some?
    && sr.originKeyId.value in trusted && sr.originKeyId.value in session
    && (VerifyOrigin(c, chainId, sr, trusted[sr.originKeyId.value])
        != VerifyOrigin(c, chainId, sr, session[sr.originKeyId.value]))
  }

  /** Sealer and verifier give the record the same answer. */
  predicate AgreeAt(c: Crypto, p: OriginPolicy, ks: KeySets, chainId: Text, session: map<Text, Key>, sr: SignedRecord) {
    RefusalOf(c, p, chainId, sr, session).None? <==> OriginOf(c, chainId, ks, sr) == OriginOk
  }

  lemma DisputedIs(c: Crypto, p: OriginPolicy, ks: KeySets, chainId: Text, session: map<Text, Key>, sr: SignedRecord)
    requires p.require && ks.originKeys == p.trusted + session
    ensures AgreeAt(c, p, ks, chainId, session, sr) <==> !Disputed(c, p.trusted, session, chainId, sr)
  {
  }

  /** Exactly when they agree on everything: no record of the log is disputed between two keys under one id. */
  lemma DisagreementIs(c: Crypto, p: OriginPolicy, ev: Evidence, trusted: seq<KeyEntry>)
    requires SameRoot(c, p, ev, trusted) && p.require
    ensures var session, ks := CertifiedKeys(c, p.trusted, ev.chainId, ev.records), Resolved(c, ev, trusted);
      (forall i :: 0 <= i < |ev.records| ==> AgreeAt(c, p, ks, ev.chainId, session, ev.records[i])) <==>
      (forall i :: 0 <= i < |ev.records| ==> !Disputed(c, p.trusted, session, ev.chainId, ev.records[i]))
  {
    var session, ks := CertifiedKeys(c, p.trusted, ev.chainId, ev.records), Resolved(c, ev, trusted);
    SameIdentities(c, p, ev, trusted);
    forall i | 0 <= i < |ev.records|
      ensures AgreeAt(c, p, ks, ev.chainId, session, ev.records[i]) <==> !Disputed(c, p.trusted, session, ev.chainId, ev.records[i])
    {
      DisputedIs(c, p, ks, ev.chainId, session, ev.records[i]);
    }
  }

  /** How many records the sealer would accept. */
  function AcceptedCount(c: Crypto, p: OriginPolicy, chainId: Text, rs: seq<SignedRecord>, session: map<Text, Key>, n: nat): nat
    requires n <= |rs|
  {
    if n == 0 then 0
    else AcceptedCount(c, p, chainId, rs, session, n - 1) + if RefusalOf(c, p, chainId, rs[n - 1], session).None? then 1 else 0
  }

  lemma {:induction false} SameCount(c: Crypto, p: OriginPolicy, ks: KeySets, chainId: Text, rs: seq<SignedRecord>, session: map<Text, Key>, n: nat)
    requires p.require && ks.originKeys == p.trusted + session && SharedIdsAgree(p.trusted, session) && n <= |rs|
    ensures TallyOrigin(c, chainId, ks, rs, n).ok == AcceptedCount(c, p, chainId, rs, session, n)
  {
    if n > 0 {
      SameCount(c, p, ks, chainId, rs, session, n - 1);
      SameAnswer(c, p, ks, chainId, session, rs[n - 1]);
    }
  }

  /** Sealer and verifier agree on origin: under one bundle, ops key and chain, and as long as no id is shared by
      two keys, the report counts exactly the records a requiring policy would seal. */
  lemma SealerAndVerifierAgree(c: Crypto, p: OriginPolicy, ev: Evidence, trusted: seq<KeyEntry>, o: Options)
    requires SameRoot(c, p, ev, trusted) && p.require
    requires SharedIdsAgree(p.trusted, CertifiedKeys(c, p.trusted, ev.chainId, ev.records))
    ensures var session := CertifiedKeys(c, p.trusted, ev.chainId, ev.records);
      && Verdict(c, ev, trusted, o).recordsOriginOk == AcceptedCount(c, p, ev.chainId, ev.records, session, |ev.records|)
      && forall i :: 0 <= i < |ev.records| ==>
           (RefusalOf(c, p, ev.chainId, ev.records[i], session).None? <==>
            OriginOf(c, ev.chainId, Resolved(c, ev, trusted), ev.records[i]) == OriginOk)
  {
    var session, ks := CertifiedKeys(c, p.trusted, ev.chainId, ev.records), Resolved(c, ev, trusted);
    SameIdentities(c, p, ev, trusted);
    SameCount(c, p, ks, ev.chainId, ev.records, session, |ev.records|);
    forall i | 0 <= i < |ev.records| ensures
      RefusalOf(c, p, ev.chainId, ev.records[i], session).None? <==> OriginOf(c, ev.chainId, ks, ev.records[i]) == OriginOk {
      SameAnswer(c, p, ks, ev.chainId, session, ev.records[i]);
    }
  }

  // ------------------------------------------------- a sealer that has seen only a prefix

  lemma {:induction false} CertifiedListed(c: Crypto, ids: map<Text, Key>, chainId: Text, log: seq<SignedRecord>, i: nat)
    requires i < |log| && CertifiedKey(c, ids, chainId, log[i]).Some?
    ensures KeyIdFor(CertifiedKey(c, ids, chainId, log[i]).value) in CertifiedKeys(c, ids, chainId, log)
  {
    var n := |log| - 1;
    if i < n {
      assert log[..n][i] == log[i];
      CertifiedListed(c, ids, chainId, log[..n], i);
    }
  }

  /** A certificate that checks out under few identity keys checks out under more, for the same session key. */
  lemma CertifiedByMore(c: Crypto, few: map<Text, Key>, ids: map<Text, Key>, chainId: Text, sr: SignedRecord)
    requires Within(few, ids) && CertifiedKey(c, few, chainId, sr).Some?
    ensures CertifiedKey(c, ids, chainId, sr) == CertifiedKey(c, few, chainId, sr)
  {
  }

  /** The certificate at i names a key whose id no other key has, neither an enrolled one nor one certified anywhere
      on the log. */
  predicate OwnIdAt(c: Crypto, ids: map<Text, Key>, chainId: Text, log: seq<SignedRecord>, i: nat)
    requires i < |log|
  {
    match CertifiedKey(c, ids, chainId, log[i])
    case None => true
    case Some(k) =>
      && (KeyIdFor(k) in ids ==> ids[KeyIdFor(k)] == k)
      && forall j :: 0 <= j < |log| ==>
           match CertifiedKey(c, ids, chainId, log[j]) case None => true case Some(o) => KeyIdFor(o) == KeyIdFor(k) ==> o == k
  }

  predicate OneKeyPerId(c: Crypto, ids: map<Text, Key>, chainId: Text, log: seq<SignedRecord>) {
    forall i :: 0 <= i < |log| ==> OwnIdAt(c, ids, chainId, log, i)
  }

  /** With one key per id, what a sealer harvests from any prefix under some of the identity keys stays in what the
      verifier harvests from the whole log under all of them. */
  lemma HarvestStays(c: Crypto, few: map<Text, Key>, ids: map<Text, Key>, chainId: Text, part: seq<SignedRecord>, log: seq<SignedRecord>)
    requires part <= log && Within(few, ids) && OneKeyPerId(c, ids, chainId, log)
    ensures Within(CertifiedKeys(c, few, chainId, part), CertifiedKeys(c, ids, chainId, log))
  {
    var was, now := CertifiedKeys(c, few, chainId, part), CertifiedKeys(c, ids, chainId, log);
    forall kid | kid in was ensures kid in now && now[kid] == was[kid] {
      CertifiedMeans(c, few, chainId, part, kid);
      var i :| 0 <= i < |part| && CertifiedKey(c, few, chainId, part[i]) == Some(was[kid]);
      CertifiedByMore(c, few, ids, chainId, log[i]);
      CertifiedListed(c, ids, chainId, log, i);
      CertifiedMeans(c, ids, chainId, log, kid);
      assert OwnIdAt(c, ids, chainId, log, i);
    }
  }

  /** A key certified on the log is not one enrolled under its id. */
  lemma CertifiedOwnIds(c: Crypto, ids: map<Text, Key>, chainId: Text, log: seq<SignedRecord>)
    requires OneKeyPerId(c, ids, chainId, log)
    ensures SharedIdsAgree(ids, CertifiedKeys(c, ids, chainId, log))
  {
    var now := CertifiedKeys(c, ids, chainId, log);
    forall kid | kid in ids && kid in now ensures ids[kid] == now[kid] {
      CertifiedMeans(c, ids, chainId, log, kid);
      var i :| 0 <= i < |log| && CertifiedKey(c, ids, chainId, log[i]) == Some(now[kid]);
      assert OwnIdAt(c, ids, chainId, log, i);
    }
  }

  /** The pass has to know the key the record names: because it requires origin, or because it does. */
  predicate Resolves(p: OriginPolicy, harvested: map<Text, Key>, sr: SignedRecord) {
    p.require || (sr.originKeyId.Some? && KnownTo(p, harvested, sr.originKeyId.value).Some?)
  }

  /** What the verifier makes of a record a pass accepted, while the log was shorter, under a key it knew, with no
      assumption on ids: its id always resolves, and it counts as authentic exactly when the key now under that id
      verifies it. */
  lemma SealedOriginIs(c: Crypto, p: OriginPolicy, ids: map<Text, Key>, ks: KeySets, chainId: Text,
                       part: seq<SignedRecord>, log: seq<SignedRecord>, sr: SignedRecord)
    requires part <= log && Within(p.trusted, ids) && ks.originKeys == ids + CertifiedKeys(c, ids, chainId, log)
    requires Resolves(p, CertifiedKeys(c, p.trusted, chainId, part), sr)
    requires RefusalOf(c, p, chainId, sr, CertifiedKeys(c, p.trusted, chainId, part)).None?
    ensures sr.originKeyId.Some? && sr.originKeyId.value in ks.originKeys
    ensures OriginOf(c, chainId, ks, sr)
      == if SignedBy(c, chainId, sr, ks.originKeys[sr.originKeyId.value]) then OriginOk else OriginBad(OriginInvalid)
  {
    var kid, was := sr.originKeyId.value, CertifiedKeys(c, p.trusted, chainId, part);
    if kid !in p.trusted {
      CertifiedMeans(c, p.trusted, chainId, part, kid);
      var i :| 0 <= i < |part| && CertifiedKey(c, p.trusted, chainId, part[i]) == Some(was[kid]);
      CertifiedByMore(c, p.trusted, ids, chainId, log[i]);
      CertifiedListed(c, ids, chainId, log, i);
    }
  }

  /** With one key per id, whatever a pass accepted on a shorter log under a key it knew the verifier counts as authentic. */
  lemma SealedIsAuthentic(c: Crypto, p: OriginPolicy, ids: map<Text, Key>, ks: KeySets, chainId: Text,
                          part: seq<SignedRecord>, log: seq<SignedRecord>, sr: SignedRecord)
    requires part <= log && Within(p.trusted, ids) && ks.originKeys == ids + CertifiedKeys(c, ids, chainId, log)
    requires OneKeyPerId(c, ids, chainId, log) && Resolves(p, CertifiedKeys(c, p.trusted, chainId, part), sr)
    requires RefusalOf(c, p, chainId, sr, CertifiedKeys(c, p.trusted, chainId, part)).None?
    ensures OriginOf(c, chainId, ks, sr) == OriginOk
  {
    SealedOriginIs(c, p, ids, ks, chainId, part, log, sr);
    HarvestStays(c, p.trusted, ids, chainId, part, log);
    CertifiedOwnIds(c, ids, chainId, log);
  }

  /** Without the mandate: a record any pass accepted is judged bad exactly when the pass knew no key under its id and
      the verifier, later, holds one that did not sign it, or one of another role. */
  lemma SealedBadIs(c: Crypto, p: OriginPolicy, ids: map<Text, Key>, ks: KeySets, chainId: Text,
                    part: seq<SignedRecord>, log: seq<SignedRecord>, sr: SignedRecord)
    requires part <= log && Within(p.trusted, ids) && ks.originKeys == ids + CertifiedKeys(c, ids, chainId, log)
    requires OneKeyPerId(c, ids, chainId, log)
    requires RefusalOf(c, p, chainId, sr, CertifiedKeys(c, p.trusted, chainId, part)).None?
    ensures OriginOf(c, chainId, ks, sr).OriginBad? <==>
      && sr.originKeyId.Some? && KnownTo(p, CertifiedKeys(c, p.trusted, chainId, part), sr.originKeyId.value).None?
      && Listed(ks, sr.originKeyId.value)
      && (sr.originKeyId.value in ks.originKeys ==> !SignedBy(c, chainId, sr, ks.originKeys[sr.originKeyId.value]))
  {
    RefusalMeans(c, p, chainId, sr, CertifiedKeys(c, p.trusted, chainId, part));
    if Resolves(p, CertifiedKeys(c, p.trusted, chainId, part), sr) {
      SealedIsAuthentic(c, p, ids, ks, chainId, part, log, sr);
    }
  }

  /** The trust a gateway resumes with is what sealer and verifier will harvest once its own certificate, the
      next record it writes, is on the chain. */
  lemma ResumeAnticipatesCertificate(c: Crypto, identity: map<Text, Key>, chainId: Text, existing: seq<SignedRecord>,
                                     mine: SignedRecord, session: Key)
    requires CertifiedKey(c, identity, chainId, mine) == Some(session)
    ensures CertifiedKeys(c, identity, chainId, existing + [mine])
      == CertifiedKeys(c, identity, chainId, existing)[KeyIdFor(session) := session]
  {
    assert (existing + [mine])[..|existing|] == existing;
  }

  // ------------------------------------------------- two keys under one id

  lemma {:induction false} HexPrefix(b: seq<Byte>, n: nat)
    requires n <= |b|
    ensures Hex(b)[..2 * n] == Hex(b[..n])
  {
    if n > 0 {
      HexPrefix(b[1..], n - 1);
      assert b[..n][1..] == b[1..][..n - 1];
      var head := [HexDigit(b[0] as int / 16), HexDigit(b[0] as int % 16)];
      assert Hex(b) == head + Hex(b[1..]);
      assert (head + Hex(b[1..]))[..2 * n] == head + Hex(b[1..])[..2 * (n - 1)];
    }
  }

  lemma {:induction false} HexInjective(a: seq<Byte>, b: seq<Byte>)
    requires |a| == |b| && Hex(a) == Hex(b)
    ensures a == b
  {
    if a != [] {
      var x, y := [HexDigit(a[0] as int / 16), HexDigit(a[0] as int % 16)], [HexDigit(b[0] as int / 16), HexDigit(b[0] as int % 16)];
      SplitEqual(x, y, Hex(a[1..]), Hex(b[1..]));
      assert x[0] == y[0] && x[1] == y[1];
      HexInjective(a[1..], b[1..]);
      assert a == [a[0]] + a[1..] && b == [b[0]] + b[1..];
    }
  }

  /** A key id keeps exactly eight of a key's thirty-two bytes. */
  lemma SameIdFromEightBytes(a: Key, b: Key, eight: nat)
    requires eight == 8
    ensures KeyIdFor(a) == KeyIdFor(b) <==> a[..eight] == b[..eight]
  {
    var prefix := Ascii("origin-");
    HexPrefix(a, eight);
    HexPrefix(b, eight);
    if KeyIdFor(a) == KeyIdFor(b) {
      SplitEqual(prefix, prefix, Hex(a)[..2 * eight], Hex(b)[..2 * eight]);
      HexInjective(a[..eight], b[..eight]);
    }
  }

  function EnrolledRecord(h: Hasher, chainId: Text, enrolled: Key): SignedRecord {
    var record := Record(0, 0, GENESIS, [], None, [], Effect(Blocked, None, 0));
    SignedRecord(record, Some(enrolled + OriginBytes(h.digest, chainId, h.record(record))), Some(KeyIdFor(enrolled)))
  }

  function CertRecord(h: Hasher, chainId: Text, enrolled: Key, session: Key): SignedRecord {
    var unsigned := SessionCert(session, KeyIdFor(enrolled), [], 0, 0, []);
    var cert := unsigned.(identitySig := enrolled + CertBytes(h.digest, chainId, unsigned));
    SignedRecord(Record(1, 0, h.record(EnrolledRecord(h, chainId, enrolled).record), [], None, [], Session(cert)), None, None)
  }

  /** Two keys that share their first eight bytes set the two readers against each other, over time and at once: an
      enrolled key signs a record, a pass accepts it, then the same key certifies a session key of the same id. Every
      later pass still accepts the record, and the verifier reports its signature invalid. */
  lemma SharedIdDisagrees(h: Hasher, chainId: Text, enrolled: Key, session: Key, eight: nat)
    requires eight == 8 && enrolled != session && enrolled[..eight] == session[..eight]
    ensures var c, kid := PlainScheme(h), KeyIdFor(enrolled);
      var p, sr := OriginPolicy(map[kid := enrolled], true, None), EnrolledRecord(h, chainId, enrolled);
      var log := [sr, CertRecord(h, chainId, enrolled, session)];
      && RefusalOf(c, p, chainId, sr, CertifiedKeys(c, p.trusted, chainId, [sr])).None?
      && RefusalOf(c, p, chainId, sr, CertifiedKeys(c, p.trusted, chainId, log)).None?
      && OriginOf(c, chainId, KeySets(map[], p.trusted + CertifiedKeys(c, p.trusted, chainId, log), map[]), sr) == OriginBad(OriginInvalid)
  {
    SameIdFromEightBytes(enrolled, session, eight);
    var c, kid, sr := PlainScheme(h), KeyIdFor(enrolled), EnrolledRecord(h, chainId, enrolled);
    var trusted := map[kid := enrolled];
    var certified := CertRecord(h, chainId, enrolled, session);
    var log := [sr, certified];
    assert CertifiedKey(c, trusted, chainId, certified) == Some(session);
    assert log[..1] == [sr] && log[1] == certified;
    assert CertifiedKeys(c, trusted, chainId, log)[kid] == session;
    SignatureTellsKeys(enrolled, session, OriginBytes(h.digest, chainId, h.record(sr.record)));
  }

  /** A certificate record the enrolled key signed as a record, but not as a certificate. */
  function ForgedCertRecord(h: Hasher, chainId: Text, enrolled: Key, session: Key): SignedRecord {
    var record := Record(0, 0, GENESIS, [], None, [], Session(SessionCert(session, KeyIdFor(enrolled), [], 0, 0, [])));
    SignedRecord(record, Some(enrolled + OriginBytes(h.digest, chainId, h.record(record))), Some(KeyIdFor(enrolled)))
  }

  /** What no pass looks at: a certificate its identity key did not sign. The record that carries it is sealed like any
      other once its own origin signature holds, and the verifier then reports the certificate as an error. */
  lemma SealedCertRejected(h: Hasher, chainId: Text, enrolled: Key, session: Key)
    ensures var c, kid := PlainScheme(h), KeyIdFor(enrolled);
      var p, sr := OriginPolicy(map[kid := enrolled], true, None), ForgedCertRecord(h, chainId, enrolled, session);
      && RefusalOf(c, p, chainId, sr, CertifiedKeys(c, p.trusted, chainId, [sr])).None?
      && CertInvalid(c, p.trusted, chainId, sr)
  {
    var cert := ForgedCertRecord(h, chainId, enrolled, session).record.payload.cert;
    var m := CertBytes(h.digest, chainId, cert);
    assert |enrolled + m| >= 32 && cert.identitySig == [];
  }

  /** A record with an empty signature under the id of a session key. */
  function ClaimingRecord(h: Hasher, session: Key): SignedRecord {
    SignedRecord(Record(0, 0, GENESIS, [], None, [], Effect(Blocked, None, 0)), Some([]), Some(KeyIdFor(session)))
  }

  function LateCertRecord(h: Hasher, chainId: Text, enrolled: Key, session: Key): SignedRecord {
    var unsigned := SessionCert(session, KeyIdFor(enrolled), [], 0, 0, []);
    var cert := unsigned.(identitySig := enrolled + CertBytes(h.digest, chainId, unsigned));
    SignedRecord(Record(1, 0, h.record(ClaimingRecord(h, session).record), [], None, [], Session(cert)), None, None)
  }

  /** The failure without the mandate, with every id naming one key: a record claims a session key nobody has certified
      yet, a pass that does not require origin seals it, and then the key is certified. */
  lemma LateKeyJudgesBad(h: Hasher, chainId: Text, enrolled: Key, session: Key)
    requires KeyIdFor(enrolled) != KeyIdFor(session)
    ensures var c := PlainScheme(h); var p := OriginPolicy(map[KeyIdFor(enrolled) := enrolled], false, None);
      var sr := ClaimingRecord(h, session); var log := [sr, LateCertRecord(h, chainId, enrolled, session)];
      && RefusalOf(c, p, chainId, sr, CertifiedKeys(c, p.trusted, chainId, [sr])).None?
      && OneKeyPerId(c, p.trusted, chainId, log)
      && OriginOf(c, chainId, KeySets(map[], p.trusted + CertifiedKeys(c, p.trusted, chainId, log), map[]), sr) == OriginBad(OriginInvalid)
  {
    var c, trusted, sr := PlainScheme(h), map[KeyIdFor(enrolled) := enrolled], ClaimingRecord(h, session);
    var certified := LateCertRecord(h, chainId, enrolled, session);
    var log := [sr, certified];
    assert CertifiedKey(c, trusted, chainId, sr) == None && CertifiedKey(c, trusted, chainId, certified) == Some(session);
    assert log[..1] == [sr] && log[1] == certified && [sr][..0] == [];
    assert CertifiedKeys(c, trusted, chainId, [sr]) == map[];
    assert CertifiedKeys(c, trusted, chainId, log)[KeyIdFor(session)] == session;
    assert OwnIdAt(c, trusted, chainId, log, 0) && OwnIdAt(c, trusted, chainId, log, 1);
    var m := OriginBytes(h.digest, chainId, h.record(sr.record));
    assert |session + m| >= 32;
  }

  lemma SignatureTellsKeys(a: Key, b: Key, m: seq<Byte>)
    requires a != b
    ensures a + m != b + m
  {
    if a + m == b + m {
      SplitEqual(a, b, m, m);
    }
  }
}
