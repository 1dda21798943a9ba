/** What an accepted attestation consists of, down to the bytes that were signed. */
module AttestationProof {
  import opened Bytes
  import opened Tpm
  import opened TpmFormat
  import opened Attestation

  /** Key material an attestation key may have: an Ed25519 key, or an uncompressed P-256 point. */
  predicate AkValid(ck: Checks, ak: seq<Byte>) {
    (|ak| == 32 && ck.edKey(ak)) || (|ak| == 65 && ak[0] == 4)
  }

  /** The blob is the statement followed by the attestation key's 64-byte signature: on the statement itself for an Ed25519
      key, on its SHA-256 for a P-256 one. */
  predicate SignedBlob(ck: Checks, ak: seq<Byte>, blob: seq<Byte>, statement: seq<Byte>) {
    && |blob| == |statement| + 64 && blob[..|statement|] == statement
    && var sig := blob[|statement|..];
       if |ak| == 32 then ck.ed(ak, statement, sig) else ck.p256(ak, ck.sha(statement), sig)
  }

  /** The name a TPM gives what hashes so: the SHA-256 algorithm number and the hash. */
  function NameFor(ck: Checks, named: seq<Byte>): seq<Byte> {
    [0, 11] + ck.sha(named)
  }

  predicate IsKeyOf(e: Entry, k: TpmKey) {
    match k case Ed25519(raw) => e == Entry(ED25519, raw) case EcdsaP256(point) => e == Entry(ECDSA_P256, point)
  }

  /** The bytes that stand for the enrolled key: the key itself, or a public area with SHA-256 names that holds it. */
  ghost predicate StandsFor(ck: Checks, e: Entry, pub: Option<seq<Byte>>, named: seq<Byte>) {
    match pub
    case None => e == Entry(ED25519, named) && |named| == 32 && ck.edKey(named)
    case Some(tp) => named == tp && exists k, t :: IsKeyOf(e, k) && Marshals(tp, Public(SHA256, k), t)
  }

  lemma NamedMeans(ck: Checks, e: Entry, pub: Option<seq<Byte>>, named: seq<Byte>)
    ensures Named(ck, e, pub) == Ok(named) <==> StandsFor(ck, e, pub, named)
  {
    if pub.Some? {
      var tp := pub.value;
      if Named(ck, e, pub) == Ok(named) {
        var p := ParsePublic(tp).value;
        AcceptsExactlyAreas(tp, p);
        var t :| Marshals(tp, p, t);
        assert IsKeyOf(e, p.key) && Marshals(tp, Public(SHA256, p.key), t);
      }
      if StandsFor(ck, e, pub, named) {
        var k, t :| IsKeyOf(e, k) && Marshals(tp, Public(SHA256, k), t);
        AcceptsExactlyAreas(tp, Public(SHA256, k));
      }
    }
  }

  lemma SignedMeans(ck: Checks, ak: seq<Byte>, blob: seq<Byte>, a: Attested)
    ensures Signed(ck, ak, blob) == Some(a) <==> exists x :: SignedBlob(ck, ak, blob, x) && ParseAttest(x) == Some(a)
  {
    if |blob| >= 64 {
      var x := blob[..|blob| - 64];
      if Signed(ck, ak, blob) == Some(a) {
        assert SignedBlob(ck, ak, blob, x) && ParseAttest(x) == Some(a);
      }
    }
  }

  /** A statement, signed by the attestation key, certifies the name of the bytes. */
  ghost predicate Certified(ck: Checks, en: Enrolment, named: seq<Byte>) {
    exists x, h, qualified, tail :: SignedBlob(ck, en.ak, en.certify, x) && IsCertify(x, NameFor(ck, named), h, qualified, tail)
  }

  lemma NameText(ck: Checks, named: seq<Byte>)
    ensures NameOf(ck, named) == NameFor(ck, named)
  {
    assert Enc16(SHA256) == [0, 11];
  }

  lemma NameIs(ck: Checks, en: Enrolment, named: seq<Byte>)
    ensures CheckCertify(ck, en, named) == None <==> Signed(ck, en.ak, en.certify) == Some(Certify(NameOf(ck, named)))
  {
    match Signed(ck, en.ak, en.certify) {
      case None =>
      case Some(Certify(name)) =>
      case Some(Quote(_, _)) =>
    }
  }

  lemma CertifiedMeans(ck: Checks, en: Enrolment, named: seq<Byte>)
    ensures CheckCertify(ck, en, named) == None <==> Certified(ck, en, named)
  {
    var name := NameFor(ck, named);
    NameIs(ck, en, named);
    NameText(ck, named);
    SignedMeans(ck, en.ak, en.certify, Certify(name));
    if Signed(ck, en.ak, en.certify) == Some(Certify(name)) {
      var x :| SignedBlob(ck, en.ak, en.certify, x) && ParseAttest(x) == Some(Certify(name));
      AcceptsExactlyCertifies(x, name);
      var h, qualified, tail :| IsCertify(x, name, h, qualified, tail);
    }
    if Certified(ck, en, named) {
      var x, h, qualified, tail :| SignedBlob(ck, en.ak, en.certify, x) && IsCertify(x, name, h, qualified, tail);
      AcceptsExactlyCertifies(x, name);
    }
  }

  /** A statement, signed by the attestation key, quotes exactly the expected registers with their expected values. */
  ghost predicate Quoted(ck: Checks, en: Enrolment) {
    exists x, banks, h, tail :: SignedBlob(ck, en.ak, en.quote, x)
      && IsQuote(x, ExpectedDigest(ck, en.expected), banks, h, tail) && SignedExactly(banks, en.expected)
  }

  lemma QuotedMeans(ck: Checks, en: Enrolment)
    ensures QuoteHolds(ck, en) <==> Quoted(ck, en)
  {
    var digest := ExpectedDigest(ck, en.expected);
    if QuoteHolds(ck, en) {
      var banks :| Signed(ck, en.ak, en.quote) == Some(Quote(digest, banks)) && SignedExactly(banks, en.expected);
      SignedMeans(ck, en.ak, en.quote, Quote(digest, banks));
      var x :| SignedBlob(ck, en.ak, en.quote, x) && ParseAttest(x) == Some(Quote(digest, banks));
      AcceptsExactlyQuotes(x, digest, banks);
      var h, tail :| IsQuote(x, digest, banks, h, tail);
    }
    if Quoted(ck, en) {
      var x, banks, h, tail :| SignedBlob(ck, en.ak, en.quote, x) && IsQuote(x, digest, banks, h, tail) && SignedExactly(banks, en.expected);
      AcceptsExactlyQuotes(x, digest, banks);
      SignedMeans(ck, en.ak, en.quote, Quote(digest, banks));
    }
  }

  /** An attestation is accepted exactly when there are: a valid attestation key; bytes that stand for the enrolled key; a
      statement it signed that certifies their name; and one it signed that quotes exactly the registers expected, of the
      SHA-256 bank, with the digest of their expected values. At least one register must be expected. */
  lemma AcceptedConsistsOf(ck: Checks, e: Entry, en: Enrolment)
    ensures Verdict(ck, e, en) == None <==>
      && AkValid(ck, en.ak) && en.expected != []
      && (exists named :: StandsFor(ck, e, en.identityPub, named) && Certified(ck, en, named))
      && Quoted(ck, en)
  {
    QuoteMeans(ck, en);
    QuotedMeans(ck, en);
    forall named ensures Named(ck, e, en.identityPub) == Ok(named) <==> StandsFor(ck, e, en.identityPub, named) {
      NamedMeans(ck, e, en.identityPub, named);
    }
    forall named ensures CheckCertify(ck, en, named) == None <==> Certified(ck, en, named) {
      CertifiedMeans(ck, en, named);
    }
  }

  /** The blob is a statement of some kind, signed by the attestation key. */
  ghost predicate Stated(ck: Checks, ak: seq<Byte>, blob: seq<Byte>) {
    exists x :: SignedBlob(ck, ak, blob, x) && ParseAttest(x).Some?
  }

  lemma StatedMeans(ck: Checks, ak: seq<Byte>, blob: seq<Byte>)
    ensures Signed(ck, ak, blob).Some? <==> Stated(ck, ak, blob)
  {
    if Signed(ck, ak, blob).Some? {
      SignedMeans(ck, ak, blob, Signed(ck, ak, blob).value);
    }
    forall x | SignedBlob(ck, ak, blob, x) && ParseAttest(x).Some? ensures Signed(ck, ak, blob).Some? {
      SignedMeans(ck, ak, blob, ParseAttest(x).value);
    }
  }

  /** Which refusal is given: for the keys themselves, for what cannot be read or was not signed by the attestation key, or
      else for what it says. The certify is looked at first, and the quote only if that one holds. */
  lemma RefusalSays(ck: Checks, e: Entry, en: Enrolment)
    ensures var pub := en.identityPub;
      var bare := e.algo == ED25519 && |e.key| == 32 && ck.edKey(e.key);
      var area := pub.Some? && ParsePublic(pub.value).Some? && ParsePublic(pub.value).value.nameAlg == 11;
      var named := if pub.Some? then pub.value else e.key;
      && (Verdict(ck, e, en) == Some(BadKey) <==> !AkValid(ck, en.ak) || (pub.None? && !bare))
      && (Verdict(ck, e, en) == Some(BadAttestation) <==> AkValid(ck, en.ak) && if pub.Some? && !area then true
           else StandsFor(ck, e, pub, named)
                && (!Stated(ck, en.ak, en.certify) || (Certified(ck, en, named) && !Stated(ck, en.ak, en.quote))))
  {
    var named := if en.identityPub.Some? then en.identityPub.value else e.key;
    NamedMeans(ck, e, en.identityPub, named);
    CertifiedMeans(ck, en, named);
    StatedMeans(ck, en.ak, en.certify);
    StatedMeans(ck, en.ak, en.quote);
    CertifyRefusal(ck, en, named);
    QuoteRefusal(ck, en);
  }

  lemma CertifyRefusal(ck: Checks, en: Enrolment, named: seq<Byte>)
    ensures CheckCertify(ck, en, named) == Some(BadAttestation) <==> Signed(ck, en.ak, en.certify).None?
    ensures CheckCertify(ck, en, named) != Some(BadKey)
  {
  }

  lemma QuoteRefusal(ck: Checks, en: Enrolment)
    ensures CheckQuote(ck, en) == Some(BadAttestation) <==> Signed(ck, en.ak, en.quote).None?
    ensures CheckQuote(ck, en) != Some(BadKey)
  {
  }

  // ------------------------------------------------- the expected digest

  predicate RisingIndexes(xs: seq<Expectation>) {
    forall i, j :: 0 <= i < j < |xs| ==> xs[i].index < xs[j].index
  }

  predicate AscendingIndexes(xs: seq<Expectation>) {
    forall i, j :: 0 <= i < j < |xs| ==> xs[i].index <= xs[j].index
  }

  lemma {:induction false} InsertKeeps(x: Expectation, ys: seq<Expectation>)
    ensures multiset(InsertOn(IndexOf, x, ys)) == multiset{x} + multiset(ys)
  {
    if ys != [] && x.index > ys[0].index {
      InsertKeeps(x, ys[1..]);
      assert ys == [ys[0]] + ys[1..];
    }
  }

  lemma {:induction false} InsertHas(x: Expectation, ys: seq<Expectation>, e: Expectation)
    ensures e in InsertOn(IndexOf, x, ys) <==> e == x || e in ys
  {
    if ys != [] && x.index > ys[0].index {
      InsertHas(x, ys[1..], e);
    }
  }

  lemma Led(y: Expectation, r: seq<Expectation>)
    requires AscendingIndexes(r) && forall e :: e in r ==> y.index <= e.index
    ensures AscendingIndexes([y] + r)
  {
    var s := [y] + r;
    forall i, j | 0 <= i < j < |s| ensures s[i].index <= s[j].index {
      assert s[j] == r[j - 1] && (i > 0 ==> s[i] == r[i - 1]);
    }
  }

  lemma {:induction false} InsertSorted(x: Expectation, ys: seq<Expectation>)
    requires AscendingIndexes(ys)
    ensures AscendingIndexes(InsertOn(IndexOf, x, ys))
  {
    if ys == [] || x.index <= ys[0].index {
      Led(x, ys);
    } else {
      var r := InsertOn(IndexOf, x, ys[1..]);
      InsertSorted(x, ys[1..]);
      forall e | e in r ensures ys[0].index <= e.index {
        InsertHas(x, ys[1..], e);
      }
      Led(ys[0], r);
    }
  }

  lemma {:induction false} SortSorted(xs: seq<Expectation>)
    ensures AscendingIndexes(SortOn(IndexOf, xs)) && multiset(SortOn(IndexOf, xs)) == multiset(xs)
  {
    if xs != [] {
      SortSorted(xs[1..]);
      InsertSorted(xs[0], SortOn(IndexOf, xs[1..]));
      InsertKeeps(xs[0], SortOn(IndexOf, xs[1..]));
      assert xs == [xs[0]] + xs[1..];
    }
  }

  lemma SameFirst(a: seq<Expectation>, b: seq<Expectation>)
    requires AscendingIndexes(a) && RisingIndexes(b) && multiset(a) == multiset(b) && b != []
    ensures a != [] && a[0] == b[0]
  {
    assert b[0] in multiset(a);
    var j :| 0 <= j < |a| && a[j] == b[0];
    assert a[0] in multiset(b);
    var i :| 0 <= i < |b| && b[i] == a[0];
  }

  lemma RestOf(a: seq<Expectation>)
    requires a != []
    ensures multiset(a[1..]) == multiset(a) - multiset{a[0]}
  {
    assert a == [a[0]] + a[1..];
  }

  lemma {:induction false} SortedOnce(a: seq<Expectation>, b: seq<Expectation>)
    requires AscendingIndexes(a) && RisingIndexes(b) && multiset(a) == multiset(b)
    ensures a == b
  {
    assert |multiset(a)| == |a| && |multiset(b)| == |b|;
    if b != [] {
      SameFirst(a, b);
      RestOf(a);
      RestOf(b);
      SortedOnce(a[1..], b[1..]);
      assert a == [a[0]] + a[1..] && b == [b[0]] + b[1..];
    }
  }

  /** The values one after the other. */
  function Values(xs: seq<Expectation>): seq<Byte> {
    if xs == [] then [] else xs[0].value + Values(xs[1..])
  }

  lemma {:induction false} JoinedIs(xs: seq<Expectation>, ys: seq<Expectation>)
    ensures Joined(xs) + Values(ys) == Joined(xs + ys)
    decreases |ys|
  {
    if ys == [] {
      assert xs + ys == xs;
    } else {
      JoinedIs(xs + [ys[0]], ys[1..]);
      assert (xs + [ys[0]])[..|xs|] == xs && xs + ys == (xs + [ys[0]]) + ys[1..];
      Assoc(Joined(xs), ys[0].value, Values(ys[1..]));
    }
  }

  /** However the expectations are listed, the digest expected is that of their values in the order of their registers. */
  lemma DigestInOrder(ck: Checks, expected: seq<Expectation>, ordered: seq<Expectation>)
    requires RisingIndexes(ordered) && multiset(ordered) == multiset(expected)
    ensures ExpectedDigest(ck, expected) == ck.sha(Values(ordered))
  {
    SortSorted(expected);
    SortedOnce(SortOn(IndexOf, expected), ordered);
    JoinedIs([], ordered);
    assert [] + ordered == ordered && [] + Values(ordered) == Values(ordered);
  }
}
