/** `identity/bundle.rs`: the signed identity bundle, in its three formats.

    Each format signs more than the one before: the second adds the markers that
    tell machines from people, the third the claims a display label is read from.
    An older bundle is accepted only while what it does not sign is the default. */
module IdentityBundles {
  import opened Bytes
  import opened Canonical
  import opened SignedLists

  datatype Jwk = Jwk(kty: Text, kid: Text, alg: Option<Text>, crv: Option<Text>, n: Option<Text>, e: Option<Text>,
                     x: Option<Text>, y: Option<Text>)
  datatype Marker = Marker(path: Text, value: Text)
  datatype Markers = Markers(subjectIsClient: bool, equals: seq<Marker>, prefixes: seq<Marker>)
  datatype Claims = Claims(subject: Text, scopes: seq<Text>, groups: seq<Text>, clientId: seq<Text>, labels: seq<Text>,
                           machine: Markers)
  datatype Bundle = Bundle(format: Text, version: Text, issuer: Text, audience: Text, keys: seq<Jwk>, claims: Claims)

  /** The three format names, and the defaults of what older formats do not sign. */
  datatype Known = Known(v1: Text, v2: Text, v3: Text, markers: Markers, labels: seq<Text>) {
    predicate Distinct() {
      v1 != v2 && v1 != v3 && v2 != v3
    }
  }

  function Kid(k: Jwk): Text { k.kid }

  function EncJwk(k: Jwk): seq<Byte> {
    EncText(k.kty) + (EncText(k.kid) + (EncOptText(k.alg) + (EncOptText(k.crv) + (EncOptText(k.n) + (EncOptText(k.e)
    + (EncOptText(k.x) + EncOptText(k.y)))))))
  }

  function EncMarker(m: Marker): seq<Byte> {
    EncText(m.path) + EncText(m.value)
  }

  function EncMarkers(m: Markers): seq<Byte> {
    EncWord(if m.subjectIsClient then 1 else 0) + (EncCounted(EncMarker, m.equals) + EncCounted(EncMarker, m.prefixes))
  }

  /** What format v1 leaves out. */
  function MarkersPart(k: Known, b: Bundle): seq<Byte> {
    if b.format != k.v1 then EncMarkers(b.claims.machine) else []
  }

  /** What formats v1 and v2 leave out. */
  function LabelsPart(k: Known, b: Bundle): seq<Byte> {
    if b.format != k.v1 && b.format != k.v2 then EncTextSeq(b.claims.labels) else []
  }

  /** The body that is digested and signed. */
  function Body(k: Known, b: Bundle): seq<Byte> {
    EncText(b.format) + (EncText(b.version) + (EncText(b.issuer) + (EncText(b.audience)
    + (EncCounted(EncJwk, SortBy(Kid, b.keys)) + ClaimsPart(k, b)))))
  }

  function ClaimsPart(k: Known, b: Bundle): seq<Byte> {
    EncText(b.claims.subject) + (EncTextSeq(b.claims.scopes) + (EncTextSeq(b.claims.groups)
    + (EncTextSeq(b.claims.clientId) + (MarkersPart(k, b) + LabelsPart(k, b)))))
  }

  /** What `verify` accepts once the signature holds. */
  predicate Accepted(k: Known, b: Bundle) {
    || b.format == k.v3
    || (b.format == k.v1 && b.claims.machine == k.markers && b.claims.labels == k.labels)
    || (b.format == k.v2 && b.claims.labels == k.labels)
  }

  predicate ShortJwk(k: Jwk) {
    && Short(k.kty) && Short(k.kid) && ShortOpt(k.alg) && ShortOpt(k.crv) && ShortOpt(k.n) && ShortOpt(k.e)
    && ShortOpt(k.x) && ShortOpt(k.y)
  }

  predicate ShortMarkers(ms: seq<Marker>) {
    Countable(ms) && forall m :: m in ms ==> Short(m.path) && Short(m.value)
  }

  predicate ShortBundle(b: Bundle) {
    && Short(b.format) && Short(b.version) && Short(b.issuer) && Short(b.audience)
    && Countable(b.keys) && (forall k :: k in b.keys ==> ShortJwk(k))
    && Short(b.claims.subject) && ShortSeq(b.claims.scopes) && ShortSeq(b.claims.groups) && ShortSeq(b.claims.clientId)
    && ShortSeq(b.claims.labels) && ShortMarkers(b.claims.machine.equals) && ShortMarkers(b.claims.machine.prefixes)
  }

  method EncodeJwk(e: Encoder, k: Jwk)
    modifies e
    ensures e.buf == old(e.buf) + EncJwk(k)
  {
    e.Str(k.kty);
    e.Str(k.kid);
    e.OptStr(k.alg);
    e.OptStr(k.crv);
    e.OptStr(k.n);
    e.OptStr(k.e);
    e.OptStr(k.x);
    ghost var mid := e.buf;
    Cat6(old(e.buf), EncText(k.kty), EncText(k.kid), EncOptText(k.alg), EncOptText(k.crv), EncOptText(k.n), EncOptText(k.e));
    e.OptStr(k.y);
    Cat7(old(e.buf) + EncText(k.kty), EncText(k.kid), EncOptText(k.alg), EncOptText(k.crv), EncOptText(k.n), EncOptText(k.e),
         EncOptText(k.x), EncOptText(k.y));
    Assoc(old(e.buf), EncText(k.kty), EncText(k.kid) + (EncOptText(k.alg) + (EncOptText(k.crv) + (EncOptText(k.n)
          + (EncOptText(k.e) + (EncOptText(k.x) + EncOptText(k.y)))))));
  }

  method EncodeKeyItems(e: Encoder, keys: seq<Jwk>)
    modifies e
    ensures e.buf == old(e.buf) + EncList(EncJwk, keys)
  {
    for i := 0 to |keys|
      invariant e.buf + EncList(EncJwk, keys[i..]) == old(e.buf) + EncList(EncJwk, keys)
    {
      ListStep(EncJwk, keys, i, e.buf);
      EncodeJwk(e, keys[i]);
    }
    assert e.buf + [] == e.buf;
  }

  method EncodeKeys(e: Encoder, keys: seq<Jwk>)
    modifies e
    ensures e.buf == old(e.buf) + EncCounted(EncJwk, keys)
  {
    e.U64(|keys| % 0x1_0000_0000_0000_0000);
    EncodeKeyItems(e, keys);
    Assoc(old(e.buf), EncWord(|keys| % 0x1_0000_0000_0000_0000), EncList(EncJwk, keys));
  }

  method EncodeMarkerList(e: Encoder, ms: seq<Marker>)
    modifies e
    ensures e.buf == old(e.buf) + EncCounted(EncMarker, ms)
  {
    e.U64(|ms| % 0x1_0000_0000_0000_0000);
    ghost var start := e.buf;
    for i := 0 to |ms|
      invariant e.buf + EncList(EncMarker, ms[i..]) == start + EncList(EncMarker, ms)
    {
      ListStep(EncMarker, ms, i, e.buf);
      Assoc(e.buf, EncText(ms[i].path), EncText(ms[i].value));
      e.Str(ms[i].path);
      e.Str(ms[i].value);
    }
    assert e.buf + [] == e.buf;
  }

  method EncodeUnsignedBefore(e: Encoder, k: Known, b: Bundle)
    modifies e
    ensures e.buf == old(e.buf) + (MarkersPart(k, b) + LabelsPart(k, b))
  {
    if b.format != k.v1 {
      e.U64(if b.claims.machine.subjectIsClient then 1 else 0);
      EncodeMarkerList(e, b.claims.machine.equals);
      EncodeMarkerList(e, b.claims.machine.prefixes);
      Cat3(old(e.buf), EncWord(if b.claims.machine.subjectIsClient then 1 else 0),
           EncCounted(EncMarker, b.claims.machine.equals), EncCounted(EncMarker, b.claims.machine.prefixes));
    }
    assert e.buf == old(e.buf) + MarkersPart(k, b);
    if b.format != k.v1 && b.format != k.v2 {
      e.StrSeq(b.claims.labels);
    }
    Assoc(old(e.buf), MarkersPart(k, b), LabelsPart(k, b));
  }

  /** `IdentityBundle::signing_bytes`, before the digest. */
  method SigningBody(k: Known, b: Bundle) returns (body: seq<Byte>)
    ensures body == Body(k, b)
  {
    var e := new Encoder();
    e.Str(b.format);
    e.Str(b.version);
    e.Str(b.issuer);
    e.Str(b.audience);
    assert [] + EncText(b.format) == EncText(b.format);
    ghost var head := e.buf;
    EncodeKeys(e, SortBy(Kid, b.keys));
    e.Str(b.claims.subject);
    e.StrSeq(b.claims.scopes);
    e.StrSeq(b.claims.groups);
    e.StrSeq(b.claims.clientId);
    EncodeUnsignedBefore(e, k, b);
    Cat6(head, EncCounted(EncJwk, SortBy(Kid, b.keys)), EncText(b.claims.subject), EncTextSeq(b.claims.scopes),
         EncTextSeq(b.claims.groups), EncTextSeq(b.claims.clientId), MarkersPart(k, b) + LabelsPart(k, b));
    Cat4(EncText(b.format), EncText(b.version), EncText(b.issuer), EncText(b.audience),
         EncCounted(EncJwk, SortBy(Kid, b.keys)) + ClaimsPart(k, b));
    body := e.buf;
  }

  // ------------------------------------------------- reading the body back

  lemma JwkReads(a: Jwk, b: Jwk)
    requires ShortJwk(a) && ShortJwk(b)
    ensures Reads(EncJwk, a, b)
  {
    forall s, t ensures ReadAt(EncJwk, a, b, s, t) {
      if EncJwk(a) + s == EncJwk(b) + t {
        ReadJwk(a, b, s, t);
      }
    }
  }

  lemma ReadJwk(a: Jwk, b: Jwk, s: seq<Byte>, t: seq<Byte>)
    requires ShortJwk(a) && ShortJwk(b) && EncJwk(a) + s == EncJwk(b) + t
    ensures a == b && s == t
  {
    var x7, y7 := EncOptText(a.y), EncOptText(b.y);
    var x6, y6 := EncOptText(a.x) + x7, EncOptText(b.x) + y7;
    var x5, y5 := EncOptText(a.e) + x6, EncOptText(b.e) + y6;
    var x4, y4 := EncOptText(a.n) + x5, EncOptText(b.n) + y5;
    var x3, y3 := EncOptText(a.crv) + x4, EncOptText(b.crv) + y4;
    var x2, y2 := EncOptText(a.alg) + x3, EncOptText(b.alg) + y3;
    PeelText(a.kty, b.kty, EncText(a.kid) + x2, EncText(b.kid) + y2, s, t);
    PeelText(a.kid, b.kid, x2, y2, s, t);
    PeelOptText(a.alg, b.alg, x3, y3, s, t);
    PeelOptText(a.crv, b.crv, x4, y4, s, t);
    PeelOptText(a.n, b.n, x5, y5, s, t);
    PeelOptText(a.e, b.e, x6, y6, s, t);
    PeelOptText(a.x, b.x, x7, y7, s, t);
    ReadOptText(a.y, b.y, s, t);
  }

  lemma MarkersRead(a: seq<Marker>, b: seq<Marker>)
    requires ShortMarkers(a) && ShortMarkers(b)
    ensures forall p, q :: p in a && q in b ==> Reads(EncMarker, p, q)
  {
    forall p, q | p in a && q in b ensures Reads(EncMarker, p, q) {
      forall s, t ensures ReadAt(EncMarker, p, q, s, t) {
        if EncMarker(p) + s == EncMarker(q) + t {
          PeelText(p.path, q.path, EncText(p.value), EncText(q.value), s, t);
          ReadText(p.value, q.value, s, t);
        }
      }
    }
  }

  lemma SortedKeysRead(a: Bundle, b: Bundle)
    requires ShortBundle(a) && ShortBundle(b)
    ensures var ka, kb := SortBy(Kid, a.keys), SortBy(Kid, b.keys);
      Countable(ka) && Countable(kb) && forall p, q :: p in ka && q in kb ==> Reads(EncJwk, p, q)
  {
    var ka, kb := SortBy(Kid, a.keys), SortBy(Kid, b.keys);
    assert |multiset(ka)| == |ka| && |multiset(kb)| == |kb| && |multiset(a.keys)| == |a.keys| && |multiset(b.keys)| == |b.keys|;
    forall p, q | p in ka && q in kb ensures Reads(EncJwk, p, q) {
      SameMembers(ka, a.keys, p);
      SameMembers(kb, b.keys, q);
      JwkReads(p, q);
    }
  }

  /** The optional segments, in bundles of the same format. */
  lemma ReadUnsignedBefore(k: Known, a: Bundle, b: Bundle)
    requires k.Distinct() && ShortBundle(a) && ShortBundle(b) && a.format == b.format && Accepted(k, a) && Accepted(k, b)
    requires MarkersPart(k, a) + LabelsPart(k, a) == MarkersPart(k, b) + LabelsPart(k, b)
    ensures a.claims.machine == b.claims.machine && a.claims.labels == b.claims.labels
  {
    if a.format != k.v1 {
      var m, n := a.claims.machine, b.claims.machine;
      var x, y := LabelsPart(k, a), LabelsPart(k, b);
      MarkersRead(m.equals, n.equals);
      MarkersRead(m.prefixes, n.prefixes);
      var e, f := EncCounted(EncMarker, m.prefixes), EncCounted(EncMarker, n.prefixes);
      PeelWord(if m.subjectIsClient then 1 else 0, if n.subjectIsClient then 1 else 0,
               EncCounted(EncMarker, m.equals) + e, EncCounted(EncMarker, n.equals) + f, x, y);
      PeelCounted(EncMarker, m.equals, n.equals, e, f, x, y);
      assert (e + x) + [] == e + x && (f + y) + [] == f + y;
      PeelCounted(EncMarker, m.prefixes, n.prefixes, x, y, [], []);
      assert x + [] == x && y + [] == y;
      if a.format != k.v2 {
        assert EncTextSeq(a.claims.labels) + [] == EncTextSeq(b.claims.labels) + [];
        ReadTextSeq(a.claims.labels, b.claims.labels, [], []);
      }
    }
  }

  lemma ReadClaims(k: Known, a: Bundle, b: Bundle)
    requires k.Distinct() && ShortBundle(a) && ShortBundle(b) && a.format == b.format && Accepted(k, a) && Accepted(k, b)
    requires ClaimsPart(k, a) == ClaimsPart(k, b)
    ensures a.claims == b.claims
  {
    var x4, y4 := MarkersPart(k, a) + LabelsPart(k, a), MarkersPart(k, b) + LabelsPart(k, b);
    var x3, y3 := EncTextSeq(a.claims.clientId) + x4, EncTextSeq(b.claims.clientId) + y4;
    var x2, y2 := EncTextSeq(a.claims.groups) + x3, EncTextSeq(b.claims.groups) + y3;
    var x1, y1 := EncTextSeq(a.claims.scopes) + x2, EncTextSeq(b.claims.scopes) + y2;
    assert ClaimsPart(k, a) + [] == ClaimsPart(k, b) + [];
    PeelText(a.claims.subject, b.claims.subject, x1, y1, [], []);
    PeelTextSeq(a.claims.scopes, b.claims.scopes, x2, y2, [], []);
    PeelTextSeq(a.claims.groups, b.claims.groups, x3, y3, [], []);
    PeelTextSeq(a.claims.clientId, b.claims.clientId, x4, y4, [], []);
    assert x4 + [] == x4 && y4 + [] == y4;
    ReadUnsignedBefore(k, a, b);
  }

  /** Two bundles are the same but for the order of their keys. */
  predicate SameBundle(a: Bundle, b: Bundle) {
    a.(keys := b.keys) == b && multiset(a.keys) == multiset(b.keys)
  }

  /** Across the three formats: two accepted bundles with the same signed body are the same bundle up to key order. */
  lemma BodyIdentifiesBundle(k: Known, a: Bundle, b: Bundle)
    requires k.Distinct() && ShortBundle(a) && ShortBundle(b) && Accepted(k, a) && Accepted(k, b) && Body(k, a) == Body(k, b)
    ensures SameBundle(a, b)
  {
    var ka, kb := SortBy(Kid, a.keys), SortBy(Kid, b.keys);
    var x4, y4 := EncCounted(EncJwk, ka) + ClaimsPart(k, a), EncCounted(EncJwk, kb) + ClaimsPart(k, b);
    var x3, y3 := EncText(a.audience) + x4, EncText(b.audience) + y4;
    var x2, y2 := EncText(a.issuer) + x3, EncText(b.issuer) + y3;
    assert Body(k, a) + [] == Body(k, b) + [];
    PeelText(a.format, b.format, EncText(a.version) + x2, EncText(b.version) + y2, [], []);
    PeelText(a.version, b.version, x2, y2, [], []);
    PeelText(a.issuer, b.issuer, x3, y3, [], []);
    PeelText(a.audience, b.audience, x4, y4, [], []);
    ReadKeys(k, a, b);
  }

  lemma ReadKeys(k: Known, a: Bundle, b: Bundle)
    requires k.Distinct() && ShortBundle(a) && ShortBundle(b) && a.format == b.format && Accepted(k, a) && Accepted(k, b)
    requires (EncCounted(EncJwk, SortBy(Kid, a.keys)) + ClaimsPart(k, a)) + [] == (EncCounted(EncJwk, SortBy(Kid, b.keys)) + ClaimsPart(k, b)) + []
    ensures multiset(a.keys) == multiset(b.keys) && a.claims == b.claims
  {
    SortedKeysRead(a, b);
    PeelCounted(EncJwk, SortBy(Kid, a.keys), SortBy(Kid, b.keys), ClaimsPart(k, a), ClaimsPart(k, b), [], []);
    assert ClaimsPart(k, a) + [] == ClaimsPart(k, a) && ClaimsPart(k, b) + [] == ClaimsPart(k, b);
    ReadClaims(k, a, b);
  }

  /** With no key id repeated, the order of the keys never reaches the signature, and nothing else escapes it. */
  lemma BodyDecidesBundle(k: Known, a: Bundle, b: Bundle)
    requires k.Distinct() && ShortBundle(a) && ShortBundle(b) && Accepted(k, a) && Accepted(k, b) && DistinctBy(Kid, a.keys)
    ensures Body(k, a) == Body(k, b) <==> SameBundle(a, b)
  {
    if SameBundle(a, b) {
      SortForgetsOrder(Kid, a.keys, b.keys);
    } else if Body(k, a) == Body(k, b) {
      BodyIdentifiesBundle(k, a, b);
    }
  }

  /** Why older formats refuse what they do not sign: a v1 body is the same whatever the markers and the labels. */
  lemma OldFormatsCoverLess(k: Known, b: Bundle, machine: Markers, labels: seq<Text>)
    requires k.Distinct()
    ensures b.format == k.v1 ==> Body(k, b.(claims := b.claims.(machine := machine, labels := labels))) == Body(k, b)
    ensures b.format == k.v2 ==> Body(k, b.(claims := b.claims.(labels := labels))) == Body(k, b)
  {
  }
}
