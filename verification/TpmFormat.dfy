/** Exactly which bytes the TPM readers accept: the public areas, quotes and
    certifies that can be marshalled, and nothing else. */
module TpmFormat {
  import opened Bytes
  import opened Tpm

  // ------------------------------------------------- from what was read back to what was written

  lemma Wrote16(b: seq<Byte>)
    requires |b| == 2
    ensures BigEndian(b) < 0x1_0000 && Enc16(BigEndian(b)) == b
  {
    SnocReads([], b[0]);
    SnocReads([b[0]], b[1]);
    assert [] + [b[0]] == [b[0]] && b == [b[0]] + [b[1]];
    TwoDigits(b[0], b[1]);
  }

  lemma TwoDigits(hi: Byte, lo: Byte)
    ensures var n := hi as int * 256 + lo as int; n < 0x1_0000 && n / 256 % 256 == hi as int && n % 256 == lo as int
  {
  }

  lemma Wrote32(b: seq<Byte>)
    requires |b| == 4
    ensures BigEndian(b) < 0x1_0000_0000 && Enc32(BigEndian(b)) == b
  {
    var hi, lo := b[..2], b[2..];
    Wrote16(hi);
    Wrote16(lo);
    Pair(BigEndian(lo), hi);
    assert b == hi + lo;
    Halves(BigEndian(hi), BigEndian(lo), BigEndian(b));
  }

  lemma Halves(hi: nat, lo: nat, n: nat)
    requires lo < 0x1_0000 && n == hi * 0x1_0000 + lo
    ensures n / 0x1_0000 == hi && n % 0x1_0000 == lo
  {
  }

  lemma Number16(b: seq<Byte>)
    requires Number(b, 2).Got?
    ensures var r := Number(b, 2); r.value < 0x1_0000 && b == Enc16(r.value) + r.rest
  {
    Wrote16(b[..2]);
  }

  lemma Number32(b: seq<Byte>)
    requires Number(b, 4).Got?
    ensures var r := Number(b, 4); r.value < 0x1_0000_0000 && b == Enc32(r.value) + r.rest
  {
    Wrote32(b[..4]);
  }

  lemma Number8(b: seq<Byte>)
    requires Number(b, 1).Got?
    ensures var r := Number(b, 1); r.value < 256 && b == [r.value] + r.rest
  {
    SnocReads([], b[0]);
    assert [] + [b[0]] == [b[0]] && b[..1] == [b[0]];
  }

  lemma BlobWrote(b: seq<Byte>)
    requires Blob(b).Got?
    ensures var r := Blob(b); |r.value| < 0x1_0000 && b == EncBlob(r.value) + r.rest
  {
    Number16(b);
    var n := Number(b, 2);
    assert n.rest == n.rest[..n.value] + n.rest[n.value..];
  }

  // ------------------------------------------------- public areas

  lemma TopWrote(b: seq<Byte>) returns (attributes: nat, policy: seq<Byte>)
    requires ReadTop(b).Got?
    ensures attributes < 0x1_0000_0000 && |policy| < 0x1_0000 && ReadTop(b).value < 0x1_0000
    ensures b == Enc16(ECC) + (Enc16(ReadTop(b).value) + (Enc32(attributes) + (EncBlob(policy) + ReadTop(b).rest)))
  {
    Number16(b);
    var b1 := Number(b, 2).rest;
    Number16(b1);
    var b2 := Number(b1, 2).rest;
    Number32(b2);
    attributes := Number(b2, 4).value;
    var b3 := Number(b2, 4).rest;
    BlobWrote(b3);
    policy := Blob(b3).value;
  }

  /** The bytes of a scheme: its number, and its hash unless it is null. */
  function SchemeBytes(scheme: nat, hash: nat): seq<Byte> {
    Enc16(scheme) + if scheme == NULL_ALG then [] else Enc16(hash)
  }

  lemma SchemeWrote(scheme: nat, b: seq<Byte>) returns (hash: nat)
    requires SkipHash(scheme, b).Got?
    ensures hash < 0x1_0000 && Enc16(scheme) + b == SchemeBytes(scheme, hash) + SkipHash(scheme, b).rest
  {
    hash := 0;
    if scheme != NULL_ALG {
      Number16(b);
      hash := Number(b, 2).value;
    }
  }

  lemma ParamsWrote(b: seq<Byte>) returns (hash: nat)
    requires ReadParams(b).Got?
    ensures var (scheme, curve) := ReadParams(b).value;
      && hash < 0x1_0000 && scheme < 0x1_0000 && curve < 0x1_0000
      && b == Enc16(NULL_ALG) + (SchemeBytes(scheme, hash) + (Enc16(curve) + (Enc16(NULL_ALG) + ReadParams(b).rest)))
  {
    Number16(b);
    var b1 := Number(b, 2).rest;
    Number16(b1);
    var scheme, b2 := Number(b1, 2).value, Number(b1, 2).rest;
    hash := SchemeWrote(scheme, b2);
    var b3 := SkipHash(scheme, b2).rest;
    Number16(b3);
    Number16(Number(b3, 2).rest);
  }

  lemma TwoPoints(b: seq<Byte>)
    requires Blob(b).Got? && Blob(Blob(b).rest).Got?
    ensures var x, y := Blob(b).value, Blob(Blob(b).rest).value;
      |x| < 0x1_0000 && |y| < 0x1_0000 && b == EncBlob(x) + (EncBlob(y) + Blob(Blob(b).rest).rest)
  {
    BlobWrote(b);
    BlobWrote(Blob(b).rest);
  }

  lemma Joins(t: Template, top: seq<Byte>, params: seq<Byte>, points: seq<Byte>, rest: seq<Byte>)
    requires top == Enc16(ECC) + (Enc16(t.area.nameAlg) + (Enc32(t.attributes) + (EncBlob(t.policy) + params)))
    requires params == Enc16(NULL_ALG) + (SchemeBytes(t.area.scheme, t.hash) + (Enc16(t.area.curve) + (Enc16(NULL_ALG) + points)))
    requires points == EncBlob(t.area.x) + (EncBlob(t.area.y) + rest)
    ensures top == EncPublic(t) + rest
  {
    assert params == EncParams(t) + points by {
      assert SchemeBytes(t.area.scheme, t.hash) == EncScheme(t);
    }
    assert top == EncTop(t) + params;
    Assoc(EncBlob(t.area.x), EncBlob(t.area.y), rest);
    Assoc(EncParams(t), EncBlob(t.area.x) + EncBlob(t.area.y), rest);
    Assoc(EncTop(t), EncParams(t) + (EncBlob(t.area.x) + EncBlob(t.area.y)), rest);
  }

  lemma AreaWrote(b: seq<Byte>) returns (t: Template)
    requires ReadArea(b).Got?
    ensures t.Fits() && t.area == ReadArea(b).value && b == EncPublic(t) + ReadArea(b).rest
  {
    var attributes, policy := TopWrote(b);
    var b1 := ReadTop(b).rest;
    var hash := ParamsWrote(b1);
    var b2 := ReadParams(b1).rest;
    TwoPoints(b2);
    t := Template(attributes, policy, hash, ReadArea(b).value);
    Joins(t, b, b1, b2, ReadArea(b).rest);
  }

  /** The area holds the key: an Ed25519 point as it stands, or the two coordinates of a P-256 point widened to 32 bytes. */
  predicate Holds(a: Area, k: TpmKey) {
    match k
    case Ed25519(raw) => a.scheme == EDDSA && a.curve == CURVE_25519 && raw == a.x && |raw| == 32
    case EcdsaP256(point) =>
      && a.scheme == ECDSA && a.curve == NIST_P256 && |a.x| <= 32 && |a.y| <= 32 && |point| == 65 && point[0] == 4
      && BigEndian(point[1..33]) == BigEndian(a.x) && BigEndian(point[33..]) == BigEndian(a.y)
  }

  lemma {:induction false} SameNumber(a: seq<Byte>, b: seq<Byte>)
    requires |a| == |b| && BigEndian(a) == BigEndian(b)
    ensures a == b
  {
    if a != [] {
      var n := |a| - 1;
      LastByte(BigEndian(a[..n]), a[n], BigEndian(b[..n]), b[n]);
      SameNumber(a[..n], b[..n]);
      assert a == a[..n] + [a[n]] && b == b[..n] + [b[n]];
    }
  }

  lemma LastByte(h: nat, x: Byte, k: nat, y: Byte)
    requires h * 256 + x as int == k * 256 + y as int
    ensures h == k && x == y
  {
  }

  lemma KeyMeans(a: Area, k: TpmKey)
    ensures KeyOf(a) == Some(k) <==> Holds(a, k)
  {
    if k.EcdsaP256? && |a.x| <= 32 && |a.y| <= 32 {
      var x, y := Padded(a.x), Padded(a.y);
      var point := [4] + x + y;
      assert point[1..33] == x && point[33..] == y && point[0] == 4;
      if Holds(a, k) {
        SameNumber(k.point[1..33], x);
        SameNumber(k.point[33..], y);
        assert k.point == [k.point[0]] + k.point[1..33] + k.point[33..];
      }
    }
  }

  /** The bytes are a marshalled public area that holds the key. */
  predicate Marshals(b: seq<Byte>, p: Public, t: Template) {
    t.Fits() && b == EncPublic(t) && t.area.nameAlg == p.nameAlg && Holds(t.area, p.key)
  }

  /** The reader accepts bytes as a public area exactly when they are one, marshalled, and it holds the key that is read. */
  lemma AcceptsExactlyAreas(b: seq<Byte>, p: Public)
    ensures ParsePublic(b) == Some(p) <==> exists t :: Marshals(b, p, t)
  {
    if ParsePublic(b) == Some(p) {
      var t := AreaWrote(b);
      KeyMeans(t.area, p.key);
      assert EncPublic(t) + [] == EncPublic(t);
      assert Marshals(b, p, t);
    }
    forall t | Marshals(b, p, t) ensures ParsePublic(b) == Some(p) {
      PublicReads(t, []);
      KeyMeans(t.area, p.key);
      assert EncPublic(t) + [] == EncPublic(t);
    }
  }

  // ------------------------------------------------- statements

  /** What comes before a statement's own body. */
  datatype Head = Head(signer: seq<Byte>, extra: seq<Byte>, clock: seq<Byte>) {
    predicate Fits() {
      |signer| < 0x1_0000 && |extra| < 0x1_0000 && |clock| == 25
    }
  }

  function HeadBytes(st: nat, h: Head): seq<Byte> {
    EncHeader(st, h.signer, h.extra, h.clock)
  }

  lemma HeadWrote(b: seq<Byte>) returns (h: Head)
    requires ReadHeader(b).Got?
    ensures h.Fits() && ReadHeader(b).value < 0x1_0000 && b == HeadBytes(ReadHeader(b).value, h) + ReadHeader(b).rest
  {
    Number32(b);
    var b1 := Number(b, 4).rest;
    Number16(b1);
    var st, b2 := Number(b1, 2).value, Number(b1, 2).rest;
    BlobWrote(b2);
    var b3 := Blob(b2).rest;
    BlobWrote(b3);
    var b4 := Blob(b3).rest;
    h := Head(Blob(b2).value, Blob(b3).value, b4[..25]);
    assert b4 == h.clock + b4[25..];
    HeadJoins(st, h, b4[25..]);
  }

  lemma HeadJoins(st: nat, h: Head, rest: seq<Byte>)
    ensures HeadBytes(st, h) + rest == Enc32(TPM_GENERATED) + (Enc16(st) + (EncBlob(h.signer) + (EncBlob(h.extra) + (h.clock + rest))))
  {
    var s3 := EncBlob(h.extra) + h.clock;
    var s2 := EncBlob(h.signer) + s3;
    var s1 := Enc16(st) + s2;
    Assoc(Enc32(TPM_GENERATED), s1, rest);
    Assoc(Enc16(st), s2, rest);
    Assoc(EncBlob(h.signer), s3, rest);
    Assoc(EncBlob(h.extra), h.clock, rest);
  }

  lemma BankWrote(b: seq<Byte>)
    requires ReadBank(b).Got?
    ensures BankFits(ReadBank(b).value) && b == EncBank(ReadBank(b).value) + ReadBank(b).rest
  {
    Number16(b);
    var b1 := Number(b, 2).rest;
    Number8(b1);
    var size, b2 := Number(b1, 1).value, Number(b1, 1).rest;
    assert b2 == b2[..size] + b2[size..];
    BankJoins(Number(b, 2).value, b2[..size], b2[size..]);
  }

  lemma BankJoins(alg: nat, bitmap: seq<Byte>, rest: seq<Byte>)
    requires |bitmap| < 256
    ensures Enc16(alg) + ([|bitmap|] + (bitmap + rest)) == EncBank(Bank(alg, bitmap)) + rest
  {
    Assoc([|bitmap|], bitmap, rest);
    Assoc(Enc16(alg), [|bitmap|] + bitmap, rest);
  }

  lemma {:induction false} BanksWrote(b: seq<Byte>, count: nat)
    requires ReadBanks(b, count).Got?
    ensures var r := ReadBanks(b, count);
      |r.value| == count && (forall bank :: bank in r.value ==> BankFits(bank)) && b == EncBanks(r.value) + r.rest
    decreases count
  {
    if count > 0 {
      var bank, rest := ReadBank(b).value, ReadBank(b).rest;
      BankWrote(b);
      BanksWrote(rest, count - 1);
      var more := ReadBanks(rest, count - 1).value;
      assert ([bank] + more)[1..] == more;
      Assoc(EncBank(bank), EncBanks(more), ReadBanks(b, count).rest);
    }
  }

  lemma QuoteWrote(b: seq<Byte>) returns (banks: seq<Bank>, digest: seq<Byte>, tail: seq<Byte>)
    requires ReadQuote(b).Some?
    ensures ReadQuote(b) == Some(Quote(digest, banks)) && |digest| < 0x1_0000 && |banks| < 0x1_0000_0000
    ensures (forall bank :: bank in banks ==> BankFits(bank)) && b == QuoteBody(banks, digest, tail)
  {
    Number32(b);
    var count, b1 := Number(b, 4).value, Number(b, 4).rest;
    BanksWrote(b1, count);
    var b2 := ReadBanks(b1, count).rest;
    BlobWrote(b2);
    banks, digest, tail := ReadBanks(b1, count).value, Blob(b2).value, Blob(b2).rest;
  }

  /** The bytes are a statement quoting exactly these banks and this digest. */
  predicate IsQuote(b: seq<Byte>, digest: seq<Byte>, banks: seq<Bank>, h: Head, tail: seq<Byte>) {
    && h.Fits() && |digest| < 0x1_0000 && |banks| < 0x1_0000_0000 && (forall bank :: bank in banks ==> BankFits(bank))
    && b == HeadBytes(QUOTE, h) + QuoteBody(banks, digest, tail)
  }

  /** The bytes are a statement certifying this name. */
  predicate IsCertify(b: seq<Byte>, name: seq<Byte>, h: Head, qualified: seq<Byte>, tail: seq<Byte>) {
    && h.Fits() && |name| < 0x1_0000 && |qualified| < 0x1_0000
    && b == HeadBytes(CERTIFY, h) + (EncBlob(name) + (EncBlob(qualified) + tail))
  }

  /** A statement is read as a quote exactly when it was made by a TPM, says it is one, and is laid out as one. */
  lemma AcceptsExactlyQuotes(b: seq<Byte>, digest: seq<Byte>, banks: seq<Bank>)
    ensures ParseAttest(b) == Some(Quote(digest, banks)) <==> exists h, tail :: IsQuote(b, digest, banks, h, tail)
  {
    if ParseAttest(b) == Some(Quote(digest, banks)) {
      var h := HeadWrote(b);
      var _, _, tail := QuoteWrote(ReadHeader(b).rest);
      assert IsQuote(b, digest, banks, h, tail);
    }
    forall h, tail | IsQuote(b, digest, banks, h, tail) ensures ParseAttest(b) == Some(Quote(digest, banks)) {
      QuoteReads(h.signer, h.extra, h.clock, banks, digest, tail);
    }
  }

  /** The same for a certify. */
  lemma AcceptsExactlyCertifies(b: seq<Byte>, name: seq<Byte>)
    ensures ParseAttest(b) == Some(Certify(name)) <==> exists h, qualified, tail :: IsCertify(b, name, h, qualified, tail)
  {
    if ParseAttest(b) == Some(Certify(name)) {
      var h := HeadWrote(b);
      var body := ReadHeader(b).rest;
      BlobWrote(body);
      BlobWrote(Blob(body).rest);
      var qualified, tail := Blob(Blob(body).rest).value, Blob(Blob(body).rest).rest;
      assert IsCertify(b, name, h, qualified, tail);
    }
    forall h, qualified, tail | IsCertify(b, name, h, qualified, tail) ensures ParseAttest(b) == Some(Certify(name)) {
      CertifyReads(h.signer, h.extra, h.clock, name, qualified, tail);
    }
  }
}
