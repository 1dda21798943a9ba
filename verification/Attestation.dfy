/** `attestation.rs`: what an accepted attestation of an identity key establishes.

    The check compares lists of register numbers after sorting them and dropping
    repeats, and the name a certify reports with the hash of the enrolled key's
    public area, or of the bare key. Here are the sets it decides and the key it
    binds, and the one overlap between the two ways of naming a key. */
module Attestation {
  import opened Bytes
  import opened Tpm

  // ------------------------------------------------- sorting by a number

  function InsertOn<T>(key: T -> nat, x: T, ys: seq<T>): seq<T> {
    if ys == [] || key(x) <= key(ys[0]) then [x] + ys else [ys[0]] + InsertOn(key, x, ys[1..])
  }

  /** The library's stable sort. */
  function SortOn<T>(key: T -> nat, xs: seq<T>): seq<T> {
    if xs == [] then [] else InsertOn(key, xs[0], SortOn(key, xs[1..]))
  }

  function Same(n: nat): nat { n }

  /** `dedup`: one of every run of equal neighbours. */
  function Dedup(xs: seq<nat>): seq<nat> {
    if |xs| < 2 then xs else if xs[0] == xs[1] then Dedup(xs[1..]) else [xs[0]] + Dedup(xs[1..])
  }

  predicate Ascending(xs: seq<nat>) { forall i, j :: 0 <= i < j < |xs| ==> xs[i] <= xs[j] }
  predicate Rising(xs: seq<nat>) { forall i, j :: 0 <= i < j < |xs| ==> xs[i] < xs[j] }

  lemma {:induction false} InsertAscends(x: nat, ys: seq<nat>)
    requires Ascending(ys)
    ensures Ascending(InsertOn(Same, x, ys))
    ensures forall n :: n in InsertOn(Same, x, ys) <==> n == x || n in ys
  {
    if ys != [] && x > ys[0] {
      InsertAscends(x, ys[1..]);
      var r := InsertOn(Same, x, ys[1..]);
      forall j | 0 <= j < |r| ensures ys[0] <= r[j] {
        assert r[j] in r;
      }
    }
  }

  lemma {:induction false} SortAscends(xs: seq<nat>)
    ensures Ascending(SortOn(Same, xs))
    ensures forall n :: n in SortOn(Same, xs) <==> n in xs
  {
    if xs != [] {
      SortAscends(xs[1..]);
      InsertAscends(xs[0], SortOn(Same, xs[1..]));
    }
  }

  lemma {:induction false} DedupRises(xs: seq<nat>)
    requires Ascending(xs)
    ensures Rising(Dedup(xs))
    ensures forall n :: n in Dedup(xs) <==> n in xs
  {
    if |xs| >= 2 {
      var rest := xs[1..];
      DedupRises(rest);
      var r := Dedup(rest);
      assert forall n :: n in xs <==> n == xs[0] || n in rest;
      if xs[0] == xs[1] {
        assert xs[0] == rest[0];
      } else {
        forall j | 0 <= j < |r| ensures xs[0] < r[j] {
          assert r[j] in rest;
        }
      }
    }
  }

  lemma {:induction false} RisingUnique(a: seq<nat>, b: seq<nat>)
    requires Rising(a) && Rising(b) && forall n :: n in a <==> n in b
    ensures a == b
  {
    assert |a| > 0 ==> a[0] in a;
    assert |b| > 0 ==> b[0] in b;
    if |a| > 0 && |b| > 0 {
      assert a[0] in b && b[0] in a;
      forall n ensures n in a[1..] <==> n in b[1..] {
        assert n in a[1..] <==> n in a && n != a[0];
        assert n in b[1..] <==> n in b && n != b[0];
      }
      RisingUnique(a[1..], b[1..]);
      assert a == [a[0]] + a[1..] && b == [b[0]] + b[1..];
    }
  }

  function Canonical(xs: seq<nat>): seq<nat> { Dedup(SortOn(Same, xs)) }

  /** Sorting, dropping repeats and comparing lists compares the sets. */
  lemma CanonicalComparesSets(a: seq<nat>, b: seq<nat>)
    ensures Canonical(a) == Canonical(b) <==> forall n :: n in a <==> n in b
  {
    SortAscends(a);
    SortAscends(b);
    DedupRises(SortOn(Same, a));
    DedupRises(SortOn(Same, b));
    if forall n :: n in a <==> n in b {
      RisingUnique(Canonical(a), Canonical(b));
    }
    assert forall n :: n in Canonical(a) <==> n in a;
    assert forall n :: n in Canonical(b) <==> n in b;
  }

  // ------------------------------------------------- the check

  datatype Algo = ED25519 | ECDSA_P256 | OTHER

  /** An enrolled identity key. */
  datatype Entry = Entry(algo: Algo, key: seq<Byte>)
  datatype Expectation = Expectation(index: nat, value: seq<Byte>)
  datatype Enrolment = Enrolment(ak: seq<Byte>, certify: seq<Byte>, quote: seq<Byte>, expected: seq<Expectation>,
                                 identityPub: Option<seq<Byte>>)
  datatype Failure = BadKey | BadAttestation | Mismatch

  /** The primitives: SHA-256, which 32 bytes are an Ed25519 key, and the two signature checks. */
  datatype Checks = Checks(sha: seq<Byte> -> seq<Byte>, edKey: seq<Byte> -> bool,
                           ed: (seq<Byte>, seq<Byte>, seq<Byte>) -> bool, p256: (seq<Byte>, seq<Byte>, seq<Byte>) -> bool)

  /** `parse_ak`: the shape of the key material decides the algorithm. */
  predicate IsAk(ck: Checks, ak: seq<Byte>) {
    (|ak| == 32 && ck.edKey(ak)) || (|ak| == 65 && ak[0] == 4)
  }

  predicate AkSigned(ck: Checks, ak: seq<Byte>, attest: seq<Byte>, sig: seq<Byte>) {
    if |ak| == 32 then ck.ed(ak, attest, sig) else ck.p256(ak, ck.sha(attest), sig)
  }

  /** `verify_signed_attest` up to the parse: the statement, if the trailing 64 bytes sign it. */
  function SignedPart(ck: Checks, ak: seq<Byte>, blob: seq<Byte>): Option<seq<Byte>> {
    if |blob| < 64 then None
    else
      var n := |blob| - 64;
      if AkSigned(ck, ak, blob[..n], blob[n..]) then Some(blob[..n]) else None
  }

  function Signed(ck: Checks, ak: seq<Byte>, blob: seq<Byte>): Option<Attested> {
    match SignedPart(ck, ak, blob) case None => None case Some(b) => ParseAttest(b)
  }

  function NameOf(ck: Checks, named: seq<Byte>): seq<Byte> {
    Enc16(SHA256) + ck.sha(named)
  }

  function RawKey(k: TpmKey): (Algo, seq<Byte>) {
    match k case Ed25519(raw) => (ED25519, raw) case EcdsaP256(point) => (ECDSA_P256, point)
  }

  /** The bytes whose hash the certify must name: the public area, or the bare key where none is carried. */
  function Named(ck: Checks, e: Entry, pub: Option<seq<Byte>>): Result<seq<Byte>, Failure> {
    match pub
    case None => if e.algo == ED25519 && |e.key| == 32 && ck.edKey(e.key) then Ok(e.key) else Err(BadKey)
    case Some(tp) =>
      match ParsePublic(tp)
      case None => Err(BadAttestation)
      case Some(p) =>
        if p.nameAlg != SHA256 then Err(BadAttestation)
        else if RawKey(p.key) != (e.algo, e.key) then Err(Mismatch)
        else Ok(tp)
  }

  function IndexOf(x: Expectation): nat { x.index }
  function NumberOf(p: Pcr): nat { p.index }

  function Each<T>(key: T -> nat, xs: seq<T>): (ns: seq<nat>)
    ensures |ns| == |xs| && forall j :: 0 <= j < |ns| ==> ns[j] == key(xs[j])
  {
    seq(|xs|, j requires 0 <= j < |xs| => key(xs[j]))
  }

  function Joined(xs: seq<Expectation>): seq<Byte> {
    if xs == [] then [] else Joined(xs[..|xs| - 1]) + xs[|xs| - 1].value
  }

  /** `expected_pcr_digest`: the hash of the values in index order. */
  function ExpectedDigest(ck: Checks, expected: seq<Expectation>): seq<Byte> {
    ck.sha(Joined(SortOn(IndexOf, expected)))
  }

  predicate OneBank(ps: seq<Pcr>) { forall p :: p in ps ==> p.alg == SHA256 }

  predicate QuoteMatches(ck: Checks, expected: seq<Expectation>, digest: seq<Byte>, selected: seq<Pcr>) {
    OneBank(selected) && Canonical(Each(NumberOf, selected)) == Canonical(Each(IndexOf, expected)) && digest == ExpectedDigest(ck, expected)
  }

  function CheckCertify(ck: Checks, en: Enrolment, named: seq<Byte>): Option<Failure> {
    match Signed(ck, en.ak, en.certify)
    case None => Some(BadAttestation)
    case Some(Certify(name)) => if name == NameOf(ck, named) then None else Some(Mismatch)
    case Some(Quote(_, _)) => Some(Mismatch)
  }

  function CheckQuote(ck: Checks, en: Enrolment): Option<Failure> {
    match Signed(ck, en.ak, en.quote)
    case None => Some(BadAttestation)
    case Some(Certify(_)) => Some(Mismatch)
    case Some(Quote(digest, banks)) =>
      if QuoteMatches(ck, en.expected, digest, Selected(banks)) && en.expected != [] then None else Some(Mismatch)
  }

  /** `verify_attestation`: why it fails, if it does. */
  function Verdict(ck: Checks, e: Entry, en: Enrolment): Option<Failure> {
    if !IsAk(ck, en.ak) then Some(BadKey)
    else
      match Named(ck, e, en.identityPub)
      case Err(why) => Some(why)
      case Ok(named) => if CheckCertify(ck, en, named).Some? then CheckCertify(ck, en, named) else CheckQuote(ck, en)
  }

  method ReadSigned(ck: Checks, ak: seq<Byte>, blob: seq<Byte>) returns (a: Option<(Attested, seq<Pcr>)>)
    ensures a == Surfaced(Signed(ck, ak, blob))
  {
    if |blob| < 64 {
      return None;
    }
    var n := |blob| - 64;
    if !AkSigned(ck, ak, blob[..n], blob[n..]) {
      return None;
    }
    a := ReadAttest(blob[..n]);
  }

  method JoinValues(xs: seq<Expectation>) returns (b: seq<Byte>)
    ensures b == Joined(xs)
  {
    b := [];
    for i := 0 to |xs|
      invariant b == Joined(xs[..i])
    {
      assert xs[..i + 1][..i] == xs[..i];
      b := b + xs[i].value;
    }
    assert xs[..|xs|] == xs;
  }

  method MatchQuote(ck: Checks, expected: seq<Expectation>, digest: seq<Byte>, selected: seq<Pcr>) returns (ok: bool)
    ensures ok == QuoteMatches(ck, expected, digest, selected)
  {
    var numbers: seq<nat> := [];
    for i := 0 to |selected|
      invariant numbers == Each(NumberOf, selected)[..i]
      invariant forall j :: 0 <= j < i ==> selected[j].alg == SHA256
    {
      if selected[i].alg != SHA256 {
        assert selected[i] in selected;
        return false;
      }
      numbers := numbers + [selected[i].index];
    }
    assert numbers == Each(NumberOf, selected);
    if Canonical(numbers) != Canonical(Each(IndexOf, expected)) {
      return false;
    }
    var joined := JoinValues(SortOn(IndexOf, expected));
    ok := digest == ck.sha(joined);
  }

  method VerifyCertify(ck: Checks, en: Enrolment, named: seq<Byte>) returns (why: Option<Failure>)
    ensures why == CheckCertify(ck, en, named)
  {
    var certify := ReadSigned(ck, en.ak, en.certify);
    if certify.None? {
      return Some(BadAttestation);
    }
    if certify.value.0.Quote? || certify.value.0.name != NameOf(ck, named) {
      return Some(Mismatch);
    }
    return None;
  }

  method VerifyQuote(ck: Checks, en: Enrolment) returns (why: Option<Failure>)
    ensures why == CheckQuote(ck, en)
  {
    var quote := ReadSigned(ck, en.ak, en.quote);
    if quote.None? {
      return Some(BadAttestation);
    }
    if quote.value.0.Certify? {
      return Some(Mismatch);
    }
    var ok := MatchQuote(ck, en.expected, quote.value.0.digest, quote.value.1);
    return if ok && en.expected != [] then None else Some(Mismatch);
  }

  method Verify(ck: Checks, e: Entry, en: Enrolment) returns (why: Option<Failure>)
    ensures why == Verdict(ck, e, en)
  {
    if !IsAk(ck, en.ak) {
      return Some(BadKey);
    }
    var named := Named(ck, e, en.identityPub);
    if named.Err? {
      return Some(named.error);
    }
    why := VerifyCertify(ck, en, named.value);
    if why.None? {
      why := VerifyQuote(ck, en);
    }
  }

  // ------------------------------------------------- what acceptance means

  predicate Expects(expected: seq<Expectation>, n: nat) {
    exists j :: 0 <= j < |expected| && expected[j].index == n
  }

  /** The attestation key signed a selection of exactly the expected registers, all of the SHA-256 bank. */
  ghost predicate SignedExactly(banks: seq<Bank>, expected: seq<Expectation>) {
    forall p :: Selects(banks, p) <==> p.alg == SHA256 && Expects(expected, p.index)
  }

  lemma QuoteMatchesMeans(banks: seq<Bank>, expected: seq<Expectation>)
    ensures OneBank(Selected(banks)) && Canonical(Each(NumberOf, Selected(banks))) == Canonical(Each(IndexOf, expected))
      <==> SignedExactly(banks, expected)
  {
    var ps := Selected(banks);
    var ns, es := Each(NumberOf, ps), Each(IndexOf, expected);
    forall p ensures p in ps <==> Selects(banks, p) {
      SelectedMeans(banks, p);
    }
    forall n: nat ensures n in es <==> Expects(expected, n) {
      if Expects(expected, n) {
        var j :| 0 <= j < |expected| && expected[j].index == n;
        assert es[j] == n;
      }
    }
    CanonicalComparesSets(ns, es);
    NumbersMean(ps);
    if OneBank(ps) && Canonical(ns) == Canonical(es) {
      forall p ensures Selects(banks, p) <==> p.alg == SHA256 && Expects(expected, p.index) {
        if p.alg == SHA256 && p.index in ns {
          assert p == Pcr(SHA256, p.index);
        }
      }
    }
    if SignedExactly(banks, expected) {
      forall n: nat ensures n in ns <==> n in es {
        assert Selects(banks, Pcr(SHA256, n)) <==> Expects(expected, n);
      }
    }
  }

  lemma NumbersMean(ps: seq<Pcr>)
    ensures OneBank(ps) ==> forall n :: n in Each(NumberOf, ps) <==> Pcr(SHA256, n) in ps
  {
    var ns := Each(NumberOf, ps);
    if OneBank(ps) {
      forall n: nat ensures n in ns <==> Pcr(SHA256, n) in ps {
        if n in ns {
          var j :| 0 <= j < |ns| && ns[j] == n;
          assert ps[j] in ps && ps[j] == Pcr(SHA256, n);
        }
        if Pcr(SHA256, n) in ps {
          var j :| 0 <= j < |ps| && ps[j] == Pcr(SHA256, n);
          assert ns[j] == n;
        }
      }
    }
  }

  ghost predicate CertifyHolds(ck: Checks, e: Entry, en: Enrolment) {
    && Named(ck, e, en.identityPub).Ok?
    && Signed(ck, en.ak, en.certify) == Some(Certify(NameOf(ck, Named(ck, e, en.identityPub).value)))
  }

  ghost predicate QuoteHolds(ck: Checks, en: Enrolment) {
    exists banks :: Signed(ck, en.ak, en.quote) == Some(Quote(ExpectedDigest(ck, en.expected), banks)) && SignedExactly(banks, en.expected)
  }

  lemma QuoteMeans(ck: Checks, en: Enrolment)
    ensures CheckQuote(ck, en) == None <==> QuoteHolds(ck, en) && en.expected != []
  {
    match Signed(ck, en.ak, en.quote) {
      case Some(Quote(digest, banks)) => QuoteMatchesMeans(banks, en.expected);
      case _ =>
    }
  }

  /** An attestation is accepted exactly when one attestation key signed a certify naming the enrolled key and a
      quote whose selection is the expected registers, no more and no fewer, over their expected values. */
  lemma AcceptedMeans(ck: Checks, e: Entry, en: Enrolment)
    ensures Verdict(ck, e, en) == None
      <==> IsAk(ck, en.ak) && CertifyHolds(ck, e, en) && QuoteHolds(ck, en) && en.expected != []
  {
    QuoteMeans(ck, en);
  }

  // ------------------------------------------------- one certify, one key

  lemma AreaTooLong(tp: seq<Byte>)
    requires ParsePublic(tp).Some? && ParsePublic(tp).value.key.Ed25519?
    ensures |tp| > 32
  {
    AreaLength(tp);
  }

  lemma AreaLength(tp: seq<Byte>)
    requires ReadArea(tp).Got?
    ensures |tp| >= |ReadArea(tp).value.x| + |ReadArea(tp).value.y|
  {
  }

  /** The bytes named decide the key, once it is known which of the two forms they are. */
  lemma NamedDecides(ck: Checks, e: Entry, p: Option<seq<Byte>>, f: Entry, q: Option<seq<Byte>>, x: seq<Byte>)
    requires Named(ck, e, p) == Ok(x) && Named(ck, f, q) == Ok(x)
    ensures e == f <==> (p.Some? <==> q.Some?)
  {
    if p.Some? && q.None? && e.algo == ED25519 {
      AreaTooLong(x);
    }
    if q.Some? && p.None? && f.algo == ED25519 {
      AreaTooLong(x);
    }
  }

  lemma AcceptedNames(ck: Checks, e: Entry, en: Enrolment)
    requires Verdict(ck, e, en) == None
    ensures |en.certify| >= 64 && Named(ck, e, en.identityPub).Ok?
    ensures ParseAttest(en.certify[..|en.certify| - 64]) == Some(Certify(NameOf(ck, Named(ck, e, en.identityPub).value)))
  {
  }

  /** Two accepted enrolments that rest on the same certify enrol the same key, exactly when both carry the public
      area or neither does: the two naming forms hash different kinds of bytes under one prefix. */
  lemma CertifyBindsOneKey(ck: Checks, e: Entry, en: Enrolment, f: Entry, fn: Enrolment)
    requires Verdict(ck, e, en) == None && Verdict(ck, f, fn) == None && en.certify == fn.certify
    requires Named(ck, e, en.identityPub).Ok? && Named(ck, f, fn.identityPub).Ok?
    requires ck.sha(Named(ck, e, en.identityPub).value) == ck.sha(Named(ck, f, fn.identityPub).value)
      ==> Named(ck, e, en.identityPub).value == Named(ck, f, fn.identityPub).value
    ensures e == f <==> (en.identityPub.Some? <==> fn.identityPub.Some?)
  {
    AcceptedNames(ck, e, en);
    AcceptedNames(ck, f, fn);
    var a, b := Named(ck, e, en.identityPub).value, Named(ck, f, fn.identityPub).value;
    assert a == b by {
      assert NameOf(ck, a)[2..] == ck.sha(a) && NameOf(ck, b)[2..] == ck.sha(b);
    }
    NamedDecides(ck, e, en.identityPub, f, fn.identityPub, a);
  }

  /** A P-256 public area with four-byte coordinates. */
  function ShortArea(x: seq<Byte>, y: seq<Byte>): Template {
    Template(0, [], SHA256, Area(SHA256, ECDSA, NIST_P256, x, y))
  }

  lemma ShortAreaReads(x: seq<Byte>, y: seq<Byte>)
    requires |x| == 4 && |y| == 4
    ensures ParsePublic(EncPublic(ShortArea(x, y))) == Some(Public(SHA256, EcdsaP256([4] + Padded(x) + Padded(y))))
  {
    PublicReads(ShortArea(x, y), []);
    assert EncPublic(ShortArea(x, y)) + [] == EncPublic(ShortArea(x, y));
  }

  lemma ShortAreaLength(x: seq<Byte>, y: seq<Byte>)
    requires |x| == 4 && |y| == 4
    ensures |EncPublic(ShortArea(x, y))| == 32
  {
  }

  lemma ShortAreaNames(ck: Checks, x: seq<Byte>, y: seq<Byte>)
    requires |x| == 4 && |y| == 4 && ck.edKey(EncPublic(ShortArea(x, y)))
    ensures var tp := EncPublic(ShortArea(x, y));
      && Named(ck, Entry(ED25519, tp), None) == Ok(tp)
      && Named(ck, Entry(ECDSA_P256, [4] + Padded(x) + Padded(y)), Some(tp)) == Ok(tp)
  {
    ShortAreaReads(x, y);
    ShortAreaLength(x, y);
  }

  /** Twenty-five zero bytes of clock and firmware version. */
  function Clock(): seq<Byte> { seq(25, _ => 0) }

  /** A statement certifying a name. */
  function Certifying(ck: Checks, named: seq<Byte>): seq<Byte> {
    EncHeader(CERTIFY, [], [], Clock()) + (EncBlob(NameOf(ck, named)) + (EncBlob([]) + []))
  }

  /** A statement quoting register 0 of the SHA-256 bank with an expected value. */
  function Quoting(ck: Checks, value: seq<Byte>): seq<Byte> {
    EncHeader(QUOTE, [], [], Clock()) + QuoteBody([Bank(SHA256, [1])], ExpectedDigest(ck, [Expectation(0, value)]), [])
  }

  lemma FirstRegister(value: seq<Byte>)
    ensures SignedExactly([Bank(SHA256, [1])], [Expectation(0, value)])
  {
    var banks, expected := [Bank(SHA256, [1])], [Expectation(0, value)];
    forall p ensures Selects(banks, p) <==> p.alg == SHA256 && Expects(expected, p.index) {
      OneBit(p.index % 8);
      assert Selects(banks, p) <==> BankSelects(banks[0], p);
      assert Expects(expected, p.index) <==> expected[0].index == p.index;
    }
  }

  lemma {:induction false} ZeroBits(i: nat)
    ensures !Bit(0, i)
  {
    if i > 0 {
      ZeroBits(i - 1);
    }
  }

  lemma OneBit(i: nat)
    ensures Bit(1, i) <==> i == 0
  {
    if i > 0 {
      ZeroBits(i - 1);
    }
  }

  lemma SignedReads(ck: Checks, ak: seq<Byte>, attest: seq<Byte>, sig: seq<Byte>)
    requires |sig| == 64 && AkSigned(ck, ak, attest, sig)
    ensures Signed(ck, ak, attest + sig) == ParseAttest(attest)
  {
    assert (attest + sig)[..|attest|] == attest && (attest + sig)[|attest|..] == sig;
  }

  /** The two forms do overlap. A 32-byte public area that is also an Ed25519 key, one certify naming it and one quote:
      both the key the area holds and the key the area is are accepted. */
  lemma FormsOverlap(ck: Checks, ak: seq<Byte>, x: seq<Byte>, y: seq<Byte>, value: seq<Byte>, certified: seq<Byte>, quoted: seq<Byte>)
    requires |x| == 4 && |y| == 4 && ck.edKey(EncPublic(ShortArea(x, y))) && IsAk(ck, ak)
    requires |ck.sha(EncPublic(ShortArea(x, y)))| == 32 && |ExpectedDigest(ck, [Expectation(0, value)])| == 32
    requires |certified| == 64 && AkSigned(ck, ak, Certifying(ck, EncPublic(ShortArea(x, y))), certified)
    requires |quoted| == 64 && AkSigned(ck, ak, Quoting(ck, value), quoted)
    ensures var tp := EncPublic(ShortArea(x, y));
      var e, f := Entry(ED25519, tp), Entry(ECDSA_P256, [4] + Padded(x) + Padded(y));
      var en := Enrolment(ak, Certifying(ck, tp) + certified, Quoting(ck, value) + quoted, [Expectation(0, value)], None);
      e != f && Verdict(ck, e, en) == None && Verdict(ck, f, en.(identityPub := Some(tp))) == None
  {
    var tp := EncPublic(ShortArea(x, y));
    var en := Enrolment(ak, Certifying(ck, tp) + certified, Quoting(ck, value) + quoted, [Expectation(0, value)], None);
    ShortAreaNames(ck, x, y);
    assert CheckCertify(ck, en, tp) == None by {
      SignedReads(ck, ak, Certifying(ck, tp), certified);
      CertifyReads([], [], Clock(), NameOf(ck, tp), [], []);
    }
    assert CheckQuote(ck, en) == None by {
      OverlapQuote(ck, ak, value, quoted);
      QuoteMeans(ck, en);
    }
    BothAccepted(ck, en, tp, Entry(ED25519, tp), Entry(ECDSA_P256, [4] + Padded(x) + Padded(y)));
  }

  lemma OverlapQuote(ck: Checks, ak: seq<Byte>, value: seq<Byte>, quoted: seq<Byte>)
    requires |ExpectedDigest(ck, [Expectation(0, value)])| == 32
    requires |quoted| == 64 && AkSigned(ck, ak, Quoting(ck, value), quoted)
    ensures Signed(ck, ak, Quoting(ck, value) + quoted)
      == Some(Quote(ExpectedDigest(ck, [Expectation(0, value)]), [Bank(SHA256, [1])]))
    ensures SignedExactly([Bank(SHA256, [1])], [Expectation(0, value)])
  {
    SignedReads(ck, ak, Quoting(ck, value), quoted);
    QuoteReads([], [], Clock(), [Bank(SHA256, [1])], ExpectedDigest(ck, [Expectation(0, value)]), []);
    FirstRegister(value);
  }

  lemma BothAccepted(ck: Checks, en: Enrolment, tp: seq<Byte>, e: Entry, f: Entry)
    requires IsAk(ck, en.ak) && en.identityPub == None && CheckCertify(ck, en, tp) == None && CheckQuote(ck, en) == None
    requires Named(ck, e, None) == Ok(tp) && Named(ck, f, Some(tp)) == Ok(tp)
    ensures Verdict(ck, e, en) == None && Verdict(ck, f, en.(identityPub := Some(tp))) == None
  {
  }
}
