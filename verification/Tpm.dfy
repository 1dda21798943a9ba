/** `attestation.rs`: the bounds-checked reader of TPM structures. Hex fields are
    held decoded.

    Every read either takes what it needs from the bytes that are left or fails,
    and what it takes does not depend on the bytes after it. From that follow the
    results on prefixes and extensions, and each structure's reader is proved to
    invert the way that structure is marshalled. */
module Tpm {
  import opened Bytes

  const ECC: nat := 0x0023
  const NULL_ALG: nat := 0x0010
  const SHA256: nat := 0x000B
  const EDDSA: nat := 0x0060
  const ECDSA: nat := 0x0018
  const CURVE_25519: nat := 0x0040
  const NIST_P256: nat := 0x0003
  const TPM_GENERATED: nat := 0xFF54_4347
  const CERTIFY: nat := 0x8017
  const QUOTE: nat := 0x8018

  // ------------------------------------------------- reading forward

  /** A value read at the head of a buffer, and what is left. */
  datatype Read<+T> = Short | Got(value: T, rest: seq<Byte>)

  function Take(b: seq<Byte>, n: nat): Read<seq<Byte>> {
    if |b| < n then Short else Got(b[..n], b[n..])
  }

  /** An n-byte number, most significant byte first. */
  function Number(b: seq<Byte>, n: nat): Read<nat> {
    if |b| < n then Short else Got(BigEndian(b[..n]), b[n..])
  }

  /** `TPM2B_*`: a two-byte length, then that many bytes. */
  function Blob(b: seq<Byte>): Read<seq<Byte>> {
    match Number(b, 2) case Short => Short case Got(n, rest) => Take(rest, n)
  }

  class Reader {
    const b: seq<Byte>
    var pos: nat

    ghost predicate Valid() reads this { pos <= |b| }

    ghost function Rest(): seq<Byte> reads this requires Valid() { b[pos..] }

    constructor (b: seq<Byte>)
      ensures Valid() && this.b == b && pos == 0 && Rest() == b
    {
      this.b := b;
      pos := 0;
    }

    method TakeN(n: nat) returns (r: Option<seq<Byte>>)
      requires Valid()
      modifies this
      ensures Valid()
      ensures match Take(old(Rest()), n)
              case Short => r == None && pos == old(pos)
              case Got(v, rest) => r == Some(v) && Rest() == rest
    {
      if pos + n > |b| {
        return None;
      }
      r := Some(b[pos..pos + n]);
      assert old(Rest())[..n] == b[pos..pos + n] && old(Rest())[n..] == b[pos + n..];
      pos := pos + n;
    }

    /** `u8`, `u16` and `u32`. */
    method TakeNumber(n: nat) returns (r: Option<nat>)
      requires Valid()
      modifies this
      ensures Valid()
      ensures match Number(old(Rest()), n)
              case Short => r == None && pos == old(pos)
              case Got(v, rest) => r == Some(v) && Rest() == rest
    {
      var t := TakeN(n);
      if t.None? {
        return None;
      }
      return Some(BigEndian(t.value));
    }

    method TakeBlob() returns (r: Option<seq<Byte>>)
      requires Valid()
      modifies this
      ensures Valid()
      ensures match Blob(old(Rest()))
              case Short => r == None
              case Got(v, rest) => r == Some(v) && Rest() == rest
    {
      var n := TakeNumber(2);
      if n.None? {
        return None;
      }
      r := TakeN(n.value);
    }
  }

  // What a reader got does not change when more bytes follow.

  function Longer<T>(r: Read<T>, t: seq<Byte>): Read<T> {
    match r case Short => Short case Got(v, rest) => Got(v, rest + t)
  }

  lemma TakeMore(b: seq<Byte>, n: nat, t: seq<Byte>)
    requires Take(b, n).Got?
    ensures Take(b + t, n) == Longer(Take(b, n), t)
  {
    assert (b + t)[..n] == b[..n] && (b + t)[n..] == b[n..] + t;
  }

  lemma NumberMore(b: seq<Byte>, n: nat, t: seq<Byte>)
    requires Number(b, n).Got?
    ensures Number(b + t, n) == Longer(Number(b, n), t)
  {
    TakeMore(b, n, t);
  }

  lemma BlobMore(b: seq<Byte>, t: seq<Byte>)
    requires Blob(b).Got?
    ensures Blob(b + t) == Longer(Blob(b), t)
  {
    NumberMore(b, 2, t);
    TakeMore(Number(b, 2).rest, Number(b, 2).value, t);
  }

  // ------------------------------------------------- the public area of a key

  /** The fields of a TPMT_PUBLIC the reader keeps. */
  datatype Area = Area(nameAlg: nat, scheme: nat, curve: nat, x: seq<Byte>, y: seq<Byte>)
  datatype TpmKey = Ed25519(raw: seq<Byte>) | EcdsaP256(point: seq<Byte>)
  datatype Public = Public(nameAlg: nat, key: TpmKey)

  /** Object type, name algorithm, attributes, policy. */
  function ReadTop(b: seq<Byte>): Read<nat> {
    match Number(b, 2)
    case Short => Short
    case Got(kind, b1) =>
      if kind != ECC then Short
      else
        match Number(b1, 2)
        case Short => Short
        case Got(nameAlg, b2) =>
          match Number(b2, 4)
          case Short => Short
          case Got(_, b3) => match Blob(b3) case Short => Short case Got(_, b4) => Got(nameAlg, b4)
  }

  /** The hash of a scheme is there unless the scheme is null. */
  function SkipHash(scheme: nat, b: seq<Byte>): Read<()> {
    if scheme == NULL_ALG then Got((), b) else match Number(b, 2) case Short => Short case Got(_, rest) => Got((), rest)
  }

  /** Symmetric algorithm, scheme and its hash, curve, key derivation. */
  function ReadParams(b: seq<Byte>): Read<(nat, nat)> {
    match Number(b, 2)
    case Short => Short
    case Got(symmetric, b1) =>
      if symmetric != NULL_ALG then Short
      else
        match Number(b1, 2)
        case Short => Short
        case Got(scheme, b2) =>
          match SkipHash(scheme, b2)
          case Short => Short
          case Got(_, b3) =>
            match Number(b3, 2)
            case Short => Short
            case Got(curve, b4) =>
              match Number(b4, 2)
              case Short => Short
              case Got(kdf, b5) => if kdf != NULL_ALG then Short else Got((scheme, curve), b5)
  }

  function ReadArea(b: seq<Byte>): Read<Area> {
    match ReadTop(b)
    case Short => Short
    case Got(nameAlg, b1) =>
      match ReadParams(b1)
      case Short => Short
      case Got(p, b2) =>
        match Blob(b2)
        case Short => Short
        case Got(x, b3) =>
          match Blob(b3) case Short => Short case Got(y, b4) => Got(Area(nameAlg, p.0, p.1, x, y), b4)
  }

  /** A coordinate padded on the left to 32 bytes. */
  function Padded(x: seq<Byte>): (p: seq<Byte>)
    requires |x| <= 32
    ensures |p| == 32 && BigEndian(p) == BigEndian(x)
  {
    ZeroesRead(32 - |x|, x);
    seq(32 - |x|, _ => 0) + x
  }

  lemma {:induction false} ZeroesRead(k: nat, x: seq<Byte>)
    ensures BigEndian(seq(k, _ => 0) + x) == BigEndian(x)
  {
    var z: seq<Byte> := seq(k, _ => 0);
    if x != [] {
      ZeroesRead(k, x[..|x| - 1]);
      assert (z + x)[..k + |x| - 1] == z + x[..|x| - 1];
    } else if k > 0 {
      ZeroesRead(k - 1, []);
      assert (z + x)[..k - 1] == seq(k - 1, _ => 0) + [];
    }
  }

  function KeyOf(a: Area): Option<TpmKey> {
    if a.scheme == EDDSA && a.curve == CURVE_25519 then
      if |a.x| == 32 then Some(Ed25519(a.x)) else None
    else if a.scheme == ECDSA && a.curve == NIST_P256 then
      if |a.x| > 32 || |a.y| > 32 then None else Some(EcdsaP256([4] + Padded(a.x) + Padded(a.y)))
    else None
  }

  /** `parse_tpmt_public`. */
  function ParsePublic(b: seq<Byte>): Option<Public> {
    match ReadArea(b)
    case Short => None
    case Got(a, rest) =>
      if rest != [] then None
      else match KeyOf(a) case None => None case Some(k) => Some(Public(a.nameAlg, k))
  }

  method TakeParams(r: Reader) returns (p: Option<(nat, nat)>)
    requires r.Valid()
    modifies r
    ensures r.Valid()
    ensures match ReadParams(old(r.Rest()))
            case Short => p == None
            case Got(v, rest) => p == Some(v) && r.Rest() == rest
  {
    var symmetric := r.TakeNumber(2);
    if symmetric != Some(NULL_ALG) {
      return None;
    }
    var scheme := r.TakeNumber(2);
    if scheme.None? {
      return None;
    }
    if scheme.value != NULL_ALG {
      var hash := r.TakeNumber(2);
      if hash.None? {
        return None;
      }
    }
    var curve := r.TakeNumber(2);
    if curve.None? {
      return None;
    }
    var kdf := r.TakeNumber(2);
    if kdf != Some(NULL_ALG) {
      return None;
    }
    return Some((scheme.value, curve.value));
  }

  method TakeTop(r: Reader) returns (p: Option<nat>)
    requires r.Valid()
    modifies r
    ensures r.Valid()
    ensures match ReadTop(old(r.Rest()))
            case Short => p == None
            case Got(v, rest) => p == Some(v) && r.Rest() == rest
  {
    var kind := r.TakeNumber(2);
    if kind != Some(ECC) {
      return None;
    }
    p := r.TakeNumber(2);
    if p.None? {
      return None;
    }
    var attributes := r.TakeNumber(4);
    if attributes.None? {
      return None;
    }
    var policy := r.TakeBlob();
    if policy.None? {
      return None;
    }
  }

  method TakeArea(r: Reader) returns (a: Option<Area>)
    requires r.Valid()
    modifies r
    ensures r.Valid()
    ensures match ReadArea(old(r.Rest()))
            case Short => a == None
            case Got(v, rest) => a == Some(v) && r.Rest() == rest
  {
    var nameAlg := TakeTop(r);
    if nameAlg.None? {
      return None;
    }
    var params := TakeParams(r);
    if params.None? {
      return None;
    }
    var x := r.TakeBlob();
    if x.None? {
      return None;
    }
    var y := r.TakeBlob();
    if y.None? {
      return None;
    }
    return Some(Area(nameAlg.value, params.value.0, params.value.1, x.value, y.value));
  }

  method ReadPublic(b: seq<Byte>) returns (p: Option<Public>)
    ensures p == ParsePublic(b)
  {
    var r := new Reader(b);
    var a := TakeArea(r);
    if a.None? || r.pos < |b| {
      return None;
    }
    var key := KeyOf(a.value);
    if key.None? {
      return None;
    }
    return Some(Public(a.value.nameAlg, key.value));
  }

  lemma TopMore(b: seq<Byte>, t: seq<Byte>)
    requires ReadTop(b).Got?
    ensures ReadTop(b + t) == Longer(ReadTop(b), t)
  {
    NumberMore(b, 2, t);
    var b1 := Number(b, 2).rest;
    NumberMore(b1, 2, t);
    var b2 := Number(b1, 2).rest;
    NumberMore(b2, 4, t);
    BlobMore(Number(b2, 4).rest, t);
  }

  lemma ParamsMore(b: seq<Byte>, t: seq<Byte>)
    requires ReadParams(b).Got?
    ensures ReadParams(b + t) == Longer(ReadParams(b), t)
  {
    NumberMore(b, 2, t);
    var b1 := Number(b, 2).rest;
    NumberMore(b1, 2, t);
    var scheme, b2 := Number(b1, 2).value, Number(b1, 2).rest;
    if scheme != NULL_ALG {
      NumberMore(b2, 2, t);
    }
    var b3 := SkipHash(scheme, b2).rest;
    NumberMore(b3, 2, t);
    NumberMore(Number(b3, 2).rest, 2, t);
  }

  lemma AreaMore(b: seq<Byte>, t: seq<Byte>)
    requires ReadArea(b).Got?
    ensures ReadArea(b + t) == Longer(ReadArea(b), t)
  {
    TopMore(b, t);
    ParamsMore(ReadTop(b).rest, t);
    var b2 := ReadParams(ReadTop(b).rest).rest;
    BlobMore(b2, t);
    BlobMore(Blob(b2).rest, t);
  }

  /** No proper prefix and no proper extension of an accepted public area is accepted. */
  lemma AcceptedAreasPrefixFree(b: seq<Byte>, t: seq<Byte>)
    requires ParsePublic(b).Some? && ParsePublic(b + t).Some?
    ensures t == []
  {
    AreaMore(b, t);
  }

  // What a marshalled structure looks like.

  function Enc16(n: nat): seq<Byte> { [n / 256 % 256, n % 256] }

  function Enc32(n: nat): seq<Byte> { Enc16(n / 0x1_0000) + Enc16(n % 0x1_0000) }

  function EncBlob(x: seq<Byte>): seq<Byte> { Enc16(|x|) + x }

  lemma SnocReads(a: seq<Byte>, x: Byte)
    ensures BigEndian(a + [x]) == BigEndian(a) * 256 + x as int
  {
    assert (a + [x])[..|a|] == a;
  }

  lemma Read8(n: Byte, rest: seq<Byte>)
    ensures Number([n] + rest, 1) == Got(n as int, rest)
  {
    SnocReads([], n);
    assert [] + [n] == [n];
    assert ([n] + rest)[..1] == [n] && ([n] + rest)[1..] == rest;
  }

  lemma Pair(n: nat, a: seq<Byte>)
    requires n < 0x1_0000
    ensures BigEndian(a + Enc16(n)) == BigEndian(a) * 0x1_0000 + n
  {
    var hi, lo: Byte := n / 256, n % 256;
    SnocReads(a, hi);
    SnocReads(a + [hi], lo);
    assert (a + [hi]) + [lo] == a + Enc16(n);
  }

  lemma Read16(n: nat, rest: seq<Byte>)
    requires n < 0x1_0000
    ensures Number(Enc16(n) + rest, 2) == Got(n, rest)
  {
    Pair(n, []);
    assert [] + Enc16(n) == Enc16(n);
    assert (Enc16(n) + rest)[..2] == Enc16(n) && (Enc16(n) + rest)[2..] == rest;
  }

  lemma Read32(n: nat, rest: seq<Byte>)
    requires n < 0x1_0000_0000
    ensures Number(Enc32(n) + rest, 4) == Got(n, rest)
  {
    Pair(n / 0x1_0000, []);
    assert [] + Enc16(n / 0x1_0000) == Enc16(n / 0x1_0000);
    Pair(n % 0x1_0000, Enc16(n / 0x1_0000));
    assert (Enc32(n) + rest)[..4] == Enc32(n) && (Enc32(n) + rest)[4..] == rest;
  }

  lemma ReadBlob(x: seq<Byte>, rest: seq<Byte>)
    requires |x| < 0x1_0000
    ensures Blob(EncBlob(x) + rest) == Got(x, rest)
  {
    Assoc(Enc16(|x|), x, rest);
    Read16(|x|, x + rest);
    assert (x + rest)[..|x|] == x && (x + rest)[|x|..] == rest;
  }

  datatype Template = Template(attributes: nat, policy: seq<Byte>, hash: nat, area: Area) {
    predicate Fits() {
      && attributes < 0x1_0000_0000 && |policy| < 0x1_0000 && hash < 0x1_0000
      && area.nameAlg < 0x1_0000 && area.scheme < 0x1_0000 && area.curve < 0x1_0000
      && |area.x| < 0x1_0000 && |area.y| < 0x1_0000
    }
  }

  function EncTop(t: Template): seq<Byte> {
    Enc16(ECC) + (Enc16(t.area.nameAlg) + (Enc32(t.attributes) + EncBlob(t.policy)))
  }

  function EncScheme(t: Template): seq<Byte> {
    Enc16(t.area.scheme) + if t.area.scheme == NULL_ALG then [] else Enc16(t.hash)
  }

  function EncParams(t: Template): seq<Byte> {
    Enc16(NULL_ALG) + (EncScheme(t) + (Enc16(t.area.curve) + Enc16(NULL_ALG)))
  }

  function EncPublic(t: Template): seq<Byte> {
    EncTop(t) + (EncParams(t) + (EncBlob(t.area.x) + EncBlob(t.area.y)))
  }

  lemma TopReads(t: Template, rest: seq<Byte>)
    requires t.Fits()
    ensures ReadTop(EncTop(t) + rest) == Got(t.area.nameAlg, rest)
  {
    var s2 := EncBlob(t.policy) + rest;
    var s1 := Enc32(t.attributes) + s2;
    assert EncTop(t) + rest == Enc16(ECC) + (Enc16(t.area.nameAlg) + s1);
    Read16(ECC, Enc16(t.area.nameAlg) + s1);
    Read16(t.area.nameAlg, s1);
    Read32(t.attributes, s2);
    ReadBlob(t.policy, rest);
  }

  lemma ParamsRead(t: Template, rest: seq<Byte>)
    requires t.Fits()
    ensures ReadParams(EncParams(t) + rest) == Got((t.area.scheme, t.area.curve), rest)
  {
    var s2 := Enc16(NULL_ALG) + rest;
    var s1 := Enc16(t.area.curve) + s2;
    var hash := if t.area.scheme == NULL_ALG then [] else Enc16(t.hash);
    assert EncParams(t) + rest == Enc16(NULL_ALG) + (Enc16(t.area.scheme) + (hash + s1));
    Read16(NULL_ALG, Enc16(t.area.scheme) + (hash + s1));
    Read16(t.area.scheme, hash + s1);
    assert SkipHash(t.area.scheme, hash + s1) == Got((), s1) by {
      if t.area.scheme == NULL_ALG {
        assert hash + s1 == s1;
      } else {
        Read16(t.hash, s1);
      }
    }
    Read16(t.area.curve, s2);
    Read16(NULL_ALG, rest);
  }

  /** Reading inverts marshalling, and leaves what follows. */
  lemma AreaReads(t: Template, rest: seq<Byte>)
    requires t.Fits()
    ensures ReadArea(EncPublic(t) + rest) == Got(t.area, rest)
  {
    var s2 := EncBlob(t.area.y) + rest;
    var s1 := EncBlob(t.area.x) + s2;
    assert EncPublic(t) + rest == EncTop(t) + (EncParams(t) + s1);
    TopReads(t, EncParams(t) + s1);
    ParamsRead(t, s1);
    ReadBlob(t.area.x, s2);
    ReadBlob(t.area.y, rest);
  }

  /** A marshalled public area is accepted exactly when its scheme, curve and point are one of the two key
      shapes, and yields that key; with anything after it, it is refused. */
  lemma PublicReads(t: Template, rest: seq<Byte>)
    requires t.Fits()
    ensures ParsePublic(EncPublic(t) + rest)
      == if rest == [] && KeyOf(t.area).Some? then Some(Public(t.area.nameAlg, KeyOf(t.area).value)) else None
  {
    AreaReads(t, rest);
  }

  // ------------------------------------------------- attestation statements

  /** One bank of a PCR selection: which registers of it, as a bitmap. */
  datatype Bank = Bank(alg: nat, bitmap: seq<Byte>)
  datatype Pcr = Pcr(alg: nat, index: nat)
  datatype Attested = Quote(digest: seq<Byte>, banks: seq<Bank>) | Certify(name: seq<Byte>)

  /** Bit i of a byte, the lowest first. */
  predicate Bit(b: nat, i: nat) {
    if i == 0 then b % 2 == 1 else Bit(b / 2, i - 1)
  }

  const BITS: nat := 8

  /** The registers of byte k of a bitmap, below bit i. */
  function ByteBits(alg: nat, b: Byte, k: nat, i: nat): seq<Pcr> {
    if i == 0 then [] else ByteBits(alg, b, k, i - 1) + if Bit(b, i - 1) then [Pcr(alg, k * 8 + (i - 1))] else []
  }

  /** The registers of the first k bytes of a bitmap. */
  function BankBits(bank: Bank, k: nat): seq<Pcr>
    requires k <= |bank.bitmap|
  {
    if k == 0 then [] else BankBits(bank, k - 1) + ByteBits(bank.alg, bank.bitmap[k - 1], k - 1, BITS)
  }

  function Selected(banks: seq<Bank>): seq<Pcr> {
    if banks == [] then [] else
      var n := |banks| - 1;
      Selected(banks[..n]) + BankBits(banks[n], |banks[n].bitmap|)
  }

  function ReadBank(b: seq<Byte>): Read<Bank> {
    match Number(b, 2)
    case Short => Short
    case Got(alg, b1) =>
      match Number(b1, 1)
      case Short => Short
      case Got(size, b2) => match Take(b2, size) case Short => Short case Got(bitmap, b3) => Got(Bank(alg, bitmap), b3)
  }

  function ReadBanks(b: seq<Byte>, count: nat): Read<seq<Bank>>
    decreases count
  {
    if count == 0 then Got([], b)
    else
      match ReadBank(b)
      case Short => Short
      case Got(bank, rest) =>
        match ReadBanks(rest, count - 1) case Short => Short case Got(banks, end) => Got([bank] + banks, end)
  }

  /** Magic, type, signer, extra data, clock, firmware version: the type is what is kept. */
  function ReadHeader(b: seq<Byte>): Read<nat> {
    match Number(b, 4)
    case Short => Short
    case Got(magic, b1) =>
      if magic != TPM_GENERATED then Short
      else
        match Number(b1, 2)
        case Short => Short
        case Got(st, b2) =>
          match Blob(b2)
          case Short => Short
          case Got(_, b3) =>
            match Blob(b3)
            case Short => Short
            case Got(_, b4) => if |b4| < 25 then Short else Got(st, b4[25..])
  }

  function ReadQuote(b: seq<Byte>): Option<Attested> {
    match Number(b, 4)
    case Short => None
    case Got(count, b1) =>
      match ReadBanks(b1, count)
      case Short => None
      case Got(banks, b2) => match Blob(b2) case Short => None case Got(digest, _) => Some(Quote(digest, banks))
  }

  function ReadCertify(b: seq<Byte>): Option<Attested> {
    match Blob(b)
    case Short => None
    case Got(name, b1) => match Blob(b1) case Short => None case Got(_, _) => Some(Certify(name))
  }

  /** `parse_attest`. */
  function ParseAttest(b: seq<Byte>): Option<Attested> {
    match ReadHeader(b)
    case Short => None
    case Got(st, rest) => if st == CERTIFY then ReadCertify(rest) else if st == QUOTE then ReadQuote(rest) else None
  }

  method TakeBank(r: Reader) returns (o: Option<Bank>)
    requires r.Valid()
    modifies r
    ensures r.Valid()
    ensures match ReadBank(old(r.Rest()))
            case Short => o == None
            case Got(v, rest) => o == Some(v) && r.Rest() == rest
  {
    var alg := r.TakeNumber(2);
    if alg.None? {
      return None;
    }
    var size := r.TakeNumber(1);
    if size.None? {
      return None;
    }
    var bitmap := r.TakeN(size.value);
    if bitmap.None? {
      return None;
    }
    return Some(Bank(alg.value, bitmap.value));
  }

  method CollectByte(alg: nat, b: Byte, k: nat) returns (ps: seq<Pcr>)
    ensures ps == ByteBits(alg, b, k, BITS)
  {
    ps := [];
    for i := 0 to BITS
      invariant ps == ByteBits(alg, b, k, i)
    {
      if Bit(b, i) {
        ps := ps + [Pcr(alg, k * 8 + i)];
      }
    }
  }

  /** The loop over the bytes of one bank. */
  method CollectBits(bank: Bank) returns (ps: seq<Pcr>)
    ensures ps == BankBits(bank, |bank.bitmap|)
  {
    ps := [];
    for k := 0 to |bank.bitmap|
      invariant ps == BankBits(bank, k)
    {
      var byte := CollectByte(bank.alg, bank.bitmap[k], k);
      ps := ps + byte;
    }
  }

  /** The count is any 32-bit number; the loop still stops within the bytes that are left. */
  method TakeSelected(r: Reader, count: nat) returns (o: Option<(seq<Bank>, seq<Pcr>)>)
    requires r.Valid()
    modifies r
    ensures r.Valid()
    ensures match ReadBanks(old(r.Rest()), count)
            case Short => o == None
            case Got(banks, rest) => o == Some((banks, Selected(banks))) && r.Rest() == rest
  {
    var banks: seq<Bank>, ps: seq<Pcr> := [], [];
    OntoNone(ReadBanks(r.Rest(), count));
    ghost var start := r.Rest();
    for i := 0 to count
      invariant r.Valid()
      invariant ps == Selected(banks)
      invariant 3 * i <= |start| - |r.Rest()|
      invariant ReadBanks(start, count) == Onto(banks, ReadBanks(r.Rest(), count - i))
    {
      var bank := TakeBank(r);
      if bank.None? {
        return None;
      }
      var bits := CollectBits(bank.value);
      OntoStep(banks, bank.value, ReadBanks(r.Rest(), count - i - 1));
      assert (banks + [bank.value])[..|banks|] == banks;
      banks, ps := banks + [bank.value], ps + bits;
    }
    assert banks + [] == banks;
    return Some((banks, ps));
  }

  function Onto(banks: seq<Bank>, r: Read<seq<Bank>>): Read<seq<Bank>> {
    match r case Short => Short case Got(more, rest) => Got(banks + more, rest)
  }

  lemma OntoNone(r: Read<seq<Bank>>)
    ensures Onto([], r) == r
  {
    if r.Got? {
      assert [] + r.value == r.value;
    }
  }

  lemma OntoStep(banks: seq<Bank>, bank: Bank, r: Read<seq<Bank>>)
    ensures Onto(banks + [bank], r) == Onto(banks, Onto([bank], r))
  {
    if r.Got? {
      Assoc(banks, [bank], r.value);
    }
  }

  /** A selection that reads takes at least three bytes a bank, whatever count it claims. */
  lemma {:induction false} BanksFit(b: seq<Byte>, count: nat)
    requires ReadBanks(b, count).Got?
    ensures |ReadBanks(b, count).value| == count && 3 * count + |ReadBanks(b, count).rest| <= |b|
    decreases count
  {
    if count > 0 {
      BanksFit(ReadBank(b).rest, count - 1);
    }
  }

  method TakeHeader(r: Reader) returns (st: Option<nat>)
    requires r.Valid()
    modifies r
    ensures r.Valid()
    ensures match ReadHeader(old(r.Rest()))
            case Short => st == None
            case Got(v, rest) => st == Some(v) && r.Rest() == rest
  {
    var magic := r.TakeNumber(4);
    if magic != Some(TPM_GENERATED) {
      return None;
    }
    st := r.TakeNumber(2);
    if st.None? {
      return None;
    }
    var signer := r.TakeBlob();
    if signer.None? {
      return None;
    }
    var extra := r.TakeBlob();
    if extra.None? {
      return None;
    }
    var clock := r.TakeN(17);
    if clock.None? {
      return None;
    }
    var firmware := r.TakeN(8);
    if firmware.None? {
      return None;
    }
  }

  /** The statement, and for a quote the registers its selection names. */
  function Surfaced(a: Option<Attested>): Option<(Attested, seq<Pcr>)> {
    match a
    case None => None
    case Some(Certify(name)) => Some((Certify(name), []))
    case Some(Quote(digest, banks)) => Some((Quote(digest, banks), Selected(banks)))
  }

  method TakeCertify(r: Reader) returns (a: Option<(Attested, seq<Pcr>)>)
    requires r.Valid()
    modifies r
    ensures a == Surfaced(ReadCertify(old(r.Rest())))
  {
    var name := r.TakeBlob();
    if name.None? {
      return None;
    }
    var qualified := r.TakeBlob();
    if qualified.None? {
      return None;
    }
    return Some((Certify(name.value), []));
  }

  method TakeQuote(r: Reader) returns (a: Option<(Attested, seq<Pcr>)>)
    requires r.Valid()
    modifies r
    ensures a == Surfaced(ReadQuote(old(r.Rest())))
  {
    var count := r.TakeNumber(4);
    if count.None? {
      return None;
    }
    var sel := TakeSelected(r, count.value);
    if sel.None? {
      return None;
    }
    var digest := r.TakeBlob();
    if digest.None? {
      return None;
    }
    return Some((Quote(digest.value, sel.value.0), sel.value.1));
  }

  method ReadAttest(b: seq<Byte>) returns (a: Option<(Attested, seq<Pcr>)>)
    ensures a == Surfaced(ParseAttest(b))
  {
    var r := new Reader(b);
    var st := TakeHeader(r);
    if st == Some(CERTIFY) {
      a := TakeCertify(r);
    } else if st == Some(QUOTE) {
      a := TakeQuote(r);
    } else {
      return None;
    }
  }

  // A marshalled quote reads back.

  function EncBank(bank: Bank): seq<Byte> {
    Enc16(bank.alg) + ([|bank.bitmap| % 256] + bank.bitmap)
  }

  function EncBanks(banks: seq<Bank>): seq<Byte> {
    if banks == [] then [] else EncBank(banks[0]) + EncBanks(banks[1..])
  }

  predicate BankFits(bank: Bank) {
    bank.alg < 0x1_0000 && |bank.bitmap| < 256
  }

  lemma BankReads(bank: Bank, rest: seq<Byte>)
    requires BankFits(bank)
    ensures ReadBank(EncBank(bank) + rest) == Got(bank, rest)
  {
    var s := bank.bitmap + rest;
    assert EncBank(bank) + rest == Enc16(bank.alg) + ([|bank.bitmap|] + s);
    Read16(bank.alg, [|bank.bitmap|] + s);
    Read8(|bank.bitmap|, s);
    assert s[..|bank.bitmap|] == bank.bitmap && s[|bank.bitmap|..] == rest;
  }

  lemma {:induction false} BanksRead(banks: seq<Bank>, rest: seq<Byte>)
    requires forall bank :: bank in banks ==> BankFits(bank)
    ensures ReadBanks(EncBanks(banks) + rest, |banks|) == Got(banks, rest)
  {
    if banks == [] {
      assert [] + rest == rest;
    } else {
      Assoc(EncBank(banks[0]), EncBanks(banks[1..]), rest);
      BankReads(banks[0], EncBanks(banks[1..]) + rest);
      BanksRead(banks[1..], rest);
      assert [banks[0]] + banks[1..] == banks;
    }
  }

  /** The fixed part of a statement: signer, extra data, then 25 bytes of clock and firmware version. */
  function EncHeader(st: nat, signer: seq<Byte>, extra: seq<Byte>, clock: seq<Byte>): seq<Byte> {
    Enc32(TPM_GENERATED) + (Enc16(st) + (EncBlob(signer) + (EncBlob(extra) + clock)))
  }

  lemma HeaderReads(st: nat, signer: seq<Byte>, extra: seq<Byte>, clock: seq<Byte>, rest: seq<Byte>)
    requires st < 0x1_0000 && |signer| < 0x1_0000 && |extra| < 0x1_0000 && |clock| == 25
    ensures ReadHeader(EncHeader(st, signer, extra, clock) + rest) == Got(st, rest)
  {
    var s3 := clock + rest;
    var s2 := EncBlob(extra) + s3;
    var s1 := EncBlob(signer) + s2;
    assert EncHeader(st, signer, extra, clock) + rest == Enc32(TPM_GENERATED) + (Enc16(st) + s1);
    Read32(TPM_GENERATED, Enc16(st) + s1);
    Read16(st, s1);
    ReadBlob(signer, s2);
    ReadBlob(extra, s3);
    assert s3[25..] == rest;
  }

  function QuoteBody(banks: seq<Bank>, digest: seq<Byte>, tail: seq<Byte>): seq<Byte> {
    Enc32(|banks|) + (EncBanks(banks) + (EncBlob(digest) + tail))
  }

  lemma QuoteBodyReads(banks: seq<Bank>, digest: seq<Byte>, tail: seq<Byte>)
    requires |digest| < 0x1_0000 && |banks| < 0x1_0000_0000 && forall bank :: bank in banks ==> BankFits(bank)
    ensures ReadQuote(QuoteBody(banks, digest, tail)) == Some(Quote(digest, banks))
  {
    var s2 := EncBlob(digest) + tail;
    Read32(|banks|, EncBanks(banks) + s2);
    BanksRead(banks, s2);
    ReadBlob(digest, tail);
  }

  /** A marshalled quote reads back as its own selection and digest, whatever bytes follow it. */
  lemma QuoteReads(signer: seq<Byte>, extra: seq<Byte>, clock: seq<Byte>, banks: seq<Bank>, digest: seq<Byte>, tail: seq<Byte>)
    requires |signer| < 0x1_0000 && |extra| < 0x1_0000 && |clock| == 25 && |digest| < 0x1_0000
    requires |banks| < 0x1_0000_0000 && forall bank :: bank in banks ==> BankFits(bank)
    ensures ParseAttest(EncHeader(QUOTE, signer, extra, clock) + QuoteBody(banks, digest, tail)) == Some(Quote(digest, banks))
  {
    var body := QuoteBody(banks, digest, tail);
    assert ReadQuote(body) == Some(Quote(digest, banks)) by {
      QuoteBodyReads(banks, digest, tail);
    }
    HeaderReads(QUOTE, signer, extra, clock, body);
  }

  lemma CertifyReads(signer: seq<Byte>, extra: seq<Byte>, clock: seq<Byte>, name: seq<Byte>, qualified: seq<Byte>, tail: seq<Byte>)
    requires |signer| < 0x1_0000 && |extra| < 0x1_0000 && |clock| == 25 && |name| < 0x1_0000 && |qualified| < 0x1_0000
    ensures ParseAttest(EncHeader(CERTIFY, signer, extra, clock) + (EncBlob(name) + (EncBlob(qualified) + tail)))
      == Some(Certify(name))
  {
    var s := EncBlob(qualified) + tail;
    HeaderReads(CERTIFY, signer, extra, clock, EncBlob(name) + s);
    ReadBlob(name, s);
    ReadBlob(qualified, tail);
  }

  lemma {:induction false} ByteBitsMean(alg: nat, b: Byte, k: nat, i: nat, p: Pcr)
    ensures p in ByteBits(alg, b, k, i) <==> p.alg == alg && k * 8 <= p.index < k * 8 + i && Bit(b, p.index - k * 8)
  {
    if i > 0 {
      ByteBitsMean(alg, b, k, i - 1, p);
    }
  }

  predicate BankSelects(bank: Bank, p: Pcr) {
    p.alg == bank.alg && p.index / 8 < |bank.bitmap| && Bit(bank.bitmap[p.index / 8], p.index % 8)
  }

  lemma ByteOf(n: nat, k: nat)
    ensures k * 8 <= n < k * 8 + 8 <==> n / 8 == k
    ensures n % 8 == n - n / 8 * 8
  {
  }

  lemma {:induction false} BankBitsMean(bank: Bank, k: nat, p: Pcr)
    requires k <= |bank.bitmap|
    ensures p in BankBits(bank, k) <==> BankSelects(bank, p) && p.index / 8 < k
  {
    if k > 0 {
      BankBitsMean(bank, k - 1, p);
      var last := ByteBits(bank.alg, bank.bitmap[k - 1], k - 1, BITS);
      assert p in last <==> BankSelects(bank, p) && p.index / 8 == k - 1 by {
        ByteBitsMean(bank.alg, bank.bitmap[k - 1], k - 1, BITS, p);
        ByteOf(p.index, k - 1);
      }
      assert p in BankBits(bank, k) <==> p in BankBits(bank, k - 1) || p in last;
    }
  }

  /** Some bank's bitmap has the register's bit set. */
  predicate Selects(banks: seq<Bank>, p: Pcr) {
    exists k :: 0 <= k < |banks| && BankSelects(banks[k], p)
  }

  lemma SelectsSnoc(banks: seq<Bank>, p: Pcr)
    requires banks != []
    ensures Selects(banks, p) <==> Selects(banks[..|banks| - 1], p) || BankSelects(banks[|banks| - 1], p)
  {
    var n := |banks| - 1;
    if Selects(banks[..n], p) {
      var k :| 0 <= k < n && BankSelects(banks[..n][k], p);
      assert BankSelects(banks[k], p);
    }
    forall k | 0 <= k < n && BankSelects(banks[k], p)
      ensures Selects(banks[..n], p)
    {
      assert banks[k] == banks[..n][k];
    }
  }

  /** The loops collect exactly the registers whose bit is set in some bank's bitmap. */
  lemma {:induction false} SelectedMeans(banks: seq<Bank>, p: Pcr)
    ensures p in Selected(banks) <==> Selects(banks, p)
  {
    if banks != [] {
      var n := |banks| - 1;
      SelectsSnoc(banks, p);
      assert p in BankBits(banks[n], |banks[n].bitmap|) <==> BankSelects(banks[n], p) by {
        BankBitsMean(banks[n], |banks[n].bitmap|, p);
      }
      SelectedMeans(banks[..n], p);
    }
  }
}
