/** `rfc3161.rs` and the request writer of `anchor.rs`: elements of definite
    length, and the path to what a timestamp token imprints.

    A cursor takes one element after the other from a run of siblings; a
    container that is closed must hold nothing beyond what was read. The reader
    inverts the writer up to the length where the writer's 16-bit cast loses it,
    and a response built around an imprint and a time reads back to them. */
module Der {
  import opened Bytes

  const INTEGER: Byte := 0x02
  const OCTETS: Byte := 0x04
  const OID: Byte := 0x06
  const TIME: Byte := 0x18
  const SEQUENCE: Byte := 0x30
  const SET: Byte := 0x31
  const CONTEXT_0: Byte := 0xA0

  // ------------------------------------------------- one element

  datatype Elem = Elem(tag: Byte, content: seq<Byte>, rest: seq<Byte>)

  /** The length field at b[1]: the length and where the content starts. */
  function ReadLength(b: seq<Byte>): (r: Option<(nat, nat)>)
    requires |b| >= 2
    ensures r.Some? ==> 2 <= r.value.1 <= |b|
  {
    if b[1] < 128 then Some((b[1] as int, 2))
    else
      var k := b[1] as int - 128;
      if k == 0 || k > 4 || |b| < 2 + k then None else Some((BigEndian(b[2..2 + k]), 2 + k))
  }

  /** `Der::tlv` on the bytes that are left. */
  function ReadTlv(b: seq<Byte>): Option<Elem> {
    if |b| < 2 || b[0] % 32 == 31 then None
    else
      match ReadLength(b)
      case None => None
      case Some(l) =>
        if l.0 > |b| - l.1 then None else Some(Elem(b[0], b[l.1..l.1 + l.0], b[l.1 + l.0..]))
  }

  /** `Der::expect`: the content and what follows, if the tag is the one wanted. */
  function Expect(b: seq<Byte>, tag: Byte): Option<(seq<Byte>, seq<Byte>)> {
    match ReadTlv(b)
    case None => None
    case Some(e) => if e.tag == tag then Some((e.content, e.rest)) else None
  }

  class Cursor {
    var b: seq<Byte>

    constructor (b: seq<Byte>)
      ensures this.b == b
    {
      this.b := b;
    }

    method Tlv() returns (r: Option<(Byte, seq<Byte>)>)
      modifies this
      ensures match ReadTlv(old(b))
              case None => r == None && b == old(b)
              case Some(e) => r == Some((e.tag, e.content)) && b == e.rest
    {
      if |b| < 2 {
        return None;
      }
      var tag := b[0];
      if tag % 32 == 31 {
        return None;
      }
      var len, header := 0, 2;
      if b[1] < 128 {
        len := b[1] as int;
      } else {
        var k := b[1] as int - 128;
        if k == 0 || k > 4 || |b| < 2 + k {
          return None;
        }
        for i := 0 to k
          invariant len == BigEndian(b[2..2 + i])
        {
          assert b[2..2 + i + 1][..i] == b[2..2 + i];
          len := len * 256 + b[2 + i] as int;
        }
        header := 2 + k;
      }
      if len > |b| - header {
        return None;
      }
      r := Some((tag, b[header..header + len]));
      b := b[header + len..];
    }

    method Content(tag: Byte) returns (r: Option<seq<Byte>>)
      modifies this
      ensures match Expect(old(b), tag)
              case None => r == None
              case Some(e) => r == Some(e.0) && b == e.1
    {
      var e := Tlv();
      if e.None? || e.value.0 != tag {
        return None;
      }
      return Some(e.value.1);
    }
  }

  /** The writer's length field: its long form casts the length to 16 bits. */
  function EncLength(n: nat): (b: seq<Byte>) {
    if n < 128 then [n] else if n <= 255 then [0x81, n] else [0x82, n / 256 % 256, n % 256]
  }

  /** `tlv`. */
  function EncTlv(tag: Byte, content: seq<Byte>): seq<Byte> {
    [tag] + EncLength(|content|) + content
  }

  lemma TwoBytes(x: Byte, y: Byte)
    ensures BigEndian([x]) == x as int && BigEndian([x, y]) == x as int * 256 + y as int
  {
    assert [x][..0] == [] && [x, y][..1] == [x];
  }

  /** The reader inverts the writer exactly up to 65535 bytes of content, where the cast starts to lose length. */
  lemma TlvRoundTrip(tag: Byte, content: seq<Byte>, rest: seq<Byte>)
    requires tag % 32 != 31
    ensures ReadTlv(EncTlv(tag, content) + rest) == Some(Elem(tag, content, rest)) <==> |content| <= 0xFFFF
  {
    var n, b := |content|, EncTlv(tag, content) + rest;
    var len := EncLength(n);
    var h := 1 + |len|;
    assert b[0] == tag && b[1] == len[0];
    assert b[h..] == content + rest;
    if n >= 128 {
      TwoBytes(len[1], if |len| > 2 then len[2] else 0);
      assert b[2..h] == len[1..];
      assert len[1..] == if n <= 255 then [n] else [n / 256 % 256, n % 256];
    }
    var kept := if n <= 255 then n else n / 256 % 256 * 256 + n % 256;
    assert ReadLength(b) == Some((kept, h));
    assert kept == n <==> n <= 0xFFFF;
    if n <= 0xFFFF {
      assert b[h..h + n] == content && b[h + n..] == rest;
    } else {
      assert |ReadTlv(b).value.content| == kept;
    }
  }

  lemma ExpectWritten(tag: Byte, content: seq<Byte>, rest: seq<Byte>)
    requires tag % 32 != 31 && |content| <= 0xFFFF
    ensures Expect(EncTlv(tag, content) + rest, tag) == Some((content, rest))
  {
    TlvRoundTrip(tag, content, rest);
  }

  // ------------------------------------------------- the timestamp response

  datatype Info = Info(status: nat, imprint: seq<Byte>, time: seq<Byte>)
  datatype Failure = Malformed | Rejected(status: nat)

  /** The object identifiers of signedData and of a TSTInfo content. */
  datatype Oids = Oids(signedData: seq<Byte>, tstInfo: seq<Byte>)

  /** A container that must hold one element of the tag and nothing more. */
  function Only(b: seq<Byte>, tag: Byte): Option<seq<Byte>> {
    match Expect(b, tag) case None => None case Some(e) => if e.1 == [] then Some(e.0) else None
  }

  /** `int_value`. */
  function IntValue(b: seq<Byte>): Option<nat> {
    if b == [] || |b| > 8 then None else Some(BigEndian(b))
  }

  function ParseImprint(b: seq<Byte>): Option<seq<Byte>> {
    match Expect(b, SEQUENCE) case None => None case Some(alg) => Only(alg.1, OCTETS)
  }

  /** TSTInfo: version, policy, messageImprint, serialNumber, genTime, then anything. */
  function ParseTst(b: seq<Byte>): Option<(seq<Byte>, seq<Byte>)> {
    match Expect(b, INTEGER)
    case None => None
    case Some(version) =>
      match Expect(version.1, OID)
      case None => None
      case Some(policy) =>
        match Expect(policy.1, SEQUENCE)
        case None => None
        case Some(mi) =>
          match ParseImprint(mi.0)
          case None => None
          case Some(imprint) =>
            match Expect(mi.1, INTEGER)
            case None => None
            case Some(serial) =>
              match Expect(serial.1, TIME) case None => None case Some(time) => Some((imprint, time.0))
  }

  /** encapContentInfo: its type, then [0] around an OCTET STRING around TSTInfo. */
  function ParseEncap(oids: Oids, b: seq<Byte>): Option<(seq<Byte>, seq<Byte>)> {
    match Expect(b, OID)
    case None => None
    case Some(kind) =>
      if kind.0 != oids.tstInfo then None
      else
        match Only(kind.1, CONTEXT_0)
        case None => None
        case Some(econtent) =>
          match Only(econtent, OCTETS)
          case None => None
          case Some(octets) => match Only(octets, SEQUENCE) case None => None case Some(tst) => ParseTst(tst)
  }

  /** SignedData: version, digestAlgorithms, encapContentInfo, then whatever the signature layer needs. */
  function ParseSignedData(oids: Oids, b: seq<Byte>): Option<(seq<Byte>, seq<Byte>)> {
    match Expect(b, INTEGER)
    case None => None
    case Some(version) =>
      match Expect(version.1, SET)
      case None => None
      case Some(algs) => match Expect(algs.1, SEQUENCE) case None => None case Some(eci) => ParseEncap(oids, eci.0)
  }

  function ParseContentInfo(oids: Oids, b: seq<Byte>): Option<(seq<Byte>, seq<Byte>)> {
    match Expect(b, OID)
    case None => None
    case Some(kind) =>
      if kind.0 != oids.signedData then None
      else
        match Only(kind.1, CONTEXT_0)
        case None => None
        case Some(wrapped) => match Only(wrapped, SEQUENCE) case None => None case Some(sd) => ParseSignedData(oids, sd)
  }

  function ParseStatus(b: seq<Byte>): Option<nat> {
    match Expect(b, INTEGER) case None => None case Some(v) => IntValue(v.0)
  }

  /** `parse_timestamp_response`. */
  function ParseResponse(oids: Oids, b: seq<Byte>): Result<Info, Failure> {
    match Only(b, SEQUENCE)
    case None => Err(Malformed)
    case Some(resp) =>
      match Expect(resp, SEQUENCE)
      case None => Err(Malformed)
      case Some(info) =>
        match ParseStatus(info.0)
        case None => Err(Malformed)
        case Some(status) =>
          if status > 1 then Err(Rejected(status))
          else
            match Only(info.1, SEQUENCE)
            case None => Err(Malformed)
            case Some(ci) =>
              match ParseContentInfo(oids, ci)
              case None => Err(Malformed)
              case Some(t) => Ok(Info(status, t.0, t.1))
  }

  // ------------------------------------------------- the same walk, driving cursors

  method ReadOnly(b: seq<Byte>, tag: Byte) returns (r: Option<seq<Byte>>)
    ensures r == Only(b, tag)
  {
    var c := new Cursor(b);
    r := c.Content(tag);
    if r.Some? && c.b != [] {
      return None;
    }
  }

  method ReadImprint(b: seq<Byte>) returns (r: Option<seq<Byte>>)
    ensures r == ParseImprint(b)
  {
    var c := new Cursor(b);
    var alg := c.Content(SEQUENCE);
    if alg.None? {
      return None;
    }
    r := c.Content(OCTETS);
    if r.Some? && c.b != [] {
      return None;
    }
  }

  method ReadTst(b: seq<Byte>) returns (r: Option<(seq<Byte>, seq<Byte>)>)
    ensures r == ParseTst(b)
  {
    var c := new Cursor(b);
    var version := c.Content(INTEGER);
    if version.None? {
      return None;
    }
    var policy := c.Content(OID);
    if policy.None? {
      return None;
    }
    var mi := c.Content(SEQUENCE);
    if mi.None? {
      return None;
    }
    var imprint := ReadImprint(mi.value);
    if imprint.None? {
      return None;
    }
    var serial := c.Content(INTEGER);
    if serial.None? {
      return None;
    }
    var time := c.Content(TIME);
    if time.None? {
      return None;
    }
    return Some((imprint.value, time.value));
  }

  method ReadEncap(oids: Oids, b: seq<Byte>) returns (r: Option<(seq<Byte>, seq<Byte>)>)
    ensures r == ParseEncap(oids, b)
  {
    var c := new Cursor(b);
    var kind := c.Content(OID);
    if kind.None? || kind.value != oids.tstInfo {
      return None;
    }
    var econtent := c.Content(CONTEXT_0);
    if econtent.None? || c.b != [] {
      return None;
    }
    var octets := ReadOnly(econtent.value, OCTETS);
    if octets.None? {
      return None;
    }
    var tst := ReadOnly(octets.value, SEQUENCE);
    if tst.None? {
      return None;
    }
    r := ReadTst(tst.value);
  }

  method ReadContentInfo(oids: Oids, b: seq<Byte>) returns (r: Option<(seq<Byte>, seq<Byte>)>)
    ensures r == ParseContentInfo(oids, b)
  {
    var c := new Cursor(b);
    var kind := c.Content(OID);
    if kind.None? || kind.value != oids.signedData {
      return None;
    }
    var wrapped := c.Content(CONTEXT_0);
    if wrapped.None? || c.b != [] {
      return None;
    }
    var sd := ReadOnly(wrapped.value, SEQUENCE);
    if sd.None? {
      return None;
    }
    // Certificates and signatures follow; they are not read.
    c := new Cursor(sd.value);
    var version := c.Content(INTEGER);
    if version.None? {
      return None;
    }
    var algs := c.Content(SET);
    if algs.None? {
      return None;
    }
    var eci := c.Content(SEQUENCE);
    if eci.None? {
      return None;
    }
    r := ReadEncap(oids, eci.value);
  }

  method ReadStatus(b: seq<Byte>) returns (r: Option<nat>)
    ensures r == ParseStatus(b)
  {
    var c := new Cursor(b);
    var v := c.Content(INTEGER);
    if v.None? {
      return None;
    }
    r := IntValue(v.value);
  }

  method ReadResponse(oids: Oids, b: seq<Byte>) returns (r: Result<Info, Failure>)
    ensures r == ParseResponse(oids, b)
  {
    var resp := ReadOnly(b, SEQUENCE);
    if resp.None? {
      return Err(Malformed);
    }
    var c := new Cursor(resp.value);
    var info := c.Content(SEQUENCE);
    if info.None? {
      return Err(Malformed);
    }
    var status := ReadStatus(info.value);
    if status.None? {
      return Err(Malformed);
    }
    if status.value > 1 {
      return Err(Rejected(status.value));
    }
    var ci := c.Content(SEQUENCE);
    if ci.None? || c.b != [] {
      return Err(Malformed);
    }
    var t := ReadContentInfo(oids, ci.value);
    if t.None? {
      return Err(Malformed);
    }
    return Ok(Info(status.value, t.value.0, t.value.1));
  }

  // ------------------------------------------------- a response and its reading

  /** Everything a granted response holds; the free parts are any bytes. */
  datatype Token = Token(status: Byte, statusMore: seq<Byte>, version: seq<Byte>, algorithms: seq<Byte>, signatures: seq<Byte>,
                         tstVersion: seq<Byte>, policy: seq<Byte>, hashAlg: seq<Byte>, imprint: seq<Byte>, serial: seq<Byte>,
                         time: seq<Byte>, tstMore: seq<Byte>)

  function ImprintBody(t: Token): seq<Byte> {
    EncTlv(SEQUENCE, t.hashAlg) + EncTlv(OCTETS, t.imprint)
  }

  function TstBody(t: Token): seq<Byte> {
    EncTlv(INTEGER, t.tstVersion) + (EncTlv(OID, t.policy) + (EncTlv(SEQUENCE, ImprintBody(t)) + (EncTlv(INTEGER, t.serial)
    + (EncTlv(TIME, t.time) + t.tstMore))))
  }

  function EncapBody(oids: Oids, t: Token): seq<Byte> {
    EncTlv(OID, oids.tstInfo) + EncTlv(CONTEXT_0, EncTlv(OCTETS, EncTlv(SEQUENCE, TstBody(t))))
  }

  function SignedDataBody(oids: Oids, t: Token): seq<Byte> {
    EncTlv(INTEGER, t.version) + (EncTlv(SET, t.algorithms) + (EncTlv(SEQUENCE, EncapBody(oids, t)) + t.signatures))
  }

  function ContentInfoBody(oids: Oids, t: Token): seq<Byte> {
    EncTlv(OID, oids.signedData) + EncTlv(CONTEXT_0, EncTlv(SEQUENCE, SignedDataBody(oids, t)))
  }

  function ResponseBody(oids: Oids, t: Token): seq<Byte> {
    EncTlv(SEQUENCE, EncTlv(INTEGER, [t.status]) + t.statusMore) + EncTlv(SEQUENCE, ContentInfoBody(oids, t))
  }

  function Response(oids: Oids, t: Token): seq<Byte> {
    EncTlv(SEQUENCE, ResponseBody(oids, t))
  }

  lemma OnlyWritten(tag: Byte, content: seq<Byte>)
    requires tag % 32 != 31 && |content| <= 0xFFFF
    ensures Only(EncTlv(tag, content), tag) == Some(content)
  {
    ExpectWritten(tag, content, []);
    assert EncTlv(tag, content) + [] == EncTlv(tag, content);
  }

  lemma TstReads(t: Token)
    requires |TstBody(t)| <= 0xFFFF
    ensures ParseTst(TstBody(t)) == Some((t.imprint, t.time))
  {
    var r4 := EncTlv(TIME, t.time) + t.tstMore;
    var r3 := EncTlv(INTEGER, t.serial) + r4;
    var r2 := EncTlv(SEQUENCE, ImprintBody(t)) + r3;
    ExpectWritten(INTEGER, t.tstVersion, EncTlv(OID, t.policy) + r2);
    ExpectWritten(OID, t.policy, r2);
    ExpectWritten(SEQUENCE, ImprintBody(t), r3);
    ExpectWritten(SEQUENCE, t.hashAlg, EncTlv(OCTETS, t.imprint));
    OnlyWritten(OCTETS, t.imprint);
    ExpectWritten(INTEGER, t.serial, r4);
    ExpectWritten(TIME, t.time, t.tstMore);
  }

  lemma EncapReads(oids: Oids, t: Token)
    requires |EncapBody(oids, t)| <= 0xFFFF
    ensures ParseEncap(oids, EncapBody(oids, t)) == Some((t.imprint, t.time))
  {
    var tst := EncTlv(SEQUENCE, TstBody(t));
    ExpectWritten(OID, oids.tstInfo, EncTlv(CONTEXT_0, EncTlv(OCTETS, tst)));
    OnlyWritten(CONTEXT_0, EncTlv(OCTETS, tst));
    OnlyWritten(OCTETS, tst);
    OnlyWritten(SEQUENCE, TstBody(t));
    TstReads(t);
  }

  lemma SignedDataReads(oids: Oids, t: Token)
    requires |SignedDataBody(oids, t)| <= 0xFFFF
    ensures ParseSignedData(oids, SignedDataBody(oids, t)) == Some((t.imprint, t.time))
  {
    var r2 := EncTlv(SEQUENCE, EncapBody(oids, t)) + t.signatures;
    ExpectWritten(INTEGER, t.version, EncTlv(SET, t.algorithms) + r2);
    ExpectWritten(SET, t.algorithms, r2);
    ExpectWritten(SEQUENCE, EncapBody(oids, t), t.signatures);
    EncapReads(oids, t);
  }

  lemma ContentInfoReads(oids: Oids, t: Token)
    requires |ContentInfoBody(oids, t)| <= 0xFFFF
    ensures ParseContentInfo(oids, ContentInfoBody(oids, t)) == Some((t.imprint, t.time))
  {
    var sd := EncTlv(SEQUENCE, SignedDataBody(oids, t));
    ExpectWritten(OID, oids.signedData, EncTlv(CONTEXT_0, sd));
    OnlyWritten(CONTEXT_0, sd);
    OnlyWritten(SEQUENCE, SignedDataBody(oids, t));
    SignedDataReads(oids, t);
  }

  /** A response built around an imprint and a time parses to its own imprint and time, whatever the free parts
      are, exactly when its status grants the request; otherwise it parses to the refusal. */
  lemma ResponseReads(oids: Oids, t: Token)
    requires |ResponseBody(oids, t)| <= 0xFFFF
    ensures ParseResponse(oids, Response(oids, t))
      == if t.status <= 1 then Ok(Info(t.status as int, t.imprint, t.time)) else Err(Rejected(t.status as int))
  {
    var si, ci := EncTlv(INTEGER, [t.status]) + t.statusMore, EncTlv(SEQUENCE, ContentInfoBody(oids, t));
    OnlyWritten(SEQUENCE, ResponseBody(oids, t));
    ExpectWritten(SEQUENCE, si, ci);
    ExpectWritten(INTEGER, [t.status], t.statusMore);
    TwoBytes(t.status, 0);
    OnlyWritten(SEQUENCE, ContentInfoBody(oids, t));
    ContentInfoReads(oids, t);
  }

  /** What one element is does not depend on the bytes after it. */
  lemma TlvMore(b: seq<Byte>, t: seq<Byte>)
    requires ReadTlv(b).Some?
    ensures var e := ReadTlv(b).value; ReadTlv(b + t) == Some(Elem(e.tag, e.content, e.rest + t))
  {
    var l := ReadLength(b).value;
    assert (b + t)[0] == b[0] && (b + t)[1] == b[1];
    if b[1] >= 128 {
      assert (b + t)[2..2 + (b[1] as int - 128)] == b[2..2 + (b[1] as int - 128)];
    }
    assert ReadLength(b + t) == Some(l);
    assert (b + t)[l.1..l.1 + l.0] == b[l.1..l.1 + l.0] && (b + t)[l.1 + l.0..] == b[l.1 + l.0..] + t;
  }

  /** No proper prefix and no proper extension of an accepted response is accepted, nor even refused by its status. */
  lemma ResponsePrefixFree(oids: Oids, b: seq<Byte>, t: seq<Byte>)
    requires ParseResponse(oids, b) != Err(Malformed) && ParseResponse(oids, b + t) != Err(Malformed)
    ensures t == []
  {
    TlvMore(b, t);
  }
}
