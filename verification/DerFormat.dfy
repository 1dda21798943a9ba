/** Exactly which bytes are read as a timestamp response: every container it
    opens must hold what it should and, where the reader closes it, no more. */
module DerFormat {
  import opened Bytes
  import opened Der

  // ------------------------------------------------- elements

  /** The bytes are a definite length of at most four octets, in either form. */
  predicate LengthIs(l: seq<Byte>, n: nat) {
    || (|l| == 1 && l[0] < 128 && n == l[0] as int)
    || (2 <= |l| <= 5 && l[0] as int == 128 + (|l| - 1) && n == BigEndian(l[1..]))
  }

  predicate Spelled(b: seq<Byte>, tag: Byte, l: seq<Byte>, content: seq<Byte>, rest: seq<Byte>) {
    LengthIs(l, |content|) && b == [tag] + (l + (content + rest))
  }

  /** An element of the tag, in the one-byte form, stands at the head of the bytes. */
  ghost predicate Element(b: seq<Byte>, tag: Byte, content: seq<Byte>, rest: seq<Byte>) {
    tag % 32 != 31 && exists l :: Spelled(b, tag, l, content, rest)
  }

  lemma Placed(b: seq<Byte>, tag: Byte, l: seq<Byte>, content: seq<Byte>, rest: seq<Byte>)
    requires b == [tag] + (l + (content + rest))
    ensures |b| == 1 + |l| + |content| + |rest| && b[0] == tag && b[1..1 + |l|] == l
    ensures b[1 + |l|..1 + |l| + |content|] == content && b[1 + |l| + |content|..] == rest
  {
  }

  lemma LengthRead(b: seq<Byte>, l: seq<Byte>, n: nat)
    requires |b| >= 1 + |l| && b[1..1 + |l|] == l && LengthIs(l, n)
    ensures |b| >= 2 && ReadLength(b) == Some((n, 1 + |l|))
  {
    assert b[1] == l[0];
    assert b[2..1 + |l|] == l[1..];
  }

  lemma LengthWrote(b: seq<Byte>)
    requires |b| >= 2 && ReadLength(b).Some?
    ensures var (n, at) := ReadLength(b).value; LengthIs(b[1..at], n)
  {
    var at := ReadLength(b).value.1;
    assert b[1..at][0] == b[1] && b[1..at][1..] == b[2..at];
  }

  lemma Cut(b: seq<Byte>, at: nat, n: nat)
    requires 1 <= at && at + n <= |b|
    ensures b == [b[0]] + (b[1..at] + (b[at..at + n] + b[at + n..]))
  {
  }

  lemma TlvWrote(b: seq<Byte>)
    requires ReadTlv(b).Some?
    ensures var e := ReadTlv(b).value; Spelled(b, e.tag, b[1..ReadLength(b).value.1], e.content, e.rest) && e.tag % 32 != 31
  {
    var at := ReadLength(b).value.1;
    LengthWrote(b);
    Cut(b, at, ReadLength(b).value.0);
  }

  lemma TlvIs(b: seq<Byte>, tag: Byte, content: seq<Byte>, rest: seq<Byte>)
    ensures ReadTlv(b) == Some(Elem(tag, content, rest)) <==> Element(b, tag, content, rest)
  {
    if ReadTlv(b) == Some(Elem(tag, content, rest)) {
      TlvWrote(b);
    }
    forall l | tag % 32 != 31 && Spelled(b, tag, l, content, rest) ensures ReadTlv(b) == Some(Elem(tag, content, rest)) {
      Placed(b, tag, l, content, rest);
      LengthRead(b, l, |content|);
    }
  }

  /** What expecting a tag answers is the element at the head, if it has that tag. */
  lemma ExpectIs(b: seq<Byte>, tag: Byte, content: seq<Byte>, rest: seq<Byte>)
    ensures Expect(b, tag) == Some((content, rest)) <==> Element(b, tag, content, rest)
  {
    TlvIs(b, tag, content, rest);
  }

  lemma OnlyIs(b: seq<Byte>, tag: Byte, content: seq<Byte>)
    ensures Only(b, tag) == Some(content) <==> Element(b, tag, content, [])
  {
    ExpectIs(b, tag, content, []);
  }

  // ------------------------------------------------- the parts of a response, from the inside

  ghost predicate ImprintAs(b: seq<Byte>, imprint: seq<Byte>, alg: seq<Byte>, more: seq<Byte>) {
    Element(b, SEQUENCE, alg, more) && Element(more, OCTETS, imprint, [])
  }

  /** messageImprint: an algorithm, then the hashed message, and nothing else. */
  ghost predicate IsImprint(b: seq<Byte>, imprint: seq<Byte>) {
    exists alg, more :: ImprintAs(b, imprint, alg, more)
  }

  lemma ImprintIs(b: seq<Byte>, imprint: seq<Byte>)
    ensures ParseImprint(b) == Some(imprint) <==> IsImprint(b, imprint)
  {
    if ParseImprint(b) == Some(imprint) {
      var (alg, more) := Expect(b, SEQUENCE).value;
      ExpectIs(b, SEQUENCE, alg, more);
      OnlyIs(more, OCTETS, imprint);
      assert ImprintAs(b, imprint, alg, more);
    }
    forall alg, more | ImprintAs(b, imprint, alg, more) ensures ParseImprint(b) == Some(imprint) {
      ExpectIs(b, SEQUENCE, alg, more);
      OnlyIs(more, OCTETS, imprint);
    }
  }

  /** The fields of a TSTInfo with what is left after each. */
  datatype Fields = Fields(version: seq<Byte>, b1: seq<Byte>, policy: seq<Byte>, b2: seq<Byte>, mi: seq<Byte>, b3: seq<Byte>,
                           serial: seq<Byte>, b4: seq<Byte>, b5: seq<Byte>)

  ghost predicate TstAs(b: seq<Byte>, imprint: seq<Byte>, time: seq<Byte>, f: Fields) {
    && Element(b, INTEGER, f.version, f.b1) && Element(f.b1, OID, f.policy, f.b2) && Element(f.b2, SEQUENCE, f.mi, f.b3)
    && Element(f.b3, INTEGER, f.serial, f.b4) && Element(f.b4, TIME, time, f.b5) && IsImprint(f.mi, imprint)
  }

  /** TSTInfo, section 2.4.2 of RFC 3161: version, policy, imprint, serial number, time, then anything. */
  ghost predicate IsTst(b: seq<Byte>, imprint: seq<Byte>, time: seq<Byte>) {
    exists f :: TstAs(b, imprint, time, f)
  }

  lemma TstRead(b: seq<Byte>, imprint: seq<Byte>, time: seq<Byte>, f: Fields)
    requires TstAs(b, imprint, time, f)
    ensures ParseTst(b) == Some((imprint, time))
  {
    ExpectIs(b, INTEGER, f.version, f.b1);
    ExpectIs(f.b1, OID, f.policy, f.b2);
    ExpectIs(f.b2, SEQUENCE, f.mi, f.b3);
    ExpectIs(f.b3, INTEGER, f.serial, f.b4);
    ExpectIs(f.b4, TIME, time, f.b5);
    ImprintIs(f.mi, imprint);
  }

  lemma TstIs(b: seq<Byte>, imprint: seq<Byte>, time: seq<Byte>)
    ensures ParseTst(b) == Some((imprint, time)) <==> IsTst(b, imprint, time)
  {
    if ParseTst(b) == Some((imprint, time)) {
      var (version, b1) := Expect(b, INTEGER).value;
      var (policy, b2) := Expect(b1, OID).value;
      var (mi, b3) := Expect(b2, SEQUENCE).value;
      var (serial, b4) := Expect(b3, INTEGER).value;
      var b5 := Expect(b4, TIME).value.1;
      ExpectIs(b, INTEGER, version, b1);
      ExpectIs(b1, OID, policy, b2);
      ExpectIs(b2, SEQUENCE, mi, b3);
      ExpectIs(b3, INTEGER, serial, b4);
      ExpectIs(b4, TIME, time, b5);
      ImprintIs(mi, imprint);
      assert TstAs(b, imprint, time, Fields(version, b1, policy, b2, mi, b3, serial, b4, b5));
    }
    forall f | TstAs(b, imprint, time, f) ensures ParseTst(b) == Some((imprint, time)) {
      TstRead(b, imprint, time, f);
    }
  }

  ghost predicate EncapAs(oids: Oids, b: seq<Byte>, imprint: seq<Byte>, time: seq<Byte>, more: seq<Byte>, wrapped: seq<Byte>,
                          octets: seq<Byte>, tst: seq<Byte>)
  {
    && Element(b, OID, oids.tstInfo, more) && Element(more, CONTEXT_0, wrapped, [])
    && Element(wrapped, OCTETS, octets, []) && Element(octets, SEQUENCE, tst, []) && IsTst(tst, imprint, time)
  }

  /** encapContentInfo: that it is a TSTInfo, and the TSTInfo, in three wrappings that hold nothing else. */
  ghost predicate IsEncap(oids: Oids, b: seq<Byte>, imprint: seq<Byte>, time: seq<Byte>) {
    exists more, wrapped, octets, tst :: EncapAs(oids, b, imprint, time, more, wrapped, octets, tst)
  }

  lemma EncapIs(oids: Oids, b: seq<Byte>, imprint: seq<Byte>, time: seq<Byte>)
    ensures ParseEncap(oids, b) == Some((imprint, time)) <==> IsEncap(oids, b, imprint, time)
  {
    if ParseEncap(oids, b) == Some((imprint, time)) {
      var more := Expect(b, OID).value.1;
      var wrapped := Only(more, CONTEXT_0).value;
      var octets := Only(wrapped, OCTETS).value;
      var tst := Only(octets, SEQUENCE).value;
      EncapParts(oids, b, imprint, time, more, wrapped, octets, tst);
      assert EncapAs(oids, b, imprint, time, more, wrapped, octets, tst);
    }
    forall more, wrapped, octets, tst | EncapAs(oids, b, imprint, time, more, wrapped, octets, tst)
      ensures ParseEncap(oids, b) == Some((imprint, time))
    {
      EncapParts(oids, b, imprint, time, more, wrapped, octets, tst);
    }
  }

  lemma EncapParts(oids: Oids, b: seq<Byte>, imprint: seq<Byte>, time: seq<Byte>, more: seq<Byte>, wrapped: seq<Byte>,
                   octets: seq<Byte>, tst: seq<Byte>)
    ensures EncapAs(oids, b, imprint, time, more, wrapped, octets, tst) <==>
      && Expect(b, OID) == Some((oids.tstInfo, more)) && Only(more, CONTEXT_0) == Some(wrapped)
      && Only(wrapped, OCTETS) == Some(octets) && Only(octets, SEQUENCE) == Some(tst) && ParseTst(tst) == Some((imprint, time))
  {
    ExpectIs(b, OID, oids.tstInfo, more);
    OnlyIs(more, CONTEXT_0, wrapped);
    OnlyIs(wrapped, OCTETS, octets);
    OnlyIs(octets, SEQUENCE, tst);
    TstIs(tst, imprint, time);
  }

  ghost predicate SignedDataAs(oids: Oids, b: seq<Byte>, imprint: seq<Byte>, time: seq<Byte>, version: seq<Byte>, b1: seq<Byte>,
                               algorithms: seq<Byte>, b2: seq<Byte>, eci: seq<Byte>, b3: seq<Byte>)
  {
    && Element(b, INTEGER, version, b1) && Element(b1, SET, algorithms, b2) && Element(b2, SEQUENCE, eci, b3)
    && IsEncap(oids, eci, imprint, time)
  }

  /** SignedData: version, algorithms, the content, then certificates and signatures nobody reads here. */
  ghost predicate IsSignedData(oids: Oids, b: seq<Byte>, imprint: seq<Byte>, time: seq<Byte>) {
    exists version, b1, algorithms, b2, eci, b3 :: SignedDataAs(oids, b, imprint, time, version, b1, algorithms, b2, eci, b3)
  }

  lemma SignedDataIs(oids: Oids, b: seq<Byte>, imprint: seq<Byte>, time: seq<Byte>)
    ensures ParseSignedData(oids, b) == Some((imprint, time)) <==> IsSignedData(oids, b, imprint, time)
  {
    if ParseSignedData(oids, b) == Some((imprint, time)) {
      var (version, b1) := Expect(b, INTEGER).value;
      var (algorithms, b2) := Expect(b1, SET).value;
      var (eci, b3) := Expect(b2, SEQUENCE).value;
      SignedDataParts(oids, b, imprint, time, version, b1, algorithms, b2, eci, b3);
      assert SignedDataAs(oids, b, imprint, time, version, b1, algorithms, b2, eci, b3);
    }
    forall version, b1, algorithms, b2, eci, b3 | SignedDataAs(oids, b, imprint, time, version, b1, algorithms, b2, eci, b3)
      ensures ParseSignedData(oids, b) == Some((imprint, time))
    {
      SignedDataParts(oids, b, imprint, time, version, b1, algorithms, b2, eci, b3);
    }
  }

  lemma SignedDataParts(oids: Oids, b: seq<Byte>, imprint: seq<Byte>, time: seq<Byte>, version: seq<Byte>, b1: seq<Byte>,
                        algorithms: seq<Byte>, b2: seq<Byte>, eci: seq<Byte>, b3: seq<Byte>)
    ensures SignedDataAs(oids, b, imprint, time, version, b1, algorithms, b2, eci, b3) <==>
      && Expect(b, INTEGER) == Some((version, b1)) && Expect(b1, SET) == Some((algorithms, b2))
      && Expect(b2, SEQUENCE) == Some((eci, b3)) && ParseEncap(oids, eci) == Some((imprint, time))
  {
    ExpectIs(b, INTEGER, version, b1);
    ExpectIs(b1, SET, algorithms, b2);
    ExpectIs(b2, SEQUENCE, eci, b3);
    EncapIs(oids, eci, imprint, time);
  }

  ghost predicate ContentInfoAs(oids: Oids, b: seq<Byte>, imprint: seq<Byte>, time: seq<Byte>, more: seq<Byte>, wrapped: seq<Byte>,
                                sd: seq<Byte>)
  {
    && Element(b, OID, oids.signedData, more) && Element(more, CONTEXT_0, wrapped, [])
    && Element(wrapped, SEQUENCE, sd, []) && IsSignedData(oids, sd, imprint, time)
  }

  ghost predicate IsContentInfo(oids: Oids, b: seq<Byte>, imprint: seq<Byte>, time: seq<Byte>) {
    exists more, wrapped, sd :: ContentInfoAs(oids, b, imprint, time, more, wrapped, sd)
  }

  lemma ContentInfoIs(oids: Oids, b: seq<Byte>, imprint: seq<Byte>, time: seq<Byte>)
    ensures ParseContentInfo(oids, b) == Some((imprint, time)) <==> IsContentInfo(oids, b, imprint, time)
  {
    if ParseContentInfo(oids, b) == Some((imprint, time)) {
      var more := Expect(b, OID).value.1;
      var wrapped := Only(more, CONTEXT_0).value;
      var sd := Only(wrapped, SEQUENCE).value;
      ContentInfoParts(oids, b, imprint, time, more, wrapped, sd);
      assert ContentInfoAs(oids, b, imprint, time, more, wrapped, sd);
    }
    forall more, wrapped, sd | ContentInfoAs(oids, b, imprint, time, more, wrapped, sd)
      ensures ParseContentInfo(oids, b) == Some((imprint, time))
    {
      ContentInfoParts(oids, b, imprint, time, more, wrapped, sd);
    }
  }

  lemma ContentInfoParts(oids: Oids, b: seq<Byte>, imprint: seq<Byte>, time: seq<Byte>, more: seq<Byte>, wrapped: seq<Byte>, sd: seq<Byte>)
    ensures ContentInfoAs(oids, b, imprint, time, more, wrapped, sd) <==>
      && Expect(b, OID) == Some((oids.signedData, more)) && Only(more, CONTEXT_0) == Some(wrapped)
      && Only(wrapped, SEQUENCE) == Some(sd) && ParseSignedData(oids, sd) == Some((imprint, time))
  {
    ExpectIs(b, OID, oids.signedData, more);
    OnlyIs(more, CONTEXT_0, wrapped);
    OnlyIs(wrapped, SEQUENCE, sd);
    SignedDataIs(oids, sd, imprint, time);
  }

  // ------------------------------------------------- the response

  /** The status block at the head of a response says this number, in one to eight bytes. */
  ghost predicate StatusAs(b: seq<Byte>, status: nat, resp: seq<Byte>, si: seq<Byte>, more: seq<Byte>, v: seq<Byte>, text: seq<Byte>) {
    && Element(b, SEQUENCE, resp, []) && Element(resp, SEQUENCE, si, more) && Element(si, INTEGER, v, text)
    && 1 <= |v| <= 8 && status == BigEndian(v)
  }

  ghost predicate ResponseAs(oids: Oids, b: seq<Byte>, info: Info, resp: seq<Byte>, si: seq<Byte>, more: seq<Byte>, v: seq<Byte>,
                             text: seq<Byte>, ci: seq<Byte>)
  {
    && StatusAs(b, info.status, resp, si, more, v, text) && info.status <= 1
    && Element(more, SEQUENCE, ci, []) && IsContentInfo(oids, ci, info.imprint, info.time)
  }

  /** A granted response, section 2.4.2 of RFC 3161: its status, then the token, and nothing after either of them. */
  ghost predicate IsGranted(oids: Oids, b: seq<Byte>, info: Info) {
    exists resp, si, more, v, text, ci :: ResponseAs(oids, b, info, resp, si, more, v, text, ci)
  }

  ghost predicate IsRefused(b: seq<Byte>, status: nat) {
    status > 1 && exists resp, si, more, v, text :: StatusAs(b, status, resp, si, more, v, text)
  }

  lemma StatusParts(b: seq<Byte>, status: nat, resp: seq<Byte>, si: seq<Byte>, more: seq<Byte>, v: seq<Byte>, text: seq<Byte>)
    ensures StatusAs(b, status, resp, si, more, v, text) <==>
      && Only(b, SEQUENCE) == Some(resp) && Expect(resp, SEQUENCE) == Some((si, more))
      && Expect(si, INTEGER) == Some((v, text)) && IntValue(v) == Some(status)
  {
    OnlyIs(b, SEQUENCE, resp);
    ExpectIs(resp, SEQUENCE, si, more);
    ExpectIs(si, INTEGER, v, text);
  }

  lemma ResponseParts(oids: Oids, b: seq<Byte>, info: Info, resp: seq<Byte>, si: seq<Byte>, more: seq<Byte>, v: seq<Byte>,
                      text: seq<Byte>, ci: seq<Byte>)
    ensures ResponseAs(oids, b, info, resp, si, more, v, text, ci) <==>
      && Only(b, SEQUENCE) == Some(resp) && Expect(resp, SEQUENCE) == Some((si, more))
      && Expect(si, INTEGER) == Some((v, text)) && IntValue(v) == Some(info.status) && info.status <= 1
      && Only(more, SEQUENCE) == Some(ci) && ParseContentInfo(oids, ci) == Some((info.imprint, info.time))
  {
    StatusParts(b, info.status, resp, si, more, v, text);
    OnlyIs(more, SEQUENCE, ci);
    ContentInfoIs(oids, ci, info.imprint, info.time);
  }

  /** Bytes are read as a granted response exactly when they are one, and as a refused one exactly when their status refuses;
      every other input is malformed. */
  lemma AcceptsExactlyResponses(oids: Oids, b: seq<Byte>, info: Info, status: nat)
    ensures ParseResponse(oids, b) == Ok(info) <==> IsGranted(oids, b, info)
    ensures ParseResponse(oids, b) == Err(Rejected(status)) <==> IsRefused(b, status)
  {
    GrantedIs(oids, b, info);
    RefusedIs(oids, b, status);
  }

  lemma GrantedWrote(oids: Oids, b: seq<Byte>, info: Info)
    requires ParseResponse(oids, b) == Ok(info)
    ensures IsGranted(oids, b, info)
  {
    var resp := Only(b, SEQUENCE).value;
    var (si, more) := Expect(resp, SEQUENCE).value;
    var (v, text) := Expect(si, INTEGER).value;
    var ci := Only(more, SEQUENCE).value;
    var t := ParseContentInfo(oids, ci).value;
    assert info == Info(BigEndian(v), t.0, t.1);
    ResponseParts(oids, b, info, resp, si, more, v, text, ci);
    assert ResponseAs(oids, b, info, resp, si, more, v, text, ci);
  }

  lemma GrantedRead(oids: Oids, b: seq<Byte>, info: Info, resp: seq<Byte>, si: seq<Byte>, more: seq<Byte>, v: seq<Byte>,
                    text: seq<Byte>, ci: seq<Byte>)
    requires ResponseAs(oids, b, info, resp, si, more, v, text, ci)
    ensures ParseResponse(oids, b) == Ok(info)
  {
    ResponseParts(oids, b, info, resp, si, more, v, text, ci);
    StatusRead(oids, b, resp, si, more, v, text);
  }

  /** Past the status, a response is what its token makes of it. */
  lemma StatusRead(oids: Oids, b: seq<Byte>, resp: seq<Byte>, si: seq<Byte>, more: seq<Byte>, v: seq<Byte>, text: seq<Byte>)
    requires Only(b, SEQUENCE) == Some(resp) && Expect(resp, SEQUENCE) == Some((si, more))
    requires Expect(si, INTEGER) == Some((v, text)) && IntValue(v).Some?
    ensures ParseResponse(oids, b) == TokenRead(oids, IntValue(v).value, more)
  {
    assert ParseStatus(si) == IntValue(v);
  }

  function TokenRead(oids: Oids, status: nat, more: seq<Byte>): Result<Info, Failure> {
    if status > 1 then Err(Rejected(status))
    else
      match Only(more, SEQUENCE)
      case None => Err(Malformed)
      case Some(ci) =>
        match ParseContentInfo(oids, ci)
        case None => Err(Malformed)
        case Some(t) => Ok(Info(status, t.0, t.1))
  }

  lemma GrantedIs(oids: Oids, b: seq<Byte>, info: Info)
    ensures ParseResponse(oids, b) == Ok(info) <==> IsGranted(oids, b, info)
  {
    if ParseResponse(oids, b) == Ok(info) {
      GrantedWrote(oids, b, info);
    }
    if IsGranted(oids, b, info) {
      var resp, si, more, v, text, ci :| ResponseAs(oids, b, info, resp, si, more, v, text, ci);
      GrantedRead(oids, b, info, resp, si, more, v, text, ci);
    }
  }

  lemma RefusedIs(oids: Oids, b: seq<Byte>, status: nat)
    ensures ParseResponse(oids, b) == Err(Rejected(status)) <==> IsRefused(b, status)
  {
    if ParseResponse(oids, b) == Err(Rejected(status)) {
      var resp := Only(b, SEQUENCE).value;
      var (si, more) := Expect(resp, SEQUENCE).value;
      var (v, text) := Expect(si, INTEGER).value;
      StatusParts(b, status, resp, si, more, v, text);
      assert StatusAs(b, status, resp, si, more, v, text);
    }
    forall resp, si, more, v, text | status > 1 && StatusAs(b, status, resp, si, more, v, text)
      ensures ParseResponse(oids, b) == Err(Rejected(status))
    {
      StatusParts(b, status, resp, si, more, v, text);
    }
  }
}
