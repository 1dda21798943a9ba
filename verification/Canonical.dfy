/** `canonical.rs`: the length-prefixed, big-endian encoder every hash rests on,
    and that what it writes can be read in only one way. */
module Canonical {
  import opened Bytes
  import opened NumberTheory

  /** A SHA-256 digest. */
  type Hash = h: seq<Byte> | |h| == 32 witness seq(32, _ => 0)

  const WORD_BYTES: nat := 8
  const LENGTH_BYTES: nat := 4

  // ------------------------------------------------- what each method writes

  function EncWord(v: Word): (b: seq<Byte>)
    ensures |b| == 8
  {
    ToBytes(v, WORD_BYTES)
  }

  /** Two's complement. */
  function EncSigned(v: SignedWord): (b: seq<Byte>)
    ensures |b| == 8
  {
    EncWord(if v >= 0 then v else v + 0x1_0000_0000_0000_0000)
  }

  /** The length is cast to 32 bits, so it wraps at 2^32. */
  function EncText(s: Text): (b: seq<Byte>) {
    ToBytes(|s| % 0x1_0000_0000, LENGTH_BYTES) + s
  }

  function EncOptText(v: Option<Text>): seq<Byte> {
    match v case None => [0] case Some(s) => [1] + EncText(s)
  }

  function EncOptWord(v: Option<Word>): seq<Byte> {
    match v case None => [0] case Some(n) => [1] + EncWord(n)
  }

  function EncOptSigned(v: Option<SignedWord>): seq<Byte> {
    match v case None => [0] case Some(n) => [1] + EncSigned(n)
  }

  function EncOptHash(v: Option<Hash>): seq<Byte> {
    match v case None => [0] case Some(h) => [1] + h
  }

  function EncTexts(items: seq<Text>): seq<Byte> {
    if items == [] then [] else EncText(items[0]) + EncTexts(items[1..])
  }

  /** The count is a 64-bit cast of the length. */
  function EncTextSeq(items: seq<Text>): seq<Byte> {
    EncWord(|items| % 0x1_0000_0000_0000_0000) + EncTexts(items)
  }

  // ------------------------------------------------- the encoder itself

  class Encoder {
    var buf: seq<Byte>

    constructor ()
      ensures buf == []
    {
      buf := [];
    }

    method U8(v: Byte)
      modifies this
      ensures buf == old(buf) + [v]
    {
      buf := buf + [v];
    }

    method U64(v: Word)
      modifies this
      ensures buf == old(buf) + EncWord(v)
    {
      buf := buf + ToBytes(v, WORD_BYTES);
    }

    method I64(v: SignedWord)
      modifies this
      ensures buf == old(buf) + EncSigned(v)
    {
      buf := buf + ToBytes(if v >= 0 then v else v + 0x1_0000_0000_0000_0000, WORD_BYTES);
    }

    method Bytes(b: Text)
      modifies this
      ensures buf == old(buf) + EncText(b)
    {
      buf := buf + ToBytes(|b| % 0x1_0000_0000, LENGTH_BYTES);
      buf := buf + b;
    }

    method Str(s: Text)
      modifies this
      ensures buf == old(buf) + EncText(s)
    {
      Bytes(s);
    }

    method Digest(h: Hash)
      modifies this
      ensures buf == old(buf) + h
    {
      buf := buf + h;
    }

    method OptStr(v: Option<Text>)
      modifies this
      ensures buf == old(buf) + EncOptText(v)
    {
      match v {
        case None => U8(0);
        case Some(s) => U8(1); Str(s);
      }
    }

    method OptU64(v: Option<Word>)
      modifies this
      ensures buf == old(buf) + EncOptWord(v)
    {
      match v {
        case None => U8(0);
        case Some(n) => U8(1); U64(n);
      }
    }

    method OptHash(v: Option<Hash>)
      modifies this
      ensures buf == old(buf) + EncOptHash(v)
    {
      match v {
        case None => U8(0);
        case Some(h) => U8(1); Digest(h);
      }
    }

    method StrSeq(items: seq<Text>)
      modifies this
      ensures buf == old(buf) + EncTextSeq(items)
    {
      U64(|items| % 0x1_0000_0000_0000_0000);
      ghost var start := buf;
      for i := 0 to |items|
        invariant buf + EncTexts(items[i..]) == start + EncTexts(items)
      {
        assert items[i..][1..] == items[i + 1..];
        Assoc(buf, EncText(items[i]), EncTexts(items[i + 1..]));
        Str(items[i]);
      }
      assert buf + [] == buf;
    }
  }

  // ------------------------------------------------- unique reading
  //
  // Each lemma says: if two encodings, each followed by anything, are the same
  // bytes, then the encoded values are equal and so is what follows.

  /** A string whose length survives the 32-bit cast. */
  predicate Short(s: Text) {
    |s| < 0x1_0000_0000
  }

  predicate ShortOpt(v: Option<Text>) {
    v.Some? ==> Short(v.value)
  }

  predicate ShortSeq(items: seq<Text>) {
    |items| < 0x1_0000_0000_0000_0000 && forall i :: 0 <= i < |items| ==> Short(items[i])
  }

  lemma ReadByte(a: Byte, b: Byte, s: seq<Byte>, t: seq<Byte>)
    requires [a] + s == [b] + t
    ensures a == b && s == t
  {
    SplitEqual([a], [b], s, t);
    assert [a][0] == [b][0];
  }

  lemma ReadWord(a: Word, b: Word, s: seq<Byte>, t: seq<Byte>)
    requires EncWord(a) + s == EncWord(b) + t
    ensures a == b && s == t
  {
    SplitEqual(EncWord(a), EncWord(b), s, t);
    Widths(LENGTH_BYTES, WORD_BYTES);
    ToBytesInjective(a, b, WORD_BYTES);
  }

  lemma ReadSigned(a: SignedWord, b: SignedWord, s: seq<Byte>, t: seq<Byte>)
    requires EncSigned(a) + s == EncSigned(b) + t
    ensures a == b && s == t
  {
    ReadWord(if a >= 0 then a else a + 0x1_0000_0000_0000_0000, if b >= 0 then b else b + 0x1_0000_0000_0000_0000, s, t);
  }

  lemma ReadHash(a: Hash, b: Hash, s: seq<Byte>, t: seq<Byte>)
    requires a + s == b + t
    ensures a == b && s == t
  {
    SplitEqual(a, b, s, t);
  }

  lemma ReadText(a: Text, b: Text, s: seq<Byte>, t: seq<Byte>)
    requires Short(a) && Short(b) && EncText(a) + s == EncText(b) + t
    ensures a == b && s == t
  {
    var la, lb := ToBytes(|a|, LENGTH_BYTES), ToBytes(|b|, LENGTH_BYTES);
    SmallMod(|a|, 0x1_0000_0000);
    SmallMod(|b|, 0x1_0000_0000);
    Assoc(la, a, s);
    Assoc(lb, b, t);
    SplitEqual(la, lb, a + s, b + t);
    Widths(LENGTH_BYTES, WORD_BYTES);
    ToBytesInjective(|a|, |b|, LENGTH_BYTES);
    SplitEqual(a, b, s, t);
  }

  /** A presence byte, then the value if there is one. */
  lemma ReadPresence(a: bool, b: bool, va: seq<Byte>, vb: seq<Byte>, s: seq<Byte>, t: seq<Byte>)
    requires (if a then [1] + va else [0]) + s == (if b then [1] + vb else [0]) + t
    ensures a == b
    ensures a ==> va + s == vb + t
    ensures !a ==> s == t
  {
    Assoc([1 as Byte], va, s);
    Assoc([1 as Byte], vb, t);
    ReadByte(if a then 1 else 0, if b then 1 else 0, if a then va + s else s, if b then vb + t else t);
  }

  lemma ReadOptText(a: Option<Text>, b: Option<Text>, s: seq<Byte>, t: seq<Byte>)
    requires ShortOpt(a) && ShortOpt(b) && EncOptText(a) + s == EncOptText(b) + t
    ensures a == b && s == t
  {
    var va, vb := if a.Some? then EncText(a.value) else [], if b.Some? then EncText(b.value) else [];
    ReadPresence(a.Some?, b.Some?, va, vb, s, t);
    if a.Some? {
      ReadText(a.value, b.value, s, t);
    }
  }

  lemma ReadOptWord(a: Option<Word>, b: Option<Word>, s: seq<Byte>, t: seq<Byte>)
    requires EncOptWord(a) + s == EncOptWord(b) + t
    ensures a == b && s == t
  {
    var va, vb := if a.Some? then EncWord(a.value) else [], if b.Some? then EncWord(b.value) else [];
    ReadPresence(a.Some?, b.Some?, va, vb, s, t);
    if a.Some? {
      ReadWord(a.value, b.value, s, t);
    }
  }

  lemma ReadOptHash(a: Option<Hash>, b: Option<Hash>, s: seq<Byte>, t: seq<Byte>)
    requires EncOptHash(a) + s == EncOptHash(b) + t
    ensures a == b && s == t
  {
    var va, vb := if a.Some? then a.value else [], if b.Some? then b.value else [];
    ReadPresence(a.Some?, b.Some?, va, vb, s, t);
    if a.Some? {
      ReadHash(a.value, b.value, s, t);
    }
  }

  lemma {:induction false} ReadTexts(a: seq<Text>, b: seq<Text>, s: seq<Byte>, t: seq<Byte>)
    requires |a| == |b| && ShortSeq(a) && ShortSeq(b) && EncTexts(a) + s == EncTexts(b) + t
    ensures a == b && s == t
  {
    if a != [] {
      var ta, tb := EncTexts(a[1..]), EncTexts(b[1..]);
      Assoc(EncText(a[0]), ta, s);
      Assoc(EncText(b[0]), tb, t);
      ReadText(a[0], b[0], ta + s, tb + t);
      ReadTexts(a[1..], b[1..], s, t);
      assert a == [a[0]] + a[1..] && b == [b[0]] + b[1..];
    } else {
      assert EncTexts(a) + s == s && EncTexts(b) + t == t;
    }
  }

  lemma CountFits(a: seq<Text>)
    requires ShortSeq(a)
    ensures EncTextSeq(a) == EncWord(|a|) + EncTexts(a)
  {
    SmallMod(|a|, 0x1_0000_0000_0000_0000);
  }

  lemma ReadTextSeq(a: seq<Text>, b: seq<Text>, s: seq<Byte>, t: seq<Byte>)
    requires ShortSeq(a) && ShortSeq(b) && EncTextSeq(a) + s == EncTextSeq(b) + t
    ensures a == b && s == t
  {
    var ha, hb, ta, tb := EncWord(|a|), EncWord(|b|), EncTexts(a), EncTexts(b);
    CountFits(a);
    CountFits(b);
    Assoc(ha, ta, s);
    Assoc(hb, tb, t);
    ReadWord(|a|, |b|, ta + s, tb + t);
    ReadTexts(a, b, s, t);
  }

  // The same when the encoding is one field of several: the field is equal and
  // what remains, followed by anything, is the same bytes.

  lemma PeelText(a: Text, b: Text, x: seq<Byte>, y: seq<Byte>, s: seq<Byte>, t: seq<Byte>)
    requires Short(a) && Short(b) && (EncText(a) + x) + s == (EncText(b) + y) + t
    ensures a == b && x + s == y + t
  {
    Assoc(EncText(a), x, s);
    Assoc(EncText(b), y, t);
    ReadText(a, b, x + s, y + t);
  }

  lemma PeelOptText(a: Option<Text>, b: Option<Text>, x: seq<Byte>, y: seq<Byte>, s: seq<Byte>, t: seq<Byte>)
    requires ShortOpt(a) && ShortOpt(b) && (EncOptText(a) + x) + s == (EncOptText(b) + y) + t
    ensures a == b && x + s == y + t
  {
    Assoc(EncOptText(a), x, s);
    Assoc(EncOptText(b), y, t);
    ReadOptText(a, b, x + s, y + t);
  }

  lemma PeelWord(a: Word, b: Word, x: seq<Byte>, y: seq<Byte>, s: seq<Byte>, t: seq<Byte>)
    requires (EncWord(a) + x) + s == (EncWord(b) + y) + t
    ensures a == b && x + s == y + t
  {
    Assoc(EncWord(a), x, s);
    Assoc(EncWord(b), y, t);
    ReadWord(a, b, x + s, y + t);
  }

  lemma PeelSigned(a: SignedWord, b: SignedWord, x: seq<Byte>, y: seq<Byte>, s: seq<Byte>, t: seq<Byte>)
    requires (EncSigned(a) + x) + s == (EncSigned(b) + y) + t
    ensures a == b && x + s == y + t
  {
    Assoc(EncSigned(a), x, s);
    Assoc(EncSigned(b), y, t);
    ReadSigned(a, b, x + s, y + t);
  }

  lemma PeelOptWord(a: Option<Word>, b: Option<Word>, x: seq<Byte>, y: seq<Byte>, s: seq<Byte>, t: seq<Byte>)
    requires (EncOptWord(a) + x) + s == (EncOptWord(b) + y) + t
    ensures a == b && x + s == y + t
  {
    Assoc(EncOptWord(a), x, s);
    Assoc(EncOptWord(b), y, t);
    ReadOptWord(a, b, x + s, y + t);
  }

  lemma PeelOptHash(a: Option<Hash>, b: Option<Hash>, x: seq<Byte>, y: seq<Byte>, s: seq<Byte>, t: seq<Byte>)
    requires (EncOptHash(a) + x) + s == (EncOptHash(b) + y) + t
    ensures a == b && x + s == y + t
  {
    Assoc(EncOptHash(a), x, s);
    Assoc(EncOptHash(b), y, t);
    ReadOptHash(a, b, x + s, y + t);
  }

  lemma PeelTextSeq(a: seq<Text>, b: seq<Text>, x: seq<Byte>, y: seq<Byte>, s: seq<Byte>, t: seq<Byte>)
    requires ShortSeq(a) && ShortSeq(b) && (EncTextSeq(a) + x) + s == (EncTextSeq(b) + y) + t
    ensures a == b && x + s == y + t
  {
    Assoc(EncTextSeq(a), x, s);
    Assoc(EncTextSeq(b), y, t);
    ReadTextSeq(a, b, x + s, y + t);
  }

  lemma PeelHash(a: Hash, b: Hash, x: seq<Byte>, y: seq<Byte>, s: seq<Byte>, t: seq<Byte>)
    requires (a + x) + s == (b + y) + t
    ensures a == b && x + s == y + t
  {
    Assoc(a, x, s);
    Assoc(b, y, t);
    ReadHash(a, b, x + s, y + t);
  }

  // ------------------------------------------------- the 32-bit length

  predicate ConfusedAt(a: Text, b: Text, s: seq<Byte>, t: seq<Byte>) {
    EncText(a) + s == EncText(b) + t
  }

  /** The two strings can stand at the head of one buffer. */
  ghost predicate Confused(a: Text, b: Text) {
    exists s, t :: ConfusedAt(a, b, s, t)
  }

  /** The length as the cast keeps it. */
  function Header(a: Text): (h: seq<Byte>)
    ensures |h| == LENGTH_BYTES
  {
    ToBytes(|a| % 0x1_0000_0000, LENGTH_BYTES)
  }

  lemma HeaderDecides(a: Text, b: Text)
    ensures Header(a) == Header(b) <==> |a| % 0x1_0000_0000 == |b| % 0x1_0000_0000
  {
    Widths(LENGTH_BYTES, 8);
    if Header(a) == Header(b) {
      ToBytesInjective(|a| % 0x1_0000_0000, |b| % 0x1_0000_0000, LENGTH_BYTES);
    }
  }

  /** Of two strings that begin one buffer, one is a prefix of the other. */
  lemma HeadsOfOne(a: Text, b: Text, s: seq<Byte>, t: seq<Byte>)
    requires a + s == b + t
    ensures a <= b || b <= a
  {
    if |a| <= |b| {
      assert a == (a + s)[..|a|] && b[..|a|] == (b + t)[..|a|];
    } else {
      assert b == (b + t)[..|b|] && a[..|b|] == (a + s)[..|b|];
    }
  }

  /** Exactly when two strings can be confused: the cast keeps the same length of both, and one begins with the other.
      Below 2^32 bytes that is equality. */
  lemma LengthWraps(a: Text, b: Text)
    ensures Confused(a, b) <==> |a| % 0x1_0000_0000 == |b| % 0x1_0000_0000 && (a <= b || b <= a)
    ensures Short(a) && Short(b) ==> (Confused(a, b) <==> a == b)
  {
    HeaderDecides(a, b);
    assert EncText(a) == Header(a) + a && EncText(b) == Header(b) + b;
    if Confused(a, b) {
      var s, t :| ConfusedAt(a, b, s, t);
      Assoc(Header(a), a, s);
      Assoc(Header(b), b, t);
      SplitEqual(Header(a), Header(b), a + s, b + t);
      HeadsOfOne(a, b, s, t);
    }
    if Header(a) == Header(b) && (a <= b || b <= a) {
      var s, t := if a <= b then b[|a|..] else [], if a <= b then [] else a[|b|..];
      Assoc(Header(a), a, s);
      Assoc(Header(b), b, t);
      assert a + s == b + t;
      assert ConfusedAt(a, b, s, t);
    }
  }

  /** The shortest failure: the empty string and 2^32 zero bytes. */
  lemma EmptyConfused()
    ensures Confused([], seq(0x1_0000_0000, _ => 0))
  {
    LengthWraps([], seq(0x1_0000_0000, _ => 0));
  }
}
