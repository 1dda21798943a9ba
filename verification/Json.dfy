/** The canonical encoding of an arbitrary JSON value (`encode_json` of
    `record.rs`): equal bytes exactly for values equal up to object key order. */
module Json {
  import opened Bytes
  import opened NumberTheory
  import opened Canonical

  /** An object keeps its entries in the order they were read. */
  datatype Json =
    | JNull
    | JBool(b: bool)
    | JNumber(text: Text)
    | JString(s: Text)
    | JArray(items: seq<Json>)
    | JObject(entries: seq<(Text, Json)>)

  // ------------------------------------------------- keys

  predicate HasKey(es: seq<(Text, Json)>, k: Text) {
    exists i :: 0 <= i < |es| && es[i].0 == k
  }

  function Lookup(es: seq<(Text, Json)>, k: Text): (r: Json)
    requires HasKey(es, k)
    ensures exists i :: 0 <= i < |es| && es[i].0 == k && es[i].1 == r
  {
    if es[0].0 == k then es[0].1
    else
      assert HasKey(es[1..], k) by {
        var i :| 0 <= i < |es| && es[i].0 == k;
        assert es[1..][i - 1].0 == k;
      }
      var r := Lookup(es[1..], k);
      assert exists i :: 0 <= i < |es| && es[i].0 == k && es[i].1 == r by {
        var j :| 0 <= j < |es[1..]| && es[1..][j].0 == k && es[1..][j].1 == r;
        assert es[j + 1].0 == k && es[j + 1].1 == r;
      }
      r
  }

  predicate DistinctKeys(es: seq<(Text, Json)>) {
    forall i, j :: 0 <= i < j < |es| ==> es[i].0 != es[j].0
  }

  lemma LookupAt(es: seq<(Text, Json)>, i: nat)
    requires DistinctKeys(es) && i < |es|
    ensures HasKey(es, es[i].0) && Lookup(es, es[i].0) == es[i].1
  {
    assert es[i].0 == es[i].0;
  }

  /** Byte-wise lexicographic order. */
  predicate Less(a: Text, b: Text) {
    b != [] && (a == [] || a[0] < b[0] || (a[0] == b[0] && Less(a[1..], b[1..])))
  }

  lemma {:induction false} LessTotal(a: Text, b: Text)
    ensures a == b || Less(a, b) || Less(b, a)
  {
    if a != [] && b != [] && a[0] == b[0] {
      LessTotal(a[1..], b[1..]);
      if a[1..] == b[1..] {
        assert a == [a[0]] + a[1..] && b == [b[0]] + b[1..];
      }
    }
  }

  lemma {:induction false} LessTrans(a: Text, b: Text, c: Text)
    requires Less(a, b) && Less(b, c)
    ensures Less(a, c)
  {
    if a != [] && a[0] == b[0] == c[0] {
      LessTrans(a[1..], b[1..], c[1..]);
    }
  }

  lemma {:induction false} LessIrreflexive(a: Text)
    ensures !Less(a, a)
  {
    if a != [] {
      LessIrreflexive(a[1..]);
    }
  }

  predicate StrictlySorted(ks: seq<Text>) {
    forall i, j :: 0 <= i < j < |ks| ==> Less(ks[i], ks[j])
  }

  /** Insertion into a sorted sequence; the source calls the library sort. */
  function Insert(k: Text, ks: seq<Text>): (r: seq<Text>)
    ensures forall x :: x in r <==> x == k || x in ks
    ensures |r| == |ks| + 1
  {
    if ks == [] || Less(k, ks[0]) then [k] + ks else [ks[0]] + Insert(k, ks[1..])
  }

  lemma {:induction false} InsertSorted(k: Text, ks: seq<Text>)
    requires StrictlySorted(ks) && k !in ks
    ensures StrictlySorted(Insert(k, ks))
  {
    if ks != [] {
      if Less(k, ks[0]) {
        forall j | 0 < j < |ks| ensures Less(k, ks[j]) {
          LessTrans(k, ks[0], ks[j]);
        }
      } else {
        InsertSorted(k, ks[1..]);
        LessTotal(k, ks[0]);
        var r := Insert(k, ks[1..]);
        forall j | 0 <= j < |r| ensures Less(ks[0], r[j]) {
          assert r[j] in r;
        }
      }
    }
  }

  /** The keys of an object, sorted. */
  function SortedKeys(es: seq<(Text, Json)>): (ks: seq<Text>)
    ensures forall k :: k in ks <==> HasKey(es, k)
    ensures |ks| == |es|
  {
    if es == [] then []
    else
      var ks := Insert(es[0].0, SortedKeys(es[1..]));
      assert forall k :: HasKey(es, k) <==> k == es[0].0 || HasKey(es[1..], k) by {
        forall k | HasKey(es, k) && k != es[0].0 ensures HasKey(es[1..], k) {
          var i :| 0 <= i < |es| && es[i].0 == k;
          assert es[1..][i - 1].0 == k;
        }
        forall k | HasKey(es[1..], k) ensures HasKey(es, k) {
          var i :| 0 <= i < |es[1..]| && es[1..][i].0 == k;
          assert es[i + 1].0 == k;
        }
      }
      ks
  }

  lemma {:induction false} SortedKeysSorted(es: seq<(Text, Json)>)
    requires DistinctKeys(es)
    ensures StrictlySorted(SortedKeys(es))
  {
    if es != [] {
      SortedKeysSorted(es[1..]);
      InsertSorted(es[0].0, SortedKeys(es[1..]));
    }
  }

  /** A set of keys has one strictly sorted listing. */
  lemma {:induction false} SortedUnique(a: seq<Text>, b: seq<Text>)
    requires StrictlySorted(a) && StrictlySorted(b)
    requires forall k :: k in a <==> k in b
    ensures a == b
  {
    assert b == [] || b[0] in b;
    if a != [] {
      assert a[0] in a;
      assert b != [];
      if a[0] != b[0] {
        var i :| 0 <= i < |a| && a[i] == b[0];
        var j :| 0 <= j < |b| && b[j] == a[0];
        LessTrans(a[0], b[0], a[0]);
        LessIrreflexive(a[0]);
      }
      forall k | k in a[1..] ensures k in b[1..] {
        NotHead(a, k);
      }
      forall k | k in b[1..] ensures k in a[1..] {
        NotHead(b, k);
      }
      SortedUnique(a[1..], b[1..]);
      assert a == [a[0]] + a[1..] && b == [b[0]] + b[1..];
    }
  }

  lemma NotHead(a: seq<Text>, k: Text)
    requires StrictlySorted(a) && a != [] && k in a[1..]
    ensures k != a[0] && k in a
  {
    var i :| 0 <= i < |a[1..]| && a[1..][i] == k;
    assert Less(a[0], a[i + 1]);
    LessIrreflexive(a[0]);
  }

  // ------------------------------------------------- the encoding

  function EncJson(v: Json): seq<Byte>
    decreases v, 1, 0
  {
    match v
    case JNull => [0]
    case JBool(b) => [1] + [if b then 1 else 0]
    case JNumber(text) => [2] + EncText(text)
    case JString(s) => [3] + EncText(s)
    case JArray(items) => [4] + (EncWord(|items| % 0x1_0000_0000_0000_0000) + EncItems(items, v))
    case JObject(es) => [5] + (EncWord(|es| % 0x1_0000_0000_0000_0000) + EncFields(SortedKeys(es), v))
  }

  function EncItems(items: seq<Json>, v: Json): seq<Byte>
    requires forall i :: 0 <= i < |items| ==> items[i] < v
    decreases v, 0, |items|
  {
    if items == [] then [] else EncJson(items[0]) + EncItems(items[1..], v)
  }

  function EncFields(ks: seq<Text>, v: Json): seq<Byte>
    requires v.JObject? && forall k :: k in ks ==> HasKey(v.entries, k)
    decreases v, 0, |ks|
  {
    if ks == [] then []
    else EncText(ks[0]) + (EncJson(Lookup(v.entries, ks[0])) + EncFields(ks[1..], v))
  }

  /** `encode_json`. */
  method EncodeJson(e: Encoder, v: Json)
    modifies e
    ensures e.buf == old(e.buf) + EncJson(v)
    decreases v, 1
  {
    ghost var start := e.buf;
    match v {
      case JNull => e.U8(0);
      case JBool(b) =>
        e.U8(1);
        e.U8(if b then 1 else 0);
        Assoc(start, [1 as Byte], [if b then 1 else 0 as Byte]);
      case JNumber(text) =>
        e.U8(2);
        e.Str(text);
        Assoc(start, [2 as Byte], EncText(text));
      case JString(s) =>
        e.U8(3);
        e.Str(s);
        Assoc(start, [3 as Byte], EncText(s));
      case JArray(items) =>
        e.U8(4);
        e.U64(|items| % 0x1_0000_0000_0000_0000);
        EncodeItems(e, v);
        Prefixed(start, 4, EncWord(|items| % 0x1_0000_0000_0000_0000), EncItems(items, v));
      case JObject(es) =>
        e.U8(5);
        e.U64(|es| % 0x1_0000_0000_0000_0000);
        EncodeFields(e, v);
        Prefixed(start, 5, EncWord(|es| % 0x1_0000_0000_0000_0000), EncFields(SortedKeys(es), v));
    }
  }

  lemma Prefixed(start: seq<Byte>, tag: Byte, count: seq<Byte>, body: seq<Byte>)
    ensures ((start + [tag]) + count) + body == start + ([tag] + (count + body))
  {
  }

  method EncodeItems(e: Encoder, v: Json)
    requires v.JArray?
    modifies e
    ensures e.buf == old(e.buf) + EncItems(v.items, v)
    decreases v, 0
  {
    ghost var start := e.buf;
    for i := 0 to |v.items|
      invariant e.buf + EncItems(v.items[i..], v) == start + EncItems(v.items, v)
    {
      assert v.items[i..][1..] == v.items[i + 1..];
      Assoc(e.buf, EncJson(v.items[i]), EncItems(v.items[i + 1..], v));
      EncodeJson(e, v.items[i]);
    }
    assert e.buf + [] == e.buf;
  }

  method EncodeFields(e: Encoder, v: Json)
    requires v.JObject?
    modifies e
    ensures e.buf == old(e.buf) + EncFields(SortedKeys(v.entries), v)
    decreases v, 0
  {
    var keys := SortedKeys(v.entries);
    ghost var start := e.buf;
    for i := 0 to |keys|
      invariant e.buf + EncFields(keys[i..], v) == start + EncFields(keys, v)
    {
      var k := keys[i];
      var value := Lookup(v.entries, k);
      assert keys[i..][1..] == keys[i + 1..];
      ghost var rest := EncFields(keys[i + 1..], v);
      Assoc(e.buf, EncText(k), EncJson(value) + rest);
      Assoc(e.buf + EncText(k), EncJson(value), rest);
      e.Str(k);
      EncodeJson(e, value);
    }
    assert e.buf + [] == e.buf;
  }

  // ------------------------------------------------- equality up to key order

  /** Keys distinct at every level, as the parser guarantees, and lengths within their casts. */
  predicate WellFormed(v: Json)
    decreases v
  {
    match v
    case JNull => true
    case JBool(_) => true
    case JNumber(text) => Short(text)
    case JString(s) => Short(s)
    case JArray(items) =>
      |items| < 0x1_0000_0000_0000_0000 && forall i :: 0 <= i < |items| ==> WellFormed(items[i])
    case JObject(es) =>
      && |es| < 0x1_0000_0000_0000_0000 && DistinctKeys(es)
      && forall i :: 0 <= i < |es| ==> Short(es[i].0) && WellFormed(es[i].1)
  }

  /** Equal up to the order of object keys, at every level. */
  predicate SameJson(a: Json, b: Json)
    decreases a
  {
    match a
    case JArray(items) =>
      b.JArray? && |items| == |b.items| && forall i :: 0 <= i < |items| ==> SameJson(items[i], b.items[i])
    case JObject(es) =>
      && b.JObject? && |es| == |b.entries|
      && forall i :: 0 <= i < |es| ==> HasKey(b.entries, es[i].0) && SameJson(es[i].1, Lookup(b.entries, es[i].0))
    case _ => a == b
  }

  lemma WellFormedLookup(v: Json, k: Text)
    requires v.JObject? && WellFormed(v) && HasKey(v.entries, k)
    ensures Short(k) && WellFormed(Lookup(v.entries, k))
  {
    var i :| 0 <= i < |v.entries| && v.entries[i].0 == k && v.entries[i].1 == Lookup(v.entries, k);
  }

  function Tag(v: Json): Byte {
    match v
    case JNull => 0 case JBool(_) => 1 case JNumber(_) => 2 case JString(_) => 3 case JArray(_) => 4 case JObject(_) => 5
  }

  function Body(v: Json): seq<Byte> {
    match v
    case JNull => []
    case JBool(b) => [if b then 1 else 0]
    case JNumber(text) => EncText(text)
    case JString(s) => EncText(s)
    case JArray(items) => EncWord(|items| % 0x1_0000_0000_0000_0000) + EncItems(items, v)
    case JObject(es) => EncWord(|es| % 0x1_0000_0000_0000_0000) + EncFields(SortedKeys(es), v)
  }

  lemma TagFirst(v: Json, s: seq<Byte>)
    ensures EncJson(v) + s == [Tag(v)] + (Body(v) + s)
  {
    assert EncJson(v) == [Tag(v)] + Body(v);
    Assoc([Tag(v)], Body(v), s);
  }

  /** Equal bytes, followed by anything, come only from values equal up to key order. */
  lemma {:induction false} ReadJson(a: Json, b: Json, s: seq<Byte>, t: seq<Byte>)
    requires WellFormed(a) && WellFormed(b) && EncJson(a) + s == EncJson(b) + t
    ensures SameJson(a, b) && s == t
    decreases a, 1, 0
  {
    TagFirst(a, s);
    TagFirst(b, t);
    ReadByte(Tag(a), Tag(b), Body(a) + s, Body(b) + t);
    match a {
      case JNull =>
        assert [] + s == s && [] + t == t;
      case JBool(x) =>
        ReadByte(if x then 1 else 0, if b.b then 1 else 0, s, t);
      case JNumber(text) =>
        ReadText(text, b.text, s, t);
      case JString(x) =>
        ReadText(x, b.s, s, t);
      case JArray(items) =>
        ReadCounted(|items|, |b.items|, EncItems(items, a), EncItems(b.items, b), s, t);
        ReadItems(items, a, b.items, b, s, t);
      case JObject(es) =>
        var ka, kb := SortedKeys(es), SortedKeys(b.entries);
        ReadCounted(|es|, |b.entries|, EncFields(ka, a), EncFields(kb, b), s, t);
        ReadFields(ka, a, kb, b, s, t);
        forall i | 0 <= i < |es|
          ensures HasKey(b.entries, es[i].0) && SameJson(es[i].1, Lookup(b.entries, es[i].0))
        {
          LookupAt(es, i);
          assert es[i].0 in ka;
        }
    }
  }

  lemma ReadCounted(m: nat, n: nat, x: seq<Byte>, y: seq<Byte>, s: seq<Byte>, t: seq<Byte>)
    requires m < 0x1_0000_0000_0000_0000 && n < 0x1_0000_0000_0000_0000
    requires (EncWord(m % 0x1_0000_0000_0000_0000) + x) + s == (EncWord(n % 0x1_0000_0000_0000_0000) + y) + t
    ensures m == n && x + s == y + t
  {
    SmallMod(m, 0x1_0000_0000_0000_0000);
    SmallMod(n, 0x1_0000_0000_0000_0000);
    Assoc(EncWord(m), x, s);
    Assoc(EncWord(n), y, t);
    ReadWord(m, n, x + s, y + t);
  }

  lemma {:induction false} ReadItems(x: seq<Json>, a: Json, y: seq<Json>, b: Json, s: seq<Byte>, t: seq<Byte>)
    requires |x| == |y|
    requires forall i :: 0 <= i < |x| ==> x[i] < a && WellFormed(x[i])
    requires forall i :: 0 <= i < |y| ==> y[i] < b && WellFormed(y[i])
    requires EncItems(x, a) + s == EncItems(y, b) + t
    ensures (forall i :: 0 <= i < |x| ==> SameJson(x[i], y[i])) && s == t
    decreases a, 0, |x|
  {
    if x == [] {
      assert [] + s == s && [] + t == t;
    } else {
      var tx, ty := EncItems(x[1..], a), EncItems(y[1..], b);
      Assoc(EncJson(x[0]), tx, s);
      Assoc(EncJson(y[0]), ty, t);
      ReadJson(x[0], y[0], tx + s, ty + t);
      ReadItems(x[1..], a, y[1..], b, s, t);
      forall i | 0 <= i < |x| ensures SameJson(x[i], y[i]) {
        if i > 0 {
          assert SameJson(x[1..][i - 1], y[1..][i - 1]);
        }
      }
    }
  }

  lemma {:induction false} ReadFields(ka: seq<Text>, a: Json, kb: seq<Text>, b: Json, s: seq<Byte>, t: seq<Byte>)
    requires |ka| == |kb| && a.JObject? && b.JObject? && WellFormed(a) && WellFormed(b)
    requires forall k :: k in ka ==> HasKey(a.entries, k)
    requires forall k :: k in kb ==> HasKey(b.entries, k)
    requires EncFields(ka, a) + s == EncFields(kb, b) + t
    ensures ka == kb && s == t
    ensures forall k :: k in ka ==> SameJson(Lookup(a.entries, k), Lookup(b.entries, k))
    decreases a, 0, |ka|
  {
    if ka == [] {
      assert [] + s == s && [] + t == t;
    } else {
      var va, vb := Lookup(a.entries, ka[0]), Lookup(b.entries, kb[0]);
      var ta, tb := EncFields(ka[1..], a), EncFields(kb[1..], b);
      Field(ka[0], va, ta, s);
      Field(kb[0], vb, tb, t);
      WellFormedLookup(a, ka[0]);
      WellFormedLookup(b, kb[0]);
      ReadText(ka[0], kb[0], EncJson(va) + (ta + s), EncJson(vb) + (tb + t));
      ReadJson(va, vb, ta + s, tb + t);
      ReadFields(ka[1..], a, kb[1..], b, s, t);
      assert ka == [ka[0]] + ka[1..] && kb == [kb[0]] + kb[1..];
    }
  }

  lemma Field(k: Text, v: Json, rest: seq<Byte>, s: seq<Byte>)
    ensures (EncText(k) + (EncJson(v) + rest)) + s == EncText(k) + (EncJson(v) + (rest + s))
  {
  }

  /** Values equal up to key order are written as the same bytes. */
  lemma {:induction false} SameJsonSameBytes(a: Json, b: Json)
    requires WellFormed(a) && WellFormed(b) && SameJson(a, b)
    ensures EncJson(a) == EncJson(b)
    decreases a, 1, 0
  {
    match a {
      case JArray(items) =>
        SameItems(items, a, b.items, b);
      case JObject(es) =>
        SameKeys(a, b);
        SortedKeysSorted(es);
        SortedKeysSorted(b.entries);
        SortedUnique(SortedKeys(es), SortedKeys(b.entries));
        SameFields(SortedKeys(es), a, b);
      case _ =>
    }
  }

  lemma {:induction false} SameItems(x: seq<Json>, a: Json, y: seq<Json>, b: Json)
    requires |x| == |y|
    requires forall i :: 0 <= i < |x| ==> x[i] < a && WellFormed(x[i]) && y[i] < b && WellFormed(y[i]) && SameJson(x[i], y[i])
    ensures EncItems(x, a) == EncItems(y, b)
    decreases a, 0, |x|
  {
    if x != [] {
      SameJsonSameBytes(x[0], y[0]);
      SameItems(x[1..], a, y[1..], b);
    }
  }

  /** Distinct keys and one inclusion with equal counts give the same key set. */
  lemma SameKeys(a: Json, b: Json)
    requires a.JObject? && b.JObject? && WellFormed(a) && WellFormed(b) && SameJson(a, b)
    ensures forall k :: k in SortedKeys(a.entries) <==> k in SortedKeys(b.entries)
  {
    var sa, sb := KeySet(a.entries), KeySet(b.entries);
    assert sa <= sb;
    KeyCount(a.entries);
    KeyCount(b.entries);
    assert |sb - sa| == 0;
    assert sa == sb;
    forall k ensures HasKey(a.entries, k) <==> HasKey(b.entries, k) {
      assert HasKey(a.entries, k) <==> k in sa;
      assert HasKey(b.entries, k) <==> k in sb;
    }
  }

  function KeySet(es: seq<(Text, Json)>): (s: set<Text>)
    ensures forall k :: k in s <==> HasKey(es, k)
  {
    set i | 0 <= i < |es| :: es[i].0
  }

  lemma {:induction false} KeyCount(es: seq<(Text, Json)>)
    requires DistinctKeys(es)
    ensures |KeySet(es)| == |es|
  {
    if es != [] {
      var n := |es| - 1;
      KeyCount(es[..n]);
      assert !HasKey(es[..n], es[n].0);
      assert KeySet(es) == KeySet(es[..n]) + {es[n].0};
    }
  }

  lemma {:induction false} SameFields(ks: seq<Text>, a: Json, b: Json)
    requires a.JObject? && b.JObject? && WellFormed(a) && WellFormed(b) && SameJson(a, b)
    requires forall k :: k in ks ==> HasKey(a.entries, k) && HasKey(b.entries, k)
    ensures EncFields(ks, a) == EncFields(ks, b)
    decreases a, 0, |ks|
  {
    if ks != [] {
      var k := ks[0];
      assert k in ks;
      var va := Lookup(a.entries, k);
      var i :| 0 <= i < |a.entries| && a.entries[i].0 == k && a.entries[i].1 == va;
      WellFormedLookup(b, k);
      SameJsonSameBytes(Lookup(a.entries, k), Lookup(b.entries, k));
      SameFields(ks[1..], a, b);
    }
  }

  /** `encode_json` separates exactly the values that differ by more than key order. */
  lemma EncodingDecidesSameJson(a: Json, b: Json)
    requires WellFormed(a) && WellFormed(b)
    ensures EncJson(a) == EncJson(b) <==> SameJson(a, b)
  {
    if EncJson(a) == EncJson(b) {
      ReadJson(a, b, [], []);
    } else if SameJson(a, b) {
      SameJsonSameBytes(a, b);
    }
  }
}
