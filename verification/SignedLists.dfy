/** Counted lists in signed bytes, and sorting by a text key.

    A list is written as its count and its items. It can be read back in one way
    when each item can, whatever follows. Sorting by a key that no two items
    share makes the bytes independent of the order the items came in; with
    repeated keys the order within a key still shows. The three kinds of signed
    bundle are built on both facts. */
module SignedLists {
  import opened Bytes
  import opened Canonical
  import opened Json

  predicate ReadAt<T(==)>(enc: T -> seq<Byte>, x: T, y: T, s: seq<Byte>, t: seq<Byte>) {
    enc(x) + s == enc(y) + t ==> x == y && s == t
  }

  /** Two values encoded at the head of equal buffers are equal, and so is what follows. */
  ghost predicate Reads<T>(enc: T -> seq<Byte>, x: T, y: T) {
    forall s, t :: ReadAt(enc, x, y, s, t)
  }

  function EncList<T>(enc: T -> seq<Byte>, xs: seq<T>): seq<Byte> {
    if xs == [] then [] else enc(xs[0]) + EncList(enc, xs[1..])
  }

  /** The count, then the items. */
  function EncCounted<T>(enc: T -> seq<Byte>, xs: seq<T>): seq<Byte> {
    EncWord(|xs| % 0x1_0000_0000_0000_0000) + EncList(enc, xs)
  }

  predicate Countable<T>(xs: seq<T>) {
    |xs| < 0x1_0000_0000_0000_0000
  }

  lemma {:induction false} ReadList<T>(enc: T -> seq<Byte>, a: seq<T>, b: seq<T>, s: seq<Byte>, t: seq<Byte>)
    requires |a| == |b| && forall x, y :: x in a && y in b ==> Reads(enc, x, y)
    requires EncList(enc, a) + s == EncList(enc, b) + t
    ensures a == b && s == t
  {
    if a == [] {
      assert [] + s == s && [] + t == t;
    } else {
      assert Reads(enc, a[0], b[0]);
      Assoc(enc(a[0]), EncList(enc, a[1..]), s);
      Assoc(enc(b[0]), EncList(enc, b[1..]), t);
      assert ReadAt(enc, a[0], b[0], EncList(enc, a[1..]) + s, EncList(enc, b[1..]) + t);
      ReadList(enc, a[1..], b[1..], s, t);
      assert a == [a[0]] + a[1..] && b == [b[0]] + b[1..];
    }
  }

  /** Writing one more item of a list. */
  lemma ListStep<T>(enc: T -> seq<Byte>, xs: seq<T>, i: nat, buf: seq<Byte>)
    requires i < |xs|
    ensures buf + EncList(enc, xs[i..]) == (buf + enc(xs[i])) + EncList(enc, xs[i + 1..])
  {
    assert xs[i..][1..] == xs[i + 1..];
    Assoc(buf, enc(xs[i]), EncList(enc, xs[i + 1..]));
  }

  lemma CountKept<T>(a: seq<T>)
    requires Countable(a)
    ensures |a| % 0x1_0000_0000_0000_0000 == |a|
  {
  }

  lemma PeelCounted<T>(enc: T -> seq<Byte>, a: seq<T>, b: seq<T>, x: seq<Byte>, y: seq<Byte>, s: seq<Byte>, t: seq<Byte>)
    requires Countable(a) && Countable(b) && forall p, q :: p in a && q in b ==> Reads(enc, p, q)
    requires (EncCounted(enc, a) + x) + s == (EncCounted(enc, b) + y) + t
    ensures a == b && x + s == y + t
  {
    CountKept(a);
    CountKept(b);
    Cat3([], EncWord(|a|), EncList(enc, a), x + s);
    Cat3([], EncWord(|b|), EncList(enc, b), y + t);
    Assoc(EncWord(|a|) + EncList(enc, a), x, s);
    Assoc(EncWord(|b|) + EncList(enc, b), y, t);
    Assoc(EncWord(|a|), EncList(enc, a), x + s);
    Assoc(EncWord(|b|), EncList(enc, b), y + t);
    ReadWord(|a|, |b|, EncList(enc, a) + (x + s), EncList(enc, b) + (y + t));
    ReadList(enc, a, b, x + s, y + t);
  }

  lemma ReadCounted<T>(enc: T -> seq<Byte>, a: seq<T>, b: seq<T>, s: seq<Byte>, t: seq<Byte>)
    requires Countable(a) && Countable(b) && forall p, q :: p in a && q in b ==> Reads(enc, p, q)
    requires EncCounted(enc, a) + s == EncCounted(enc, b) + t
    ensures a == b && s == t
  {
    assert (EncCounted(enc, a) + s) + [] == (EncCounted(enc, b) + t) + [];
    PeelCounted(enc, a, b, s, t, [], []);
    assert s + [] == s && t + [] == t;
  }

  // ------------------------------------------------- sorting

  function InsertBy<T>(key: T -> Text, x: T, ys: seq<T>): (r: seq<T>)
    ensures multiset(r) == multiset(ys) + multiset{x}
  {
    if ys == [] || !Less(key(ys[0]), key(x)) then
      assert [x] + ys == [x] + ys; [x] + ys
    else
      assert ys == [ys[0]] + ys[1..]; [ys[0]] + InsertBy(key, x, ys[1..])
  }

  /** The library's stable sort. */
  function SortBy<T>(key: T -> Text, xs: seq<T>): (r: seq<T>)
    ensures multiset(r) == multiset(xs)
  {
    if xs == [] then [] else
      assert xs == [xs[0]] + xs[1..]; InsertBy(key, xs[0], SortBy(key, xs[1..]))
  }

  predicate SortedBy<T>(key: T -> Text, xs: seq<T>) {
    forall i, j :: 0 <= i < j < |xs| ==> !Less(key(xs[j]), key(xs[i]))
  }

  predicate DistinctBy<T>(key: T -> Text, xs: seq<T>) {
    forall i, j :: 0 <= i < |xs| && 0 <= j < |xs| && i != j ==> key(xs[i]) != key(xs[j])
  }

  lemma Below<T>(key: T -> Text, x: T, y: T, z: T)
    requires !Less(key(y), key(x)) && !Less(key(z), key(y))
    ensures !Less(key(z), key(x))
  {
    LessTotal(key(x), key(y));
    if Less(key(z), key(x)) && Less(key(x), key(y)) {
      LessTrans(key(z), key(x), key(y));
    }
  }

  lemma {:induction false} InsertSorts<T>(key: T -> Text, x: T, ys: seq<T>)
    requires SortedBy(key, ys)
    ensures SortedBy(key, InsertBy(key, x, ys))
  {
    var r := InsertBy(key, x, ys);
    if ys == [] {
    } else if !Less(key(ys[0]), key(x)) {
      forall j | 0 <= j < |ys| ensures !Less(key(ys[j]), key(x)) {
        if j > 0 {
          Below(key, x, ys[0], ys[j]);
        }
      }
    } else {
      InsertSorts(key, x, ys[1..]);
      LessIrreflexive(key(x));
      var rest := InsertBy(key, x, ys[1..]);
      forall j | 0 <= j < |rest| ensures !Less(key(rest[j]), key(ys[0])) {
        assert rest[j] in multiset(rest);
        if rest[j] == x {
          if Less(key(x), key(ys[0])) {
            LessTrans(key(x), key(ys[0]), key(x));
          }
        } else {
          assert rest[j] in multiset(ys[1..]);
          assert rest[j] in ys[1..];
        }
      }
    }
  }

  lemma {:induction false} SortSorts<T>(key: T -> Text, xs: seq<T>)
    ensures SortedBy(key, SortBy(key, xs))
  {
    if xs != [] {
      SortSorts(key, xs[1..]);
      InsertSorts(key, xs[0], SortBy(key, xs[1..]));
    }
  }

  lemma SameMembers<T>(a: seq<T>, b: seq<T>, x: T)
    requires multiset(a) == multiset(b) && x in a
    ensures x in b
  {
    assert x in multiset(a);
  }

  /** Two sorted lists of the same contents begin alike, if equal keys mean equal items. */
  lemma HeadsEqual<T>(key: T -> Text, a: seq<T>, b: seq<T>)
    requires SortedBy(key, a) && SortedBy(key, b) && multiset(a) == multiset(b) && a != [] && b != []
    requires forall x, y :: x in a && y in a && key(x) == key(y) ==> x == y
    ensures a[0] == b[0]
  {
    SameMembers(a, b, a[0]);
    SameMembers(b, a, b[0]);
    var i :| 0 <= i < |b| && b[i] == a[0];
    var j :| 0 <= j < |a| && a[j] == b[0];
    LessTotal(key(a[0]), key(b[0]));
  }

  lemma TailContents<T>(a: seq<T>)
    requires a != []
    ensures multiset(a) == multiset{a[0]} + multiset(a[1..])
  {
    assert a == [a[0]] + a[1..];
  }

  /** A sorted list without repeated keys is determined by its contents. */
  lemma {:induction false} SortedDetermined<T>(key: T -> Text, a: seq<T>, b: seq<T>)
    requires SortedBy(key, a) && SortedBy(key, b) && multiset(a) == multiset(b)
    requires forall x, y :: x in a && y in a && key(x) == key(y) ==> x == y
    ensures a == b
    decreases |a|
  {
    assert |multiset(a)| == |a| && |multiset(b)| == |b|;
    if a != [] {
      HeadsEqual(key, a, b);
      TailContents(a);
      TailContents(b);
      assert multiset(a[1..]) == multiset(a) - multiset{a[0]} == multiset(b[1..]);
      SortedDetermined(key, a[1..], b[1..]);
    }
  }

  lemma DistinctMeans<T>(key: T -> Text, xs: seq<T>, x: T, y: T)
    requires DistinctBy(key, xs) && x in xs && y in xs && key(x) == key(y)
    ensures x == y
  {
    var i :| 0 <= i < |xs| && xs[i] == x;
    var j :| 0 <= j < |xs| && xs[j] == y;
  }

  /** Sorting forgets the order and nothing else, when no key is repeated. */
  lemma SortForgetsOrder<T>(key: T -> Text, a: seq<T>, b: seq<T>)
    requires DistinctBy(key, a)
    ensures SortBy(key, a) == SortBy(key, b) <==> multiset(a) == multiset(b)
  {
    if multiset(a) == multiset(b) {
      SortSorts(key, a);
      SortSorts(key, b);
      var sa := SortBy(key, a);
      forall x, y | x in sa && y in sa && key(x) == key(y) ensures x == y {
        SameMembers(sa, a, x);
        SameMembers(sa, a, y);
        DistinctMeans(key, a, x, y);
      }
      SortedDetermined(key, sa, SortBy(key, b));
    } else {
      assert multiset(SortBy(key, a)) != multiset(SortBy(key, b));
    }
  }
}
