/** Bytes, machine integers and big-endian strings. */
module Bytes {
  import opened NumberTheory

  type Byte = x: int | 0 <= x < 256
  type Text = seq<Byte>

  type Word = x: int | 0 <= x < 0x1_0000_0000_0000_0000
  type SignedWord = x: int | -0x8000_0000_0000_0000 <= x < 0x8000_0000_0000_0000

  datatype Option<+T> = None | Some(value: T)
  datatype Result<+T, +E> = Ok(value: T) | Err(error: E)

  /** The number a big-endian byte string stands for. */
  function BigEndian(b: seq<Byte>): (n: nat) {
    if b == [] then 0 else BigEndian(b[..|b| - 1]) * 256 + b[|b| - 1] as int
  }

  /** The k low-order bytes of n, most significant first. */
  function ToBytes(n: nat, k: nat): (b: seq<Byte>)
    ensures |b| == k
  {
    if k == 0 then [] else ToBytes(n / 256, k - 1) + [n % 256]
  }

  lemma {:induction false} ToBytesReads(n: nat, k: nat)
    requires n < Pow(256, k)
    ensures BigEndian(ToBytes(n, k)) == n
  {
    if k > 0 {
      ToBytesReads(n / 256, k - 1);
      var b := ToBytes(n, k);
      assert b[..k - 1] == ToBytes(n / 256, k - 1);
    }
  }

  lemma ToBytesInjective(n: nat, m: nat, k: nat)
    requires n < Pow(256, k) && m < Pow(256, k) && ToBytes(n, k) == ToBytes(m, k)
    ensures n == m
  {
    ToBytesReads(n, k);
    ToBytesReads(m, k);
  }

  lemma Widths(four: nat, eight: nat)
    requires four == 4 && eight == 8
    ensures Pow(256, four) == 0x1_0000_0000 && Pow(256, eight) == 0x1_0000_0000_0000_0000
  {
    assert Pow(256, 0) == 1 && Pow(256, 1) == 256 * Pow(256, 0) && Pow(256, 2) == 256 * Pow(256, 1);
    PowAdd(256, 2, 2);
    PowAdd(256, 4, 4);
  }

  /** Equal strings with heads of equal length have equal heads and equal tails. */
  lemma SplitEqual<T>(a: seq<T>, b: seq<T>, s: seq<T>, t: seq<T>)
    requires |a| == |b| && a + s == b + t
    ensures a == b && s == t
  {
    assert a == (a + s)[..|a|] && b == (b + t)[..|b|];
    assert s == (a + s)[|a|..] && t == (b + t)[|b|..];
  }

  lemma Assoc<T>(a: seq<T>, b: seq<T>, c: seq<T>)
    ensures (a + b) + c == a + (b + c)
  {
  }

  // Appending several pieces one after the other appends their concatenation.

  lemma Cat3<T>(s: seq<T>, a: seq<T>, b: seq<T>, c: seq<T>)
    ensures ((s + a) + b) + c == s + (a + (b + c))
  {
    Assoc(s + a, b, c);
    Assoc(s, a, (b + c));
  }

  lemma Cat4<T>(s: seq<T>, a: seq<T>, b: seq<T>, c: seq<T>, d: seq<T>)
    ensures (((s + a) + b) + c) + d == s + (a + (b + (c + d)))
  {
    Cat3(s + a, b, c, d);
    Assoc(s, a, (b + (c + d)));
  }

  lemma Cat5<T>(s: seq<T>, a: seq<T>, b: seq<T>, c: seq<T>, d: seq<T>, e: seq<T>)
    ensures ((((s + a) + b) + c) + d) + e == s + (a + (b + (c + (d + e))))
  {
    Cat4(s + a, b, c, d, e);
    Assoc(s, a, (b + (c + (d + e))));
  }

  lemma Cat6<T>(s: seq<T>, a: seq<T>, b: seq<T>, c: seq<T>, d: seq<T>, e: seq<T>, f: seq<T>)
    ensures (((((s + a) + b) + c) + d) + e) + f == s + (a + (b + (c + (d + (e + f)))))
  {
    Cat5(s + a, b, c, d, e, f);
    Assoc(s, a, (b + (c + (d + (e + f)))));
  }

  lemma Cat7<T>(s: seq<T>, a: seq<T>, b: seq<T>, c: seq<T>, d: seq<T>, e: seq<T>, f: seq<T>, g: seq<T>)
    ensures ((((((s + a) + b) + c) + d) + e) + f) + g == s + (a + (b + (c + (d + (e + (f + g))))))
  {
    Cat6(s + a, b, c, d, e, f, g);
    Assoc(s, a, (b + (c + (d + (e + (f + g))))));
  }

  /** The bytes of a one-byte-per-character literal. */
  function Ascii(s: string): (t: Text)
    ensures |t| == |s|
    ensures forall i :: 0 <= i < |s| && s[i] < '\U{80}' ==> t[i] == s[i] as int
  {
    seq(|s|, i requires 0 <= i < |s| => if s[i] < '\U{80}' then s[i] as int else 63)
  }
}
