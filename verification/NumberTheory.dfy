/** Congruences, powers and the two facts about prime moduli that the
    signature check rests on: no zero divisors, and Fermat's little theorem.

    Congruence is divisibility of the difference, so that most steps are exact
    integer identities. The theorem is proved by comparing the product of all
    nonzero residues with the product of their multiples by a. */
module NumberTheory {

  predicate CongBy(x: int, y: int, m: int, q: int) {
    x == y + q * m
  }

  /** x and y are congruent modulo m. */
  ghost predicate Cong(x: int, y: int, m: int) {
    exists q :: CongBy(x, y, m, q)
  }

  lemma CongRefl(x: int, m: int)
    ensures Cong(x, x, m)
  {
    assert CongBy(x, x, m, 0);
  }

  lemma CongSym(x: int, y: int, m: int)
    requires Cong(x, y, m)
    ensures Cong(y, x, m)
  {
    var q :| CongBy(x, y, m, q);
    assert CongBy(y, x, m, -q);
  }

  lemma CongTrans(x: int, y: int, z: int, m: int)
    requires Cong(x, y, m) && Cong(y, z, m)
    ensures Cong(x, z, m)
  {
    var q :| CongBy(x, y, m, q);
    var r :| CongBy(y, z, m, r);
    assert q * m + r * m == (q + r) * m;
    assert CongBy(x, z, m, q + r);
  }

  lemma CongAdd(x: int, x': int, y: int, y': int, m: int)
    requires Cong(x, x', m) && Cong(y, y', m)
    ensures Cong(x + y, x' + y', m)
    ensures Cong(x - y, x' - y', m)
  {
    var q :| CongBy(x, x', m, q);
    var r :| CongBy(y, y', m, r);
    assert (q + r) * m == q * m + r * m && (q - r) * m == q * m - r * m;
    assert CongBy(x + y, x' + y', m, q + r);
    assert CongBy(x - y, x' - y', m, q - r);
  }

  lemma CongMul(x: int, x': int, y: int, y': int, m: int)
    requires Cong(x, x', m) && Cong(y, y', m)
    ensures Cong(x * y, x' * y', m)
  {
    var q :| CongBy(x, x', m, q);
    var r :| CongBy(y, y', m, r);
    var k := q * y' + r * x' + q * (r * m);
    calc {
      x * y;
      (x' + q * m) * (y' + r * m);
      x' * y' + (q * m) * y' + x' * (r * m) + (q * m) * (r * m);
      { assert (q * m) * y' == (q * y') * m; assert x' * (r * m) == (r * x') * m;
        assert (q * m) * (r * m) == (q * (r * m)) * m; }
      x' * y' + (q * y') * m + (r * x') * m + (q * (r * m)) * m;
      x' * y' + k * m;
    }
    assert CongBy(x * y, x' * y', m, k);
  }

  lemma CongMod(x: int, m: int)
    requires m > 0
    ensures Cong(x % m, x, m)
    ensures Cong(x, x % m, m)
  {
    assert x == x / m * m + x % m;
    assert CongBy(x, x % m, m, x / m);
    CongSym(x, x % m, m);
  }

  lemma MulAtLeast(q: int, m: int)
    requires q >= 1 && m > 0
    ensures q * m >= m
  {
    assert (q - 1) * m >= 0;
  }

  lemma MultipleBelow(q: int, m: int)
    requires m > 0 && -m < q * m < m
    ensures q == 0
  {
    if q >= 1 {
      MulAtLeast(q, m);
    } else if q <= -1 {
      MulAtLeast(-q, m);
    }
  }

  /** Canonical residues that are congruent are equal. */
  lemma CongResidues(x: int, y: int, m: int)
    requires Cong(x, y, m) && 0 <= x < m && 0 <= y < m
    ensures x == y
  {
    var q :| CongBy(x, y, m, q);
    MultipleBelow(q, m);
  }

  lemma CongIffMod(x: int, y: int, m: int)
    requires m > 0
    ensures Cong(x, y, m) <==> x % m == y % m
  {
    CongMod(x, m);
    CongMod(y, m);
    if Cong(x, y, m) {
      CongTrans(x % m, x, y, m);
      CongTrans(x % m, y, y % m, m);
      CongResidues(x % m, y % m, m);
    } else if x % m == y % m {
      CongTrans(x, x % m, y, m);
    }
  }

  /** A multiple of m is congruent to zero, and only those are. */
  lemma CongZero(x: int, m: int)
    requires m > 0
    ensures Cong(x, 0, m) <==> x % m == 0
  {
    CongIffMod(x, 0, m);
    assert 0 % m == 0;
  }

  // ------------------------------------------------------------- residue arithmetic

  function AddMod(x: int, y: int, m: int): int
    requires m > 0
  {
    (x + y) % m
  }

  function SubMod(x: int, y: int, m: int): int
    requires m > 0
  {
    (x - y) % m
  }

  function MulMod(x: int, y: int, m: int): int
    requires m > 0
  {
    (x * y) % m
  }

  /** Reduced operations agree with the plain ones up to congruence. */
  lemma CongAddMod(x: int, x': int, y: int, y': int, m: int)
    requires m > 0 && Cong(x, x', m) && Cong(y, y', m)
    ensures Cong(AddMod(x, y, m), x' + y', m)
    ensures Cong(SubMod(x, y, m), x' - y', m)
  {
    CongAdd(x, x', y, y', m);
    CongMod(x + y, m);
    CongMod(x - y, m);
    CongTrans(AddMod(x, y, m), x + y, x' + y', m);
    CongTrans(SubMod(x, y, m), x - y, x' - y', m);
  }

  lemma CongMulMod(x: int, x': int, y: int, y': int, m: int)
    requires m > 0 && Cong(x, x', m) && Cong(y, y', m)
    ensures Cong(MulMod(x, y, m), x' * y', m)
  {
    CongMul(x, x', y, y', m);
    CongMod(x * y, m);
    CongTrans(MulMod(x, y, m), x * y, x' * y', m);
  }

  // ------------------------------------------------------------- powers

  function Pow(x: int, e: nat): (r: int) {
    if e == 0 then 1 else x * Pow(x, e - 1)
  }

  lemma {:induction false} PowAdd(x: int, e: nat, f: nat)
    ensures Pow(x, e + f) == Pow(x, e) * Pow(x, f)
  {
    if e > 0 {
      PowAdd(x, e - 1, f);
      assert Pow(x, e + f) == x * (Pow(x, e - 1) * Pow(x, f));
      assert x * (Pow(x, e - 1) * Pow(x, f)) == (x * Pow(x, e - 1)) * Pow(x, f);
    }
  }

  lemma {:induction false} PowCong(x: int, y: int, e: nat, m: int)
    requires Cong(x, y, m)
    ensures Cong(Pow(x, e), Pow(y, e), m)
  {
    if e == 0 {
      CongRefl(1, m);
    } else {
      PowCong(x, y, e - 1, m);
      CongMul(x, y, Pow(x, e - 1), Pow(y, e - 1), m);
    }
  }

  lemma Shuffle(x: int, y: int, a: int, b: int)
    ensures (x * y) * (a * b) == (x * a) * (y * b)
  {
    assert (x * y) * (a * b) == x * (y * (a * b));
    assert y * (a * b) == a * (y * b);
  }

  lemma {:induction false} PowProduct(x: int, y: int, e: nat)
    ensures Pow(x * y, e) == Pow(x, e) * Pow(y, e)
  {
    if e > 0 {
      PowProduct(x, y, e - 1);
      Shuffle(x, y, Pow(x, e - 1), Pow(y, e - 1));
    }
  }

  lemma {:induction false} PowOne(e: nat)
    ensures Pow(1, e) == 1
  {
    if e > 0 {
      PowOne(e - 1);
    }
  }

  lemma {:induction false} PowPositive(x: int, e: nat)
    requires x > 0
    ensures Pow(x, e) > 0
  {
    if e > 0 {
      PowPositive(x, e - 1);
      assert x * Pow(x, e - 1) > 0;
    }
  }

  /** A canonical residue congruent to y is y reduced. */
  lemma CongReduced(x: int, y: int, m: int)
    requires 0 <= x < m && Cong(x, y, m)
    ensures x == y % m
  {
    CongIffMod(x, y, m);
    SmallMod(x, m);
  }

  /** A congruence modulo a multiple. */
  lemma CongWeaken(x: int, y: int, m: int, k: int)
    requires Cong(x, y, m * k)
    ensures Cong(x, y, m)
  {
    var q :| CongBy(x, y, m * k, q);
    assert q * (m * k) == (q * k) * m;
    assert CongBy(x, y, m, q * k);
  }

  /** Multiplying a congruence by the inverse of a factor of its left side. */
  lemma DivideBy(x: int, y: int, r: int, k: int, m: int)
    requires Cong(r * k, 1, m) && Cong(x * r, y, m)
    ensures Cong(x, y * k, m)
  {
    CongRefl(k, m);
    CongMul(x * r, y, k, k, m);
    CongRefl(x, m);
    CongMul(x, x, r * k, 1, m);
    assert (x * r) * k == x * (r * k);
    CongSym(x * (r * k), x * 1, m);
    CongTrans(x, (x * r) * k, y * k, m);
  }

  /** Modulo an odd m the half of m + 1 inverts two. */
  lemma InverseOfPowerOfTwo(e: nat, m: int)
    requires m > 1 && m % 2 == 1
    ensures Cong(Pow(2, e) * (Pow((m + 1) / 2, e) % m), 1, m)
  {
    var half, x := (m + 1) / 2, Pow(2, e);
    assert CongBy(2 * half, 1, m, 1);
    PowCong(2 * half, 1, e, m);
    PowOne(e);
    PowProduct(2, half, e);
    CongMod(Pow(half, e), m);
    CongRefl(x, m);
    CongMul(x, x, Pow(half, e) % m, Pow(half, e), m);
    CongTrans(x * (Pow(half, e) % m), x * Pow(half, e), 1, m);
  }

  lemma PowersOfTwo()
    ensures Pow(2, 64) == 0x1_0000_0000_0000_0000
    ensures Pow(2, 256) == 0x1_0000000000000000_0000000000000000_0000000000000000_0000000000000000
  {
    assert Pow(2, 0) == 1 && Pow(2, 1) == 2 * Pow(2, 0) && Pow(2, 2) == 2 * Pow(2, 1);
    PowAdd(2, 2, 2);
    PowAdd(2, 4, 4);
    PowAdd(2, 8, 8);
    PowAdd(2, 16, 16);
    PowAdd(2, 32, 32);
    PowAdd(2, 64, 64);
    PowAdd(2, 128, 128);
  }

  // ------------------------------------------------------------- division

  lemma DivUnique(x: int, d: int, q: int)
    requires d > 0 && q * d <= x < q * d + d
    ensures x / d == q
  {
    var r := x - q * d;
    assert CongBy(x, r, d, q);
    CongReduced(r, x, d) by {
      CongSym(x, r, d);
    }
    assert x == x / d * d + x % d;
    assert (x / d - q) * d == 0;
    MultipleBelow(x / d - q, d);
  }

  lemma DivNonneg(x: nat, d: int)
    requires d > 0
    ensures x / d >= 0
  {
    var q := x / d;
    assert x == q * d + x % d;
    if q < 0 {
      MulAtLeast(-q, d);
    }
  }

  lemma NonNegProduct(x: int, y: int)
    requires x >= 0 && y >= 0
    ensures x * y >= 0
  {
  }

  lemma GapProduct(r: int, a: int, b: int)
    ensures (b - 1 - r) * a == a * b - a - r * a
  {
  }

  /** A two-digit remainder is below the product of the digits' bases. */
  lemma RemainderBound(r: int, s: int, a: int, b: int)
    requires 0 <= r < b && 0 <= s < a
    ensures 0 <= r * a + s < a * b && a * b > 0
  {
    GapProduct(r, a, b);
    NonNegProduct(b - 1 - r, a);
    NonNegProduct(r, a);
  }

  lemma DivTwice(x: nat, a: int, b: int)
    requires a > 0 && b > 0
    ensures a * b > 0 && x / (a * b) == x / a / b
  {
    var y := x / a;
    var q, r, s := y / b, y % b, x % a;
    DivNonneg(x, a);
    assert x == y * a + s;
    assert y == q * b + r;
    RemainderBound(r, s, a, b);
    assert (q * b + r) * a == q * (a * b) + r * a;
    DivUnique(x, a * b, q);
  }

  /** Adding a multiple of the divisor. */
  lemma DivAddMultiple(x: nat, k: int, d: int)
    requires d > 0
    ensures (x + k * d) / d == x / d + k
  {
    assert x == x / d * d + x % d;
    assert (x / d + k) * d == x / d * d + k * d;
    DivUnique(x + k * d, d, x / d + k);
  }

  // ------------------------------------------------------------- primes

  /** No proper divisor. */
  ghost predicate IsPrime(p: int) {
    p > 1 && forall d :: 1 < d < p ==> p % d != 0
  }

  lemma DividesCombination(x: int, k: int, d: int, b: int, p: int)
    requires p > 0 && (x * b) % p == 0 && (d * b) % p == 0
    ensures ((x - k * d) * b) % p == 0
  {
    CongZero(x * b, p);
    CongZero(d * b, p);
    CongRefl(k, p);
    CongMul(k, k, d * b, 0, p);
    CongAdd(x * b, 0, k * (d * b), k * 0, p);
    assert x * b - k * (d * b) == (x - k * d) * b;
    CongZero((x - k * d) * b, p);
  }

  /** The least positive d with p | d b divides every x with p | x b. */
  lemma LeastDividesAll(x: int, d: int, b: int, p: int)
    requires p > 0 && d > 0 && (x * b) % p == 0 && (d * b) % p == 0
    requires forall c :: 0 < c < d ==> (c * b) % p != 0
    ensures x % d == 0
  {
    DividesCombination(x, x / d, d, b, p);
    assert x - x / d * d == x % d;
  }

  /** Euclid's lemma: a prime dividing a product divides a factor. */
  lemma Euclid(a: int, b: int, p: int)
    requires IsPrime(p) && (a * b) % p == 0
    ensures a % p == 0 || b % p == 0
  {
    var d := 1;
    while (d * b) % p != 0
      invariant 1 <= d <= p
      invariant forall c :: 0 < c < d ==> (c * b) % p != 0
      decreases p - d
    {
      if d == p {
        CongZero(p * b, p);
        assert CongBy(p * b, 0, p, b);
      }
      d := d + 1;
    }
    LeastDividesAll(a, d, b, p);
    assert (p * b) % p == 0 by {
      assert CongBy(p * b, 0, p, b);
      CongZero(p * b, p);
    }
    LeastDividesAll(p, d, b, p);
    assert d == 1 || d == p;
  }

  lemma CongCancel(a: int, x: int, y: int, p: int)
    requires IsPrime(p) && a % p != 0 && Cong(a * x, a * y, p)
    ensures Cong(x, y, p)
  {
    CongAdd(a * x, a * y, a * y, a * y, p) by {
      CongRefl(a * y, p);
    }
    assert a * x - a * y == a * (x - y);
    CongZero(a * (x - y), p);
    Euclid(a, x - y, p);
    CongZero(x - y, p);
    CongRefl(y, p);
    CongAdd(x - y, 0, y, y, p);
  }

  // ------------------------------------------------------------- Fermat

  predicate Member<T>(x: T, s: set<T>) {
    x in s
  }

  lemma HasMember<T>(s: set<T>)
    requires s != {}
    ensures exists x :: Member(x, s)
  {
    if x :| x in s {
      assert Member(x, s);
    }
  }

  ghost function Pick<T>(s: set<T>): (x: T)
    requires s != {}
    ensures x in s
  {
    HasMember(s);
    var x :| Member(x, s);
    x
  }

  ghost function Prod(s: set<int>): int {
    if s == {} then 1 else var x := Pick(s); x * Prod(s - {x})
  }

  lemma {:induction false} ProdRemove(s: set<int>, y: int)
    requires y in s
    ensures Prod(s) == y * Prod(s - {y})
    decreases |s|
  {
    var x := Pick(s);
    if x != y {
      var rest := s - {x} - {y};
      ProdRemove(s - {x}, y);
      ProdRemove(s - {y}, x);
      assert s - {y} - {x} == rest;
      SwapFactors(x, y, Prod(rest));
    }
  }

  lemma SwapFactors(x: int, y: int, z: int)
    ensures x * (y * z) == y * (x * z)
  {
  }

  function Residue(a: int, i: int, p: int): int
    requires p > 0
  {
    (a * i) % p
  }

  /** The elements of s times a, reduced. */
  function Scaled(s: set<int>, a: int, p: int): set<int>
    requires p > 0
  {
    set i | i in s :: Residue(a, i, p)
  }

  /** The residues 1 to n. */
  function UpTo(n: nat): (s: set<int>)
    ensures |s| == n
    ensures forall i :: i in s <==> 0 < i <= n
  {
    if n == 0 then {} else UpTo(n - 1) + {n}
  }

  function Nonzero(p: int): (s: set<int>)
    requires p > 0
    ensures |s| == p - 1
    ensures forall i :: i in s <==> 0 < i < p
  {
    UpTo(p - 1)
  }

  lemma ScaleInjective(a: int, i: int, j: int, p: int)
    requires IsPrime(p) && a % p != 0 && 0 < i < p && 0 < j < p
    requires Residue(a, i, p) == Residue(a, j, p)
    ensures i == j
  {
    CongIffMod(a * i, a * j, p);
    CongCancel(a, i, j, p);
    CongResidues(i, j, p);
  }

  lemma SmallMod(x: int, p: int)
    requires 0 <= x < p
    ensures x % p == x
  {
  }

  /** Scaling adds one new residue for each new element. */
  lemma ScaledGrow(s: set<int>, x: int, a: int, p: int)
    requires IsPrime(p) && a % p != 0 && forall i :: i in s ==> 0 < i < p
    requires x in s
    ensures Residue(a, x, p) !in Scaled(s - {x}, a, p)
    ensures Scaled(s, a, p) == Scaled(s - {x}, a, p) + {Residue(a, x, p)}
  {
    forall i | i in s - {x} ensures Residue(a, i, p) != Residue(a, x, p) {
      if Residue(a, i, p) == Residue(a, x, p) {
        ScaleInjective(a, i, x, p);
      }
    }
    ScaledUnion(s - {x}, x, a, p);
    assert s - {x} + {x} == s;
  }

  lemma ScaledUnion(s: set<int>, x: int, a: int, p: int)
    requires p > 0
    ensures Scaled(s + {x}, a, p) == Scaled(s, a, p) + {Residue(a, x, p)}
  {
  }

  /** Scaling a set of nonzero residues by a keeps them apart and multiplies their product by a each time. */
  lemma {:induction false} ProdScaled(s: set<int>, a: int, p: int)
    requires IsPrime(p) && a % p != 0 && forall i :: i in s ==> 0 < i < p
    ensures |Scaled(s, a, p)| == |s|
    ensures Cong(Prod(Scaled(s, a, p)), Pow(a, |s|) * Prod(s), p)
    decreases |s|
  {
    if s == {} {
      assert Scaled(s, a, p) == {};
      CongRefl(1, p);
    } else {
      var x := Pick(s);
      var s' := s - {x};
      ProdScaled(s', a, p);
      ScaledGrow(s, x, a, p);
      var fx, t := Residue(a, x, p), Scaled(s', a, p);
      ProdRemove(t + {fx}, fx);
      assert t + {fx} - {fx} == t;
      ProdRemove(s, x);
      CongMod(a * x, p);
      CongMul(fx, a * x, Prod(t), Pow(a, |s'|) * Prod(s'), p);
      Shuffle(a, x, Pow(a, |s'|), Prod(s'));
    }
  }

  lemma ScaledNonzero(a: int, p: int)
    requires IsPrime(p) && a % p != 0
    ensures Scaled(Nonzero(p), a, p) == Nonzero(p)
  {
    ProdScaled(Nonzero(p), a, p);
    forall r | r in Scaled(Nonzero(p), a, p) ensures 0 < r < p {
      var i :| i in Nonzero(p) && r == Residue(a, i, p);
      ResidueNonzero(a, i, p);
    }
    SubsetSameSize(Scaled(Nonzero(p), a, p), Nonzero(p));
  }

  lemma ResidueNonzero(a: int, i: int, p: int)
    requires IsPrime(p) && a % p != 0 && 0 < i < p
    ensures 0 < Residue(a, i, p) < p
  {
    SmallMod(i, p);
    if (a * i) % p == 0 {
      Euclid(a, i, p);
    }
  }

  lemma SubsetSameSize(s: set<int>, t: set<int>)
    requires s <= t && |s| == |t|
    ensures s == t
  {
    assert |t - s| == 0;
  }

  lemma NonzeroProduct(a: int, b: int, p: int)
    requires IsPrime(p) && (0 < a < p || a % p != 0) && (0 < b < p || b % p != 0)
    ensures (a * b) % p != 0
  {
    if 0 < a < p { SmallMod(a, p); }
    if 0 < b < p { SmallMod(b, p); }
    if (a * b) % p == 0 {
      Euclid(a, b, p);
    }
  }

  lemma {:induction false} ProdNonzero(s: set<int>, p: int)
    requires IsPrime(p) && forall i :: i in s ==> 0 < i < p
    ensures Prod(s) % p != 0
    decreases |s|
  {
    if s == {} {
      SmallMod(1, p);
    } else {
      var x := Pick(s);
      ProdNonzero(s - {x}, p);
      NonzeroProduct(x, Prod(s - {x}), p);
    }
  }

  /** Fermat's little theorem. */
  lemma Fermat(a: int, p: int)
    requires IsPrime(p) && a % p != 0
    ensures Cong(Pow(a, p - 1), 1, p)
  {
    var all := Nonzero(p);
    ProdScaled(all, a, p);
    ScaledNonzero(a, p);
    ProdNonzero(all, p);
    CongSym(Prod(all), Pow(a, p - 1) * Prod(all), p);
    assert Prod(all) * Pow(a, p - 1) == Pow(a, p - 1) * Prod(all);
    CongCancel(Prod(all), Pow(a, p - 1), 1, p);
  }

  ghost predicate IsInverse(x: int, y: int, p: int) {
    0 <= y < p && Cong(x * y, 1, p)
  }

  /** The inverse of a nonzero residue modulo a prime: the one residue y with x y = 1. */
  ghost function Inv(x: int, p: int): (y: int)
    requires IsPrime(p) && 0 < x < p
    ensures IsInverse(x, y, p)
  {
    SmallMod(x, p);
    FermatInverse(x, p);
    var y :| IsInverse(x, y, p);
    y
  }

  /** Fermat's inverse x^(p-2) is an inverse. */
  lemma FermatInverse(x: int, p: int)
    requires IsPrime(p) && x % p != 0
    ensures IsInverse(x, Pow(x, p - 2) % p, p)
  {
    var y := Pow(x, p - 2) % p;
    Fermat(x, p);
    CongRefl(x, p);
    CongMod(Pow(x, p - 2), p);
    CongMul(x, x, y, Pow(x, p - 2), p);
    CongTrans(x * y, Pow(x, p - 1), 1, p);
  }

  lemma InverseUnique(x: int, y: int, z: int, p: int)
    requires IsPrime(p) && IsInverse(x, y, p) && IsInverse(x, z, p)
    ensures y == z
  {
    CongSym(x * z, 1, p);
    CongTrans(x * y, 1, x * z, p);
    InvertibleNonzero(x, y, p);
    CongCancel(x, y, z, p);
    CongResidues(y, z, p);
  }

  lemma InvertibleNonzero(x: int, y: int, p: int)
    requires p > 1 && Cong(x * y, 1, p)
    ensures x % p != 0
  {
    if x % p == 0 {
      CongZero(x, p);
      CongRefl(y, p);
      CongMul(x, 0, y, y, p);
      CongSym(x * y, 1, p);
      CongTrans(1, x * y, 0, p);
      CongResidues(1, 0, p);
    }
  }
}
