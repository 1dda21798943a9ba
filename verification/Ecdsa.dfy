/** ECDSA over P-256 as `p256.rs` verifies it, against section 4.1.4 of SEC 1. */
module Ecdsa {
  import opened Bytes
  import opened Limbs
  import opened NumberTheory
  import opened Montgomery
  import Curve
  import Jacobian

  // ------------------------------------------------- points on limbs

  /** Coordinates in Montgomery form; z = 0 is infinity. */
  datatype Point = Point(x: U256, y: U256, z: U256)

  const INFINITY := Point(ZERO, ZERO, ZERO)

  ghost predicate Canonical(f: Field, p: Point) {
    f.Has(p.x) && f.Has(p.y) && f.Has(p.z)
  }

  /** The residues a point holds. */
  ghost function TripleOf(f: Field, p: Point): (t: Jacobian.Triple)
    requires f.Valid()
    ensures Jacobian.Reduced(t, Val(f.m))
  {
    Jacobian.Triple(f.Dec(p.x), f.Dec(p.y), f.Dec(p.z))
  }

  method Double(fp: Field, p: Point) returns (r: Point)
    requires fp.Valid() && Canonical(fp, p)
    ensures Canonical(fp, r) && TripleOf(fp, r) == Jacobian.DoubleTriple(Val(fp.m), TripleOf(fp, p))
  {
    ZeroDecodes(fp, p.z);
    if IsZero(p.z) {
      return p;
    }
    var zz := fp.Mul(p.z, p.z);
    var yy := fp.Mul(p.y, p.y);
    var xyy := fp.Mul(p.x, yy);
    var s := fp.Add(xyy, xyy);
    s := fp.Add(s, s);
    var diff := fp.Sub(p.x, zz);
    var sum := fp.Add(p.x, zz);
    var t := fp.Mul(diff, sum);
    var m := fp.Add(t, t);
    m := fp.Add(m, t);
    var x3 := fp.Mul(m, m);
    x3 := fp.Sub(x3, s);
    x3 := fp.Sub(x3, s);
    var yyyy := fp.Mul(yy, yy);
    var y8 := fp.Add(yyyy, yyyy);
    y8 := fp.Add(y8, y8);
    y8 := fp.Add(y8, y8);
    var y3 := fp.Sub(s, x3);
    y3 := fp.Mul(m, y3);
    y3 := fp.Sub(y3, y8);
    var z3 := fp.Mul(p.y, p.z);
    z3 := fp.Add(z3, z3);
    r := Point(x3, y3, z3);
  }

  method Add(fp: Field, p: Point, q: Point) returns (r: Point)
    requires fp.Valid() && Canonical(fp, p) && Canonical(fp, q)
    ensures Canonical(fp, r)
    ensures TripleOf(fp, r) == Jacobian.AddTriple(Val(fp.m), TripleOf(fp, p), TripleOf(fp, q))
  {
    ZeroDecodes(fp, p.z);
    ZeroDecodes(fp, q.z);
    if IsZero(p.z) {
      return q;
    }
    if IsZero(q.z) {
      return p;
    }
    var z1z1 := fp.Mul(p.z, p.z);
    var z2z2 := fp.Mul(q.z, q.z);
    var u1 := fp.Mul(p.x, z2z2);
    var u2 := fp.Mul(q.x, z1z1);
    var s1 := fp.Mul(p.y, q.z);
    s1 := fp.Mul(s1, z2z2);
    var s2 := fp.Mul(q.y, p.z);
    s2 := fp.Mul(s2, z1z1);
    var h := fp.Sub(u2, u1);
    var rr := fp.Sub(s2, s1);
    ZeroDecodes(fp, h);
    ZeroDecodes(fp, rr);
    if IsZero(h) {
      if IsZero(rr) {
        r := Double(fp, p);
      } else {
        InfinityDecodes(fp);
        r := INFINITY;
      }
      return;
    }
    r := Chord(fp, p, q, u1, s1, h, rr);
  }

  /** The branch of addition for points over different abscissas. */
  method Chord(fp: Field, p: Point, q: Point, u1: U256, s1: U256, h: U256, rr: U256) returns (r: Point)
    requires fp.Valid() && Canonical(fp, p) && Canonical(fp, q)
    requires fp.Has(u1) && fp.Has(s1) && fp.Has(h) && fp.Has(rr)
    requires fp.Dec(h) != 0 && fp.Dec(p.z) != 0 && fp.Dec(q.z) != 0
    requires var k := Jacobian.CrossOf(Val(fp.m), TripleOf(fp, p), TripleOf(fp, q));
      fp.Dec(u1) == k.u1 && fp.Dec(s1) == k.s1 && fp.Dec(h) == k.h && fp.Dec(rr) == k.r
    ensures Canonical(fp, r)
    ensures TripleOf(fp, r) == Jacobian.AddTriple(Val(fp.m), TripleOf(fp, p), TripleOf(fp, q))
  {
    var h2 := fp.Mul(h, h);
    var h3 := fp.Mul(h, h2);
    var u1h2 := fp.Mul(u1, h2);
    var x3 := fp.Mul(rr, rr);
    x3 := fp.Sub(x3, h3);
    var twice := fp.Add(u1h2, u1h2);
    x3 := fp.Sub(x3, twice);
    var y3 := fp.Sub(u1h2, x3);
    y3 := fp.Mul(rr, y3);
    var s1h3 := fp.Mul(s1, h3);
    y3 := fp.Sub(y3, s1h3);
    var z3 := fp.Mul(p.z, q.z);
    z3 := fp.Mul(z3, h);
    r := Point(x3, y3, z3);
  }

  lemma InfinityDecodes(f: Field)
    requires f.Valid()
    ensures Canonical(f, INFINITY) && TripleOf(f, INFINITY) == Jacobian.Triple(0, 0, 0)
  {
    LowExpand(ZERO);
    ZeroDecodes(f, ZERO);
  }

  /** The scalar multiple of a triple, from the top bit of k down. */
  function TimesTriple(p: int, k: nat, t: Jacobian.Triple): Jacobian.Triple
    requires p > 0
  {
    if k == 0 then Jacobian.Triple(0, 0, 0)
    else
      var twice := Jacobian.DoubleTriple(p, TimesTriple(p, k / 2, t));
      if k % 2 == 1 then Jacobian.AddTriple(p, twice, t) else twice
  }

  lemma TimesTripleStep(p: int, k: nat, t: Jacobian.Triple, bit: bool)
    requires p > 0
    ensures var twice := Jacobian.DoubleTriple(p, TimesTriple(p, k, t));
      TimesTriple(p, 2 * k + if bit then 1 else 0, t) == if bit then Jacobian.AddTriple(p, twice, t) else twice
  {
    var n := 2 * k + if bit then 1 else 0;
    assert n / 2 == k && (n % 2 == 1 <==> bit);
  }

  method ScalarMul(fp: Field, k: U256, p: Point) returns (acc: Point)
    requires fp.Valid() && Canonical(fp, p)
    ensures Canonical(fp, acc) && TripleOf(fp, acc) == TimesTriple(Val(fp.m), Val(k), TripleOf(fp, p))
  {
    acc := INFINITY;
    InfinityDecodes(fp);
    ShiftAll(k, BITS);
    var i: nat := BITS;
    while i > 0
      invariant 0 <= i <= BITS
      invariant Canonical(fp, acc)
      invariant TripleOf(fp, acc) == TimesTriple(Val(fp.m), Shifted(k, i), TripleOf(fp, p))
    {
      i := i - 1;
      ShiftStep(k, i);
      TimesTripleStep(Val(fp.m), Shifted(k, i + 1), TripleOf(fp, p), TestBit(k, i));
      acc := Double(fp, acc);
      if TestBit(k, i) {
        acc := Add(fp, acc, p);
      }
    }
    ShiftNone(k);
  }

  /** Jacobian double-and-add computes the affine multiple. */
  lemma {:induction false} TimesStands(c: Curve.Params, k: nat, t: Jacobian.Triple, a: Curve.Affine)
    requires c.Valid() && Jacobian.Reduced(t, c.p) && Curve.OnCurve(c, a) && Jacobian.Stands(c, t, a)
    ensures var r, s := TimesTriple(c.p, k, t), Curve.Times(c, k, a);
      Jacobian.Reduced(r, c.p) && Curve.OnCurve(c, s) && Jacobian.Stands(c, r, s)
  {
    if k > 0 {
      TimesStands(c, k / 2, t, a);
      var half, s := TimesTriple(c.p, k / 2, t), Curve.Times(c, k / 2, a);
      Curve.TimesStep(c, k / 2, a, k % 2 == 1);
      Jacobian.DoubleStands(c, half, s);
      if k % 2 == 1 {
        Curve.AddOnCurve(c, Curve.Double(c, s), a);
        Jacobian.AddStands(c, Jacobian.DoubleTriple(c.p, half), t, Curve.Double(c, s), a);
      }
    }
  }

  // ------------------------------------------------- domain parameters

  /** A prime curve y^2 = x^3 - 3x + b with a base point and its order, as limbs. */
  datatype Domain = Domain(p: U256, n: U256, b: U256, gx: U256, gy: U256) {

    function Params(): Curve.Params {
      Curve.Params(Val(p), Val(b))
    }

    function Base(): Curve.Affine {
      Curve.Pt(Val(gx), Val(gy))
    }

    /** The moduli suit the limb arithmetic and the constants are residues. */
    ghost predicate Suits() {
      && Val(p) % 2 == 1 && R < 2 * Val(p) && Val(n) % 2 == 1 && R < 2 * Val(n)
      && Val(b) < Val(p) && Val(gx) < Val(p) && Val(gy) < Val(p)
    }

    ghost predicate PrimesHold() {
      IsPrime(Val(p)) && IsPrime(Val(n))
    }
  }

  // ------------------------------------------------- the P-256 constants

  /** NIST P-256 domain parameters (FIPS 186-4, D.1.2.3). */
  const P256 := Domain(
    [0xffffffffffffffff, 0x00000000ffffffff, 0x0000000000000000, 0xffffffff00000001],
    [0xf3b9cac2fc632551, 0xbce6faada7179e84, 0xffffffffffffffff, 0xffffffff00000000],
    [0x3bce3c3e27d2604b, 0x651d06b0cc53b0f6, 0xb3ebbd55769886bc, 0x5ac635d8aa3a93e7],
    [0xf4a13945d898c296, 0x77037d812deb33a0, 0xf8bce6e563a440f2, 0x6b17d1f2e12c4247],
    [0xcbb6406837bf51f5, 0x2bce33576b315ece, 0x8ee7eb4a7c0f9e16, 0x4fe342e2fe1a7f9b])

  const PRIME := 0xffffffff00000001000000000000000000000000ffffffffffffffffffffffff
  const ORDER := 0xffffffff00000000ffffffffffffffffbce6faada7179e84f3b9cac2fc632551
  const COEFF := 0x5ac635d8aa3a93e7b3ebbd55769886bc651d06b0cc53b0f63bce3c3e27d2604b
  const BASE_X := 0x6b17d1f2e12c4247f8bce6e563a440f277037d812deb33a0f4a13945d898c296
  const BASE_Y := 0x4fe342e2fe1a7f9b8ee7eb4a7c0f9e162bce33576b315ececbb6406837bf51f5

  /** The limbs spell the published constants. */
  lemma Constants()
    ensures Val(P256.p) == PRIME && Val(P256.n) == ORDER && Val(P256.b) == COEFF
    ensures Val(P256.gx) == BASE_X && Val(P256.gy) == BASE_Y
    ensures P256.Suits()
  {
    LowExpand(P256.p);
    LowExpand(P256.n);
    LowExpand(P256.b);
    LowExpand(P256.gx);
    LowExpand(P256.gy);
  }

  /** The base point satisfies the curve equation. */
  lemma BaseOnCurve()
    ensures Curve.OnCurve(P256.Params(), P256.Base())
  {
    Constants();
    assert CongBy(BASE_Y * BASE_Y, Curve.Cubic(BASE_X, COEFF), PRIME,
      -0x12bdd1ad23dfc833dccf5f6141d6bb4a1f365dc1430b0e600b52dd851938d2d6933106a72efbf035fdaf43963b37fd5456e90c6581a8fb7a0d8a46a3629f0458);
  }

  // ------------------------------------------------- big-endian input

  /** `u64::from_be_bytes`. */
  function Limb(b: seq<Byte>): (x: U64)
    requires |b| == 8
    ensures x as int == BigEndian(b)
  {
    EightBytes(b);
    b[0] as int * 0x100_0000_0000_0000 + b[1] as int * 0x1_0000_0000_0000 + b[2] as int * 0x100_0000_0000
    + b[3] as int * 0x1_0000_0000 + b[4] as int * 0x100_0000 + b[5] as int * 0x1_0000 + b[6] as int * 0x100
    + b[7] as int
  }

  lemma EightBytes(b: seq<Byte>)
    requires |b| == 8
    ensures BigEndian(b) == b[0] as int * 0x100_0000_0000_0000 + b[1] as int * 0x1_0000_0000_0000
      + b[2] as int * 0x100_0000_0000 + b[3] as int * 0x1_0000_0000 + b[4] as int * 0x100_0000
      + b[5] as int * 0x1_0000 + b[6] as int * 0x100 + b[7] as int
  {
    assert b[..8] == b;
    BigEndianSnoc(b, 7);
    BigEndianSnoc(b, 6);
    BigEndianSnoc(b, 5);
    BigEndianSnoc(b, 4);
    BigEndianSnoc(b, 3);
    BigEndianSnoc(b, 2);
    BigEndianSnoc(b, 1);
    BigEndianSnoc(b, 0);
  }

  lemma BigEndianSnoc(b: seq<Byte>, i: nat)
    requires i < |b|
    ensures BigEndian(b[..i + 1]) == BigEndian(b[..i]) * 256 + b[i] as int
  {
    assert b[..i + 1][..i] == b[..i];
  }

  /** Concatenation shifts the front by the width of the back. */
  lemma {:induction false} BigEndianConcat(a: seq<Byte>, b: seq<Byte>)
    ensures BigEndian(a + b) == BigEndian(a) * Pow(256, |b|) + BigEndian(b)
  {
    if b == [] {
      assert a + b == a;
    } else {
      var b' := b[..|b| - 1];
      assert (a + b)[..|a + b| - 1] == a + b';
      BigEndianConcat(a, b');
      assert (BigEndian(a) * Pow(256, |b'|)) * 256 == BigEndian(a) * Pow(256, |b|);
    }
  }

  /** `U256::from_be`. */
  function FromBe(b: seq<Byte>): (u: U256)
    requires |b| == 32
    ensures Val(u) == BigEndian(b)
  {
    FourLimbs(b);
    var u: U256 := [Limb(b[24..32]), Limb(b[16..24]), Limb(b[8..16]), Limb(b[0..8])];
    LowExpand(u);
    u
  }

  lemma FourLimbs(b: seq<Byte>)
    requires |b| == 32
    ensures BigEndian(b) == BigEndian(b[24..32]) + BigEndian(b[16..24]) * 0x1_0000000000000000
      + BigEndian(b[8..16]) * 0x1_0000000000000000_0000000000000000
      + BigEndian(b[0..8]) * 0x1_0000000000000000_0000000000000000_0000000000000000
  {
    EightMore(b, 8);
    EightMore(b, 16);
    EightMore(b, 24);
    assert b[..32] == b && b[..8] == b[0..8];
  }

  const LIMB_BYTES: nat := 8

  lemma EightMore(b: seq<Byte>, k: nat)
    requires k + 8 <= |b|
    ensures BigEndian(b[..k + 8]) == BigEndian(b[..k]) * 0x1_0000000000000000 + BigEndian(b[k..k + 8])
  {
    Widths(LIMB_BYTES / 2, LIMB_BYTES);
    assert b[..k + 8] == b[..k] + b[k..k + 8];
    BigEndianConcat(b[..k], b[k..k + 8]);
  }

  // ------------------------------------------------- the signature check

  /** Section 4.1.4 of SEC 1: the public point is a finite curve point, r and s are in [1, n-1], and the
      abscissa of (e / s) G + (r / s) Q reduces to r modulo n. */
  ghost predicate SignatureHolds(d: Domain, qx: int, qy: int, e: int, r: int, s: int)
    requires d.PrimesHold() && d.Suits() && Curve.OnCurve(d.Params(), d.Base())
  {
    var c, n, q := d.Params(), Val(d.n), Curve.Pt(qx, qy);
    && 0 <= qx < c.p && 0 <= qy < c.p && Curve.OnCurve(c, q)
    && 1 <= r < n && 1 <= s < n
    && var w := Inv(s, n);
       var sum := Curve.Plus(c, Curve.Times(c, (e * w) % n, d.Base()), Curve.Times(c, (r * w) % n, q));
       sum.Pt? && sum.x % n == r
  }

  /** The right-hand side of the curve equation as the code computes it. */
  function CurveSide(p: int, b: int, x: int): int
    requires p > 0
  {
    var x3 := MulMod(MulMod(x, x, p), x, p);
    var threeX := AddMod(AddMod(x, x, p), x, p);
    AddMod(SubMod(x3, threeX, p), b, p)
  }

  lemma CurveSideMeans(p: int, b: int, x: int, y: int)
    requires p > 0
    ensures MulMod(y, y, p) == CurveSide(p, b, x) <==> Cong(y * y, Curve.Cubic(x, b), p)
  {
    CongRefl(x, p);
    CongRefl(b, p);
    var xx, x2 := MulMod(x, x, p), AddMod(x, x, p);
    var x3, threeX := MulMod(xx, x, p), AddMod(x2, x, p);
    CongMulMod(x, x, x, x, p);
    CongMulMod(xx, x * x, x, x, p);
    CongAddMod(x, x, x, x, p);
    CongAddMod(x2, x + x, x, x, p);
    CongAddMod(x3, x * x * x, threeX, x + x + x, p);
    CongAddMod(SubMod(x3, threeX, p), x * x * x - (x + x + x), b, b, p);
    CongReduced(CurveSide(p, b, x), Curve.Cubic(x, b), p);
    CongIffMod(y * y, Curve.Cubic(x, b), p);
  }

  /** `y^2 == x^3 - 3x + b` on entered coordinates. */
  method CheckOnCurve(d: Domain, fp: Field, qxm: U256, qym: U256) returns (ok: bool)
    requires d.Suits() && fp.Valid() && fp.m == d.p && fp.Has(qxm) && fp.Has(qym)
    ensures ok <==> Cong(fp.Dec(qym) * fp.Dec(qym), Curve.Cubic(fp.Dec(qxm), Val(d.b)), Val(d.p))
  {
    var xx := fp.Mul(qxm, qxm);
    var x3 := fp.Mul(xx, qxm);
    var threeX := fp.Add(qxm, qxm);
    threeX := fp.Add(threeX, qxm);
    var rhs := fp.Sub(x3, threeX);
    var bm := fp.Enter(d.b);
    rhs := fp.Add(rhs, bm);
    var yy := fp.Mul(qym, qym);
    SmallMod(Val(d.b), Val(d.p));
    if fp.Dec(yy) == fp.Dec(rhs) {
      DecInjective(fp, yy, rhs);
    }
    CurveSideMeans(Val(d.p), Val(d.b), fp.Dec(qxm), fp.Dec(qym));
    ok := yy == rhs;
  }

  /** Subtract the modulus once: a full reduction below twice the modulus. */
  method ReduceOnce(v: U256, m: U256) returns (r: U256)
    requires R < 2 * Val(m)
    ensures Val(r) == Val(v) % Val(m)
  {
    r := v;
    var ge := Ge(v, m);
    if ge {
      var borrow;
      r, borrow := Sub(v, m);
    }
    assert CongBy(Val(v), Val(v) - Val(m), Val(m), 1);
    CongSym(Val(v), Val(v) - Val(m), Val(m));
    CongRefl(Val(v), Val(m));
    CongReduced(Val(r), Val(v), Val(m));
  }

  /** u1 = e / s and u2 = r / s, with the inverse as Fermat's power. */
  method Multipliers(fx: Field, e: U256, r: U256, s: U256) returns (u1: U256, u2: U256)
    requires fx.Valid() && fx.Has(e) && fx.Has(r) && fx.Has(s)
    ensures var n := Val(fx.m);
      n >= 2 && var w := Pow(Val(s), n - 2) % n;
      Val(u1) == MulMod(Val(e), w, n) && Val(u2) == MulMod(Val(r), w, n)
  {
    var n := Val(fx.m);
    SmallMod(Val(s), n);
    SmallMod(Val(e), n);
    SmallMod(Val(r), n);
    var sm := fx.Enter(s);
    var w := fx.Inv(sm);
    var em := fx.Enter(e);
    var rm := fx.Enter(r);
    var ew := fx.Mul(em, w);
    var rw := fx.Mul(rm, w);
    u1 := fx.Leave(ew);
    u2 := fx.Leave(rw);
  }

  /** The affine abscissa X / Z^2. */
  method AffineX(fp: Field, p: Point) returns (x: U256)
    requires fp.Valid() && Canonical(fp, p)
    ensures var t, m := TripleOf(fp, p), Val(fp.m);
      m >= 2 && var zi := Pow(t.z, m - 2) % m;
      Val(x) == MulMod(t.x, MulMod(zi, zi, m), m)
  {
    var zinv := fp.Inv(p.z);
    var zz := fp.Mul(zinv, zinv);
    var xm := fp.Mul(p.x, zz);
    x := fp.Leave(xm);
  }

  /** What the code computes once the inputs are in range, over residues. */
  ghost function SumTriple(d: Domain, qx: int, qy: int, e: int, r: int, s: int): Jacobian.Triple
    requires d.Suits()
  {
    var p, n := Val(d.p), Val(d.n);
    var w := Pow(s, n - 2) % n;
    Jacobian.AddTriple(p,
      TimesTriple(p, MulMod(e % n, w, n), Jacobian.Triple(Val(d.gx), Val(d.gy), 1)),
      TimesTriple(p, MulMod(r, w, n), Jacobian.Triple(qx, qy, 1)))
  }

  /** Over residues: the sum is finite and its abscissa reduces to r. */
  ghost predicate TriplesAccept(d: Domain, qx: int, qy: int, e: int, r: int, s: int)
    requires d.Suits()
  {
    var p, sum := Val(d.p), SumTriple(d, qx, qy, e, r, s);
    && sum.z != 0
    && var zi := Pow(sum.z, p - 2) % p;
       MulMod(sum.x, MulMod(zi, zi, p), p) % Val(d.n) == r
  }

  lemma Regroup(a: int, b: int, c: int)
    ensures (a * b) * c == a * (b * c)
  {
  }

  /** Cancelling Z^2 against the square of its inverse. */
  lemma CancelSquare(p: int, X: int, x: int, z: int, zi: int)
    requires p > 0 && Cong(z * zi, 1, p) && Cong(X, x * (z * z), p) && 0 <= x < p
    ensures MulMod(X, MulMod(zi, zi, p), p) == x
  {
    CongMul(z * zi, 1, z * zi, 1, p);
    CongRefl(zi, p);
    CongMulMod(zi, zi, zi, zi, p);
    CongMulMod(X, x * (z * z), MulMod(zi, zi, p), zi * zi, p);
    Shuffle(z, z, zi, zi);
    Regroup(x, z * z, zi * zi);
    CongRefl(x, p);
    CongMul(x, x, (z * zi) * (z * zi), 1, p);
    CongTrans(MulMod(X, MulMod(zi, zi, p), p), (x * (z * z)) * (zi * zi), x, p);
    CongReduced(MulMod(X, MulMod(zi, zi, p), p), x, p);
    SmallMod(x, p);
  }

  /** Dividing by Z^2 recovers the affine abscissa. */
  lemma AffineAbscissa(c: Curve.Params, t: Jacobian.Triple, a: Curve.Affine, zi: int)
    requires c.Valid() && Jacobian.Reduced(t, c.p) && Curve.InField(c, a) && a.Pt? && Jacobian.Stands(c, t, a)
    requires zi == Pow(t.z, c.p - 2) % c.p
    ensures MulMod(t.x, MulMod(zi, zi, c.p), c.p) == a.x
  {
    SmallMod(t.z, c.p);
    FermatInverse(t.z, c.p);
    CancelSquare(c.p, t.x, a.x, t.z, zi);
  }

  /** A reduced affine point is its own triple with Z = 1. */
  lemma UnitStands(c: Curve.Params, x: int, y: int)
    requires c.Valid() && 0 <= x < c.p && 0 <= y < c.p
    ensures Jacobian.Reduced(Jacobian.Triple(x, y, 1), c.p)
    ensures Jacobian.Stands(c, Jacobian.Triple(x, y, 1), Curve.Pt(x, y))
  {
    CongRefl(x, c.p);
    CongRefl(y, c.p);
    assert x * (1 * 1) == x && y * (1 * 1 * 1) == y;
  }

  lemma ReducedFactor(e: int, w: int, n: int)
    requires n > 0
    ensures MulMod(e % n, w, n) == (e * w) % n
  {
    CongMod(e, n);
    CongRefl(w, n);
    CongMul(e % n, e, w, w, n);
    CongIffMod(e % n * w, e * w, n);
  }

  /** For prime constants the residue computation decides the standard's condition. */
  lemma TriplesDecide(d: Domain, qx: int, qy: int, e: int, r: int, s: int)
    requires d.PrimesHold() && d.Suits() && Curve.OnCurve(d.Params(), d.Base())
    requires Curve.OnCurve(d.Params(), Curve.Pt(qx, qy)) && 1 <= r < Val(d.n) && 1 <= s < Val(d.n)
    ensures TriplesAccept(d, qx, qy, e, r, s) <==> SignatureHolds(d, qx, qy, e, r, s)
  {
    var c, n, p, q := d.Params(), Val(d.n), Val(d.p), Curve.Pt(qx, qy);
    SmallMod(s, n);
    FermatInverse(s, n);
    var w := Inv(s, n);
    InverseUnique(s, Pow(s, n - 2) % n, w, n);
    ReducedFactor(e, w, n);
    UnitStands(c, Val(d.gx), Val(d.gy));
    UnitStands(c, qx, qy);
    var u1, u2 := MulMod(e % n, w, n), MulMod(r, w, n);
    var g3, q3 := Jacobian.Triple(Val(d.gx), Val(d.gy), 1), Jacobian.Triple(qx, qy, 1);
    TimesStands(c, u1, g3, d.Base());
    TimesStands(c, u2, q3, q);
    var ug, uq := Curve.Times(c, u1, d.Base()), Curve.Times(c, u2, q);
    Jacobian.AddStands(c, TimesTriple(p, u1, g3), TimesTriple(p, u2, q3), ug, uq);
    Curve.AddOnCurve(c, ug, uq);
    var sum, t := Curve.Plus(c, ug, uq), SumTriple(d, qx, qy, e, r, s);
    if sum.Pt? {
      AffineAbscissa(c, t, sum, Pow(t.z, p - 2) % p);
    }
  }

  /** A well-formed uncompressed key on the curve, and a signature that holds. */
  ghost predicate Accepts(d: Domain, public: seq<Byte>, digest: seq<Byte>, sig: seq<Byte>)
    requires |digest| == 32 && |sig| == 64
    requires d.PrimesHold() && d.Suits() && Curve.OnCurve(d.Params(), d.Base())
  {
    && |public| == 65 && public[0] == 4
    && SignatureHolds(d, BigEndian(public[1..33]), BigEndian(public[33..65]), BigEndian(digest),
                      BigEndian(sig[..32]), BigEndian(sig[32..]))
  }

  /** `verify_ecdsa_p256`: true exactly for a well-formed key on the curve and a signature that holds. */
  method Verify(public: seq<Byte>, digest: seq<Byte>, sig: seq<Byte>) returns (ok: bool)
    requires |digest| == 32 && |sig| == 64
    ensures P256.PrimesHold() ==>
      P256.Suits() && Curve.OnCurve(P256.Params(), P256.Base()) && (ok <==> Accepts(P256, public, digest, sig))
  {
    Constants();
    BaseOnCurve();
    ok := VerifyOver(P256, public, digest, sig);
  }

  /** The check over any domain the limb arithmetic suits. */
  method VerifyOver(d: Domain, public: seq<Byte>, digest: seq<Byte>, sig: seq<Byte>) returns (ok: bool)
    requires |digest| == 32 && |sig| == 64
    requires d.Suits() && Curve.OnCurve(d.Params(), d.Base())
    ensures d.PrimesHold() ==> (ok <==> Accepts(d, public, digest, sig))
  {
    if |public| != 65 || public[0] != 4 {
      return false;
    }
    var fp := NewField(d.p);
    var fx := NewField(d.n);

    var qx := FromBe(public[1..33]);
    var qy := FromBe(public[33..65]);
    var xOut := Ge(qx, d.p);
    var yOut := Ge(qy, d.p);
    if xOut || yOut {
      return false;
    }
    SmallMod(Val(qx), Val(d.p));
    SmallMod(Val(qy), Val(d.p));
    var qxm := fp.Enter(qx);
    var qym := fp.Enter(qy);
    var on := CheckOnCurve(d, fp, qxm, qym);
    if !on {
      return false;
    }

    var r := FromBe(sig[..32]);
    var s := FromBe(sig[32..]);
    var rOut := Ge(r, d.n);
    var sOut := Ge(s, d.n);
    if IsZero(r) || IsZero(s) || rOut || sOut {
      return false;
    }

    ok := Decide(d, fp, fx, qxm, qym, FromBe(digest), r, s);
    if d.PrimesHold() {
      TriplesDecide(d, Val(qx), Val(qy), BigEndian(digest), Val(r), Val(s));
    }
  }

  /** The computation after the range checks. */
  method Decide(d: Domain, fp: Field, fx: Field, qxm: U256, qym: U256, digest: U256, r: U256, s: U256) returns (ok: bool)
    requires d.Suits() && fp.Valid() && fx.Valid() && fp.m == d.p && fx.m == d.n
    requires fp.Has(qxm) && fp.Has(qym) && fx.Has(r) && fx.Has(s)
    ensures ok <==> TriplesAccept(d, fp.Dec(qxm), fp.Dec(qym), Val(digest), Val(r), Val(s))
  {
    var e := ReduceOnce(digest, d.n);
    var u1, u2 := Multipliers(fx, e, r, s);
    var gx := fp.Enter(d.gx);
    var gy := fp.Enter(d.gy);
    SmallMod(Val(d.gx), Val(d.p));
    SmallMod(Val(d.gy), Val(d.p));
    OneDecodes(fp);
    var g := Point(gx, gy, fp.one);
    var q := Point(qxm, qym, fp.one);
    var ug := ScalarMul(fp, u1, g);
    var uq := ScalarMul(fp, u2, q);
    var sum := Add(fp, ug, uq);
    ZeroDecodes(fp, sum.z);
    if IsZero(sum.z) {
      return false;
    }
    var v := AffineX(fp, sum);
    v := ReduceOnce(v, d.n);
    if Val(v) == Val(r) {
      ValInjective(v, r);
    }
    ok := v == r;
  }
}
