/** Jacobian coordinates over a prime field: the doubling and addition formulas
    of `p256.rs` on residues, and that they compute the affine law. */
module Jacobian {
  import opened NumberTheory
  import opened Curve

  /** X = x Z^2, Y = y Z^3; Z = 0 is infinity. */
  datatype Triple = Triple(x: int, y: int, z: int)

  ghost predicate Scaled2(X: int, x: int, z: int, p: int) {
    Cong(X, x * (z * z), p)
  }

  ghost predicate Scaled3(Y: int, y: int, z: int, p: int) {
    Cong(Y, y * (z * z * z), p)
  }

  predicate Reduced(t: Triple, p: int) {
    0 <= t.x < p && 0 <= t.y < p && 0 <= t.z < p
  }

  /** The triple stands for the affine point. */
  ghost predicate Stands(c: Params, t: Triple, a: Affine) {
    match a
    case Infinity => t.z == 0
    case Pt(x, y) => t.z != 0 && Scaled2(t.x, x, t.z, c.p) && Scaled3(t.y, y, t.z, c.p)
  }

  // ------------------------------------------------- the formulas

  function DoubleTriple(p: int, t: Triple): Triple
    requires p > 0
  {
    if t.z == 0 then t
    else
      var zz := MulMod(t.z, t.z, p);
      var yy := MulMod(t.y, t.y, p);
      var xyy := MulMod(t.x, yy, p);
      var s2 := AddMod(xyy, xyy, p);
      var s := AddMod(s2, s2, p);
      var m1 := MulMod(SubMod(t.x, zz, p), AddMod(t.x, zz, p), p);
      var m := AddMod(AddMod(m1, m1, p), m1, p);
      var x3 := SubMod(SubMod(MulMod(m, m, p), s, p), s, p);
      var yyyy := MulMod(yy, yy, p);
      var y2 := AddMod(yyyy, yyyy, p);
      var y4 := AddMod(y2, y2, p);
      var y8 := AddMod(y4, y4, p);
      var y3 := SubMod(MulMod(m, SubMod(s, x3, p), p), y8, p);
      var yz := MulMod(t.y, t.z, p);
      Triple(x3, y3, AddMod(yz, yz, p))
  }

  function AddTriple(p: int, t: Triple, u: Triple): Triple
    requires p > 0
  {
    if t.z == 0 then u
    else if u.z == 0 then t
    else
      var z1z1 := MulMod(t.z, t.z, p);
      var z2z2 := MulMod(u.z, u.z, p);
      var u1 := MulMod(t.x, z2z2, p);
      var u2 := MulMod(u.x, z1z1, p);
      var s1 := MulMod(MulMod(t.y, u.z, p), z2z2, p);
      var s2 := MulMod(MulMod(u.y, t.z, p), z1z1, p);
      var h := SubMod(u2, u1, p);
      var r := SubMod(s2, s1, p);
      if h == 0 then
        if r == 0 then DoubleTriple(p, t) else Triple(0, 0, 0)
      else
        var h2 := MulMod(h, h, p);
        var h3 := MulMod(h, h2, p);
        var u1h2 := MulMod(u1, h2, p);
        var x3 := SubMod(SubMod(MulMod(r, r, p), h3, p), AddMod(u1h2, u1h2, p), p);
        var y3 := SubMod(MulMod(r, SubMod(u1h2, x3, p), p), MulMod(s1, h3, p), p);
        Triple(x3, y3, MulMod(MulMod(t.z, u.z, p), h, p))
  }

  // ------------------------------------------------- both formulas end the same way

  /** With slope l and new Z = z: X = (l^2 - x1 - x2) z^2 and Y = (l (x1 - x3) - y1) z^3 stand for Third. */
  lemma ThirdStands(c: Params, l: int, x1: int, y1: int, x2: int, t: Triple)
    requires c.p > 0 && t.z != 0
    requires Cong(t.x, (l * l - x1 - x2) * (t.z * t.z), c.p)
    requires Cong(t.y, (l * (x1 - (l * l - x1 - x2)) - y1) * (t.z * t.z * t.z), c.p)
    ensures Stands(c, t, Third(c, l, x1, y1, x2))
  {
    var p, w := c.p, l * l - x1 - x2;
    var x3 := w % p;
    CongMod(w, p);
    CongRefl(t.z * t.z, p);
    CongMul(w, x3, t.z * t.z, t.z * t.z, p);
    CongTrans(t.x, w * (t.z * t.z), x3 * (t.z * t.z), p);

    CongRefl(x1, p);
    CongRefl(l, p);
    CongRefl(y1, p);
    CongAdd(x1, x1, w, x3, p);
    CongMul(l, l, x1 - w, x1 - x3, p);
    CongAdd(l * (x1 - w), l * (x1 - x3), y1, y1, p);
    var v := l * (x1 - x3) - y1;
    CongMod(v, p);
    CongTrans(l * (x1 - w) - y1, v, v % p, p);
    var zzz := t.z * t.z * t.z;
    CongRefl(zzz, p);
    CongMul(l * (x1 - w) - y1, v % p, zzz, zzz, p);
    CongTrans(t.y, (l * (x1 - w) - y1) * zzz, v % p * zzz, p);
  }

  // ------------------------------------------------- doubling

  /** The intermediate values of a doubling, as polynomials in X, Y, Z. */
  lemma DoublePolynomials(p: int, t: Triple)
    requires p > 0 && t.z != 0
    ensures var X, Y, Z, r := t.x, t.y, t.z, DoubleTriple(p, t);
      var m, s := 3 * ((X - Z * Z) * (X + Z * Z)), 4 * (X * (Y * Y));
      && Cong(r.z, 2 * (Y * Z), p)
      && Cong(r.x, m * m - s - s, p)
      && Cong(r.y, m * (s - (m * m - s - s)) - 8 * ((Y * Y) * (Y * Y)), p)
  {
    var X, Y, Z := t.x, t.y, t.z;
    var zz := MulMod(Z, Z, p);
    var yy := MulMod(Y, Y, p);
    var xyy := MulMod(X, yy, p);
    var s2 := AddMod(xyy, xyy, p);
    var s := AddMod(s2, s2, p);
    var d := SubMod(X, zz, p);
    var e := AddMod(X, zz, p);
    var m1 := MulMod(d, e, p);
    var m2 := AddMod(m1, m1, p);
    var m := AddMod(m2, m1, p);
    var mm := MulMod(m, m, p);
    var mms := SubMod(mm, s, p);
    var x3 := SubMod(mms, s, p);
    var yyyy := MulMod(yy, yy, p);
    var y2 := AddMod(yyyy, yyyy, p);
    var y4 := AddMod(y2, y2, p);
    var y8 := AddMod(y4, y4, p);
    var sx := SubMod(s, x3, p);
    var msx := MulMod(m, sx, p);
    var yz := MulMod(Y, Z, p);
    CongRefl(X, p); CongRefl(Y, p); CongRefl(Z, p);
    var S, M := 4 * (X * (Y * Y)), 3 * ((X - Z * Z) * (X + Z * Z));
    CongMulMod(Z, Z, Z, Z, p);
    CongMulMod(Y, Y, Y, Y, p);
    CongMulMod(X, X, yy, Y * Y, p);
    CongAddMod(xyy, X * (Y * Y), xyy, X * (Y * Y), p);
    CongAddMod(s2, 2 * (X * (Y * Y)), s2, 2 * (X * (Y * Y)), p);
    CongAddMod(X, X, zz, Z * Z, p);
    CongMulMod(d, X - Z * Z, e, X + Z * Z, p);
    var K := (X - Z * Z) * (X + Z * Z);
    CongAddMod(m1, K, m1, K, p);
    CongAddMod(m2, 2 * K, m1, K, p);
    CongMulMod(m, M, m, M, p);
    CongAddMod(mm, M * M, s, S, p);
    CongAddMod(mms, M * M - S, s, S, p);
    CongMulMod(yy, Y * Y, yy, Y * Y, p);
    var Q := (Y * Y) * (Y * Y);
    CongAddMod(yyyy, Q, yyyy, Q, p);
    CongAddMod(y2, 2 * Q, y2, 2 * Q, p);
    CongAddMod(y4, 4 * Q, y4, 4 * Q, p);
    var T := M * M - S - S;
    CongAddMod(s, S, x3, T, p);
    CongMulMod(m, M, sx, S - T, p);
    CongAddMod(msx, M * (S - T), y8, 8 * Q, p);
    CongMulMod(Y, Y, Z, Z, p);
    CongAddMod(yz, Y * Z, yz, Y * Z, p);
  }

  /** With X = x Z^2 and w = 2 Y Z, a doubling's S is x w^2. */
  lemma SquareTerm(x: int, Y: int, Z: int)
    ensures 4 * ((x * (Z * Z)) * (Y * Y)) == x * ((2 * (Y * Z)) * (2 * (Y * Z)))
  {
  }

  /** With Y = y Z^3 and w = 2 Y Z, a doubling's 8 Y^4 is y w^3. */
  lemma FourthTerm(y: int, Y: int, Z: int)
    ensures 8 * (((y * (Z * Z * Z)) * Y) * (Y * Y)) == y * ((2 * (Y * Z)) * (2 * (Y * Z)) * (2 * (Y * Z)))
  {
    var A, B := Z * Z * Z, Y * Y * Y;
    assert (2 * (Y * Z)) * (2 * (Y * Z)) * (2 * (Y * Z)) == 8 * (B * A);
    assert ((y * A) * Y) * (Y * Y) == (y * A) * B;
    assert y * (8 * (B * A)) == 8 * ((y * A) * B);
  }

  /** With X = x Z^2 a doubling's M is (3 x^2 - 3) Z^4. */
  lemma SlopeTerm(x: int, y: int, l: int, Z: int)
    ensures 3 * ((x * (Z * Z) - Z * Z) * (x * (Z * Z) + Z * Z)) == (3 * (x * x) - 3) * ((Z * Z) * (Z * Z))
    ensures (l * (2 * y)) * ((Z * Z) * (Z * Z)) == l * (2 * ((y * (Z * Z * Z)) * Z))
    ensures 2 * ((y * (Z * Z * Z)) * Z) == (2 * y) * ((Z * Z) * (Z * Z))
  {
  }

  /** Both formulas end alike: from r = l z, a sum e z^2 and u = x z^2, s = y z^3. */
  lemma Ending(p: int, r: int, sum: int, u: int, s: int, l: int, e: int, x: int, y: int, z: int, X: int)
    requires Cong(r, l * z, p) && Cong(sum, e * (z * z), p)
    requires Cong(u, x * (z * z), p) && Cong(s, y * (z * z * z), p)
    requires Cong(X, r * r - sum, p)
    ensures Cong(X, (l * l - e) * (z * z), p)
    ensures Cong(r * (u - X) - s, (l * (x - (l * l - e)) - y) * (z * z * z), p)
  {
    var w := l * l - e;
    CongMul(r, l * z, r, l * z, p);
    CongAdd(r * r, (l * z) * (l * z), sum, e * (z * z), p);
    SquareFactor(l, e, z);
    CongTrans(X, r * r - sum, w * (z * z), p);
    CongAdd(u, x * (z * z), X, w * (z * z), p);
    CongMul(r, l * z, u - X, x * (z * z) - w * (z * z), p);
    CongAdd(r * (u - X), (l * z) * (x * (z * z) - w * (z * z)), s, y * (z * z * z), p);
    CubicFactor(l, x, w, y, z);
  }

  lemma SquareFactor(l: int, e: int, z: int)
    ensures (l * z) * (l * z) - e * (z * z) == (l * l - e) * (z * z)
  {
  }

  lemma CubicFactor(l: int, x: int, w: int, y: int, z: int)
    ensures (l * z) * (x * (z * z) - w * (z * z)) - y * (z * z * z) == (l * (x - w) - y) * (z * z * z)
  {
    assert x * (z * z) - w * (z * z) == (x - w) * (z * z);
    assert (l * z) * ((x - w) * (z * z)) == (l * (x - w)) * (z * z * z);
  }

  /** The new Z of a doubling in affine terms. */
  lemma NewZStands(p: int, Y0: int, Y: int, Z: int, z: int)
    requires Cong(Y0, Y, p) && Cong(z, 2 * (Y0 * Z), p)
    ensures Cong(z, 2 * (Y * Z), p)
  {
    CongRefl(Z, p);
    CongRefl(2, p);
    CongMul(Y0, Y, Z, Z, p);
    CongMul(2, 2, Y0 * Z, Y * Z, p);
    CongTrans(z, 2 * (Y0 * Z), 2 * (Y * Z), p);
  }

  lemma FactoredSlope(p: int, X0: int, X: int, u: int)
    requires Cong(X0, X, p)
    ensures Cong(3 * ((X0 - u) * (X0 + u)), 3 * ((X - u) * (X + u)), p)
  {
    CongRefl(u, p);
    CongRefl(3, p);
    CongAdd(X0, X, u, u, p);
    CongMul(X0 - u, X - u, X0 + u, X + u, p);
    CongMul(3, 3, (X0 - u) * (X0 + u), (X - u) * (X + u), p);
  }

  lemma SlopeTimesZ(p: int, l: int, n: int, d: int, f: int, z: int, w: int)
    requires Cong(l * d, n, p) && Cong(z, w, p) && (l * d) * f == l * w
    ensures Cong(n * f, l * z, p)
  {
    CongSym(l * d, n, p);
    CongSym(z, w, p);
    CongRefl(f, p);
    CongRefl(l, p);
    CongMul(n, l * d, f, f, p);
    CongMul(l, l, w, z, p);
    CongTrans(n * f, l * w, l * z, p);
  }

  /** A doubling's M is the slope times the new Z. */
  lemma SlopeTermStands(p: int, t: Triple, x: int, y: int, l: int, z: int)
    requires Scaled2(t.x, x, t.z, p) && Scaled3(t.y, y, t.z, p)
    requires Cong(l * (2 * y), 3 * (x * x) - 3, p)
    requires Cong(z, 2 * (t.y * t.z), p)
    ensures Cong(3 * ((t.x - t.z * t.z) * (t.x + t.z * t.z)), l * z, p)
    ensures Cong(z, (2 * y) * ((t.z * t.z) * (t.z * t.z)), p)
  {
    var X, Y, Z := x * (t.z * t.z), y * (t.z * t.z * t.z), t.z;
    NewZStands(p, t.y, Y, Z, z);
    FactoredSlope(p, t.x, X, Z * Z);
    SlopeTerm(x, y, l, Z);
    SlopeTimesZ(p, l, 3 * (x * x) - 3, 2 * y, (Z * Z) * (Z * Z), z, 2 * (Y * Z));
    CongTrans(3 * ((t.x - Z * Z) * (t.x + Z * Z)), 3 * ((X - Z * Z) * (X + Z * Z)), l * z, p);
  }

  /** A doubling's S and 8 Y^4 are x z^2 and y z^3 for the new z. */
  lemma PowerTermsStand(p: int, t: Triple, x: int, y: int, z: int)
    requires Scaled2(t.x, x, t.z, p) && Scaled3(t.y, y, t.z, p)
    requires Cong(z, 2 * (t.y * t.z), p)
    ensures Cong(4 * (t.x * (t.y * t.y)), x * (z * z), p)
    ensures Cong(8 * ((t.y * t.y) * (t.y * t.y)), y * (z * z * z), p)
  {
    var X, Y, w := x * (t.z * t.z), y * (t.z * t.z * t.z), 2 * (t.y * t.z);
    var yy := t.y * t.y;
    CongSym(z, w, p);
    CongMul(w, z, w, z, p);
    CongMul(w * w, z * z, w, z, p);
    CongRefl(x, p);
    CongRefl(y, p);
    CongMul(x, x, w * w, z * z, p);
    CongMul(y, y, w * w * w, z * z * z, p);
    SquareTerm(x, t.y, t.z);
    FourthTerm(y, t.y, t.z);
    CongRefl(yy, p);
    CongRefl(4, p);
    CongMul(t.x, X, yy, yy, p);
    CongMul(4, 4, t.x * yy, X * yy, p);
    CongTrans(4 * (t.x * yy), x * (w * w), x * (z * z), p);
    CongRefl(t.y, p);
    CongRefl(8, p);
    CongMul(t.y, Y, t.y, t.y, p);
    CongMul(t.y * t.y, Y * t.y, yy, yy, p);
    CongMul(8, 8, yy * yy, (Y * t.y) * yy, p);
    CongTrans(8 * (yy * yy), y * (w * w * w), y * (z * z * z), p);
  }

  /** The new Z of a doubling vanishes exactly when y does. */
  lemma DoubleZ(p: int, y: int, Z: int, z: int)
    requires IsPrime(p) && p > 3 && 0 <= y < p && 0 < Z < p && 0 <= z < p
    requires Cong(z, (2 * y) * ((Z * Z) * (Z * Z)), p)
    ensures z == 0 <==> y == 0
  {
    if y == 0 {
      CongResidues(z, 0, p);
    } else {
      TwiceNonzero(y, p);
      NonzeroProduct(Z, Z, p);
      NonzeroProduct(Z * Z, Z * Z, p);
      NonzeroProduct(2 * y, (Z * Z) * (Z * Z), p);
      CongIffMod(z, (2 * y) * ((Z * Z) * (Z * Z)), p);
      SmallMod(0, p);
    }
  }

  /** The doubling formula computes the affine double, in every case. */
  lemma DoubleStands(c: Params, t: Triple, a: Affine)
    requires c.Valid() && Reduced(t, c.p) && InField(c, a) && Stands(c, t, a)
    ensures Reduced(DoubleTriple(c.p, t), c.p)
    ensures Stands(c, DoubleTriple(c.p, t), Double(c, a))
  {
    if a.Pt? {
      var p, r := c.p, DoubleTriple(c.p, t);
      DoublePolynomials(p, t);
      if a.y == 0 {
        CongRefl(0, p);
        CongScaleZero(0, t.z * t.z * t.z, p);
        CongScaleZero(t.y, t.z, p);
        CongScaleZero(t.y * t.z, 2, p);
        CongTrans(r.z, 2 * (t.y * t.z), 0, p);
        CongResidues(r.z, 0, p);
      } else {
        TwiceNonzero(a.y, p);
        var l := Slope(3 * (a.x * a.x) - 3, 2 * a.y, p);
        SlopeTermStands(p, t, a.x, a.y, l, r.z);
        PowerTermsStand(p, t, a.x, a.y, r.z);
        DoubleZ(p, a.y, t.z, r.z);
        DoubleEnding(p, t, r, a.x, a.y, l);
        ThirdStands(c, l, a.x, a.y, a.x, r);
      }
    }
  }

  lemma DoubleEnding(p: int, t: Triple, r: Triple, x: int, y: int, l: int)
    requires p > 0
    requires var m, s := 3 * ((t.x - t.z * t.z) * (t.x + t.z * t.z)), 4 * (t.x * (t.y * t.y));
      && Cong(m, l * r.z, p) && Cong(s, x * (r.z * r.z), p)
      && Cong(8 * ((t.y * t.y) * (t.y * t.y)), y * (r.z * r.z * r.z), p)
      && Cong(r.x, m * m - s - s, p)
      && Cong(r.y, m * (s - (m * m - s - s)) - 8 * ((t.y * t.y) * (t.y * t.y)), p)
    ensures Cong(r.x, (l * l - x - x) * (r.z * r.z), p)
    ensures Cong(r.y, (l * (x - (l * l - x - x)) - y) * (r.z * r.z * r.z), p)
  {
    var m, s, q := 3 * ((t.x - t.z * t.z) * (t.x + t.z * t.z)), 4 * (t.x * (t.y * t.y)), 8 * ((t.y * t.y) * (t.y * t.y));
    var z := r.z;
    CongAdd(s, x * (z * z), s, x * (z * z), p);
    assert x * (z * z) + x * (z * z) == (2 * x) * (z * z);
    var X := m * m - s - s;
    CongRefl(X, p);
    Ending(p, m, s + s, s, q, l, 2 * x, x, y, z, X);
    CongTrans(r.x, X, (l * l - 2 * x) * (z * z), p);
    CongTrans(r.y, m * (s - X) - q, (l * (x - (l * l - 2 * x)) - y) * (z * z * z), p);
  }

  // ------------------------------------------------- addition

  /** Cross-multiplying by the other Z puts both points over the common w = Z1 Z2. */
  lemma CrossX(p: int, X: int, x: int, z1: int, z2: int)
    requires p > 0 && Scaled2(X, x, z1, p)
    ensures Cong(MulMod(X, MulMod(z2, z2, p), p), x * ((z1 * z2) * (z1 * z2)), p)
  {
    CongRefl(z2, p);
    CongMulMod(z2, z2, z2, z2, p);
    CongMulMod(X, x * (z1 * z1), MulMod(z2, z2, p), z2 * z2, p);
    Shuffle(z1, z1, z2, z2);
    assert (x * (z1 * z1)) * (z2 * z2) == x * ((z1 * z1) * (z2 * z2));
  }

  lemma CrossY(p: int, Y: int, y: int, z1: int, z2: int)
    requires p > 0 && Scaled3(Y, y, z1, p)
    ensures Cong(MulMod(MulMod(Y, z2, p), MulMod(z2, z2, p), p), y * ((z1 * z2) * (z1 * z2) * (z1 * z2)), p)
  {
    CongRefl(z2, p);
    CongMulMod(z2, z2, z2, z2, p);
    CongMulMod(Y, y * (z1 * z1 * z1), z2, z2, p);
    CongMulMod(MulMod(Y, z2, p), (y * (z1 * z1 * z1)) * z2, MulMod(z2, z2, p), z2 * z2, p);
    CubeProduct(y, z1, z2);
  }

  lemma CubeProduct(y: int, z1: int, z2: int)
    ensures ((y * (z1 * z1 * z1)) * z2) * (z2 * z2) == y * ((z1 * z2) * (z1 * z2) * (z1 * z2))
  {
    var A, B := z1 * z1 * z1, z2 * z2 * z2;
    assert ((y * A) * z2) * (z2 * z2) == (y * A) * B;
    assert (z1 * z2) * (z1 * z2) * (z1 * z2) == A * B;
    assert (y * A) * B == y * (A * B);
  }

  /** A difference scaled by a nonzero factor vanishes only when the two sides are equal. */
  lemma ScaledDifference(p: int, h: int, x1: int, x2: int, k: int)
    requires IsPrime(p) && 0 <= h < p && 0 <= x1 < p && 0 <= x2 < p && k % p != 0
    requires Cong(h, x2 * k - x1 * k, p)
    ensures h == 0 <==> x1 == x2
  {
    assert x2 * k - x1 * k == (x2 - x1) * k;
    CongIffMod(h, (x2 - x1) * k, p);
    SmallMod(h, p);
    SmallMod(0, p);
    if x1 != x2 {
      DifferenceNonzero(x2, x1, p);
      if h == 0 {
        Euclid(x2 - x1, k, p);
      }
    }
  }

  /** The terms of an addition over the common w, in terms of the new Z = w h. */
  lemma AddTermsStand(p: int, l: int, x1: int, y1: int, x2: int, y2: int, w: int,
                      h: int, r: int, u1: int, s1: int, h2: int, h3: int, v: int, q: int, z: int)
    requires Cong(l * (x2 - x1), y2 - y1, p)
    requires Cong(h, (x2 - x1) * (w * w), p) && Cong(r, (y2 - y1) * (w * w * w), p)
    requires Cong(u1, x1 * (w * w), p) && Cong(s1, y1 * (w * w * w), p)
    requires Cong(h2, h * h, p) && Cong(h3, h * (h * h), p)
    requires Cong(v, u1 * (h * h), p) && Cong(q, s1 * (h * (h * h)), p) && Cong(z, w * h, p)
    ensures Cong(r, l * z, p)
    ensures Cong(h3, (x2 - x1) * (z * z), p)
    ensures Cong(v, x1 * (z * z), p)
    ensures Cong(q, y1 * (z * z * z), p)
  {
    var d, n := x2 - x1, y2 - y1;
    SlopeOverW(p, l, d, n, w, h, r, z);
    SquareOverW(p, h, d, w, h, z);
    CongTrans(h3, h * (h * h), d * (z * z), p);
    SquareOverW(p, u1, x1, w, h, z);
    CongTrans(v, u1 * (h * h), x1 * (z * z), p);
    CubeOverW(p, s1, y1, w, h, z);
    CongTrans(q, s1 * (h * (h * h)), y1 * (z * z * z), p);
  }

  lemma SlopeOverW(p: int, l: int, d: int, n: int, w: int, h: int, r: int, z: int)
    requires Cong(l * d, n, p) && Cong(h, d * (w * w), p) && Cong(r, n * (w * w * w), p) && Cong(z, w * h, p)
    ensures Cong(r, l * z, p)
  {
    CongSym(l * d, n, p);
    CongRefl(w * w * w, p);
    CongMul(n, l * d, w * w * w, w * w * w, p);
    assert (l * d) * (w * w * w) == l * (w * (d * (w * w))) by {
      assert w * (d * (w * w)) == d * (w * w * w);
    }
    CongSym(h, d * (w * w), p);
    CongRefl(w, p);
    CongMul(w, w, d * (w * w), h, p);
    CongSym(z, w * h, p);
    CongTrans(w * (d * (w * w)), w * h, z, p);
    CongRefl(l, p);
    CongMul(l, l, w * (d * (w * w)), z, p);
    CongTrans(r, n * (w * w * w), l * (w * (d * (w * w))), p);
    CongTrans(r, l * (w * (d * (w * w))), l * z, p);
  }

  lemma SquareOverW(p: int, u: int, x: int, w: int, h: int, z: int)
    requires Cong(u, x * (w * w), p) && Cong(z, w * h, p)
    ensures Cong(u * (h * h), x * (z * z), p)
  {
    CongRefl(h * h, p);
    CongMul(u, x * (w * w), h * h, h * h, p);
    Shuffle(w, w, h, h);
    assert (x * (w * w)) * (h * h) == x * ((w * h) * (w * h));
    CongSym(z, w * h, p);
    CongMul(w * h, z, w * h, z, p);
    CongRefl(x, p);
    CongMul(x, x, (w * h) * (w * h), z * z, p);
    CongTrans(u * (h * h), x * ((w * h) * (w * h)), x * (z * z), p);
  }

  lemma CubeOverW(p: int, s: int, y: int, w: int, h: int, z: int)
    requires Cong(s, y * (w * w * w), p) && Cong(z, w * h, p)
    ensures Cong(s * (h * (h * h)), y * (z * z * z), p)
  {
    var g := w * h;
    CongRefl(h * (h * h), p);
    CongMul(s, y * (w * w * w), h * (h * h), h * (h * h), p);
    assert (w * w * w) * (h * (h * h)) == g * g * g;
    assert (y * (w * w * w)) * (h * (h * h)) == y * (g * g * g);
    CongSym(z, g, p);
    CongMul(g, z, g, z, p);
    CongMul(g * g, z * z, g, z, p);
    CongRefl(y, p);
    CongMul(y, y, g * g * g, z * z * z, p);
    CongTrans(s * (h * (h * h)), y * (g * g * g), y * (z * z * z), p);
  }

  /** The common terms of an addition. */
  datatype Cross = Cross(u1: int, u2: int, s1: int, s2: int, h: int, r: int)

  function CrossOf(p: int, t: Triple, u: Triple): Cross
    requires p > 0
  {
    var z1z1, z2z2 := MulMod(t.z, t.z, p), MulMod(u.z, u.z, p);
    var u1, u2 := MulMod(t.x, z2z2, p), MulMod(u.x, z1z1, p);
    var s1, s2 := MulMod(MulMod(t.y, u.z, p), z2z2, p), MulMod(MulMod(u.y, t.z, p), z1z1, p);
    Cross(u1, u2, s1, s2, SubMod(u2, u1, p), SubMod(s2, s1, p))
  }

  lemma CrossStands(c: Params, t: Triple, u: Triple, a: Affine, o: Affine)
    requires c.Valid() && Stands(c, t, a) && Stands(c, u, o) && a.Pt? && o.Pt?
    ensures var w, k := t.z * u.z, CrossOf(c.p, t, u);
      && Cong(k.u1, a.x * (w * w), c.p) && Cong(k.s1, a.y * (w * w * w), c.p)
      && Cong(k.h, o.x * (w * w) - a.x * (w * w), c.p)
      && Cong(k.r, o.y * (w * w * w) - a.y * (w * w * w), c.p)
      && Cong(k.h, (o.x - a.x) * (w * w), c.p)
      && Cong(k.r, (o.y - a.y) * (w * w * w), c.p)
  {
    var p, w, k := c.p, t.z * u.z, CrossOf(c.p, t, u);
    CrossX(p, t.x, a.x, t.z, u.z);
    CrossX(p, u.x, o.x, u.z, t.z);
    CrossY(p, t.y, a.y, t.z, u.z);
    CrossY(p, u.y, o.y, u.z, t.z);
    assert u.z * t.z == w;
    CongAddMod(k.u2, o.x * (w * w), k.u1, a.x * (w * w), p);
    CongAddMod(k.s2, o.y * (w * w * w), k.s1, a.y * (w * w * w), p);
    Distribute(o.x, a.x, w * w);
    Distribute(o.y, a.y, w * w * w);
  }

  lemma Distribute(x: int, y: int, k: int)
    ensures x * k - y * k == (x - y) * k
  {
  }

  /** The chord case of an addition. */
  lemma ChordStands(c: Params, t: Triple, u: Triple, a: Affine, o: Affine)
    requires c.Valid() && Reduced(t, c.p) && Reduced(u, c.p) && Stands(c, t, a) && Stands(c, u, o)
    requires a.Pt? && o.Pt? && InField(c, a) && InField(c, o) && a.x != o.x && CrossOf(c.p, t, u).h != 0
    requires (o.x - a.x) % c.p != 0
    ensures Stands(c, AddTriple(c.p, t, u), Third(c, Slope(o.y - a.y, o.x - a.x, c.p), a.x, a.y, o.x))
  {
    var p, w, k := c.p, t.z * u.z, CrossOf(c.p, t, u);
    var l := Slope(o.y - a.y, o.x - a.x, p);
    var r := AddTriple(p, t, u);
    CrossStands(c, t, u, a, o);
    var h2 := MulMod(k.h, k.h, p);
    var h3 := MulMod(k.h, h2, p);
    var v := MulMod(k.u1, h2, p);
    var q := MulMod(k.s1, h3, p);
    var rr := MulMod(k.r, k.r, p);
    var vv := AddMod(v, v, p);
    var tz := MulMod(t.z, u.z, p);
    CongRefl(k.h, p); CongRefl(k.u1, p); CongRefl(k.s1, p); CongRefl(k.r, p); CongRefl(t.z, p); CongRefl(u.z, p);
    CongMulMod(k.h, k.h, k.h, k.h, p);
    CongMulMod(k.h, k.h, h2, k.h * k.h, p);
    CongMulMod(k.u1, k.u1, h2, k.h * k.h, p);
    CongMulMod(k.s1, k.s1, h3, k.h * (k.h * k.h), p);
    CongMulMod(t.z, t.z, u.z, u.z, p);
    CongMulMod(tz, w, k.h, k.h, p);
    AddTermsStand(p, l, a.x, a.y, o.x, o.y, w, k.h, k.r, k.u1, k.s1, h2, h3, v, q, r.z);
    CongRefl(v, p); CongRefl(h3, p); CongRefl(q, p);
    CongMulMod(k.r, k.r, k.r, k.r, p);
    CongAddMod(rr, k.r * k.r, h3, h3, p);
    CongAddMod(v, v, v, v, p);
    CongAddMod(SubMod(rr, h3, p), k.r * k.r - h3, vv, v + v, p);
    CongAdd(h3, (o.x - a.x) * (r.z * r.z), v + v, a.x * (r.z * r.z) + a.x * (r.z * r.z), p) by {
      CongAdd(v, a.x * (r.z * r.z), v, a.x * (r.z * r.z), p);
    }
    SumOfTerms(a.x, o.x, r.z * r.z);
    Ending(p, k.r, h3 + (v + v), v, q, l, a.x + o.x, a.x, a.y, r.z, r.x);
    CongRefl(r.x, p);
    CongAddMod(v, v, r.x, r.x, p);
    CongMulMod(k.r, k.r, SubMod(v, r.x, p), v - r.x, p);
    CongAddMod(MulMod(k.r, SubMod(v, r.x, p), p), k.r * (v - r.x), q, q, p);
    CongTrans(r.y, k.r * (v - r.x) - q, (l * (a.x - (l * l - (a.x + o.x))) - a.y) * (r.z * r.z * r.z), p);
    NewZNonzero(p, t.z, u.z, k.h, r.z);
    ThirdStands(c, l, a.x, a.y, o.x, r);
  }

  lemma SumOfTerms(x1: int, x2: int, k: int)
    ensures (x2 - x1) * k + (x1 * k + x1 * k) == (x1 + x2) * k
  {
  }

  lemma NewZNonzero(p: int, z1: int, z2: int, h: int, z: int)
    requires IsPrime(p) && 0 < z1 < p && 0 < z2 < p && 0 < h < p && 0 <= z < p
    requires Cong(z, (z1 * z2) * h, p)
    ensures z != 0
  {
    NonzeroProduct(z1, z2, p);
    NonzeroProduct(z1 * z2, h, p);
    CongIffMod(z, (z1 * z2) * h, p);
    SmallMod(0, p);
  }

  lemma CommonFactorNonzero(p: int, z1: int, z2: int)
    requires IsPrime(p) && 0 < z1 < p && 0 < z2 < p
    ensures var w := z1 * z2; (w * w) % p != 0 && (w * w * w) % p != 0
  {
    var w := z1 * z2;
    NonzeroProduct(z1, z2, p);
    NonzeroProduct(w, w, p);
    NonzeroProduct(w * w, w, p);
  }

  /** The addition formula computes the affine sum, in every branch. */
  lemma AddStands(c: Params, t: Triple, u: Triple, a: Affine, o: Affine)
    requires c.Valid() && Reduced(t, c.p) && Reduced(u, c.p)
    requires OnCurve(c, a) && OnCurve(c, o) && Stands(c, t, a) && Stands(c, u, o)
    ensures Reduced(AddTriple(c.p, t, u), c.p)
    ensures Stands(c, AddTriple(c.p, t, u), Add(c, a, o))
  {
    AddReduced(c.p, t, u);
    if a.Pt? && o.Pt? {
      var p, w, k := c.p, t.z * u.z, CrossOf(c.p, t, u);
      CrossStands(c, t, u, a, o);
      CommonFactorNonzero(p, t.z, u.z);
      ScaledDifference(p, k.h, a.x, o.x, w * w);
      ScaledDifference(p, k.r, a.y, o.y, w * w * w);
      if k.h == 0 {
        DoubleStands(c, t, a);
      } else {
        DifferenceNonzero(o.x, a.x, p);
        ChordStands(c, t, u, a, o);
      }
    }
  }

  lemma AddReduced(p: int, t: Triple, u: Triple)
    requires p > 0 && Reduced(t, p) && Reduced(u, p)
    ensures Reduced(AddTriple(p, t, u), p)
  {
  }
}
