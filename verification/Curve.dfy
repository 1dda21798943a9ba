/** The curve y^2 = x^3 - 3x + b with the affine chord-and-tangent law of section 2.2.1 of SEC 1 as the reference. */
module Curve {
  import opened NumberTheory
  import opened Multiples

  datatype Affine = Infinity | Pt(x: int, y: int)

  /** The field and the coefficient b; the coefficient a is -3. */
  datatype Params = Params(p: int, b: int) {
    ghost predicate Valid() {
      IsPrime(p) && p > 3
    }
  }

  predicate InField(c: Params, a: Affine) {
    a.Pt? ==> 0 <= a.x < c.p && 0 <= a.y < c.p
  }

  function Cubic(x: int, b: int): int {
    x * x * x - 3 * x + b
  }

  ghost predicate OnCurve(c: Params, a: Affine) {
    && InField(c, a)
    && (a.Pt? ==> Cong(a.y * a.y, Cubic(a.x, c.b), c.p))
  }

  /** The slope n / d. */
  ghost function Slope(n: int, d: int, p: int): (l: int)
    requires IsPrime(p) && d % p != 0
    ensures Cong(l * d, n, p)
  {
    SlopeExists(n, d, p);
    n * Inv(d % p, p)
  }

  lemma Undone(n: int, d: int, k: int, p: int)
    requires p > 0 && Cong(d % p * k, 1, p)
    ensures Cong(n * k * d, n, p)
  {
    CongMod(d, p);
    CongRefl(k, p);
    CongMul(d, d % p, k, k, p);
    CongTrans(d * k, d % p * k, 1, p);
    CongRefl(n, p);
    CongMul(n, n, d * k, 1, p);
    assert n * k * d == n * (d * k);
  }

  lemma SlopeExists(n: int, d: int, p: int)
    requires IsPrime(p) && d % p != 0
    ensures Cong(n * Inv(d % p, p) * d, n, p)
  {
    Undone(n, d, Inv(d % p, p), p);
  }

  /** Where the line of slope l through (x1, y1) meets the curve again, reflected. */
  function Third(c: Params, l: int, x1: int, y1: int, x2: int): Affine
    requires c.p > 0
  {
    var x3 := (l * l - x1 - x2) % c.p;
    Pt(x3, (l * (x1 - x3) - y1) % c.p)
  }

  /** Doubling: the tangent. */
  ghost function Double(c: Params, a: Affine): Affine
    requires c.Valid() && InField(c, a)
  {
    if a.Infinity? || a.y == 0 then Infinity
    else
      TwiceNonzero(a.y, c.p);
      Third(c, Slope(3 * (a.x * a.x) - 3, 2 * a.y, c.p), a.x, a.y, a.x)
  }

  /** Addition: the chord, the tangent for equal points, infinity for opposite ones. */
  ghost function Add(c: Params, a: Affine, o: Affine): Affine
    requires c.Valid() && OnCurve(c, a) && OnCurve(c, o)
  {
    if a.Infinity? then o
    else if o.Infinity? then a
    else if a == o then Double(c, a)
    else if a.x == o.x then Infinity
    else
      DifferenceNonzero(o.x, a.x, c.p);
      Third(c, Slope(o.y - a.y, o.x - a.x, c.p), a.x, a.y, o.x)
  }

  lemma TwiceNonzero(y: int, p: int)
    requires IsPrime(p) && p > 3 && 0 < y < p
    ensures (2 * y) % p != 0
  {
    SmallMod(2, p);
    SmallMod(y, p);
    if (2 * y) % p == 0 {
      Euclid(2, y, p);
    }
  }

  lemma DifferenceNonzero(x: int, y: int, p: int)
    requires p > 0 && 0 <= x < p && 0 <= y < p && x != y
    ensures (x - y) % p != 0
  {
    if (x - y) % p == 0 {
      CongZero(x - y, p);
      CongRefl(y, p);
      CongAdd(x - y, 0, y, y, p);
      CongResidues(x, y, p);
    }
  }

  // ------------------------------------------------- the law stays on the curve

  /** The cubic minus the square of the line, as a polynomial in x. */
  function Residual(x: int, b: int, l: int, x1: int, y1: int): int {
    Cubic(x, b) - (l * (x - x1) + y1) * (l * (x - x1) + y1)
  }

  /** Expansion of the residual by its divided differences at the two points of a chord. */
  lemma ChordExpansion(x: int, b: int, l: int, x1: int, y1: int, x2: int)
    ensures Residual(x, b, l, x1, y1)
      == Residual(x1, b, l, x1, y1) + Divided(l, x1, y1, x2) * (x - x1)
         + ((x - x1) * (x - x2)) * (x + x1 + x2 - l * l)
  {
  }

  /** The first divided difference of the residual between x1 and x2. */
  function Divided(l: int, x1: int, y1: int, x2: int): int {
    x1 * x1 + x1 * x2 + x2 * x2 - 3 - (l * l) * (x2 - x1) - 2 * l * y1
  }

  lemma CubicDifference(b: int, x1: int, x2: int)
    ensures Cubic(x2, b) - Cubic(x1, b) == (x1 * x1 + x1 * x2 + x2 * x2 - 3) * (x2 - x1)
  {
  }

  lemma SquareDifference(l: int, d: int, y: int)
    ensures (l * d + y) * (l * d + y) - y * y == (l * l) * d * d + 2 * l * y * d
  {
  }

  lemma Combined(c1: int, c2: int, s1: int, s2: int, a: int, u: int, v: int, d: int)
    requires c2 - c1 == a * d && s2 - s1 == u * d + v * d
    ensures (c2 - s2) - (c1 - s1) == (a - u - v) * d
  {
  }

  lemma DividedDifference(b: int, l: int, x1: int, y1: int, x2: int)
    ensures Residual(x2, b, l, x1, y1) - Residual(x1, b, l, x1, y1) == Divided(l, x1, y1, x2) * (x2 - x1)
  {
    var d := x2 - x1;
    var far := l * d + y1;
    CubicDifference(b, x1, x2);
    SquareDifference(l, d, y1);
    Combined(Cubic(x1, b), Cubic(x2, b), y1 * y1, far * far, x1 * x1 + x1 * x2 + x2 * x2 - 3, (l * l) * d, 2 * l * y1, d);
  }

  lemma CongSubZero(x: int, y: int, p: int)
    requires Cong(x, y, p)
    ensures Cong(x - y, 0, p) && Cong(y - x, 0, p)
  {
    CongRefl(y, p);
    CongAdd(x, y, y, y, p);
    CongSym(x, y, p);
    CongRefl(x, p);
    CongAdd(y, x, x, x, p);
  }

  lemma CongScaleZero(x: int, k: int, p: int)
    requires Cong(x, 0, p)
    ensures Cong(x * k, 0, p) && Cong(k * x, 0, p)
  {
    CongRefl(k, p);
    CongMul(x, 0, k, k, p);
    CongMul(k, k, x, 0, p);
  }

  /** A line through (x1, y1) whose divided difference at x2 vanishes meets the curve at Third. */
  lemma ThirdOnCurve(c: Params, l: int, x1: int, y1: int, x2: int)
    requires c.p > 0 && Cong(y1 * y1, Cubic(x1, c.b), c.p)
    requires Cong(Divided(l, x1, y1, x2), 0, c.p)
    ensures OnCurve(c, Third(c, l, x1, y1, x2))
  {
    var p, d := c.p, Divided(l, x1, y1, x2);
    var x3, w := Third(c, l, x1, y1, x2).x, l * l - x1 - x2;
    ChordExpansion(x3, c.b, l, x1, y1, x2);
    CongSubZero(y1 * y1, Cubic(x1, c.b), p);
    CongMod(w, p);
    CongSubZero(x3, w, p);
    CongScaleZero(d, x3 - x1, p);
    CongScaleZero(x3 - w, (x3 - x1) * (x3 - x2), p);
    var r := Residual(x3, c.b, l, x1, y1);
    CongAdd(Cubic(x1, c.b) - y1 * y1, 0, d * (x3 - x1), 0, p);
    CongAdd(Cubic(x1, c.b) - y1 * y1 + d * (x3 - x1), 0, ((x3 - x1) * (x3 - x2)) * (x3 - w), 0, p);
    assert Cong(r, 0, p);
    var v := l * (x1 - x3) - y1;
    assert v * v == Cubic(x3, c.b) - r by { LineSquare(l, x1, y1, x3, c.b); }
    CongMod(v, p);
    CongMul(v % p, v, v % p, v, p);
    CongRefl(Cubic(x3, c.b), p);
    CongAdd(Cubic(x3, c.b), Cubic(x3, c.b), r, 0, p);
    CongTrans((v % p) * (v % p), v * v, Cubic(x3, c.b), p);
  }

  lemma LineSquare(l: int, x1: int, y1: int, x: int, b: int)
    ensures (l * (x1 - x) - y1) * (l * (x1 - x) - y1) == Cubic(x, b) - Residual(x, b, l, x1, y1)
  {
  }

  lemma TangentVanishes(l: int, x: int, y: int, p: int)
    requires Cong(l * (2 * y), 3 * (x * x) - 3, p)
    ensures Cong(Divided(l, x, y, x), 0, p)
  {
    CongSubZero(l * (2 * y), 3 * (x * x) - 3, p);
    assert Divided(l, x, y, x) == 3 * (x * x) - 3 - l * (2 * y) by { TangentDivided(l, x, y); }
  }

  lemma TangentDivided(l: int, x: int, y: int)
    ensures Divided(l, x, y, x) == 3 * (x * x) - 3 - l * (2 * y)
  {
  }

  lemma ChordVanishes(c: Params, l: int, x1: int, y1: int, x2: int, y2: int)
    requires IsPrime(c.p) && (x2 - x1) % c.p != 0
    requires Cong(l * (x2 - x1), y2 - y1, c.p)
    requires Cong(y1 * y1, Cubic(x1, c.b), c.p) && Cong(y2 * y2, Cubic(x2, c.b), c.p)
    ensures Cong(Divided(l, x1, y1, x2), 0, c.p)
  {
    var p, d, v := c.p, Divided(l, x1, y1, x2), l * (x2 - x1) + y1;
    CongRefl(y1, p);
    CongAdd(l * (x2 - x1), y2 - y1, y1, y1, p);
    CongMul(v, y2, v, y2, p);
    CongTrans(v * v, y2 * y2, Cubic(x2, c.b), p);
    CongSubZero(v * v, Cubic(x2, c.b), p);
    CongSubZero(y1 * y1, Cubic(x1, c.b), p);
    CongAdd(Cubic(x2, c.b) - v * v, 0, Cubic(x1, c.b) - y1 * y1, 0, p);
    DividedDifference(c.b, l, x1, y1, x2);
    assert Residual(x1, c.b, l, x1, y1) == Cubic(x1, c.b) - y1 * y1;
    CongZero(d * (x2 - x1), p);
    Euclid(d, x2 - x1, p);
    CongZero(d, p);
  }

  lemma DoubleOnCurve(c: Params, a: Affine)
    requires c.Valid() && OnCurve(c, a)
    ensures OnCurve(c, Double(c, a))
  {
    if a.Pt? && a.y != 0 {
      TwiceNonzero(a.y, c.p);
      var l := Slope(3 * (a.x * a.x) - 3, 2 * a.y, c.p);
      TangentVanishes(l, a.x, a.y, c.p);
      ThirdOnCurve(c, l, a.x, a.y, a.x);
    }
  }

  lemma AddOnCurve(c: Params, a: Affine, o: Affine)
    requires c.Valid() && OnCurve(c, a) && OnCurve(c, o)
    ensures OnCurve(c, Add(c, a, o))
  {
    if a.Infinity? || o.Infinity? {
    } else if a == o {
      DoubleOnCurve(c, a);
    } else if a.x != o.x {
      DifferenceNonzero(o.x, a.x, c.p);
      var l := Slope(o.y - a.y, o.x - a.x, c.p);
      ChordVanishes(c, l, a.x, a.y, o.x, o.y);
      ThirdOnCurve(c, l, a.x, a.y, o.x);
    }
  }

  // ------------------------------------------------- scalar multiples

  /** Add as a total operation: infinity off the curve, where it is never used. */
  ghost function Plus(c: Params, a: Affine, o: Affine): (r: Affine)
    requires c.Valid()
  {
    if OnCurve(c, a) && OnCurve(c, o) then Add(c, a, o) else Infinity
  }

  ghost function Law(c: Params): (Affine, Affine) -> Affine
    requires c.Valid()
  {
    (a, o) => Plus(c, a, o)
  }

  /** n times a by doubling and adding, from the top bit of n down. */
  ghost function Times(c: Params, n: nat, a: Affine): (r: Affine)
    requires c.Valid()
  {
    Multiple(Law(c), Infinity, n, a)
  }

  lemma {:induction false} TimesOnCurve(c: Params, n: nat, a: Affine)
    requires c.Valid() && OnCurve(c, a)
    ensures OnCurve(c, Times(c, n, a))
  {
    if n > 0 {
      TimesOnCurve(c, n / 2, a);
      var half := Times(c, n / 2, a);
      AddOnCurve(c, half, half);
      if n % 2 == 1 {
        AddOnCurve(c, Plus(c, half, half), a);
      }
    }
  }

  /** One level of Times, with the doubling spelt out. */
  lemma TimesStep(c: Params, n: nat, a: Affine, bit: bool)
    requires c.Valid() && OnCurve(c, a)
    ensures var half := Times(c, n, a); var twice := Double(c, half);
      && OnCurve(c, half) && OnCurve(c, twice)
      && Times(c, 2 * n + if bit then 1 else 0, a) == if bit then Add(c, twice, a) else twice
  {
    TimesOnCurve(c, n, a);
    DoubleOnCurve(c, Times(c, n, a));
    MultipleStep(Law(c), Infinity, n, a, bit);
  }

  /** Addition on the curve is associative: the group law, a hypothesis here. */
  ghost predicate Associative(c: Params)
    requires c.Valid()
  {
    AssociativeOn(Law(c), x => OnCurve(c, x))
  }

  /** Where the group law holds, doubling and adding computes the n-fold sum. */
  lemma TimesIsSum(c: Params, n: nat, a: Affine)
    requires c.Valid() && OnCurve(c, a) && Associative(c)
    ensures Times(c, n, a) == Sum(Law(c), Infinity, n, a)
  {
    ghost var on := x => OnCurve(c, x);
    forall s, t ensures ClosedAt(Law(c), Infinity, on, s, t) {
      if OnCurve(c, s) && OnCurve(c, t) {
        AddOnCurve(c, s, t);
      }
    }
    MultipleIsSum(Law(c), Infinity, on, n, a);
  }
}
