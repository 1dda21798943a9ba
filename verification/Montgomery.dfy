/** Montgomery arithmetic of `p256.rs`: one modulus, residues held as
    multiples of R = 2^256, products by coarsely integrated operand scanning. */
module Montgomery {
  import opened Limbs
  import opened NumberTheory

  // ------------------------------------------------- the two row operations

  /** One limb of t += ai * b. */
  lemma RowStep(w: int, low: int, lowOld: int, ai: int, lowB: int, carry: int,
                tj: int, bj: int, tj': int, carry': int)
    requires low + carry * w == lowOld + ai * lowB
    requires tj' + carry' * BASE == tj + ai * bj + carry
    ensures (low + tj' * w) + carry' * (w * BASE) == (lowOld + tj * w) + ai * (lowB + bj * w)
  {
    assert (tj' + carry' * BASE) * w == (tj + ai * bj + carry) * w;
    assert (tj' + carry' * BASE) * w == tj' * w + carry' * (w * BASE);
    assert (tj + ai * bj + carry) * w == tj * w + (ai * bj) * w + carry * w;
    assert (ai * bj) * w == ai * (bj * w);
    assert ai * (lowB + bj * w) == ai * lowB + ai * (bj * w);
  }

  lemma MulMono(a: int, b: int, c: int, d: int)
    requires 0 <= a <= c && 0 <= b <= d
    ensures 0 <= a * b <= c * d
  {
    assert (c - a) * b >= 0;
    assert c * (d - b) >= 0;
  }

  /** The u128 multiply-accumulate of the inner loops cannot overflow, and its carry is one limb. */
  lemma AccumulateFits(t: U64, x: U64, y: U64, carry: int)
    requires 0 <= carry < BASE
    ensures var v := t as int + x as int * y as int + carry;
      0 <= v < 0x1_0000_0000_0000_0000_0000_0000_0000_0000 && v == v % BASE + v / BASE * BASE && 0 <= v / BASE < BASE
  {
    MulMono(x, y, BASE - 1, BASE - 1);
  }

  /** t += ai * b over the six-limb accumulator. */
  method AddRow(t: array<U64>, ai: U64, b: U256)
    requires t.Length == 6
    requires t[5] == 0
    modifies t
    ensures Low(t[..], 6) == old(Low(t[..], 6)) + ai as int * Val(b)
  {
    ghost var t0 := t[..];
    var carry: U128 := 0;
    for j := 0 to 4
      invariant carry < BASE
      invariant forall k :: j <= k < 6 ==> t[k] == t0[k]
      invariant Low(t[..], j) + carry as int * Weight(j) == Low(t0, j) + ai as int * Low(b, j)
    {
      AccumulateFits(t[j], ai, b[j], carry);
      var v: U128 := t[j] as int + ai as int * b[j] as int + carry as int;
      RowStep(Weight(j), Low(t[..], j), Low(t0, j), ai, Low(b, j), carry, t[j], b[j],
              v as int % BASE, v as int / BASE);
      ghost var before := t[..];
      t[j] := v as int % BASE;
      carry := v as int / BASE;
      LowLocal(before, t[..], j);
    }
    ghost var t1 := t[..];
    var v: U128 := t[4] as int + carry as int;
    t[4] := v as int % BASE;
    t[5] := v as int / BASE;
    LowLocal(t1, t[..], 4);
    WeightExpand();
    SixLimbs(t0);
    SixLimbs(t[..]);
  }

  /** One limb of t += mu * m with the result moved down a limb. */
  lemma ShiftedRowStep(w: int, low: int, lowOld: int, mu: int, lowM: int, carry: int,
                       tj: int, mj: int, tj': int, carry': int)
    requires (low + carry * w) * BASE == lowOld + mu * lowM
    requires tj' + carry' * BASE == tj + mu * mj + carry
    ensures ((low + tj' * w) + carry' * (w * BASE)) * BASE
      == (lowOld + tj * (w * BASE)) + mu * (lowM + mj * (w * BASE))
  {
    assert (tj' + carry' * BASE) * w == (tj + mu * mj + carry) * w;
    assert (tj' + carry' * BASE) * w == tj' * w + carry' * (w * BASE);
    assert (tj + mu * mj + carry) * w == tj * w + (mu * mj) * w + carry * w;
    assert mu * (lowM + mj * (w * BASE)) == mu * lowM + ((mu * mj) * w) * BASE;
    assert tj * (w * BASE) == (tj * w) * BASE;
  }

  /** The accumulator's value by its low four limbs and its top two. */
  lemma SixLimbs(t: seq<U64>)
    requires |t| == 6
    ensures Low(t, 5) == Low(t, 4) + t[4] as int * R
    ensures Low(t, 6) == Low(t, 4) + t[4] as int * R + t[5] as int * (R * BASE)
  {
    WeightExpand();
    assert Weight(5) == Weight(4) * BASE;
    assert Low(t, 5) == Low(t, 4) + t[4] as int * Weight(4);
    assert Low(t, 6) == Low(t, 5) + t[5] as int * Weight(5);
  }

  /** t = (t + mu * m) / 2^64: the low limb cancels, the rest moves down one. */
  method ReduceRow(t: array<U64>, mu: U64, m: U256)
    requires t.Length == 6
    requires (t[0] as int + mu as int * m[0] as int) % BASE == 0
    requires Low(t[..], 6) + mu as int * Val(m) < 2 * R * BASE
    modifies t
    ensures Low(t[..], 6) * BASE == old(Low(t[..], 6)) + mu as int * Val(m)
    ensures t[5] == 0
  {
    ghost var t0 := t[..];
    AccumulateFits(t[0], mu, m[0], 0);
    var v: U128 := t[0] as int + mu as int * m[0] as int;
    var carry: U128 := v as int / BASE;
    ReduceStart(t0, mu, m, carry);
    for j := 1 to 4
      invariant carry < BASE
      invariant forall k :: j <= k < 6 ==> t[k] == t0[k]
      invariant (Low(t[..], j - 1) + carry as int * Weight(j - 1)) * BASE == Low(t0, j) + mu as int * Low(m, j)
    {
      AccumulateFits(t[j], mu, m[j], carry);
      v := t[j] as int + mu as int * m[j] as int + carry as int;
      ShiftedRowStep(Weight(j - 1), Low(t[..], j - 1), Low(t0, j), mu, Low(m, j), carry, t[j], m[j],
                     v as int % BASE, v as int / BASE);
      ghost var before := t[..];
      t[j - 1] := v as int % BASE;
      carry := v as int / BASE;
      LowLocal(before, t[..], j - 1);
    }
    ghost var t1 := t[..];
    v := t[4] as int + carry as int;
    t[3] := v as int % BASE;
    MulMono(mu, Val(m), BASE, R);
    ReduceTop(t0, t1, mu as int * Val(m), carry);
    t[4] := t[5] as int + v as int / BASE;
    t[5] := 0;
    LowLocal(t1, t[..], 3);
    ReduceEnd(t0, t1, t[..], mu as int * Val(m), carry);
  }

  lemma ReduceStart(t0: seq<U64>, mu: U64, m: U256, carry: int)
    requires |t0| == 6
    requires carry * BASE == t0[0] as int + mu as int * m[0] as int
    ensures (Low(t0, 0) + carry * Weight(0)) * BASE == Low(t0, 1) + mu as int * Low(m, 1)
  {
    WeightExpand();
    LowExpand(m);
    LowExpand(t0);
  }

  /** The top of the accumulator is at most one: `t[5] + (v >> 64)` cannot overflow. */
  lemma ReduceTop(t0: seq<U64>, t1: seq<U64>, muM: int, carry: int)
    requires |t0| == |t1| == 6
    requires muM >= 0
    requires Low(t0, 6) + muM < 2 * R * BASE
    requires (Low(t1, 3) + carry * Weight(3)) * BASE == Low(t0, 4) + muM
    ensures t0[5] as int + (t0[4] as int + carry) / BASE <= 1
  {
    WeightExpand();
    SixLimbs(t0);
  }

  lemma ReduceEnd(t0: seq<U64>, t1: seq<U64>, t2: seq<U64>, muM: int, carry: int)
    requires |t0| == |t1| == |t2| == 6
    requires (Low(t1, 3) + carry * Weight(3)) * BASE == Low(t0, 4) + muM
    requires Low(t2, 3) == Low(t1, 3)
    requires t2[3] as int == (t0[4] as int + carry) % BASE
    requires t2[4] as int == t0[5] as int + (t0[4] as int + carry) / BASE
    requires t2[5] == 0
    ensures Low(t2, 6) * BASE == Low(t0, 6) + muM
  {
    WeightExpand();
    SixLimbs(t0);
    SixLimbs(t2);
    assert Low(t2, 4) == Low(t2, 3) + t2[3] as int * Weight(3);
  }

  /** One outer round of the product: the low i limbs of a, times b, are accounted
      for up to a multiple of m, and t stays below m + b. */
  ghost predicate Round(t: seq<U64>, i: nat, a: U256, b: U256, m: U256, q: int)
    requires |t| == 6 && i <= 4
  {
    && t[5] == 0
    && Low(t, 6) < Val(m) + Val(b)
    && Low(t, 6) * Weight(i) == Low(a, i) * Val(b) + q * Val(m)
  }

  /** Adding ai * b and then mu * m and dropping a limb keeps t below m + b. */
  lemma RoundBound(tOld: int, ai: U64, b: int, mu: U64, m: int, t': int)
    requires 0 <= tOld < m + b && 0 <= b < m < R
    requires t' * BASE == tOld + ai as int * b + mu as int * m
    ensures t' < m + b
  {
    MulMono(ai, b, BASE - 1, b);
    MulMono(mu, m, BASE - 1, m);
  }

  lemma RoundStep(w: int, tOld: int, t': int, lowA: int, ai: int, b: int, mu: int, m: int, q: int)
    requires tOld * w == lowA * b + q * m
    requires t' * BASE == tOld + ai * b + mu * m
    ensures t' * (w * BASE) == (lowA + ai * w) * b + (q + mu * w) * m
  {
    assert (t' * BASE) * w == (tOld + ai * b + mu * m) * w;
    assert (t' * BASE) * w == t' * (w * BASE);
    assert (tOld + ai * b + mu * m) * w == tOld * w + (ai * b) * w + (mu * m) * w;
    assert (ai * b) * w == (ai * w) * b && (mu * m) * w == (mu * w) * m;
    assert (lowA + ai * w) * b == lowA * b + (ai * w) * b;
    assert (q + mu * w) * m == q * m + (mu * w) * m;
  }

  /** mu = t[0] * m0 makes the low limb of t + mu * m vanish. */
  lemma MuCancels(t0: int, m0: int, mLow: int, mu: int)
    requires (m0 * mLow + 1) % BASE == 0
    requires mu == (t0 * m0) % BASE
    ensures (t0 + mu * mLow) % BASE == 0
  {
    CongZero(m0 * mLow + 1, BASE);
    CongRefl(t0, BASE);
    CongMul(t0, t0, m0 * mLow + 1, 0, BASE);
    CongMod(t0 * m0, BASE);
    CongRefl(mLow, BASE);
    CongMul(mu, t0 * m0, mLow, mLow, BASE);
    CongAdd(t0, t0, mu * mLow, (t0 * m0) * mLow, BASE);
    assert t0 * (m0 * mLow + 1) == t0 + (t0 * m0) * mLow;
    CongTrans(t0 + mu * mLow, t0 + (t0 * m0) * mLow, 0, BASE);
    CongZero(t0 + mu * mLow, BASE);
  }

  // ------------------------------------------------- what a residue stands for

  const BITS: nat := 256

  /** The inverse of R modulo an odd m: the 256th power of the half of m + 1. */
  function RInv(m: int): (r: int)
    requires m > 1 && m % 2 == 1
    ensures 0 <= r < m && Cong(R * r, 1, m)
  {
    var half := (m + 1) / 2;
    RInvCorrect(m);
    Pow(half, BITS) % m
  }

  lemma RInvCorrect(m: int)
    requires m > 1 && m % 2 == 1
    ensures Cong(R * (Pow((m + 1) / 2, BITS) % m), 1, m)
  {
    RIsPower(BITS);
    InverseOfPowerOfTwo(BITS, m);
  }

  lemma RIsPower(e: nat)
    requires e == BITS
    ensures R == Pow(2, e)
  {
    PowersOfTwo();
  }

  // ------------------------------------------------- Newton's inverse

  /** The modulus Newton's iteration is exact for after i rounds: 2^(2^i). */
  function NewtonModulus(i: nat): int {
    if i == 0 then 2 else NewtonModulus(i - 1) * NewtonModulus(i - 1)
  }

  lemma NewtonModuli()
    ensures NewtonModulus(0) == 2 && NewtonModulus(1) == 4 && NewtonModulus(2) == 16
    ensures NewtonModulus(3) == 256 && NewtonModulus(4) == 0x1_0000 && NewtonModulus(5) == 0x1_0000_0000
    ensures NewtonModulus(6) == BASE
  {
    assert NewtonModulus(1) == NewtonModulus(0) * NewtonModulus(0);
    assert NewtonModulus(2) == NewtonModulus(1) * NewtonModulus(1);
    assert NewtonModulus(3) == NewtonModulus(2) * NewtonModulus(2);
    assert NewtonModulus(4) == NewtonModulus(3) * NewtonModulus(3);
    assert NewtonModulus(5) == NewtonModulus(4) * NewtonModulus(4);
    assert NewtonModulus(6) == NewtonModulus(5) * NewtonModulus(5);
  }

  lemma NewtonDividesBase(i: nat) returns (k: int)
    requires i <= 6
    ensures NewtonModulus(i) * k == BASE
  {
    NewtonModuli();
    k := if i == 0 then 0x8000_0000_0000_0000 else if i == 1 then 0x4000_0000_0000_0000
         else if i == 2 then 0x1000_0000_0000_0000 else if i == 3 then 0x100_0000_0000_0000
         else if i == 4 then 0x1_0000_0000_0000 else if i == 5 then 0x1_0000_0000 else 1;
  }

  /** One round doubles the number of correct low bits. */
  lemma NewtonStep(x: int, inv: int, inv': int, M: int)
    requires Cong(x * inv, 1, M)
    requires Cong(inv', inv * (2 - x * inv), M * M)
    ensures Cong(x * inv', 1, M * M)
  {
    var q :| CongBy(x * inv, 1, M, q);
    var y := x * inv;
    CongRefl(x, M * M);
    CongMul(x, x, inv', inv * (2 - y), M * M);
    assert x * (inv * (2 - y)) == y * (2 - y);
    calc {
      y * (2 - y);
      (1 + q * M) * (1 - q * M);
      1 - (q * M) * (q * M);
      { Shuffle(q, M, q, M); Shuffle(q, q, M, M); assert (q * M) * (q * M) == (q * q) * (M * M); }
      1 - (q * q) * (M * M);
    }
    assert CongBy(y * (2 - y), 1, M * M, -(q * q));
    CongTrans(x * inv', x * (inv * (2 - y)), 1, M * M);
  }

  /** The round as the machine computes it, every operation wrapping at 2^64. */
  lemma NewtonRound(x: int, inv: int, t: int, u: int, inv': int, i: nat)
    requires i < 6
    requires Cong(x * inv, 1, NewtonModulus(i))
    requires t == (x * inv) % BASE && u == (2 - t) % BASE && inv' == (inv * u) % BASE
    ensures Cong(x * inv', 1, NewtonModulus(i + 1))
  {
    CongMod(x * inv, BASE);
    CongMod(2 - t, BASE);
    CongMod(inv * u, BASE);
    CongRefl(2, BASE);
    CongAdd(2, 2, t, x * inv, BASE);
    CongTrans(u, 2 - t, 2 - x * inv, BASE);
    CongRefl(inv, BASE);
    CongMul(inv, inv, u, 2 - x * inv, BASE);
    CongTrans(inv', inv * u, inv * (2 - x * inv), BASE);
    var k := NewtonDividesBase(i + 1);
    CongWeaken(inv', inv * (2 - x * inv), NewtonModulus(i + 1), k);
    NewtonStep(x, inv, inv', NewtonModulus(i));
  }

  // ------------------------------------------------- the field

  /** `mod_add`. */
  method ModAdd(a: U256, b: U256, m: U256) returns (r: U256)
    requires Val(a) < Val(m) && Val(b) < Val(m)
    ensures Val(r) == (Val(a) + Val(b)) % Val(m)
  {
    var carry: bool;
    r, carry := Add(a, b);
    var ge := Ge(r, m);
    if carry || ge {
      var borrow;
      r, borrow := Sub(r, m);
    }
    assert CongBy(Val(a) + Val(b), Val(a) + Val(b) - Val(m), Val(m), 1);
    CongRefl(Val(r), Val(m));
    CongSym(Val(a) + Val(b), Val(a) + Val(b) - Val(m), Val(m));
    CongReduced(Val(r), Val(a) + Val(b), Val(m));
  }

  datatype Field = Field(m: U256, m0: U64, r2: U256, one: U256) {

    /** What `Field::new` establishes. */
    ghost predicate Valid() {
      && Val(m) % 2 == 1 && R < 2 * Val(m)
      && (m0 as int * m[0] as int + 1) % BASE == 0
      && Val(one) == R % Val(m)
      && Val(r2) == (R * R) % Val(m)
    }

    /** A canonical residue. */
    ghost predicate Has(a: U256) {
      Val(a) < Val(m)
    }

    /** The number a residue in Montgomery form stands for. */
    ghost function Dec(a: U256): (x: int)
      requires Valid()
      ensures 0 <= x < Val(m)
    {
      (Val(a) * RInv(Val(m))) % Val(m)
    }

    method Add(a: U256, b: U256) returns (r: U256)
      requires Valid() && Has(a) && Has(b)
      ensures Has(r) && Val(r) == (Val(a) + Val(b)) % Val(m)
      ensures Dec(r) == AddMod(Dec(a), Dec(b), Val(m))
    {
      r := ModAdd(a, b, m);
      AddDecodes(this, a, b, r);
    }

    method Sub(a: U256, b: U256) returns (r: U256)
      requires Valid() && Has(a) && Has(b)
      ensures Has(r) && Val(r) == (Val(a) - Val(b)) % Val(m)
      ensures Dec(r) == SubMod(Dec(a), Dec(b), Val(m))
    {
      var borrow: bool;
      r, borrow := Limbs.Sub(a, b);
      if borrow {
        var carry;
        r, carry := Limbs.Add(r, m);
      }
      assert CongBy(Val(a) - Val(b) + Val(m), Val(a) - Val(b), Val(m), 1);
      CongRefl(Val(r), Val(m));
      CongReduced(Val(r), Val(a) - Val(b), Val(m));
      SubDecodes(this, a, b, r);
    }

    /** One outer iteration of the product. */
    method MulRound(t: array<U64>, i: nat, a: U256, b: U256, ghost q: int) returns (ghost q': int)
      requires Valid() && Has(b) && i < 4
      requires t.Length == 6 && Round(t[..], i, a, b, m, q)
      modifies t
      ensures Round(t[..], i + 1, a, b, m, q')
    {
      ghost var tOld := Low(t[..], 6);
      AddRow(t, a[i], b);
      var mu: U64 := (t[0] as int * m0 as int) % BASE;
      MuCancels(t[0] as int, m0 as int, m[0] as int, mu as int);
      RoundFits(tOld, a[i], Val(b), mu, Val(m));
      ReduceRow(t, mu, m);
      RoundBound(tOld, a[i], Val(b), mu, Val(m), Low(t[..], 6));
      RoundStep(Weight(i), tOld, Low(t[..], 6), Low(a, i), a[i] as int, Val(b), mu as int, Val(m), q);
      q' := q + mu as int * Weight(i);
    }

    /** The Montgomery product a * b * R^-1 mod m. */
    method Mul(a: U256, b: U256) returns (r: U256)
      requires Valid() && Has(b)
      ensures Has(r) && Val(r) == (Val(a) * Val(b) * RInv(Val(m))) % Val(m)
      ensures Dec(r) == MulMod(Dec(a), Dec(b), Val(m))
    {
      var t := new U64[6](i => 0);
      ghost var q := 0;
      assert t[..] == [0, 0, 0, 0, 0, 0];
      ZeroRound(t[..], a, b, m);
      for i := 0 to 4
        invariant Round(t[..], i, a, b, m, q)
      {
        q := MulRound(t, i, a, b, q);
      }
      WeightExpand();
      r := FinalSubtract(t, Val(b));
      ProductResidue(Low(t[..], 6), Val(a) * Val(b), q, Val(r), Val(m), R, RInv(Val(m)));
      MulDecodes(this, a, b, r);
    }

    /** One subtraction brings the accumulator below the modulus. */
    method FinalSubtract(t: array<U64>, ghost bound: int) returns (r: U256)
      requires t.Length == 6 && t[5] == 0
      requires Low(t[..], 6) < Val(m) + bound && bound < Val(m)
      ensures Has(r) && (Val(r) == Low(t[..], 6) || Val(r) == Low(t[..], 6) - Val(m))
    {
      SixLimbs(t[..]);
      r := [t[0], t[1], t[2], t[3]];
      LowLocal(t[..], r, 4);
      var ge := Ge(r, m);
      if t[4] != 0 || ge {
        var borrow;
        r, borrow := Limbs.Sub(r, m);
      }
    }

    /** Into Montgomery form. */
    method Enter(a: U256) returns (r: U256)
      requires Valid()
      ensures Has(r) && Dec(r) == Val(a) % Val(m)
    {
      r := Mul(a, r2);
      EnterDecodes(Val(a), Val(r2), Val(r), Val(m), R, RInv(Val(m)));
    }

    /** Out of Montgomery form. */
    method Leave(a: U256) returns (r: U256)
      requires Valid()
      ensures Has(r) && Val(r) == Dec(a)
    {
      LowExpand(ONE);
      r := Mul(a, ONE);
    }

    /** Leaving undoes entering: every number below 2^256 comes back reduced, a canonical residue as it was. */
    method RoundTrip(a: U256) returns (r: U256)
      requires Valid()
      ensures Val(r) == Val(a) % Val(m)
      ensures Has(a) ==> r == a
    {
      var entered := Enter(a);
      r := Leave(entered);
      if Val(a) < Val(m) {
        SmallMod(Val(a), Val(m));
        ValInjective(r, a);
      }
    }

    /** `base^e`, square-and-multiply from the top bit down. */
    method Pow(base: U256, e: U256) returns (acc: U256)
      requires Valid() && Has(base)
      ensures Has(acc) && Dec(acc) == NumberTheory.Pow(Dec(base), Val(e)) % Val(m)
    {
      acc := one;
      OneDecodes(this);
      ShiftAll(e, BITS);
      CongRefl(1, Val(m));
      var i: nat := BITS;
      while i > 0
        invariant 0 <= i <= BITS
        invariant Has(acc)
        invariant Cong(Dec(acc), NumberTheory.Pow(Dec(base), Shifted(e, i)), Val(m))
      {
        i := i - 1;
        ghost var before := acc;
        acc := Mul(acc, acc);
        ghost var squared := acc;
        if TestBit(e, i) {
          acc := Mul(acc, base);
        }
        ShiftStep(e, i);
        PowStep(Dec(before), Dec(squared), Dec(acc), Dec(base), Shifted(e, i + 1), TestBit(e, i), Val(m));
      }
      ShiftNone(e);
      CongReduced(Dec(acc), NumberTheory.Pow(Dec(base), Val(e)), Val(m));
    }

    /** `a^(m-2)`: for a prime modulus, the multiplicative inverse of every nonzero residue. */
    method Inv(a: U256) returns (r: U256)
      requires Valid() && Has(a)
      ensures Val(m) >= 2
      ensures Has(r) && Dec(r) == NumberTheory.Pow(Dec(a), Val(m) - 2) % Val(m)
      ensures IsPrime(Val(m)) && Dec(a) != 0 ==> IsInverse(Dec(a), Dec(r), Val(m)) && Dec(r) == NumberTheory.Inv(Dec(a), Val(m))
    {
      LowExpand(TWO);
      var e, borrow := Limbs.Sub(m, TWO);
      r := Pow(a, e);
      if IsPrime(Val(m)) && Dec(a) != 0 {
        InvDecodes(this, a, r);
      }
    }
  }

  lemma ZeroRound(t: seq<U64>, a: U256, b: U256, m: U256)
    requires t == [0, 0, 0, 0, 0, 0] && Val(m) > 0
    ensures Round(t, 0, a, b, m, 0)
  {
    SixLimbs(t);
    LowExpand(t);
  }

  lemma RoundFits(tOld: int, ai: U64, b: int, mu: U64, m: int)
    requires 0 <= tOld < m + b && 0 <= b < m < R
    ensures tOld + ai as int * b + mu as int * m < 2 * R * BASE
  {
    MulMono(ai, b, BASE - 1, b);
    MulMono(mu, m, BASE - 1, m);
  }

  /** The final conditional subtraction leaves the canonical residue of the product, k being the inverse of w. */
  lemma ProductResidue(t: int, ab: int, q: int, r: int, m: int, w: int, k: int)
    requires m > 1 && Cong(w * k, 1, m)
    requires t * w == ab + q * m
    requires r == t || r == t - m
    requires 0 <= r < m
    ensures r == (ab * k) % m
  {
    assert CongBy(t * w, ab, m, q);
    DivideBy(t, ab, w, k, m);
    assert CongBy(t, t - m, m, 1);
    CongSym(t, t - m, m);
    CongRefl(t, m);
    CongTrans(r, t, ab * k, m);
    CongReduced(r, ab * k, m);
  }

  // ------------------------------------------------- decoding is a ring map

  lemma EnterDecodes(a: int, r2: int, r: int, m: int, w: int, k: int)
    requires m > 1 && Cong(w * k, 1, m)
    requires r2 == (w * w) % m && r == (a * r2 * k) % m
    ensures (r * k) % m == a % m
  {
    CongMod(w * w, m);
    CongMod(a * r2 * k, m);
    CongRefl(a, m);
    CongMul(a, a, r2, w * w, m);
    CongRefl(k, m);
    CongMul(a * r2, a * (w * w), k, k, m);
    CongTrans(r, a * r2 * k, a * (w * w) * k, m);
    CongMul(r, a * (w * w) * k, k, k, m);
    CancelTwice(a, w, k, m);
    CongTrans(r * k, a * (w * w) * k * k, a, m);
    CongIffMod(r * k, a, m);
  }

  lemma CancelTwice(a: int, r: int, k: int, m: int)
    requires Cong(r * k, 1, m)
    ensures Cong(a * (r * r) * k * k, a, m)
  {
    assert a * (r * r) * k * k == a * ((r * k) * (r * k)) by {
      Shuffle(r, r, k, k);
    }
    CongMul(r * k, 1, r * k, 1, m);
    CongRefl(a, m);
    CongMul(a, a, (r * k) * (r * k), 1 * 1, m);
  }

  /** The product of two residues stands for the product of what they stand for. */
  lemma MulDecodes(f: Field, a: U256, b: U256, r: U256)
    requires f.Valid() && Val(r) == (Val(a) * Val(b) * RInv(Val(f.m))) % Val(f.m)
    ensures f.Dec(r) == MulMod(f.Dec(a), f.Dec(b), Val(f.m))
  {
    MulDecodesInt(Val(a), Val(b), RInv(Val(f.m)), Val(r), Val(f.m));
  }

  lemma MulDecodesInt(x: int, y: int, k: int, r: int, m: int)
    requires m > 0 && r == (x * y * k) % m
    ensures (r * k) % m == MulMod((x * k) % m, (y * k) % m, m)
  {
    var dx, dy := (x * k) % m, (y * k) % m;
    CongMod(x * y * k, m);
    CongRefl(k, m);
    CongMul(r, x * y * k, k, k, m);
    CongMod(x * k, m);
    CongMod(y * k, m);
    CongMul(x * k, dx, y * k, dy, m);
    Shuffle(x, y, k, k);
    MulRight(x * y, k, k);
    CongTrans(r * k, (x * k) * (y * k), dx * dy, m);
    CongIffMod(r * k, dx * dy, m);
  }

  lemma MulRight(a: int, b: int, c: int)
    ensures (a * b) * c == a * (b * c)
  {
  }

  lemma AddDecodes(f: Field, a: U256, b: U256, r: U256)
    requires f.Valid() && Val(r) == (Val(a) + Val(b)) % Val(f.m)
    ensures f.Dec(r) == AddMod(f.Dec(a), f.Dec(b), Val(f.m))
  {
    var m, k := Val(f.m), RInv(Val(f.m));
    var x, y := Val(a), Val(b);
    CongMod(x + y, m);
    CongRefl(k, m);
    CongMul(Val(r), x + y, k, k, m);
    CongMod(x * k, m);
    CongMod(y * k, m);
    CongAdd(x * k, f.Dec(a), y * k, f.Dec(b), m);
    assert (x + y) * k == x * k + y * k;
    CongTrans(Val(r) * k, (x + y) * k, f.Dec(a) + f.Dec(b), m);
    CongIffMod(Val(r) * k, f.Dec(a) + f.Dec(b), m);
  }

  lemma SubDecodes(f: Field, a: U256, b: U256, r: U256)
    requires f.Valid() && Val(r) == (Val(a) - Val(b)) % Val(f.m)
    ensures f.Dec(r) == SubMod(f.Dec(a), f.Dec(b), Val(f.m))
  {
    var m, k := Val(f.m), RInv(Val(f.m));
    var x, y := Val(a), Val(b);
    CongMod(x - y, m);
    CongRefl(k, m);
    CongMul(Val(r), x - y, k, k, m);
    CongMod(x * k, m);
    CongMod(y * k, m);
    CongAdd(x * k, f.Dec(a), y * k, f.Dec(b), m);
    assert (x - y) * k == x * k - y * k;
    CongTrans(Val(r) * k, (x - y) * k, f.Dec(a) - f.Dec(b), m);
    CongIffMod(Val(r) * k, f.Dec(a) - f.Dec(b), m);
  }

  /** Decoding loses nothing on canonical residues, so limb equality is equality of numbers. */
  lemma DecInjective(f: Field, a: U256, b: U256)
    requires f.Valid() && f.Has(a) && f.Has(b) && f.Dec(a) == f.Dec(b)
    ensures a == b
  {
    var m, k := Val(f.m), RInv(Val(f.m));
    CongIffMod(Val(a) * k, Val(b) * k, m);
    CongRefl(R, m);
    CongMul(Val(a) * k, Val(b) * k, R, R, m);
    CancelOnce(Val(a), k, R, m);
    CancelOnce(Val(b), k, R, m);
    CongSym(Val(a) * k * R, Val(a), m);
    CongTrans(Val(a), Val(a) * k * R, Val(b) * k * R, m);
    CongTrans(Val(a), Val(b) * k * R, Val(b), m);
    CongResidues(Val(a), Val(b), m);
    ValInjective(a, b);
  }

  lemma CancelOnce(a: int, k: int, r: int, m: int)
    requires Cong(r * k, 1, m)
    ensures Cong(a * k * r, a, m)
  {
    assert a * k * r == a * (r * k);
    CongRefl(a, m);
    CongMul(a, a, r * k, 1, m);
  }

  /** A canonical residue is the zero limbs exactly when it stands for zero. */
  lemma ZeroDecodes(f: Field, a: U256)
    requires f.Valid() && f.Has(a)
    ensures IsZero(a) <==> f.Dec(a) == 0
  {
    LowExpand(ZERO);
    var k := RInv(Val(f.m));
    assert 0 * k == 0;
    SmallMod(0, Val(f.m));
    assert Val(ZERO) == 0 && f.Dec(ZERO) == 0;
    if f.Dec(a) == 0 {
      DecInjective(f, a, ZERO);
    }
  }

  lemma OneDecodes(f: Field)
    requires f.Valid()
    ensures f.Has(f.one) && f.Dec(f.one) == 1
  {
    var m, k := Val(f.m), RInv(Val(f.m));
    CongMod(R, m);
    CongRefl(k, m);
    CongMul(Val(f.one), R, k, k, m);
    CongTrans(Val(f.one) * k, R * k, 1, m);
    CongIffMod(Val(f.one) * k, 1, m);
    SmallMod(1, m);
  }

  /** For a prime modulus Fermat's power is the inverse of every nonzero residue. */
  lemma InvDecodes(f: Field, a: U256, r: U256)
    requires f.Valid() && f.Has(a) && IsPrime(Val(f.m)) && f.Dec(a) != 0
    requires f.Dec(r) == NumberTheory.Pow(f.Dec(a), Val(f.m) - 2) % Val(f.m)
    ensures IsInverse(f.Dec(a), f.Dec(r), Val(f.m)) && f.Dec(r) == NumberTheory.Inv(f.Dec(a), Val(f.m))
  {
    var x, m := f.Dec(a), Val(f.m);
    SmallMod(x, m);
    FermatInverse(x, m);
    InverseUnique(x, f.Dec(r), NumberTheory.Inv(x, m), m);
  }

  // ------------------------------------------------- exponent bits

  /** `U256::bit`. */
  predicate TestBit(a: U256, i: nat)
    requires i < 256
  {
    PowPositive(2, i % 64);
    a[i / 64] as int / NumberTheory.Pow(2, i % 64) % 2 == 1
  }

  /** The exponent with its low i bits dropped. */
  function Shifted(e: U256, i: nat): (n: nat)
  {
    PowPositive(2, i);
    DivNonneg(Val(e), NumberTheory.Pow(2, i));
    Val(e) / NumberTheory.Pow(2, i)
  }

  lemma PowStep(x: int, sq: int, x': int, base: int, n: nat, bit: bool, m: int)
    requires m > 0
    requires Cong(x, NumberTheory.Pow(base, n), m)
    requires sq == MulMod(x, x, m)
    requires x' == if bit then MulMod(sq, base, m) else sq
    ensures Cong(x', NumberTheory.Pow(base, 2 * n + if bit then 1 else 0), m)
  {
    var p := NumberTheory.Pow(base, n);
    CongMod(x * x, m);
    CongMul(x, p, x, p, m);
    CongTrans(sq, x * x, p * p, m);
    PowAdd(base, n, n);
    if bit {
      CongMod(sq * base, m);
      CongRefl(base, m);
      CongMul(sq, p * p, base, base, m);
      CongTrans(x', sq * base, p * p * base, m);
      assert p * p * base == base * NumberTheory.Pow(base, 2 * n);
    }
  }

  lemma ShiftAll(e: U256, n: nat)
    requires n == BITS
    ensures Shifted(e, n) == 0
  {
    RIsPower(n);
  }

  lemma ShiftNone(e: U256)
    ensures Shifted(e, 0) == Val(e)
  {
  }

  /** Taking one bit fewer off the exponent doubles it and adds that bit. */
  lemma ShiftStep(e: U256, i: nat)
    requires i < 256
    ensures Shifted(e, i) == 2 * Shifted(e, i + 1) + if TestBit(e, i) then 1 else 0
  {
    PowPositive(2, i);
    DivTwice(Val(e), NumberTheory.Pow(2, i), 2);
    assert NumberTheory.Pow(2, i + 1) == NumberTheory.Pow(2, i) * 2;
    BitOfValue(e, i);
  }

  lemma {:induction false} WeightIsPower(k: nat)
    ensures Weight(k) == NumberTheory.Pow(2, 64 * k)
  {
    if k > 0 {
      WeightIsPower(k - 1);
      PowersOfTwo();
      PowAdd(2, 64 * (k - 1), 64);
    }
  }

  /** Splitting a 256-bit value at limb k. */
  lemma SplitAt(e: U256, k: nat) returns (high: int)
    requires k < 4
    ensures high >= 0
    ensures Val(e) == Low(e, k) + e[k] as int * Weight(k) + high * (Weight(k) * BASE)
  {
    WeightExpand();
    LowExpand(e);
    assert Low(e, 0) == 0;
    high := if k == 0 then e[1] as int + e[2] as int * BASE + e[3] as int * (BASE * BASE)
            else if k == 1 then e[2] as int + e[3] as int * BASE
            else if k == 2 then e[3] as int else 0;
  }

  lemma {:induction false} LowBound(s: seq<U64>, n: nat)
    requires n <= |s|
    ensures Low(s, n) < Weight(n)
  {
    if n > 0 {
      LowBound(s, n - 1);
      MulMono(s[n - 1], Weight(n - 1), BASE - 1, Weight(n - 1));
    }
  }

  lemma LimbsAbove(limb: int, high: int, w: int)
    ensures (limb + high * BASE) * w == limb * w + high * (w * BASE)
  {
    assert (high * BASE) * w == high * (w * BASE);
  }

  /** Dropping the limbs below k leaves limb k and the limbs above it. */
  lemma DropLimbs(e: U256, k: nat) returns (high: int)
    requires k < 4
    ensures Val(e) / Weight(k) == e[k] as int + high * BASE
  {
    var w, limb: int := Weight(k), e[k];
    high := SplitAt(e, k);
    LowBound(e, k);
    LimbsAbove(limb, high, w);
    DivUnique(Val(e), w, limb + high * BASE);
  }

  /** The limb test reads the bit of the whole number. */
  lemma BitOfValue(e: U256, i: nat)
    requires i < 256
    ensures TestBit(e, i) <==> Shifted(e, i) % 2 == 1
  {
    var k, r := i / 64, i % 64;
    var high := DropLimbs(e, k);
    WeightIsPower(k);
    PowAdd(2, 64 * k, r);
    PowPositive(2, r);
    DivTwice(Val(e), Weight(k), NumberTheory.Pow(2, r));
    LimbBit(e[k], high, r);
  }

  lemma HalfMultiple(high: int, d: int, c: int)
    requires BASE == d * (2 * c)
    ensures high * BASE == ((high * c) * 2) * d
  {
    assert high * (d * (2 * c)) == ((high * c) * 2) * d by {
      assert d * (2 * c) == (c * 2) * d;
      assert high * ((c * 2) * d) == (high * (c * 2)) * d;
      assert high * (c * 2) == (high * c) * 2;
    }
  }

  lemma EvenAdd(x: int, k: int)
    ensures (x + k * 2) % 2 == x % 2
  {
  }

  lemma LimbBit(limb: nat, high: int, r: nat)
    requires r < 64
    ensures NumberTheory.Pow(2, r) > 0
    ensures (limb + high * BASE) / NumberTheory.Pow(2, r) % 2 == limb / NumberTheory.Pow(2, r) % 2
  {
    var d, c := NumberTheory.Pow(2, r), NumberTheory.Pow(2, 63 - r);
    PowPositive(2, r);
    PowersOfTwo();
    PowAdd(2, r, 64 - r);
    assert NumberTheory.Pow(2, 64 - r) == 2 * c;
    HalfMultiple(high, d, c);
    DivAddMultiple(limb, (high * c) * 2, d);
    EvenAdd(limb / d, high * c);
  }

  // ------------------------------------------------- building a field

  /** The Newton loop: the inverse of an odd limb modulo 2^64. */
  method LimbInverse(x: U64) returns (inv: U64)
    requires x as int % 2 == 1
    ensures Cong(x as int * inv as int, 1, BASE)
  {
    inv := 1;
    assert CongBy(x as int * 1, 1, 2, x as int / 2);
    for i := 0 to 6
      invariant Cong(x as int * inv as int, 1, NewtonModulus(i))
    {
      var t: U64 := (x as int * inv as int) % BASE;
      var u: U64 := (2 - t as int) % BASE;
      var inv': U64 := (inv as int * u as int) % BASE;
      NewtonRound(x as int, inv as int, t as int, u as int, inv' as int, i);
      inv := inv';
    }
    NewtonModuli();
  }

  /** The entering factor: R mod m doubled once for each bit of R. */
  method SquareOfR(one: U256, m: U256) returns (r2: U256)
    requires Val(m) > 0 && Val(one) == R % Val(m)
    ensures Val(r2) == (R * R) % Val(m)
  {
    r2 := one;
    assert NumberTheory.Pow(2, 0) * Val(one) == Val(one);
    CongRefl(Val(one), Val(m));
    var n: nat := BITS;
    for i := 0 to n
      invariant Val(r2) < Val(m)
      invariant Cong(Val(r2), NumberTheory.Pow(2, i) * Val(one), Val(m))
    {
      ghost var before := Val(r2);
      r2 := ModAdd(r2, r2, m);
      DoublingStep(before, Val(r2), NumberTheory.Pow(2, i), Val(one), Val(m));
    }
    RSquared(Val(r2), Val(one), n, Val(m));
  }

  /** `Field::new`. */
  method NewField(m: U256) returns (f: Field)
    requires Val(m) % 2 == 1 && R < 2 * Val(m)
    ensures f.Valid() && f.m == m
  {
    LowLimbOdd(m);
    var inv := LimbInverse(m[0]);
    var m0: U64 := (0 - inv as int) % BASE;
    NegatedInverse(m[0] as int, inv as int, m0 as int);

    var one, borrow := Limbs.Sub(ZERO, m);
    OneIsR(one, m, borrow);

    var r2 := SquareOfR(one, m);
    f := Field(m, m0, r2, one);
  }

  lemma LowLimbOdd(m: U256)
    requires Val(m) % 2 == 1
    ensures m[0] as int % 2 == 1
  {
    LowExpand(m);
    var k := m[1] as int * 0x8000_0000_0000_0000 + m[2] as int * 0x8000000000000000_0000000000000000
           + m[3] as int * 0x8000000000000000_0000000000000000_0000000000000000;
    assert Val(m) == m[0] as int + k * 2;
    EvenAdd(m[0] as int, k);
  }

  /** 0 - m in 256 bits is R mod m, because m is above half of R. */
  lemma OneIsR(one: U256, m: U256, borrow: bool)
    requires R < 2 * Val(m)
    requires Val(one) - (if borrow then R else 0) == Val(ZERO) - Val(m)
    ensures Val(one) == R % Val(m)
  {
    LowExpand(ZERO);
    assert CongBy(R, Val(one), Val(m), 1);
    CongSym(R, Val(one), Val(m));
    CongReduced(Val(one), R, Val(m));
  }

  lemma NegatedInverse(x: int, inv: int, m0: int)
    requires Cong(x * inv, 1, BASE) && m0 == (0 - inv) % BASE
    ensures (m0 * x + 1) % BASE == 0
  {
    CongMod(0 - inv, BASE);
    CongRefl(x, BASE);
    CongMul(m0, 0 - inv, x, x, BASE);
    CongAdd(m0 * x, (0 - inv) * x, x * inv, 1, BASE);
    assert (0 - inv) * x == 0 - x * inv;
    CongRefl(x * inv, BASE);
    CongAdd(m0 * x + x * inv, 0 - x * inv + 1, x * inv, x * inv, BASE);
    CongAdd(m0 * x, 0 - x * inv, 1, 1, BASE) by {
      CongRefl(1, BASE);
    }
    CongSym(x * inv, 1, BASE);
    CongAdd(0 - x * inv, 0 - x * inv, 1, x * inv, BASE) by {
      CongRefl(0 - x * inv, BASE);
    }
    CongTrans(m0 * x + 1, 0 - x * inv + 1, 0, BASE);
    CongZero(m0 * x + 1, BASE);
  }

  lemma DoublingStep(r: int, r': int, p: int, one: int, m: int)
    requires m > 0 && Cong(r, p * one, m) && r' == (r + r) % m
    ensures Cong(r', (2 * p) * one, m)
  {
    CongMod(r + r, m);
    CongAdd(r, p * one, r, p * one, m);
    assert p * one + p * one == (2 * p) * one;
    CongTrans(r', r + r, (2 * p) * one, m);
  }

  lemma RSquared(r2: int, one: int, n: nat, m: int)
    requires 0 <= r2 < m && n == BITS
    requires Cong(r2, NumberTheory.Pow(2, n) * one, m) && one == R % m
    ensures r2 == (R * R) % m
  {
    RIsPower(n);
    CongMod(R, m);
    CongRefl(R, m);
    CongMul(R, R, one, R, m);
    CongTrans(r2, R * one, R * R, m);
    CongReduced(r2, R * R, m);
  }
}
