/** The 256-bit unsigned integer of `p256.rs`: four little-endian 64-bit limbs,
    its carry and borrow loops, and the number it stands for. */
module Limbs {
  import opened Bytes

  /** 2^64 and 2^256. */
  const BASE := 0x1_0000_0000_0000_0000
  const R := 0x1_0000000000000000_0000000000000000_0000000000000000_0000000000000000

  type U64 = Word
  type U128 = x: int | 0 <= x < 0x1_0000_0000_0000_0000_0000_0000_0000_0000

  /** `[u64; 4]`, least significant limb first. */
  type U256 = s: seq<U64> | |s| == 4 witness [0, 0, 0, 0]

  const ZERO: U256 := [0, 0, 0, 0]
  const ONE: U256 := [1, 0, 0, 0]
  const TWO: U256 := [2, 0, 0, 0]

  /** 2^(64 n): the weight of limb n. */
  function Weight(n: nat): (w: int)
    ensures w > 0
  {
    if n == 0 then 1 else Weight(n - 1) * BASE
  }

  /** The number the first n limbs of s stand for. */
  function Low(s: seq<U64>, n: nat): (v: int)
    requires n <= |s|
    ensures v >= 0
  {
    if n == 0 then 0 else var x: int := s[n - 1]; Low(s, n - 1) + x * Weight(n - 1)
  }

  /** The number a 256-bit value stands for. */
  function Val(a: U256): (v: int)
    ensures 0 <= v < R
  {
    LowExpand(a);
    Low(a, 4)
  }

  lemma WeightExpand()
    ensures Weight(0) == 1
    ensures Weight(1) == 0x1_0000000000000000
    ensures Weight(2) == 0x1_0000000000000000_0000000000000000
    ensures Weight(3) == 0x1_0000000000000000_0000000000000000_0000000000000000
    ensures Weight(4) == R
  {
    assert Weight(1) == Weight(0) * BASE;
    assert Weight(2) == Weight(1) * BASE;
    assert Weight(3) == Weight(2) * BASE;
    assert Weight(4) == Weight(3) * BASE;
  }

  lemma LowExpand(s: seq<U64>)
    requires |s| >= 4
    ensures var s0: int, s1: int, s2: int, s3: int := s[0], s[1], s[2], s[3];
      && Low(s, 1) == s0
      && Low(s, 2) == s0 + s1 * 0x1_0000000000000000
      && Low(s, 3) == s0 + s1 * 0x1_0000000000000000 + s2 * 0x1_0000000000000000_0000000000000000
      && Low(s, 4) == s0 + s1 * 0x1_0000000000000000 + s2 * 0x1_0000000000000000_0000000000000000
                      + s3 * 0x1_0000000000000000_0000000000000000_0000000000000000
  {
    WeightExpand();
    assert Low(s, 0) == 0;
    assert Low(s, 1) == Low(s, 0) + s[0] as int * Weight(0);
    assert Low(s, 2) == Low(s, 1) + s[1] as int * Weight(1);
    assert Low(s, 3) == Low(s, 2) + s[2] as int * Weight(2);
    assert Low(s, 4) == Low(s, 3) + s[3] as int * Weight(3);
  }

  /** Low only looks at the limbs it names. */
  lemma {:induction false} LowLocal(s: seq<U64>, t: seq<U64>, n: nat)
    requires n <= |s| && n <= |t|
    requires forall k :: 0 <= k < n ==> s[k] == t[k]
    ensures Low(s, n) == Low(t, n)
  {
    if n > 0 {
      LowLocal(s, t, n - 1);
    }
  }

  /** Limbs are canonical: equal numbers, equal limbs. */
  lemma ValInjective(a: U256, b: U256)
    requires Val(a) == Val(b)
    ensures a == b
  {
    LowExpand(a);
    LowExpand(b);
  }

  /** `U256::ge`: the limbs compared from the most significant down. */
  method Ge(a: U256, b: U256) returns (r: bool)
    ensures r <==> Val(a) >= Val(b)
  {
    var i := 4;
    while i > 0
      invariant 0 <= i <= 4
      invariant forall k :: i <= k < 4 ==> a[k] == b[k]
    {
      i := i - 1;
      if a[i] != b[i] {
        LowExpand(a);
        LowExpand(b);
        return a[i] > b[i];
      }
    }
    assert a == b;
    return true;
  }

  predicate IsZero(a: U256)
    ensures IsZero(a) <==> Val(a) == 0
  {
    LowExpand(a);
    a == ZERO
  }

  /** `u64::overflowing_add`. */
  function OverflowingAdd(x: U64, y: U64): (r: (U64, bool))
    ensures r.0 as int + (if r.1 then BASE else 0) == x as int + y as int
  {
    var sum := x as int + y as int;
    (sum % BASE, sum >= BASE)
  }

  /** `u64::overflowing_sub`. */
  function OverflowingSub(x: U64, y: U64): (r: (U64, bool))
    ensures r.0 as int - (if r.1 then BASE else 0) == x as int - y as int
  {
    ((x as int - y as int) % BASE, x < y)
  }

  function Bit(b: bool): (n: U64) {
    if b then 1 else 0
  }

  /** One limb of a carry chain: the weighted sum extends by one limb. */
  lemma CarryStep(w: int, x: int, y: int, c: int, v: int, c': int, sumX: int, sumY: int, sumV: int)
    requires sumV + c * w == sumX + sumY
    requires v + c' * BASE == x + y + c
    ensures (sumV + v * w) + c' * (w * BASE) == (sumX + x * w) + (sumY + y * w)
  {
    assert (v + c' * BASE) * w == (x + y + c) * w;
    assert c' * (w * BASE) == (c' * BASE) * w;
    assert (v + c' * BASE) * w == v * w + (c' * BASE) * w;
    assert (x + y + c) * w == x * w + y * w + c * w;
  }

  /** `U256::add`: the 256-bit sum and the carry out. */
  method Add(a: U256, o: U256) returns (r: U256, carry: bool)
    ensures Val(r) + (if carry then R else 0) == Val(a) + Val(o)
  {
    var out: seq<U64> := [];
    carry := false;
    for i := 0 to 4
      invariant |out| == i
      invariant Low(out, i) + Bit(carry) as int * Weight(i) == Low(a, i) + Low(o, i)
    {
      var (v, c1) := OverflowingAdd(a[i], o[i]);
      var (v', c2) := OverflowingAdd(v, Bit(carry));
      CarryStep(Weight(i), a[i], o[i], Bit(carry), v', Bit(c1 || c2), Low(a, i), Low(o, i), Low(out, i));
      LowLocal(out, out + [v'], i);
      out := out + [v'];
      carry := c1 || c2;
    }
    WeightExpand();
    r := out;
  }

  /** `U256::sub`: the 256-bit difference and the borrow out. */
  method Sub(a: U256, o: U256) returns (r: U256, borrow: bool)
    ensures Val(r) - (if borrow then R else 0) == Val(a) - Val(o)
    ensures borrow <==> Val(a) < Val(o)
  {
    var out: seq<U64> := [];
    borrow := false;
    for i := 0 to 4
      invariant |out| == i
      invariant Low(out, i) + Low(o, i) == Low(a, i) + Bit(borrow) as int * Weight(i)
    {
      var (v, b1) := OverflowingSub(a[i], o[i]);
      var (v', b2) := OverflowingSub(v, Bit(borrow));
      CarryStep(Weight(i), v', o[i], Bit(borrow), a[i], Bit(b1 || b2), Low(out, i), Low(o, i), Low(a, i));
      LowLocal(out, out + [v'], i);
      out := out + [v'];
      borrow := b1 || b2;
    }
    WeightExpand();
    r := out;
  }
}
