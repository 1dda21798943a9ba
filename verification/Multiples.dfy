/** Repeating an operation n times, plainly and by doubling. */
module Multiples {

  /** a op a op ... op a, n terms. */
  function Sum<T>(op: (T, T) -> T, zero: T, n: nat, a: T): (r: T) {
    if n == 0 then zero else op(Sum(op, zero, n - 1, a), a)
  }

  /** The same from the top bit of n down: double, and add a for each one bit. */
  function Multiple<T>(op: (T, T) -> T, zero: T, n: nat, a: T): (r: T) {
    if n == 0 then zero
    else
      var half := Multiple(op, zero, n / 2, a);
      if n % 2 == 1 then op(op(half, half), a) else op(half, half)
  }

  predicate AssociativeAt<T(==)>(op: (T, T) -> T, on: T -> bool, s: T, t: T, u: T) {
    on(s) && on(t) && on(u) ==> op(op(s, t), u) == op(s, op(t, u))
  }

  ghost predicate AssociativeOn<T(!new)>(op: (T, T) -> T, on: T -> bool) {
    forall s, t, u :: AssociativeAt(op, on, s, t, u)
  }

  predicate ClosedAt<T(==)>(op: (T, T) -> T, zero: T, on: T -> bool, s: T, t: T) {
    && (on(s) && on(t) ==> on(op(s, t)))
    && (on(s) ==> op(s, zero) == s)
  }

  ghost predicate Closed<T(!new)>(op: (T, T) -> T, zero: T, on: T -> bool) {
    on(zero) && forall s, t :: ClosedAt(op, zero, on, s, t)
  }

  lemma {:induction false} SumOn<T(!new)>(op: (T, T) -> T, zero: T, on: T -> bool, n: nat, a: T)
    requires Closed(op, zero, on) && on(a)
    ensures on(Sum(op, zero, n, a))
  {
    if n > 0 {
      SumOn(op, zero, on, n - 1, a);
      assert ClosedAt(op, zero, on, Sum(op, zero, n - 1, a), a);
    }
  }

  lemma {:induction false} SumSplits<T(!new)>(op: (T, T) -> T, zero: T, on: T -> bool, m: nat, n: nat, a: T)
    requires AssociativeOn(op, on) && Closed(op, zero, on) && on(a)
    ensures Sum(op, zero, m + n, a) == op(Sum(op, zero, m, a), Sum(op, zero, n, a))
  {
    SumOn(op, zero, on, m, a);
    if n == 0 {
      assert ClosedAt(op, zero, on, Sum(op, zero, m, a), a);
    } else {
      SumSplits(op, zero, on, m, n - 1, a);
      SumOn(op, zero, on, n - 1, a);
      assert AssociativeAt(op, on, Sum(op, zero, m, a), Sum(op, zero, n - 1, a), a);
    }
  }

  lemma MultipleStep<T>(op: (T, T) -> T, zero: T, n: nat, a: T, bit: bool)
    requires op(zero, zero) == zero
    ensures var half := Multiple(op, zero, n, a);
      Multiple(op, zero, 2 * n + if bit then 1 else 0, a) == if bit then op(op(half, half), a) else op(half, half)
  {
    var k := 2 * n + if bit then 1 else 0;
    assert k / 2 == n && (k % 2 == 1 <==> bit);
  }

  /** For an associative operation, doubling and adding is repeating. */
  lemma {:induction false} MultipleIsSum<T(!new)>(op: (T, T) -> T, zero: T, on: T -> bool, n: nat, a: T)
    requires AssociativeOn(op, on) && Closed(op, zero, on) && on(a)
    ensures Multiple(op, zero, n, a) == Sum(op, zero, n, a)
  {
    if n > 0 {
      MultipleIsSum(op, zero, on, n / 2, a);
      SumSplits(op, zero, on, n / 2, n / 2, a);
      assert ClosedAt(op, zero, on, Sum(op, zero, n / 2, a), a);
      if n % 2 == 1 {
        assert n - 1 == n / 2 + n / 2;
      }
    }
  }
}
