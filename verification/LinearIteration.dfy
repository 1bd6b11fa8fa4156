/**
  Iterating a map that is linear over GF(2).  The type is abstract: all that is used
  is an addition in which every element is its own inverse.
*/
module LinearIteration {
  import opened Basics

  /** f applied n times. */
  function Iterate<T>(f: T -> T, s: T, n: nat): T {
    if n == 0 then s else f(Iterate(f, s, n - 1))
  }

  /** A commutative addition in which a + b is zero exactly when a == b. */
  ghost predicate XorLike<T(!new)>(add: (T, T) -> T, zero: T) {
    && (forall a, b :: add(a, b) == zero <==> a == b)
    && (forall a, b :: add(a, b) == add(b, a))
  }

  ghost predicate Linear<T(!new)>(f: T -> T, add: (T, T) -> T) {
    forall a, b :: f(add(a, b)) == add(f(a), f(b))
  }

  ghost predicate Injective<T(!new)>(f: T -> T) {
    forall a, b :: f(a) == f(b) ==> a == b
  }

  lemma {:induction false} IterateAdd<T>(f: T -> T, s: T, m: nat, n: nat)
    ensures Iterate(f, Iterate(f, s, m), n) == Iterate(f, s, m + n)
  {
    if n > 0 {
      IterateAdd(f, s, m, n - 1);
    }
  }

  lemma {:induction false} IterateInjective<T(!new)>(f: T -> T, s: T, t: T, n: nat)
    requires Injective(f)
    requires Iterate(f, s, n) == Iterate(f, t, n)
    ensures s == t
  {
    if n > 0 {
      assert f(Iterate(f, s, n - 1)) == f(Iterate(f, t, n - 1));
      IterateInjective(f, s, t, n - 1);
    }
  }

  lemma {:induction false} IterateLinear<T(!new)>(f: T -> T, add: (T, T) -> T, s: T, t: T, n: nat)
    requires Linear(f, add)
    ensures Iterate(f, add(s, t), n) == add(Iterate(f, s, n), Iterate(f, t, n))
  {
    if n > 0 {
      IterateLinear(f, add, s, t, n - 1);
      assert f(add(Iterate(f, s, n - 1), Iterate(f, t, n - 1))) == add(Iterate(f, s, n), Iterate(f, t, n));
    }
  }

  lemma DoubleScaled(m: nat, k: nat)
    ensures m * Pow2(0) == m
    ensures k > 0 ==> m * Pow2(k) == m * Pow2(k - 1) + m * Pow2(k - 1)
  {
  }

  lemma SumOfDistinct<T(!new)>(add: (T, T) -> T, zero: T, a: T, b: T, c: T)
    requires XorLike(add, zero)
    ensures a != b ==> add(b, a) != zero
    ensures add(c, b) != add(b, a) ==> c != a
  {
  }

  /**
    If no nonzero element has an m-cycle then none has an m * 2^k-cycle: with D(s) = f^m(s) + s,
    linearity gives D(D(s)) = f^2m(s) + s.
  */
  lemma {:induction false} NoDoubledCycle<T(!new)>(f: T -> T, add: (T, T) -> T, zero: T, m: nat, k: nat, s: T)
    requires XorLike(add, zero) && Linear(f, add)
    requires forall t :: t != zero ==> Iterate(f, t, m) != t
    requires s != zero
    ensures Iterate(f, s, m * Pow2(k)) != s
    decreases k
  {
    hide XorLike, Linear, Pow2;
    if k == 0 {
      assert m * Pow2(0) == m by { DoubleScaled(m, 0); }
    } else {
      var n := m * Pow2(k - 1);
      DoubleScaled(m, k);
      var once, twice := Iterate(f, s, n), Iterate(f, s, n + n);
      NoDoubledCycle(f, add, zero, m, k - 1, s);
      var d := add(once, s);
      SumOfDistinct(add, zero, s, once, twice);
      NoDoubledCycle(f, add, zero, m, k - 1, d);
      IterateLinear(f, add, once, s, n);
      IterateAdd(f, s, n, n);
      assert Iterate(f, d, n) == add(twice, once);
    }
  }
}
