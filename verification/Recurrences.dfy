/**
  Polynomials over GF(2) in a linear map f: a set of exponents stands for the sum of those powers
  of f.  Squaring a polynomial doubles its exponents, because cross terms cancel.  From that it
  follows that a map whose polynomial is not its own mirror image has no cycle of length 2^j + 1.
*/
module Recurrences {
  import opened Basics
  import opened LinearIteration

  /** A commutative group in which every element is its own inverse. */
  ghost predicate XorGroup<T(!new)>(add: (T, T) -> T, zero: T) {
    && XorLike(add, zero)
    && (forall a, b, c :: add(add(a, b), c) == add(a, add(b, c)))
    && (forall a :: add(a, zero) == a)
  }

  /** The sum of the powers e * n of f, for the exponents e of es. */
  function Poly<T>(f: T -> T, add: (T, T) -> T, zero: T, es: seq<nat>, n: nat, s: T): T {
    if es == [] then zero else add(Iterate(f, s, es[0] * n), Poly(f, add, zero, es[1..], n, s))
  }

  lemma Interchange<T(!new)>(add: (T, T) -> T, zero: T, a: T, b: T, c: T, d: T)
    requires XorGroup(add, zero)
    ensures add(add(a, b), add(c, d)) == add(add(a, c), add(b, d))
    ensures b == c ==> add(add(a, b), add(c, d)) == add(a, d)
    ensures add(zero, a) == a && add(a, zero) == a && add(a, a) == zero
  {
    assert add(add(a, b), add(c, d)) == add(a, add(b, add(c, d)));
    assert add(b, add(c, d)) == add(add(b, c), d) && add(c, add(b, d)) == add(add(c, b), d);
    assert add(add(a, c), add(b, d)) == add(a, add(c, add(b, d)));
    assert b == c ==> add(b, c) == zero && add(zero, d) == add(d, zero);
  }

  lemma {:induction false} IterateZero<T(!new)>(f: T -> T, add: (T, T) -> T, zero: T, n: nat)
    requires XorGroup(add, zero) && Linear(f, add)
    ensures Iterate(f, zero, n) == zero
  {
    if n > 0 {
      IterateZero(f, add, zero, n - 1);
      assert f(add(zero, zero)) == add(f(zero), f(zero)) == zero;
    }
  }

  lemma {:induction false} PolyLinear<T(!new)>(f: T -> T, add: (T, T) -> T, zero: T, es: seq<nat>, n: nat, s: T, t: T)
    requires XorGroup(add, zero) && Linear(f, add)
    ensures Poly(f, add, zero, es, n, add(s, t)) == add(Poly(f, add, zero, es, n, s), Poly(f, add, zero, es, n, t))
  {
    hide XorGroup, Linear;
    if es == [] {
      Interchange(add, zero, zero, zero, zero, zero);
    } else {
      PolyLinear(f, add, zero, es[1..], n, s, t);
      IterateLinear(f, add, s, t, es[0] * n);
      Interchange(add, zero, Iterate(f, s, es[0] * n), Iterate(f, t, es[0] * n),
        Poly(f, add, zero, es[1..], n, s), Poly(f, add, zero, es[1..], n, t));
    }
  }

  lemma {:induction false} PolyCommutes<T(!new)>(f: T -> T, add: (T, T) -> T, zero: T, es: seq<nat>, n: nat, s: T, m: nat)
    requires XorGroup(add, zero) && Linear(f, add)
    ensures Iterate(f, Poly(f, add, zero, es, n, s), m) == Poly(f, add, zero, es, n, Iterate(f, s, m))
  {
    hide XorGroup, Linear;
    if es == [] {
      IterateZero(f, add, zero, m);
    } else {
      PolyCommutes(f, add, zero, es[1..], n, s, m);
      IterateLinear(f, add, Iterate(f, s, es[0] * n), Poly(f, add, zero, es[1..], n, s), m);
      IterateAdd(f, s, es[0] * n, m);
      IterateAdd(f, s, m, es[0] * n);
    }
  }

  lemma DoubleExponent(e: nat, n: nat)
    ensures e * n + e * n == e * (2 * n)
  {
  }

  /** Squaring a polynomial doubles its exponents. */
  lemma {:induction false} PolySquare<T(!new)>(f: T -> T, add: (T, T) -> T, zero: T, es: seq<nat>, n: nat, s: T)
    requires XorGroup(add, zero) && Linear(f, add)
    ensures Poly(f, add, zero, es, n, Poly(f, add, zero, es, n, s)) == Poly(f, add, zero, es, 2 * n, s)
  {
    hide XorGroup, Linear;
    if es != [] {
      var e, rest := es[0] * n, es[1..];
      var p, q := Iterate(f, s, e), Poly(f, add, zero, rest, n, s);
      PolySquare(f, add, zero, rest, n, s);
      PolyLinear(f, add, zero, rest, n, p, q);
      IterateLinear(f, add, p, q, e);
      IterateAdd(f, s, e, e);
      DoubleExponent(es[0], n);
      PolyCommutes(f, add, zero, rest, n, s, e);
      Interchange(add, zero, Iterate(f, p, e), Iterate(f, q, e), Poly(f, add, zero, rest, n, p), Poly(f, add, zero, rest, n, q));
    }
  }

  /** A polynomial that kills everything does so with all exponents multiplied by a power of two. */
  lemma {:induction false} PolyKills<T(!new)>(f: T -> T, add: (T, T) -> T, zero: T, es: seq<nat>, j: nat, s: T)
    requires XorGroup(add, zero) && Linear(f, add)
    requires forall t :: Poly(f, add, zero, es, 1, t) == zero
    ensures Poly(f, add, zero, es, Pow2(j), s) == zero
    decreases j
  {
    hide XorGroup, Linear, Poly;
    if j > 0 {
      PolyKills(f, add, zero, es, j - 1, s);
      PolyKills(f, add, zero, es, j - 1, zero);
      PolySquare(f, add, zero, es, Pow2(j - 1), s);
    }
  }

  ghost predicate UpTo(es: seq<nat>, top: nat) {
    forall i :: 0 <= i < |es| ==> es[i] <= top
  }

  /** The polynomial with every exponent e replaced by top - e. */
  function Mirror(es: seq<nat>, top: nat): seq<nat>
    requires UpTo(es, top)
  {
    if es == [] then [] else [top - es[0]] + Mirror(es[1..], top)
  }

  lemma {:induction false} ManyReturns<T>(f: T -> T, s: T, n: nat, e: nat)
    requires Iterate(f, s, n) == s
    ensures Iterate(f, s, e * n) == s
    decreases e
  {
    if e > 0 {
      ManyReturns(f, s, n, e - 1);
      IterateAdd(f, s, (e - 1) * n, n);
      assert (e - 1) * n + n == e * n;
    } else {
      assert e * n == 0;
    }
  }

  /** On a cycle of length n + 1 the n-th power undoes f, so it turns a polynomial into its mirror image. */
  lemma {:induction false} PolyReflects<T(!new)>(f: T -> T, add: (T, T) -> T, zero: T, es: seq<nat>, top: nat, n: nat, s: T)
    requires UpTo(es, top)
    requires Iterate(f, s, n + 1) == s
    ensures Poly(f, add, zero, es, n, Iterate(f, s, top)) == Poly(f, add, zero, Mirror(es, top), 1, s)
  {
    if es != [] {
      var e := es[0];
      PolyReflects(f, add, zero, es[1..], top, n, s);
      ManyReturns(f, s, n + 1, e);
      IterateAdd(f, s, e * (n + 1), top - e);
      IterateAdd(f, s, top, e * n);
      assert e * (n + 1) + (top - e) == top + e * n;
      assert (top - e) * 1 == top - e;
    }
  }

  /** If the polynomial kills everything and its mirror image can be undone, only zero can be on a cycle of length 2^j + 1. */
  lemma NeighbourCycleIsZero<T(!new)>(f: T -> T, add: (T, T) -> T, zero: T, es: seq<nat>, top: nat, undo: seq<nat>, j: nat, s: T)
    requires XorGroup(add, zero) && Linear(f, add)
    requires UpTo(es, top)
    requires forall t :: Poly(f, add, zero, es, 1, t) == zero
    requires forall t :: Poly(f, add, zero, undo, 1, Poly(f, add, zero, Mirror(es, top), 1, t)) == t
    requires Iterate(f, s, Pow2(j) + 1) == s
    ensures s == zero
  {
    hide XorGroup, Linear, Poly, Pow2, Mirror, UpTo;
    PolyKills(f, add, zero, es, j, Iterate(f, s, top));
    PolyReflects(f, add, zero, es, top, Pow2(j), s);
    PolyOfZero(f, add, zero, undo);
    assert Poly(f, add, zero, undo, 1, Poly(f, add, zero, Mirror(es, top), 1, s)) == s;
  }

  lemma PolyOfZero<T(!new)>(f: T -> T, add: (T, T) -> T, zero: T, es: seq<nat>)
    requires XorGroup(add, zero) && Linear(f, add)
    ensures Poly(f, add, zero, es, 1, zero) == zero
  {
    PolyLinear(f, add, zero, es, 1, zero, zero);
  }

  // ---- polynomials are decided at one element ----

  /** Every element is its own half, undone, possibly with one added. */
  ghost predicate Built<T(!new)>(f: T -> T, add: (T, T) -> T, half: T -> T, twice: T -> T, one: T) {
    forall s :: f(twice(half(s))) == half(s) && (s == twice(half(s)) || s == add(twice(half(s)), one))
  }

  /** The first polynomial after the second gives t back, or zero. */
  ghost predicate Sends<T>(f: T -> T, add: (T, T) -> T, zero: T, undo: seq<nat>, es: seq<nat>, back: bool, t: T) {
    Poly(f, add, zero, undo, 1, Poly(f, add, zero, es, 1, t)) == if back then t else zero
  }

  lemma IterateOnce<T>(f: T -> T, s: T)
    ensures Iterate(f, s, 1) == f(s)
  {
    assert Iterate(f, s, 0) == s;
  }

  lemma PolyStep<T(!new)>(f: T -> T, add: (T, T) -> T, zero: T, es: seq<nat>, s: T)
    requires XorGroup(add, zero) && Linear(f, add)
    ensures Poly(f, add, zero, es, 1, f(s)) == f(Poly(f, add, zero, es, 1, s))
  {
    hide XorGroup, Linear, Poly;
    PolyCommutes(f, add, zero, es, 1, s, 1);
    IterateOnce(f, s);
    IterateOnce(f, Poly(f, add, zero, es, 1, s));
  }

  lemma SendsBefore<T(!new)>(f: T -> T, add: (T, T) -> T, zero: T, undo: seq<nat>, es: seq<nat>, back: bool, t: T)
    requires XorGroup(add, zero) && Linear(f, add) && Injective(f)
    requires Sends(f, add, zero, undo, es, back, f(t))
    ensures Sends(f, add, zero, undo, es, back, t)
  {
    hide XorGroup, Poly, Linear;
    PolyStep(f, add, zero, es, t);
    PolyStep(f, add, zero, undo, Poly(f, add, zero, es, 1, t));
    IterateZero(f, add, zero, 1);
    IterateOnce(f, zero);
  }

  lemma SendsSum<T(!new)>(f: T -> T, add: (T, T) -> T, zero: T, undo: seq<nat>, es: seq<nat>, back: bool, s: T, t: T)
    requires XorGroup(add, zero) && Linear(f, add)
    requires Sends(f, add, zero, undo, es, back, s) && Sends(f, add, zero, undo, es, back, t)
    ensures Sends(f, add, zero, undo, es, back, add(s, t))
  {
    hide XorGroup, Poly, Linear;
    PolyLinear(f, add, zero, es, 1, s, t);
    PolyLinear(f, add, zero, undo, 1, Poly(f, add, zero, es, 1, s), Poly(f, add, zero, es, 1, t));
    Interchange(add, zero, zero, zero, zero, zero);
  }

  /** What holds at one holds at everything that is built from it in n rounds. */
  lemma {:induction false} SendsAll<T(!new)>(f: T -> T, add: (T, T) -> T, zero: T, undo: seq<nat>, es: seq<nat>, back: bool,
                                             half: T -> T, twice: T -> T, one: T, s: T, n: nat)
    requires XorGroup(add, zero) && Linear(f, add) && Injective(f) && Built(f, add, half, twice, one)
    requires Sends(f, add, zero, undo, es, back, one) && Iterate(half, s, n) == zero
    ensures Sends(f, add, zero, undo, es, back, s)
    decreases n
  {
    hide XorGroup, Linear, Injective, Sends;
    if n == 0 {
      SendsSum(f, add, zero, undo, es, back, one, one);
      Interchange(add, zero, one, one, one, one);
    } else {
      IterateAdd(half, s, 1, n - 1);
      IterateOnce(half, s);
      SendsAll(f, add, zero, undo, es, back, half, twice, one, half(s), n - 1);
      SendsBefore(f, add, zero, undo, es, back, twice(half(s)));
      SendsSum(f, add, zero, undo, es, back, twice(half(s)), one);
    }
  }

  /** The exponents at which the binary digits of m are set, counted from e. */
  function Exponents(m: nat, e: nat): seq<nat> {
    if m == 0 then [] else (if m % 2 == 1 then [e] else []) + Exponents(m / 2, e + 1)
  }
}
