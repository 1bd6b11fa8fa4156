/**
  The pseudo-random pattern generator of the disk checker (app4.c, function pn):
  a 32-bit Galois shift register.  The algebra of its step is what lets the checker
  tell one sector's pattern from another's.
*/
module PatternGenerator {
  import opened Basics
  import opened LinearIteration
  import opened Numerals
  import opened Recurrences

  /** n++ on a 32-bit counter. */
  function Inc(n: DWORD): DWORD {
    (n + 1) % 0x1_0000_0000
  }

  /** The word whose low bits spell n in binary. */
  function Word(n: DWORD): bv32 {
    Numeral(0, ShiftIn, n, 32)
  }

  function ShiftIn(x: bv32, odd: bool): bv32 {
    if odd then (x << 1) | 1 else x << 1
  }

  /** One clock of the register: shift right, fold the mask in when a 1 falls out. */
  function Step(s: bv32): bv32 {
    if s & 1 == 1 then (s >> 1) ^ 0x8020_0003 else s >> 1
  }

  /** The clock run backwards: bit 31 says whether the mask was folded in. */
  function Unstep(s: bv32): bv32 {
    if s & 0x8000_0000 != 0 then ((s ^ 0x8020_0003) << 1) | 1 else s << 1
  }

  /** n clocks. */
  function Iter(s: bv32, n: nat): bv32 {
    Iterate(Step, s, n)
  }

  function Half(x: bv32): bv32 {
    x >> 1
  }

  predicate Odd(x: bv32) {
    x & 1 == 1
  }

  /** The number that the low n bits of the register spell. */
  function LowBits(s: bv32, n: nat): (r: nat)
    ensures r < Pow2(n)
  {
    if n == 0 then 0 else (if Odd(s) then 1 else 0) + 2 * LowBits(Half(s), n - 1)
  }

  /** What the caller keeps of the register: its low byte. */
  function Low(s: bv32): byte {
    assert Pow2(8) == 256;
    LowBits(s, 8)
  }

  /** The register after a call with argument pns: a nonzero argument seeds it and clocks it 33 times. */
  function Seeded(s: bv32, pns: DWORD): bv32 {
    if pns != 0 then Iter(Word(pns), 33) else Step(s)
  }

  /** The n bytes that the next n unseeded calls return. */
  function Stream(s: bv32, n: nat): (bytes: seq<byte>)
    ensures |bytes| == n
  {
    seq(n, i requires 0 <= i < n => Low(Iter(s, i + 1)))
  }

  class Pn {
    var lfsr: bv32

    /** The function pn: seeding recurses into 32 unseeded calls before the final clock. */
    method Next(pns: DWORD) returns (r: bv32)
      modifies this
      ensures lfsr == Seeded(old(lfsr), pns) && r == lfsr
      ensures lfsr == if pns != 0 then Iterate(Step, Word(pns), 33) else Step(old(lfsr))
      decreases if pns != 0 then 1 else 0
    {
      if pns != 0 {
        var seed := Word(pns);
        lfsr := seed;
        var n := 0;
        while n < 32
          invariant n <= 32
          invariant lfsr == Iter(seed, n)
        {
          var _ := Next(0);
          n := n + 1;
        }
      }
      ghost var before := lfsr;
      ghost var after := Step(before);
      if lfsr & 1 == 1 {
        lfsr := lfsr >> 1;
        lfsr := lfsr ^ 0x8020_0003;
        assert lfsr == after;
      } else {
        lfsr := lfsr >> 1;
        assert lfsr == after;
      }
      assert before == if pns != 0 then Iter(Word(pns), 32) else old(lfsr);
      r := lfsr;
    }
  }

  // ---- the step is a linear permutation of the 32-bit words ----

  function Xor(a: bv32, b: bv32): bv32 {
    a ^ b
  }

  lemma UnstepStep(s: bv32)
    ensures Unstep(Step(s)) == s
  {
    if s & 1 == 1 {
      var h := (s >> 1) ^ 0x8020_0003;
      assert h & 0x8000_0000 != 0;
    }
  }

  lemma StepUnstep(s: bv32)
    ensures Step(Unstep(s)) == s
  {
    if s & 0x8000_0000 != 0 {
      var h := ((s ^ 0x8020_0003) << 1) | 1;
      assert h & 1 == 1;
    }
  }

  lemma ShiftXor(s: bv32, t: bv32)
    ensures (s ^ t) >> 1 == (s >> 1) ^ (t >> 1)
    ensures ((s ^ t) & 1 == 1) <==> ((s & 1 == 1) != (t & 1 == 1))
  {
  }

  lemma XorMask(a: bv32, b: bv32, m: bv32)
    ensures (a ^ b) ^ m == (a ^ m) ^ b
    ensures (a ^ b) ^ m == a ^ (b ^ m)
    ensures a ^ b == (a ^ m) ^ (b ^ m)
  {
  }

  lemma StepSums(s: bv32, t: bv32)
    ensures Step(Xor(s, t)) == Xor(Step(s), Step(t))
  {
    ShiftXor(s, t);
    XorMask(s >> 1, t >> 1, 0x8020_0003);
  }

  lemma StepIsLinear()
    ensures Linear(Step, Xor)
  {
    forall a, b
      ensures Step(Xor(a, b)) == Xor(Step(a), Step(b))
    {
      StepSums(a, b);
    }
  }

  lemma StepIsInjective()
    ensures Injective(Step)
  {
    forall a, b | Step(a) == Step(b)
      ensures a == b
    {
      UnstepStep(a);
      UnstepStep(b);
    }
  }

  // ---- 32 consecutive low bytes determine the register ----

  /** The low 32-n bits. */
  function Mask(n: nat): bv32 {
    if n == 0 then 0xFFFF_FFFF else Mask(n - 1) >> 1
  }

  lemma MaskRunsOut()
    ensures Mask(32) == 0
  {
    assert Mask(8) == 0xFF_FFFF;
    assert Mask(16) == 0xFFFF;
    assert Mask(24) == 0xFF;
  }

  lemma ShiftKeepsMask(x: bv32, m: bv32)
    requires x & m == x && x & 1 == 0
    ensures Step(x) & (m >> 1) == Step(x)
  {
  }

  /** While only zeros fall out, the step merely shifts, so the register shrinks. */
  lemma {:induction false} ZerosShrink(d: bv32, n: nat)
    requires forall i :: 0 <= i < n ==> Iter(d, i) & 1 == 0
    ensures Iter(d, n) & Mask(n) == Iter(d, n)
  {
    if n > 0 {
      ZerosShrink(d, n - 1);
      assert Iter(d, n - 1) & 1 == 0;
      ShiftKeepsMask(Iter(d, n - 1), Mask(n - 1));
    }
  }

  lemma LowBitOfXor(x: bv32, y: bv32)
    requires Low(x) == Low(y)
    ensures Xor(x, y) & 1 == 0
  {
    hide Xor;
    LowParity(x, 8);
    LowParity(y, 8);
    EqualLowBits(x, y);
  }

  lemma LowParity(s: bv32, n: nat)
    requires n > 0
    ensures LowBits(s, n) % 2 == 1 <==> Odd(s)
    ensures LowBits(s, n) / 2 == LowBits(Half(s), n - 1)
  {
    hide Odd, Half;
  }

  lemma EqualLowBits(x: bv32, y: bv32)
    requires Odd(x) <==> Odd(y)
    ensures Xor(x, y) & 1 == 0
  {
  }

  lemma {:induction false} IterZero(n: nat)
    ensures Iter(0, n) == 0
  {
    if n > 0 {
      IterZero(n - 1);
    }
  }

  lemma XorSums()
    ensures XorLike(Xor, 0)
  {
  }

  lemma LowBytesDetermine(s: bv32, t: bv32)
    requires forall i :: 0 <= i < 32 ==> Low(Iter(s, i)) == Low(Iter(t, i))
    ensures s == t
  {
    var d := Xor(s, t);
    StepIsLinear();
    forall i | 0 <= i < 32
      ensures Iter(d, i) & 1 == 0
    {
      IterateLinear(Step, Xor, s, t, i);
      LowBitOfXor(Iter(s, i), Iter(t, i));
    }
    ZerosShrink(d, 32);
    MaskRunsOut();
    IterZero(32);
    StepIsInjective();
    IterateInjective(Step, d, 0, 32);
    XorSums();
  }

  // ---- words hold numbers faithfully ----

  ghost predicate Within(x: bv32, m: bv32) {
    x & m == x
  }

  lemma {:induction false} MaskShrinks(n: nat)
    ensures Within(Mask(n) >> 1, Mask(n))
  {
    if n > 0 {
      MaskShrinks(n - 1);
      ShiftKeepsSubset(Mask(n - 1));
    }
  }

  lemma ShiftKeepsSubset(m: bv32)
    requires Within(m >> 1, m)
    ensures Within((m >> 1) >> 1, m >> 1)
  {
  }

  lemma {:induction false} MaskOdd(n: nat)
    requires n < 32
    ensures Mask(n) & 1 == 1
    decreases 32 - n
  {
    if n == 31 {
      assert Mask(8) == 0xFF_FFFF;
      assert Mask(16) == 0xFFFF;
      assert Mask(24) == 0xFF;
      assert Mask(31) == 1;
    } else {
      MaskOdd(n + 1);
      MaskShrinks(n);
    }
  }

  lemma ShiftInZero(x: bv32, m: bv32)
    requires Within(x, Half(m)) && Odd(m)
    ensures Within(ShiftIn(x, false), m)
  {
  }

  lemma ShiftInOne(x: bv32, m: bv32)
    requires Within(x, Half(m)) && Odd(m)
    ensures Within(ShiftIn(x, true), m)
  {
  }

  /** Shifting a digit in is undone by halving, as long as there is room. */
  lemma ShiftInHalves(x: bv32, m: bv32, a: bool)
    requires Within(x, Half(m)) && Odd(m)
    ensures Half(ShiftIn(x, a)) == x
    ensures Odd(ShiftIn(x, a)) == a
  {
  }

  /** x has k free bits at the top. */
  ghost predicate Room(x: bv32, k: nat) {
    Within(x, Mask(k))
  }

  lemma MaskHalves(k: nat)
    requires 0 < k <= 32
    ensures Mask(k) == Half(Mask(k - 1)) && Odd(Mask(k - 1))
  {
    MaskOdd(k - 1);
  }

  lemma RoomForDigit(x: bv32, y: bv32, k: nat, a: bool, b: bool)
    requires 0 < k <= 32 && Room(x, k) && Room(y, k)
    ensures Room(ShiftIn(x, a), k - 1)
    ensures ShiftIn(x, a) == ShiftIn(y, b) ==> x == y && a == b
  {
    hide Within, ShiftIn, Half, Odd, Mask;
    MaskHalves(k);
    if a {
      ShiftInOne(x, Mask(k - 1));
    } else {
      ShiftInZero(x, Mask(k - 1));
    }
    ShiftInHalves(x, Mask(k - 1), a);
    ShiftInHalves(y, Mask(k - 1), b);
  }

  lemma WordsAreLossless()
    ensures Lossless(0, ShiftIn, Room, 32)
  {
    hide Within, ShiftIn;
    assert Room(0, 32) by {
      ZeroHasRoom(Mask(32));
    }
    hide Room;
    forall x, k: nat, a: bool | 0 < k <= 32 && Room(x, k)
      ensures Room(ShiftIn(x, a), k - 1)
    {
      RoomForDigit(x, x, k, a, a);
    }
    forall x, y, k: nat, a: bool, b: bool | 0 < k <= 32 && Room(x, k) && Room(y, k) && ShiftIn(x, a) == ShiftIn(y, b)
      ensures x == y && a == b
    {
      RoomForDigit(x, y, k, a, b);
    }
  }

  lemma ZeroHasRoom(m: bv32)
    ensures Within(0, m)
  {
  }

  /** 32 bits keep different numbers apart. */
  lemma WordInjective(p: DWORD, q: DWORD)
    requires p != q
    ensures Word(p) != Word(q)
  {
    hide ShiftIn;
    assert Pow2(8) == 0x100 && Pow2(16) == 0x1_0000 && Pow2(24) == 0x100_0000;
    WordsAreLossless();
    NumeralInjective(0, ShiftIn, Room, 32, p, q, 32);
  }

  lemma {:induction false} HalfFirst(w: bv32, k: nat)
    requires k > 0
    ensures Iterate(Half, w, k) == Iterate(Half, Half(w), k - 1)
  {
    hide Half;
    if k > 1 {
      HalfFirst(w, k - 1);
    }
  }

  lemma QuotientOfHalf(n: nat, k: nat)
    requires k > 0
    ensures n / Pow2(k) == n / 2 / Pow2(k - 1)
  {
    var p, h := Pow2(k - 1), n / 2;
    Quotient(h, p, h / p);
    Quotient(n, 2 * p, h / p);
    assert h / p * (2 * p) == 2 * (h / p * p) && (h / p + 1) * (2 * p) == 2 * ((h / p + 1) * p);
  }

  /** Shifting the word right brings out the binary digits of the number it spells. */
  lemma {:induction false} NumeralDigits(n: nat, bits: nat, k: nat)
    requires k < bits <= 32
    ensures Odd(Iterate(Half, Numeral(0, ShiftIn, n, bits), k)) <==> n / Pow2(k) % 2 == 1
    decreases k
  {
    hide ShiftIn, Half, Odd, Pow2, Within, Mask;
    WordsAreLossless();
    NumeralRoom(0, ShiftIn, Room, 32, n / 2, bits - 1);
    var before := Numeral(0, ShiftIn, n / 2, bits - 1);
    NextDigit(before, 33 - bits, n % 2 == 1);
    if k == 0 {
      assert Pow2(0) == 1 by { PowZero(); }
    } else {
      HalfFirst(Numeral(0, ShiftIn, n, bits), k);
      NumeralDigits(n / 2, bits - 1, k - 1);
      QuotientOfHalf(n, k);
    }
  }

  lemma PowZero()
    ensures Pow2(0) == 1
  {
  }

  lemma NextDigit(x: bv32, k: nat, a: bool)
    requires 0 < k <= 32 && Room(x, k)
    ensures Half(ShiftIn(x, a)) == x && Odd(ShiftIn(x, a)) == a
  {
    hide Within, ShiftIn, Half, Odd, Mask;
    MaskHalves(k);
    ShiftInHalves(x, Mask(k - 1), a);
  }

  /** A seed's word has the binary digits of the seed number, and the byte that is kept has those of the register. */
  lemma WordDigits(n: DWORD, s: bv32, k: nat)
    ensures k < 32 ==> ((Iterate(Half, Word(n), k) & 1 == 1) <==> n / Pow2(k) % 2 == 1)
    ensures k < 8 ==> ((Iterate(Half, s, k) & 1 == 1) <==> Low(s) / Pow2(k) % 2 == 1)
  {
    hide Pow2, LowBits;
    if k < 32 {
      NumeralDigits(n, 32, k);
    }
    if k < 8 {
      LowDigits(s, 8, k);
    }
  }

  lemma {:induction false} LowDigits(s: bv32, n: nat, k: nat)
    requires k < n
    ensures Odd(Iterate(Half, s, k)) <==> LowBits(s, n) / Pow2(k) % 2 == 1
    decreases k
  {
    hide LowBits, Odd, Half, Pow2;
    LowParity(s, n);
    if k == 0 {
      PowZero();
    } else {
      HalfFirst(s, k);
      LowDigits(Half(s), n - 1, k - 1);
      QuotientOfHalf(LowBits(s, n), k);
    }
  }

  // ---- no short cycles ----

  /** Neither one clock nor three bring a nonzero register back. */
  lemma NoTinyCycle(s: bv32)
    requires s != 0
    ensures Step(s) != s
    ensures Step(Step(Step(s))) != s
  {
  }

  /** No nonzero register returns after 2^k clocks, nor after 3 * 2^k. */
  lemma NoCycle(m: nat, k: nat, s: bv32)
    requires m == 1 || m == 3
    requires s != 0
    ensures Iter(s, m * Pow2(k)) != s
  {
    forall t: bv32 | t != 0
      ensures Iterate(Step, t, m) != t
    {
      NoTinyCycle(t);
      assert Iterate(Step, t, 1) == Step(t);
      assert Iterate(Step, t, 3) == Step(Iterate(Step, t, 2)) == Step(Step(Iterate(Step, t, 1)));
    }
    XorSums();
    StepIsLinear();
    NoDoubledCycle(Step, Xor, 0, m, k, s);
  }

  // ---- no cycle of length 2^j + 1 ----

  /** The recurrence of the register: these powers of the clock sum to zero. */
  const TAPS: seq<nat> := [32, 31, 30, 10, 0]

  /** The binary digits of the polynomial that undoes the mirror image of TAPS. */
  const UNDO: nat := 0x2dba_a58e

  function Twice(x: bv32): bv32 {
    x << 1
  }

  lemma XorLaws(a: bv32, b: bv32, c: bv32)
    ensures Xor(Xor(a, b), c) == Xor(a, Xor(b, c))
    ensures Xor(a, 0) == a
  {
  }

  lemma XorIsGroup()
    ensures XorGroup(Xor, 0)
  {
    XorSums();
    hide Xor, XorLike;
    forall a, b, c
      ensures Xor(Xor(a, b), c) == Xor(a, Xor(b, c))
    {
      XorLaws(a, b, c);
    }
    forall a
      ensures Xor(a, 0) == a
    {
      XorLaws(a, 0, 0);
    }
  }

  lemma HalfThenTwice(s: bv32)
    ensures Step(Twice(Half(s))) == Half(s)
    ensures s == Twice(Half(s)) || s == Xor(Twice(Half(s)), 1)
  {
  }

  lemma RegistersAreBuilt()
    ensures Built(Step, Xor, Half, Twice, 1)
  {
    hide Step, Xor, Half, Twice;
    forall s
      ensures Step(Twice(Half(s))) == Half(s) && (s == Twice(Half(s)) || s == Xor(Twice(Half(s)), 1))
    {
      HalfThenTwice(s);
    }
  }

  lemma HalfWithin(s: bv32, m: bv32)
    requires Within(s, m)
    ensures Within(Half(s), m >> 1)
  {
  }

  lemma {:induction false} HalvesShrink(s: bv32, n: nat)
    ensures Within(Iterate(Half, s, n), Mask(n))
  {
    hide Half;
    if n > 0 {
      HalvesShrink(s, n - 1);
      HalfWithin(Iterate(Half, s, n - 1), Mask(n - 1));
    }
  }

  lemma HalvesRunOut(s: bv32)
    ensures Iterate(Half, s, 32) == 0
  {
    hide Iterate, Half;
    HalvesShrink(s, 32);
    MaskRunsOut();
  }

  /** What holds of polynomials of the clock at 1 holds at every register. */
  lemma DecidedAtOne(undo: seq<nat>, es: seq<nat>, back: bool, s: bv32)
    requires Sends(Step, Xor, 0, undo, es, back, 1)
    ensures Sends(Step, Xor, 0, undo, es, back, s)
  {
    hide Step, Xor, Half, Twice, Sends, Iterate, XorGroup, Linear, Injective, Built;
    XorIsGroup();
    StepIsLinear();
    StepIsInjective();
    RegistersAreBuilt();
    HalvesRunOut(s);
    SendsAll(Step, Xor, 0, undo, es, back, Half, Twice, 1, s, 32);
  }

  lemma PowersOfOne()
    ensures Iter(1, 0) == 1 && Iter(1, 1) == 0x8020_0003 && Iter(1, 2) == 0xc030_0002 && Iter(1, 10) == 0xb6ed_b003
    ensures Iter(1, 22) == 0xb6f6_dad8 && Iter(1, 30) == 0x28bc_f6da && Iter(1, 31) == 0x145e_7b6d && Iter(1, 32) == 0x8a0f_3db5
  {
    assert Iter(1, 4) == 0xb02c_0003;
    assert Iter(1, 8) == 0xdb36_c002;
    assert Iter(1, 12) == 0x6dab_6c01;
    assert Iter(1, 16) == 0xb6f6_b6c3;
    assert Iter(1, 20) == 0xdb5b_6b6e;
    assert Iter(1, 24) == 0x2dbd_b6b6;
    assert Iter(1, 28) == 0xa2f3_db68;
  }

  function Sum(es: seq<nat>, s: bv32): bv32 {
    Poly(Step, Xor, 0, es, 1, s)
  }

  lemma SumHead(e: nat, rest: seq<nat>, s: bv32)
    ensures Sum([e] + rest, s) == Xor(Iter(s, e), Sum(rest, s))
    ensures Sum([], s) == 0
  {
    assert ([e] + rest)[1..] == rest && e * 1 == e;
  }

  lemma SumOfFive(a: nat, b: nat, c: nat, d: nat, e: nat, s: bv32)
    ensures Sum([a, b, c, d, e], s) == Xor(Iter(s, a), Xor(Iter(s, b), Xor(Iter(s, c), Xor(Iter(s, d), Xor(Iter(s, e), 0)))))
  {
    hide Iter, Step, Sum, Xor;
    SumHead(e, [], s);
    assert [e] + [] == [e];
    SumHead(d, [e], s);
    assert [d] + [e] == [d, e];
    SumHead(c, [d, e], s);
    assert [c] + [d, e] == [c, d, e];
    SumHead(b, [c, d, e], s);
    assert [b] + [c, d, e] == [b, c, d, e];
    SumHead(a, [b, c, d, e], s);
    assert [a] + [b, c, d, e] == [a, b, c, d, e];
  }

  lemma MirrorOfTaps()
    ensures UpTo(TAPS, 32) && Mirror(TAPS, 32) == [0, 1, 2, 22, 32]
  {
  }

  lemma SumOfOne(s: bv32)
    ensures Sum([0], s) == s
  {
    hide Step;
    SumHead(0, [], s);
    assert [0] + [] == [0];
    assert Iter(s, 0) == s;
  }

  lemma TapsAtOne()
    ensures Sum(TAPS, 1) == 0 && Sum([0, 1, 2, 22, 32], 1) == 0x7CE9_E76D
  {
    hide Iter, Sum, Poly;
    PowersOfOne();
    SumOfFive(32, 31, 30, 10, 0, 1);
    SumOfFive(0, 1, 2, 22, 32, 1);
  }

  lemma TapsVanish(s: bv32)
    ensures Sum(TAPS, s) == 0
  {
    hide Iter, Step, Poly, Xor;
    TapsAtOne();
    SumOfOne(0);
    SumOfOne(Sum(TAPS, s));
    DecidedAtOne([0], TAPS, false, s);
  }

  /** The polynomial with binary digits m, by clocking once per digit. */
  function Evaluate(m: nat, s: bv32): bv32 {
    if m == 0 then 0
    else if m % 2 == 1 then Xor(s, Evaluate(m / 2, Step(s)))
    else Evaluate(m / 2, Step(s))
  }

  lemma {:induction false} EvaluateSums(m: nat, e: nat, s: bv32)
    ensures Sum(Exponents(m, e), s) == Evaluate(m, Iter(s, e))
    decreases m
  {
    hide Step, Xor, Sum;
    if m > 0 {
      EvaluateSums(m / 2, e + 1, s);
      SumHead(e, Exponents(m / 2, e + 1), s);
      assert m % 2 == 0 ==> Exponents(m, e) == Exponents(m / 2, e + 1);
    } else {
      SumHead(e, [], s);
    }
  }

  lemma EvaluatesToOne()
    ensures Evaluate(UNDO, 0x7CE9_E76D) == 1
  {
    assert Evaluate(0x5, 0x21da_8d51) == 0xe99c_2e07;
    assert Evaluate(0x2d, 0x0e94_6a8f) == 0xa4bd_5e2a;
    assert Evaluate(0x16d, 0x74a3_5478) == 0xcd36_df4c;
    assert Evaluate(0xb6e, 0xa5da_a3c9) == 0xf6bd_265b;
    assert Evaluate(0x5b75, 0x2f95_1e53) == 0x92dd_7f9d;
    assert Evaluate(0x2dbaa, 0x7ce8_f29f) == 0x2c89_06d1;
    assert Evaluate(0x16dd52, 0xe787_94f1) == 0xdf6a_ccaa;
    assert Evaluate(0xb6ea96, 0x3dfc_a79d) == 0x8efb_b682;
    assert Evaluate(0x5b754b1, 0xefa5_3cef) == 0x615e_8a6d;
  }

  lemma MirrorUndoneAtOne()
    ensures Sum(Exponents(UNDO, 0), 0x7CE9_E76D) == 1
  {
    hide Sum, Exponents, Evaluate, Step;
    EvaluateSums(UNDO, 0, 0x7CE9_E76D);
    EvaluatesToOne();
    assert Iter(0x7CE9_E76D, 0) == 0x7CE9_E76D;
  }

  lemma MirrorUndone(s: bv32)
    ensures Sum(Exponents(UNDO, 0), Sum([0, 1, 2, 22, 32], s)) == s
  {
    hide Iter, Step, Poly, Xor, Exponents;
    TapsAtOne();
    MirrorUndoneAtOne();
    DecidedAtOne(Exponents(UNDO, 0), [0, 1, 2, 22, 32], true, s);
  }

  /** No nonzero register returns after 2^j + 1 clocks. */
  lemma NoNeighbourCycle(j: nat, s: bv32)
    requires s != 0
    ensures Iter(s, Pow2(j) + 1) != s
  {
    hide Step, Poly, Xor, Exponents, Mirror, UpTo, XorGroup, Linear, Pow2;
    if Iter(s, Pow2(j) + 1) == s {
      XorIsGroup();
      StepIsLinear();
      MirrorOfTaps();
      forall t
        ensures Poly(Step, Xor, 0, TAPS, 1, t) == 0
        ensures Poly(Step, Xor, 0, Exponents(UNDO, 0), 1, Poly(Step, Xor, 0, Mirror(TAPS, 32), 1, t)) == t
      {
        TapsVanish(t);
        MirrorUndone(t);
      }
      NeighbourCycleIsZero(Step, Xor, 0, TAPS, 32, Exponents(UNDO, 0), j, s);
      assert false;
    }
  }

  /** Equal streams of 32 bytes or more come from equal registers. */
  lemma StreamsDetermine(s: bv32, t: bv32, w: nat)
    requires w >= 32
    requires Stream(s, w) == Stream(t, w)
    ensures s == t
  {
    forall i | 0 <= i < 32
      ensures Low(Iter(Iter(s, 1), i)) == Low(Iter(Iter(t, 1), i))
    {
      IterateAdd(Step, s, 1, i);
      IterateAdd(Step, t, 1, i);
      assert Stream(s, w)[i] == Stream(t, w)[i];
    }
    LowBytesDetermine(Iter(s, 1), Iter(t, 1));
    StepIsInjective();
    IterateInjective(Step, s, t, 1);
  }

  /** Windows of the stream that start m * 2^k clocks apart differ, provided they hold 32 bytes. */
  lemma WindowsDiffer(s: bv32, m: nat, k: nat, w: nat)
    requires s != 0
    requires m == 1 || m == 3
    requires w >= 32
    ensures Stream(s, w) != Stream(Iter(s, m * Pow2(k)), w)
  {
    if Stream(s, w) == Stream(Iter(s, m * Pow2(k)), w) {
      StreamsDetermine(s, Iter(s, m * Pow2(k)), w);
      NoCycle(m, k, s);
    }
  }
}
