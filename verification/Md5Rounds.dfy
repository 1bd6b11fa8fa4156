/**
  The step macros of Cmd/MD5.h on 32-bit words, and the block transform of Cmd/MD5.c built from
  64 of them.  Every step, and so every sequence of steps, is a permutation of the registers.
*/
module Md5Rounds {
  import opened Basics

  /** Sums of 32-bit words are taken modulo this. */
  const WORDS: nat := 0x1_0000_0000

  datatype Round = RoundF | RoundG | RoundH | RoundI

  /** A rotation distance. */
  type Shift = s: nat | 0 < s < 32 witness 1

  datatype Regs = Regs(a: DWORD, b: DWORD, c: DWORD, d: DWORD)

  /** The parameters of one macro call: which macro, the message word, the distance, the constant. */
  datatype Op = Op(round: Round, x: DWORD, s: Shift, ac: DWORD)

  /** The low n bits of three numbers combined, bit by bit. */
  function Bitwise(f: (bool, bool, bool) -> bool, x: nat, y: nat, z: nat, n: nat): (r: nat)
    ensures r < Pow2(n)
  {
    if n == 0 then 0 else
    (if f(x % 2 == 1, y % 2 == 1, z % 2 == 1) then 1 else 0) + 2 * Bitwise(f, x / 2, y / 2, z / 2, n - 1)
  }

  function OnWords(f: (bool, bool, bool) -> bool, x: DWORD, y: DWORD, z: DWORD): DWORD {
    Pow32();
    Bitwise(f, x, y, z, 32)
  }

  function F(x: DWORD, y: DWORD, z: DWORD): DWORD { OnWords((u, v, w) => (u && v) || (!u && w), x, y, z) }
  function G(x: DWORD, y: DWORD, z: DWORD): DWORD { OnWords((u, v, w) => (u && w) || (v && !w), x, y, z) }
  function H(x: DWORD, y: DWORD, z: DWORD): DWORD { OnWords((u, v, w) => (u != v) != w, x, y, z) }
  function I(x: DWORD, y: DWORD, z: DWORD): DWORD { OnWords((u, v, w) => v != (u || !w), x, y, z) }

  function Nonlinear(round: Round, x: DWORD, y: DWORD, z: DWORD): DWORD {
    match round
    case RoundF => F(x, y, z)
    case RoundG => G(x, y, z)
    case RoundH => H(x, y, z)
    case RoundI => I(x, y, z)
  }

  function Plus(v: DWORD, b: DWORD): DWORD { (v + b) % WORDS }

  function Minus(v: DWORD, b: DWORD): DWORD { (v - b) % WORDS }

  /**
    Left and right shift of a word.  When the distances add up to 32 their results occupy different bits, so
    or-ing them, as the macro does, is adding them (see RotateIsOr).
  */
  function ShiftLeft(x: DWORD, n: nat): DWORD { x * Pow2(n) % WORDS }

  function ShiftRight(x: DWORD, n: nat): nat {
    QuotientIsNat(x, Pow2(n));
    x / Pow2(n)
  }

  lemma QuotientIsNat(x: nat, p: nat)
    requires p > 0
    ensures x / p >= 0
  {
  }

  function RotateLeft(x: DWORD, n: Shift): DWORD {
    RotateFits(x, n);
    ShiftLeft(x, n) + ShiftRight(x, 32 - n)
  }

  // ---- rotation ----

  lemma {:induction false} PowSum(m: nat, n: nat)
    ensures Pow2(m) * Pow2(n) == Pow2(m + n)
  {
    if m > 0 {
      PowSum(m - 1, n);
      assert Pow2(m) * Pow2(n) == 2 * (Pow2(m - 1) * Pow2(n));
    }
  }

  lemma Pow32()
    ensures Pow2(32) == WORDS
  {
    assert Pow2(8) == 0x100 && Pow2(16) == 0x1_0000 && Pow2(24) == 0x100_0000;
  }

  lemma PowWord(n: Shift)
    ensures Pow2(n) * Pow2(32 - n) == WORDS
  {
    hide Pow2;
    PowSum(n, 32 - n);
    Pow32();
  }

  /** Splitting a word h * q + l at the rotation point: shifting left keeps l, shifting right keeps h. */
  lemma SplitWord(x: nat, p: nat, q: nat, m: nat)
    requires p > 0 && q > 0 && m == p * q && x < m
    ensures x / q < p && x % q < q && x == x / q * q + x % q
    ensures x * p % m == x % q * p
    ensures x % q * p <= m - p
  {
    var h, l := x / q, x % q;
    assert x == h * q + l;
    if h >= p {
      MulMonotone(p, h, q);
    }
    MulMonotone(l + 1, q, p);
    assert (l + 1) * p == l * p + p;
    assert x * p == h * m + l * p by {
      assert (h * q + l) * p == h * (p * q) + l * p;
    }
    ModOf(h, m, l * p);
  }

  lemma ModOf(h: nat, m: nat, r: nat)
    requires r < m
    ensures (h * m + r) % m == r
    ensures (h * m + r) / m == h
  {
    var t := h * m + r;
    assert t == t / m * m + t % m;
    assert (t / m - h) * m == r - t % m;
    OnlyZero(t / m - h, m, r - t % m);
  }

  lemma OnlyZero(k: int, m: nat, d: int)
    requires k * m == d && 0 - m < d < m
    ensures k == 0
  {
    MultipleSize(k, m);
  }

  lemma MultipleSize(k: int, m: nat)
    ensures k >= 1 ==> k * m >= m
    ensures k <= -1 ==> k * m <= 0 - m
  {
  }

  lemma RotateFits(x: DWORD, n: Shift)
    ensures ShiftLeft(x, n) + ShiftRight(x, 32 - n) < WORDS
  {
    hide Pow2;
    PowWord(n);
    SplitWord(x, Pow2(n), Pow2(32 - n), WORDS);
  }

  /** The two halves of a rotation have no bit position in common. */
  lemma HalvesDisjoint(x: DWORD, n: Shift)
    ensures ShiftLeft(x, n) % Pow2(n) == 0 && ShiftRight(x, 32 - n) < Pow2(n)
  {
    hide Pow2;
    PowWord(n);
    var p, q := Pow2(n), Pow2(32 - n);
    SplitWord(x, p, q, WORDS);
    ModOf(x % q, p, 0);
  }

  /** Bit i of a number. */
  predicate Bit(x: nat, i: nat) {
    x / Pow2(i) % 2 == 1
  }

  /** An even multiple of q does not affect the bit that q stands for. */
  lemma LowBits(c: nat, q: nat, r: nat)
    requires q > 0
    ensures (2 * c * q + r) / q == 2 * c + r / q
    ensures 2 * c * q / q == 2 * c
  {
    ModOf(2 * c + r / q, q, r % q);
    ModOf(2 * c, q, 0);
    assert 2 * c * q + r == (2 * c + r / q) * q + r % q;
  }

  lemma LowParity(l: nat, h: nat, q: nat, t: nat, r: nat)
    requires q > 0 && l == h * (2 * (q * t))
    ensures (l + r) / q % 2 == r / q % 2 && l / q % 2 == 0
  {
    assert h * (q * t) == h * t * q;
    assert l == 2 * (h * t) * q;
    LowBits(h * t, q, r);
    TwiceAnd(h * t, r / q);
  }

  lemma TwiceAnd(c: nat, d: int)
    ensures (2 * c + d) % 2 == d % 2 && 2 * c % 2 == 0
  {
  }

  /** Bits from p on are those of a multiple of p. */
  lemma HighBits(h: nat, p: nat, q: nat, r: nat)
    requires p > 0 && q > 0 && r < p && p * q > 0
    ensures (h * p + r) / (p * q) == h / q
    ensures r / (p * q) == 0
  {
    var a, b := h / q, h % q;
    MulMonotone(b + 1, q, p);
    assert b * p + r < p * q by { assert (b + 1) * p == b * p + p; }
    assert h * p + r == a * (p * q) + (b * p + r) by { assert (a * q + b) * p == a * (p * q) + b * p; }
    ModOf(a, p * q, b * p + r);
    MulMonotone(1, q, p);
    ModOf(0, p * q, r);
  }

  lemma HighParity(l: nat, h: nat, p: nat, q: nat, r: nat)
    requires p > 0 && q > 0 && r < p && p * q > 0 && l == h * p
    ensures (l + r) / (p * q) == l / (p * q) && r / (p * q) == 0
  {
    HighBits(h, p, q, r);
    HighBits(h, p, q, 0);
  }

  /** When l has only bits from n on and r only bits below n, the bits of l + r are those of l or r. */
  lemma SumIsOr(l: nat, r: nat, n: nat, i: nat)
    requires l % Pow2(n) == 0 && r < Pow2(n)
    ensures Bit(l + r, i) <==> Bit(l, i) || Bit(r, i)
  {
    WholeQuotient(l, Pow2(n));
    hide Pow2;
    if i < n {
      PowSum(i, n - i - 1);
      DoublePow(n - 1);
      LowParity(l, l / Pow2(n), Pow2(i), Pow2(n - i - 1), r);
    } else {
      PowSum(n, i - n);
      HighParity(l, l / Pow2(n), Pow2(n), Pow2(i - n), r);
    }
  }

  lemma WholeQuotient(l: nat, p: nat)
    requires p > 0 && l % p == 0
    ensures l / p >= 0 && l == l / p * p
  {
  }

  lemma DoublePow(n: nat)
    ensures Pow2(n + 1) == 2 * Pow2(n)
  {
  }

  /** The macro: every bit of the rotated word is the or of the bits of its two shifted halves. */
  lemma RotateIsOr(x: DWORD, n: Shift, i: nat)
    ensures Bit(RotateLeft(x, n), i) <==> Bit(ShiftLeft(x, n), i) || Bit(ShiftRight(x, 32 - n), i)
  {
    hide Pow2, Bit, ShiftLeft, ShiftRight;
    HalvesDisjoint(x, n);
    SumIsOr(ShiftLeft(x, n), ShiftRight(x, 32 - n), n, i);
  }

  lemma RotateBack(x: DWORD, n: Shift)
    ensures RotateLeft(RotateLeft(x, n), 32 - n) == x
  {
    hide Pow2;
    PowWord(n);
    var p, q := Pow2(n), Pow2(32 - n);
    SplitWord(x, p, q, WORDS);
    var y := RotateLeft(x, n);
    assert y == x % q * p + x / q;
    assert q * p == WORDS;
    SplitWord(y, q, p, WORDS);
    ModOf(x % q, p, x / q);
    assert y / p == x % q && y % p == x / q;
  }

  // ---- the four functions, bit by bit ----

  lemma HalfBit(x: nat, i: nat)
    requires i > 0
    ensures Bit(x, i) <==> Bit(x / 2, i - 1)
  {
    var p := Pow2(i - 1);
    var h := x / 2;
    assert h == h / p * p + h % p;
    assert x == h / p * (2 * p) + (2 * (h % p) + x % 2) by { assert 2 * (h / p * p) == h / p * (2 * p); }
    QuotientIsNat(h, p);
    ModOf(h / p, 2 * p, 2 * (h % p) + x % 2);
  }

  lemma BitwiseParts(f: (bool, bool, bool) -> bool, x: nat, y: nat, z: nat, n: nat)
    requires n > 0
    ensures Bitwise(f, x, y, z, n) % 2 == 1 <==> f(x % 2 == 1, y % 2 == 1, z % 2 == 1)
    ensures Bitwise(f, x, y, z, n) / 2 == Bitwise(f, x / 2, y / 2, z / 2, n - 1)
  {
  }

  lemma {:induction false} BitwiseBit(f: (bool, bool, bool) -> bool, x: nat, y: nat, z: nat, n: nat, i: nat)
    requires i < n
    ensures Bit(Bitwise(f, x, y, z, n), i) <==> f(Bit(x, i), Bit(y, i), Bit(z, i))
    decreases i
  {
    hide Bit, Bitwise, Pow2;
    var r := Bitwise(f, x, y, z, n);
    BitwiseParts(f, x, y, z, n);
    if i == 0 {
      FirstBit(x);
      FirstBit(y);
      FirstBit(z);
      FirstBit(r);
    } else {
      BitwiseBit(f, x / 2, y / 2, z / 2, n - 1, i - 1);
      HalfBit(x, i);
      HalfBit(y, i);
      HalfBit(z, i);
      HalfBit(r, i);
    }
  }

  lemma FirstBit(x: nat)
    ensures Bit(x, 0) <==> x % 2 == 1
  {
    assert Pow2(0) == 1;
  }

  /** Numbers below 2^n with the same n bits are equal. */
  lemma {:induction false} BitsDetermine(x: nat, y: nat, n: nat)
    requires x < Pow2(n) && y < Pow2(n) && forall i :: 0 <= i < n ==> (Bit(x, i) <==> Bit(y, i))
    ensures x == y
    decreases n
  {
    if n > 0 {
      assert Bit(x, 0) <==> Bit(y, 0);
      FirstBit(x);
      FirstBit(y);
      forall i | 0 <= i < n - 1
        ensures Bit(x / 2, i) <==> Bit(y / 2, i)
      {
        HalfBit(x, i + 1);
        HalfBit(y, i + 1);
        assert Bit(x, i + 1) <==> Bit(y, i + 1);
      }
      BitsDetermine(x / 2, y / 2, n - 1);
    }
  }

  /** F chooses between its last two words by the first, and G between its first two by the last. */
  lemma Choices(x: DWORD, y: DWORD, z: DWORD, i: nat)
    requires i < 32
    ensures Bit(F(x, y, z), i) <==> if Bit(x, i) then Bit(y, i) else Bit(z, i)
    ensures Bit(G(x, y, z), i) <==> if Bit(z, i) then Bit(x, i) else Bit(y, i)
  {
    hide Bit, Bitwise;
    BitwiseBit((u, v, w) => (u && v) || (!u && w), x, y, z, 32, i);
    BitwiseBit((u, v, w) => (u && w) || (v && !w), x, y, z, 32, i);
  }

  /** H is the parity of three bits, and I differs from its second word where the first is 1 or the last is 0. */
  lemma Parities(x: DWORD, y: DWORD, z: DWORD, i: nat)
    requires i < 32
    ensures Bit(H(x, y, z), i)
            <==> ((if Bit(x, i) then 1 else 0) + (if Bit(y, i) then 1 else 0) + (if Bit(z, i) then 1 else 0)) % 2 == 1
    ensures Bit(I(x, y, z), i) == Bit(y, i) <==> !Bit(x, i) && Bit(z, i)
  {
    hide Bit, Bitwise;
    BitwiseBit((u, v, w) => (u != v) != w, x, y, z, 32, i);
    BitwiseBit((u, v, w) => v != (u || !w), x, y, z, 32, i);
  }

  /** Rotating by n takes bit i to bit i + n, around the word. */
  lemma RotateTurns(x: DWORD, n: Shift, i: nat)
    requires i < 32
    ensures Bit(RotateLeft(x, n), (i + n) % 32) <==> Bit(x, i)
  {
    hide Pow2, Bit;
    PowWord(n);
    var p, q := Pow2(n), Pow2(32 - n);
    SplitWord(x, p, q, WORDS);
    var h, l := x / q, x % q;
    QuotientIsNat(x, q);
    if i < 32 - n {
      BitAcross(l, n, h, i);
      BitBelow(h, 32 - n, l, i);
    } else {
      var k := i - (32 - n);
      assert (i + n) % 32 == k;
      BitAcross(h, 32 - n, l, k);
      BitBelow(l, n, h, k);
    }
  }

  /** Above its lowest n bits, a number has the bits of what stands there. */
  lemma BitAcross(h: nat, n: nat, r: nat, i: nat)
    requires r < Pow2(n)
    ensures Bit(h * Pow2(n) + r, i + n) <==> Bit(h, i)
  {
    hide Pow2;
    PowSum(n, i);
    HighBits(h, Pow2(n), Pow2(i), r);
  }

  /** The lowest n bits do not depend on what stands above them. */
  lemma BitBelow(h: nat, n: nat, r: nat, i: nat)
    requires i < n
    ensures Bit(h * Pow2(n) + r, i) <==> Bit(r, i)
  {
    hide Pow2;
    PowSum(i, n - i - 1);
    DoublePow(n - 1);
    LowParity(h * Pow2(n), h, Pow2(i), Pow2(n - i - 1), r);
  }

  // ---- one step ----

  function Addend(f: DWORD, x: DWORD, ac: DWORD): DWORD { (f + x + ac) % WORDS }

  function Mixed(r: Regs, op: Op): DWORD {
    Plus(RotateLeft(Plus(r.a, Addend(Nonlinear(op.round, r.b, r.c, r.d), op.x, op.ac)), op.s), r.b)
  }

  /** A macro call, with the registers renamed so that the next call's first register comes first. */
  function Forward(r: Regs, op: Op): Regs {
    Regs(r.d, Mixed(r, op), r.b, r.c)
  }

  /** The macro call undone. */
  function Backward(r: Regs, op: Op): Regs {
    var before := RotateLeft(Minus(r.b, r.c), 32 - op.s);
    Regs(Minus(before, Addend(Nonlinear(op.round, r.c, r.d, r.a), op.x, op.ac)), r.c, r.d, r.a)
  }

  lemma PlusThenMinus(v: DWORD, b: DWORD)
    ensures Minus(Plus(v, b), b) == v
    ensures Plus(Minus(v, b), b) == v
  {
  }

  /** Each step is a permutation of the four registers. */
  lemma StepBijective(r: Regs, op: Op)
    ensures Backward(Forward(r, op), op) == r
    ensures Forward(Backward(r, op), op) == r
  {
    hide Plus, Minus, Addend, RotateLeft, Nonlinear;
    var f := Addend(Nonlinear(op.round, r.b, r.c, r.d), op.x, op.ac);
    PlusThenMinus(r.a, f);
    RotateBack(Plus(r.a, f), op.s);
    PlusThenMinus(RotateLeft(Plus(r.a, f), op.s), r.b);

    var g := Addend(Nonlinear(op.round, r.c, r.d, r.a), op.x, op.ac);
    var w := Minus(r.b, r.c);
    PlusThenMinus(r.b, r.c);
    RotateBack(w, 32 - op.s);
    PlusThenMinus(RotateLeft(w, 32 - op.s), g);
  }

  /** The one value of the first register from which the inverse step gives the old registers back. */
  lemma StepUnique(r: Regs, op: Op, w: DWORD)
    ensures Backward(Regs(r.d, w, r.b, r.c), op) == r <==> Forward(r, op) == Regs(r.d, w, r.b, r.c)
  {
    hide Mixed, Backward;
    StepBijective(r, op);
    StepBijective(Regs(r.d, w, r.b, r.c), op);
  }

  // ---- sequences of steps ----

  function Run(r: Regs, ops: seq<Op>): Regs
    decreases ops
  {
    if ops == [] then r else Run(Forward(r, ops[0]), ops[1..])
  }

  function RunBack(r: Regs, ops: seq<Op>): Regs {
    if ops == [] then r else Backward(RunBack(r, ops[1..]), ops[0])
  }

  /** Any sequence of steps, with any words, constants and distances, is a permutation of the registers. */
  lemma {:induction false} RunBijective(r: Regs, ops: seq<Op>)
    ensures RunBack(Run(r, ops), ops) == r
    ensures Run(RunBack(r, ops), ops) == r
    decreases ops
  {
    hide Forward, Backward;
    if ops != [] {
      RunBijective(Forward(r, ops[0]), ops[1..]);
      StepBijective(r, ops[0]);
      RunBijective(r, ops[1..]);
      StepBijective(RunBack(r, ops[1..]), ops[0]);
    }
  }

  /** So a block's steps, before the feed-forward, take different chaining states to different states. */
  lemma RunInjective(r: Regs, q: Regs, ops: seq<Op>)
    requires Run(r, ops) == Run(q, ops)
    ensures r == q
  {
    hide Run, RunBack;
    RunBijective(r, ops);
    RunBijective(q, ops);
  }

  // ---- the 64 steps of a block ----

  const SHIFTS: seq<seq<Shift>> := [[7, 12, 17, 22], [5, 9, 14, 20], [4, 8, 16, 23], [6, 10, 15, 21]]

  const CONSTANTS: seq<seq<DWORD>> := [
    [0xd76aa478, 0xe8c7b756, 0x242070db, 0xc1bdceee, 0xf57c0faf, 0x4787c62a, 0xa8304613, 0xfd469501,
     0x698098d8, 0x8b44f7af, 0xffff5bb1, 0x895cd7be, 0x6b901122, 0xfd987193, 0xa679438e, 0x49b40821],
    [0xf61e2562, 0xc040b340, 0x265e5a51, 0xe9b6c7aa, 0xd62f105d, 0x02441453, 0xd8a1e681, 0xe7d3fbc8,
     0x21e1cde6, 0xc33707d6, 0xf4d50d87, 0x455a14ed, 0xa9e3e905, 0xfcefa3f8, 0x676f02d9, 0x8d2a4c8a],
    [0xfffa3942, 0x8771f681, 0x6d9d6122, 0xfde5380c, 0xa4beea44, 0x4bdecfa9, 0xf6bb4b60, 0xbebfbc70,
     0x289b7ec6, 0xeaa127fa, 0xd4ef3085, 0x04881d05, 0xd9d4d039, 0xe6db99e5, 0x1fa27cf8, 0xc4ac5665],
    [0xf4292244, 0x432aff97, 0xab9423a7, 0xfc93a039, 0x655b59c3, 0x8f0ccc92, 0xffeff47d, 0x85845dd1,
     0x6fa87e4f, 0xfe2ce6e0, 0xa3014314, 0x4e0811a1, 0xf7537e82, 0xbd3af235, 0x2ad7d2bb, 0xeb86d391]]

  /** Which message word step i takes. */
  function WordIndex(i: nat): (k: nat)
    requires i < 64
    ensures k < 16
  {
    if i < 16 then i else if i < 32 then (5 * i + 1) % 16 else if i < 48 then (3 * i + 5) % 16 else 7 * i % 16
  }

  function OpAt(words: seq<DWORD>, i: nat): Op
    requires |words| == 16 && i < 64
  {
    var round := if i < 16 then RoundF else if i < 32 then RoundG else if i < 48 then RoundH else RoundI;
    Op(round, words[WordIndex(i)], SHIFTS[i / 16][i % 4], CONSTANTS[i / 16][i % 16])
  }

  /** The rotation distances of section 3.4 of RFC 1321. */
  const RFC_SHIFTS: seq<seq<Shift>> := [[7, 12, 17, 22], [5, 9, 14, 20], [4, 11, 16, 23], [6, 10, 15, 21]]

  /** The step table departs from the RFC in exactly the steps 34, 38, 42 and 46, which turn by 8 and not by 11. */
  lemma ShiftDeviation(words: seq<DWORD>, i: nat)
    requires |words| == 16 && i < 64
    ensures OpAt(words, i).s != RFC_SHIFTS[i / 16][i % 4] <==> i + 1 in {34, 38, 42, 46}
    ensures i + 1 in {34, 38, 42, 46} ==> OpAt(words, i).s == 8 && RFC_SHIFTS[i / 16][i % 4] == 11
  {
    var row, col := i / 16, i % 4;
    assert row < 4 && col < 4;
    if row == 2 {
      assert 32 <= i < 48;
    }
  }

  /** Rotating multiplies by a power of two modulo 2^32 - 1. */
  lemma RotateMultiplies(x: DWORD, n: Shift)
    ensures RotateLeft(x, n) == x * Pow2(n) - x / Pow2(32 - n) * (WORDS - 1)
    ensures 0 <= x / Pow2(32 - n) < Pow2(n)
  {
    hide Pow2;
    PowWord(n);
    var p, q := Pow2(n), Pow2(32 - n);
    SplitWord(x, p, q, WORDS);
    var h, l := x / q, x % q;
    assert (h * q + l) * p == h * WORDS + l * p by { assert h * q * p == h * (p * q); }
  }

  lemma EqualMultiples(v: DWORD, a: nat, b: nat)
    requires 256 * v - a * 0xFFFF_FFFF == 2048 * v - b * 0xFFFF_FFFF && a < 256 && b < 2048
    ensures v == 0 || v == 0xFFFF_FFFF
  {
    var d := b - a;
    assert d == 1792 * (1279 * v - 3065437037 * d);
  }

  /** Turning by 8 and by 11 bits gives the same word only for the words of 32 equal bits. */
  lemma TurnsAgree(v: DWORD)
    ensures RotateLeft(v, 8) == RotateLeft(v, 11) <==> v == 0 || v == 0xFFFF_FFFF
  {
    assert Pow2(8) == 256 && Pow2(11) == 2048 && Pow2(21) == 0x20_0000 && Pow2(24) == 0x100_0000;
    hide Pow2, RotateLeft;
    RotateMultiplies(v, 8);
    RotateMultiplies(v, 11);
    if RotateLeft(v, 8) == RotateLeft(v, 11) {
      EqualMultiples(v, v / 0x100_0000, v / 0x20_0000);
    }
  }

  /** What a step rotates. */
  function Turned(r: Regs, op: Op): DWORD {
    Plus(r.a, Addend(Nonlinear(op.round, r.b, r.c, r.d), op.x, op.ac))
  }

  /**
    A step with the RFC's distance gives other registers exactly in those four steps, and then for every
    word that is turned except the two of equal bits.
  */
  lemma StepDeviation(words: seq<DWORD>, i: nat, r: Regs)
    requires |words| == 16 && i < 64
    ensures var op := OpAt(words, i);
            Forward(r, op) != Forward(r, op.(s := RFC_SHIFTS[i / 16][i % 4]))
            <==> i + 1 in {34, 38, 42, 46} && Turned(r, op) != 0 && Turned(r, op) != 0xFFFF_FFFF
  {
    hide RotateLeft, Plus, Addend, Nonlinear, OpAt;
    ShiftDeviation(words, i);
    var op := OpAt(words, i);
    var v := Turned(r, op);
    TurnsAgree(v);
    PlusThenMinus(RotateLeft(v, 8), r.b);
    PlusThenMinus(RotateLeft(v, 11), r.b);
  }

  function Ops(words: seq<DWORD>): seq<Op>
    requires |words| == 16
  {
    seq(64, i requires 0 <= i < 64 => OpAt(words, i))
  }

  /** MD5Transform: the 64 steps, fed forward into the chaining state. */
  function Transform(state: Regs, words: seq<DWORD>): Regs
    requires |words| == 16
  {
    var r := Run(state, Ops(words));
    Regs(Plus(state.a, r.a), Plus(state.b, r.b), Plus(state.c, r.c), Plus(state.d, r.d))
  }
}
