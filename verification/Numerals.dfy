/**
  Writing numbers into words, one binary digit at a time.  The word type is abstract: all that
  is used is that shifting a digit in loses nothing while there is room left.
*/
module Numerals {
  import opened Basics

  /** The low bits binary digits of n, most significant first, shifted into zero. */
  function Numeral<T>(zero: T, shiftIn: (T, bool) -> T, n: nat, bits: nat): T {
    if bits == 0 then zero else shiftIn(Numeral(zero, shiftIn, n / 2, bits - 1), n % 2 == 1)
  }

  /** room(x, k) says that x can still take k digits. */
  ghost predicate Lossless<T(!new)>(zero: T, shiftIn: (T, bool) -> T, room: (T, nat) -> bool, width: nat) {
    && room(zero, width)
    && (forall x, k, a :: 0 < k <= width && room(x, k) ==> room(shiftIn(x, a), k - 1))
    && (forall x, y, k: nat, a, b ::
          0 < k <= width && room(x, k) && room(y, k) && shiftIn(x, a) == shiftIn(y, b) ==> x == y && a == b)
  }

  lemma {:induction false} NumeralRoom<T(!new)>(zero: T, shiftIn: (T, bool) -> T, room: (T, nat) -> bool, width: nat, n: nat, bits: nat)
    requires Lossless(zero, shiftIn, room, width) && bits <= width
    ensures room(Numeral(zero, shiftIn, n, bits), width - bits)
  {
    if bits > 0 {
      NumeralRoom(zero, shiftIn, room, width, n / 2, bits - 1);
    }
  }

  /** Different numbers that fit are written differently. */
  lemma {:induction false} NumeralInjective<T(!new)>(zero: T, shiftIn: (T, bool) -> T, room: (T, nat) -> bool, width: nat,
                                                     p: nat, q: nat, bits: nat)
    requires Lossless(zero, shiftIn, room, width) && bits <= width
    requires p < Pow2(bits) && q < Pow2(bits) && p != q
    ensures Numeral(zero, shiftIn, p, bits) != Numeral(zero, shiftIn, q, bits)
  {
    if bits > 0 {
      if p / 2 != q / 2 {
        NumeralInjective(zero, shiftIn, room, width, p / 2, q / 2, bits - 1);
      }
      NumeralRoom(zero, shiftIn, room, width, p / 2, bits - 1);
      NumeralRoom(zero, shiftIn, room, width, q / 2, bits - 1);
    }
  }
}
