/**
  Conversion between Unicode and an OEM code page: the double-byte converters (cc932.c, cc950.c),
  which probe a sorted pair table sixteen times, the variant that scans one table backwards
  (_TINY_TABLE), and the single-byte converter (ccsbcs.c).  The tables are parameters.
*/
module CodePages {
  import opened Basics


  // ---- pair tables ----

  /** A flat table of key, value pairs that ends with a pair of zeros. */
  ghost predicate Terminated(t: seq<nat>) {
    && |t| >= 2 && |t| % 2 == 0
    && t[|t| - 2] == 0 && t[|t| - 1] == 0
    && forall i :: 0 <= i < Count(t) ==> Val(t, i) != 0
  }

  /** The number of pairs before the terminator. */
  function Count(t: seq<nat>): nat
    requires |t| >= 2
  {
    |t| / 2 - 1
  }

  function Key(t: seq<nat>, i: nat): nat
    requires |t| >= 2 && i <= Count(t)
  {
    t[i * 2]
  }

  function Val(t: seq<nat>, i: nat): nat
    requires |t| >= 2 && i <= Count(t)
  {
    t[i * 2 + 1]
  }

  ghost predicate Sorted(t: seq<nat>)
    requires |t| >= 2
  {
    forall i: nat, j: nat :: i < j < Count(t) ==> Key(t, i) <= Key(t, j)
  }

  ghost predicate StrictlySorted(t: seq<nat>)
    requires |t| >= 2
  {
    forall i: nat, j: nat :: i < j < Count(t) ==> Key(t, i) < Key(t, j)
  }

  /** The table lists value v for key k. */
  ghost predicate Lists(t: seq<nat>, k: nat, v: nat)
    requires |t| >= 2
  {
    exists i: nat :: i < Count(t) && Key(t, i) == k && Val(t, i) == v
  }

  ghost predicate HasKey(t: seq<nat>, k: nat)
    requires |t| >= 2
  {
    exists i: nat :: i < Count(t) && Key(t, i) == k
  }

  // ---- the sixteen probes ----

  /** Up to n probes between li and hi, each at the middle. */
  function Probe(t: seq<nat>, chr: nat, li: nat, hi: nat, n: nat): (r: Option<nat>)
    requires |t| >= 2 && li <= hi <= Count(t)
    ensures r.Some? ==> r.value <= Count(t) && Key(t, r.value) == chr
    decreases n
  {
    if n == 0 then None else
    var i := li + (hi - li) / 2;
    if chr == Key(t, i) then Some(i)
    else if chr > Key(t, i) then Probe(t, chr, i, hi, n - 1)
    else Probe(t, chr, li, i, n - 1)
  }

  lemma ProbeOnce(t: seq<nat>, chr: nat, li: nat, hi: nat, n: nat)
    requires |t| >= 2 && li <= hi <= Count(t)
    ensures n == 0 ==> Probe(t, chr, li, hi, n) == None
    ensures n > 0 ==> var i := li + (hi - li) / 2;
                      Probe(t, chr, li, hi, n) == if chr == Key(t, i) then Some(i)
                                                  else if chr > Key(t, i) then Probe(t, chr, i, hi, n - 1)
                                                  else Probe(t, chr, li, i, n - 1)
  {
  }

  function Search(t: seq<nat>, chr: nat): Option<nat>
    requires |t| >= 2
  {
    Probe(t, chr, 0, Count(t), 16)
  }

  /**
    n probes suffice while the range holds at most 2^n entries, or 2^n - 1 if its lower end has
    not been probed yet.  The upper end is never probed.
  */
  lemma {:induction false} ProbeFinds(t: seq<nat>, chr: nat, li: nat, hi: nat, n: nat, k: nat)
    requires |t| >= 2 && Sorted(t)
    requires li <= k < hi <= Count(t) && Key(t, k) == chr
    requires Key(t, li) < chr || li == 0
    requires hi - li <= if Key(t, li) < chr then Pow2(n) else Pow2(n) - 1
    ensures Probe(t, chr, li, hi, n).Some? && Probe(t, chr, li, hi, n).value < hi
    decreases n
  {
    hide Key, Count;
    if n > 0 {
      var i := li + (hi - li) / 2;
      if chr > Key(t, i) {
        assert k > i;
        ProbeFinds(t, chr, i, hi, n - 1, k);
      } else if chr < Key(t, i) {
        assert k < i;
        ProbeFinds(t, chr, li, i, n - 1, k);
      }
    }
  }

  /** In a range of more than 2^n - 1 entries, n probes never come down to the first one. */
  lemma {:induction false} ProbeMisses(t: seq<nat>, chr: nat, hi: nat, n: nat)
    requires |t| >= 2 && hi <= Count(t) && hi >= Pow2(n)
    requires forall i: nat :: 0 < i < Count(t) ==> Key(t, i) > chr
    ensures Probe(t, chr, 0, hi, n) == None
    decreases n
  {
    if n > 0 {
      var i := hi / 2;
      assert 0 < i < Count(t);
      ProbeMisses(t, chr, i, n - 1);
    }
  }

  lemma SixteenDoublings()
    ensures Pow2(16) == 0x1_0000
  {
    assert Pow2(8) == 0x100;
  }

  /** On a table of at most 65535 pairs, duplicates allowed, the search decides whether a key is listed. */
  lemma SearchDecides(t: seq<nat>, chr: nat)
    requires Terminated(t) && Sorted(t) && Count(t) <= 65535 && chr != 0
    ensures Search(t, chr).Some? <==> HasKey(t, chr)
    ensures Search(t, chr).Some? ==> Search(t, chr).value < Count(t) && Key(t, Search(t, chr).value) == chr
  {
    hide Probe;
    SixteenDoublings();
    if k: nat :| k < Count(t) && Key(t, k) == chr {
      ProbeFinds(t, chr, 0, Count(t), 16, k);
    }
  }

  /** The bound is exact: a strictly sorted table has every key found if and only if it has at most 65535 pairs. */
  lemma SearchBound(t: seq<nat>)
    requires Terminated(t) && StrictlySorted(t) && (forall i: nat :: i < Count(t) ==> Key(t, i) != 0)
    ensures (forall k: nat :: k < Count(t) ==> Search(t, Key(t, k)) == Some(k)) <==> Count(t) <= 65535
  {
    hide Probe;
    if Count(t) <= 65535 {
      forall k: nat | k < Count(t)
        ensures Search(t, Key(t, k)) == Some(k)
      {
        SearchDecides(t, Key(t, k));
        var i := Search(t, Key(t, k)).value;
        assert !(i < k) && !(k < i);
      }
    } else {
      SixteenDoublings();
      ProbeMisses(t, Key(t, 0), Count(t), 16);
      assert Search(t, Key(t, 0)) == None;
    }
  }

  // ---- double-byte conversion ----

  /** ff_convert with both tables; codes below ascii stand for themselves. */
  function Convert(u2o: seq<nat>, o2u: seq<nat>, ascii: nat, chr: nat, toUnicode: bool): nat
    requires |u2o| >= 2 && |o2u| >= 2
  {
    if chr < ascii then chr else
    var t := if toUnicode then o2u else u2o;
    match Search(t, chr)
    case Some(i) => Val(t, i)
    case None => 0
  }

  /** The conversion as the source performs it, the sixteen probes in a loop. */
  method FfConvert(u2o: seq<nat>, o2u: seq<nat>, ascii: nat, chr: nat, toUnicode: bool) returns (c: nat)
    requires |u2o| >= 2 && |o2u| >= 2
    ensures c == Convert(u2o, o2u, ascii, chr, toUnicode)
  {
    hide Probe;
    if chr < ascii {
      c := chr;
    } else {
      var p := if toUnicode then o2u else u2o;
      var li: nat, hi: nat, i: nat := 0, |p| / 2 - 1, 0;
      var n := 16;
      while n > 0
        invariant 0 <= n <= 16 && li <= hi <= Count(p)
        invariant Search(p, chr) == Probe(p, chr, li, hi, n)
      {
        ProbeOnce(p, chr, li, hi, n);
        i := li + (hi - li) / 2;
        if chr == p[i * 2] {
          break;
        }
        if chr > p[i * 2] {
          li := i;
        } else {
          hi := i;
        }
        n := n - 1;
      }
      if n == 0 {
        ProbeOnce(p, chr, li, hi, 0);
      }
      c := if n > 0 then p[i * 2 + 1] else 0;
    }
  }

  /** What the converters need of their tables. */
  ghost predicate TablesOk(u2o: seq<nat>, o2u: seq<nat>, ascii: nat) {
    && ascii > 0
    && Terminated(u2o) && Sorted(u2o) && Count(u2o) <= 65535
    && Terminated(o2u) && StrictlySorted(o2u) && Count(o2u) <= 65535
    && (forall u: nat, o: nat :: Lists(u2o, u, o) <==> Lists(o2u, o, u))
    && (forall i: nat :: i < Count(u2o) ==> Key(u2o, i) >= ascii && Val(u2o, i) >= ascii)
  }

  /** Converting a code to Unicode gives the character it is listed with, or 0. */
  lemma ToUnicode(u2o: seq<nat>, o2u: seq<nat>, ascii: nat, o: nat)
    requires TablesOk(u2o, o2u, ascii) && o >= ascii
    ensures forall u: nat :: Lists(o2u, o, u) ==> Convert(u2o, o2u, ascii, o, true) == u
    ensures !HasKey(o2u, o) ==> Convert(u2o, o2u, ascii, o, true) == 0
  {
    hide Probe, Search;
    SearchDecides(o2u, o);
    forall u: nat | Lists(o2u, o, u)
      ensures Convert(u2o, o2u, ascii, o, true) == u
    {
      var j: nat :| j < Count(o2u) && Key(o2u, j) == o && Val(o2u, j) == u;
      assert HasKey(o2u, o);
      var i := Search(o2u, o).value;
      assert !(i < j) && !(j < i);
    }
  }

  /** Converting a character to the code page gives some code listed with it, or 0. */
  lemma FromUnicode(u2o: seq<nat>, o2u: seq<nat>, ascii: nat, u: nat)
    requires TablesOk(u2o, o2u, ascii) && u >= ascii
    ensures HasKey(u2o, u) ==> Lists(u2o, u, Convert(u2o, o2u, ascii, u, false))
    ensures !HasKey(u2o, u) ==> Convert(u2o, o2u, ascii, u, false) == 0
  {
    hide Probe, Search;
    SearchDecides(u2o, u);
  }

  /** Unicode to OEM and back is the identity on every mapped character, even one listed with several codes. */
  lemma UnicodeRoundTrip(u2o: seq<nat>, o2u: seq<nat>, ascii: nat, u: nat)
    requires TablesOk(u2o, o2u, ascii) && (u < ascii || HasKey(u2o, u))
    ensures Convert(u2o, o2u, ascii, Convert(u2o, o2u, ascii, u, false), true) == u
  {
    hide Search;
    if u >= ascii {
      FromUnicode(u2o, o2u, ascii, u);
      var o := Convert(u2o, o2u, ascii, u, false);
      assert o >= ascii;
      assert Lists(o2u, o, u);
      ToUnicode(u2o, o2u, ascii, o);
    }
  }

  /** OEM to Unicode and back gives a code for the same character, and the code itself if the character has only one. */
  lemma OemRoundTrip(u2o: seq<nat>, o2u: seq<nat>, ascii: nat, o: nat)
    requires TablesOk(u2o, o2u, ascii) && o >= ascii && HasKey(o2u, o)
    ensures var u := Convert(u2o, o2u, ascii, o, true);
            var back := Convert(u2o, o2u, ascii, u, false);
            && Convert(u2o, o2u, ascii, back, true) == u
            && ((forall q: nat :: Lists(u2o, u, q) ==> q == o) ==> back == o)
  {
    hide Convert, Search;
    var j: nat :| j < Count(o2u) && Key(o2u, j) == o;
    var u := Val(o2u, j);
    assert Lists(o2u, o, u);
    ToUnicode(u2o, o2u, ascii, o);
    assert Lists(u2o, u, o);
    assert HasKey(u2o, u);
    UnicodeRoundTrip(u2o, o2u, ascii, u);
    assert u >= ascii;
    FromUnicode(u2o, o2u, ascii, u);
  }

  // ---- the backward scan of the tiny configuration ----

  /** The key of the first pair with value chr, or that of the terminator. */
  function Backward(t: seq<nat>, chr: nat, from: nat): nat
    requires |t| >= 2 && from <= Count(t)
    decreases Count(t) - from
  {
    if from == Count(t) || Val(t, from) == 0 || Val(t, from) == chr then Key(t, from) else Backward(t, chr, from + 1)
  }

  /** The OEM to Unicode branch under _TINY_TABLE: a scan over the values that steps back to the key. */
  method TinyToUnicode(u2o: seq<nat>, ascii: nat, chr: nat) returns (c: nat)
    requires Terminated(u2o)
    ensures c == if chr < ascii then chr else Backward(u2o, chr, 0)
  {
    if chr < ascii {
      return chr;
    }
    var p := 1;
    ghost var k: nat := 0;
    while true
      invariant p == 2 * k + 1 && k <= Count(u2o)
      invariant Backward(u2o, chr, 0) == Backward(u2o, chr, k)
      decreases Count(u2o) - k
    {
      c := u2o[p];
      p := p + 2;
      if !(c != 0 && c != chr) {
        break;
      }
      k := k + 1;
    }
    p := p - 3;
    c := u2o[p];
  }

  lemma {:induction false} BackwardFinds(t: seq<nat>, chr: nat, from: nat)
    requires Terminated(t) && from <= Count(t) && chr != 0
    ensures (exists i: nat :: from <= i < Count(t) && Val(t, i) == chr) ==> Lists(t, Backward(t, chr, from), chr)
    ensures !(exists i: nat :: from <= i < Count(t) && Val(t, i) == chr) ==> Backward(t, chr, from) == 0
    decreases Count(t) - from
  {
    if from < Count(t) && Val(t, from) != chr {
      BackwardFinds(t, chr, from + 1);
    }
  }

  /** Both configurations compute the same conversion, for mapped and unmapped codes. */
  lemma TinyAgrees(u2o: seq<nat>, o2u: seq<nat>, ascii: nat, chr: nat)
    requires TablesOk(u2o, o2u, ascii) && chr >= ascii
    ensures Backward(u2o, chr, 0) == Convert(u2o, o2u, ascii, chr, true)
  {
    hide Convert;
    BackwardFinds(u2o, chr, 0);
    ToUnicode(u2o, o2u, ascii, chr);
    ListedBothWays(u2o, o2u, ascii, chr);
  }

  lemma ListedBothWays(u2o: seq<nat>, o2u: seq<nat>, ascii: nat, o: nat)
    requires TablesOk(u2o, o2u, ascii)
    ensures HasKey(o2u, o) <==> exists i: nat :: 0 <= i < Count(u2o) && Val(u2o, i) == o
  {
    if i: nat :| 0 <= i < Count(u2o) && Val(u2o, i) == o {
      assert Lists(u2o, Key(u2o, i), o);
      assert Lists(o2u, o, Key(u2o, i));
    }
    if j: nat :| j < Count(o2u) && Key(o2u, j) == o {
      assert Lists(o2u, o, Val(o2u, j));
      assert Lists(u2o, Val(o2u, j), o);
    }
  }

  // ---- single-byte conversion ----

  /** ff_convert of the single-byte code pages, with the code that the end of the scan wraps to. */
  method SbcsConvert(tbl: seq<nat>, chr: nat, toUnicode: bool) returns (c: nat)
    requires |tbl| == 0x80
    ensures c == Sbcs(tbl, chr, toUnicode)
  {
    if chr < 0x80 {
      c := chr;
    } else if toUnicode {
      c := if chr >= 0x100 then 0 else tbl[chr - 0x80];
    } else {
      c := 0;
      while c < 0x80
        invariant c <= 0x80 && c <= FirstAt(tbl, chr)
      {
        if chr == tbl[c] {
          break;
        }
        c := c + 1;
      }
      c := (c + 0x80) % 0x100;
    }
  }

  /** Where u first stands in the table, or the table's length. */
  function FirstAt(tbl: seq<nat>, u: nat): (i: nat)
    ensures i <= |tbl|
    ensures i < |tbl| ==> tbl[i] == u
    ensures forall j :: 0 <= j < i ==> tbl[j] != u
  {
    if tbl == [] || tbl[0] == u then 0 else 1 + FirstAt(tbl[1..], u)
  }

  function Sbcs(tbl: seq<nat>, chr: nat, toUnicode: bool): nat
    requires |tbl| == 0x80
  {
    if chr < 0x80 then chr
    else if toUnicode then (if chr >= 0x100 then 0 else tbl[chr - 0x80])
    else (FirstAt(tbl, chr) + 0x80) % 0x100
  }

  /** A character gets 0 exactly when the table lacks it; otherwise the least code for it, which converts back. */
  lemma SbcsFromUnicode(tbl: seq<nat>, u: nat)
    requires |tbl| == 0x80 && u >= 0x80
    ensures var c := Sbcs(tbl, u, false);
            && (c == 0 <==> u !in tbl)
            && (u in tbl ==>
                  && 0x80 <= c < 0x100 && Sbcs(tbl, c, true) == u
                  && forall d :: 0x80 <= d < c ==> Sbcs(tbl, d, true) != u)
  {
    var i := FirstAt(tbl, u);
    if i < 0x80 {
      assert tbl[i] in tbl;
    }
  }

  /** A code whose character is not ASCII converts back to the least code of that character. */
  lemma SbcsFromOem(tbl: seq<nat>, o: nat)
    requires |tbl| == 0x80 && 0x80 <= o < 0x100 && tbl[o - 0x80] >= 0x80
    ensures Sbcs(tbl, Sbcs(tbl, o, true), false) == FirstAt(tbl, tbl[o - 0x80]) + 0x80 <= o
  {
    assert tbl[o - 0x80] in tbl;
  }

  /** Codes below the limit stand for themselves, in both directions and in every table. */
  lemma AsciiUnchanged(u2o: seq<nat>, o2u: seq<nat>, ascii: nat, tbl: seq<nat>, chr: nat)
    requires |u2o| >= 2 && |o2u| >= 2 && |tbl| == 0x80
    ensures chr < ascii ==> Convert(u2o, o2u, ascii, chr, true) == chr && Convert(u2o, o2u, ascii, chr, false) == chr
    ensures chr < 0x80 ==> Sbcs(tbl, chr, true) == chr && Sbcs(tbl, chr, false) == chr
  {
  }

  /** A single-byte code stands for its table entry, and there are no codes of more than a byte. */
  lemma SbcsToUnicode(tbl: seq<nat>, o: nat)
    requires |tbl| == 0x80 && o >= 0x80
    ensures Sbcs(tbl, o, true) == if o < 0x100 then tbl[o - 0x80] else 0
  {
  }
}
