/**
  What the disk checker's verdict means for whole classes of disks.

  A routed disk stores sectors correctly but through an arbitrary address decoder: sector lba
  lives in cell route(lba).  The identity decoder is the ideal disk; a decoder that drops high
  address bits is the fault the 4GB barrier test is there for.  RoutedVerdict gives the
  checker's return code for every decoder.
*/
module DiskClasses {
  import opened Basics
  import opened LinearIteration
  import opened Numerals
  import opened PatternGenerator
  import opened DiskChecker

  // ---- seeds and patterns ----

  /** The n pattern bytes that belong to a seed. */
  function Pattern(pns: DWORD, n: nat): seq<byte> {
    Stream(Iter(Word(pns), 33), n)
  }

  lemma SeededApart(p: bv32, q: bv32, n: nat)
    requires p != q
    ensures Iter(p, n) != Iter(q, n)
  {
    hide Step;
    StepIsInjective();
    if Iter(p, n) == Iter(q, n) {
      IterateInjective(Step, p, q, n);
    }
  }

  lemma {:induction false} ZeroNumeral(bits: nat)
    ensures Numeral(0, ShiftIn, 0, bits) == 0
  {
    if bits > 0 {
      ZeroNumeral(bits - 1);
    }
  }

  lemma SeedNonzero(pns: DWORD)
    requires pns != 0
    ensures Iter(Word(pns), 33) != 0
  {
    hide Step, Iterate, ShiftIn;
    WordInjective(pns, 0);
    ZeroNumeral(32);
    assert Word(0) == 0;
    IterZero(33);
    SeededApart(Word(pns), 0, 33);
  }

  /** Different seeds give different patterns, already within 32 bytes. */
  lemma PatternsDiffer(p: DWORD, q: DWORD, n: nat)
    requires p != q && n >= 32
    ensures Pattern(p, n) != Pattern(q, n)
  {
    hide Step, Stream, Iterate, Word;
    WordInjective(p, q);
    SeededApart(Word(p), Word(q), 33);
    if Pattern(p, n) == Pattern(q, n) {
      StreamsDetermine(Iter(Word(p), 33), Iter(Word(q), 33), n);
    }
  }

  lemma ZeroStream(n: nat)
    ensures Stream(0, n) == Zeros(n)
  {
    forall i | 0 <= i < n
      ensures Stream(0, n)[i] == 0
    {
      IterZero(i + 1);
    }
  }

  /** No seed's pattern is all zeros. */
  lemma PatternNotZero(pns: DWORD, n: nat)
    requires pns != 0 && n >= 32
    ensures Pattern(pns, n) != Zeros(n)
  {
    hide Step, Low, Stream;
    SeedNonzero(pns);
    ZeroStream(n);
    if Pattern(pns, n) == Zeros(n) {
      StreamsDetermine(Iter(Word(pns), 33), 0, n);
    }
  }

  /** A slice of a stream is the stream of a later register. */
  lemma StreamSlice(g: bv32, n: nat, a: nat, w: nat)
    requires a + w <= n
    ensures Stream(g, n)[a..a + w] == Stream(Iter(g, a), w)
  {
    hide Step, Low;
    forall i | 0 <= i < w
      ensures Stream(g, n)[a + i] == Stream(Iter(g, a), w)[i]
    {
      IterateAdd(Step, g, a, i + 1);
    }
  }

  /** The part of a multi-sector pattern that belongs to its i-th sector. */
  function Part(data: seq<byte>, ss: nat, i: nat): seq<byte>
    requires (i + 1) * ss <= |data|
  {
    assert (i + 1) * ss == i * ss + ss;
    data[i * ss..i * ss + ss]
  }

  lemma PartFits(ss: nat, i: nat, ns: nat)
    requires i < ns
    ensures (i + 1) * ss <= ns * ss
    ensures (i + 1) * ss == i * ss + ss
  {
  }

  /** Sector-sized windows one, two or three sectors apart differ. */
  lemma SectorsApart(g: bv32, k: nat, d: nat)
    requires g != 0 && Pow2(k) >= 32 && 1 <= d <= 3
    ensures Stream(g, Pow2(k)) != Stream(Iter(g, d * Pow2(k)), Pow2(k))
  {
    hide Step, Low, Stream, Iterate;
    if d == 2 {
      WindowsDiffer(g, 1, k + 1, Pow2(k));
    } else {
      WindowsDiffer(g, d, k, Pow2(k));
    }
  }

  lemma SplitProduct(i: nat, j: nat, ss: nat)
    requires i <= j
    ensures i * ss + (j - i) * ss == j * ss
  {
  }

  /** A sector's part of a pattern is a nonzero register's stream. */
  lemma PatternPart(pns: DWORD, ss: nat, ns: nat, i: nat)
    requires pns != 0 && i < ns && (i + 1) * ss <= ns * ss
    ensures Part(Pattern(pns, ns * ss), ss, i) == Stream(Iter(Iter(Word(pns), 33), i * ss), ss)
    ensures Iter(Iter(Word(pns), 33), i * ss) != 0
  {
    hide Step, Low, Stream, Iterate, Word;
    var g := Iter(Word(pns), 33);
    SeedNonzero(pns);
    PartFits(ss, i, ns);
    StreamSlice(g, ns * ss, i * ss, ss);
    IterZero(i * ss);
    SeededApart(g, 0, i * ss);
  }

  /** The sectors of one pattern of up to four sectors are all different. */
  lemma PartsDiffer(pns: DWORD, k: nat, ns: nat, i: nat, j: nat)
    requires pns != 0 && Pow2(k) >= 32
    requires i < j < ns <= 4
    requires (i + 1) * Pow2(k) <= ns * Pow2(k) && (j + 1) * Pow2(k) <= ns * Pow2(k)
    ensures Part(Pattern(pns, ns * Pow2(k)), Pow2(k), i) != Part(Pattern(pns, ns * Pow2(k)), Pow2(k), j)
  {
    hide Step, Low, Stream, Iterate, Word, Pow2, Part, Pattern;
    var ss := Pow2(k);
    var g := Iter(Word(pns), 33);
    PatternPart(pns, ss, ns, i);
    PatternPart(pns, ss, ns, j);
    SplitProduct(i, j, ss);
    IterateAdd(Step, g, i * ss, (j - i) * ss);
    SectorsApart(Iter(g, i * ss), k, j - i);
  }

  // ---- routed disks ----

  /** The medium of a disk in state st, cell by cell, seen through the abstraction cell. */
  ghost predicate Keeps<S(!new)>(cell: (S, nat) -> seq<byte>, st: S, st': S) {
    forall c: nat :: cell(st', c) == cell(st, c)
  }

  /** Cell c after the first ns sectors of data were stored one after the other from lba on. */
  ghost function Stored(old_: seq<byte>, route: nat -> nat, ss: nat, lba: nat, ns: nat, data: seq<byte>, c: nat): seq<byte>
    requires ns * ss <= |data|
    decreases ns
  {
    if ns == 0 then old_ else
    assert (ns - 1) * ss <= ns * ss;
    if route(lba + ns - 1) == c then Part(data, ss, ns - 1)
    else Stored(old_, route, ss, lba, ns - 1, data, c)
  }

  /** What ns sectors from lba on read as. */
  ghost function Gathered<S>(cell: (S, nat) -> seq<byte>, st: S, route: nat -> nat, lba: nat, ns: nat): seq<byte> {
    if ns == 0 then [] else Gathered(cell, st, route, lba, ns - 1) + cell(st, route(lba + ns - 1))
  }

  ghost predicate Writes<S(!new)>(drv: Driver<S>, cell: (S, nat) -> seq<byte>, route: nat -> nat, size: nat) {
    forall st, lba: nat, ns: nat, data: seq<byte> ::
      lba + ns <= size && |data| == ns * drv.sectorBytes ==>
      var w := drv.write(st, lba, ns, data);
      w.ok && forall c: nat :: cell(w.st, c) == Stored(cell(st, c), route, drv.sectorBytes, lba, ns, data, c)
  }

  ghost predicate Reads<S(!new)>(drv: Driver<S>, cell: (S, nat) -> seq<byte>, route: nat -> nat, size: nat) {
    forall st, lba: nat, ns: nat ::
      lba + ns <= size ==>
      var r := drv.read(st, lba, ns);
      r.ok && r.data == Gathered(cell, st, route, lba, ns) && Keeps(cell, st, r.st)
  }

  ghost predicate Syncs<S(!new)>(drv: Driver<S>, cell: (S, nat) -> seq<byte>) {
    forall st :: drv.sync(st).ok && Keeps(cell, st, drv.sync(st).st)
  }

  /** The status calls succeed in every state; they may do to the medium whatever they like. */
  ghost predicate Answers<S(!new)>(drv: Driver<S>, size: nat) {
    && (forall st :: drv.initialize(st).ok)
    && (forall st :: drv.sectorCount(st).ok && drv.sectorCount(st).count == size)
    && (forall st :: drv.sectorSize(st).ok)
  }

  ghost predicate Routed<S(!new)>(drv: Driver<S>, cell: (S, nat) -> seq<byte>, route: nat -> nat, size: nat) {
    && size >= 128
    && (forall st, c: nat :: |cell(st, c)| == drv.sectorBytes)
    && Answers(drv, size) && Writes(drv, cell, route, size) && Reads(drv, cell, route, size) && Syncs(drv, cell)
  }

  ghost predicate InjectiveOn(route: nat -> nat, lo: nat, hi: nat) {
    forall i, j :: lo <= i < j < hi ==> route(i) != route(j)
  }

  /** A cell's contents are those of the last sector routed to it. */
  lemma {:induction false} StoredLast(old_: seq<byte>, route: nat -> nat, ss: nat, lba: nat, ns: nat, data: seq<byte>, j: nat)
    requires ns * ss <= |data| && j < ns
    requires forall q :: lba + j < q < lba + ns ==> route(q) != route(lba + j)
    ensures (j + 1) * ss <= |data|
    ensures Stored(old_, route, ss, lba, ns, data, route(lba + j)) == Part(data, ss, j)
    decreases ns
  {
    PartFits(ss, j, ns);
    if j < ns - 1 {
      PartFits(ss, ns - 2, ns);
      StoredLast(old_, route, ss, lba, ns - 1, data, j);
    } else {
      assert lba + ns - 1 == lba + j;
    }
  }

  lemma {:induction false} GatheredLength<S(!new)>(cell: (S, nat) -> seq<byte>, st: S, route: nat -> nat, ss: nat, lba: nat, ns: nat)
    requires forall s, c: nat :: |cell(s, c)| == ss
    ensures |Gathered(cell, st, route, lba, ns)| == ns * ss
    decreases ns
  {
    if ns > 0 {
      GatheredLength(cell, st, route, ss, lba, ns - 1);
      PartFits(ss, ns - 1, ns);
    }
  }

  /** Reading sector j back out of a gathered transfer. */
  lemma {:induction false} GatheredPart<S(!new)>(cell: (S, nat) -> seq<byte>, st: S, route: nat -> nat, ss: nat, lba: nat, ns: nat, j: nat)
    requires forall s, c: nat :: |cell(s, c)| == ss
    requires j < ns
    ensures (j + 1) * ss <= ns * ss == |Gathered(cell, st, route, lba, ns)|
    ensures Part(Gathered(cell, st, route, lba, ns), ss, j) == cell(st, route(lba + j))
    decreases ns
  {
    PartFits(ss, j, ns);
    PartFits(ss, ns - 1, ns);
    GatheredLength(cell, st, route, ss, lba, ns - 1);
    var front, back := Gathered(cell, st, route, lba, ns - 1), cell(st, route(lba + ns - 1));
    PartOfSum(front, back, ss, ns - 1, j);
    if j < ns - 1 {
      GatheredPart(cell, st, route, ss, lba, ns - 1, j);
    }
  }

  /** A sector's part of a transfer that is followed by one more sector. */
  lemma PartOfSum(front: seq<byte>, back: seq<byte>, ss: nat, n: nat, j: nat)
    requires |front| == n * ss && |back| == ss && j <= n
    ensures (j + 1) * ss <= |front + back| && (j < n ==> (j + 1) * ss <= |front|)
    ensures Part(front + back, ss, j) == if j == n then back else Part(front, ss, j)
  {
    PartFits(ss, j, n + 1);
    if j < n {
      PartFits(ss, j, n);
    }
  }


  /** Transfers of the same length agree when all their sectors do. */
  lemma PartsMakeWhole(a: seq<byte>, b: seq<byte>, ss: nat, ns: nat)
    requires |a| == |b| == ns * ss && ss > 0
    requires forall j :: 0 <= j < ns ==> (j + 1) * ss <= ns * ss && Part(a, ss, j) == Part(b, ss, j)
    ensures a == b
  {
    forall x | 0 <= x < ns * ss
      ensures a[x] == b[x]
    {
      var j, o := x / ss, x % ss;
      QuotientBelow(x, ss, ns);
      assert Part(a, ss, j) == Part(b, ss, j);
      assert Part(a, ss, j)[o] == a[x] && Part(b, ss, j)[o] == b[x];
    }
  }

  lemma QuotientBelow(x: nat, ss: nat, ns: nat)
    requires ss > 0 && x < ns * ss
    ensures x / ss < ns && x == x / ss * ss + x % ss
  {
    if x / ss >= ns {
      MulMonotone(ns, x / ss, ss);
    }
  }

  /** The sector size the detection results need: a 16-bit power of two of at least 32 bytes. */
  ghost predicate SectorPower(ss: nat, k: nat) {
    ss == Pow2(k) && 32 <= ss <= 0xFFFF
  }

  /** With no collisions, data written to a routed disk reads back intact. */
  lemma ReadBackIntact<S(!new)>(cell: (S, nat) -> seq<byte>, route: nat -> nat, ss: nat,
                                st: S, st': S, lba: nat, ns: nat, data: seq<byte>)
    requires ss > 0 && forall s, c: nat :: |cell(s, c)| == ss
    requires |data| == ns * ss
    requires forall c: nat :: cell(st', c) == Stored(cell(st, c), route, ss, lba, ns, data, c)
    requires InjectiveOn(route, lba, lba + ns)
    ensures Gathered(cell, st', route, lba, ns) == data
  {
    hide Gathered, Stored, Part;
    var got := Gathered(cell, st', route, lba, ns);
    GatheredLength(cell, st', route, ss, lba, ns);
    forall j | 0 <= j < ns
      ensures (j + 1) * ss <= ns * ss && Part(got, ss, j) == Part(data, ss, j)
    {
      GatheredPart(cell, st', route, ss, lba, ns, j);
      StoredLast(cell(st, route(lba + j)), route, ss, lba, ns, data, j);
    }
    PartsMakeWhole(got, data, ss, ns);
  }

  /** With a collision, some sector of the pattern does not read back. */
  lemma ReadBackCollides<S(!new)>(cell: (S, nat) -> seq<byte>, route: nat -> nat, k: nat, st': S, pns: DWORD, lba: nat, ns: nat)
    requires Pow2(k) >= 32 && forall s, c: nat :: |cell(s, c)| == Pow2(k)
    requires pns != 0 && ns <= 4
    requires !InjectiveOn(route, lba, lba + ns)
    ensures Gathered(cell, st', route, lba, ns) != Pattern(pns, ns * Pow2(k))
  {
    hide Gathered, Part, Pattern, Pow2;
    var a, b :| lba <= a < b < lba + ns && route(a) == route(b);
    GatheredPart(cell, st', route, Pow2(k), lba, ns, a - lba);
    GatheredPart(cell, st', route, Pow2(k), lba, ns, b - lba);
    PartsDiffer(pns, k, ns, a - lba, b - lba);
  }

  /** Writing a pattern to a routed disk and reading it back shows it intact exactly when no two sectors collide. */
  lemma RoutedReadBack<S(!new)>(drv: Driver<S>, cell: (S, nat) -> seq<byte>, route: nat -> nat, size: nat, k: nat,
                                st: S, st': S, pns: DWORD, lba: nat, ns: nat)
    requires drv.sectorBytes > 0 && Routed(drv, cell, route, size)
    requires SectorPower(drv.sectorBytes, k) || InjectiveOn(route, lba, lba + ns)
    requires pns != 0 && ns <= 4
    requires |Pattern(pns, ns * drv.sectorBytes)| == ns * drv.sectorBytes
    requires forall c: nat ::
               cell(st', c) == Stored(cell(st, c), route, drv.sectorBytes, lba, ns, Pattern(pns, ns * drv.sectorBytes), c)
    ensures Gathered(cell, st', route, lba, ns) == Pattern(pns, ns * drv.sectorBytes)
       <==> InjectiveOn(route, lba, lba + ns)
  {
    hide Pattern, Writes, Reads, Syncs, Answers, Gathered, Stored, InjectiveOn, Pow2;
    if InjectiveOn(route, lba, lba + ns) {
      ReadBackIntact(cell, route, drv.sectorBytes, st, st', lba, ns, Pattern(pns, ns * drv.sectorBytes));
    } else {
      ReadBackCollides(cell, route, k, st', pns, lba, ns);
    }
  }

  lemma PatternLength(pns: DWORD, n: nat)
    ensures |Pattern(pns, n)| == n
    ensures pns != 0 ==> forall g :: Seeded(g, pns) == Iter(Word(pns), 33)
  {
  }

  lemma ReceivedWhole(data: seq<byte>, n: nat)
    requires |data| == n
    ensures Received(data, n) == data
  {
  }

  lemma RoutedSectorTest<S(!new)>(drv: Driver<S>, cfg: Config, cell: (S, nat) -> seq<byte>, route: nat -> nat, size: nat, k: nat,
                                  st: S, g: bv32, pns: DWORD, lba: nat, ns: nat, codes: Codes)
    requires Fits(drv, cfg) && Routed(drv, cell, route, size)
    requires SectorPower(drv.sectorBytes, k) || InjectiveOn(route, lba, lba + ns)
    requires pns != 0 && ns <= 4 && lba + ns <= size
    ensures SectorTest(drv, cfg, st, g, pns, lba, ns, codes).code
         == if InjectiveOn(route, lba, lba + ns) then 0 else codes.compare
  {
    hide Stream, Iterate, Answers, Received, Gathered, Stored, Part;
    var n := ns * drv.sectorBytes;
    PatternLength(pns, n);
    var data := Stream(Seeded(g, pns), n);
    assert data == Pattern(pns, n);
    var w := drv.write(st, lba, ns, data);
    var s := drv.sync(w.st);
    var r := drv.read(s.st, lba, ns);
    assert w.ok && s.ok && r.ok;
    forall c: nat
      ensures cell(s.st, c) == Stored(cell(st, c), route, drv.sectorBytes, lba, ns, data, c)
    {
      assert cell(w.st, c) == Stored(cell(st, c), route, drv.sectorBytes, lba, ns, data, c);
      assert Keeps(cell, w.st, s.st);
    }
    GatheredLength(cell, s.st, route, drv.sectorBytes, lba, ns);
    ReceivedWhole(r.data, n);
    RoutedReadBack(drv, cell, route, size, k, st, s.st, pns, lba, ns);
  }

  /** Writing one sector fills exactly the cell it is routed to. */
  lemma OneSectorStored<S(!new)>(drv: Driver<S>, cell: (S, nat) -> seq<byte>, route: nat -> nat, size: nat,
                                 st: S, lba: nat, data: seq<byte>, c: nat)
    requires Routed(drv, cell, route, size) && lba < size && |data| == drv.sectorBytes
    ensures drv.write(st, lba, 1, data).ok
    ensures cell(drv.write(st, lba, 1, data).st, c) == if route(lba) == c then data else cell(st, c)
  {
    assert |data| == 1 * drv.sectorBytes;
    var w := drv.write(st, lba, 1, data);
    assert cell(w.st, c) == Stored(cell(st, c), route, drv.sectorBytes, lba, 1, data, c);
    assert Part(data, drv.sectorBytes, 0) == data;
    assert Stored(cell(st, c), route, drv.sectorBytes, lba, 0, data, c) == cell(st, c);
  }

  lemma OneSectorRead<S(!new)>(drv: Driver<S>, cell: (S, nat) -> seq<byte>, route: nat -> nat, size: nat, st: S, lba: nat)
    requires Routed(drv, cell, route, size) && lba < size
    ensures drv.read(st, lba, 1).ok
    ensures Received(cell(st, route(lba)), drv.sectorBytes) == drv.read(st, lba, 1).data == cell(st, route(lba))
    ensures Keeps(cell, st, drv.read(st, lba, 1).st)
  {
    assert Gathered(cell, st, route, lba, 0) == [];
    assert Gathered(cell, st, route, lba, 1) == [] + cell(st, route(lba));
  }

  /** The two halves of the barrier pattern differ. */
  lemma HalvesDiffer(pns: DWORD, k: nat)
    requires pns != 0 && Pow2(k) >= 32
    ensures Pattern(pns, 2 * Pow2(k))[..Pow2(k)] != Pattern(pns, 2 * Pow2(k))[Pow2(k)..]
  {
    hide Step, Low, Stream, Iterate, Word, Pow2;
    var ss, g := Pow2(k), Iter(Word(pns), 33);
    SeedNonzero(pns);
    StreamSlice(g, 2 * ss, 0, ss);
    StreamSlice(g, 2 * ss, ss, ss);
    assert Iter(g, 0) == g by { IterateAdd(Step, g, 0, 0); IterStart(g); }
    SectorsApart(g, k, 1);
    assert 1 * ss == ss;
    assert Stream(g, 2 * ss)[ss..ss + ss] == Stream(g, 2 * ss)[ss..];
  }

  lemma IterStart(g: bv32)
    ensures Iter(g, 0) == g
  {
  }

  /** The calls of the barrier test on a routed disk: what the second read finds was written last. */
  lemma BarrierPair<S(!new)>(drv: Driver<S>, cell: (S, nat) -> seq<byte>, route: nat -> nat, size: nat, st: S, data: seq<byte>)
    requires 2 <= drv.sectorBytes && |data| == 2 * drv.sectorBytes
    requires Routed(drv, cell, route, size) && size >= 128 + Barrier(drv.sectorBytes)
    ensures var ss := drv.sectorBytes;
            var lba2 := 6 + Barrier(ss);
            var w1 := drv.write(st, 6, 1, data[..ss]);
            var w2 := drv.write(w1.st, lba2, 1, data[ss..]);
            var s := drv.sync(w2.st);
            var r1 := drv.read(s.st, 6, 1);
            var r2 := drv.read(r1.st, lba2, 1);
            && w1.ok && w2.ok && s.ok && r1.ok && r2.ok
            && r1.data == (if route(6) == route(lba2) then data[ss..] else data[..ss])
            && r2.data == data[ss..]
  {
    hide Stream, Iterate, Answers, Writes, Reads, Gathered, Stored, Part, Barrier, Received;
    var ss := drv.sectorBytes;
    var lba2 := 6 + Barrier(ss);
    var w1 := drv.write(st, 6, 1, data[..ss]);
    var w2 := drv.write(w1.st, lba2, 1, data[ss..]);
    var s := drv.sync(w2.st);
    var r1 := drv.read(s.st, 6, 1);
    var c1, c2 := route(6), route(lba2);
    OneSectorStored(drv, cell, route, size, st, 6, data[..ss], c1);
    OneSectorStored(drv, cell, route, size, w1.st, lba2, data[ss..], c1);
    OneSectorStored(drv, cell, route, size, w1.st, lba2, data[ss..], c2);
    assert Keeps(cell, w2.st, s.st);
    OneSectorRead(drv, cell, route, size, s.st, 6);
    OneSectorRead(drv, cell, route, size, r1.st, lba2);
  }

  lemma RoutedBarrierTest<S(!new)>(drv: Driver<S>, cfg: Config, cell: (S, nat) -> seq<byte>, route: nat -> nat, size: nat, k: nat,
                                   st: S, g: bv32, pns: DWORD)
    requires Fits(drv, cfg) && Routed(drv, cell, route, size)
    requires SectorPower(drv.sectorBytes, k) || route(6) != route(6 + Barrier(drv.sectorBytes))
    requires pns != 0 && size >= 128 + Barrier(drv.sectorBytes)
    ensures BarrierTest(drv, cfg, st, g, pns).code
         == if route(6) == route(6 + Barrier(drv.sectorBytes)) then 24 else 0
  {
    hide Routed, Stream, Iterate, Seeded, Pattern, Barrier, Received;
    var ss := drv.sectorBytes;
    PatternLength(pns, 2 * ss);
    var data := Pattern(pns, 2 * ss);
    assert data == Stream(Seeded(g, pns), 2 * ss) by { PatternIsStream(pns, 2 * ss); }
    BarrierPair(drv, cell, route, size, st, data);
    ReceivedWhole(data[..ss], ss);
    ReceivedWhole(data[ss..], ss);
    assert data == data[..ss] + data[ss..];
    if route(6) == route(6 + Barrier(ss)) {
      HalvesDiffer(pns, k);
      assert (data[ss..] + data[ss..])[..ss] == data[ss..];
    }
  }

  lemma PatternIsStream(pns: DWORD, n: nat)
    requires pns != 0
    ensures forall g :: Stream(Seeded(g, pns), n) == Pattern(pns, n)
  {
    hide Stream, Iterate;
  }

  /**
    Once the seed counter has wrapped, the barrier test compares with the bytes that follow those it wrote,
    and rejects the disk although it reads back what was written.
  */
  lemma UnseededBarrierTest<S(!new)>(drv: Driver<S>, cfg: Config, cell: (S, nat) -> seq<byte>, route: nat -> nat, size: nat, k: nat,
                                     st: S, g: bv32)
    requires Fits(drv, cfg) && Routed(drv, cell, route, size) && SectorPower(drv.sectorBytes, k)
    requires g != 0 && size >= 128 + Barrier(drv.sectorBytes) && route(6) != route(6 + Barrier(drv.sectorBytes))
    ensures BarrierTest(drv, cfg, st, g, 0).code == 24
  {
    hide Routed, Stream, Iterate, Step, Pow2, Barrier, Received;
    var ss := drv.sectorBytes;
    var g1 := Step(g);
    assert g1 != 0 by { StepNonzero(g); }
    var data := Stream(g1, 2 * ss);
    BarrierPair(drv, cell, route, size, st, data);
    ReceivedWhole(data[..ss], ss);
    ReceivedWhole(data[ss..], ss);
    assert data == data[..ss] + data[ss..];
    var g2 := Step(Iter(g1, 2 * ss));
    assert g2 == Iter(g1, 2 * ss + 1) by { ClockOnce(g1, 2 * ss); }
    PowerDoubles(k);
    NoNeighbourCycle(k + 1, g1);
    if Stream(g2, 2 * ss) == data {
      StreamsDetermine(g2, g1, 2 * ss);
    }
  }

  lemma PowerDoubles(k: nat)
    ensures Pow2(k + 1) == 2 * Pow2(k)
  {
  }

  lemma StepNonzero(g: bv32)
    requires g != 0
    ensures Step(g) != 0
  {
    UnstepStep(g);
  }

  lemma ClockOnce(g: bv32, n: nat)
    ensures Iter(g, n + 1) == Step(Iter(g, n))
  {
  }

  /** A test that went through leaves a nonzero register. */
  lemma RegisterNonzero<S(!new)>(drv: Driver<S>, cfg: Config, st: S, g: bv32, pns: DWORD, lba: nat, ns: nat, codes: Codes)
    requires Fits(drv, cfg) && pns != 0
    requires codes.write != 0 && codes.sync != 0 && codes.read != 0 && codes.compare != 0
    ensures var t := SectorTest(drv, cfg, st, g, pns, lba, ns, codes);
            t.code == 0 ==> t.lfsr != 0
  {
    hide Stream, Iterate, Received, Step, Word;
    var n := ns * drv.sectorBytes;
    var g1 := Iter(Word(pns), 33);
    SeedNonzero(pns);
    IterZero(n);
    SeededApart(g1, 0, n);
  }

  /** What one cycle returns for an address decoder. */
  ghost function RoutedCode(route: nat -> nat, size: nat, szBuff: nat, ss: nat): nat
    requires ss >= 2
  {
    if !InjectiveOn(route, 1, 1 + MultiCount(szBuff, ss)) then 14
    else if size >= 128 + Barrier(ss) && route(6) == route(6 + Barrier(ss)) then 24
    else 0
  }

  lemma RoutedAnswers<S(!new)>(drv: Driver<S>, cell: (S, nat) -> seq<byte>, route: nat -> nat, size: nat, cfg: Config, st: S)
    requires Routed(drv, cell, route, size)
    ensures size >= 128
    ensures var init := drv.initialize(st);
            var cnt := drv.sectorCount(init.st);
            init.ok && cnt.ok && cnt.count == size && drv.sectorSize(cnt.st).ok
  {
  }

  lemma SingleInjective(route: nat -> nat)
    ensures InjectiveOn(route, 0, 1) && InjectiveOn(route, 5, 6)
  {
  }

  lemma AtMostFour(szBuff: nat, ss: nat)
    requires ss > 0
    ensures MultiCount(szBuff, ss) <= 4
  {
  }

  /** The disk state after the status calls of a cycle. */
  ghost function AfterStatus<S(!new)>(drv: Driver<S>, cfg: Config, st: S): S {
    var cnt := drv.sectorCount(drv.initialize(st).st);
    var size := if cfg.maxSS != cfg.minSS then drv.sectorSize(cnt.st) else Reply(cnt.st, true);
    drv.blockSize(size.st).st
  }

  /** Either sectors are such that collisions show, or there are none and the seeds do not wrap where it matters. */
  ghost predicate Decided<S(!new)>(drv: Driver<S>, route: nat -> nat, size: nat, szBuff: nat, k: nat, last: nat)
    requires drv.sectorBytes >= 2
  {
    || SectorPower(drv.sectorBytes, k)
    || (RoutedCode(route, size, szBuff, drv.sectorBytes) == 0 && (size < 128 + Barrier(drv.sectorBytes) || last < 0x1_0000_0000))
  }

  /** The first test of a cycle, and those after it. */
  ghost function Test1<S(!new)>(drv: Driver<S>, cfg: Config, st: S, g: bv32, pns: DWORD): Outcome<S>
    requires Fits(drv, cfg)
  {
    SectorTest(drv, cfg, AfterStatus(drv, cfg, st), g, pns, 0, 1, SINGLE)
  }

  ghost function Test2<S(!new)>(drv: Driver<S>, cfg: Config, szBuff: nat, st: S, g: bv32, pns: DWORD): Outcome<S>
    requires Fits(drv, cfg)
  {
    var t1 := Test1(drv, cfg, st, g, pns);
    SectorTest(drv, cfg, t1.st, t1.lfsr, Inc(pns), 1, MultiCount(szBuff, drv.sectorBytes), MULTI)
  }

  ghost function Test3<S(!new)>(drv: Driver<S>, cfg: Config, szBuff: nat, st: S, g: bv32, pns: DWORD): Outcome<S>
    requires Fits(drv, cfg)
  {
    var t2 := Test2(drv, cfg, szBuff, st, g, pns);
    SectorTest(drv, cfg, t2.st, t2.lfsr, Inc(Inc(pns)), 5, 1, MISALIGNED)
  }

  lemma SeedsOf(pns: DWORD)
    requires pns % 4 == 1
    ensures Inc(pns) == pns + 1 != 0 && Inc(Inc(pns)) == pns + 2 != 0
    ensures Inc(Inc(Inc(pns))) == if pns == 0xFFFF_FFFD then 0 else pns + 3
  {
    hide Inc;
    IncIs(pns);
    IncIs(pns + 1);
    IncIs(pns + 2);
  }

  lemma RoutedTests<S(!new)>(drv: Driver<S>, cfg: Config, cell: (S, nat) -> seq<byte>, route: nat -> nat, size: nat, k: nat,
                             szBuff: nat, st: S, g: bv32, pns: DWORD)
    requires Fits(drv, cfg) && Routed(drv, cell, route, size)
    requires pns % 4 == 1 && Decided(drv, route, size, szBuff, k, pns + 3)
    ensures Test1(drv, cfg, st, g, pns).code == 0
    ensures Test2(drv, cfg, szBuff, st, g, pns).code == if RoutedCode(route, size, szBuff, drv.sectorBytes) == 14 then 14 else 0
    ensures Test3(drv, cfg, szBuff, st, g, pns).code == 0
    ensures Test3(drv, cfg, szBuff, st, g, pns).lfsr != 0
  {
    hide Routed, SectorTest, Barrier, MultiCount, Inc, SectorPower, InjectiveOn, Answers;
    SeedsOf(pns);
    SingleInjective(route);
    RoutedAnswers(drv, cell, route, size, cfg, st);
    AtMostFour(szBuff, drv.sectorBytes);
    RoutedSectorTest(drv, cfg, cell, route, size, k, AfterStatus(drv, cfg, st), g, pns, 0, 1, SINGLE);
    var t1 := Test1(drv, cfg, st, g, pns);
    RoutedSectorTest(drv, cfg, cell, route, size, k, t1.st, t1.lfsr, Inc(pns), 1, MultiCount(szBuff, drv.sectorBytes), MULTI);
    var t2 := Test2(drv, cfg, szBuff, st, g, pns);
    RoutedSectorTest(drv, cfg, cell, route, size, k, t2.st, t2.lfsr, Inc(Inc(pns)), 5, 1, MISALIGNED);
    RegisterNonzero(drv, cfg, t2.st, t2.lfsr, Inc(Inc(pns)), 5, 1, MISALIGNED);
  }

  lemma RoutedCycle<S(!new)>(drv: Driver<S>, cfg: Config, cell: (S, nat) -> seq<byte>, route: nat -> nat, size: nat, k: nat,
                             szBuff: nat, st: S, g: bv32, pns: DWORD)
    requires Fits(drv, cfg) && Routed(drv, cell, route, size)
    requires pns % 4 == 1 && Decided(drv, route, size, szBuff, k, pns + 3)
    requires pns < 0xFFFF_FFFD || RoutedCode(route, size, szBuff, drv.sectorBytes) == 0
    ensures Cycle(drv, cfg, szBuff, st, g, pns).code
         == if RoutedCode(route, size, szBuff, drv.sectorBytes) != 0 then RoutedCode(route, size, szBuff, drv.sectorBytes)
            else if size >= 128 + Barrier(drv.sectorBytes) && pns == 0xFFFF_FFFD then 24
            else 0
  {
    hide Routed, SectorTest, BarrierTest, Barrier, MultiCount, Inc, SectorPower, InjectiveOn, Fits;
    FourBytes(drv, cfg);
    SeedsOf(pns);
    RoutedAnswers(drv, cell, route, size, cfg, st);
    RoutedTests(drv, cfg, cell, route, size, k, szBuff, st, g, pns);
    var t3 := Test3(drv, cfg, szBuff, st, g, pns);
    if size >= 128 + Barrier(drv.sectorBytes) && RoutedCode(route, size, szBuff, drv.sectorBytes) != 14 {
      RoutedLastTest(drv, cfg, cell, route, size, k, t3.st, t3.lfsr, Inc(Inc(Inc(pns))));
    }
  }

  /** The barrier test with a proper seed, and with the seed 0 that a wrapped counter gives. */
  lemma RoutedLastTest<S(!new)>(drv: Driver<S>, cfg: Config, cell: (S, nat) -> seq<byte>, route: nat -> nat, size: nat, k: nat,
                                st: S, g: bv32, pns: DWORD)
    requires Fits(drv, cfg) && Routed(drv, cell, route, size) && size >= 128 + Barrier(drv.sectorBytes)
    requires SectorPower(drv.sectorBytes, k) || (pns != 0 && route(6) != route(6 + Barrier(drv.sectorBytes)))
    requires pns == 0 ==> g != 0 && route(6) != route(6 + Barrier(drv.sectorBytes))
    ensures BarrierTest(drv, cfg, st, g, pns).code
         == if pns == 0 || route(6) == route(6 + Barrier(drv.sectorBytes)) then 24 else 0
  {
    hide Routed, BarrierTest, Barrier, SectorPower;
    if pns != 0 {
      RoutedBarrierTest(drv, cfg, cell, route, size, k, st, g, pns);
    } else {
      UnseededBarrierTest(drv, cfg, cell, route, size, k, st, g);
    }
  }

  lemma SectorFloor(ss: nat, k: nat)
    requires SectorPower(ss, k)
    ensures 32 <= ss <= 0xFFFF && ss == Pow2(k)
  {
  }

  /** What a run returns for an address decoder when its first seed is pns. */
  ghost function RunCode(route: nat -> nat, size: nat, szBuff: nat, ss: nat, pns: nat, ncyc: nat): nat
    requires ss >= 2
  {
    if ncyc == 0 then 0
    else if RoutedCode(route, size, szBuff, ss) != 0 then RoutedCode(route, size, szBuff, ss)
    else if size >= 128 + Barrier(ss) && pns + 4 * ncyc > 0x1_0000_0000 then 24
    else 0
  }

  lemma {:induction false} RoutedCycles<S(!new)>(drv: Driver<S>, cfg: Config, cell: (S, nat) -> seq<byte>, route: nat -> nat,
                                                 size: nat, k: nat, szBuff: nat, st: S, g: bv32, pns: DWORD, ncyc: nat)
    requires Fits(drv, cfg) && Routed(drv, cell, route, size)
    requires pns % 4 == 1 && Decided(drv, route, size, szBuff, k, pns + 4 * ncyc - 1)
    requires pns < 0xFFFF_FFFD || RoutedCode(route, size, szBuff, drv.sectorBytes) == 0
    ensures Cycles(drv, cfg, szBuff, st, g, pns, ncyc).code == RunCode(route, size, szBuff, drv.sectorBytes, pns, ncyc)
    decreases ncyc
  {
    hide Cycle, Routed, RoutedCode, SectorPower, Inc, Verdict, Barrier;
    if ncyc > 0 {
      FourIncs(pns);
      RoutedCycle(drv, cfg, cell, route, size, k, szBuff, st, g, pns);
      var c := Cycle(drv, cfg, szBuff, st, g, pns);
      if c.code == 0 {
        RoutedCycles(drv, cfg, cell, route, size, k, szBuff, c.st, c.lfsr, if pns == 0xFFFF_FFFD then 1 else pns + 4, ncyc - 1);
      }
    }
  }

  lemma FourIncs(pns: DWORD)
    requires pns % 4 == 1
    ensures Inc(Inc(Inc(Inc(pns)))) == if pns == 0xFFFF_FFFD then 1 else pns + 4
    ensures pns < 0xFFFF_FFFD ==> pns + 4 < 0x1_0000_0000 && (pns + 4) % 4 == 1
  {
    hide Inc;
    SeedsOf(pns);
    IncIs(Inc(Inc(Inc(pns))));
  }

  lemma IncIs(n: DWORD)
    ensures Inc(n) == if n == 0xFFFF_FFFF then 0 else n + 1
  {
  }

  /**
    The checker's return code for every address decoder and any number of cycles, exactly: 14 when two
    of the sectors of the multi-sector test collide, 24 when the two sectors of the barrier test do, and
    otherwise 0, except that from 2^30 cycles on, when the seed counter wraps to 0 at a barrier test, a
    drive large enough for that test gets 24 whatever it does.
  */
  lemma RoutedVerdict<S(!new)>(drv: Driver<S>, cfg: Config, cell: (S, nat) -> seq<byte>, route: nat -> nat, size: nat, k: nat,
                               szBuff: nat, st: S, g: bv32, ncyc: nat)
    requires Fits(drv, cfg) && SectorPower(drv.sectorBytes, k) && Routed(drv, cell, route, size)
    requires szBuff >= cfg.maxSS + 4 && ncyc >= 1
    ensures var code := RoutedCode(route, size, szBuff, drv.sectorBytes);
            Verdict(drv, cfg, szBuff, st, g, ncyc).code
            == if code == 0 && size >= 128 + Barrier(drv.sectorBytes) && ncyc >= 0x4000_0000 then 24 else code
  {
    hide Cycles, Routed, RoutedCode, SectorPower, Barrier;
    RoutedCycles(drv, cfg, cell, route, size, k, szBuff, st, g, 1, ncyc);
  }

  /** No sectors of an ideal disk collide. */
  lemma IdealCode(size: nat, szBuff: nat, ss: nat)
    requires 2 <= ss <= 0xFFFF
    ensures RoutedCode(lba => lba, size, szBuff, ss) == 0
  {
    hide Barrier, MultiCount;
    BarrierWide(ss);
  }

  /**
    A correct disk, with sectors of any size, passes as long as the seed counter does not wrap or the
    drive is too small for the barrier test; with sectors of a power of two it is rejected otherwise.
  */
  lemma IdealDiskPasses<S(!new)>(drv: Driver<S>, cfg: Config, cell: (S, nat) -> seq<byte>, size: nat, k: nat,
                                 szBuff: nat, st: S, g: bv32, ncyc: nat)
    requires Fits(drv, cfg) && drv.sectorBytes <= 0xFFFF && Routed(drv, cell, lba => lba, size)
    requires szBuff >= cfg.maxSS + 4
    ensures ncyc < 0x4000_0000 || size < 128 + Barrier(drv.sectorBytes) ==> Verdict(drv, cfg, szBuff, st, g, ncyc).code == 0
    ensures SectorPower(drv.sectorBytes, k) && ncyc >= 0x4000_0000 && size >= 128 + Barrier(drv.sectorBytes) ==>
              Verdict(drv, cfg, szBuff, st, g, ncyc).code == 24
  {
    hide Routed, SectorPower, Cycles, Barrier, MultiCount, RoutedCode;
    IdealCode(size, szBuff, drv.sectorBytes);
    if ncyc < 0x4000_0000 || size < 128 + Barrier(drv.sectorBytes) || SectorPower(drv.sectorBytes, k) {
      RoutedCycles(drv, cfg, cell, lba => lba, size, k, szBuff, st, g, 1, ncyc);
    }
  }

  /** An address decoder that keeps only the address modulo b. */
  ghost function Wrapping(b: nat): nat -> nat
    requires b > 0
  {
    (lba: nat) => lba % b
  }

  /** A disk that drops the address bits above 4GB fails with the code of the barrier test. */
  lemma WrappedDiskFails<S(!new)>(drv: Driver<S>, cfg: Config, cell: (S, nat) -> seq<byte>, size: nat, k: nat,
                                  szBuff: nat, st: S, g: bv32, ncyc: nat)
    requires Fits(drv, cfg) && SectorPower(drv.sectorBytes, k) && Barrier(drv.sectorBytes) > 0
    requires Routed(drv, cell, Wrapping(Barrier(drv.sectorBytes)), size)
    requires size >= 128 + Barrier(drv.sectorBytes)
    requires szBuff >= cfg.maxSS + 4 && ncyc >= 1
    ensures Verdict(drv, cfg, szBuff, st, g, ncyc).code == 24
  {
    hide Routed, SectorPower, Fits, Verdict, Barrier;
    SectorFloor(drv.sectorBytes, k);
    BarrierWide(drv.sectorBytes);
    var b := Barrier(drv.sectorBytes);
    RoutedVerdict(drv, cfg, cell, Wrapping(b), size, k, szBuff, st, g, ncyc);
    WrappingKeepsLow(b);
  }

  lemma WrappingKeepsLow(b: nat)
    requires b >= 0x1_0000
    ensures InjectiveOn(Wrapping(b), 1, 5)
    ensures Wrapping(b)(6) == Wrapping(b)(6 + b)
  {
    forall i: nat | i < 7
      ensures Wrapping(b)(i) == i
    {
    }
    assert (6 + b) % b == 6;
  }

  lemma BarrierWide(ss: nat)
    requires 2 <= ss <= 0xFFFF
    ensures Barrier(ss) >= 0x1_0000
  {
    var h := ss / 2;
    var q := 0x8000_0000 / h;
    assert 0x8000_0000 < (q + 1) * h;
    if q + 1 <= 0x1_0000 {
      MulMonotone(q + 1, 0x1_0000, h);
    }
  }

  // ---- which buffers are large enough ----

  lemma RoutedSectorTouch<S(!new)>(drv: Driver<S>, cfg: Config, cell: (S, nat) -> seq<byte>, route: nat -> nat, size: nat,
                                   st: S, g: bv32, pns: DWORD, wofs: nat, rofs: nat, lba: nat, ns: nat)
    requires Fits(drv, cfg) && Routed(drv, cell, route, size) && lba + ns <= size
    ensures SectorTouch(drv, cfg, st, g, pns, wofs, rofs, lba, ns) == Max(wofs, rofs) + ns * drv.sectorBytes
  {
    hide Stream, Seeded, Answers, Reads;
    var data := Stream(Seeded(g, pns), ns * drv.sectorBytes);
    assert drv.write(st, lba, ns, data).ok;
  }

  /** One more than the highest buffer offset that a cycle touches on a routed disk. */
  ghost function RoutedTouch(route: nat -> nat, size: nat, szBuff: nat, ss: nat): nat
    requires ss >= 2
  {
    var multi := Max(ss, MultiCount(szBuff, ss) * ss);
    var code := RoutedCode(route, size, szBuff, ss);
    if code == 14 then multi else
    var three := Max(multi, 5 + ss);
    if size < 128 + Barrier(ss) then three else Max(three, if code == 0 then 2 * ss + 1 else 2 * ss)
  }

  lemma RoutedCycleTouch<S(!new)>(drv: Driver<S>, cfg: Config, cell: (S, nat) -> seq<byte>, route: nat -> nat, size: nat, k: nat,
                                  szBuff: nat, st: S, g: bv32, pns: DWORD)
    requires Fits(drv, cfg) && Routed(drv, cell, route, size)
    requires pns % 4 == 1 && Decided(drv, route, size, szBuff, k, pns + 3)
    ensures pns < 0xFFFF_FFFD ==>
              CycleTouch(drv, cfg, szBuff, st, g, pns) == RoutedTouch(route, size, szBuff, drv.sectorBytes)
    ensures RoutedCode(route, size, szBuff, drv.sectorBytes) == 0 ==>
              CycleTouch(drv, cfg, szBuff, st, g, pns) <= RoutedTouch(route, size, szBuff, drv.sectorBytes)
  {
    hide Routed, SectorTest, SectorTouch, BarrierTest, Barrier, MultiCount, Inc, SectorPower, InjectiveOn, Fits;
    FourBytes(drv, cfg);
    SeedsOf(pns);
    RoutedAnswers(drv, cell, route, size, cfg, st);
    RoutedTests(drv, cfg, cell, route, size, k, szBuff, st, g, pns);
    AtMostFour(szBuff, drv.sectorBytes);
    var t1 := Test1(drv, cfg, st, g, pns);
    var t2 := Test2(drv, cfg, szBuff, st, g, pns);
    var t3 := Test3(drv, cfg, szBuff, st, g, pns);
    RoutedSectorTouch(drv, cfg, cell, route, size, AfterStatus(drv, cfg, st), g, pns, 0, 0, 0, 1);
    RoutedSectorTouch(drv, cfg, cell, route, size, t1.st, t1.lfsr, Inc(pns), 0, 0, 1, MultiCount(szBuff, drv.sectorBytes));
    RoutedSectorTouch(drv, cfg, cell, route, size, t2.st, t2.lfsr, Inc(Inc(pns)), 3, 5, 5, 1);
    if size >= 128 + Barrier(drv.sectorBytes) && RoutedCode(route, size, szBuff, drv.sectorBytes) != 14 && pns < 0xFFFF_FFFD {
      RoutedLastTest(drv, cfg, cell, route, size, k, t3.st, t3.lfsr, Inc(Inc(Inc(pns))));
    }
  }

  lemma {:induction false} RoutedCyclesTouch<S(!new)>(drv: Driver<S>, cfg: Config, cell: (S, nat) -> seq<byte>, route: nat -> nat,
                                                      size: nat, k: nat, szBuff: nat, st: S, g: bv32, pns: DWORD, ncyc: nat)
    requires Fits(drv, cfg) && Routed(drv, cell, route, size)
    requires pns % 4 == 1 && Decided(drv, route, size, szBuff, k, pns + 4 * ncyc - 1)
    requires pns < 0xFFFF_FFFD || RoutedCode(route, size, szBuff, drv.sectorBytes) == 0
    ensures CyclesTouch(drv, cfg, szBuff, st, g, pns, ncyc) <= RoutedTouch(route, size, szBuff, drv.sectorBytes)
    ensures ncyc >= 1 && pns < 0xFFFF_FFFD ==>
              CyclesTouch(drv, cfg, szBuff, st, g, pns, ncyc) == RoutedTouch(route, size, szBuff, drv.sectorBytes)
    decreases ncyc
  {
    hide Cycle, CycleTouch, Routed, RoutedCode, RoutedTouch, SectorPower, Inc, Barrier;
    if ncyc > 0 {
      FourIncs(pns);
      RoutedCycle(drv, cfg, cell, route, size, k, szBuff, st, g, pns);
      RoutedCycleTouch(drv, cfg, cell, route, size, k, szBuff, st, g, pns);
      var c := Cycle(drv, cfg, szBuff, st, g, pns);
      if c.code == 0 {
        RoutedCyclesTouch(drv, cfg, cell, route, size, k, szBuff, c.st, c.lfsr, if pns == 0xFFFF_FFFD then 1 else pns + 4, ncyc - 1);
      }
    }
  }

  /**
    A run that the size guard lets begin stays inside its buffer if and only if the buffer holds a sector
    at offset 5 and, on a drive large enough for the barrier test, two sectors and, if the disk passes, the
    byte after them.  A disk that fails before those tests stays inside any buffer.
  */
  lemma BufferSuffices<S(!new)>(drv: Driver<S>, cfg: Config, cell: (S, nat) -> seq<byte>, route: nat -> nat, size: nat, k: nat,
                                szBuff: nat, st: S, g: bv32, ncyc: nat)
    requires Fits(drv, cfg) && Routed(drv, cell, route, size) && szBuff >= cfg.maxSS + 4 && ncyc >= 1
    requires Decided(drv, route, size, szBuff, k, 4 * ncyc)
    ensures var ss, code := drv.sectorBytes, RoutedCode(route, size, szBuff, drv.sectorBytes);
            Touched(drv, cfg, szBuff, st, g, ncyc) <= szBuff
            <==> code == 14 || (szBuff >= ss + 5 && (size < 128 + Barrier(ss) || szBuff >= 2 * ss + if code == 0 then 1 else 0))
  {
    hide CyclesTouch, Routed, RoutedCode, SectorPower, Barrier, MultiCount;
    RoutedCyclesTouch(drv, cfg, cell, route, size, k, szBuff, st, g, 1, ncyc);
    CountFits(szBuff, drv.sectorBytes);
  }
}
