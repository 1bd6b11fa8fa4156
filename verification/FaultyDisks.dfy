/**
  Disks that acknowledge everything but do not do the work: a frozen disk never changes what it
  reads as, a silent disk never transfers a byte.
*/
module FaultyDisks {
  import opened Basics
  import opened LinearIteration
  import opened PatternGenerator
  import opened DiskChecker
  import opened DiskClasses

  /** Every call succeeds, and reading depends on the address alone. */
  ghost predicate Frozen<S(!new)>(drv: Driver<S>, image: (nat, nat) -> seq<byte>, size: nat) {
    && size >= 128
    && Answers(drv, size)
    && (forall st, lba: nat, ns: nat, data: seq<byte> :: drv.write(st, lba, ns, data).ok)
    && (forall st :: drv.sync(st).ok)
    && (forall st, lba: nat, ns: nat :: drv.read(st, lba, ns).ok && drv.read(st, lba, ns).data == image(lba, ns))
    && (forall lba: nat, ns: nat :: |image(lba, ns)| <= ns * drv.sectorBytes)
  }

  /** What the cycle that starts with seed pns returns for a frozen disk. */
  ghost function FrozenCode(image: (nat, nat) -> seq<byte>, size: nat, szBuff: nat, ss: nat, pns: DWORD): (code: nat)
    requires ss >= 2 && pns <= 0xFFFF_FFFC
    requires forall lba: nat, ns: nat :: |image(lba, ns)| <= ns * ss
    ensures code in {0, 10, 14, 18, 24}
  {
    var n := MultiCount(szBuff, ss);
    if Received(image(0, 1), 1 * ss) != Pattern(pns, 1 * ss) then 10
    else if Received(image(1, n), n * ss) != Pattern(pns + 1, n * ss) then 14
    else if Received(image(5, 1), 1 * ss) != Pattern(pns + 2, 1 * ss) then 18
    else if size >= 128 + Barrier(ss)
         && Received(image(6, 1), 1 * ss) + Received(image(6 + Barrier(ss), 1), 1 * ss) != Pattern(pns + 3, 2 * ss) then 24
    else 0
  }

  lemma FrozenSectorTest<S(!new)>(drv: Driver<S>, cfg: Config, image: (nat, nat) -> seq<byte>, size: nat,
                                  st: S, g: bv32, pns: DWORD, lba: nat, ns: nat, codes: Codes)
    requires Fits(drv, cfg) && Frozen(drv, image, size) && pns != 0
    ensures SectorTest(drv, cfg, st, g, pns, lba, ns, codes).code
         == if Received(image(lba, ns), ns * drv.sectorBytes) != Pattern(pns, ns * drv.sectorBytes) then codes.compare else 0
  {
    hide Stream, Iterate, Received;
    PatternLength(pns, ns * drv.sectorBytes);
  }

  lemma FrozenBarrierTest<S(!new)>(drv: Driver<S>, cfg: Config, image: (nat, nat) -> seq<byte>, size: nat,
                                   st: S, g: bv32, pns: DWORD)
    requires Fits(drv, cfg) && Frozen(drv, image, size) && pns != 0
    ensures BarrierTest(drv, cfg, st, g, pns).code
         == if Received(image(6, 1), 1 * drv.sectorBytes) + Received(image(6 + Barrier(drv.sectorBytes), 1), 1 * drv.sectorBytes)
               != Pattern(pns, 2 * drv.sectorBytes) then 24 else 0
  {
    hide Stream, Iterate, Received, Barrier;
    PatternLength(pns, 2 * drv.sectorBytes);
    assert 1 * drv.sectorBytes == drv.sectorBytes;
  }

  lemma FrozenCycle<S(!new)>(drv: Driver<S>, cfg: Config, image: (nat, nat) -> seq<byte>, size: nat,
                             szBuff: nat, st: S, g: bv32, pns: DWORD)
    requires Fits(drv, cfg) && Frozen(drv, image, size)
    requires 0 < pns <= 0xFFFF_FFFC
    ensures Cycle(drv, cfg, szBuff, st, g, pns).code == FrozenCode(image, size, szBuff, drv.sectorBytes, pns)
  {
    hide SectorTest, BarrierTest, Barrier, MultiCount, Seeded, Received, Pattern, Frozen, Fits, Inc;
    FourBytes(drv, cfg);
    FrozenAnswers(drv, cfg, image, size, st);
    IncIs(pns);
    IncIs(pns + 1);
    IncIs(pns + 2);
    FrozenSectorTest(drv, cfg, image, size, AfterStatus(drv, cfg, st), g, pns, 0, 1, SINGLE);
    var t1 := Test1(drv, cfg, st, g, pns);
    FrozenSectorTest(drv, cfg, image, size, t1.st, t1.lfsr, pns + 1, 1, MultiCount(szBuff, drv.sectorBytes), MULTI);
    var t2 := Test2(drv, cfg, szBuff, st, g, pns);
    FrozenSectorTest(drv, cfg, image, size, t2.st, t2.lfsr, pns + 2, 5, 1, MISALIGNED);
    var t3 := Test3(drv, cfg, szBuff, st, g, pns);
    FrozenBarrierTest(drv, cfg, image, size, t3.st, t3.lfsr, pns + 3);
  }

  lemma FrozenAnswers<S(!new)>(drv: Driver<S>, cfg: Config, image: (nat, nat) -> seq<byte>, size: nat, st: S)
    requires Frozen(drv, image, size)
    ensures size >= 128
    ensures var init := drv.initialize(st);
            var cnt := drv.sectorCount(init.st);
            init.ok && cnt.ok && cnt.count == size && drv.sectorSize(cnt.st).ok
    ensures forall lba: nat, ns: nat :: |image(lba, ns)| <= ns * drv.sectorBytes
  {
  }

  /**
    A frozen disk can only get through the first cycle, and only if it happens to hold that
    cycle's patterns already; the second cycle then rejects it at sector 0, because its seed differs.
  */
  lemma FrozenVerdict<S(!new)>(drv: Driver<S>, cfg: Config, image: (nat, nat) -> seq<byte>, size: nat,
                               szBuff: nat, st: S, g: bv32, ncyc: nat)
    requires Fits(drv, cfg) && Frozen(drv, image, size) && drv.sectorBytes >= 32
    requires szBuff >= cfg.maxSS + 4 && ncyc >= 1
    ensures var first := FrozenCode(image, size, szBuff, drv.sectorBytes, 1);
            Verdict(drv, cfg, szBuff, st, g, ncyc).code == if first != 0 || ncyc == 1 then first else 10
    ensures ncyc >= 2 ==> Verdict(drv, cfg, szBuff, st, g, ncyc).code in {10, 14, 18, 24}
  {
    hide Cycle, Frozen, Fits, Received, Pattern, Barrier;
    FourIncs(1);
    FrozenAnswers(drv, cfg, image, size, st);
    FrozenCycle(drv, cfg, image, size, szBuff, st, g, 1);
    var c := Cycle(drv, cfg, szBuff, st, g, 1);
    FrozenCycle(drv, cfg, image, size, szBuff, c.st, c.lfsr, 5);
    PatternsDiffer(1, 5, 1 * drv.sectorBytes);
    var first := FrozenCode(image, size, szBuff, drv.sectorBytes, 1);
    assert first == 0 ==> FrozenCode(image, size, szBuff, drv.sectorBytes, 5) == 10;
    if ncyc >= 2 && c.code == 0 {
      assert Cycles(drv, cfg, szBuff, c.st, c.lfsr, 5, ncyc - 1).code == 10;
    }
  }

  /** Every call succeeds, but no read transfers anything. */
  ghost predicate Silent<S(!new)>(drv: Driver<S>, size: nat) {
    Frozen(drv, (lba: nat, ns: nat) => [], size)
  }

  /** Clearing the buffer before each read is what exposes a silent disk, at the first comparison. */
  lemma SilentVerdict<S(!new)>(drv: Driver<S>, cfg: Config, size: nat, szBuff: nat, st: S, g: bv32, ncyc: nat)
    requires Fits(drv, cfg) && Silent(drv, size) && drv.sectorBytes >= 32
    requires szBuff >= cfg.maxSS + 4 && ncyc >= 1
    ensures Verdict(drv, cfg, szBuff, st, g, ncyc).code == 10
  {
    hide Cycle, Cycles, Frozen, Fits, Pattern, Barrier;
    FrozenVerdict(drv, cfg, (lba: nat, ns: nat) => [], size, szBuff, st, g, ncyc);
    PatternNotZero(1, 1 * drv.sectorBytes);
    assert Received([], 1 * drv.sectorBytes) == Zeros(1 * drv.sectorBytes);
  }
}
