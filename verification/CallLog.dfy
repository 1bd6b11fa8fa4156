/**
  What the disk checker's return code says about the calls it made.  A driver that records its calls shows
  the checker's script: which calls it makes, in which order, and which code each one returns with when it
  is the first that is not acknowledged.  Every driver can be made to record, without any other change.
*/
module CallLog {
  import opened Basics
  import opened LinearIteration
  import opened PatternGenerator
  import opened DiskChecker
  import opened DiskClasses

  /** A call of the checker; the sector count also tells the number that came back. */
  datatype Call = Initialize | SectorCount(n: nat) | SectorSize | BlockSize | Sync | Write(lba: nat, ns: nat) | Read(lba: nat, ns: nat)

  datatype Event = Event(call: Call, ok: bool)

  /** The driver's state contains a record of its calls. */
  ghost predicate Records<S(!new)>(drv: Driver<S>, log: S -> seq<Event>) {
    && (forall st :: log(drv.initialize(st).st) == log(st) + [Event(Initialize, drv.initialize(st).ok)])
    && (forall st :: log(drv.sectorCount(st).st) == log(st) + [Event(SectorCount(drv.sectorCount(st).count), drv.sectorCount(st).ok)])
    && (forall st :: log(drv.sectorSize(st).st) == log(st) + [Event(SectorSize, drv.sectorSize(st).ok)])
    && (forall st :: log(drv.blockSize(st).st) == log(st) + [Event(BlockSize, drv.blockSize(st).ok)])
    && (forall st :: log(drv.sync(st).st) == log(st) + [Event(Sync, drv.sync(st).ok)])
    && (forall st, lba: nat, ns: nat, data: seq<byte> ::
          log(drv.write(st, lba, ns, data).st) == log(st) + [Event(Write(lba, ns), drv.write(st, lba, ns, data).ok)])
    && (forall st, lba: nat, ns: nat ::
          log(drv.read(st, lba, ns).st) == log(st) + [Event(Read(lba, ns), drv.read(st, lba, ns).ok)])
  }

  // ---- the script ----

  /** A call, and the code the checker returns with if the call fails; a failing erase block query does not matter. */
  datatype Line = Line(call: Call, code: nat)

  /** The status calls; the sector size is only asked for where it can vary. */
  function StatusLines(cfg: Config, n: nat): seq<Line> {
    [Line(Initialize, 2), Line(SectorCount(n), 3)]
    + (if cfg.minSS != cfg.maxSS then [Line(SectorSize, 5)] else [])
    + [Line(BlockSize, 0)]
  }

  /** One write, sync and read back. */
  function TestLines(lba: nat, ns: nat, first: nat): seq<Line> {
    [Line(Write(lba, ns), first), Line(Sync, first + 1), Line(Read(lba, ns), first + 2)]
  }

  function BarrierLines(lba2: nat): seq<Line> {
    [Line(Write(6, 1), 19), Line(Write(lba2, 1), 20), Line(Sync, 21), Line(Read(6, 1), 22), Line(Read(lba2, 1), 23)]
  }

  /** All but the last acknowledged, erase block queries aside. */
  predicate Acknowledged(d: seq<Event>) {
    forall i :: 0 <= i < |d| ==> d[i].ok || d[i].call == BlockSize
  }

  /**
    The events d are those of the script up to some line: either all of it, acknowledged, and the code is
    whatever comes after; or up to the first line that fails, and the code is that line's.
  */
  ghost predicate Plays(lines: seq<Line>, d: seq<Event>, code: nat, complete: bool) {
    && |d| <= |lines|
    && (forall i :: 0 <= i < |d| ==> d[i].call == lines[i].call)
    && (if complete then |d| == |lines| && Acknowledged(d)
        else && d != [] && Acknowledged(d[..|d| - 1])
             && !d[|d| - 1].ok && d[|d| - 1].call != BlockSize
             && code == lines[|d| - 1].code)
  }

  /** The script up to the end of the given test: 0 for none, 3 for the last that every drive gets, 4 for the barrier test. */
  function Script(cfg: Config, ss: nat, szBuff: nat, n: nat, tests: nat): seq<Line>
    requires ss >= 2
  {
    var start := StatusLines(cfg, n);
    var single := start + TestLines(0, 1, 6);
    var multi := single + TestLines(1, MultiCount(szBuff, ss), 11);
    var misaligned := multi + TestLines(5, 1, 15);
    if tests == 0 then start else if tests == 1 then single else if tests == 2 then multi else if tests == 3 then misaligned
    else misaligned + BarrierLines(6 + Barrier(ss))
  }

  /**
    The calls of one cycle and its code, n being the sector count that was returned.  The code is 0 after the whole
    script, with all calls acknowledged; 4 after a count below 128; 10, 14, 18 or 24 after the reads of a test that
    then finds other data; and otherwise that of the first call not acknowledged, which is the last one made.
  */
  ghost predicate CycleCalls(cfg: Config, ss: nat, szBuff: nat, n: nat, d: seq<Event>, code: nat)
    requires ss >= 2
  {
    var large := n >= 128 + Barrier(ss);
    if code == 0 then n >= 128 && Plays(Script(cfg, ss, szBuff, n, if large then 4 else 3), d, 0, true)
    else if code == 4 then n < 128 && d == [Event(Initialize, true), Event(SectorCount(n), true)]
    else if code == 10 then n >= 128 && Plays(Script(cfg, ss, szBuff, n, 1), d, 0, true)
    else if code == 14 then n >= 128 && Plays(Script(cfg, ss, szBuff, n, 2), d, 0, true)
    else if code == 18 then n >= 128 && Plays(Script(cfg, ss, szBuff, n, 3), d, 0, true)
    else if code == 24 then large && Plays(Script(cfg, ss, szBuff, n, 4), d, 0, true)
    else Plays(Script(cfg, ss, szBuff, n, if large then 4 else 3), d, code, false) && (n >= 128 || |d| <= 2)
  }

  lemma PlaysOn(a: seq<Line>, b: seq<Line>, d: seq<Event>, e: seq<Event>, code: nat, complete: bool)
    requires Plays(a, d, 0, true) && Plays(b, e, code, complete)
    ensures Plays(a + b, d + e, code, complete)
  {
    if !complete {
      assert (d + e)[..|d + e| - 1] == d + e[..|e| - 1];
    }
  }

  lemma PlaysPart(a: seq<Line>, b: seq<Line>, d: seq<Event>, code: nat)
    requires Plays(a, d, code, false)
    ensures Plays(a + b, d, code, false)
  {
  }

  // ---- the checker follows the script ----

  lemma TestCalls<S(!new)>(drv: Driver<S>, cfg: Config, log: S -> seq<Event>, st: S, g: bv32, pns: DWORD, lba: nat, ns: nat, codes: Codes)
    returns (d: seq<Event>)
    requires Fits(drv, cfg) && Records(drv, log)
    requires codes.sync == codes.write + 1 && codes.read == codes.write + 2 && 0 < codes.write && codes.read < codes.compare
    ensures var t := SectorTest(drv, cfg, st, g, pns, lba, ns, codes);
            && log(t.st) == log(st) + d
            && (if t.code == 0 || t.code == codes.compare then Plays(TestLines(lba, ns, codes.write), d, 0, true)
                else Plays(TestLines(lba, ns, codes.write), d, t.code, false))
  {
    hide Stream, Seeded, Iterate, Received;
    var data := Stream(Seeded(g, pns), ns * drv.sectorBytes);
    var w := drv.write(st, lba, ns, data);
    var s := drv.sync(w.st);
    var r := drv.read(s.st, lba, ns);
    var e1, e2, e3 := Event(Write(lba, ns), w.ok), Event(Sync, s.ok), Event(Read(lba, ns), r.ok);
    assert log(w.st) == log(st) + [e1];
    d := if !w.ok then [e1] else if !s.ok then [e1, e2] else [e1, e2, e3];
    assert log(st) + [e1] + [e2] == log(st) + [e1, e2];
    assert log(st) + [e1, e2] + [e3] == log(st) + [e1, e2, e3];
  }

  lemma BarrierCalls<S(!new)>(drv: Driver<S>, cfg: Config, log: S -> seq<Event>, st: S, g: bv32, pns: DWORD) returns (d: seq<Event>)
    requires Fits(drv, cfg) && Records(drv, log)
    ensures var t := BarrierTest(drv, cfg, st, g, pns);
            && log(t.st) == log(st) + d
            && (if t.code == 0 || t.code == 24 then Plays(BarrierLines(6 + Barrier(drv.sectorBytes)), d, 0, true)
                else Plays(BarrierLines(6 + Barrier(drv.sectorBytes)), d, t.code, false) && t.code in {19, 20, 21, 22, 23})
  {
    hide Stream, Seeded, Iterate, Received, Barrier;
    var ss := drv.sectorBytes;
    var lba2 := 6 + Barrier(ss);
    var data := Stream(Seeded(g, pns), 2 * ss);
    var w1 := drv.write(st, 6, 1, data[..ss]);
    var w2 := drv.write(w1.st, lba2, 1, data[ss..]);
    var s := drv.sync(w2.st);
    var r1 := drv.read(s.st, 6, 1);
    var r2 := drv.read(r1.st, lba2, 1);
    var e1, e2, e3 := Event(Write(6, 1), w1.ok), Event(Write(lba2, 1), w2.ok), Event(Sync, s.ok);
    var e4, e5 := Event(Read(6, 1), r1.ok), Event(Read(lba2, 1), r2.ok);
    assert log(w1.st) == log(st) + [e1];
    assert log(w2.st) == log(st) + [e1, e2];
    assert log(s.st) == log(st) + [e1, e2, e3];
    assert log(r1.st) == log(st) + [e1, e2, e3, e4];
    assert log(r2.st) == log(st) + [e1, e2, e3, e4, e5];
    d := if !w1.ok then [e1] else if !w2.ok then [e1, e2] else if !s.ok then [e1, e2, e3]
         else if !r1.ok then [e1, e2, e3, e4] else [e1, e2, e3, e4, e5];
  }

  /** A failure in a shorter script is one in a longer. */
  lemma {:induction false} FailsInLonger(cfg: Config, ss: nat, szBuff: nat, n: nat, a: nat, b: nat, d: seq<Event>, code: nat)
    requires ss >= 2 && a <= b <= 4 && Plays(Script(cfg, ss, szBuff, n, a), d, code, false)
    ensures Plays(Script(cfg, ss, szBuff, n, b), d, code, false)
    decreases b
  {
    hide StatusLines, TestLines, BarrierLines, Plays, Barrier, MultiCount;
    if a < b {
      FailsInLonger(cfg, ss, szBuff, n, a, b - 1, d, code);
      PlaysPart(Script(cfg, ss, szBuff, n, b - 1),
        if b == 1 then TestLines(0, 1, 6) else if b == 2 then TestLines(1, MultiCount(szBuff, ss), 11)
        else if b == 3 then TestLines(5, 1, 15) else BarrierLines(6 + Barrier(ss)), d, code);
    }
  }

  lemma AtLeastStatus(cfg: Config, ss: nat, szBuff: nat, n: nat, tests: nat)
    requires ss >= 2
    ensures |Script(cfg, ss, szBuff, n, tests)| >= 3
    ensures Script(cfg, ss, szBuff, n, 0) == StatusLines(cfg, n)
  {
  }

  /** The status calls when none of them ends the cycle. */
  lemma StatusCalls<S(!new)>(drv: Driver<S>, cfg: Config, log: S -> seq<Event>, st: S) returns (d: seq<Event>)
    requires Fits(drv, cfg) && Records(drv, log)
    requires var init := drv.initialize(st);
             var cnt := drv.sectorCount(init.st);
             init.ok && cnt.ok && (cfg.maxSS != cfg.minSS ==> drv.sectorSize(cnt.st).ok)
    ensures log(AfterStatus(drv, cfg, st)) == log(st) + d
    ensures Plays(StatusLines(cfg, drv.sectorCount(drv.initialize(st).st).count), d, 0, true)
  {
    var init := drv.initialize(st);
    var cnt := drv.sectorCount(init.st);
    var size := if cfg.maxSS != cfg.minSS then drv.sectorSize(cnt.st) else Reply(cnt.st, true);
    var blk := drv.blockSize(size.st);
    var sized := if cfg.maxSS != cfg.minSS then [Event(SectorSize, true)] else [];
    var early := [Event(Initialize, true), Event(SectorCount(cnt.count), true)];
    assert log(cnt.st) == log(st) + early;
    assert log(size.st) == log(st) + (early + sized);
    d := early + sized + [Event(BlockSize, blk.ok)];
    assert log(blk.st) == log(st) + d;
  }

  /** A status call ends the cycle. */
  lemma StatusFails<S(!new)>(drv: Driver<S>, cfg: Config, log: S -> seq<Event>, szBuff: nat, st: S, g: bv32, pns: DWORD)
    returns (n: nat, d: seq<Event>)
    requires Fits(drv, cfg) && Records(drv, log)
    requires var init := drv.initialize(st);
             var cnt := drv.sectorCount(init.st);
             !(init.ok && cnt.ok && cnt.count >= 128 && (cfg.maxSS != cfg.minSS ==> drv.sectorSize(cnt.st).ok))
    ensures var c := Cycle(drv, cfg, szBuff, st, g, pns);
            && log(c.st) == log(st) + d && c.code in {2, 3, 4, 5}
            && (if c.code == 4 then n < 128 && d == [Event(Initialize, true), Event(SectorCount(n), true)]
                else Plays(StatusLines(cfg, n), d, c.code, false) && (n >= 128 || |d| <= 2))
  {
    hide SectorTest, BarrierTest, Barrier, MultiCount, Inc;
    var init := drv.initialize(st);
    var cnt := drv.sectorCount(init.st);
    var size := drv.sectorSize(cnt.st);
    n := cnt.count;
    var e1, e2, e3 := Event(Initialize, init.ok), Event(SectorCount(n), cnt.ok), Event(SectorSize, size.ok);
    assert log(init.st) == log(st) + [e1];
    assert log(cnt.st) == log(st) + [e1, e2];
    assert log(size.st) == log(st) + [e1, e2, e3];
    d := if !init.ok then [e1] else if !cnt.ok || n < 128 then [e1, e2] else [e1, e2, e3];
  }

  /** The calls of the three tests that every drive gets. */
  lemma ThreeTests<S(!new)>(drv: Driver<S>, cfg: Config, log: S -> seq<Event>, szBuff: nat, st: S, g: bv32, pns: DWORD,
                            n: nat, d0: seq<Event>) returns (k: nat, d: seq<Event>)
    requires Fits(drv, cfg) && Records(drv, log)
    requires log(AfterStatus(drv, cfg, st)) == log(st) + d0 && Plays(StatusLines(cfg, n), d0, 0, true)
    ensures var t1, t2, t3 := Test1(drv, cfg, st, g, pns), Test2(drv, cfg, szBuff, st, g, pns), Test3(drv, cfg, szBuff, st, g, pns);
            var t, differs := if k == 1 then t1 else if k == 2 then t2 else t3, if k == 1 then 10 else if k == 2 then 14 else 18;
            && 1 <= k <= 3 && (k > 1 ==> t1.code == 0) && (k > 2 ==> t2.code == 0) && (k < 3 ==> t.code != 0)
            && log(t.st) == log(st) + d
            && (if t.code == 0 || t.code == differs then Plays(Script(cfg, drv.sectorBytes, szBuff, n, k), d, 0, true)
                else Plays(Script(cfg, drv.sectorBytes, szBuff, n, k), d, t.code, false) && t.code !in {0, 4, 10, 14, 18, 24})
  {
    hide Records, SectorTest, Barrier, MultiCount, Inc, StatusLines, Plays, Fits;
    FourBytes(drv, cfg);
    var ss := drv.sectorBytes;
    var t1, t2 := Test1(drv, cfg, st, g, pns), Test2(drv, cfg, szBuff, st, g, pns);
    var d1 := TestCalls(drv, cfg, log, AfterStatus(drv, cfg, st), g, pns, 0, 1, SINGLE);
    Joined(log(st), d0, d1);
    k, d := 1, d0 + d1;
    Continues(StatusLines(cfg, n), TestLines(0, 1, 6), d0, d1, t1.code, 10);
    if t1.code == 0 {
      var d2 := TestCalls(drv, cfg, log, t1.st, t1.lfsr, Inc(pns), 1, MultiCount(szBuff, ss), MULTI);
      Joined(log(st), d, d2);
      Continues(Script(cfg, ss, szBuff, n, 1), TestLines(1, MultiCount(szBuff, ss), 11), d, d2, t2.code, 14);
      k, d := 2, d + d2;
      if t2.code == 0 {
        var d3 := TestCalls(drv, cfg, log, t2.st, t2.lfsr, Inc(Inc(pns)), 5, 1, MISALIGNED);
        Joined(log(st), d, d3);
        Continues(Script(cfg, ss, szBuff, n, 2), TestLines(5, 1, 15), d, d3, Test3(drv, cfg, szBuff, st, g, pns).code, 18);
        k, d := 3, d + d3;
      }
    }
  }

  lemma Joined<T>(a: seq<T>, b: seq<T>, c: seq<T>)
    ensures a + b + c == a + (b + c)
  {
  }

  /** One more test after a script that went through. */
  lemma Continues(a: seq<Line>, b: seq<Line>, d: seq<Event>, e: seq<Event>, code: nat, differs: nat)
    requires Plays(a, d, 0, true)
    requires if code == 0 || code == differs then Plays(b, e, 0, true) else Plays(b, e, code, false)
    ensures if code == 0 || code == differs then Plays(a + b, d + e, 0, true) else Plays(a + b, d + e, code, false)
    ensures code == 0 || code == differs || exists i :: 0 <= i < |b| && b[i].code == code
  {
    PlaysOn(a, b, d, e, if code == 0 || code == differs then 0 else code, code == 0 || code == differs);
  }

  /** Every cycle makes the calls of the script, up to the first failure, and its code is as the script says. */
  lemma CycleFollows<S(!new)>(drv: Driver<S>, cfg: Config, log: S -> seq<Event>, szBuff: nat, st: S, g: bv32, pns: DWORD)
    returns (n: nat, d: seq<Event>)
    requires Fits(drv, cfg) && Records(drv, log)
    ensures var c := Cycle(drv, cfg, szBuff, st, g, pns);
            log(c.st) == log(st) + d && CycleCalls(cfg, drv.sectorBytes, szBuff, n, d, c.code)
  {
    hide Records, SectorTest, BarrierTest, Barrier, MultiCount, Inc, StatusLines, Plays, Fits, TestLines, BarrierLines;
    FourBytes(drv, cfg);
    var ss := drv.sectorBytes;
    var init := drv.initialize(st);
    var cnt := drv.sectorCount(init.st);
    if !(init.ok && cnt.ok && cnt.count >= 128 && (cfg.maxSS != cfg.minSS ==> drv.sectorSize(cnt.st).ok)) {
      n, d := StatusFails(drv, cfg, log, szBuff, st, g, pns);
      AtLeastStatus(cfg, ss, szBuff, n, 0);
      if Cycle(drv, cfg, szBuff, st, g, pns).code != 4 {
        FailsInLonger(cfg, ss, szBuff, n, 0, if n >= 128 + Barrier(ss) then 4 else 3, d, Cycle(drv, cfg, szBuff, st, g, pns).code);
      }
    } else {
      n := cnt.count;
      var k: nat;
      d := StatusCalls(drv, cfg, log, st);
      k, d := ThreeTests(drv, cfg, log, szBuff, st, g, pns, n, d);
      var t3 := Test3(drv, cfg, szBuff, st, g, pns);
      if k == 3 && t3.code == 0 && n >= 128 + Barrier(ss) {
        var e := BarrierCalls(drv, cfg, log, t3.st, t3.lfsr, Inc(Inc(Inc(pns))));
        Continues(Script(cfg, ss, szBuff, n, 3), BarrierLines(6 + Barrier(ss)), d, e, Cycle(drv, cfg, szBuff, st, g, pns).code, 24);
        Joined(log(st), d, e);
        d := d + e;
      } else if Plays(Script(cfg, ss, szBuff, n, k), d, Cycle(drv, cfg, szBuff, st, g, pns).code, false) {
        FailsInLonger(cfg, ss, szBuff, n, k, if n >= 128 + Barrier(ss) then 4 else 3, d, Cycle(drv, cfg, szBuff, st, g, pns).code);
      }
    }
  }

  /** The calls of a run of ncyc cycles: cycle after cycle, until one ends with another code than 0. */
  ghost predicate RunCalls(cfg: Config, ss: nat, szBuff: nat, d: seq<Event>, ncyc: nat, code: nat)
    requires ss >= 2
    decreases ncyc
  {
    if ncyc == 0 then d == [] && code == 0
    else
      exists n: nat, k: nat, c: nat :: k <= |d| && CycleCalls(cfg, ss, szBuff, n, d[..k], c)
        && if c != 0 then k == |d| && code == c else RunCalls(cfg, ss, szBuff, d[k..], ncyc - 1, code)
  }

  lemma {:induction false} CyclesFollow<S(!new)>(drv: Driver<S>, cfg: Config, log: S -> seq<Event>, szBuff: nat, st: S, g: bv32,
                                                 pns: DWORD, ncyc: nat) returns (d: seq<Event>)
    requires Fits(drv, cfg) && Records(drv, log)
    ensures var v := Cycles(drv, cfg, szBuff, st, g, pns, ncyc);
            log(v.st) == log(st) + d && RunCalls(cfg, drv.sectorBytes, szBuff, d, ncyc, v.code)
    decreases ncyc
  {
    hide Records, Cycle, CycleCalls, Inc, Fits;
    FourBytes(drv, cfg);
    d := [];
    if ncyc > 0 {
      var n: nat;
      n, d := CycleFollows(drv, cfg, log, szBuff, st, g, pns);
      var c := Cycle(drv, cfg, szBuff, st, g, pns);
      var k, first := |d|, d;
      if c.code == 0 {
        var e := CyclesFollow(drv, cfg, log, szBuff, c.st, c.lfsr, Inc(Inc(Inc(Inc(pns)))), ncyc - 1);
        Joined(log(st), first, e);
        d := first + e;
        assert d[k..] == e;
      }
      assert d[..k] == first;
    }
  }

  /** What a recording driver's log grows by in a run, and what the code says about it. */
  lemma RunFollows<S(!new)>(drv: Driver<S>, cfg: Config, log: S -> seq<Event>, szBuff: nat, st: S, g: bv32, ncyc: nat)
    returns (d: seq<Event>)
    requires Fits(drv, cfg) && Records(drv, log)
    ensures var v := Verdict(drv, cfg, szBuff, st, g, ncyc);
            && log(v.st) == log(st) + d
            && if szBuff < cfg.maxSS + 4 then v.code == 1 && d == [] else RunCalls(cfg, drv.sectorBytes, szBuff, d, ncyc, v.code)
  {
    hide Records, Cycles, RunCalls, Fits;
    FourBytes(drv, cfg);
    if szBuff < cfg.maxSS + 4 {
      d := [];
    } else {
      d := CyclesFollow(drv, cfg, log, szBuff, st, g, 1, ncyc);
    }
  }

  // ---- reading the code off the calls ----

  /** The code of a call that is not acknowledged, before being the call made just before it. */
  function FailureCode(call: Call, before: Call, lba2: nat): nat {
    match call
    case Initialize => 2
    case SectorCount(_) => 3
    case SectorSize => 5
    case BlockSize => 0
    case Write(lba, _) => if lba == 0 then 6 else if lba == 1 then 11 else if lba == 5 then 15 else if lba == lba2 then 20 else 19
    case Sync => if before == Write(0, 1) then 7 else if before == Write(5, 1) then 16 else if before == Write(lba2, 1) then 21 else 12
    case Read(lba, _) => if lba == 0 then 8 else if lba == 1 then 13 else if lba == 5 then 17 else if lba == lba2 then 23 else 22
  }

  /** The part of the script that does not depend on the sector size, after that query. */
  function Rest(n: nat, m: nat, lba2: nat): seq<Line> {
    [Line(BlockSize, 0),
     Line(Write(0, 1), 6), Line(Sync, 7), Line(Read(0, 1), 8),
     Line(Write(1, m), 11), Line(Sync, 12), Line(Read(1, m), 13),
     Line(Write(5, 1), 15), Line(Sync, 16), Line(Read(5, 1), 17),
     Line(Write(6, 1), 19), Line(Write(lba2, 1), 20), Line(Sync, 21), Line(Read(6, 1), 22), Line(Read(lba2, 1), 23)]
  }

  lemma WholeScript(cfg: Config, ss: nat, szBuff: nat, n: nat)
    requires ss >= 2
    ensures Script(cfg, ss, szBuff, n, 4)
         == [Line(Initialize, 2), Line(SectorCount(n), 3)]
            + (if cfg.minSS != cfg.maxSS then [Line(SectorSize, 5)] else [])
            + Rest(n, MultiCount(szBuff, ss), 6 + Barrier(ss))
    ensures |Script(cfg, ss, szBuff, n, 3)| == |Script(cfg, ss, szBuff, n, 4)| - 5
    ensures Script(cfg, ss, szBuff, n, 3) == Script(cfg, ss, szBuff, n, 4)[..|Script(cfg, ss, szBuff, n, 3)|]
  {
    hide Barrier, MultiCount;
  }

  lemma ScriptCodes(cfg: Config, ss: nat, szBuff: nat, n: nat, i: nat)
    requires ss >= 2 && Barrier(ss) > 0
    ensures var s := Script(cfg, ss, szBuff, n, 4);
            i < |s| ==> s[i].code == FailureCode(s[i].call, if i > 0 then s[i - 1].call else BlockSize, 6 + Barrier(ss))
  {
    hide Barrier, MultiCount, Script;
    WholeScript(cfg, ss, szBuff, n);
    var head := [Line(Initialize, 2), Line(SectorCount(n), 3)] + (if cfg.minSS != cfg.maxSS then [Line(SectorSize, 5)] else []);
    RestCodes(n, MultiCount(szBuff, ss), 6 + Barrier(ss));
    var s, r := Script(cfg, ss, szBuff, n, 4), Rest(n, MultiCount(szBuff, ss), 6 + Barrier(ss));
    if |head| < i < |s| {
      assert s[i] == r[i - |head|] && s[i - 1] == r[i - 1 - |head|];
    } else if i == |head| {
      assert s[i] == r[0];
    }
  }

  lemma RestCodes(n: nat, m: nat, lba2: nat)
    requires lba2 > 6
    ensures var r := Rest(n, m, lba2);
            r[0].code == 0 && forall i :: 0 < i < |r| ==> r[i].code == FailureCode(r[i].call, r[i - 1].call, lba2)
  {
  }

  lemma AcknowledgedSum(d: seq<Event>, e: seq<Event>)
    ensures Acknowledged(d + e) <==> Acknowledged(d) && Acknowledged(e)
  {
    if Acknowledged(d + e) {
      assert forall i :: 0 <= i < |d| ==> (d + e)[i] == d[i];
      assert forall i :: 0 <= i < |e| ==> (d + e)[|d| + i] == e[i];
    }
  }

  lemma LongEnough(cfg: Config, ss: nat, szBuff: nat, n: nat, tests: nat)
    requires ss >= 2 && tests >= 3
    ensures |Script(cfg, ss, szBuff, n, tests)| >= 12 && Script(cfg, ss, szBuff, n, tests)[0] == Line(Initialize, 2)
  {
    hide Barrier, MultiCount;
  }

  lemma CyclePasses(cfg: Config, ss: nat, szBuff: nat, n: nat, d: seq<Event>)
    requires ss >= 2 && CycleCalls(cfg, ss, szBuff, n, d, 0)
    ensures Acknowledged(d) && |d| >= 12 && d[0].call == Initialize
  {
    hide Script, Barrier;
    LongEnough(cfg, ss, szBuff, n, if n >= 128 + Barrier(ss) then 4 else 3);
  }

  /** In a run that passes, every call has been acknowledged, and each cycle has made twelve calls at least. */
  lemma {:induction false} PassMeansAcknowledged(cfg: Config, ss: nat, szBuff: nat, d: seq<Event>, ncyc: nat)
    requires ss >= 2 && RunCalls(cfg, ss, szBuff, d, ncyc, 0)
    ensures Acknowledged(d) && |d| >= 12 * ncyc
    decreases ncyc
  {
    hide CycleCalls, Acknowledged;
    if ncyc > 0 {
      var n: nat, k: nat, c: nat :| k <= |d| && CycleCalls(cfg, ss, szBuff, n, d[..k], c)
        && if c != 0 then k == |d| && 0 == c else RunCalls(cfg, ss, szBuff, d[k..], ncyc - 1, 0);
      PassMeansAcknowledged(cfg, ss, szBuff, d[k..], ncyc - 1);
      assert d == d[..k] + d[k..];
      CyclePasses(cfg, ss, szBuff, n, d[..k]);
      AcknowledgedSum(d[..k], d[k..]);
    } else {
      NoneMissing();
    }
  }

  lemma NoneMissing()
    ensures Acknowledged([])
  {
  }

  /** The last of these calls is the first that was not acknowledged, and it has that code. */
  ghost predicate EndsWith(d: seq<Event>, code: nat, lba2: nat) {
    && d != [] && d[0].call == Initialize
    && Acknowledged(d[..|d| - 1]) && !d[|d| - 1].ok && d[|d| - 1].call != BlockSize
    && code == FailureCode(d[|d| - 1].call, if |d| > 1 then d[|d| - 2].call else BlockSize, lba2)
    && code in {2, 3, 5, 6, 7, 8, 11, 12, 13, 15, 16, 17, 19, 20, 21, 22, 23}
  }

  lemma CycleEnds(cfg: Config, ss: nat, szBuff: nat, n: nat, d: seq<Event>, code: nat)
    requires ss >= 2 && Barrier(ss) > 0 && code != 0 && CycleCalls(cfg, ss, szBuff, n, d, code)
    ensures if code in {4, 10, 14, 18, 24} then Acknowledged(d) else EndsWith(d, code, 6 + Barrier(ss))
  {
    hide Script, Barrier, FailureCode;
    if code !in {4, 10, 14, 18, 24} {
      WholeScript(cfg, ss, szBuff, n);
      ScriptCodes(cfg, ss, szBuff, n, |d| - 1);
      FailureCodes(d[|d| - 1].call, if |d| > 1 then d[|d| - 2].call else BlockSize, 6 + Barrier(ss));
    }
  }

  lemma FailureCodes(call: Call, before: Call, lba2: nat)
    ensures call != BlockSize ==>
              FailureCode(call, before, lba2) in {2, 3, 5, 6, 7, 8, 11, 12, 13, 15, 16, 17, 19, 20, 21, 22, 23}
  {
  }

  /**
    A run in which all calls are acknowledged ends with 0 or, having seen a small drive or other data, with 4, 10,
    14, 18 or 24; otherwise the first call that is not acknowledged is the last one made, and decides the code.
  */
  lemma {:induction false} FailureExplained(cfg: Config, ss: nat, szBuff: nat, d: seq<Event>, ncyc: nat, code: nat)
    requires ss >= 2 && Barrier(ss) > 0 && RunCalls(cfg, ss, szBuff, d, ncyc, code)
    ensures if Acknowledged(d) then code in {0, 4, 10, 14, 18, 24} else EndsWith(d, code, 6 + Barrier(ss))
    decreases ncyc
  {
    hide CycleCalls, Acknowledged, EndsWith;
    if ncyc > 0 {
      var n: nat, k: nat, c: nat :| k <= |d| && CycleCalls(cfg, ss, szBuff, n, d[..k], c)
        && if c != 0 then k == |d| && code == c else RunCalls(cfg, ss, szBuff, d[k..], ncyc - 1, code);
      assert d == d[..k] + d[k..];
      if c != 0 {
        assert d[..k] == d;
        CycleEnds(cfg, ss, szBuff, n, d, c);
        NotBoth(d, c, 6 + Barrier(ss));
      } else {
        FailureExplained(cfg, ss, szBuff, d[k..], ncyc - 1, code);
        CyclePasses(cfg, ss, szBuff, n, d[..k]);
        AcknowledgedSum(d[..k], d[k..]);
        EndsLater(d[..k], d[k..], code, 6 + Barrier(ss));
      }
    } else {
      NoneMissing();
    }
  }

  lemma NotBoth(d: seq<Event>, code: nat, lba2: nat)
    ensures EndsWith(d, code, lba2) ==> !Acknowledged(d)
  {
  }

  /** After acknowledged calls a failing sequence of calls fails in the same way. */
  lemma EndsLater(a: seq<Event>, b: seq<Event>, code: nat, lba2: nat)
    requires a != [] && a[0].call == Initialize && Acknowledged(a)
    ensures EndsWith(b, code, lba2) ==> EndsWith(a + b, code, lba2)
  {
    if EndsWith(b, code, lba2) {
      assert (a + b)[..|a + b| - 1] == a + b[..|b| - 1];
      AcknowledgedSum(a, b[..|b| - 1]);
    }
  }

  // ---- every driver can be made to record ----

  /** The driver, keeping a record of its calls beside its state. */
  ghost function Recording<S(!new)>(drv: Driver<S>): Driver<(S, seq<Event>)> {
    Driver(drv.sectorBytes,
      (t: (S, seq<Event>)) =>
        var r := drv.initialize(t.0); Reply((r.st, t.1 + [Event(Initialize, r.ok)]), r.ok),
      (t: (S, seq<Event>)) =>
        var r := drv.sectorCount(t.0); CountReply((r.st, t.1 + [Event(SectorCount(r.count), r.ok)]), r.ok, r.count),
      (t: (S, seq<Event>)) =>
        var r := drv.sectorSize(t.0); Reply((r.st, t.1 + [Event(SectorSize, r.ok)]), r.ok),
      (t: (S, seq<Event>)) =>
        var r := drv.blockSize(t.0); Reply((r.st, t.1 + [Event(BlockSize, r.ok)]), r.ok),
      (t: (S, seq<Event>)) =>
        var r := drv.sync(t.0); Reply((r.st, t.1 + [Event(Sync, r.ok)]), r.ok),
      (t: (S, seq<Event>), lba: nat, ns: nat, data: seq<byte>) =>
        var r := drv.write(t.0, lba, ns, data); Reply((r.st, t.1 + [Event(Write(lba, ns), r.ok)]), r.ok),
      (t: (S, seq<Event>), lba: nat, ns: nat) =>
        var r := drv.read(t.0, lba, ns); DataReply((r.st, t.1 + [Event(Read(lba, ns), r.ok)]), r.ok, r.data))
  }

  lemma RecordingRecords<S(!new)>(drv: Driver<S>)
    ensures Records(Recording(drv), (t: (S, seq<Event>)) => t.1)
  {
  }

  lemma RecordingFits<S(!new)>(drv: Driver<S>, cfg: Config)
    requires Fits(drv, cfg)
    ensures Fits(Recording(drv), cfg)
  {
    var rec := Recording(drv);
    forall t: (S, seq<Event>), lba: nat, ns: nat
      ensures |rec.read(t, lba, ns).data| <= ns * rec.sectorBytes
    {
      assert |drv.read(t.0, lba, ns).data| <= ns * drv.sectorBytes;
      assert rec.read(t, lba, ns).data == drv.read(t.0, lba, ns).data;
    }
  }

  /** The same outcome, as far as the driver's own state goes. */
  ghost predicate Same<S>(o: Outcome<S>, r: Outcome<(S, seq<Event>)>) {
    r.code == o.code && r.lfsr == o.lfsr && r.st.0 == o.st
  }

  lemma SameWrite<S(!new)>(drv: Driver<S>, t: (S, seq<Event>), lba: nat, ns: nat, data: seq<byte>)
    ensures var r, o := Recording(drv).write(t, lba, ns, data), drv.write(t.0, lba, ns, data);
            r.st.0 == o.st && r.ok == o.ok
  {
  }

  lemma SameSync<S(!new)>(drv: Driver<S>, t: (S, seq<Event>))
    ensures var r, o := Recording(drv).sync(t), drv.sync(t.0);
            r.st.0 == o.st && r.ok == o.ok
  {
  }

  lemma SameRead<S(!new)>(drv: Driver<S>, t: (S, seq<Event>), lba: nat, ns: nat)
    ensures var r, o := Recording(drv).read(t, lba, ns), drv.read(t.0, lba, ns);
            r.st.0 == o.st && r.ok == o.ok && r.data == o.data
    ensures Recording(drv).sectorBytes == drv.sectorBytes
  {
  }

  lemma SameTest<S(!new)>(drv: Driver<S>, cfg: Config, t: (S, seq<Event>), g: bv32, pns: DWORD, lba: nat, ns: nat, codes: Codes)
    requires Fits(drv, cfg) && Fits(Recording(drv), cfg)
    ensures Same(SectorTest(drv, cfg, t.0, g, pns, lba, ns, codes), SectorTest(Recording(drv), cfg, t, g, pns, lba, ns, codes))
  {
    hide Stream, Seeded, Iterate, Received, Recording;
    var rec, data := Recording(drv), Stream(Seeded(g, pns), ns * drv.sectorBytes);
    var w := rec.write(t, lba, ns, data);
    SameWrite(drv, t, lba, ns, data);
    SameSync(drv, w.st);
    SameRead(drv, rec.sync(w.st).st, lba, ns);
  }

  lemma SameBarrier<S(!new)>(drv: Driver<S>, cfg: Config, t: (S, seq<Event>), g: bv32, pns: DWORD)
    requires Fits(drv, cfg) && Fits(Recording(drv), cfg)
    ensures Same(BarrierTest(drv, cfg, t.0, g, pns), BarrierTest(Recording(drv), cfg, t, g, pns))
  {
    hide Stream, Seeded, Iterate, Received, Barrier, Recording;
    var rec, ss := Recording(drv), drv.sectorBytes;
    var lba2, data := 6 + Barrier(ss), Stream(Seeded(g, pns), 2 * ss);
    SameWrite(drv, t, 6, 1, data[..ss]);
    var w1 := rec.write(t, 6, 1, data[..ss]);
    SameWrite(drv, w1.st, lba2, 1, data[ss..]);
    var w2 := rec.write(w1.st, lba2, 1, data[ss..]);
    SameSync(drv, w2.st);
    var s := rec.sync(w2.st);
    SameRead(drv, s.st, 6, 1);
    SameRead(drv, rec.read(s.st, 6, 1).st, lba2, 1);
  }

  lemma SameStatus<S(!new)>(drv: Driver<S>, cfg: Config, t: (S, seq<Event>))
    ensures AfterStatus(Recording(drv), cfg, t).0 == AfterStatus(drv, cfg, t.0)
  {
  }

  lemma SameCycle<S(!new)>(drv: Driver<S>, cfg: Config, szBuff: nat, t: (S, seq<Event>), g: bv32, pns: DWORD)
    requires Fits(drv, cfg) && Fits(Recording(drv), cfg)
    ensures Same(Cycle(drv, cfg, szBuff, t.0, g, pns), Cycle(Recording(drv), cfg, szBuff, t, g, pns))
  {
    hide SectorTest, BarrierTest, Barrier, MultiCount, Inc, Fits;
    FourBytes(drv, cfg);
    SameStatus(drv, cfg, t);
    var rec := Recording(drv);
    SameTest(drv, cfg, AfterStatus(rec, cfg, t), g, pns, 0, 1, SINGLE);
    var t1 := Test1(rec, cfg, t, g, pns);
    SameTest(drv, cfg, t1.st, t1.lfsr, Inc(pns), 1, MultiCount(szBuff, drv.sectorBytes), MULTI);
    var t2 := Test2(rec, cfg, szBuff, t, g, pns);
    SameTest(drv, cfg, t2.st, t2.lfsr, Inc(Inc(pns)), 5, 1, MISALIGNED);
    var t3 := Test3(rec, cfg, szBuff, t, g, pns);
    SameBarrier(drv, cfg, t3.st, t3.lfsr, Inc(Inc(Inc(pns))));
  }

  lemma {:induction false} SameCycles<S(!new)>(drv: Driver<S>, cfg: Config, szBuff: nat, t: (S, seq<Event>), g: bv32, pns: DWORD, ncyc: nat)
    requires Fits(drv, cfg) && Fits(Recording(drv), cfg)
    ensures Same(Cycles(drv, cfg, szBuff, t.0, g, pns, ncyc), Cycles(Recording(drv), cfg, szBuff, t, g, pns, ncyc))
    decreases ncyc
  {
    hide Cycle, Inc, Fits, Recording;
    if ncyc > 0 {
      SameCycle(drv, cfg, szBuff, t, g, pns);
      var c := Cycle(Recording(drv), cfg, szBuff, t, g, pns);
      SameCycles(drv, cfg, szBuff, c.st, c.lfsr, Inc(Inc(Inc(Inc(pns)))), ncyc - 1);
    }
  }

  /** What the code of a whole run says about its calls. */
  ghost predicate Accounts(cfg: Config, ss: nat, szBuff: nat, d: seq<Event>, ncyc: nat, code: nat)
    requires ss >= 2
  {
    if szBuff < cfg.maxSS + 4 then code == 1 && d == [] else
    && RunCalls(cfg, ss, szBuff, d, ncyc, code)
    && (code == 0 ==> Acknowledged(d) && |d| >= 12 * ncyc)
    && (Barrier(ss) > 0 ==> if Acknowledged(d) then code in {0, 4, 10, 14, 18, 24} else EndsWith(d, code, 6 + Barrier(ss)))
  }

  lemma RunAccounts(cfg: Config, ss: nat, szBuff: nat, d: seq<Event>, ncyc: nat, code: nat)
    requires ss >= 2
    requires if szBuff < cfg.maxSS + 4 then code == 1 && d == [] else RunCalls(cfg, ss, szBuff, d, ncyc, code)
    ensures Accounts(cfg, ss, szBuff, d, ncyc, code)
  {
    hide RunCalls, EndsWith, Acknowledged, Barrier;
    if szBuff >= cfg.maxSS + 4 {
      if code == 0 {
        PassMeansAcknowledged(cfg, ss, szBuff, d, ncyc);
      }
      if Barrier(ss) > 0 {
        FailureExplained(cfg, ss, szBuff, d, ncyc, code);
      }
    }
  }

  lemma SameVerdict<S(!new)>(drv: Driver<S>, cfg: Config, szBuff: nat, t: (S, seq<Event>), g: bv32, ncyc: nat)
    requires Fits(drv, cfg) && Fits(Recording(drv), cfg)
    ensures Same(Verdict(drv, cfg, szBuff, t.0, g, ncyc), Verdict(Recording(drv), cfg, szBuff, t, g, ncyc))
  {
    hide Cycles, Fits, Recording;
    SameCycles(drv, cfg, szBuff, t, g, 1, ncyc);
  }

  /**
    For every driver whatsoever: recording changes neither code nor behaviour, and the record accounts for the code.
    So 0 means that every call was acknowledged, and the code of a failing call is that of the first one.
  */
  lemma CallsAccountForCode<S(!new)>(drv: Driver<S>, cfg: Config, szBuff: nat, st: S, g: bv32, ncyc: nat) returns (d: seq<Event>)
    requires Fits(drv, cfg)
    ensures Fits(Recording(drv), cfg)
    ensures var v, r := Verdict(drv, cfg, szBuff, st, g, ncyc), Verdict(Recording(drv), cfg, szBuff, (st, []), g, ncyc);
            && r.code == v.code && r.lfsr == v.lfsr && r.st == (v.st, d)
            && Accounts(cfg, drv.sectorBytes, szBuff, d, ncyc, v.code)
  {
    RecordingFits(drv, cfg);
    RecordingRecords(drv);
    FourBytes(drv, cfg);
    hide Verdict, Fits, Records, RunCalls, Accounts, Recording;
    var log := (t: (S, seq<Event>)) => t.1;
    var none: seq<Event> := [];
    SameVerdict(drv, cfg, szBuff, (st, none), g, ncyc);
    SameRead(drv, (st, none), 0, 0);
    d := RunFollows(Recording(drv), cfg, log, szBuff, (st, none), g, ncyc);
    assert log((st, none)) + d == d;
    RunAccounts(cfg, drv.sectorBytes, szBuff, d, ncyc, Verdict(drv, cfg, szBuff, st, g, ncyc).code);
  }

  // ---- drivers that never acknowledge one kind of call ----

  ghost predicate Initializes<S(!new)>(drv: Driver<S>) {
    forall st :: drv.initialize(st).ok
  }

  ghost predicate Writable<S(!new)>(drv: Driver<S>) {
    forall st, lba: nat, ns: nat, data: seq<byte> :: drv.write(st, lba, ns, data).ok
  }

  ghost predicate Syncable<S(!new)>(drv: Driver<S>) {
    forall st :: drv.sync(st).ok
  }

  /** The code for a driver that never acknowledges one kind of call but all that come before it. */
  lemma NeverAcknowledged<S(!new)>(drv: Driver<S>, cfg: Config, szBuff: nat, st: S, g: bv32, ncyc: nat, size: nat)
    requires Fits(drv, cfg) && szBuff >= cfg.maxSS + 4 && ncyc >= 1
    ensures var code := Verdict(drv, cfg, szBuff, st, g, ncyc).code;
            && ((forall t :: !drv.initialize(t).ok) ==> code == 2)
            && (Initializes(drv) && (forall t :: !drv.sectorCount(t).ok) ==> code == 3)
            && (Initializes(drv) && (forall t :: drv.sectorCount(t).ok && drv.sectorCount(t).count < 128) ==> code == 4)
            && ((Initializes(drv) && (forall t :: drv.sectorCount(t).ok && drv.sectorCount(t).count >= 128) && cfg.minSS != cfg.maxSS
                 && (forall t :: !drv.sectorSize(t).ok)) ==> code == 5)
            && (Answers(drv, size) && size >= 128 ==>
                  && ((forall t, lba: nat, ns: nat, data: seq<byte> :: !drv.write(t, lba, ns, data).ok) ==> code == 6)
                  && (Writable(drv) && (forall t :: !drv.sync(t).ok) ==> code == 7)
                  && (Writable(drv) && Syncable(drv) && (forall t, lba: nat, ns: nat :: !drv.read(t, lba, ns).ok) ==> code == 8))
  {
    FirstCode(drv, cfg, szBuff, st, g, ncyc);
    hide Cycles, Barrier, MultiCount, Stream, Seeded, Inc, BarrierTest, Received, Verdict;
  }

  lemma FirstCode<S(!new)>(drv: Driver<S>, cfg: Config, szBuff: nat, st: S, g: bv32, ncyc: nat)
    requires Fits(drv, cfg) && szBuff >= cfg.maxSS + 4 && ncyc >= 1
    ensures Cycle(drv, cfg, szBuff, st, g, 1).code != 0 ==>
              Verdict(drv, cfg, szBuff, st, g, ncyc).code == Cycle(drv, cfg, szBuff, st, g, 1).code
  {
    hide Cycle;
  }
}
