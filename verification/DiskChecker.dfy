/**
  The low-level disk function checker (app4.c, function test_diskio).

  A driver is an arbitrary deterministic machine over an arbitrary state type, so the
  checker is specified for every disk: correct ones, broken ones, and ones that cache.
  TestDiskio is proved to compute Verdict; what Verdict says about whole classes of disks
  is proved in module DiskClasses.
*/
module DiskChecker {
  import opened Basics
  import opened LinearIteration
  import opened PatternGenerator

  datatype Reply<S> = Reply(st: S, ok: bool)
  datatype CountReply<S> = CountReply(st: S, ok: bool, count: nat)
  datatype DataReply<S> = DataReply(st: S, ok: bool, data: seq<byte>)

  /**
    The disk functions of diskio.h.  ok stands for RES_OK, and for initialize for a clear
    STA_NOINIT bit.  A read that reports success may still transfer fewer bytes than asked.
  */
  datatype Driver<!S> = Driver(
    sectorBytes: nat,
    initialize: S -> Reply<S>,
    sectorCount: S -> CountReply<S>,
    sectorSize: S -> Reply<S>,
    blockSize: S -> Reply<S>,
    sync: S -> Reply<S>,
    write: (S, nat, nat, seq<byte>) -> Reply<S>,
    read: (S, nat, nat) -> DataReply<S>)

  /** The sector size range the checker is compiled for. */
  datatype Config = Config(minSS: nat, maxSS: nat)

  ghost predicate Fits<S(!new)>(drv: Driver<S>, cfg: Config) {
    && 4 <= cfg.minSS <= drv.sectorBytes <= cfg.maxSS
    && forall st, lba: nat, ns: nat :: |drv.read(st, lba, ns).data| <= ns * drv.sectorBytes
  }

  lemma FourBytes<S(!new)>(drv: Driver<S>, cfg: Config)
    requires Fits(drv, cfg)
    ensures drv.sectorBytes >= 4
  {
  }

  class Disk<S> {
    const drv: Driver<S>
    var st: S

    constructor (drv: Driver<S>, st: S)
      ensures this.drv == drv && this.st == st
    {
      this.drv, this.st := drv, st;
    }

    method Write(buff: array<byte>, ofs: nat, lba: nat, ns: nat) returns (ok: bool)
      requires ofs + ns * drv.sectorBytes <= buff.Length
      modifies this
      ensures Reply(st, ok) == drv.write(old(st), lba, ns, buff[ofs..ofs + ns * drv.sectorBytes])
    {
      var r := drv.write(st, lba, ns, buff[ofs..ofs + ns * drv.sectorBytes]);
      st, ok := r.st, r.ok;
    }

    method Read(buff: array<byte>, ofs: nat, lba: nat, ns: nat) returns (ok: bool)
      requires |drv.read(st, lba, ns).data| <= ns * drv.sectorBytes
      requires ofs + ns * drv.sectorBytes <= buff.Length
      modifies this, buff
      ensures st == drv.read(old(st), lba, ns).st && ok == drv.read(old(st), lba, ns).ok
      ensures buff[..] == Overlay(old(buff[..]), ofs, drv.read(old(st), lba, ns).data)
    {
      var r := drv.read(st, lba, ns);
      st, ok := r.st, r.ok;
      forall i | 0 <= i < |r.data| {
        buff[ofs + i] := r.data[i];
      }
    }
  }

  function Overlay<T>(s: seq<T>, ofs: nat, t: seq<T>): (r: seq<T>)
    requires ofs + |t| <= |s|
    ensures |r| == |s|
  {
    s[..ofs] + t + s[ofs + |t|..]
  }

  lemma OverlayHead<T>(s: seq<T>, t: seq<T>)
    requires |t| <= |s|
    ensures Overlay(s, 0, t)[..|t|] == t
  {
  }

  // ---- what the checker computes ----

  /** code 0 means the test went through; lfsr is the generator's register afterwards. */
  datatype Outcome<S> = Outcome(code: nat, st: S, lfsr: bv32)

  /** The error codes of one write, sync, read back and compare test. */
  datatype Codes = Codes(write: nat, sync: nat, read: nat, compare: nat)

  const SINGLE := Codes(6, 7, 8, 10)
  const MULTI := Codes(11, 12, 13, 14)
  const MISALIGNED := Codes(15, 16, 17, 18)

  /** What the zeroed read buffer holds after a read. */
  function Received(data: seq<byte>, n: nat): seq<byte>
    requires |data| <= n
  {
    data + Zeros(n - |data|)
  }

  ghost function SectorTest<S(!new)>(drv: Driver<S>, cfg: Config, st: S, g: bv32, pns: DWORD, lba: nat, ns: nat, codes: Codes)
    : Outcome<S>
    requires Fits(drv, cfg)
  {
    var n := ns * drv.sectorBytes;
    var g1 := Seeded(g, pns);
    var w := drv.write(st, lba, ns, Stream(g1, n));
    if !w.ok then Outcome(codes.write, w.st, g1) else
    var s := drv.sync(w.st);
    if !s.ok then Outcome(codes.sync, s.st, g1) else
    var r := drv.read(s.st, lba, ns);
    if !r.ok then Outcome(codes.read, r.st, g1) else
    var g2 := Seeded(Iter(g1, n), pns);
    if Received(r.data, n) != Stream(g2, n) then Outcome(codes.compare, r.st, g2) else
    Outcome(0, r.st, Iter(g2, n))
  }

  /** How far apart the two sectors of the 4GB barrier test are. */
  function Barrier(sectorBytes: nat): nat
    requires sectorBytes >= 2
  {
    0x8000_0000 / (sectorBytes / 2)
  }

  /** The two sectors are 4GB apart, as nearly as whole sectors can be. */
  lemma BarrierDistance(sectorBytes: nat)
    requires sectorBytes >= 2 && sectorBytes % 2 == 0
    ensures Barrier(sectorBytes) * sectorBytes <= 0x1_0000_0000 < (Barrier(sectorBytes) + 1) * sectorBytes
    ensures 0x1_0000_0000 % sectorBytes == 0 <==> Barrier(sectorBytes) * sectorBytes == 0x1_0000_0000
  {
    var h, b := sectorBytes / 2, Barrier(sectorBytes);
    Quotient(0x8000_0000, h, b);
    assert sectorBytes == 2 * h;
    assert b * sectorBytes == 2 * (b * h) && (b + 1) * sectorBytes == 2 * ((b + 1) * h);
    Quotient(0x1_0000_0000, sectorBytes, b);
  }

  ghost function BarrierTest<S(!new)>(drv: Driver<S>, cfg: Config, st: S, g: bv32, pns: DWORD): Outcome<S>
    requires Fits(drv, cfg)
  {
    var ss := drv.sectorBytes;
    var lba2 := 6 + Barrier(ss);
    var g1 := Seeded(g, pns);
    var w1 := drv.write(st, 6, 1, Stream(g1, 2 * ss)[..ss]);
    if !w1.ok then Outcome(19, w1.st, g1) else
    var w2 := drv.write(w1.st, lba2, 1, Stream(g1, 2 * ss)[ss..]);
    if !w2.ok then Outcome(20, w2.st, g1) else
    var s := drv.sync(w2.st);
    if !s.ok then Outcome(21, s.st, g1) else
    var r1 := drv.read(s.st, 6, 1);
    if !r1.ok then Outcome(22, r1.st, g1) else
    var r2 := drv.read(r1.st, lba2, 1);
    if !r2.ok then Outcome(23, r2.st, g1) else
    var g2 := Seeded(Iter(g1, 2 * ss), pns);
    if Received(r1.data, ss) + Received(r2.data, ss) != Stream(g2, 2 * ss) then Outcome(24, r2.st, g2) else
    Outcome(0, r2.st, Iter(g2, 2 * ss + 1))
  }

  function MultiCount(szBuff: nat, sectorBytes: nat): nat
    requires sectorBytes > 0
  {
    if szBuff / sectorBytes > 4 then 4 else szBuff / sectorBytes
  }

  /** As many sectors as fit into the buffer, but four at most. */
  lemma MultiCountLargest(szBuff: nat, sectorBytes: nat)
    requires sectorBytes > 0
    ensures var m := MultiCount(szBuff, sectorBytes);
            m <= 4 && m * sectorBytes <= szBuff && (m < 4 ==> szBuff < (m + 1) * sectorBytes)
  {
    var q := szBuff / sectorBytes;
    Quotient(szBuff, sectorBytes, q);
    MulMonotone(4, q, sectorBytes);
  }

  ghost function Cycle<S(!new)>(drv: Driver<S>, cfg: Config, szBuff: nat, st: S, g: bv32, pns: DWORD): Outcome<S>
    requires Fits(drv, cfg)
  {
    var init := drv.initialize(st);
    if !init.ok then Outcome(2, init.st, g) else
    var cnt := drv.sectorCount(init.st);
    if !cnt.ok then Outcome(3, cnt.st, g) else
    if cnt.count < 128 then Outcome(4, cnt.st, g) else
    var size := if cfg.maxSS != cfg.minSS then drv.sectorSize(cnt.st) else Reply(cnt.st, true);
    if !size.ok then Outcome(5, size.st, g) else
    var blk := drv.blockSize(size.st);
    var ss := drv.sectorBytes;
    var t1 := SectorTest(drv, cfg, blk.st, g, pns, 0, 1, SINGLE);
    if t1.code != 0 then t1 else
    var t2 := SectorTest(drv, cfg, t1.st, t1.lfsr, Inc(pns), 1, MultiCount(szBuff, ss), MULTI);
    if t2.code != 0 then t2 else
    var t3 := SectorTest(drv, cfg, t2.st, t2.lfsr, Inc(Inc(pns)), 5, 1, MISALIGNED);
    if t3.code != 0 then t3 else
    if cnt.count >= 128 + Barrier(ss) then BarrierTest(drv, cfg, t3.st, t3.lfsr, Inc(Inc(Inc(pns)))) else t3
  }

  /** The whole run: cycles with consecutive seeds until one fails or all are done. */
  ghost function Cycles<S(!new)>(drv: Driver<S>, cfg: Config, szBuff: nat, st: S, g: bv32, pns: DWORD, ncyc: nat): Outcome<S>
    requires Fits(drv, cfg)
    decreases ncyc
  {
    if ncyc == 0 then Outcome(0, st, g) else
    var c := Cycle(drv, cfg, szBuff, st, g, pns);
    if c.code != 0 then c else
    Cycles(drv, cfg, szBuff, c.st, c.lfsr, Inc(Inc(Inc(Inc(pns)))), ncyc - 1)
  }

  ghost function Verdict<S(!new)>(drv: Driver<S>, cfg: Config, szBuff: nat, st: S, g: bv32, ncyc: nat): Outcome<S>
    requires Fits(drv, cfg)
  {
    if szBuff < cfg.maxSS + 4 then Outcome(1, st, g) else Cycles(drv, cfg, szBuff, st, g, 1, ncyc)
  }

  // ---- what the checker touches of its buffer ----

  /**
    One more than the highest buffer offset that a test touches: it fills and writes at wofs, and once
    the data is synchronized it clears, reads and compares at rofs.
  */
  ghost function SectorTouch<S(!new)>(drv: Driver<S>, cfg: Config, st: S, g: bv32, pns: DWORD,
                                      wofs: nat, rofs: nat, lba: nat, ns: nat): nat
    requires Fits(drv, cfg)
  {
    var n := ns * drv.sectorBytes;
    var w := drv.write(st, lba, ns, Stream(Seeded(g, pns), n));
    if w.ok && drv.sync(w.st).ok then Max(wofs, rofs) + n else wofs + n
  }

  /** The compare loop of the barrier test looks at the byte after the two sectors if they match. */
  ghost function BarrierTouch<S(!new)>(drv: Driver<S>, cfg: Config, st: S, g: bv32, pns: DWORD): nat
    requires Fits(drv, cfg)
  {
    if BarrierTest(drv, cfg, st, g, pns).code == 0 then 2 * drv.sectorBytes + 1 else 2 * drv.sectorBytes
  }

  ghost function CycleTouch<S(!new)>(drv: Driver<S>, cfg: Config, szBuff: nat, st: S, g: bv32, pns: DWORD): nat
    requires Fits(drv, cfg)
  {
    var init := drv.initialize(st);
    if !init.ok then 0 else
    var cnt := drv.sectorCount(init.st);
    if !cnt.ok || cnt.count < 128 then 0 else
    var size := if cfg.maxSS != cfg.minSS then drv.sectorSize(cnt.st) else Reply(cnt.st, true);
    if !size.ok then 0 else
    var st0 := drv.blockSize(size.st).st;
    var ss := drv.sectorBytes;
    var ns := MultiCount(szBuff, ss);
    var t1 := SectorTest(drv, cfg, st0, g, pns, 0, 1, SINGLE);
    var n1 := SectorTouch(drv, cfg, st0, g, pns, 0, 0, 0, 1);
    if t1.code != 0 then n1 else
    var t2 := SectorTest(drv, cfg, t1.st, t1.lfsr, Inc(pns), 1, ns, MULTI);
    var n2 := Max(n1, SectorTouch(drv, cfg, t1.st, t1.lfsr, Inc(pns), 0, 0, 1, ns));
    if t2.code != 0 then n2 else
    var t3 := SectorTest(drv, cfg, t2.st, t2.lfsr, Inc(Inc(pns)), 5, 1, MISALIGNED);
    var n3 := Max(n2, SectorTouch(drv, cfg, t2.st, t2.lfsr, Inc(Inc(pns)), 3, 5, 5, 1));
    if t3.code != 0 || cnt.count < 128 + Barrier(ss) then n3 else
    Max(n3, BarrierTouch(drv, cfg, t3.st, t3.lfsr, Inc(Inc(Inc(pns)))))
  }

  ghost function CyclesTouch<S(!new)>(drv: Driver<S>, cfg: Config, szBuff: nat, st: S, g: bv32, pns: DWORD, ncyc: nat): nat
    requires Fits(drv, cfg)
    decreases ncyc
  {
    if ncyc == 0 then 0 else
    var c := Cycle(drv, cfg, szBuff, st, g, pns);
    var n := CycleTouch(drv, cfg, szBuff, st, g, pns);
    if c.code != 0 then n else
    Max(n, CyclesTouch(drv, cfg, szBuff, c.st, c.lfsr, Inc(Inc(Inc(Inc(pns)))), ncyc - 1))
  }

  /** One more than the highest buffer offset that a whole run touches. */
  ghost function Touched<S(!new)>(drv: Driver<S>, cfg: Config, szBuff: nat, st: S, g: bv32, ncyc: nat): nat
    requires Fits(drv, cfg)
  {
    if szBuff < cfg.maxSS + 4 then 0 else CyclesTouch(drv, cfg, szBuff, st, g, 1, ncyc)
  }

  // ---- the checker itself ----

  lemma StreamAt(g: bv32, len: nat, n: nat)
    requires n < len
    ensures Stream(g, len)[n] == Low(Iter(g, n + 1))
    ensures Iter(g, n + 1) == Seeded(Iter(g, n), 0)
  {
  }

  /** The fill loops: pbuff[ofs..ofs+len] becomes the generator's stream. */
  method Fill(gen: Pn, buff: array<byte>, ofs: nat, len: nat, pns: DWORD)
    requires ofs + len <= buff.Length
    modifies gen, buff
    ensures buff[..] == Overlay(old(buff[..]), ofs, Stream(Seeded(old(gen.lfsr), pns), len))
    ensures gen.lfsr == Iter(Seeded(old(gen.lfsr), pns), len)
  {
    hide Step, Low, Stream;
    var n := 0;
    var _ := gen.Next(pns);
    ghost var g := gen.lfsr;
    while n < len
      invariant n <= len
      invariant gen.lfsr == Iter(g, n)
      invariant forall i :: 0 <= i < n ==> buff[ofs + i] == Stream(g, len)[i]
      invariant forall i :: 0 <= i < ofs || ofs + n <= i < buff.Length ==> buff[i] == old(buff[i])
    {
      var r := gen.Next(0);
      StreamAt(g, len, n);
      buff[ofs + n] := Low(r);
      n := n + 1;
    }
    OverlayMade(old(buff[..]), buff[..], ofs, Stream(g, len));
  }

  lemma OverlayMade<T>(was: seq<T>, now: seq<T>, ofs: nat, t: seq<T>)
    requires |now| == |was| && ofs + |t| <= |was|
    requires forall i :: 0 <= i < |t| ==> now[ofs + i] == t[i]
    requires forall i :: 0 <= i < ofs || ofs + |t| <= i < |was| ==> now[i] == was[i]
    ensures now == Overlay(was, ofs, t)
  {
  }

  /** The compare loops: stop at the first byte that is not the generator's. */
  method Compare(gen: Pn, buff: array<byte>, ofs: nat, len: nat, pns: DWORD) returns (n: nat)
    requires ofs + len <= buff.Length
    modifies gen
    ensures n == len <==> buff[ofs..ofs + len] == Stream(Seeded(old(gen.lfsr), pns), len)
    ensures n == len ==> gen.lfsr == Iter(Seeded(old(gen.lfsr), pns), len)
  {
    hide Step, Low, Stream;
    n := 0;
    var _ := gen.Next(pns);
    ghost var g := gen.lfsr;
    while n < len
      invariant n <= len
      invariant gen.lfsr == Iter(g, n)
      invariant forall i :: 0 <= i < n ==> buff[ofs + i] == Stream(g, len)[i]
    {
      var r := gen.Next(0);
      StreamAt(g, len, n);
      if buff[ofs + n] != Low(r) {
        assert buff[ofs..ofs + len][n] != Stream(g, len)[n];
        return;
      }
      n := n + 1;
    }
  }

  /** The barrier test's compare loop draws from the generator before it looks at the bound. */
  method CompareEager(gen: Pn, buff: array<byte>, len: nat, pns: DWORD) returns (n: nat)
    requires len <= buff.Length
    requires buff[..len] == Stream(Seeded(gen.lfsr, pns), len) ==> len < buff.Length
    modifies gen
    ensures n == len <==> buff[..len] == Stream(Seeded(old(gen.lfsr), pns), len)
    ensures n == len ==> gen.lfsr == Iter(Seeded(old(gen.lfsr), pns), len + 1)
  {
    hide Step, Low, Stream;
    n := 0;
    var _ := gen.Next(pns);
    ghost var g := gen.lfsr;
    while true
      invariant n <= len
      invariant gen.lfsr == Iter(g, n)
      invariant forall i :: 0 <= i < n ==> buff[i] == Stream(g, len)[i]
      decreases len - n
    {
      var r := gen.Next(0);
      StreamAt(g, len + 1, n);
      if n < len {
        StreamAt(g, len, n);
      } else {
        assert buff[..len] == Stream(g, len);
      }
      if !(buff[n] == Low(r) && n < len) {
        assert n < len ==> buff[..len][n] != Stream(g, len)[n];
        return;
      }
      n := n + 1;
    }
  }

  method Clear(buff: array<byte>, ofs: nat, len: nat)
    requires ofs + len <= buff.Length
    modifies buff
    ensures buff[..] == Overlay(old(buff[..]), ofs, Zeros(len))
  {
    forall i | 0 <= i < len {
      buff[ofs + i] := 0;
    }
  }

  /**
    One write, sync, read back and compare test.  The data is written from wofs and read back
    at rofs, which differ in the misaligned test.
  */
  method TestSectors<S(!new)>(disk: Disk<S>, cfg: Config, gen: Pn, buff: array<byte>, pns: DWORD,
                              wofs: nat, rofs: nat, lba: nat, ns: nat, codes: Codes) returns (rc: nat)
    requires Fits(disk.drv, cfg)
    requires SectorTouch(disk.drv, cfg, disk.st, gen.lfsr, pns, wofs, rofs, lba, ns) <= buff.Length
    requires codes.write != 0 && codes.sync != 0 && codes.read != 0 && codes.compare != 0
    modifies disk, gen, buff
    ensures var o := SectorTest(disk.drv, cfg, old(disk.st), old(gen.lfsr), pns, lba, ns, codes);
            rc == o.code && disk.st == o.st && (rc == 0 ==> gen.lfsr == o.lfsr)
  {
    var len := ns * disk.drv.sectorBytes;
    Fill(gen, buff, wofs, len, pns);
    assert buff[wofs..wofs + len] == Stream(Seeded(old(gen.lfsr), pns), len);
    var dr := disk.Write(buff, wofs, lba, ns);
    if !dr {
      return codes.write;
    }
    var s := disk.drv.sync(disk.st);
    disk.st := s.st;
    if !s.ok {
      return codes.sync;
    }
    label Zeroed:
    Clear(buff, rofs, len);
    ghost var data := disk.drv.read(disk.st, lba, ns).data;
    dr := disk.Read(buff, rofs, lba, ns);
    if !dr {
      return codes.read;
    }
    OverlayTwice(old@Zeroed(buff[..]), rofs, data, len);
    assert buff[rofs..rofs + len] == Received(data, len);
    var n := Compare(gen, buff, rofs, len, pns);
    return if n == len then 0 else codes.compare;
  }

  lemma PairReceived(s: seq<byte>, data1: seq<byte>, data2: seq<byte>, n: nat)
    requires |data1| <= n && |data2| <= n && 2 * n <= |s|
    ensures Overlay(Overlay(Overlay(s, 0, Zeros(2 * n)), 0, data1), n, data2)[..2 * n]
         == Received(data1, n) + Received(data2, n)
  {
    OverlayTwice(s, 0, data1, n);
    var t := Overlay(Overlay(s, 0, Zeros(2 * n)), 0, data1);
    var u := Overlay(t, n, data2);
    forall i | 0 <= i < 2 * n
      ensures u[i] == (Received(data1, n) + Received(data2, n))[i]
    {
    }
  }

  /** The write half of the barrier test. */
  method WritePair<S>(disk: Disk<S>, buff: array<byte>, lba: nat, lba2: nat) returns (rc: nat)
    requires 2 * disk.drv.sectorBytes <= buff.Length
    modifies disk
    ensures var ss := disk.drv.sectorBytes;
            var w1 := disk.drv.write(old(disk.st), lba, 1, buff[..2 * ss][..ss]);
            var w2 := disk.drv.write(w1.st, lba2, 1, buff[..2 * ss][ss..]);
            if !w1.ok then rc == 19 && disk.st == w1.st
            else if !w2.ok then rc == 20 && disk.st == w2.st
            else rc == 0 && disk.st == w2.st
  {
    var ss := disk.drv.sectorBytes;
    assert 1 * ss == ss;
    assert buff[0..0 + ss] == buff[..2 * ss][..ss];
    assert buff[ss..ss + ss] == buff[..2 * ss][ss..];
    var dr := disk.Write(buff, 0, lba, 1);
    if !dr {
      return 19;
    }
    dr := disk.Write(buff, ss, lba2, 1);
    return if dr then 0 else 20;
  }

  /** The read-back half of the barrier test: both sectors are read over a cleared area of the buffer. */
  method ReadPair<S(!new)>(disk: Disk<S>, cfg: Config, buff: array<byte>, lba: nat, lba2: nat) returns (rc: nat)
    requires Fits(disk.drv, cfg)
    requires 2 * disk.drv.sectorBytes <= buff.Length
    modifies disk, buff
    ensures var r1 := disk.drv.read(old(disk.st), lba, 1);
            var r2 := disk.drv.read(r1.st, lba2, 1);
            var ss := disk.drv.sectorBytes;
            if !r1.ok then rc == 22 && disk.st == r1.st
            else if !r2.ok then rc == 23 && disk.st == r2.st
            else && rc == 0 && disk.st == r2.st
                 && |r1.data| <= ss && |r2.data| <= ss
                 && buff[..2 * ss] == Received(r1.data, ss) + Received(r2.data, ss)
  {
    var ss := disk.drv.sectorBytes;
    ghost var data1 := disk.drv.read(disk.st, lba, 1).data;
    ghost var data2 := disk.drv.read(disk.drv.read(disk.st, lba, 1).st, lba2, 1).data;
    assert |data1| <= 1 * ss && |data2| <= 1 * ss;
    Clear(buff, 0, ss * 2);
    var dr := disk.Read(buff, 0, lba, 1);
    if !dr {
      return 22;
    }
    dr := disk.Read(buff, ss, lba2, 1);
    if !dr {
      return 23;
    }
    PairReceived(old(buff[..]), data1, data2, ss);
    return 0;
  }

  lemma BarrierRoom<S(!new)>(drv: Driver<S>, cfg: Config, st: S, g: bv32, pns: DWORD)
    requires Fits(drv, cfg)
    ensures var n := BarrierTouch(drv, cfg, st, g, pns);
            2 * drv.sectorBytes <= n && (BarrierTest(drv, cfg, st, g, pns).code == 0 ==> 2 * drv.sectorBytes < n)
  {
    hide BarrierTest;
  }

  /** The 4GB barrier test. */
  method TestBarrier<S(!new)>(disk: Disk<S>, cfg: Config, gen: Pn, buff: array<byte>, pns: DWORD) returns (rc: nat)
    requires Fits(disk.drv, cfg)
    requires BarrierTouch(disk.drv, cfg, disk.st, gen.lfsr, pns) <= buff.Length
    modifies disk, gen, buff
    ensures var o := BarrierTest(disk.drv, cfg, old(disk.st), old(gen.lfsr), pns);
            rc == o.code && disk.st == o.st && (rc == 0 ==> gen.lfsr == o.lfsr)
  {
    hide Seeded, Iterate, Stream, Barrier, Overlay, Received, Zeros, BarrierTouch;
    BarrierRoom(disk.drv, cfg, disk.st, gen.lfsr, pns);
    var ss := disk.drv.sectorBytes;
    var lba := 6;
    var lba2 := lba + Barrier(ss);
    Fill(gen, buff, 0, ss * 2, pns);
    OverlayHead(old(buff[..]), Stream(Seeded(old(gen.lfsr), pns), 2 * ss));
    assert buff[..2 * ss] == buff[..][..2 * ss];
    rc := WritePair(disk, buff, lba, lba2);
    if rc != 0 {
      return;
    }
    var s := disk.drv.sync(disk.st);
    disk.st := s.st;
    if !s.ok {
      return 21;
    }
    rc := ReadPair(disk, cfg, buff, lba, lba2);
    if rc == 0 {
      var n := CompareEager(gen, buff, ss * 2, pns);
      rc := if n == ss * 2 then 0 else 24;
    }
  }

  /**
    test_diskio.  The buffer must hold what this very run touches, which the size guard does not see to;
    BufferSuffices in module DiskClasses says when it does.  (At the largest 32-bit ncyc the cycle counter
    wraps before it can exceed ncyc.)
  */
  method TestDiskio<S(!new)>(disk: Disk<S>, cfg: Config, gen: Pn, ncyc: nat, buff: array<byte>) returns (rc: nat)
    requires Fits(disk.drv, cfg)
    requires ncyc < 0xFFFF_FFFF
    requires Touched(disk.drv, cfg, buff.Length, disk.st, gen.lfsr, ncyc) <= buff.Length
    modifies disk, gen, buff
    ensures var o := Verdict(disk.drv, cfg, buff.Length, old(disk.st), old(gen.lfsr), ncyc);
            rc == o.code && disk.st == o.st
  {
    hide Cycle, CycleTouch, Fits;
    var szBuff := buff.Length;
    if szBuff < cfg.maxSS + 4 {
      return 1;
    }
    var pns: DWORD := 1;
    var cc := 1;
    while cc <= ncyc
      invariant cc <= ncyc + 1
      invariant Cycles(disk.drv, cfg, szBuff, disk.st, gen.lfsr, pns, ncyc + 1 - cc)
             == Cycles(disk.drv, cfg, szBuff, old(disk.st), old(gen.lfsr), 1, ncyc)
      invariant CyclesTouch(disk.drv, cfg, szBuff, disk.st, gen.lfsr, pns, ncyc + 1 - cc) <= szBuff
    {
      rc := TestCycle(disk, cfg, gen, pns, buff);
      if rc != 0 {
        return;
      }
      pns := Inc(Inc(Inc(Inc(pns))));
      cc := cc + 1;
    }
    return 0;
  }

  /** Reading into a cleared region. */
  lemma OverlayTwice(s: seq<byte>, ofs: nat, data: seq<byte>, n: nat)
    requires |data| <= n && ofs + n <= |s|
    ensures Overlay(Overlay(s, ofs, Zeros(n)), ofs, data) == Overlay(s, ofs, Received(data, n))
  {
  }

  /** The body of the cycle loop; pns is advanced after each of the four tests. */
  method TestCycle<S(!new)>(disk: Disk<S>, cfg: Config, gen: Pn, seed: DWORD, buff: array<byte>) returns (rc: nat)
    requires Fits(disk.drv, cfg)
    requires CycleTouch(disk.drv, cfg, buff.Length, disk.st, gen.lfsr, seed) <= buff.Length
    modifies disk, gen, buff
    ensures var o := Cycle(disk.drv, cfg, buff.Length, old(disk.st), old(gen.lfsr), seed);
            rc == o.code && disk.st == o.st && (rc == 0 ==> gen.lfsr == o.lfsr)
  {
    hide SectorTest, SectorTouch, BarrierTest, BarrierTouch, Barrier, Stream;
    var pns := seed;
    var init := disk.drv.initialize(disk.st);
    disk.st := init.st;
    if !init.ok {
      return 2;
    }
    var cnt := disk.drv.sectorCount(disk.st);
    disk.st := cnt.st;
    if !cnt.ok {
      return 3;
    }
    var szDrv := cnt.count;
    if szDrv < 128 {
      return 4;
    }
    var szSect := cfg.maxSS;
    if cfg.maxSS != cfg.minSS {
      var size := disk.drv.sectorSize(disk.st);
      disk.st := size.st;
      if !size.ok {
        return 5;
      }
      szSect := disk.drv.sectorBytes;
    }
    var blk := disk.drv.blockSize(disk.st);
    disk.st := blk.st;

    rc := TestSectors(disk, cfg, gen, buff, pns, 0, 0, 0, 1, SINGLE);
    if rc != 0 {
      return;
    }
    pns := Inc(pns);

    var ns := buff.Length / szSect;
    if ns > 4 {
      ns := 4;
    }
    CountFits(buff.Length, szSect);
    rc := TestSectors(disk, cfg, gen, buff, pns, 0, 0, 1, ns, MULTI);
    if rc != 0 {
      return;
    }
    pns := Inc(pns);

    rc := TestSectors(disk, cfg, gen, buff, pns, 3, 5, 5, 1, MISALIGNED);
    if rc != 0 {
      return;
    }
    pns := Inc(pns);

    if szDrv >= 128 + Barrier(szSect) {
      rc := TestBarrier(disk, cfg, gen, buff, pns);
    }
  }

  lemma CountFits(szBuff: nat, ss: nat)
    requires ss > 0
    ensures MultiCount(szBuff, ss) * ss <= szBuff
  {
    var q := szBuff / ss;
    assert q * ss <= szBuff;
    if q > 4 {
      assert 4 * ss <= q * ss;
    }
  }
}
