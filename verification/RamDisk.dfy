/**
  A disk in memory behind any address decoder.  It shows that routed disks exist for every sector size and
  decoder, and supplies a run that leaves the buffer which the size guard of the checker has let through.
*/
module RamDisk {
  import opened Basics
  import opened PatternGenerator
  import opened DiskChecker
  import opened DiskClasses

  type Medium = imap<nat, seq<byte>>

  /** A cell that was never written, or has no sector's length, reads as zeros. */
  ghost function Cell(ss: nat): (Medium, nat) -> seq<byte> {
    (m: Medium, c: nat) => if c in m && |m[c]| == ss then m[c] else Zeros(ss)
  }

  ghost function Written(ss: nat, route: nat -> nat, m: Medium, lba: nat, ns: nat, data: seq<byte>): Medium
    requires |data| == ns * ss
  {
    imap c: nat | true :: Stored(Cell(ss)(m, c), route, ss, lba, ns, data, c)
  }

  ghost function Ram(ss: nat, size: nat, route: nat -> nat): Driver<Medium> {
    Driver(ss,
      m => Reply(m, true),
      m => CountReply(m, true, size),
      m => Reply(m, true),
      m => Reply(m, true),
      m => Reply(m, true),
      (m: Medium, lba: nat, ns: nat, data: seq<byte>) =>
        if |data| == ns * ss then Reply(Written(ss, route, m, lba, ns, data), true) else Reply(m, false),
      (m: Medium, lba: nat, ns: nat) => DataReply(m, true, Gathered(Cell(ss), m, route, lba, ns)))
  }

  lemma {:induction false} StoredLength(old_: seq<byte>, route: nat -> nat, ss: nat, lba: nat, ns: nat, data: seq<byte>, c: nat)
    requires ns * ss <= |data| && |old_| == ss
    ensures |Stored(old_, route, ss, lba, ns, data, c)| == ss
    decreases ns
  {
    if ns > 0 {
      PartFits(ss, ns - 1, ns);
      StoredLength(old_, route, ss, lba, ns - 1, data, c);
    }
  }

  /** Every sector size and every decoder has a routed disk. */
  lemma RamIsRouted(ss: nat, size: nat, route: nat -> nat)
    requires size >= 128
    ensures Routed(Ram(ss, size, route), Cell(ss), route, size)
    ensures forall m, lba: nat, ns: nat :: |Ram(ss, size, route).read(m, lba, ns).data| == ns * ss
  {
    hide Gathered, Stored;
    var drv, cell := Ram(ss, size, route), Cell(ss);
    forall m: Medium, lba: nat, ns: nat, data: seq<byte>, c: nat | |data| == ns * ss
      ensures cell(drv.write(m, lba, ns, data).st, c) == Stored(cell(m, c), route, ss, lba, ns, data, c)
    {
      StoredLength(cell(m, c), route, ss, lba, ns, data, c);
    }
    forall m: Medium, lba: nat, ns: nat
      ensures |drv.read(m, lba, ns).data| == ns * ss
    {
      GatheredLength(cell, m, route, ss, lba, ns);
    }
  }

  /**
    Compiled for sectors of 512 bytes, the checker accepts a buffer of 516 bytes; on a correct disk of 128
    such sectors it then reads at offset 5 and touches the byte at offset 516.
  */
  lemma GuardTooWeak(m: Medium, g: bv32)
    ensures var drv, cfg := Ram(512, 128, lba => lba), Config(512, 512);
            Fits(drv, cfg) && 516 >= cfg.maxSS + 4 && Touched(drv, cfg, 516, m, g, 1) > 516
  {
    hide Routed, Touched, Cell, RoutedCode;
    var drv, cfg := Ram(512, 128, lba => lba), Config(512, 512);
    RamIsRouted(512, 128, lba => lba);
    IdealCode(128, 516, 512);
    BufferSuffices(drv, cfg, Cell(512), lba => lba, 128, 9, 516, m, g, 1);
  }
}
