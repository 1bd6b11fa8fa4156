/**
  Allocating a contiguous area to a file (app3.c), together with the file operations of FatFs
  it steers: seeking, truncating, and stretching the chain from a chosen starting point.
*/
module ContiguousFile {
  import opened FatVolume

  /** An open file.  Of its sector buffer only whether it still has to be written matters here. */
  class Fil {
    const fs: Fs
    const writable: bool
    var fsize: nat
    var sclust: nat
    var fptr: nat
    var clust: nat
    var err: FResult
    var dirty: bool

    constructor (fs: Fs, writable: bool, fsize: nat, sclust: nat)
      ensures this.fs == fs && this.writable == writable && this.fsize == fsize && this.sclust == sclust
      ensures fptr == 0 && err == Ok && !dirty
    {
      this.fs, this.writable, this.fsize, this.sclust := fs, writable, fsize, sclust;
      fptr, clust, err, dirty := 0, 0, Ok, false;
    }

    /** The file's size and chain belong together: cs is its chain, empty for an empty file. */
    ghost predicate Holds(cs: seq<nat>)
      reads this, fs
    {
      && (fsize == 0 <==> cs == [])
      && if cs == [] then sclust == 0 else IsChain(fs.fat, cs) && sclust == cs[0]
    }
  }

  // ---- contiguity of an existing chain ----

  datatype Layout = Contiguous | Fragmented | Corrupt

  /** How the check loop leaves when started at cluster c with left clusters to see. */
  function Walk(fat: seq<nat>, c: nat, left: nat): Layout
    requires left >= 1
    decreases left
  {
    var cl := GetFat(fat, c);
    if (cl + 1) % 0x1_0000_0000 < 3 then Corrupt
    else if cl != c + 1 && cl < |fat| then Fragmented
    else if left == 1 then Contiguous
    else Walk(fat, cl, left - 1)
  }

  /**
    What the check finds.  The loop body runs at least once; asked for zero clusters it has counted
    one when it leaves at the bottom and none when it leaves at a jump.
  */
  function Check(fat: seq<nat>, c: nat, tcl: nat): Layout {
    if tcl > 0 then Walk(fat, c, tcl) else
    match Walk(fat, c, 1)
    case Corrupt => Corrupt
    case Fragmented => Contiguous
    case Contiguous => Fragmented
  }

  /** The n links from cluster s on lead to s + 1, ..., s + n. */
  ghost predicate Steps(fat: seq<nat>, s: nat, n: nat) {
    s >= 2 && s + n < |fat| && forall c :: s <= c < s + n ==> fat[c] == c + 1
  }

  /** A usable link that neither goes on to c + 1 nor ends the chain. */
  ghost predicate Jumps(fat: seq<nat>, c: nat) {
    2 <= c < |fat| && 2 <= fat[c] < |fat| && fat[c] != c + 1
  }

  /** A link that goes on to c + 1 or ends the chain. */
  ghost predicate Closes(fat: seq<nat>, c: nat) {
    2 <= c < |fat| && (fat[c] == c + 1 || fat[c] >= |fat|) && fat[c] < DISK_ERROR
  }

  lemma {:induction false} WalkContiguous(fat: seq<nat>, s: nat, t: nat)
    requires FatOk(fat) && t >= 1
    ensures Walk(fat, s, t) == Contiguous <==> Steps(fat, s, t - 1) && Closes(fat, s + t - 1)
    decreases t
  {
    if t > 1 && 2 <= s < |fat| {
      if fat[s] == s + 1 {
        WalkContiguous(fat, s + 1, t - 1);
      } else {
        if fat[s] >= |fat| {
          assert Walk(fat, fat[s], t - 1) == Corrupt;
        }
      }
    }
  }

  lemma {:induction false} FirstJump(fat: seq<nat>, s: nat, t: nat) returns (k: nat)
    requires FatOk(fat) && t >= 1 && Walk(fat, s, t) == Fragmented
    ensures k < t && Steps(fat, s, k) && Jumps(fat, s + k)
    decreases t
  {
    k := 0;
    if !Jumps(fat, s) {
      var m := FirstJump(fat, s + 1, t - 1);
      k := m + 1;
    }
  }

  lemma {:induction false} JumpFragments(fat: seq<nat>, s: nat, t: nat, k: nat)
    requires FatOk(fat) && k < t && Steps(fat, s, k) && Jumps(fat, s + k)
    ensures Walk(fat, s, t) == Fragmented
    decreases t
  {
    if k > 0 {
      assert fat[s] == s + 1;
      JumpFragments(fat, s + 1, t - 1, k - 1);
    }
  }

  /** The check goes on to reallocation exactly when consecutive links lead to a jump within the first t. */
  lemma WalkFragmented(fat: seq<nat>, s: nat, t: nat)
    requires FatOk(fat) && t >= 1
    ensures Walk(fat, s, t) == Fragmented <==> exists k :: 0 <= k < t && Steps(fat, s, k) && Jumps(fat, s + k)
  {
    hide Steps, Jumps, Walk, FatOk;
    if Walk(fat, s, t) == Fragmented {
      var k := FirstJump(fat, s, t);
    }
    if k :| 0 <= k < t && Steps(fat, s, k) && Jumps(fat, s + k) {
      JumpFragments(fat, s, t, k);
    }
  }

  ghost predicate Consecutive(cs: seq<nat>) {
    forall i :: 0 <= i < |cs| ==> cs[i] == cs[0] + i
  }

  lemma RestIsChain(fat: seq<nat>, cs: seq<nat>)
    requires IsChain(fat, cs) && |cs| > 1
    ensures IsChain(fat, cs[1..]) && fat[cs[0]] == cs[1] && 2 <= cs[0] < |fat| && 2 <= cs[1] < |fat|
  {
  }

  lemma ConsecutiveRest(cs: seq<nat>)
    requires |cs| > 1
    ensures Consecutive(cs) <==> cs[1] == cs[0] + 1 && Consecutive(cs[1..])
  {
    var rest := cs[1..];
    if Consecutive(cs) {
      assert forall i :: 0 <= i < |rest| ==> rest[i] == cs[i + 1];
    }
    if cs[1] == cs[0] + 1 && Consecutive(rest) {
      assert forall i :: 0 < i < |cs| ==> cs[i] == rest[i - 1];
    }
  }

  /** On a sound chain of exactly the right length the check decides contiguity. */
  lemma {:induction false} CheckSoundChain(fat: seq<nat>, cs: seq<nat>)
    requires FatOk(fat) && IsChain(fat, cs)
    ensures Check(fat, cs[0], |cs|) == if Consecutive(cs) then Contiguous else Fragmented
    decreases |cs|
  {
    if |cs| > 1 {
      hide IsChain, Consecutive;
      RestIsChain(fat, cs);
      ConsecutiveRest(cs);
      CheckSoundChain(fat, cs[1..]);
    }
  }

  /** The check loop. */
  method CheckLoop(fs: Fs, sclust: nat, tcl: nat) returns (layout: Layout)
    requires fs.Valid()
    ensures layout == Check(fs.fat, sclust, tcl)
  {
    var ncl: nat, ccl: nat := 0, sclust;
    while true
      invariant 0 <= ncl && (tcl > 0 ==> ncl < tcl) && (tcl == 0 ==> ncl == 0)
      invariant tcl > 0 ==> Walk(fs.fat, ccl, tcl - ncl) == Walk(fs.fat, sclust, tcl)
      invariant tcl == 0 ==> ccl == sclust
      decreases tcl - ncl
    {
      var cl := GetFat(fs.fat, ccl);
      if (cl + 1) % 0x1_0000_0000 < 3 {
        return Corrupt;
      }
      if cl != ccl + 1 && cl < fs.nFatEnt {
        break;
      }
      ccl := cl;
      ncl := ncl + 1;
      if ncl >= tcl {
        break;
      }
    }
    return if ncl == tcl then Contiguous else Fragmented;
  }

  // ---- first fit ----

  ghost predicate FirstFit(fat: seq<nat>, t: nat, c: nat) {
    FreeRun(fat, c, t) && forall b: nat :: b < c ==> !FreeRun(fat, b, t)
  }

  ghost predicate NoFit(fat: seq<nat>, t: nat) {
    forall c: nat :: !FreeRun(fat, c, t)
  }

  function AtLeastOne(n: nat): nat {
    if n == 0 then 1 else n
  }

  /**
    The search for a free area: the lowest-numbered run of tcl free clusters, or 0.
    (With tcl == 0 the do-while still looks for one free cluster.)
  */
  method FindContiguous(fs: Fs, tcl: nat) returns (ccl: nat)
    requires fs.Valid()
    ensures if ccl == 0 then NoFit(fs.fat, AtLeastOne(tcl)) else FirstFit(fs.fat, AtLeastOne(tcl), ccl)
  {
    var cl, ncl := 2, 0;
    ccl := 2;
    ghost var t := AtLeastOne(tcl);
    while true
      invariant 2 <= ccl && cl == ccl + ncl && ncl < t
      invariant cl <= fs.nFatEnt
      invariant forall c :: ccl <= c < cl ==> fs.fat[c] == 0
      invariant forall c: nat :: c < ccl ==> !FreeRun(fs.fat, c, t)
      decreases fs.nFatEnt - cl
    {
      if cl >= fs.nFatEnt {
        return 0;
      }
      if GetFat(fs.fat, cl) != 0 {
        while true
          invariant cl < fs.nFatEnt && fs.fat[cl] != 0
          invariant forall c: nat :: c <= cl ==> !FreeRun(fs.fat, c, t)
          decreases fs.nFatEnt - cl
        {
          cl := cl + 1;
          if cl >= fs.nFatEnt {
            return 0;
          }
          if GetFat(fs.fat, cl) == 0 {
            break;
          }
        }
        ccl, ncl := cl, 0;
      }
      cl, ncl := cl + 1, ncl + 1;
      if ncl >= tcl {
        return;
      }
    }
  }

  // ---- the file operations ----

  /** clust2sect, on 32-bit cluster numbers. */
  function Sector(fs: Fs, clst: nat): nat {
    if clst < 2 || clst >= fs.nFatEnt then 0 else
    var offset: nat := clst - 2;
    ProductNonNegative(offset, fs.csize);
    offset * fs.csize + fs.database
  }

  /** The clusters' sectors lie side by side: the first begins at the data area, each other where the one before ends. */
  lemma SectorsTile(fs: Fs, c: nat)
    requires fs.Valid()
    ensures c < 2 || c >= fs.nFatEnt ==> Sector(fs, c) == 0
    ensures c == 2 < fs.nFatEnt ==> Sector(fs, c) == fs.database
    ensures 2 < c < fs.nFatEnt ==> Sector(fs, c) == Sector(fs, c - 1) + fs.csize
    ensures c == fs.nFatEnt - 1 >= 2 ==> Sector(fs, c) + fs.csize == fs.database + (fs.nFatEnt - 2) * fs.csize
  {
    if c > 2 {
      var k: nat := c - 2;
      assert k * fs.csize == (k - 1) * fs.csize + fs.csize;
    }
    if c >= 2 {
      var k: nat := c - 2;
      assert (k + 1) * fs.csize == k * fs.csize + fs.csize;
    }
  }

  /** The i-th cluster after c begins i clusters' sectors later. */
  lemma {:induction false} SectorsFrom(fs: Fs, c: nat, i: nat)
    requires fs.Valid() && 2 <= c && c + i < fs.nFatEnt
    ensures Sector(fs, c + i) == Sector(fs, c) + i * fs.csize
    decreases i
  {
    hide Sector;
    if i > 0 {
      SectorsFrom(fs, c, i - 1);
      SectorsTile(fs, c + i);
      assert i * fs.csize == (i - 1) * fs.csize + fs.csize;
    }
  }

  /** Every sector of the data area, and no other, belongs to a cluster, and to one only. */
  lemma SectorOwner(fs: Fs, s: nat) returns (c: nat)
    requires fs.Valid()
    ensures fs.database <= s < fs.database + (fs.nFatEnt - 2) * fs.csize <==>
              2 <= c < fs.nFatEnt && Sector(fs, c) <= s < Sector(fs, c) + fs.csize
    ensures forall d :: 2 <= d < fs.nFatEnt && Sector(fs, d) <= s < Sector(fs, d) + fs.csize ==> d == c
  {
    hide Sector;
    c := 2;
    SectorsTile(fs, 2);
    while c + 1 < fs.nFatEnt && s >= Sector(fs, c) + fs.csize
      invariant 2 <= c && (fs.nFatEnt > 2 ==> c < fs.nFatEnt)
      invariant c > 2 ==> s >= Sector(fs, c)
      invariant fs.nFatEnt > 2 ==> Sector(fs, 2) == fs.database <= Sector(fs, c)
      invariant forall d :: 2 <= d < c ==> s >= Sector(fs, d) + fs.csize
      decreases fs.nFatEnt - c
    {
      SectorsTile(fs, c + 1);
      c := c + 1;
    }
    if fs.nFatEnt > 2 {
      SectorsTile(fs, fs.nFatEnt - 1);
      forall d | c < d < fs.nFatEnt
        ensures Sector(fs, d) >= Sector(fs, c) + fs.csize
      {
        SectorsFrom(fs, c, d - c);
        ProductAtLeast(d - c, fs.csize);
      }
      LastIsHighest(fs, c);
    }
  }

  lemma ProductAtLeast(a: nat, b: nat)
    requires a >= 1
    ensures a * b >= b
  {
  }

  lemma LastIsHighest(fs: Fs, c: nat)
    requires fs.Valid() && 2 <= c < fs.nFatEnt
    ensures fs.database <= Sector(fs, c) && Sector(fs, c) + fs.csize <= fs.database + (fs.nFatEnt - 2) * fs.csize
  {
    hide Sector;
    SectorsTile(fs, 2);
    SectorsFrom(fs, 2, c - 2);
    SectorsFrom(fs, c, fs.nFatEnt - 1 - c);
    SectorsTile(fs, fs.nFatEnt - 1);
    ProductNonNegative(c - 2, fs.csize);
    ProductNonNegative(fs.nFatEnt - 1 - c, fs.csize);
  }

  /**
    Clusters c, c + 1, ..., c + t - 1 are linked in this order, and their sectors are the t * csize ones from sect on,
    all in the data area.
  */
  ghost predicate Occupies(fs: Fs, c: nat, t: nat, sect: nat)
    reads fs
  {
    && t >= 1 && 2 <= c && c + t <= |fs.fat| == fs.nFatEnt
    && (forall i :: c <= i < c + t - 1 ==> fs.fat[i] == i + 1)
    && sect == fs.database + (c - 2) * fs.csize
    && sect + t * fs.csize <= fs.database + (fs.nFatEnt - 2) * fs.csize
  }

  lemma OccupiesFrom(fs: Fs, c: nat, t: nat)
    requires fs.Valid() && t >= 1 && 2 <= c && c + t <= fs.nFatEnt
    requires forall i :: c <= i < c + t - 1 ==> fs.fat[i] == i + 1
    ensures Occupies(fs, c, t, Sector(fs, c))
  {
    assert (c - 2 + t) * fs.csize == (c - 2) * fs.csize + t * fs.csize;
    var rest := fs.nFatEnt - c - t;
    ProductNonNegative(rest, fs.csize);
    assert (fs.nFatEnt - 2) * fs.csize == (c - 2 + t) * fs.csize + rest * fs.csize;
  }

  /** A file that is found contiguous. */
  lemma ExistingArea(fs: Fs, c: nat, t: nat)
    requires fs.Valid() && t >= 1 && Check(fs.fat, c, t) == Contiguous
    ensures Occupies(fs, c, t, Sector(fs, c))
  {
    hide Sector, Occupies;
    WalkContiguous(fs.fat, c, t);
    OccupiesFrom(fs, c, t);
  }

  /** The outcome of a seek: the result, the FAT and start point, the file's first cluster and its position. */
  datatype Seek = Seek(res: FResult, fat: seq<nat>, last: nat, sclust: nat, pos: nat)

  /** Following, or when writable stretching, the chain from clst for o more bytes; pos bytes are behind. */
  ghost function Followed(fat: seq<nat>, last: nat, sclust: nat, clst: nat, o: nat, pos: nat, bcs: nat, writable: bool): Seek
    requires |fat| >= 2 && bcs > 0
    decreases o
  {
    if o <= bcs then Seek(Ok, fat, last, sclust, pos + o) else
    var c := if writable then Created(fat, last, clst) else Creation(GetFat(fat, clst), fat, last);
    if writable && c.ncl == 0 then Seek(Ok, c.fat, c.last, sclust, pos + bcs)
    else if c.ncl == DISK_ERROR then Seek(DiskErr, c.fat, c.last, sclust, pos)
    else if c.ncl <= 1 || c.ncl >= |fat| then Seek(IntErr, c.fat, c.last, sclust, pos)
    else Followed(c.fat, c.last, sclust, c.ncl, o - bcs, pos + bcs, bcs, writable)
  }

  /** f_lseek from the start of the file. */
  ghost function Sought(fat: seq<nat>, last: nat, sclust: nat, fsize: nat, ofs: nat, bcs: nat, writable: bool): Seek
    requires |fat| >= 2 && bcs > 0
  {
    var o := if ofs > fsize && !writable then fsize else ofs;
    if o == 0 then Seek(Ok, fat, last, sclust, 0)
    else if sclust != 0 then Followed(fat, last, sclust, sclust, o, 0, bcs, writable)
    else
      var c := Created(fat, last, 0);
      if c.ncl == 1 then Seek(IntErr, c.fat, c.last, 0, 0)
      else if c.ncl == DISK_ERROR then Seek(DiskErr, c.fat, c.last, 0, 0)
      else if c.ncl == 0 then Seek(Ok, c.fat, c.last, 0, 0)
      else Followed(c.fat, c.last, c.ncl, c.ncl, o, 0, bcs, writable)
  }

  /** Inside a sound chain nothing is created, whether the file is writable or not. */
  lemma {:induction false} FollowInside(fat: seq<nat>, last: nat, sclust: nat, cs: seq<nat>, o: nat, pos: nat, bcs: nat, writable: bool)
    requires |fat| >= 2 && bcs > 0 && IsChain(fat, cs) && 0 < o <= |cs| * bcs && |fat| <= DISK_ERROR
    ensures Followed(fat, last, sclust, cs[0], o, pos, bcs, writable) == Seek(Ok, fat, last, sclust, pos + o)
    decreases |cs|
  {
    if o > bcs {
      assert |cs| * bcs == (|cs| - 1) * bcs + bcs;
      NoneLeft(|cs| - 1, bcs);
      RestIsChain(fat, cs);
      NextInside(fat, last, cs[0]);
      hide IsChain, Created;
      FollowInside(fat, last, sclust, cs[1..], o - bcs, pos + bcs, bcs, writable);
    }
  }

  lemma NoneLeft(n: nat, bcs: nat)
    ensures n == 0 ==> n * bcs == 0
  {
  }

  lemma NextInside(fat: seq<nat>, last: nat, c: nat)
    requires 2 <= c < |fat| <= DISK_ERROR && 2 <= fat[c] < |fat|
    ensures Created(fat, last, c) == Creation(fat[c], fat, last) && GetFat(fat, c) == fat[c]
  {
  }

  /** Seeking inside a sound file changes no link; only a writable file is positioned past its end. */
  lemma SeekInside(fat: seq<nat>, last: nat, cs: seq<nat>, fsize: nat, ofs: nat, bcs: nat, writable: bool)
    requires FatOk(fat) && bcs > 0 && IsChain(fat, cs) && fsize <= |cs| * bcs && (writable ==> ofs <= |cs| * bcs)
    ensures Sought(fat, last, cs[0], fsize, ofs, bcs, writable)
         == Seek(Ok, fat, last, cs[0], if !writable && ofs > fsize then fsize else ofs)
  {
    hide Followed;
    var o := if ofs > fsize && !writable then fsize else ofs;
    if o > 0 {
      FollowInside(fat, last, cs[0], cs, o, 0, bcs, writable);
    }
  }

  /** f_lseek to the start of the file, or from the start, on any file and any FAT. */
  method LSeek(fp: Fil, ofs: nat) returns (res: FResult)
    requires fp.fs.Valid() && fp.fs.lastClust <= DISK_ERROR
    requires ofs == 0 || fp.fptr == 0
    modifies fp`fptr, fp`clust, fp`sclust, fp`fsize, fp`err, fp.fs`fat, fp.fs`lastClust, fp.fs`freeClust
    ensures fp.fs.Valid() && fp.fs.lastClust <= DISK_ERROR
    ensures old(fp.err) != Ok ==>
              && res == old(fp.err) && fp.err == old(fp.err) && fp.fptr == old(fp.fptr)
              && Untouched(fp, old(fp.fs.fat), old(fp.fsize), old(fp.sclust))
    ensures old(fp.err) == Ok ==>
              && Seek(res, fp.fs.fat, fp.fs.lastClust, fp.sclust, fp.fptr)
              == Sought(old(fp.fs.fat), old(fp.fs.lastClust), old(fp.sclust), old(fp.fsize), ofs, 512 * fp.fs.csize, fp.writable)
              && fp.err == res
              && fp.fsize == if res == Ok && fp.fptr > old(fp.fsize) then fp.fptr else old(fp.fsize)
  {
    if fp.err != Ok {
      return fp.err;
    }
    var o := ofs;
    if o > fp.fsize && !fp.writable {
      o := fp.fsize;
    }
    fp.fptr := 0;
    if o != 0 {
      res := Follow(fp, o);
      if res != Ok {
        fp.err := res;
        return;
      }
    }
    if fp.fptr > fp.fsize {
      fp.fsize := fp.fptr;
    }
    return Ok;
  }

  /** The part of f_lseek that starts from the first cluster, creating the chain if there is none. */
  method Follow(fp: Fil, ofs: nat) returns (res: FResult)
    requires fp.fs.Valid() && fp.fs.lastClust <= DISK_ERROR
    requires ofs > 0 && fp.fptr == 0 && (ofs <= fp.fsize || fp.writable)
    modifies fp`fptr, fp`clust, fp`sclust, fp.fs`fat, fp.fs`lastClust, fp.fs`freeClust
    ensures fp.fs.Valid() && fp.fs.lastClust <= DISK_ERROR
    ensures Seek(res, fp.fs.fat, fp.fs.lastClust, fp.sclust, fp.fptr)
         == Sought(old(fp.fs.fat), old(fp.fs.lastClust), old(fp.sclust), fp.fsize, ofs, 512 * fp.fs.csize, fp.writable)
  {
    hide Created, Free, FatOk;
    var fs := fp.fs;
    var clst := fp.sclust;
    if clst == 0 {
      clst := fs.CreateChain(0);
      if clst == 1 {
        return IntErr;
      }
      if clst == DISK_ERROR {
        return DiskErr;
      }
      fp.sclust := clst;
    }
    fp.clust := clst;
    if clst != 0 {
      res := FollowLinks(fp, clst, ofs);
    } else {
      res := Ok;
    }
  }

  /** The cluster following loop of f_lseek. */
  method FollowLinks(fp: Fil, first: nat, ofs: nat) returns (res: FResult)
    requires fp.fs.Valid() && fp.fs.lastClust <= DISK_ERROR && fp.fptr == 0 && ofs > 0
    modifies fp`fptr, fp`clust, fp.fs`fat, fp.fs`lastClust, fp.fs`freeClust
    ensures fp.fs.Valid() && fp.fs.lastClust <= DISK_ERROR
    ensures Seek(res, fp.fs.fat, fp.fs.lastClust, fp.sclust, fp.fptr)
         == Followed(old(fp.fs.fat), old(fp.fs.lastClust), fp.sclust, first, ofs, 0, 512 * fp.fs.csize, fp.writable)
  {
    var fs := fp.fs;
    assert fs.nFatEnt >= 2;
    hide Created, Free, FatOk, NextFit, Blocked;
    var bcs := fs.csize * 512;
    var o: nat, clst: nat := ofs, first;
    while o > bcs
      invariant fs.Valid() && fs.lastClust <= DISK_ERROR
      invariant Followed(fs.fat, fs.lastClust, fp.sclust, clst, o, fp.fptr, bcs, fp.writable)
             == Followed(old(fs.fat), old(fs.lastClust), fp.sclust, first, ofs, 0, bcs, fp.writable)
      decreases o
    {
      if fp.writable {
        clst := fs.CreateChain(clst);
        if clst == 0 {
          o := bcs;
          break;
        }
      } else {
        clst := GetFat(fs.fat, clst);
      }
      if clst == DISK_ERROR {
        return DiskErr;
      }
      if clst <= 1 || clst >= fs.nFatEnt {
        return IntErr;
      }
      fp.clust := clst;
      fp.fptr := fp.fptr + bcs;
      o := o - bcs;
    }
    fp.fptr := fp.fptr + o;
    return Ok;
  }

  // ---- steering the seek ----

  lemma TakeNext(fat: seq<nat>, scl: nat)
    requires 1 <= scl && scl + 1 < |fat| && fat[scl + 1] == 0
    ensures Search(fat, scl, scl, false) == scl + 1
  {
  }

  /** While part of a free run is linked, stretching takes the run's next cluster. */
  lemma LinkNext(fat: seq<nat>, from: nat, last: nat, t: nat)
    requires FatOk(fat) && FreeRun(fat, from, t) && from <= last && last + 1 < from + t
    ensures Created(Linked(fat, from, last + 1 - from), last, last) == Creation(last + 1, Linked(fat, from, last + 2 - from), last + 1)
  {
    var part := Linked(fat, from, last + 1 - from);
    TakeNext(part, last);
    var once: seq<nat> := part[last + 1 := LAST_LINK];
    var next: nat := last + 1;
    assert once[last := next] == Linked(fat, from, last + 2 - from);
  }

  lemma LinkFirst(fat: seq<nat>, from: nat, t: nat)
    requires FatOk(fat) && FreeRun(fat, from, t) && t >= 1
    ensures Created(fat, from - 1, 0) == Creation(from, Linked(fat, from, 1), from)
  {
    TakeNext(fat, from - 1);
    assert fat[from := LAST_LINK] == Linked(fat, from, 1);
  }

  lemma {:induction false} FollowedRun(fat: seq<nat>, from: nat, t: nat, n: nat, bcs: nat)
    requires FatOk(fat) && FreeRun(fat, from, t) && 1 <= n <= t && bcs > 0
    ensures Followed(Linked(fat, from, n), from + n - 1, from, from + n - 1, (t - n + 1) * bcs, (n - 1) * bcs, bcs, true)
         == Seek(Ok, Linked(fat, from, t), from + t - 1, from, t * bcs)
    decreases t - n
  {
    hide Linked, Created, FatOk, FreeRun;
    var o := (t - n + 1) * bcs;
    Pieces(t, n, bcs);
    if n < t {
      LinkNext(fat, from, from + n - 1, t);
      FollowedRun(fat, from, t, n + 1, bcs);
      RunInside(fat, from, t);
    }
  }

  lemma RunInside(fat: seq<nat>, from: nat, t: nat)
    requires FreeRun(fat, from, t) && FatOk(fat)
    ensures 2 <= from && from + t <= |fat| < DISK_ERROR
  {
  }

  lemma Pieces(t: nat, n: nat, bcs: nat)
    requires 1 <= n <= t && bcs > 0
    ensures (n - 1) * bcs + (t - n + 1) * bcs == t * bcs && (n - 1) * bcs >= 0 && n * bcs == (n - 1) * bcs + bcs
    ensures n == t ==> (t - n + 1) * bcs == bcs
    ensures n < t ==> (t - n + 1) * bcs > bcs && (t - n + 1) * bcs - bcs == (t - n) * bcs
  {
    assert (t - n + 1) * bcs == (t - n) * bcs + bcs;
    if n < t {
      ProductNonNegative(t - n - 1, bcs);
      assert (t - n) * bcs == (t - n - 1) * bcs + bcs;
    }
    ProductNonNegative(n - 1, bcs);
  }

  /** From an empty file, with a free run right after the start point, the seek links exactly that run. */
  lemma SteeredSeek(fat: seq<nat>, from: nat, t: nat, bcs: nat)
    requires FatOk(fat) && FreeRun(fat, from, t) && t >= 1 && bcs > 0
    ensures t * bcs >= 0
    ensures Sought(fat, from - 1, 0, 0, t * bcs, bcs, true) == Seek(Ok, Linked(fat, from, t), from + t - 1, from, t * bcs)
  {
    hide Linked, Created;
    ProductNonNegative(t - 1, bcs);
    assert t * bcs == (t - 1) * bcs + bcs;
    LinkFirst(fat, from, t);
    FollowedRun(fat, from, t, 1, bcs);
  }

  // ---- truncating ----

  /** The outcome of cutting a file at its start. */
  datatype Cut = Cut(res: FResult, fat: seq<nat>, fsize: nat, sclust: nat)

  /** f_truncate at the start: the chain is removed, then a dirty sector buffer is written, which may fail. */
  ghost function CutAtStart(fat: seq<nat>, fsize: nat, sclust: nat, dirty: bool, flushOk: bool): Cut {
    if fsize == 0 then Cut(Ok, fat, 0, sclust) else
    var r := if sclust < 2 || sclust >= |fat| then Removal(IntErr, fat) else Removed(fat, sclust);
    Cut(if r.res == Ok && dirty && !flushOk then DiskErr else r.res, r.fat, 0, 0)
  }

  /** f_truncate at the start of the file; flushOk tells whether the disk takes the buffered sector. */
  method Truncate(fp: Fil, flushOk: bool) returns (res: FResult)
    requires fp.fs.Valid() && fp.fptr == 0
    modifies fp`fsize, fp`sclust, fp`err, fp`dirty, fp.fs`fat, fp.fs`freeClust
    ensures fp.fs.Valid()
    ensures old(fp.err) != Ok || !fp.writable ==>
              && res == (if old(fp.err) != Ok then old(fp.err) else Denied)
              && fp.err == old(fp.err) && Untouched(fp, old(fp.fs.fat), old(fp.fsize), old(fp.sclust))
    ensures old(fp.err) == Ok && fp.writable ==>
              && Cut(res, fp.fs.fat, fp.fsize, fp.sclust)
              == CutAtStart(old(fp.fs.fat), old(fp.fsize), old(fp.sclust), old(fp.dirty), flushOk)
              && fp.err == res
  {
    if fp.err != Ok {
      return fp.err;
    }
    if !fp.writable {
      return Denied;
    }
    res := Ok;
    if fp.fsize > fp.fptr {
      fp.fsize := fp.fptr;
      res := fp.fs.RemoveChain(fp.sclust);
      fp.sclust := 0;
      if res == Ok && fp.dirty {
        if !flushOk {
          res := DiskErr;
        } else {
          fp.dirty := false;
        }
      }
    }
    if res != Ok {
      fp.err := res;
    }
  }

  // ---- the allocator ----

  /** The number of clusters for len bytes, in the 32-bit arithmetic of the source. */
  function ClustersFor(len: nat, csz: nat): nat
    requires csz > 0
  {
    (len + csz - 1) % 0x1_0000_0000 / csz
  }

  /** The clusters hold len bytes and less than a cluster more, unless the sum wraps: then there are none. */
  lemma ClustersCover(len: nat, csz: nat)
    requires 0 < len <= 0xFFFF_FFFF && 0 < csz <= 0x1_0000
    ensures ClustersFor(len, csz) == 0 <==> len + csz > 0x1_0000_0000
    ensures ClustersFor(len, csz) != 0 ==> len <= ClustersFor(len, csz) * csz < len + csz
    ensures ClustersFor(len, csz) * csz <= 0xFFFF_FFFF
  {
    var sum := len + csz - 1;
    var rest := if sum < 0x1_0000_0000 then sum else sum - 0x1_0000_0000;
    assert sum % 0x1_0000_0000 == rest;
    var q := rest / csz;
    assert rest == q * csz + rest % csz;
    if sum >= 0x1_0000_0000 {
      assert rest < csz;
      SmallQuotient(rest, csz);
    } else {
      PositiveQuotient(rest, csz);
    }
  }

  lemma SmallQuotient(a: nat, b: nat)
    requires a < b
    ensures a / b == 0
  {
  }

  lemma PositiveQuotient(a: nat, b: nat)
    requires a >= b > 0
    ensures a / b >= 1
  {
  }

  /** What looking for a new area, once the file is cut, leaves of the file and the volume. */
  ghost predicate Relocated(fp: Fil, cut: Cut, tcl: nat, sect: nat)
    requires |cut.fat| >= 2 && fp.fs.csize > 0
    reads fp, fp.fs
  {
    var bcs := 512 * fp.fs.csize;
    if cut.res != Ok || NoFit(cut.fat, AtLeastOne(tcl)) then sect == 0 && Untouched(fp, cut.fat, cut.fsize, cut.sclust)
    else
      forall c: nat :: FirstFit(cut.fat, AtLeastOne(tcl), c) ==>
        var s := Sought(cut.fat, c - 1, cut.sclust, cut.fsize, tcl * bcs, bcs, true);
        && Untouched(fp, s.fat, if s.res == Ok && s.pos > cut.fsize then s.pos else cut.fsize, s.sclust)
        && sect == if s.res == Ok then Sector(fp.fs, s.sclust) else 0
  }

  /** The same for a file whose chain has been freed: it is the first-fit area, or nothing. */
  ghost predicate Moved(fp: Fil, freed: seq<nat>, tcl: nat, sect: nat)
    reads fp, fp.fs
  {
    if tcl == 0 || NoFit(freed, tcl) then
      sect == 0 && Untouched(fp, freed, 0, 0)
    else
      && FirstFit(freed, tcl, fp.sclust)
      && Untouched(fp, Linked(freed, fp.sclust, tcl), tcl * (512 * fp.fs.csize), fp.sclust)
      && sect == Sector(fp.fs, fp.sclust) != 0
  }

  /**
    allocate_contiguous_clusters.  The clauses say, in the order the function decides them: bad
    parameters; a file that has the right size already; a file that may not be written; and the
    reallocation, which cuts the file first whether or not an area is then found.  For a file that holds the
    sound chain cs this means that the chain is freed and the file becomes the first-fit area, if there is
    one and the buffered sector could be written; and that a file with a sector to return holds len bytes, in
    linked clusters whose sectors are the ones from that sector on.
  */
  method Allocate(fp: Fil, len: nat, flushOk: bool, ghost cs: seq<nat>) returns (sect: nat)
    requires fp.fs.Valid() && fp.fs.lastClust <= DISK_ERROR && len <= 0xFFFF_FFFF
    modifies fp`fptr, fp`clust, fp`sclust, fp`fsize, fp`err, fp`dirty, fp.fs`fat, fp.fs`lastClust, fp.fs`freeClust
    ensures fp.fs.Valid() && fp.fs.lastClust <= DISK_ERROR
    ensures
      var tcl := ClustersFor(len, 512 * fp.fs.csize);
      var layout := Check(old(fp.fs.fat), old(fp.sclust), tcl);
      var cut := CutAtStart(old(fp.fs.fat), old(fp.fsize), old(fp.sclust), old(fp.dirty), flushOk);
      if old(fp.err) != Ok || len == 0 then
        sect == 0 && Untouched(fp, old(fp.fs.fat), old(fp.fsize), old(fp.sclust))
      else if tcl * (512 * fp.fs.csize) == old(fp.fsize) && layout != Fragmented then
        && Untouched(fp, old(fp.fs.fat), old(fp.fsize), old(fp.sclust))
        && sect == if layout == Contiguous then Sector(fp.fs, fp.sclust) else 0
      else if !fp.writable then
        sect == 0 && Untouched(fp, old(fp.fs.fat), old(fp.fsize), old(fp.sclust))
      else
        && |cut.fat| >= 2 && Relocated(fp, cut, tcl, sect)
        && (old(fp.Holds(cs)) ==>
              var freed := Zeroed(old(fp.fs.fat), cs);
              if cut.res != Ok then sect == 0 && Untouched(fp, freed, 0, 0) else Moved(fp, freed, tcl, sect))
    ensures old(fp.Holds(cs)) && sect != 0 ==>
              && len <= fp.fsize < len + 512 * fp.fs.csize
              && Occupies(fp.fs, fp.sclust, ClustersFor(len, 512 * fp.fs.csize), sect)
  {
    var fs := fp.fs;
    assert fs.nFatEnt >= 2;
    hide ClustersFor, Check, NoFit, FirstFit, Sector, Linked, Zeroed, FatOk, Free, IsChain, Relocated, Moved, Sought, CutAtStart, Occupies;
    ghost var held := fp.Holds(cs);
    if held {
      EmptyHasNoSector(fp, cs);
    }
    var res := LSeek(fp, 0);
    SoughtStart(old(fs.fat), old(fs.lastClust), old(fp.sclust), old(fp.fsize), 512 * fs.csize, fp.writable);
    if res != Ok || len == 0 {
      return 0;
    }
    var csz := 512 * fs.csize;
    var tcl := ClustersFor(len, csz);
    var size := tcl * csz;
    ClustersCover(len, csz);
    if size == fp.fsize {
      var layout := CheckLoop(fs, fp.sclust, tcl);
      if layout == Corrupt {
        return 0;
      }
      if layout == Contiguous {
        if tcl > 0 {
          ExistingArea(fs, fp.sclust, tcl);
        }
        return Sector(fs, fp.sclust);
      }
    }
    ghost var freed := Zeroed(fs.fat, cs);
    sect := Reallocate(fp, tcl, size, flushOk, cs);
    if held && sect != 0 {
      MovedSize(fp, freed, tcl, sect);
      if fp.writable {
        MovedArea(fp, freed, tcl, sect);
      }
    }
  }

  /** A file that has been moved. */
  lemma MovedArea(fp: Fil, freed: seq<nat>, tcl: nat, sect: nat)
    requires fp.fs.Valid() && |freed| == fp.fs.nFatEnt && sect != 0 && Moved(fp, freed, tcl, sect)
    ensures Occupies(fp.fs, fp.sclust, tcl, sect)
  {
    hide Sector, Occupies, NoFit;
    OccupiesFrom(fp.fs, fp.sclust, tcl);
  }

  lemma MovedSize(fp: Fil, freed: seq<nat>, tcl: nat, sect: nat)
    requires sect != 0 && (fp.writable ==> Moved(fp, freed, tcl, sect))
    ensures fp.writable ==> tcl != 0 && fp.fsize == tcl * (512 * fp.fs.csize)
  {
    hide Sector, NoFit, FirstFit, Linked;
  }

  lemma SoughtStart(fat: seq<nat>, last: nat, sclust: nat, fsize: nat, bcs: nat, writable: bool)
    requires |fat| >= 2 && bcs > 0
    ensures Sought(fat, last, sclust, fsize, 0, bcs, writable) == Seek(Ok, fat, last, sclust, 0)
  {
  }

  lemma EmptyHasNoSector(fp: Fil, cs: seq<nat>)
    requires fp.Holds(cs)
    ensures fp.fsize == 0 ==> Sector(fp.fs, fp.sclust) == 0
  {
  }

  /** The second half: remove the old chain, find a free area, and create the new chain in it. */
  method Reallocate(fp: Fil, tcl: nat, size: nat, flushOk: bool, ghost cs: seq<nat>) returns (sect: nat)
    requires fp.fs.Valid() && fp.fs.lastClust <= DISK_ERROR
    requires fp.err == Ok && fp.fptr == 0 && size == tcl * (512 * fp.fs.csize)
    modifies fp`fptr, fp`clust, fp`sclust, fp`fsize, fp`err, fp`dirty, fp.fs`fat, fp.fs`lastClust, fp.fs`freeClust
    ensures fp.fs.Valid() && fp.fs.lastClust <= DISK_ERROR
    ensures !fp.writable ==> sect == 0 && Untouched(fp, old(fp.fs.fat), old(fp.fsize), old(fp.sclust))
    ensures fp.writable ==>
              var cut := CutAtStart(old(fp.fs.fat), old(fp.fsize), old(fp.sclust), old(fp.dirty), flushOk);
              && |cut.fat| >= 2 && Relocated(fp, cut, tcl, sect)
              && (old(fp.Holds(cs)) ==>
                    var freed := Zeroed(old(fp.fs.fat), cs);
                    if cut.res != Ok then sect == 0 && Untouched(fp, freed, 0, 0) else Moved(fp, freed, tcl, sect))
  {
    var fs := fp.fs;
    assert fs.nFatEnt >= 2;
    hide Linked, Removed, Zeroed, Sector, NoFit, FirstFit, FreeRun, FatOk, Free, IsChain, Sought, CutAtStart, Moved, Relocated;
    ghost var held := fp.Holds(cs);
    ghost var cut := CutAtStart(fs.fat, fp.fsize, fp.sclust, fp.dirty, flushOk);
    if held {
      CutHeld(fs.fat, fp.fsize, fp.sclust, fp.dirty, flushOk, cs);
    }
    var res := Truncate(fp, flushOk);
    if res != Ok {
      if fp.writable {
        NotRelocated(fp, cut, tcl);
      }
      return 0;
    }
    sect := Place(fp, tcl, size);
    if held {
      RelocatedMoved(fp, cut, tcl, sect);
    }
  }

  lemma NotRelocated(fp: Fil, cut: Cut, tcl: nat)
    requires |cut.fat| >= 2 && fp.fs.csize > 0 && cut.res != Ok && Untouched(fp, cut.fat, cut.fsize, cut.sclust)
    ensures Relocated(fp, cut, tcl, 0)
  {
  }

  /** Find a free area and seek into it. */
  method Place(fp: Fil, tcl: nat, size: nat) returns (sect: nat)
    requires fp.fs.Valid() && fp.fs.lastClust <= DISK_ERROR && fp.writable
    requires fp.err == Ok && fp.fptr == 0 && size == tcl * (512 * fp.fs.csize)
    modifies fp`fptr, fp`clust, fp`sclust, fp`fsize, fp`err, fp.fs`fat, fp.fs`lastClust, fp.fs`freeClust
    ensures fp.fs.Valid() && fp.fs.lastClust <= DISK_ERROR && fp.fs.nFatEnt >= 2
    ensures Relocated(fp, Cut(Ok, old(fp.fs.fat), old(fp.fsize), old(fp.sclust)), tcl, sect)
  {
    var fs := fp.fs;
    assert fs.nFatEnt >= 2;
    hide NoFit, FirstFit, FreeRun, FatOk, Free, Sought;
    var ccl := FindContiguous(fs, tcl);
    if ccl == 0 {
      return 0;
    }
    FirstFitSector(fs, fs.fat, AtLeastOne(tcl), ccl);
    FirstFitUnique(fs.fat, AtLeastOne(tcl), ccl);
    fs.lastClust := ccl - 1;
    var res := LSeek(fp, size);
    if res != Ok {
      return 0;
    }
    return Sector(fs, fp.sclust);
  }

  /** After a sound chain has been freed, the seek is steered into the area. */
  lemma RelocatedMoved(fp: Fil, cut: Cut, tcl: nat, sect: nat)
    requires fp.fs.Valid() && |cut.fat| == fp.fs.nFatEnt >= 2 && FatOk(cut.fat)
    requires Relocated(fp, cut, tcl, sect) && cut.res == Ok && cut.fsize == 0 && cut.sclust == 0
    ensures Moved(fp, cut.fat, tcl, sect)
  {
    hide Linked, Sector, NoFit, FirstFit, FreeRun, FatOk, Free, Sought;
    var bcs := 512 * fp.fs.csize;
    if !NoFit(cut.fat, AtLeastOne(tcl)) {
      var c := FirstFitExists(cut.fat, AtLeastOne(tcl));
      FirstFitSector(fp.fs, cut.fat, AtLeastOne(tcl), c);
      if tcl > 0 {
        SteeredSeek(cut.fat, c, tcl, bcs);
      } else {
        SoughtStart(cut.fat, c - 1, 0, 0, bcs, true);
      }
    }
  }

  lemma {:induction false} LeastFit(fat: seq<nat>, t: nat, c: nat) returns (d: nat)
    requires FreeRun(fat, c, t)
    ensures d <= c && FirstFit(fat, t, d)
    decreases c
  {
    if b: nat :| b < c && FreeRun(fat, b, t) {
      d := LeastFit(fat, t, b);
    } else {
      d := c;
    }
  }

  lemma FirstFitExists(fat: seq<nat>, t: nat) returns (c: nat)
    requires !NoFit(fat, t)
    ensures FirstFit(fat, t, c)
  {
    var b: nat :| FreeRun(fat, b, t);
    c := LeastFit(fat, t, b);
  }

  lemma FirstFitSector(fs: Fs, fat: seq<nat>, t: nat, c: nat)
    requires fs.Valid() && |fat| == fs.nFatEnt && t >= 1 && FirstFit(fat, t, c)
    ensures FreeRun(fat, c, t) && 2 <= c <= DISK_ERROR && !NoFit(fat, t)
    ensures Sector(fs, c) != 0 && Sector(fs, 0) == 0
  {
    ProductNonNegative(c - 2, fs.csize);
  }

  lemma FirstFitUnique(fat: seq<nat>, t: nat, c: nat)
    requires FirstFit(fat, t, c)
    ensures forall d :: FirstFit(fat, t, d) ==> d == c
  {
  }

  /** Cutting a file that holds a sound chain frees the chain. */
  lemma CutHeld(fat: seq<nat>, fsize: nat, sclust: nat, dirty: bool, flushOk: bool, cs: seq<nat>)
    requires fsize == 0 <==> cs == []
    requires if cs == [] then sclust == 0 else IsChain(fat, cs) && sclust == cs[0]
    ensures var cut := CutAtStart(fat, fsize, sclust, dirty, flushOk);
            && cut.fat == Zeroed(fat, cs) && cut.fsize == 0 && cut.sclust == 0
            && cut.res == if cs != [] && dirty && !flushOk then DiskErr else Ok
  {
    hide IsChain, Zeroed, Removed;
    RemoveHeld(fat, cs);
  }

  lemma ProductNonNegative(a: int, b: nat)
    requires a >= 0
    ensures a * b >= 0
  {
  }

  lemma RemoveHeld(fat: seq<nat>, cs: seq<nat>)
    requires cs == [] || IsChain(fat, cs)
    ensures if cs == [] then Zeroed(fat, cs) == fat
            else Removed(fat, cs[0]) == Removal(Ok, Zeroed(fat, cs)) && 2 <= cs[0] < |fat|
  {
    if cs == [] {
      assert Zeroed(fat, cs) == fat;
    } else {
      RemoveWholeChain(fat, cs);
    }
  }

  ghost predicate Untouched(fp: Fil, fat: seq<nat>, fsize: nat, sclust: nat)
    reads fp, fp.fs
  {
    fp.fs.fat == fat && fp.fsize == fsize && fp.sclust == sclust
  }

  // ---- what the reallocation means for the volume ----

  function Area(c: nat, t: nat): (cs: seq<nat>)
    ensures |cs| == t && forall i :: 0 <= i < t ==> cs[i] == c + i
  {
    seq(t, i requires 0 <= i < t => c + i)
  }

  /** The new chain is exactly the area, and a later call finds the file contiguous. */
  lemma NewChain(fat: seq<nat>, c: nat, t: nat)
    requires FatOk(fat) && t >= 1 && FreeRun(fat, c, t)
    ensures IsChain(Linked(fat, c, t), Area(c, t))
    ensures Check(Linked(fat, c, t), c, t) == Contiguous
  {
    var area := Area(c, t);
    CheckSoundChain(Linked(fat, c, t), area);
    assert area[0] == c;
  }

  /** Every chain that shares no cluster with the file's old chain survives, link by link, outside the new area. */
  lemma OtherChainsSurvive(fat: seq<nat>, cs: seq<nat>, other: seq<nat>, c: nat, t: nat)
    requires FatOk(fat) && IsChain(fat, other)
    requires forall x :: x in other ==> x !in cs
    requires FreeRun(Zeroed(fat, cs), c, t)
    ensures IsChain(Linked(Zeroed(fat, cs), c, t), other)
    ensures forall x :: x in other ==> Linked(Zeroed(fat, cs), c, t)[x] == fat[x] && x !in Area(c, t)
  {
    var freed := Zeroed(fat, cs);
    forall i | 0 <= i < |other|
      ensures freed[other[i]] == fat[other[i]] && fat[other[i]] != 0
    {
      assert other[i] in other;
      if i < |other| - 1 {
        assert fat[other[i]] == other[i + 1];
      }
    }
    forall x | x in other
      ensures !(c <= x < c + t)
    {
      var i :| 0 <= i < |other| && x == other[i];
      assert freed[x] != 0;
    }
  }

  lemma {:induction false} ZeroedGains(fat: seq<nat>, cs: seq<nat>)
    requires forall i :: 0 <= i < |cs| ==> 2 <= cs[i] < |fat| && fat[cs[i]] != 0
    requires forall i, j :: 0 <= i < j < |cs| ==> cs[i] != cs[j]
    ensures |Free(Zeroed(fat, cs))| == |Free(fat)| + |cs|
  {
    if cs == [] {
      assert Zeroed(fat, cs) == fat;
    } else {
      var rest := cs[1..];
      ZeroedGains(fat, rest);
      assert cs[0] !in rest;
      assert forall c: nat :: c in cs <==> c == cs[0] || c in rest;
      assert Free(Zeroed(fat, cs)) == Free(Zeroed(fat, rest)) + {cs[0]};
    }
  }

  lemma {:induction false} LinkedCosts(fat: seq<nat>, c: nat, t: nat)
    requires FreeRun(fat, c, t)
    ensures |Free(Linked(fat, c, t))| == |Free(fat)| - t
  {
    if t == 0 {
      assert Linked(fat, c, t) == fat;
    } else {
      LinkedCosts(fat, c, t - 1);
      assert Free(Linked(fat, c, t)) == Free(Linked(fat, c, t - 1)) - {c + t - 1};
    }
  }

  /** Clusters are conserved: freeing a chain gains its length, linking an area costs its length. */
  lemma FreeConserved(fat: seq<nat>, cs: seq<nat>, c: nat, t: nat)
    requires cs == [] || IsChain(fat, cs)
    requires FreeRun(Zeroed(fat, cs), c, t)
    ensures |Free(Zeroed(fat, cs))| == |Free(fat)| + |cs|
    ensures |Free(Linked(Zeroed(fat, cs), c, t))| == |Free(Zeroed(fat, cs))| - t
  {
    forall i | 0 <= i < |cs|
      ensures fat[cs[i]] != 0
    {
      assert i < |cs| - 1 ==> fat[cs[i]] == cs[i + 1];
    }
    ZeroedGains(fat, cs);
    LinkedCosts(Zeroed(fat, cs), c, t);
  }
}
