/**
  The part of FatFs that the contiguous allocator drives (ff.c): reading and writing FAT entries,
  removing a cluster chain, and stretching one by the next-fit rule.

  The FAT is a sequence indexed by cluster number; entries 0 and 1 are not clusters.  An entry
  that cannot be read holds DISK_ERROR, the value get_fat returns for it.
*/
module FatVolume {

  const DISK_ERROR: nat := 0xFFFF_FFFF
  const LAST_LINK: nat := 0x0FFF_FFFF
  const UNKNOWN: nat := 0xFFFF_FFFF

  datatype FResult = Ok | DiskErr | IntErr | Denied

  // ---- the FAT as a value ----

  function GetFat(fat: seq<nat>, c: nat): nat {
    if c < 2 || c >= |fat| then 1 else fat[c]
  }

  ghost predicate FatOk(fat: seq<nat>) {
    2 <= |fat| <= LAST_LINK && forall i :: 0 <= i < |fat| ==> fat[i] <= DISK_ERROR
  }

  ghost function Free(fat: seq<nat>): set<nat> {
    set c: nat | 2 <= c < |fat| && fat[c] == 0
  }

  /** cs is a whole cluster chain: linked in order, without repetition, and properly ended. */
  ghost predicate IsChain(fat: seq<nat>, cs: seq<nat>) {
    && |cs| > 0
    && (forall i :: 0 <= i < |cs| ==> 2 <= cs[i] < |fat|)
    && (forall i, j :: 0 <= i < j < |cs| ==> cs[i] != cs[j])
    && (forall i :: 0 <= i < |cs| - 1 ==> fat[cs[i]] == cs[i + 1])
    && |fat| <= fat[cs[|cs| - 1]] < DISK_ERROR
  }

  /** The FAT with the given clusters marked free. */
  function Zeroed(fat: seq<nat>, cs: seq<nat>): (r: seq<nat>)
    ensures |r| == |fat|
    ensures forall c :: 0 <= c < |fat| ==> r[c] == if c in cs then 0 else fat[c]
  {
    seq(|fat|, c requires 0 <= c < |fat| => if c in cs then 0 else fat[c])
  }

  /** The FAT with clusters from, from + 1, ..., from + n - 1 linked into a chain. */
  function Linked(fat: seq<nat>, from: nat, n: nat): (r: seq<nat>)
    ensures |r| == |fat|
    ensures forall c :: 0 <= c < |fat| ==>
              r[c] == if from <= c < from + n then (if c == from + n - 1 then LAST_LINK else c + 1) else fat[c]
  {
    seq(|fat|, c requires 0 <= c < |fat| =>
      if from <= c < from + n then (if c == from + n - 1 then LAST_LINK else c + 1) else fat[c])
  }

  ghost predicate FreeRun(fat: seq<nat>, from: nat, n: nat) {
    2 <= from && from + n <= |fat| && forall c :: from <= c < from + n ==> fat[c] == 0
  }

  /** create_chain looks at scl + 1, ..., then 2, ..., scl: no cluster looked at before r is free. */
  ghost predicate NoneFreeBefore(fat: seq<nat>, scl: nat, r: nat) {
    && (r > scl ==> forall c :: scl < c < r && c < |fat| ==> fat[c] != 0)
    && (r <= scl ==> forall c :: 2 <= c < |fat| && (scl < c || c < r) ==> fat[c] != 0)
  }

  /** r is the first free cluster in that order. */
  ghost predicate NextFit(fat: seq<nat>, scl: nat, r: nat) {
    2 <= r < |fat| && fat[r] == 0 && NoneFreeBefore(fat, scl, r)
  }

  /** The search met an unusable entry before any free one. */
  ghost predicate Blocked(fat: seq<nat>, scl: nat, code: nat) {
    code in {1, DISK_ERROR} && exists e :: 2 <= e < |fat| && fat[e] == code && NoneFreeBefore(fat, scl, e)
  }

  // ---- the next free cluster ----

  /**
    The search of create_chain from cluster ncl on, having begun at scl: the first free cluster in cyclic
    order, 0 when it comes round without one, or the code of an unusable entry met before.
  */
  ghost function Search(fat: seq<nat>, scl: nat, ncl: nat, wrapped: bool): nat
    requires 1 <= scl < |fat| && if wrapped then 2 <= ncl < scl else scl <= ncl < |fat|
    decreases if wrapped then scl - ncl else |fat| + scl - ncl
  {
    var over := !wrapped && ncl + 1 >= |fat|;
    var n := if over then 2 else ncl + 1;
    if over && n > scl then 0 else
    var cs := GetFat(fat, n);
    if cs == 0 then n
    else if cs == DISK_ERROR || cs == 1 then cs
    else if n == scl then 0
    else Search(fat, scl, n, wrapped || over)
  }

  /** The result of create_chain: the new cluster or an error, and the FAT and start point afterwards. */
  datatype Creation = Creation(ncl: nat, fat: seq<nat>, last: nat)

  ghost function Created(fat: seq<nat>, last: nat, clst: nat): Creation
    requires |fat| >= 2
  {
    var link := GetFat(fat, clst);
    if clst != 0 && link < 2 then Creation(1, fat, last)
    else if clst != 0 && (link == DISK_ERROR || link < |fat|) then Creation(link, fat, last)
    else
      var scl := if clst != 0 then clst else if last == 0 || last >= |fat| then 1 else last;
      var n := Search(fat, scl, scl, false);
      if n < 2 || n >= |fat| then Creation(n, fat, last)
      else Creation(n, if clst == 0 then fat[n := LAST_LINK] else fat[n := LAST_LINK][clst := n], n)
  }

  // ---- removing a chain ----

  ghost function Used(fat: seq<nat>): set<nat> {
    set i: nat | i < |fat| && fat[i] != 0
  }

  lemma UseDrops(fat: seq<nat>, c: nat)
    requires c < |fat| && fat[c] != 0
    ensures |Used(fat[c := 0])| < |Used(fat)|
  {
    assert Used(fat) == Used(fat[c := 0]) + {c};
  }

  datatype Removal = Removal(res: FResult, fat: seq<nat>)

  /** What following and freeing links from c on leads to, on any FAT. */
  ghost function Removed(fat: seq<nat>, c: nat): Removal
    decreases |Used(fat)|
  {
    if c >= |fat| then Removal(Ok, fat) else
    var nxt := GetFat(fat, c);
    if nxt == 0 then Removal(Ok, fat) else
    if nxt == 1 then Removal(IntErr, fat) else
    if nxt == DISK_ERROR then Removal(DiskErr, fat) else
    UseDrops(fat, c);
    Removed(fat[c := 0], nxt)
  }

  /** Removing a whole chain frees its clusters and changes nothing else. */
  lemma {:induction false} RemoveWholeChain(fat: seq<nat>, cs: seq<nat>)
    requires IsChain(fat, cs)
    ensures Removed(fat, cs[0]) == Removal(Ok, Zeroed(fat, cs))
    decreases |cs|
  {
    var fat1 := fat[cs[0] := 0];
    var rest := cs[1..];
    if |rest| > 0 {
      assert IsChain(fat1, rest);
      assert fat[cs[0]] == rest[0];
      RemoveWholeChain(fat1, rest);
      assert cs == [cs[0]] + rest;
      assert Zeroed(fat1, rest) == Zeroed(fat, cs);
    } else {
      assert Removed(fat1, fat[cs[0]]) == Removal(Ok, fat1);
      assert fat1 == Zeroed(fat, cs);
    }
  }

  /** cs follows the links from c on, without repetition. */
  ghost predicate IsPath(fat: seq<nat>, c: nat, cs: seq<nat>) {
    && cs != [] && cs[0] == c
    && (forall i :: 0 <= i < |cs| ==> 2 <= cs[i] < |fat|)
    && (forall i, j :: 0 <= i < j < |cs| ==> cs[i] != cs[j])
    && (forall i :: 0 <= i < |cs| - 1 ==> fat[cs[i]] == cs[i + 1])
  }

  /** The path cannot be followed any further: it ends, or comes back to a cluster already passed. */
  predicate Ends(fat: seq<nat>, cs: seq<nat>, e: nat) {
    e == 0 || e == 1 || e == DISK_ERROR || e >= |fat| || e in cs
  }

  /** What removing it leaves: all freed, or all but the last if the link there is an error. */
  function Cleared(fat: seq<nat>, cs: seq<nat>, e: nat): Removal
    requires cs != []
  {
    if e == 1 then Removal(IntErr, Zeroed(fat, cs[..|cs| - 1]))
    else if e == DISK_ERROR then Removal(DiskErr, Zeroed(fat, cs[..|cs| - 1]))
    else Removal(Ok, Zeroed(fat, cs))
  }

  /** A path found after cluster c was freed comes to c only at its end. */
  lemma OnlyAtEnd(fat: seq<nat>, c: nat, d: nat, cs1: seq<nat>)
    requires 2 <= c < |fat| && IsPath(fat[c := 0], d, cs1)
    ensures forall i :: 0 <= i < |cs1| - 1 ==> cs1[i] != c && fat[cs1[i]] == cs1[i + 1]
  {
    forall i | 0 <= i < |cs1| - 1
      ensures cs1[i] != c && fat[cs1[i]] == cs1[i + 1]
    {
      assert fat[c := 0][cs1[i]] == cs1[i + 1] && cs1[i + 1] >= 2;
    }
  }

  /** Such a path, if it does not come to c, with c before it. */
  lemma PathOn(fat: seq<nat>, c: nat, cs1: seq<nat>, e: nat)
    requires 2 <= c < |fat| && IsPath(fat[c := 0], fat[c], cs1) && c !in cs1
    requires e == fat[c := 0][cs1[|cs1| - 1]] && Ends(fat[c := 0], cs1, e)
    ensures IsPath(fat, c, [c] + cs1) && e == fat[cs1[|cs1| - 1]] && Ends(fat, [c] + cs1, e)
    ensures Cleared(fat, [c] + cs1, e) == Cleared(fat[c := 0], cs1, e)
  {
    hide Ends;
    OnlyAtEnd(fat, c, fat[c], cs1);
    EndsToo(fat, c, cs1, e);
    var cs, l := [c] + cs1, |cs1| - 1;
    assert cs[..|cs| - 1] == [c] + cs1[..l];
    ZeroedToo(fat, c, cs1);
    ZeroedToo(fat, c, cs1[..l]);
    assert forall i :: 0 < i < |cs| ==> cs[i] == cs1[i - 1];
  }

  lemma EndsToo(fat: seq<nat>, c: nat, cs1: seq<nat>, e: nat)
    requires c < |fat|
    ensures Ends(fat[c := 0], cs1, e) ==> Ends(fat, [c] + cs1, e)
  {
  }

  lemma ZeroedToo(fat: seq<nat>, c: nat, cs: seq<nat>)
    requires c < |fat|
    ensures Zeroed(fat[c := 0], cs) == Zeroed(fat, [c] + cs)
  {
    assert forall x :: x in [c] + cs <==> x == c || x in cs;
  }

  /** And if it does: then its end is the cluster before c, whose link leads back. */
  lemma PathBack(fat: seq<nat>, c: nat, cs1: seq<nat>)
    requires 2 <= c < |fat| <= DISK_ERROR && IsPath(fat[c := 0], fat[c], cs1) && fat[c] != c && cs1[|cs1| - 1] == c
    ensures var cs := [c] + cs1[..|cs1| - 1];
            && IsPath(fat, c, cs) && fat[cs[|cs| - 1]] == c && Ends(fat, cs, c)
            && Cleared(fat, cs, c) == Removal(Ok, Zeroed(fat[c := 0], cs1))
  {
    hide Cleared;
    var cs := [c] + cs1[..|cs1| - 1];
    OnlyAtEnd(fat, c, fat[c], cs1);
    assert forall i :: 0 < i < |cs| ==> cs[i] == cs1[i - 1];
    assert c in cs;
    ClearedLoop(fat, c, cs1);
  }

  lemma ClearedLoop(fat: seq<nat>, c: nat, cs1: seq<nat>)
    requires 2 <= c < |fat| <= DISK_ERROR && cs1 != [] && cs1[|cs1| - 1] == c
    ensures Cleared(fat, [c] + cs1[..|cs1| - 1], c) == Removal(Ok, Zeroed(fat[c := 0], cs1))
  {
    hide Zeroed;
    var front := cs1[..|cs1| - 1];
    assert cs1 == front + [c];
    ZeroedToo(fat, c, cs1);
    SameMembers(fat, [c] + front, [c] + cs1);
  }

  lemma SameMembers(fat: seq<nat>, a: seq<nat>, b: seq<nat>)
    requires forall x :: x in a <==> x in b
    ensures Zeroed(fat, a) == Zeroed(fat, b)
  {
  }

  /** On any FAT whatsoever, removing from cluster c on frees the path from there to where it ends. */
  lemma {:induction false} RemoveAnyChain(fat: seq<nat>, c: nat) returns (cs: seq<nat>, e: nat)
    requires 2 <= c < |fat| <= DISK_ERROR
    ensures IsPath(fat, c, cs) && e == fat[cs[|cs| - 1]] && Ends(fat, cs, e)
    ensures Removed(fat, c) == Cleared(fat, cs, e)
    decreases |Used(fat)|
  {
    hide Cleared, Ends, Removed;
    var nxt := fat[c];
    RemoveOne(fat, c);
    if nxt < 2 || nxt >= |fat| || nxt == c {
      cs, e := [c], nxt;
    } else {
      var fat1 := fat[c := 0];
      UseDrops(fat, c);
      var cs1, e1 := RemoveAnyChain(fat1, nxt);
      if cs1[|cs1| - 1] == c {
        PathBack(fat, c, cs1);
        ClearedBack(fat1, cs1);
        cs, e := [c] + cs1[..|cs1| - 1], c;
      } else {
        OnlyAtEnd(fat, c, nxt, cs1);
        PathOn(fat, c, cs1, e1);
        cs, e := [c] + cs1, e1;
      }
    }
  }

  lemma RemoveOne(fat: seq<nat>, c: nat)
    requires 2 <= c < |fat| <= DISK_ERROR
    ensures var nxt := fat[c];
            if nxt < 2 || nxt >= |fat| || nxt == c then Ends(fat, [c], nxt) && Removed(fat, c) == Cleared(fat, [c], nxt)
            else Removed(fat, c) == Removed(fat[c := 0], nxt)
  {
    var cs := [c];
    assert Zeroed(fat, cs[..0]) == fat;
    assert Zeroed(fat, cs) == fat[c := 0];
    assert fat[c] == 0 ==> fat[c := 0] == fat;
  }

  lemma ClearedBack(fat: seq<nat>, cs: seq<nat>)
    requires cs != []
    ensures Cleared(fat, cs, 0) == Removal(Ok, Zeroed(fat, cs))
  {
  }

  lemma FreeOne(fat: seq<nat>, c: nat)
    requires 2 <= c < |fat| && fat[c] != 0
    ensures |Free(fat[c := 0])| == |Free(fat)| + 1
  {
    assert Free(fat[c := 0]) == Free(fat) + {c};
  }

  lemma TakeOne(fat: seq<nat>, c: nat, v: nat)
    requires 2 <= c < |fat| && fat[c] == 0 && v != 0
    ensures |Free(fat[c := v])| == |Free(fat)| - 1
  {
    assert Free(fat[c := v]) == Free(fat) - {c};
  }

  lemma Relink(fat: seq<nat>, c: nat, v: nat)
    requires 2 <= c < |fat| && fat[c] != 0 && v != 0
    ensures Free(fat[c := v]) == Free(fat)
  {
  }

  // ---- the mounted volume ----

  class Fs {
    const nFatEnt: nat
    const csize: nat
    const database: nat
    var fat: seq<nat>
    var lastClust: nat
    var freeClust: nat

    /** The geometry fits 32 bits and the free cluster count is unknown or exact. */
    ghost predicate Valid()
      reads this
    {
      && FatOk(fat) && |fat| == nFatEnt
      && 0 < csize <= 128 && 0 < database && database + nFatEnt * csize <= 0xFFFF_FFFF
      && (freeClust == UNKNOWN || freeClust == |Free(fat)|)
    }

    /** put_fat */
    method PutFat(c: nat, v: nat) returns (res: FResult)
      requires |fat| == nFatEnt
      modifies this`fat
      ensures res == if c < 2 || c >= nFatEnt then IntErr else if old(fat)[c] == DISK_ERROR then DiskErr else Ok
      ensures fat == if res == Ok then old(fat)[c := v] else old(fat)
    {
      if c < 2 || c >= nFatEnt {
        return IntErr;
      }
      if fat[c] == DISK_ERROR {
        return DiskErr;
      }
      fat := fat[c := v];
      return Ok;
    }

    /** remove_chain */
    method RemoveChain(start: nat) returns (res: FResult)
      requires Valid()
      modifies this`fat, this`freeClust
      ensures Valid()
      ensures if start < 2 || start >= nFatEnt then res == IntErr && fat == old(fat)
              else Removal(res, fat) == Removed(old(fat), start)
    {
      if start < 2 || start >= nFatEnt {
        return IntErr;
      }
      var clst := start;
      res := Ok;
      while clst < nFatEnt
        invariant Valid() && clst >= 2 && res == Ok
        invariant Removed(fat, clst) == Removed(old(fat), start)
        decreases |Used(fat)|
      {
        var nxt := GetFat(fat, clst);
        if nxt == 0 {
          break;
        }
        if nxt == 1 {
          return IntErr;
        }
        if nxt == 0xFFFF_FFFF {
          return DiskErr;
        }
        FreeOne(fat, clst);
        FreeBelowSize(fat);
        UseDrops(fat, clst);
        res := PutFat(clst, 0);  // cannot fail: the entry has just been read
        if freeClust != 0xFFFF_FFFF {
          freeClust := freeClust + 1;
        }
        clst := nxt;
      }
    }

    /** create_chain: 0 for no free cluster, 1 or DISK_ERROR for errors, else the next cluster of the chain. */
    method CreateChain(clst: nat) returns (ncl: nat)
      requires Valid()
      requires lastClust <= DISK_ERROR
      modifies this`fat, this`freeClust, this`lastClust
      ensures Valid() && lastClust <= DISK_ERROR
      ensures Creation(ncl, fat, lastClust) == Created(old(fat), old(lastClust), clst)
      ensures var link := GetFat(old(fat), clst);
              var scl := if clst != 0 then clst else if old(lastClust) == 0 || old(lastClust) >= nFatEnt then 1 else old(lastClust);
              if clst != 0 && link < 2 then ncl == 1 && fat == old(fat)
              else if clst != 0 && (link == DISK_ERROR || link < nFatEnt) then ncl == link && fat == old(fat)
              else if 2 <= ncl < nFatEnt then
                && NextFit(old(fat), scl, ncl) && lastClust == ncl
                && fat == (if clst == 0 then old(fat)[ncl := LAST_LINK] else old(fat)[ncl := LAST_LINK][clst := ncl])
              else
                && fat == old(fat)
                && ((ncl == 0 && Free(old(fat)) == {}) || Blocked(old(fat), scl, ncl))
    {
      var scl := lastClust;
      if clst == 0 {
        if scl == 0 || scl >= nFatEnt {
          scl := 1;
        }
      } else {
        var cs := GetFat(fat, clst);
        if cs < 2 {
          return 1;
        }
        if cs == 0xFFFF_FFFF {
          return cs;
        }
        if cs < nFatEnt {
          return cs;
        }
        scl := clst;
      }
      ncl := FindFree(scl);
      if ncl < 2 || ncl >= nFatEnt {
        return;
      }
      FreeBelowSize(fat);
      TakeOne(fat, ncl, LAST_LINK);
      var res := PutFat(ncl, 0x0FFF_FFFF);
      if clst != 0 {
        Relink(fat, clst, ncl);
        res := PutFat(clst, ncl);
      }
      lastClust := ncl;
      if freeClust != 0xFFFF_FFFF {
        freeClust := freeClust - 1;
      }
    }

    /** The search loop of create_chain. */
    method FindFree(scl: nat) returns (ncl: nat)
      requires Valid() && 1 <= scl < nFatEnt
      ensures ncl == Search(fat, scl, scl, false)
      ensures 2 <= ncl < nFatEnt ==> NextFit(fat, scl, ncl)
      ensures !(2 <= ncl < nFatEnt) ==> (ncl == 0 && Free(fat) == {}) || Blocked(fat, scl, ncl)
    {
      ncl := scl;
      var wrapped := false;
      while true
        invariant if wrapped then 2 <= ncl < scl else scl <= ncl < nFatEnt
        invariant Search(fat, scl, ncl, wrapped) == Search(fat, scl, scl, false)
        invariant !wrapped ==> forall c :: scl < c <= ncl ==> fat[c] != 0
        invariant wrapped ==> forall c :: 2 <= c < nFatEnt && (scl < c || c <= ncl) ==> fat[c] != 0
        decreases if wrapped then scl - ncl else nFatEnt + scl - ncl
      {
        ncl := ncl + 1;
        if ncl >= nFatEnt {
          ncl := 2;
          wrapped := true;
          if ncl > scl {
            assert Free(fat) == {};
            return 0;
          }
        }
        var cs := GetFat(fat, ncl);
        if cs == 0 {
          return;
        }
        if cs == 0xFFFF_FFFF || cs == 1 {
          assert fat[ncl] == cs && NoneFreeBefore(fat, scl, ncl);
          return cs;
        }
        if ncl == scl {
          assert Free(fat) == {};
          return 0;
        }
      }
    }
  }

  lemma FreeBelowSize(fat: seq<nat>)
    ensures |Free(fat)| <= |fat|
  {
    BelowCount(Free(fat), |fat|);
  }

  lemma {:induction false} BelowCount(s: set<nat>, n: nat)
    requires forall x :: x in s ==> x < n
    ensures |s| <= n
  {
    if n > 0 {
      BelowCount(s - {n - 1}, n - 1);
    }
  }
}
