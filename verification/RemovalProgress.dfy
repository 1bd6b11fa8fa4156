/**
  How far removing the objects below a directory gets, in terms of its post-order listing: where it can be
  stopped, and by what.
*/
module RemovalProgress {
  import opened Basics
  import opened DirectoryTree
  import opened PathWalk

  /** An object that f_unlink refuses even when nothing is below it. */
  predicate Stuck(cdir: Option<Path>, item: Item) {
    item.readOnly || cdir == Some(item.path)
  }

  /** A sequence of removals that can happen: none is refused, and only the last may take away a directory that the path passes. */
  ghost predicate Sound(via: seq<Path>, cdir: Option<Path>, items: seq<Item>) {
    && (forall j :: 0 <= j < |items| ==> !Stuck(cdir, items[j]))
    && (items != [] ==> !Crosses(via, Front(items)))
  }

  /**
    How far through a listing a removal got: its first m objects are gone, and either that is all, or object
    m is refused, or it cannot be reached because object m - 1 was a directory that the path passes.
  */
  ghost predicate Progress(via: seq<Path>, cdir: Option<Path>, items: seq<Item>, m: nat, res: FResult) {
    && m <= |items| && Sound(via, cdir, items[..m])
    && res in {Ok, Denied, NoPath, DiskErr}
    && (res == Ok ==> m == |items|)
    && (res == Denied ==> m < |items| && Stuck(cdir, items[m]) && !Crosses(via, items[..m]))
    && (res == NoPath ==> m < |items| && Crosses(via, items[..m]))
  }

  lemma NothingCrosses(via: seq<Path>)
    ensures !Crosses(via, [])
  {
  }

  lemma SoundNone(via: seq<Path>, cdir: Option<Path>)
    ensures Sound(via, cdir, [])
  {
  }

  lemma CrossesSum(via: seq<Path>, a: seq<Item>, b: seq<Item>)
    ensures Crosses(via, a + b) <==> Crosses(via, a) || Crosses(via, b)
  {
    hide Among;
    forall q
      ensures Among(a + b, q) <==> Among(a, q) || Among(b, q)
    {
      AmongSum(a, b, q);
    }
  }

  lemma FrontOfSum<T>(a: seq<T>, b: seq<T>)
    requires b != []
    ensures Front(a + b) == a + Front(b)
  {
  }

  lemma SoundSum(via: seq<Path>, cdir: Option<Path>, a: seq<Item>, b: seq<Item>)
    requires Sound(via, cdir, a) && Sound(via, cdir, b) && (b != [] ==> !Crosses(via, a))
    ensures Sound(via, cdir, a + b)
  {
    hide Crosses, Stuck;
    if b != [] {
      FrontOfSum(a, b);
      CrossesSum(via, a, Front(b));
    } else {
      assert a + b == a;
    }
  }

  lemma ProgressOk(via: seq<Path>, cdir: Option<Path>, items: seq<Item>, q: nat, res: FResult)
    requires Progress(via, cdir, items, q, res)
    ensures res in {Ok, Denied, NoPath, DiskErr} && q <= |items| && Sound(via, cdir, items[..q])
    ensures res == Ok ==> items[..q] == items && Sound(via, cdir, items)
  {
  }

  /** Progress in a part of a listing, after everything before that part, is progress in the whole. */
  lemma ProgressLater(via: seq<Path>, cdir: Option<Path>, before: seq<Item>, part: seq<Item>, after: seq<Item>, q: nat, res: FResult)
    requires Sound(via, cdir, before) && part != [] && res != Ok
    requires if Crosses(via, before) then q == 0 && res in {NoPath, DiskErr} else Progress(via, cdir, part, q, res)
    ensures Progress(via, cdir, before + part + after, |before| + q, res)
  {
    hide Crosses, Sound, Stuck;
    var all, m := before + part + after, |before| + q;
    assert all[..m] == before + part[..q];
    CrossesSum(via, before, part[..q]);
    if Crosses(via, before) {
      assert part[..q] == [] && before + [] == before;
    } else {
      SoundSum(via, cdir, before, part[..q]);
      assert q < |part| ==> all[m] == part[q];
    }
  }

  lemma {:induction false} LongerPaths(path: Path, slots: seq<Slot>, d: Path)
    requires |d| <= |path|
    ensures forall j :: 0 <= j < |PostOrder(path, slots)| ==> PostOrder(path, slots)[j].path != d
    decreases slots
  {
    if slots != [] {
      SlotPaths(path, slots[0], d);
      LongerPaths(path, slots[1..], d);
    }
  }

  lemma {:induction false} SlotPaths(path: Path, slot: Slot, d: Path)
    requires |d| <= |path|
    ensures forall j :: 0 <= j < |SlotOrder(path, slot)| ==> SlotOrder(path, slot)[j].path != d
    decreases slot
  {
    if slot.Used? && slot.node.Dir? {
      LongerPaths(path + [slot.name], slot.node.slots, d);
    }
  }

  /** Objects below a directory do not care whether the directory itself is on the way. */
  lemma ViaBelow(via: seq<Path>, d: Path, items: seq<Item>)
    requires forall j :: 0 <= j < |items| ==> items[j].path != d
    ensures Crosses(via + [d], items) <==> Crosses(via, items)
  {
    assert !Among(items, d);
    if Crosses(via + [d], items) {
      var q :| q in via + [d] && Among(items, q);
      assert q in via;
    }
    if Crosses(via, items) {
      var q :| q in via && Among(items, q);
      assert q in via + [d];
    }
  }

  lemma ProgressBelow(via: seq<Path>, cdir: Option<Path>, d: Path, items: seq<Item>, q: nat, res: FResult)
    requires Progress(via + [d], cdir, items, q, res)
    requires forall j :: 0 <= j < |items| ==> items[j].path != d
    ensures Progress(via, cdir, items, q, res)
  {
    hide Crosses, Stuck;
    ViaBelow(via, d, items[..q]);
    if q > 0 {
      ViaBelow(via, d, Front(items[..q]));
    }
  }

  /** Progress below an entry's directory is progress towards removing the entry, short of the entry itself. */
  lemma EntryProgress(via: seq<Path>, cdir: Option<Path>, d: Path, slot: Slot, q: nat, res: FResult)
    requires slot.Used? && slot.node.Dir?
    requires Progress(via + [d + [slot.name]], cdir, PostOrder(d + [slot.name], slot.node.slots), q, res)
    ensures q < Weight(slot) && SlotOrder(d, slot)[..q] == PostOrder(d + [slot.name], slot.node.slots)[..q]
    ensures PruneSlot(slot, q) == slot.(node := Dir(Prune(slot.node.slots, q)))
    ensures res != Ok ==> Progress(via, cdir, SlotOrder(d, slot), q, res)
    ensures res == Ok ==> q == Weight(slot) - 1 && Sound(via, cdir, SlotOrder(d, slot)[..q])
  {
    hide Crosses, Stuck;
    var child, below := d + [slot.name], PostOrder(d + [slot.name], slot.node.slots);
    LongerPaths(child, slot.node.slots, child);
    ProgressBelow(via, cdir, child, below, q, res);
    assert SlotOrder(d, slot) == below + [Item(child, slot.readOnly)];
    assert below[..q] == (below + [Item(child, slot.readOnly)])[..q];
  }

  lemma NothingBelow(d: Path, slot: Slot)
    requires slot.Used?
    ensures Weight(slot) > 0 && PruneSlot(slot, 0) == slot
    ensures slot.node.File? ==> Weight(slot) == 1
    ensures SlotOrder(d, slot)[Weight(slot) - 1] == Item(d + [slot.name], slot.readOnly)
    ensures SlotOrder(d, slot)[..0] == []
  {
    if slot.node.Dir? {
      PruneZero(slot.node.slots);
    }
  }

  /** Unlinking the entry is the last step of its listing. */
  lemma LastProgress(via: seq<Path>, cdir: Option<Path>, d: Path, slot: Slot, before: seq<Item>, res: FResult)
    requires slot.Used? && Weight(slot) > 0
    requires var items := SlotOrder(d, slot);
             && !Crosses(via, before) && Sound(via, cdir, items[..Weight(slot) - 1])
             && res in {Ok, Denied, NoPath, DiskErr}
             && (res == Ok ==> !Stuck(cdir, items[Weight(slot) - 1]))
             && (res == Denied ==> Stuck(cdir, items[Weight(slot) - 1]))
             && (res == NoPath ==> Crosses(via, before + items[..Weight(slot) - 1]))
             && (res in {Ok, Denied} ==> !Crosses(via, before + items[..Weight(slot) - 1]))
    ensures Progress(via, cdir, SlotOrder(d, slot), if res == Ok then Weight(slot) else Weight(slot) - 1, res)
    ensures SlotOrder(d, slot)[..Weight(slot)] == SlotOrder(d, slot)
         == SlotOrder(d, slot)[..Weight(slot) - 1] + [SlotOrder(d, slot)[Weight(slot) - 1]]
  {
    hide Crosses, Stuck, Weight;
    var items, w := SlotOrder(d, slot), Weight(slot);
    assert |items| == w && items[..w] == items && Front(items) == items[..w - 1];
    CrossesSum(via, before, items[..w - 1]);
  }

  lemma RoundEnds(via: seq<Path>, cdir: Option<Path>, d: Path, slots: seq<Slot>, k: nat, res: FResult)
    requires k < |slots| && slots[k].Used? && Weight(slots[k]) > 0
    requires var before, items, w := PostOrder(d, slots[..k]), SlotOrder(d, slots[k]), Weight(slots[k]);
             && (Crosses(via, before) ==> w == 1)
             && (!Crosses(via, before) ==> Sound(via, cdir, items[..w - 1]))
             && res in {Ok, Denied, NoPath, DiskErr}
             && (res == NoPath ==> Crosses(via, before + items[..w - 1]))
             && (res in {Ok, Denied} ==> !Crosses(via, before + items[..w - 1])
                                         && (res == Denied <==> Stuck(cdir, Item(d + [slots[k].name], slots[k].readOnly))))
    ensures var before, items, w := PostOrder(d, slots[..k]), SlotOrder(d, slots[k]), Weight(slots[k]);
            var q := if res == Ok then w else w - 1;
            && (if Crosses(via, before) then q == 0 && res in {NoPath, DiskErr} else Progress(via, cdir, items, q, res))
            && items[..w] == items[..w - 1] + [Item(d + [slots[k].name], slots[k].readOnly)]
            && (before + items[..w - 1]) + [Item(d + [slots[k].name], slots[k].readOnly)] == before + items[..w]
  {
    hide Crosses, Sound, Stuck, PostOrder, Weight;
    var before, items, w := PostOrder(d, slots[..k]), SlotOrder(d, slots[k]), Weight(slots[k]);
    NothingBelow(d, slots[k]);
    CrossesSum(via, before, items[..w - 1]);
    if !Crosses(via, before) {
      LastProgress(via, cdir, d, slots[k], before, res);
    }
  }

  /** Short of disk errors, emptying succeeds exactly if no object is refused and no directory on the way is removed too early. */
  lemma SucceedsExactly(via: seq<Path>, cdir: Option<Path>, items: seq<Item>, m: nat, res: FResult)
    requires Progress(via, cdir, items, m, res) && res != DiskErr
    ensures res == Ok <==> Sound(via, cdir, items)
  {
    assert items[..|items|] == items;
    if res == NoPath {
      CrossesSum(via, items[..m], Front(items)[m..]);
      assert Front(items) == items[..m] + Front(items)[m..];
    }
  }

  lemma AmongAt(items: seq<Item>, j: nat)
    requires j < |items|
    ensures Among(items, items[j].path)
  {
  }

  /**
    Where it stops, in plain terms: nothing removed was read-only or the current directory, only the last may have
    been a directory on the way, and the next object, if any, is refused, out of reach, or hit by a disk error.
  */
  lemma WhereItStops(via: seq<Path>, cdir: Option<Path>, items: seq<Item>, m: nat, res: FResult)
    requires Progress(via, cdir, items, m, res)
    ensures m <= |items| && (res == Ok ==> m == |items|)
    ensures forall j :: 0 <= j < m ==> !items[j].readOnly && cdir != Some(items[j].path)
    ensures forall j :: 0 <= j < m - 1 ==> items[j].path !in via
    ensures res == Denied ==> m < |items| && (items[m].readOnly || cdir == Some(items[m].path))
    ensures res == NoPath ==> 0 < m < |items| && items[m - 1].path in via
    ensures m < |items| && res != DiskErr ==>
              res == if m > 0 && items[m - 1].path in via then NoPath else Denied
  {
    forall j | 0 <= j < m
      ensures !Stuck(cdir, items[j])
    {
      assert items[..m][j] == items[j];
    }
    forall j | 0 <= j < m - 1
      ensures items[j].path !in via
    {
      assert Front(items[..m])[j] == items[j];
      AmongAt(Front(items[..m]), j);
    }
    if m > 0 {
      AmongAt(items[..m], m - 1);
    }
    if res == NoPath {
      var q, i :| q in via && 0 <= i < m && items[..m][i].path == q;
    }
  }

  lemma PrefixSound(via: seq<Path>, cdir: Option<Path>, items: seq<Item>, n: nat, m: nat)
    requires n <= m <= |items| && Sound(via, cdir, items[..m])
    ensures forall j :: 0 <= j < n ==> !Stuck(cdir, items[j])
    ensures n < m ==> !Stuck(cdir, items[n]) && !Crosses(via, items[..n])
  {
    forall j | 0 <= j < m
      ensures !Stuck(cdir, items[j])
    {
      assert items[..m][j] == items[j];
    }
    if n < m {
      assert Front(items[..m]) == items[..n] + items[n..m - 1];
      CrossesSum(via, items[..n], items[n..m - 1]);
    }
  }

  /** Short of disk errors, the listing, the current directory and the way decide how far it gets. */
  lemma OutcomeUnique(via: seq<Path>, cdir: Option<Path>, items: seq<Item>, m: nat, res: FResult, m': nat, res': FResult)
    requires Progress(via, cdir, items, m, res) && Progress(via, cdir, items, m', res') && res != DiskErr && res' != DiskErr
    ensures m == m' && res == res'
  {
    hide Crosses, Stuck, Sound;
    if m <= m' {
      PrefixSound(via, cdir, items, m, m');
    }
    if m' <= m {
      PrefixSound(via, cdir, items, m', m);
    }
  }

  lemma {:induction false} WayDown(root: Node, dots: bool, p: Path, words: seq<string>)
    requires forall w :: w in words ==> !(dots && IsDot(w))
    ensures |p| <= |Last(Trace(root, dots, p, words))|
    ensures forall q :: q in Trace(root, dots, p, words) ==> |q| <= |Last(Trace(root, dots, p, words))|
    decreases |words|
  {
    if words != [] {
      WayDown(root, dots, NextPos(root, dots, p, words[0]), words[1..]);
    }
  }

  /** A path without dot segments, and so every path where relative paths are not enabled, stays reachable to the end. */
  lemma PlainPath(root: Node, cdir: Option<Path>, text: string, d: Path, slots: seq<Slot>, m: nat, res: FResult)
    requires Placed(root, cdir) && Opened(root, cdir, text) == Some(d)
    requires cdir.Some? ==> forall w :: w in Segments(text) ==> !IsDot(w)
    requires Progress(Via(root, cdir, text), cdir, PostOrder(d, slots), m, res)
    ensures res != NoPath
  {
    OpenedGoes(root, cdir, text);
    WayDown(root, cdir.Some?, Start(cdir, text), Segments(text));
    var via, items := Via(root, cdir, text), PostOrder(d, slots);
    forall q | q in via
      ensures !Among(items[..m], q)
    {
      LongerPaths(d, slots, q);
    }
  }
}
