/**
  The states of the tree between the calls of empty_directory, and what each call turns one state into.
*/
module RemovalStates {
  import opened Basics
  import opened DirectoryTree
  import opened PathWalk
  import opened RemovalProgress
  import opened StrayRemoval

  /** A directory at d that is sane and whose paths, appended to text, fit the buffer. */
  ghost predicate Holds(root: Node, d: Path, text: string, room: nat) {
    IsDir(root, d) ==> Sane(Find(root, d).value.slots) && |text| + Reach(Find(root, d).value.slots) < room
  }

  /** The entries of directory d, which the path text opened in root0, are done up to entry k. */
  ghost predicate AtSlot(root0: Node, root: Node, cdir: Option<Path>, text: string, d: Path, slots: seq<Slot>, k: nat) {
    && k <= |slots|
    && Placed(root0, cdir) && !Astray(cdir, text) && Opened(root0, cdir, text) == Some(d)
    && Find(root0, d) == Some(Dir(slots))
    && root == PutAt(root0, d, Dir(Swept(slots, k)))
    && Lost(root0, root, PostOrder(d, slots[..k]))
  }

  /** What one round of the loop has to start from. */
  ghost predicate AtEntry(root0: Node, root: Node, cdir: Option<Path>, text: string, d: Path, slots: seq<Slot>, k: nat, room: nat) {
    if Astray(cdir, text) then cdir == Some(d) && Wandered(root, d, slots, k, room) else AtSlot(root0, root, cdir, text, d, slots, k)
  }

  lemma SweptAt(slots: seq<Slot>, k: nat)
    requires k < |slots|
    ensures Swept(slots, k)[k] == slots[k]
  {
  }

  lemma SaneName(slots: seq<Slot>, k: nat)
    requires Sane(slots) && k < |slots| && slots[k].Used?
    ensures NameOk(slots[k].name) && Distinct(slots)
  {
  }

  lemma EntryFits(slots: seq<Slot>, k: nat)
    requires Sane(slots) && k < |slots| && slots[k].Used?
    ensures NameOk(slots[k].name) && 1 + |slots[k].name| <= Reach(slots)
    ensures slots[k].node.Dir? ==> Sane(slots[k].node.slots) && 1 + |slots[k].name| + Reach(slots[k].node.slots) <= Reach(slots)
  {
    ReachBound(slots, k);
  }

  lemma LeadsTo(root: Node, cdir: Option<Path>, text: string, t: Trail)
    requires Resolve(root, cdir, text) == t
    ensures Opened(root, cdir, text) == if t.Hit? && IsDir(root, t.path) then Some(t.path) else None
    ensures t == Miss(NoPath) ==> OpenError(root, cdir, text) == NoPath
  {
  }

  lemma CdirIsDir(root: Node, cdir: Option<Path>)
    requires Placed(root, cdir) && cdir.Some?
    ensures Find(root, cdir.value).Some? && Find(root, cdir.value).value.Dir?
  {
  }

  /** How much there is to remove where a path leads. */
  ghost function Load(root: Node, cdir: Option<Path>, text: string): nat {
    var t := Opened(root, cdir, text);
    if t.Some? && IsDir(root, t.value) then Size(Find(root, t.value).value.slots) + 1 else 0
  }

  ghost function Detour(cdir: Option<Path>, text: string): nat {
    if Astray(cdir, text) then 1 else 0
  }

  /** What appending the name of entry k leads to at that point. */
  lemma EnterChild(root0: Node, root: Node, cdir: Option<Path>, text: string, d: Path, slots: seq<Slot>, k: nat)
    requires AtSlot(root0, root, cdir, text, d, slots, k) && Placed(root, cdir)
    requires k < |slots| && slots[k].Used? && Sane(slots)
    ensures var below, via := text + "/" + slots[k].name, Via(root0, cdir, text);
            var child := d + [slots[k].name];
            if Crosses(via, PostOrder(d, slots[..k])) then
              Resolve(root, cdir, below) == Miss(NoPath)
            else
              && Resolve(root, cdir, below) == Hit(child, false) && Find(root, child) == Some(slots[k].node)
              && Via(root, cdir, below) == via + [child]
  {
    hide Find, PutAt, Swept, PostOrder, Resolve, Opened, Lost, Crosses, Via, Placed;
    SweptIndex(slots, k, k);
    SweptAt(slots, k);
    PutChild(root0, d, Swept(slots, k), k, File);
    ChildAfterLoss(root0, root, PostOrder(d, slots[..k]), cdir, text, slots[k].name);
  }

  /** Where the path of the entry leads, and that there is room for what is below it. */
  lemma EntryTarget(root0: Node, root: Node, cdir: Option<Path>, text: string, d: Path, slots: seq<Slot>, k: nat, room: nat)
    requires AtEntry(root0, root, cdir, text, d, slots, k, room) && Placed(root, cdir)
    requires k < |slots| && slots[k].Used? && slots[k].node.Dir? && Sane(slots) && |text| + Reach(slots) < room
    ensures var below, child := text + "/" + slots[k].name, d + [slots[k].name];
            var t := Opened(root, cdir, below);
            && !Astray(cdir, below)
            && (t.Some? ==> Holds(root, t.value, below, room))
            && (if Astray(cdir, text) then t.Some? ==> t.value == [slots[k].name]
                else if Crosses(Via(root0, cdir, text), PostOrder(d, slots[..k])) then
                  t == None && OpenError(root, cdir, below) == NoPath && Load(root, cdir, below) == 0
                else
                  && t == Some(child) && Find(root, child) == Some(slots[k].node)
                  && Via(root, cdir, below) == Via(root0, cdir, text) + [child]
                  && Load(root, cdir, below) == Weight(slots[k]))
  {
    hide Find, PostOrder, Resolve, Opened, Crosses, Via, Sane, Reach, Placed, Strayed, Size;
    var name := slots[k].name;
    var below := text + "/" + name;
    EntryFits(slots, k);
    assert below != "";
    if Astray(cdir, text) {
      StrayResolves(root, cdir, d, name, slots, k, room);
      LeadsTo(root, cdir, below, Resolve(root, cdir, below));
      if IsDir(root, [name]) {
        StrayedSane(root, d, slots, k, room);
        RoomBelow(root, name);
      }
    } else {
      EnterChild(root0, root, cdir, text, d, slots, k);
      LeadsTo(root, cdir, below, Resolve(root, cdir, below));
    }
  }

  lemma EntryCdir(root0: Node, root: Node, cdir: Option<Path>, text: string, d: Path, slots: seq<Slot>, k: nat, room: nat)
    requires AtEntry(root0, root, cdir, text, d, slots, k, room)
    ensures Astray(cdir, text) ==> cdir == Some(d)
  {
  }

  /** The entry's objects up to q are gone, and everything that came before it. */
  ghost predicate Cleared(root0: Node, root: Node, cdir: Option<Path>, text: string, d: Path, slots: seq<Slot>, k: nat, q: nat)
    requires k < |slots|
  {
    && Placed(root0, cdir) && !Astray(cdir, text) && Opened(root0, cdir, text) == Some(d)
    && Find(root0, d) == Some(Dir(slots)) && q <= Weight(slots[k])
    && root == PutAt(root0, d, Dir(Swept(slots, k)[k := PruneSlot(slots[k], q)]))
    && Lost(root0, root, PostOrder(d, slots[..k]) + SlotOrder(d, slots[k])[..q])
  }

  lemma AtSlotCleared(root0: Node, root: Node, cdir: Option<Path>, text: string, d: Path, slots: seq<Slot>, k: nat)
    requires AtSlot(root0, root, cdir, text, d, slots, k) && k < |slots| && slots[k].Used?
    ensures Cleared(root0, root, cdir, text, d, slots, k, 0)
  {
    hide Find, PutAt, PostOrder, SlotOrder, Lost, Placed, Opened, Swept, Weight, PruneSlot;
    NothingBelow(d, slots[k]);
    SweptAt(slots, k);
    assert Swept(slots, k)[k := slots[k]] == Swept(slots, k);
    assert PostOrder(d, slots[..k]) + [] == PostOrder(d, slots[..k]);
  }

  /** What emptying the entry's directory changes. */
  lemma ChildCleared(root0: Node, root: Node, root1: Node, cdir: Option<Path>, text: string, d: Path, slots: seq<Slot>, k: nat, q: nat)
    requires AtSlot(root0, root, cdir, text, d, slots, k) && k < |slots| && slots[k].Used? && slots[k].node.Dir? && Distinct(slots)
    requires var child, sub := d + [slots[k].name], slots[k].node.slots;
             && q < Weight(slots[k]) && q <= |PostOrder(child, sub)|
             && SlotOrder(d, slots[k])[..q] == PostOrder(child, sub)[..q]
             && PruneSlot(slots[k], q) == slots[k].(node := Dir(Prune(sub, q)))
             && root1 == PutAt(root, child, Dir(Prune(sub, q)))
             && Lost(root, root1, PostOrder(child, sub)[..q])
    ensures Cleared(root0, root1, cdir, text, d, slots, k, q)
  {
    hide Find, PutAt, PostOrder, SlotOrder, Lost, Placed, Opened, Swept, Weight, Prune, PruneSlot, Distinct;
    SweptIndex(slots, k, k);
    SweptAt(slots, k);
    PutChild(root0, d, Swept(slots, k), k, Dir(Prune(slots[k].node.slots, q)));
    LostMore(root0, root, root1, PostOrder(d, slots[..k]), SlotOrder(d, slots[k])[..q]);
  }

  /** The entries just before the unlink. */
  lemma MidSlots(slots: seq<Slot>, k: nat)
    requires k < |slots| && slots[k].Used? && Distinct(slots) && Weight(slots[k]) > 0
    ensures var mid := Swept(slots, k)[k := PruneSlot(slots[k], Weight(slots[k]) - 1)];
            && mid[k].Used? && mid[k].name == slots[k].name && mid[k].readOnly == slots[k].readOnly
            && mid[k].node.Dir? == slots[k].node.Dir?
            && (mid[k].node.Dir? ==> Empty(mid[k].node.slots))
            && IndexOf(mid, slots[k].name) == k && Distinct(mid)
            && mid[k := Deleted] == Swept(slots, k + 1)
  {
    hide IndexOf;
    var mid := Swept(slots, k)[k := PruneSlot(slots[k], Weight(slots[k]) - 1)];
    if slots[k].node.Dir? {
      PruneAll(slots[k].node.slots);
    }
    SweptIndex(slots, k, k);
    SlotKept(Swept(slots, k), k, mid[k].node);
    assert mid == Swept(slots, k)[k := Swept(slots, k)[k].(node := mid[k].node)];
  }

  /** What f_unlink finds when everything below the entry is gone. */
  lemma BeforeUnlink(root0: Node, root: Node, cdir: Option<Path>, text: string, d: Path, slots: seq<Slot>, k: nat)
    requires k < |slots| && slots[k].Used? && Sane(slots) && Weight(slots[k]) > 0
    requires Cleared(root0, root, cdir, text, d, slots, k, Weight(slots[k]) - 1) && Placed(root, cdir)
    ensures var via, gone := Via(root0, cdir, text), PostOrder(d, slots[..k]) + SlotOrder(d, slots[k])[..Weight(slots[k]) - 1];
            var child, mid := d + [slots[k].name], Swept(slots, k)[k := PruneSlot(slots[k], Weight(slots[k]) - 1)];
            && Resolve(root, cdir, text + "/" + slots[k].name) == (if Crosses(via, gone) then Miss(NoPath) else Hit(child, false))
            && Up(child) == d && Last(child) == slots[k].name
            && Find(root, d) == Some(Dir(mid)) && IndexOf(mid, slots[k].name) == k
            && mid[k].Used? && mid[k].readOnly == slots[k].readOnly && mid[k].node.Dir? == slots[k].node.Dir?
            && (mid[k].node.Dir? ==> Empty(mid[k].node.slots))
            && (mid[k].node.File? ==> cdir != Some(child))
            && PutAt(root, d, Dir(mid[k := Deleted])) == PutAt(root0, d, Dir(Swept(slots, k + 1)))
            && Lost(root, PutAt(root, d, Dir(mid[k := Deleted])), [Item(child, slots[k].readOnly)])
  {
    hide Find, PutAt, PostOrder, SlotOrder, Lost, Resolve, Opened, Crosses, Via, IndexOf, Prune, Swept, Placed;
    var name := slots[k].name;
    var child, mid := d + [name], Swept(slots, k)[k := PruneSlot(slots[k], Weight(slots[k]) - 1)];
    MidSlots(slots, k);
    PutChild(root0, d, mid, k, File);
    PutAgain(root0, d, Dir(mid), Dir(mid[k := Deleted]));
    ChildAfterLoss(root0, root, PostOrder(d, slots[..k]) + SlotOrder(d, slots[k])[..Weight(slots[k]) - 1], cdir, text, name);
    assert child[..|d|] == d;
    UnlinkLoses(root, d, mid, k);
    if mid[k].node.File? && cdir == Some(child) {
      CdirIsDir(root, cdir);
    }
  }

  /** Losing an object that is not the current directory leaves the current directory in place. */
  lemma StillPlaced(root: Node, root1: Node, cdir: Option<Path>, item: Item)
    requires Placed(root, cdir) && Lost(root, root1, [item]) && cdir != Some(item.path) && item.path != []
    ensures Placed(root1, cdir)
  {
    assert IsDir(root, []) && !Among([item], []);
    assert IsDir(root1, []);
  }

  /** The result of a round. */
  ghost predicate RoundDone(root0: Node, root1: Node, cdir: Option<Path>, text: string, d: Path, slots: seq<Slot>, k: nat, q: nat, res: FResult)
    requires k < |slots|
  {
    var via, before, items := Via(root0, cdir, text), PostOrder(d, slots[..k]), SlotOrder(d, slots[k]);
    && q <= |items|
    && (if Crosses(via, before) then q == 0 && res in {NoPath, DiskErr} else Progress(via, cdir, items, q, res))
    && Lost(root0, root1, before + items[..q])
    && (res == Ok ==> root1 == PutAt(root0, d, Dir(Swept(slots, k + 1))))
    && (res != Ok ==> q < Weight(slots[k]) && root1 == PutAt(root0, d, Dir(Swept(slots, k)[k := PruneSlot(slots[k], q)])))
  }

  lemma RoundOk(root0: Node, root: Node, cdir: Option<Path>, text: string, d: Path, slots: seq<Slot>, k: nat, q: nat)
    requires k < |slots| && RoundDone(root0, root, cdir, text, d, slots, k, q, Ok)
    ensures q == |SlotOrder(d, slots[k])| && SlotOrder(d, slots[k])[..q] == SlotOrder(d, slots[k])
  {
    hide Crosses, Sound, Lost, Via, Swept;
  }

  /** The outcome of emptying the directory that text opened in root0. */
  ghost predicate Emptied(root0: Node, root1: Node, cdir: Option<Path>, text: string, d: Path, slots: seq<Slot>, m: nat, res: FResult) {
    var items := PostOrder(d, slots);
    && Progress(Via(root0, cdir, text), cdir, items, m, res)
    && root1 == PutAt(root0, d, Dir(Prune(slots, m)))
    && Lost(root0, root1, items[..m])
  }

  ghost function OpenedSlots(root: Node, cdir: Option<Path>, text: string): seq<Slot>
    requires Opened(root, cdir, text).Some?
  {
    assert IsDir(root, Opened(root, cdir, text).value);
    Find(root, Opened(root, cdir, text).value).value.slots
  }

  /** When opening fails at the disk nothing has been removed. */
  lemma NothingYet(root: Node, cdir: Option<Path>, text: string, d: Path, slots: seq<Slot>)
    requires Opened(root, cdir, text) == Some(d) && slots == OpenedSlots(root, cdir, text)
    ensures IsDir(root, d) && Find(root, d).value.slots == slots
    ensures Emptied(root, root, cdir, text, d, slots, 0, DiskErr) && PostOrder(d, slots)[..0] == []
  {
    PruneZero(slots);
    PutSame(root, d);
    LostNone(root);
    assert PostOrder(d, slots)[..0] == [];
    hide Via, Lost, PostOrder, Prune;
    SoundNone(Via(root, cdir, text), cdir);
  }

  /** The situation once the directory is open. */
  lemma Begin(root: Node, cdir: Option<Path>, text: string, d: Path, slots: seq<Slot>, room: nat)
    requires Placed(root, cdir) && Opened(root, cdir, text) == Some(d) && slots == OpenedSlots(root, cdir, text)
    requires Holds(root, d, text, room) && (Astray(cdir, text) ==> Holds(root, [], "", room))
    ensures IsDir(root, d) && Find(root, d) == Some(Dir(slots)) && Sane(slots) && |text| + Reach(slots) < room
    ensures Load(root, cdir, text) == Size(slots) + 1
    ensures AtEntry(root, root, cdir, text, d, slots, 0, room)
    ensures PostOrder(d, slots[..0]) == []
  {
    hide Sane, Reach;
    PutSame(root, d);
    assert Swept(slots, 0) == slots && slots[..0] == [];
    LostNone(root);
    if Astray(cdir, text) {
      assert d == cdir.value;
      assert IsDir(root, []);
    }
  }

  lemma EntrySkip(root0: Node, root: Node, cdir: Option<Path>, text: string, d: Path, slots: seq<Slot>, a: nat, b: nat, room: nat)
    requires AtEntry(root0, root, cdir, text, d, slots, a, room) && a <= b <= |slots| && NoneUsed(slots, a, b)
    ensures AtEntry(root0, root, cdir, text, d, slots, b, room)
    ensures PostOrder(d, slots[..b]) == PostOrder(d, slots[..a])
  {
    hide Find, PutAt, Lost, Opened, Placed, PostOrder, Sane, Reach;
    DeadSlots(d, slots, a, b);
  }

  lemma NextEntry(root0: Node, root1: Node, cdir: Option<Path>, text: string, d: Path, slots: seq<Slot>, k: nat, room: nat)
    requires k < |slots| && Sound(Via(root0, cdir, text), cdir, PostOrder(d, slots[..k]))
    requires Placed(root0, cdir) && !Astray(cdir, text) && Opened(root0, cdir, text) == Some(d) && Find(root0, d) == Some(Dir(slots))
    requires RoundDone(root0, root1, cdir, text, d, slots, k, |SlotOrder(d, slots[k])|, Ok)
    ensures AtEntry(root0, root1, cdir, text, d, slots, k + 1, room)
    ensures PostOrder(d, slots[..k + 1]) == PostOrder(d, slots[..k]) + SlotOrder(d, slots[k])
    ensures Sound(Via(root0, cdir, text), cdir, PostOrder(d, slots[..k + 1]))
  {
    hide Find, PutAt, Lost, Opened, Placed, PostOrder, SlotOrder, Crosses, Sound, Via, Swept;
    var items := SlotOrder(d, slots[k]);
    PostOrderNext(d, slots, k);
    ProgressOk(Via(root0, cdir, text), cdir, items, |items|, Ok);
    assert items[..|items|] == items;
    SoundSum(Via(root0, cdir, text), cdir, PostOrder(d, slots[..k]), items);
  }

  /** What the loop reads, and what it knows, at entry c. */
  lemma EntryState(root0: Node, root: Node, cdir: Option<Path>, text: string, d: Path, slots: seq<Slot>, c: nat, room: nat)
    requires AtEntry(root0, root, cdir, text, d, slots, c, room) && Sane(slots) && c <= |slots|
    ensures Find(root, d) == Some(Dir(if Astray(cdir, text) then slots else Swept(slots, c)))
    ensures NamesFrom(if Astray(cdir, text) then slots else Swept(slots, c), c)
    ensures if Astray(cdir, text) then cdir == Some(d) && Wandered(root, d, slots, c, room)
            else && AtSlot(root0, root, cdir, text, d, slots, c)
                 && Placed(root0, cdir) && Opened(root0, cdir, text) == Some(d) && Find(root0, d) == Some(Dir(slots))
  {
    hide Find, PutAt, Lost, Opened, Placed, PostOrder, Strayed;
    if !Astray(cdir, text) {
      FindPut(root0, d, Dir(Swept(slots, c)));
    }
  }

  lemma {:induction false} EntryWeight(slots: seq<Slot>, k: nat)
    requires k < |slots|
    ensures Weight(slots[k]) <= Size(slots)
  {
    if k > 0 {
      EntryWeight(slots[1..], k - 1);
    }
  }

  lemma WanderedOn(root0: Node, root: Node, cdir: Option<Path>, text: string, d: Path, slots: seq<Slot>, k: nat, room: nat)
    requires Astray(cdir, text) && cdir == Some(d) && Wandered(root, d, slots, k, room)
    ensures AtEntry(root0, root, cdir, text, d, slots, k, room)
  {
  }

  /** The loop ends at the end of the directory, or because reading failed. */
  lemma SweepEnds(root0: Node, root: Node, cdir: Option<Path>, text: string, d: Path, slots: seq<Slot>, c: nat, res: FResult)
    requires AtSlot(root0, root, cdir, text, d, slots, c) && Sound(Via(root0, cdir, text), cdir, PostOrder(d, slots[..c]))
    requires res == DiskErr || (res == Ok && c == |slots|)
    ensures Emptied(root0, root, cdir, text, d, slots, Size(slots[..c]), res)
    ensures PostOrder(d, slots)[..Size(slots[..c])] == PostOrder(d, slots[..c])
  {
    hide Find, PutAt, Lost, Opened, Placed, PostOrder, Crosses, Sound, Via, Swept, Prune, Size;
    PruneBoundary(slots, c);
    SizeSplit(d, slots, c);
    assert slots[..|slots|] == slots;
  }

  /** The loop ends because a round failed. */
  lemma SweepStops(root0: Node, root1: Node, cdir: Option<Path>, text: string, d: Path, slots: seq<Slot>, k: nat, q: nat, res: FResult)
    requires k < |slots| && slots[k].Used? && Sound(Via(root0, cdir, text), cdir, PostOrder(d, slots[..k]))
    requires RoundDone(root0, root1, cdir, text, d, slots, k, q, res) && res != Ok
    ensures Emptied(root0, root1, cdir, text, d, slots, Size(slots[..k]) + q, res)
    ensures PostOrder(d, slots)[..Size(slots[..k]) + q] == PostOrder(d, slots[..k]) + SlotOrder(d, slots[k])[..q]
  {
    hide Find, PutAt, Lost, PostOrder, SlotOrder, Crosses, Sound, Via, Swept, Prune, PruneSlot, Size, Weight;
    var before, part, after := PostOrder(d, slots[..k]), SlotOrder(d, slots[k]), PostOrder(d, slots[k + 1..]);
    PruneMidway(slots, k, q);
    PostOrderNext(d, slots, k);
    SizeSplit(d, slots, k + 1);
    assert PostOrder(d, slots) == before + part + after;
    assert |before| == Size(slots[..k]) && PostOrder(d, slots)[..|before| + q] == before + part[..q];
    ProgressLater(Via(root0, cdir, text), cdir, before, part, after, q, res);
  }

  /** What a round means for the loop: it goes on at the next entry, or it ends. */
  lemma RoundEffect(root0: Node, root1: Node, cdir: Option<Path>, text: string, d: Path, slots: seq<Slot>, k: nat, q: nat,
                    res: FResult, room: nat)
    requires k < |slots| && slots[k].Used?
    requires Astray(cdir, text) ==> cdir == Some(d) && (res == Ok ==> Wandered(root1, d, slots, k + 1, room))
    requires !Astray(cdir, text) ==>
               && Placed(root0, cdir) && Opened(root0, cdir, text) == Some(d) && Find(root0, d) == Some(Dir(slots))
               && Sound(Via(root0, cdir, text), cdir, PostOrder(d, slots[..k]))
               && RoundDone(root0, root1, cdir, text, d, slots, k, q, res)
    ensures res == Ok ==> AtEntry(root0, root1, cdir, text, d, slots, k + 1, room)
    ensures res == Ok && !Astray(cdir, text) ==>
              && Sound(Via(root0, cdir, text), cdir, PostOrder(d, slots[..k + 1]))
              && PostOrder(d, slots[..k + 1]) == PostOrder(d, slots[..k]) + SlotOrder(d, slots[k])[..q]
    ensures res != Ok && !Astray(cdir, text) ==>
              && Emptied(root0, root1, cdir, text, d, slots, Size(slots[..k]) + q, res)
              && PostOrder(d, slots)[..Size(slots[..k]) + q] == PostOrder(d, slots[..k]) + SlotOrder(d, slots[k])[..q]
  {
    hide Find, Opened, Placed, PostOrder, SlotOrder, Sound, Via, AtEntry, RoundDone, Emptied, Wandered, Astray, Size;
    if Astray(cdir, text) {
      if res == Ok {
        WanderedOn(root0, root1, cdir, text, d, slots, k + 1, room);
      }
    } else if res == Ok {
      RoundOk(root0, root1, cdir, text, d, slots, k, q);
      NextEntry(root0, root1, cdir, text, d, slots, k, room);
    } else {
      SweepStops(root0, root1, cdir, text, d, slots, k, q, res);
    }
  }
}
