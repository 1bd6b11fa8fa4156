/**
  Removing everything below a directory (app2.c, function empty_directory).  One character buffer
  holds the path; each level of the recursion appends to it and takes back what it appended.
*/
module EmptyDirectory {
  import opened Basics
  import opened DirectoryTree
  import opened PathWalk
  import opened DirectoryVolume
  import opened RemovalProgress
  import opened StrayRemoval
  import opened RemovalStates

  /** The unlink that ends a round. */
  method UnlinkEntry(vol: Volume, path: array<char>, ghost text: string, ghost d: Path, ghost slots: seq<Slot>, ghost k: nat, ghost root0: Node)
    returns (fr: FResult)
    requires k < |slots| && slots[k].Used? && Sane(slots) && Weight(slots[k]) > 0
    requires Text(path[..]) == text + "/" + slots[k].name
    requires Placed(vol.root, vol.cdir)
    requires !Astray(vol.cdir, text) ==> Cleared(root0, vol.root, vol.cdir, text, d, slots, k, Weight(slots[k]) - 1)
    requires Astray(vol.cdir, text) ==>
               && vol.cdir == Some(d) && Strayed(vol.root, d, slots, k, path.Length)
               && (d[0] != slots[k].name ==> Find(vol.root, d) == Some(Dir(slots)))
    modifies vol
    ensures vol.ops == old(vol.ops) + 1 && (fr == DiskErr <==> vol.faults(old(vol.ops)))
    ensures fr != Ok ==> vol.root == old(vol.root) && vol.removed == old(vol.removed)
    ensures Placed(vol.root, vol.cdir)
    ensures !Astray(vol.cdir, text) ==>
              var via, gone := Via(root0, vol.cdir, text), PostOrder(d, slots[..k]) + SlotOrder(d, slots[k])[..Weight(slots[k]) - 1];
              var item := Item(d + [slots[k].name], slots[k].readOnly);
              && fr in {Ok, Denied, NoPath, DiskErr}
              && (fr == NoPath ==> Crosses(via, gone))
              && (fr in {Ok, Denied} ==> !Crosses(via, gone) && (fr == Denied <==> Stuck(vol.cdir, item)))
              && (fr == Ok ==>
                    && vol.root == PutAt(root0, d, Dir(Swept(slots, k + 1)))
                    && vol.removed == old(vol.removed) + [item]
                    && Lost(root0, vol.root, gone + [item]))
    ensures Astray(vol.cdir, text) && fr == Ok ==> Wandered(vol.root, d, slots, k + 1, path.Length)
  {
    hide Find, PutAt, PostOrder, SlotOrder, Lost, Resolve, Opened, Crosses, Via, IndexOf, Prune, Swept, Placed, Strayed, Sane;
    ghost var root1, name := vol.root, slots[k].name;
    ghost var item := Item(d + [name], slots[k].readOnly);
    SaneName(slots, k);
    if Astray(vol.cdir, text) {
      StrayResolves(vol.root, vol.cdir, d, name, slots, k, path.Length);
    } else {
      BeforeUnlink(root0, vol.root, vol.cdir, text, d, slots, k);
    }
    fr := vol.Unlink(path, text + "/" + name);
    if fr == Ok {
      if Astray(vol.cdir, text) {
        CdirIsDir(root1, vol.cdir);
        StrayUnlink(root1, name, d, slots, k, path.Length);
        WanderedPlaced(vol.root, vol.cdir, d, slots, k + 1, path.Length);
      } else {
        LostMore(root0, root1, vol.root, PostOrder(d, slots[..k]) + SlotOrder(d, slots[k])[..Weight(slots[k]) - 1], [item]);
        StillPlaced(root1, vol.root, vol.cdir, item);
      }
    }
  }

  /** The first half of a round: an entry that is a directory is emptied, by recursion. */
  method ClearEntry(vol: Volume, path: array<char>, isDir: bool, ghost text: string,
                    ghost d: Path, ghost slots: seq<Slot>, ghost k: nat, ghost root0: Node)
    returns (fr: FResult, ghost q: nat)
    requires k < |slots| && slots[k].Used? && Sane(slots) && isDir == slots[k].node.Dir?
    requires Spells(path, text + "/" + slots[k].name) && |text| + Reach(slots) < path.Length
    requires Placed(vol.root, vol.cdir) && AtEntry(root0, vol.root, vol.cdir, text, d, slots, k, path.Length)
    modifies vol, path
    ensures path[..|text| + |slots[k].name| + 2] == old(path[..|text| + |slots[k].name| + 2])
    ensures vol.ops >= old(vol.ops) && (fr != Ok ==> vol.ops > old(vol.ops)) && (fr == DiskErr <==> vol.FaultSince(old(vol.ops)))
    ensures Placed(vol.root, vol.cdir)
    ensures !Astray(vol.cdir, text) ==>
              var via, items := Via(root0, vol.cdir, text), SlotOrder(d, slots[k]);
              && q < Weight(slots[k])
              && Cleared(root0, vol.root, vol.cdir, text, d, slots, k, q)
              && vol.removed == old(vol.removed) + items[..q]
              && if Crosses(via, PostOrder(d, slots[..k])) then q == 0 && (if isDir then fr in {NoPath, DiskErr} else fr == Ok)
                 else if fr == Ok then q == Weight(slots[k]) - 1 && Sound(via, vol.cdir, items[..q])
                 else Progress(via, vol.cdir, items, q, fr)
    ensures Astray(vol.cdir, text) && fr == Ok ==>
              && Strayed(vol.root, d, slots, k, path.Length)
              && (d[0] != slots[k].name ==> Find(vol.root, d) == Some(Dir(slots)))
    decreases Detour(vol.cdir, text), Weight(slots[k]), 3
  {
    hide Find, PutAt, PostOrder, SlotOrder, Lost, Resolve, Opened, Crosses, Via, Prune, Placed, Strayed, Sane, Load, Weight, Reach,
      PruneSlot, Sound, Size;
    fr, q := Ok, 0;
    ghost var root1, name := vol.root, slots[k].name;
    ghost var below := text + "/" + name;
    NothingBelow(d, slots[k]);
    SaneName(slots, k);
    if !Astray(vol.cdir, text) {
      AtSlotCleared(root0, root1, vol.cdir, text, d, slots, k);
    }
    if isDir {
      EntryTarget(root0, root1, vol.cdir, text, d, slots, k, path.Length);
      fr, q := EmptyDirectory(vol, path, below);
      if Astray(vol.cdir, text) {
        if fr == Ok {
          StrayClear(root1, name, q, d, slots, k, path.Length);
        }
      } else if !Crosses(Via(root0, vol.cdir, text), PostOrder(d, slots[..k])) {
        EntryProgress(Via(root0, vol.cdir, text), vol.cdir, d, slots[k], q, fr);
        ChildCleared(root0, root1, vol.root, vol.cdir, text, d, slots, k, q);
      }
    } else {
      assert SlotOrder(d, slots[k])[..0] == [];
      SoundNone(Via(root0, vol.cdir, text), vol.cdir);
    }
  }

  /** One round of the loop: spell the entry's path, empty it if it is a directory, and unlink it. */
  method RemoveEntry(vol: Volume, path: array<char>, i: nat, fno: FilInfo, ghost text: string,
                     ghost d: Path, ghost slots: seq<Slot>, ghost k: nat, ghost root0: Node)
    returns (fr: FResult, ghost q: nat)
    requires k < |slots| && slots[k].Used? && Sane(slots) && fno == FilInfo(slots[k].name, slots[k].node.Dir?)
    requires i == |text| + 1 <= path.Length && path[..i] == text + "/" && Printable(text) && |text| + Reach(slots) < path.Length
    requires Placed(vol.root, vol.cdir) && AtEntry(root0, vol.root, vol.cdir, text, d, slots, k, path.Length)
    modifies vol, path
    ensures path[..i] == old(path[..i])
    ensures vol.ops > old(vol.ops) && (fr == DiskErr <==> vol.FaultSince(old(vol.ops)))
    ensures Placed(vol.root, vol.cdir)
    ensures !Astray(vol.cdir, text) ==>
              && RoundDone(root0, vol.root, vol.cdir, text, d, slots, k, q, fr)
              && vol.removed == old(vol.removed) + SlotOrder(d, slots[k])[..q]
    ensures Astray(vol.cdir, text) && fr == Ok ==> Wandered(vol.root, d, slots, k + 1, path.Length)
    decreases Detour(vol.cdir, text), Weight(slots[k]), 4
  {
    hide Find, PutAt, Lost, Resolve, Opened, Crosses, Via, Prune, PruneSlot, Swept, Placed, Strayed, Sane, Reach, Sound, Stuck,
      PostOrder, SlotOrder, AtEntry, Text, Weight, Load, Astray, Printable, NameOk, Detour, Wandered, Progress;
    ghost var name := slots[k].name;
    EntryFits(slots, k);
    NothingBelow(d, slots[k]);
    EntryCdir(root0, vol.root, vol.cdir, text, d, slots, k, path.Length);
    AppendName(path, i, fno.fname);
    ghost var spelled := path[..];
    SpellsChild(spelled, text, name);
    fr, q := ClearEntry(vol, path, fno.isDir, text, d, slots, k, root0);
    PrefixKept(spelled, path[..], text, name);
    if fr == Ok {
      fr := UnlinkEntry(vol, path, text, d, slots, k, root0);
      if !Astray(vol.cdir, text) {
        RoundEnds(Via(root0, vol.cdir, text), vol.cdir, d, slots, k, fr);
        q := if fr == Ok then q + 1 else q;
      }
    }
  }

  /** The entry loop; i is where names go in the buffer. */
  method Sweep(vol: Volume, path: array<char>, i: nat, start: DirHandle, ghost text: string, ghost slots: seq<Slot>, ghost root0: Node)
    returns (fr: FResult, ghost m: nat)
    requires start.cursor == 0 && root0 == vol.root && Placed(vol.root, vol.cdir) && Sane(slots)
    requires i == |text| + 1 <= path.Length && path[..i] == text + "/" && Printable(text) && |text| + Reach(slots) < path.Length
    requires AtEntry(root0, vol.root, vol.cdir, text, start.path, slots, 0, path.Length) && PostOrder(start.path, slots[..0]) == []
    modifies vol, path
    ensures path[..i] == old(path[..i])
    ensures vol.ops > old(vol.ops) && (fr == DiskErr <==> vol.FaultSince(old(vol.ops)))
    ensures Placed(vol.root, vol.cdir)
    ensures !Astray(vol.cdir, text) ==>
              && Emptied(root0, vol.root, vol.cdir, text, start.path, slots, m, fr)
              && vol.removed == old(vol.removed) + PostOrder(start.path, slots)[..m]
    ensures Astray(vol.cdir, text) && fr == Ok ==> Wandered(vol.root, start.path, slots, |slots|, path.Length)
    decreases Detour(vol.cdir, text), Size(slots) + 1, 0
  {
    hide Find, PutAt, Lost, Opened, Placed, PostOrder, SlotOrder, Crosses, Sound, Via, Swept, Prune, Size, AtEntry, RoundDone, Emptied,
      Sane, Reach, Wandered, Detour, Weight, Astray, Printable, NameOk, Reads, NoneUsed, NamesFrom;
    ghost var removed0, ops0, d, cdir := vol.removed, vol.ops, start.path, vol.cdir;
    ghost var via := Via(root0, cdir, text);
    var dir := start;
    m := 0;
    SoundNone(via, cdir);
    EntryState(root0, root0, cdir, text, d, slots, 0, path.Length);
    while true
      invariant path[..i] == text + "/" && Placed(vol.root, cdir)
      invariant dir.path == d && dir.cursor <= |slots|
      invariant vol.ops >= ops0 && !vol.FaultSince(ops0)
      invariant AtEntry(root0, vol.root, cdir, text, d, slots, dir.cursor, path.Length)
      invariant !Astray(cdir, text) ==> Sound(via, cdir, PostOrder(d, slots[..dir.cursor]))
      invariant !Astray(cdir, text) ==> vol.removed == removed0 + PostOrder(d, slots[..dir.cursor])
      decreases |slots| - dir.cursor
    {
      ghost var c := dir.cursor;
      ghost var cur := if Astray(cdir, text) then slots else Swept(slots, c);
      EntryState(root0, vol.root, cdir, text, d, slots, c, path.Length);
      var fno, next;
      fr, fno, next := vol.ReadDir(dir, cur);
      if fr == Ok {
        ReadMeans(slots, c, Astray(cdir, text), cdir.Some?, fno, next.cursor);
      }
      if fr != Ok || fno.fname == "" {
        if fr == Ok {
          EntrySkip(root0, vol.root, cdir, text, d, slots, c, |slots|, path.Length);
          c := |slots|;
        }
        m := Size(slots[..c]);
        EntryState(root0, vol.root, cdir, text, d, slots, c, path.Length);
        if !Astray(cdir, text) {
          SweepEnds(root0, vol.root, cdir, text, d, slots, c, fr);
        }
        return;
      }
      dir := next;
      if vol.cdir.Some? && fno.fname[0] == '.' {
        EntrySkip(root0, vol.root, cdir, text, d, slots, c, next.cursor, path.Length);
        continue;
      }
      ghost var k := next.cursor - 1;
      EntrySkip(root0, vol.root, cdir, text, d, slots, c, k, path.Length);
      EntryWeight(slots, k);
      ghost var q;
      fr, q := RemoveEntry(vol, path, i, fno, text, d, slots, k, root0);
      RoundEffect(root0, vol.root, cdir, text, d, slots, k, q, fr, path.Length);
      if fr != Ok {
        m := Size(slots[..k]) + q;
        return;
      }
    }
  }

  /**
    empty_directory, called with the path text in the buffer.  Ghost m tells how many objects were removed.
    If a directory was opened, and not by the empty path leading to a current directory other than the root,
    the removed objects are the first m of its post-order listing, up to the first that is refused or out of
    reach, and nothing else in the tree changed.  After that empty path, success means the opposite: the
    directory is as it was, and the root has lost its objects of those names.  The buffer is restored.
  */
  method EmptyDirectory(vol: Volume, path: array<char>, ghost text: string) returns (fr: FResult, ghost m: nat)
    requires Spells(path, text) && Placed(vol.root, vol.cdir)
    requires Opened(vol.root, vol.cdir, text).Some? ==> Holds(vol.root, Opened(vol.root, vol.cdir, text).value, text, path.Length)
    requires Astray(vol.cdir, text) ==> Holds(vol.root, [], "", path.Length)
    modifies vol, path
    ensures path[..|text| + 1] == old(path[..|text| + 1])
    ensures Placed(vol.root, vol.cdir)
    ensures vol.ops > old(vol.ops) && (fr == DiskErr <==> vol.FaultSince(old(vol.ops)))
    ensures old(Opened(vol.root, vol.cdir, text)).None? ==>
              && m == 0 && vol.root == old(vol.root) && vol.removed == old(vol.removed)
              && fr == if vol.faults(old(vol.ops)) then DiskErr else OpenError(old(vol.root), vol.cdir, text)
    ensures old(Opened(vol.root, vol.cdir, text)).Some? && !Astray(vol.cdir, text) ==>
              var d := old(Opened(vol.root, vol.cdir, text)).value;
              && old(IsDir(vol.root, d))
              && var slots := Find(old(vol.root), d).value.slots;
                 && Emptied(old(vol.root), vol.root, vol.cdir, text, d, slots, m, fr)
                 && vol.removed == old(vol.removed) + PostOrder(d, slots)[..m]
    ensures Astray(vol.cdir, text) && fr == Ok ==>
              && Find(vol.root, vol.cdir.value) == Find(old(vol.root), vol.cdir.value)
              && old(IsDir(vol.root, vol.cdir.value))
              && var slots := Find(old(vol.root), vol.cdir.value).value.slots;
                 forall j :: 0 <= j < |slots| && slots[j].Used? ==> Find(vol.root, [slots[j].name]) == None
    decreases Detour(vol.cdir, text), Load(vol.root, vol.cdir, text), 1
  {
    hide Find, PutAt, Lost, Resolve, Opened, Crosses, Via, Prune, Swept, Placed, Strayed, Sane, Load, Reach, Sound, PostOrder, IsDir, Text, OpenError;
    m := 0;
    ghost var root0, cdir := vol.root, vol.cdir;
    TextIs(path[..], text);
    if Opened(root0, cdir, text).Some? {
      NothingYet(root0, cdir, text, Opened(root0, cdir, text).value, OpenedSlots(root0, cdir, text));
    }
    var dir;
    fr, dir := vol.OpenDir(path, text);
    if fr != Ok {
      return;
    }
    ghost var slots := OpenedSlots(root0, cdir, text);
    Begin(root0, cdir, text, dir.path, slots, path.Length);
    var i := 0;
    while path[i] != '\0'
      invariant i <= |text|
      decreases |text| - i
    {
      assert path[..|text|][i] == text[i];
      i := i + 1;
    }
    path[i] := '/';
    i := i + 1;
    fr, m := Sweep(vol, path, i, dir, text, slots, root0);
    i := i - 1;
    path[i] := '\0';
    if Astray(cdir, text) && fr == Ok {
      WanderedEnds(vol.root, dir.path, slots, path.Length);
    }
  }
}
