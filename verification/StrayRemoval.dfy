/**
  Emptying the empty path, where that means a current directory other than the root: the names are read
  there, but appended to the path they lead to the root's objects, and those are removed.
*/
module StrayRemoval {
  import opened Basics
  import opened DirectoryTree
  import opened PathWalk

  /** b is what is left of slot a: itself, or with less below it. */
  ghost predicate ThinSlot(a: Slot, b: Slot) {
    && a.Used? && b.Used? && a.name == b.name && NameOk(b.name) && (b.node.Dir? <==> a.node.Dir?)
    && (b.node.Dir? ==> Sane(b.node.slots) && Reach(b.node.slots) <= Reach(a.node.slots))
  }

  ghost predicate Thinner(a: seq<Slot>, b: seq<Slot>) {
    |a| == |b| && forall i :: 0 <= i < |a| && b[i].Used? ==> ThinSlot(a[i], b[i])
  }

  lemma {:induction false} ReachAtMost(slots: seq<Slot>, n: nat)
    requires forall i :: 0 <= i < |slots| ==> SlotReach(slots[i]) <= n
    ensures Reach(slots) <= n
  {
    if slots != [] {
      ReachAtMost(slots[1..], n);
    }
  }

  lemma ThinnerSane(a: seq<Slot>, b: seq<Slot>)
    requires Thinner(a, b) && Sane(a)
    ensures Sane(b) && Reach(b) <= Reach(a)
  {
    forall i | 0 <= i < |b|
      ensures SlotReach(b[i]) <= Reach(a)
    {
      ReachBound(a, i);
      if b[i].Used? {
        assert ThinSlot(a[i], b[i]);
      }
    }
    ReachAtMost(b, Reach(a));
    forall i, j | 0 <= i < j < |b| && b[i].Used? && b[j].Used?
      ensures b[i].name != b[j].name
    {
      assert ThinSlot(a[i], b[i]) && ThinSlot(a[j], b[j]);
    }
  }

  lemma ThinnerHas(a: seq<Slot>, b: seq<Slot>, name: string)
    requires Thinner(a, b) && Find(Dir(b), [name]).Some?
    ensures Find(Dir(a), [name]).Some?
  {
    var i := IndexOf(b, name);
    assert ThinSlot(a[i], b[i]);
    assert IndexOf(a, name) <= i;
    assert [name][1..] == [];
  }

  lemma {:induction false} PruneThinner(slots: seq<Slot>, m: nat, i: nat)
    requires Sane(slots) && i < |slots| && Prune(slots, m)[i].Used?
    ensures ThinSlot(slots[i], Prune(slots, m)[i])
    decreases slots, 0
  {
    if m >= Weight(slots[0]) {
      if i > 0 {
        assert Sane(slots[1..]);
        PruneThinner(slots[1..], m - Weight(slots[0]), i - 1);
      }
    } else if i == 0 {
      if slots[0].node.Dir? {
        PruneSane(slots[0].node.slots, m);
      }
    } else {
      assert Prune(slots, m)[i] == slots[i];
    }
  }

  lemma {:induction false} PruneSane(slots: seq<Slot>, m: nat)
    requires Sane(slots)
    ensures Sane(Prune(slots, m)) && Reach(Prune(slots, m)) <= Reach(slots)
    decreases slots, 1
  {
    forall i | 0 <= i < |slots| && Prune(slots, m)[i].Used?
      ensures ThinSlot(slots[i], Prune(slots, m)[i])
    {
      PruneThinner(slots, m, i);
    }
    ThinnerSane(slots, Prune(slots, m));
  }

  lemma ReplacedThinner(slots: seq<Slot>, i: nat, new_: Slot)
    requires Sane(slots) && i < |slots| && (new_.Used? ==> ThinSlot(slots[i], new_))
    ensures Thinner(slots, slots[i := new_])
  {
  }

  /** The state while the removals happen at the root: the names of the entries done so far are gone there. */
  ghost predicate Strayed(root: Node, d: Path, slots: seq<Slot>, k: nat, room: nat) {
    && root.Dir? && Sane(root.slots) && Reach(root.slots) < room && d != [] && k <= |slots|
    && forall j :: 0 <= j < k && slots[j].Used? ==> Find(root, [slots[j].name]) == None
  }

  /** And the directory that was asked for still holds everything. */
  ghost predicate Wandered(root: Node, d: Path, slots: seq<Slot>, k: nat, room: nat) {
    Strayed(root, d, slots, k, room) && Find(root, d) == Some(Dir(slots))
  }

  lemma StrayedSane(root: Node, d: Path, slots: seq<Slot>, k: nat, room: nat)
    requires Strayed(root, d, slots, k, room)
    ensures root.Dir? && Sane(root.slots) && Reach(root.slots) < room
  {
  }

  lemma WanderedPlaced(root: Node, cdir: Option<Path>, d: Path, slots: seq<Slot>, k: nat, room: nat)
    requires Wandered(root, d, slots, k, room) && cdir == Some(d)
    ensures Placed(root, cdir)
  {
  }

  lemma WanderedEnds(root: Node, d: Path, slots: seq<Slot>, room: nat)
    requires Wandered(root, d, slots, |slots|, room)
    ensures Find(root, d) == Some(Dir(slots))
    ensures forall j :: 0 <= j < |slots| && slots[j].Used? ==> Find(root, [slots[j].name]) == None
  {
  }

  lemma StrayedOn(root: Node, left: seq<Slot>, d: Path, slots: seq<Slot>, k: nat, room: nat)
    requires Strayed(root, d, slots, k, room) && Thinner(root.slots, left)
    ensures Strayed(Dir(left), d, slots, k, room)
  {
    ThinnerSane(root.slots, left);
    forall j | 0 <= j < k && slots[j].Used?
      ensures Find(Dir(left), [slots[j].name]) == None
    {
      if Find(Dir(left), [slots[j].name]).Some? {
        ThinnerHas(root.slots, left, slots[j].name);
      }
    }
  }

  /** Emptying the root's directory of that name. */
  lemma StrayClear(root: Node, name: string, q: nat, d: Path, slots: seq<Slot>, k: nat, room: nat)
    requires Strayed(root, d, slots, k, room) && IsDir(root, [name])
    ensures var root1 := PutAt(root, [name], Dir(Prune(Find(root, [name]).value.slots, q)));
            Strayed(root1, d, slots, k, room) && (d[0] != name ==> Find(root1, d) == Find(root, d))
  {
    var i := IndexOf(root.slots, name);
    var child := root.slots[i].node;
    ChildAt(root.slots, i, child);
    var new_ := Dir(Prune(child.slots, q));
    ChildAt(root.slots, i, new_);
    PruneSane(child.slots, q);
    hide Prune;
    ReplacedThinner(root.slots, i, root.slots[i].(node := new_));
    StrayedOn(root, root.slots[i := root.slots[i].(node := new_)], d, slots, k, room);
    OtherSlot(root.slots, i, new_, d[0]);
    FindHead(root, d);
    FindHead(Dir(root.slots[i := root.slots[i].(node := new_)]), d);
  }

  lemma RoomBelow(root: Node, name: string)
    requires root.Dir? && Sane(root.slots) && IsDir(root, [name])
    ensures Sane(Find(root, [name]).value.slots) && |"" + "/" + name| + Reach(Find(root, [name]).value.slots) <= Reach(root.slots)
  {
    var i := IndexOf(root.slots, name);
    ChildAt(root.slots, i, File);
    ReachBound(root.slots, i);
  }

  lemma AboveDir(root: Node, name: string, d: Path)
    requires d != [] && d[0] == name && IsDir(root, d)
    ensures var i := IndexOf(root.slots, name);
            i < |root.slots| && root.slots[i].node.Dir? && (d == [name] || !Empty(root.slots[i].node.slots))
  {
    var i := IndexOf(root.slots, name);
    FindHead(root, d);
    assert d == [name] + d[1..];
    if d[1..] != [] {
      FindHead(root.slots[i].node, d[1..]);
    }
  }

  /** Unlinking at the root succeeds only for an object that the current directory is not under. */
  lemma StrayUnlink(root: Node, name: string, d: Path, slots: seq<Slot>, k: nat, room: nat)
    requires Strayed(root, d, slots, k, room) && Find(root, [name]).Some? && IsDir(root, d)
    requires k < |slots| && slots[k].Used? && slots[k].name == name
    requires d[0] != name ==> Find(root, d) == Some(Dir(slots))
    requires var i := IndexOf(root.slots, name);
             i < |root.slots| && (root.slots[i].node.Dir? ==> d != [name] && Empty(root.slots[i].node.slots))
    ensures Wandered(PutAt(root, [], Dir(root.slots[IndexOf(root.slots, name) := Deleted])), d, slots, k + 1, room)
  {
    var i := IndexOf(root.slots, name);
    var left := root.slots[i := Deleted];
    ReplacedThinner(root.slots, i, Deleted);
    StrayedOn(root, left, d, slots, k, room);
    FindHead(root, d);
    FindHead(Dir(left), d);
    SlotGone(root.slots, i, d[0]);
    SlotGone(root.slots, i, name);
    if d[0] == name {
      AboveDir(root, name, d);
    }
    FindHead(Dir(left), [name]);
  }

  lemma StrayResolves(root: Node, cdir: Option<Path>, d: Path, name: string, slots: seq<Slot>, k: nat, room: nat)
    requires Astray(cdir, "") && cdir == Some(d) && Placed(root, cdir) && Strayed(root, d, slots, k, room) && NameOk(name)
    ensures Resolve(root, cdir, "" + "/" + name) == if Find(root, [name]).Some? then Hit([name], false) else Miss(NoFile)
    ensures Up([name]) == [] && Last([name]) == name && Find(root, []) == Some(root) && root.Dir?
  {
    hide Resolve, Opened;
    AstrayOpens(root, cdir, "", name);
    ChildResolves(root, cdir, "", name);
    assert [] + [name] == [name];
  }
}
