/**
  Directories as FatFs sees them: a directory is a row of entry slots, and removing an entry marks
  its slot deleted.
*/
module DirectoryTree {
  import opened Basics

  datatype Node = File | Dir(slots: seq<Slot>)
  datatype Slot = Deleted | Dot(dots: string) | Used(name: string, readOnly: bool, node: Node)

  type Path = seq<string>

  /** An object that emptying a directory has to remove. */
  datatype Item = Item(path: Path, readOnly: bool)

  // ---- names ----

  predicate IsSep(c: char) {
    c == '/' || c == '\\'
  }

  /** A character that may stand in a name; any other ends the path or is refused. */
  predicate LegalChar(c: char) {
    c >= ' ' && !IsSep(c) && c !in "\"*:<>?|\U{7F}"
  }

  /** The names that f_readdir reports: at most 8.3 characters, no leading dot, no trailing dot or space. */
  predicate NameOk(name: string) {
    && 0 < |name| <= 12 && name[0] != '.'
    && name[|name| - 1] != ' ' && name[|name| - 1] != '.'
    && forall i :: 0 <= i < |name| ==> LegalChar(name[i])
  }

  // ---- looking up and replacing nodes ----

  function IndexOf(slots: seq<Slot>, name: string): (i: nat)
    ensures i <= |slots|
    ensures i < |slots| ==> slots[i].Used? && slots[i].name == name
    ensures forall j :: 0 <= j < i ==> !(slots[j].Used? && slots[j].name == name)
  {
    if slots == [] then 0
    else if slots[0].Used? && slots[0].name == name then 0
    else 1 + IndexOf(slots[1..], name)
  }

  function Find(node: Node, path: Path): Option<Node>
    decreases path
  {
    if path == [] then Some(node)
    else if node.File? || IndexOf(node.slots, path[0]) == |node.slots| then None
    else Find(node.slots[IndexOf(node.slots, path[0])].node, path[1..])
  }

  /** The tree with the node at path replaced; unchanged if there is none. */
  function PutAt(node: Node, path: Path, new_: Node): Node
    decreases path
  {
    if path == [] then new_
    else if node.File? || IndexOf(node.slots, path[0]) == |node.slots| then node
    else
      var i := IndexOf(node.slots, path[0]);
      Dir(node.slots[i := node.slots[i].(node := PutAt(node.slots[i].node, path[1..], new_))])
  }

  lemma SlotKept(slots: seq<Slot>, i: nat, new_: Node)
    requires i < |slots| && slots[i].Used? && IndexOf(slots, slots[i].name) == i
    ensures IndexOf(slots[i := slots[i].(node := new_)], slots[i].name) == i
  {
  }

  lemma {:induction false} FindPut(root: Node, path: Path, new_: Node)
    requires Find(root, path).Some?
    ensures Find(PutAt(root, path, new_), path) == Some(new_)
    decreases path
  {
    if path != [] {
      var i := IndexOf(root.slots, path[0]);
      FindPut(root.slots[i].node, path[1..], new_);
      SlotKept(root.slots, i, PutAt(root.slots[i].node, path[1..], new_));
    }
  }

  lemma {:induction false} PutSame(root: Node, path: Path)
    requires Find(root, path).Some?
    ensures PutAt(root, path, Find(root, path).value) == root
    decreases path
  {
    if path != [] {
      var i := IndexOf(root.slots, path[0]);
      PutSame(root.slots[i].node, path[1..]);
      assert root.slots[i := root.slots[i]] == root.slots;
    }
  }

  /** Replacing twice along the same path: the second replacement happens inside the first. */
  lemma {:induction false} PutInside(root: Node, path: Path, mid: Node, rest: Path, new_: Node)
    requires Find(root, path).Some?
    ensures PutAt(PutAt(root, path, mid), path + rest, new_) == PutAt(root, path, PutAt(mid, rest, new_))
    ensures Find(PutAt(root, path, mid), path + rest) == Find(mid, rest)
    decreases path
  {
    if path == [] {
      assert path + rest == rest;
    } else {
      var i := IndexOf(root.slots, path[0]);
      PutInside(root.slots[i].node, path[1..], mid, rest, new_);
      SlotKept(root.slots, i, PutAt(root.slots[i].node, path[1..], mid));
      assert (path + rest)[1..] == path[1..] + rest;
    }
  }

  /** A child of a directory: finding it and replacing it touches only its slot. */
  lemma ChildAt(slots: seq<Slot>, i: nat, new_: Node)
    requires i < |slots| && slots[i].Used? && IndexOf(slots, slots[i].name) == i
    ensures Find(Dir(slots), [slots[i].name]) == Some(slots[i].node)
    ensures PutAt(Dir(slots), [slots[i].name], new_) == Dir(slots[i := slots[i].(node := new_)])
  {
    var path := [slots[i].name];
    assert path[1..] == [];
    assert PutAt(slots[i].node, path[1..], new_) == new_;
  }

  // ---- what emptying a directory removes, in which order ----

  function Size(slots: seq<Slot>): nat {
    if slots == [] then 0 else Weight(slots[0]) + Size(slots[1..])
  }

  function Weight(slot: Slot): nat {
    match slot
    case Used(_, _, Dir(slots)) => Size(slots) + 1
    case Used(_, _, File) => 1
    case _ => 0
  }

  /** The objects below a directory, each after everything below it. */
  function PostOrder(path: Path, slots: seq<Slot>): (items: seq<Item>)
    ensures |items| == Size(slots)
    decreases slots
  {
    if slots == [] then [] else SlotOrder(path, slots[0]) + PostOrder(path, slots[1..])
  }

  function SlotOrder(path: Path, slot: Slot): (items: seq<Item>)
    ensures |items| == Weight(slot)
    decreases slot
  {
    match slot
    case Used(name, ro, Dir(slots)) => PostOrder(path + [name], slots) + [Item(path + [name], ro)]
    case Used(name, ro, File) => [Item(path + [name], ro)]
    case _ => []
  }

  /** The slots with the first m objects of the listing removed. */
  function Prune(slots: seq<Slot>, m: nat): (r: seq<Slot>)
    ensures |r| == |slots|
  {
    if slots == [] then []
    else if m >= Weight(slots[0]) then [Gone(slots[0])] + Prune(slots[1..], m - Weight(slots[0]))
    else [PruneSlot(slots[0], m)] + slots[1..]
  }

  function Gone(slot: Slot): Slot {
    if slot.Used? then Deleted else slot
  }

  /** A used slot whose object stays, with the first m objects below it removed. */
  function PruneSlot(slot: Slot, m: nat): Slot {
    match slot
    case Used(name, ro, Dir(slots)) => Used(name, ro, Dir(Prune(slots, m)))
    case _ => slot
  }

  function Swept(slots: seq<Slot>, k: nat): (r: seq<Slot>)
    requires k <= |slots|
    ensures |r| == |slots|
    ensures forall i :: 0 <= i < |slots| ==> r[i] == if i < k then Gone(slots[i]) else slots[i]
  {
    seq(|slots|, i requires 0 <= i < |slots| => if i < k then Gone(slots[i]) else slots[i])
  }

  lemma {:induction false} PruneZero(slots: seq<Slot>)
    ensures Prune(slots, 0) == slots
  {
    if slots != [] {
      if Weight(slots[0]) == 0 {
        PruneZero(slots[1..]);
      } else if slots[0].node.Dir? {
        PruneZero(slots[0].node.slots);
      }
    }
  }

  lemma PruneFirst(slots: seq<Slot>, q: nat)
    requires slots != [] && q < Weight(slots[0])
    ensures Prune(slots, Size(slots[..0]) + q) == Swept(slots, 0)[0 := PruneSlot(slots[0], q)]
  {
    assert Prune(slots, q) == [PruneSlot(slots[0], q)] + slots[1..];
  }

  lemma PruneNone(slots: seq<Slot>)
    ensures Prune(slots, Size(slots[..0])) == Swept(slots, 0)
  {
    PruneZero(slots);
    assert Swept(slots, 0) == slots;
  }

  /** Having removed the first k slots' objects and then q objects of slot k. */
  lemma {:induction false} PruneMidway(slots: seq<Slot>, k: nat, q: nat)
    requires k < |slots| && q < Weight(slots[k])
    ensures Prune(slots, Size(slots[..k]) + q) == Swept(slots, k)[k := PruneSlot(slots[k], q)]
  {
    hide Prune, Weight, Size, Gone, PruneSlot, Swept;
    if k == 0 {
      PruneFirst(slots, q);
    } else {
      SizeHead(slots, k);
      PruneStep(slots, Size(slots[..k]) + q);
      PruneMidway(slots[1..], k - 1, q);
      SweptShift(slots, k);
      UpdateShift(Gone(slots[0]), Swept(slots[1..], k - 1), k, PruneSlot(slots[k], q));
    }
  }

  /** Having removed the first k slots' objects. */
  lemma {:induction false} PruneBoundary(slots: seq<Slot>, k: nat)
    requires k <= |slots|
    ensures Prune(slots, Size(slots[..k])) == Swept(slots, k)
  {
    hide Prune, Weight, Size, Gone, Swept;
    if k == 0 {
      PruneNone(slots);
    } else {
      SizeHead(slots, k);
      PruneStep(slots, Size(slots[..k]));
      PruneBoundary(slots[1..], k - 1);
      SweptShift(slots, k);
    }
  }

  lemma SweptShift(slots: seq<Slot>, k: nat)
    requires 0 < k <= |slots|
    ensures Swept(slots, k) == [Gone(slots[0])] + Swept(slots[1..], k - 1)
  {
  }

  lemma UpdateShift<T>(a: T, s: seq<T>, k: nat, x: T)
    requires 0 < k <= |s|
    ensures ([a] + s)[k := x] == [a] + s[k - 1 := x]
  {
  }

  lemma PruneStep(slots: seq<Slot>, m: nat)
    requires slots != [] && m >= Weight(slots[0])
    ensures Prune(slots, m) == [Gone(slots[0])] + Prune(slots[1..], m - Weight(slots[0]))
  {
  }

  lemma SizeHead(slots: seq<Slot>, k: nat)
    requires 0 < k <= |slots|
    ensures Size(slots[..k]) == Weight(slots[0]) + Size(slots[1..][..k - 1])
  {
    assert slots[..k][1..] == slots[1..][..k - 1];
  }

  lemma {:induction false} PruneSlots(slots: seq<Slot>)
    ensures Prune(slots, Size(slots)) == Swept(slots, |slots|)
  {
    if slots != [] {
      PruneSlots(slots[1..]);
      assert Swept(slots, |slots|) == [Gone(slots[0])] + Swept(slots[1..], |slots| - 1);
    }
  }

  predicate Empty(slots: seq<Slot>) {
    NoneUsed(slots, 0, |slots|)
  }

  predicate NoneUsed(slots: seq<Slot>, a: nat, b: nat)
    requires a <= b <= |slots|
  {
    forall i :: a <= i < b ==> !slots[i].Used?
  }

  /** Removing everything leaves an empty directory. */
  lemma PruneAll(slots: seq<Slot>)
    ensures Empty(Prune(slots, Size(slots)))
  {
    PruneSlots(slots);
  }

  /** What is left to remove after m objects is the rest of the listing. */
  lemma {:induction false} PruneRest(path: Path, slots: seq<Slot>, m: nat)
    requires m <= Size(slots)
    ensures PostOrder(path, Prune(slots, m)) == PostOrder(path, slots)[m..]
    decreases slots
  {
    if slots != [] {
      var w, left := Weight(slots[0]), Prune(slots, m);
      DropFromSum(SlotOrder(path, slots[0]), PostOrder(path, slots[1..]), m);
      hide SlotOrder, Weight;
      if m >= w {
        PruneRest(path, slots[1..], m - w);
        assert left[1..] == Prune(slots[1..], m - w);
        NothingOfGone(path, slots[0]);
      } else {
        assert left[1..] == slots[1..];
        SlotRest(path, slots[0], m);
      }
    }
  }

  lemma DropFromSum<T>(a: seq<T>, b: seq<T>, m: nat)
    requires m <= |a| + |b|
    ensures (a + b)[m..] == if m < |a| then a[m..] + b else [] + b[m - |a|..]
  {
  }

  lemma NothingOfGone(path: Path, slot: Slot)
    ensures SlotOrder(path, Gone(slot)) == []
  {
  }

  lemma {:induction false} SlotRest(path: Path, slot: Slot, m: nat)
    requires m < Weight(slot)
    ensures SlotOrder(path, PruneSlot(slot, m)) == SlotOrder(path, slot)[m..]
    decreases slot
  {
    if slot.node.Dir? {
      PruneRest(path + [slot.name], slot.node.slots, m);
    }
  }

  lemma {:induction false} SizeSplit(path: Path, slots: seq<Slot>, k: nat)
    requires k <= |slots|
    ensures PostOrder(path, slots) == PostOrder(path, slots[..k]) + PostOrder(path, slots[k..])
    ensures Size(slots) == Size(slots[..k]) + Size(slots[k..])
  {
    if k > 0 {
      assert slots[..k][1..] == slots[1..][..k - 1] && slots[1..][k - 1..] == slots[k..];
      SizeSplit(path, slots[1..], k - 1);
    } else {
      assert slots[..0] == [] && slots[0..] == slots;
    }
  }

  /** Slots without an object add nothing. */
  lemma {:induction false} DeadSlots(path: Path, slots: seq<Slot>, a: nat, b: nat)
    requires a <= b <= |slots| && NoneUsed(slots, a, b)
    ensures PostOrder(path, slots[..b]) == PostOrder(path, slots[..a])
    ensures Size(slots[..b]) == Size(slots[..a])
    ensures Swept(slots, b) == Swept(slots, a)
    decreases b
  {
    if a < b {
      DeadSlots(path, slots, a, b - 1);
      PostOrderNext(path, slots, b - 1);
      assert SlotOrder(path, slots[b - 1]) == [];
    }
  }

  lemma PostOrderNext(path: Path, slots: seq<Slot>, k: nat)
    requires k < |slots|
    ensures PostOrder(path, slots[..k + 1]) == PostOrder(path, slots[..k]) + SlotOrder(path, slots[k])
    ensures Size(slots[..k + 1]) == Size(slots[..k]) + Weight(slots[k])
  {
    SizeSplit(path, slots[..k + 1], k);
    assert slots[..k + 1][..k] == slots[..k] && slots[..k + 1][k..] == [slots[k]];
    assert PostOrder(path, [slots[k]]) == SlotOrder(path, slots[k]) + PostOrder(path, []);
  }

  // ---- directories the file system may hold ----

  ghost predicate Distinct(slots: seq<Slot>) {
    forall i, j :: 0 <= i < j < |slots| && slots[i].Used? && slots[j].Used? ==> slots[i].name != slots[j].name
  }

  /** Good, distinct names at every level. */
  ghost predicate Sane(slots: seq<Slot>) {
    && Distinct(slots)
    && forall i :: 0 <= i < |slots| && slots[i].Used? ==>
         NameOk(slots[i].name) && (slots[i].node.Dir? ==> Sane(slots[i].node.slots))
  }

  /** The names from slot a on are sound. */
  ghost predicate NamesFrom(slots: seq<Slot>, a: nat) {
    forall i :: a <= i < |slots| && slots[i].Used? ==> NameOk(slots[i].name)
  }

  /** The most characters a path grows by on the way to any object below a directory. */
  function Reach(slots: seq<Slot>): nat {
    if slots == [] then 0 else Max(SlotReach(slots[0]), Reach(slots[1..]))
  }

  function SlotReach(slot: Slot): nat {
    match slot
    case Used(name, _, Dir(slots)) => 1 + |name| + Reach(slots)
    case Used(name, _, File) => 1 + |name|
    case _ => 0
  }

  lemma {:induction false} ReachBound(slots: seq<Slot>, k: nat)
    requires k < |slots|
    ensures SlotReach(slots[k]) <= Reach(slots)
  {
    if k > 0 {
      ReachBound(slots[1..], k - 1);
    }
  }

  /** In a half-swept sane directory a remaining name still leads to its slot. */
  lemma SweptIndex(slots: seq<Slot>, k: nat, i: nat)
    requires Distinct(slots) && k <= i < |slots| && slots[i].Used?
    ensures IndexOf(Swept(slots, k), slots[i].name) == i
  {
    hide IndexOf;
    var j := IndexOf(Swept(slots, k), slots[i].name);
    assert Swept(slots, k)[i] == slots[i];
    assert j <= i;
    assert Swept(slots, k)[j].Used?;
  }

  /** Replacing the node of slot k of a directory within a tree. */
  lemma PutChild(root: Node, path: Path, slots: seq<Slot>, k: nat, new_: Node)
    requires Find(root, path).Some?
    requires k < |slots| && slots[k].Used? && IndexOf(slots, slots[k].name) == k
    ensures Find(PutAt(root, path, Dir(slots)), path + [slots[k].name]) == Some(slots[k].node)
    ensures PutAt(PutAt(root, path, Dir(slots)), path + [slots[k].name], new_)
         == PutAt(root, path, Dir(slots[k := slots[k].(node := new_)]))
  {
    hide Find, PutAt, IndexOf;
    ChildAt(slots, k, new_);
    PutInside(root, path, Dir(slots), [slots[k].name], new_);
  }

  /** Replacing a directory twice. */
  lemma PutAgain(root: Node, path: Path, mid: Node, new_: Node)
    requires Find(root, path).Some?
    ensures Find(PutAt(root, path, mid), path) == Some(mid)
    ensures PutAt(PutAt(root, path, mid), path, new_) == PutAt(root, path, new_)
  {
    PutInside(root, path, mid, [], new_);
    assert path + [] == path;
  }

  /** Replacing a node leaves everything that is neither above nor below it alone. */
  lemma {:induction false} OutsideUntouched(root: Node, path: Path, new_: Node, other: Path)
    requires !(path <= other) && !(other <= path)
    ensures Find(PutAt(root, path, new_), other) == Find(root, other)
    decreases path
  {
    if root.Dir? && IndexOf(root.slots, path[0]) < |root.slots| {
      var i := IndexOf(root.slots, path[0]);
      var put := PutAt(root.slots[i].node, path[1..], new_);
      if other[0] == path[0] {
        SlotKept(root.slots, i, put);
        OutsideUntouched(root.slots[i].node, path[1..], new_, other[1..]);
      } else {
        OtherIndexKept(root.slots, i, put, other[0]);
      }
    }
  }

  lemma OtherIndexKept(slots: seq<Slot>, i: nat, new_: Node, name: string)
    requires i < |slots| && slots[i].Used? && slots[i].name != name
    ensures IndexOf(slots[i := slots[i].(node := new_)], name) == IndexOf(slots, name)
  {
    hide IndexOf;
    var after := slots[i := slots[i].(node := new_)];
    assert forall j :: 0 <= j < |slots| && j != i ==> after[j] == slots[j];
  }
}
