/**
  The path buffer, and the directory functions of FatFs on it: f_opendir, f_readdir and f_unlink (ff.c),
  any call of which may fail at the disk.
*/
module DirectoryVolume {
  import opened Basics
  import opened DirectoryTree
  import opened PathWalk

  /** An open directory: which one, and the next slot to read. */
  datatype DirHandle = DirHandle(path: Path, cursor: nat)

  /** What f_readdir reports; the empty name means the end of the directory. */
  datatype FilInfo = FilInfo(fname: string, isDir: bool)

  /** The position of the terminator. */
  function TextEnd(s: seq<char>): (n: nat)
    ensures n <= |s|
    ensures n < |s| ==> s[n] == '\0'
    ensures forall i :: 0 <= i < n ==> s[i] != '\0'
  {
    if s == [] || s[0] == '\0' then 0 else 1 + TextEnd(s[1..])
  }

  function Text(s: seq<char>): string {
    s[..TextEnd(s)]
  }

  lemma TextIs(s: seq<char>, text: string)
    requires |text| < |s| && s[..|text|] == text && s[|text|] == '\0'
    requires forall i :: 0 <= i < |text| ==> text[i] != '\0'
    ensures Text(s) == text
  {
    assert forall j :: 0 <= j < |text| ==> s[j] == s[..|text|][j];
  }

  /** What the buffer may spell: no control character, and no volume prefix. */
  predicate Printable(text: string) {
    forall i :: 0 <= i < |text| ==> text[i] >= ' ' && text[i] != ':'
  }

  ghost predicate Spells(path: array<char>, text: string)
    reads path
  {
    |text| < path.Length && path[..|text|] == text && path[|text|] == '\0' && Printable(text)
  }

  lemma PrintableName(text: string, name: string)
    requires Printable(text) && NameOk(name)
    ensures Printable(text + "/" + name)
  {
  }

  /** The buffer after the copy loop. */
  lemma SpellsChild(s: seq<char>, text: string, name: string)
    requires |text| + 1 + |name| < |s| && Printable(text) && NameOk(name)
    requires s[..|text| + 1] == text + "/" && s[|text| + 1..|text| + 1 + |name|] == name && s[|text| + 1 + |name|] == '\0'
    ensures s[..|text + "/" + name|] == text + "/" + name && Printable(text + "/" + name)
    ensures |text + "/" + name| == |text| + 1 + |name|
  {
    PrintableName(text, name);
    assert s[..|text| + 1 + |name|] == s[..|text| + 1] + s[|text| + 1..|text| + 1 + |name|];
  }

  /** As long as that much of the buffer stays, so does what it spells. */
  lemma PrefixKept(s: seq<char>, t: seq<char>, text: string, name: string)
    requires |s| == |t| && |text| + |name| + 2 <= |s| && s[..|text| + |name| + 2] == t[..|text| + |name| + 2]
    requires Printable(text + "/" + name) && s[..|text| + 1 + |name|] == text + "/" + name && s[|text| + 1 + |name|] == '\0'
    ensures Text(t) == text + "/" + name && t[..|text| + 1] == s[..|text| + 1]
  {
    var n := |text| + 1 + |name|;
    assert t[..n] == t[..n + 1][..n] && s[..n] == s[..n + 1][..n];
    assert t[n] == t[..n + 1][n] && s[n] == s[..n + 1][n];
    assert t[..|text| + 1] == t[..n + 1][..|text| + 1] && s[..|text| + 1] == s[..n + 1][..|text| + 1];
    TextIs(t, text + "/" + name);
  }

  /** The copy loop: put name and its terminator at position i. */
  method AppendName(path: array<char>, i: nat, name: string)
    requires i + |name| < path.Length
    modifies path
    ensures path[..i] == old(path[..i])
    ensures path[i..i + |name|] == name && path[i + |name|] == '\0'
  {
    var j := 0;
    while true
      invariant j <= |name|
      invariant path[..i] == old(path[..i])
      invariant path[i..i + j] == name[..j]
      decreases |name| - j
    {
      path[i + j] := if j < |name| then name[j] else '\0';
      if j == |name| {
        break;
      }
      j := j + 1;
    }
  }

  /** What reading a directory from slot a on reports: the end, a dot entry, or the next object; b is where to go on. */
  ghost predicate Reads(slots: seq<Slot>, a: nat, rpath: bool, fno: FilInfo, b: nat)
    requires a <= |slots|
  {
    && a <= b <= |slots|
    && (fno.fname == "" ==> b == |slots| && NoneUsed(slots, a, b))
    && (fno.fname != "" && fno.fname[0] == '.' ==> a < b && rpath && NoneUsed(slots, a, b))
    && (fno.fname != "" && fno.fname[0] != '.' ==>
          && a < b
          && NoneUsed(slots, a, b - 1)
          && slots[b - 1].Used?
          && fno == FilInfo(slots[b - 1].name, slots[b - 1].node.Dir?))
  }

  /** What was read, said of the directory as it was at first. */
  lemma ReadMeans(slots: seq<Slot>, c: nat, astray: bool, rpath: bool, fno: FilInfo, b: nat)
    requires c <= |slots| && Reads(if astray then slots else Swept(slots, c), c, rpath, fno, b)
    ensures c <= b <= |slots|
    ensures fno.fname == "" ==> NoneUsed(slots, c, |slots|)
    ensures fno.fname != "" && rpath && fno.fname[0] == '.' ==> c < b && NoneUsed(slots, c, b)
    ensures fno.fname != "" && !(rpath && fno.fname[0] == '.') ==>
              && c < b && NoneUsed(slots, c, b - 1)
              && slots[b - 1].Used? && fno == FilInfo(slots[b - 1].name, slots[b - 1].node.Dir?)
  {
    var cur := if astray then slots else Swept(slots, c);
    assert forall i :: c <= i < |slots| ==> cur[i] == slots[i];
  }

  lemma {:induction false} ParentOf(root: Node, p: Path)
    requires p != [] && Find(root, p).Some?
    ensures IsDir(root, Up(p))
    ensures var slots := Find(root, Up(p)).value.slots;
            IndexOf(slots, Last(p)) < |slots| && slots[IndexOf(slots, Last(p))].node == Find(root, p).value
    decreases p
  {
    var child := root.slots[IndexOf(root.slots, p[0])].node;
    if |p| > 1 {
      ParentOf(child, p[1..]);
      assert Up(p)[1..] == Up(p[1..]);
    } else {
      assert p[1..] == [];
    }
  }

  class Volume {
    const faults: nat -> bool
    const cdir: Option<Path>
    var root: Node
    var ops: nat
    ghost var removed: seq<Item>

    /** cdir is the current directory, or None where the file system is built without relative paths. */
    constructor (root: Node, cdir: Option<Path>, faults: nat -> bool)
      ensures this.root == root && this.cdir == cdir && this.faults == faults && ops == 0 && removed == []
    {
      this.root, this.cdir, this.faults, ops, removed := root, cdir, faults, 0, [];
    }

    /** Some call since the given one failed at the disk. */
    ghost predicate FaultSince(from: nat)
      reads this
    {
      exists k :: from <= k < ops && faults(k)
    }

    /** Each call reaches the disk; any of them may fail there. */
    method Tick() returns (fail: bool)
      modifies this`ops
      ensures ops == old(ops) + 1 && fail == faults(old(ops))
    {
      fail := faults(ops);
      ops := ops + 1;
    }

    /** f_opendir */
    method OpenDir(path: array<char>, ghost text: string) returns (res: FResult, dir: DirHandle)
      requires Text(path[..]) == text
      modifies this`ops
      ensures ops == old(ops) + 1
      ensures res == if faults(old(ops)) then DiskErr
                     else if Opened(root, cdir, text).Some? then Ok else OpenError(root, cdir, text)
      ensures res == Ok ==> dir == DirHandle(Opened(root, cdir, text).value, 0)
    {
      dir := DirHandle([], 0);
      var fail := Tick();
      if fail {
        return DiskErr, dir;
      }
      var t := Resolve(root, cdir, Text(path[..]));
      if t.Hit? && IsDir(root, t.path) {
        return Ok, DirHandle(t.path, 0);
      }
      return if t == Miss(InvalidName) then InvalidName else NoPath, dir;
    }

    /** f_readdir: the next entry that is not deleted, and with relative paths enabled also dot entries. */
    method ReadDir(dir: DirHandle, ghost slots: seq<Slot>) returns (res: FResult, fno: FilInfo, next: DirHandle)
      requires Find(root, dir.path) == Some(Dir(slots)) && dir.cursor <= |slots|
      requires NamesFrom(slots, dir.cursor)
      modifies this`ops
      ensures ops == old(ops) + 1 && next.path == dir.path
      ensures if faults(old(ops)) then res == DiskErr && next == dir else res == Ok
      ensures res == Ok ==> Reads(slots, dir.cursor, cdir.Some?, fno, next.cursor)
    {
      res, fno, next := DiskErr, FilInfo("", false), dir;
      var fail := Tick();
      if fail {
        return;
      }
      var cur := Find(root, dir.path).value.slots;
      var k := dir.cursor;
      while k < |cur| && !cur[k].Used? && !(cdir.Some? && cur[k].Dot? && cur[k].dots != "" && cur[k].dots[0] == '.')
        invariant dir.cursor <= k <= |cur|
        invariant NoneUsed(cur, dir.cursor, k)
      {
        k := k + 1;
      }
      res := Ok;
      if k < |cur| {
        fno := if cur[k].Used? then FilInfo(cur[k].name, cur[k].node.Dir?) else FilInfo(cur[k].dots, true);
        next := dir.(cursor := k + 1);
      } else {
        next := dir.(cursor := k);
      }
    }

    /**
      f_unlink: the origin of a path and what a dot segment names cannot be removed; read-only objects, the
      current directory and directories that still hold something are refused.
    */
    method Unlink(path: array<char>, ghost text: string) returns (res: FResult)
      requires Text(path[..]) == text
      modifies this`ops, this`root, this`removed
      ensures ops == old(ops) + 1
      ensures faults(old(ops)) <==> res == DiskErr
      ensures res != Ok ==> root == old(root) && removed == old(removed)
      ensures !faults(old(ops)) && Resolve(old(root), cdir, text).Miss? ==> res == Resolve(old(root), cdir, text).res
      ensures !faults(old(ops)) && Resolve(old(root), cdir, text).Hit? ==>
                var p := Resolve(old(root), cdir, text).path;
                if Resolve(old(root), cdir, text).fixed then res == InvalidName else
                && IsDir(old(root), Up(p))
                && var slots := Find(old(root), Up(p)).value.slots;
                   var i := IndexOf(slots, Last(p));
                   && i < |slots|
                   && var stuck := slots[i].readOnly || (slots[i].node.Dir? && (cdir == Some(p) || !Empty(slots[i].node.slots)));
                      && res == (if stuck then Denied else Ok)
                      && (!stuck ==> root == PutAt(old(root), Up(p), Dir(slots[i := Deleted])))
                      && (!stuck ==> removed == old(removed) + [Item(p, slots[i].readOnly)])
    {
      var fail := Tick();
      if fail {
        return DiskErr;
      }
      var t := Resolve(root, cdir, Text(path[..]));
      if t.Miss? {
        return t.res;
      }
      if t.fixed {
        return InvalidName;
      }
      ParentOf(root, t.path);
      var slots := Find(root, Up(t.path)).value.slots;
      var i := IndexOf(slots, Last(t.path));
      if slots[i].readOnly {
        return Denied;
      }
      if slots[i].node.Dir? {
        if cdir == Some(t.path) {
          return Denied;
        }
        if !Empty(slots[i].node.slots) {
          return Denied;
        }
      }
      removed := removed + [Item(t.path, slots[i].readOnly)];
      root := PutAt(root, Up(t.path), Dir(slots[i := Deleted]));
      return Ok;
    }
  }
}
