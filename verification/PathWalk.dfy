/**
  How FatFs follows a path (ff.c, functions follow_path and create_name, in the long file name
  configuration): from the root or, where relative paths are enabled, from the current directory, one
  segment after the other, with dot segments leading to what the dot entries of a directory say.
*/
module PathWalk {
  import opened Basics
  import opened DirectoryTree

  datatype FResult = Ok | DiskErr | NoPath | NoFile | InvalidName | Denied

  const MAX_LFN: nat := 255

  // ---- segments ----

  /** The segments of s, word being the part already read of the first; a trailing separator leaves an empty last one. */
  function Words(s: string, word: string): (ws: seq<string>)
    ensures |ws| >= 1
    decreases s
  {
    if s == "" then [word]
    else if !IsSep(s[0]) then Words(s[1..], word + [s[0]])
    else if word == "" then Words(s[1..], "")
    else [word] + Words(s[1..], "")
  }

  function Last<T>(s: seq<T>): T
    requires s != []
  {
    s[|s| - 1]
  }

  function Front<T>(s: seq<T>): seq<T>
    requires s != []
  {
    s[..|s| - 1]
  }

  /** A segment without its trailing dots and spaces. */
  function Trim(w: string): string {
    if w != "" && (Last(w) == ' ' || Last(w) == '.') then Trim(Front(w)) else w
  }

  predicate GoodWord(w: string) {
    |w| <= MAX_LFN && (forall i :: 0 <= i < |w| ==> LegalChar(w[i])) && Trim(w) != ""
  }

  predicate IsDot(w: string) {
    w == "." || w == ".."
  }

  lemma NameIsWord(name: string)
    requires NameOk(name)
    ensures GoodWord(name) && Trim(name) == name && !IsDot(name)
  {
  }

  lemma {:induction false} WordsOfName(name: string, word: string)
    requires forall i :: 0 <= i < |name| ==> !IsSep(name[i])
    ensures Words(name, word) == [word + name]
    decreases name
  {
    if name == "" {
      assert word + name == word;
    } else {
      WordsOfName(name[1..], word + [name[0]]);
      assert word + [name[0]] + name[1..] == word + name;
    }
  }

  /** Appending a slash and a name appends a segment, in the place of an empty last one. */
  lemma {:induction false} WordsAppend(s: string, word: string, name: string)
    requires NameOk(name)
    ensures Words(s + "/" + name, word) == (if Last(Words(s, word)) == "" then Front(Words(s, word)) else Words(s, word)) + [name]
    decreases s
  {
    var t := s + "/" + name;
    if s == "" {
      assert t[0] == '/' && t[1..] == name;
      WordsOfName(name, "");
      assert "" + name == name;
      assert Words(t, word) == if word == "" then Words(name, "") else [word] + Words(name, "");
    } else {
      assert t[0] == s[0] && t[1..] == s[1..] + "/" + name;
      if !IsSep(s[0]) {
        WordsAppend(s[1..], word + [s[0]], name);
      } else {
        WordsAppend(s[1..], "", name);
      }
    }
  }

  // ---- the walk ----

  predicate IsDir(root: Node, p: Path) {
    Find(root, p).Some? && Find(root, p).value.Dir?
  }

  predicate HoldsDot(slots: seq<Slot>, w: string) {
    exists i :: 0 <= i < |slots| && slots[i] == Dot(w)
  }

  predicate HasDot(root: Node, p: Path, w: string) {
    IsDir(root, p) && HoldsDot(Find(root, p).value.slots, w)
  }

  function Up(p: Path): Path {
    if p == [] then [] else p[..|p| - 1]
  }

  /** Where segment w leads from the directory p; a missing dot entry leads to the root. */
  function NextPos(root: Node, dots: bool, p: Path, w: string): Path {
    if dots && IsDot(w) then (if !HasDot(root, p, w) then [] else if w == "." then p else Up(p))
    else p + [Trim(w)]
  }

  /** The end of a walk: an object, fixed if it was named by a dot segment or by no segment, or an error. */
  datatype Trail = Hit(path: Path, fixed: bool) | Miss(res: FResult)

  function Follow(root: Node, dots: bool, p: Path, words: seq<string>): (t: Trail)
    requires words != []
    ensures t.Miss? ==> t.res in {NoPath, NoFile, InvalidName}
    ensures t.Hit? && !t.fixed ==> t.path != [] && Find(root, t.path).Some?
    decreases |words|
  {
    var w, last := words[0], |words| == 1;
    var next := NextPos(root, dots, p, w);
    if dots && IsDot(w) then (if last then Hit(next, true) else Follow(root, dots, next, words[1..]))
    else if !GoodWord(w) then Miss(InvalidName)
    else if Find(root, next).None? then Miss(if last then NoFile else NoPath)
    else if last then Hit(next, false)
    else if Find(root, next).value.File? then Miss(NoPath)
    else Follow(root, dots, next, words[1..])
  }

  /** The current directory is only known where relative paths are enabled. */
  function Start(cdir: Option<Path>, text: string): Path {
    if cdir.Some? && (text == "" || !IsSep(text[0])) then cdir.value else []
  }

  /** A leading separator is stripped. */
  function Body(text: string): string {
    if text != "" && IsSep(text[0]) then text[1..] else text
  }

  function Segments(text: string): seq<string> {
    if Body(text) == "" then [] else Words(Body(text), "")
  }

  /** Where a path leads. */
  function Resolve(root: Node, cdir: Option<Path>, text: string): (t: Trail)
    ensures t.Miss? ==> t.res in {NoPath, NoFile, InvalidName}
    ensures t.Hit? && !t.fixed ==> t.path != [] && Find(root, t.path).Some?
  {
    if Segments(text) == [] then Hit(Start(cdir, text), true)
    else Follow(root, cdir.Some?, Start(cdir, text), Segments(text))
  }

  /** The directory that f_opendir opens. */
  function Opened(root: Node, cdir: Option<Path>, text: string): Option<Path> {
    var t := Resolve(root, cdir, text);
    if t.Hit? && IsDir(root, t.path) then Some(t.path) else None
  }

  /** The error when there is none. */
  function OpenError(root: Node, cdir: Option<Path>, text: string): (res: FResult)
    ensures res == InvalidName || res == NoPath
  {
    if Resolve(root, cdir, text) == Miss(InvalidName) then InvalidName else NoPath
  }

  // ---- the directories that a walk passes ----

  function Trace(root: Node, dots: bool, p: Path, words: seq<string>): (t: seq<Path>)
    ensures t != [] && t[0] == p
    decreases |words|
  {
    if words == [] then [p] else [p] + Trace(root, dots, NextPos(root, dots, p, words[0]), words[1..])
  }

  /** The walk goes through: every segment is sound and every place it comes to is a directory. */
  ghost predicate Goes(root: Node, dots: bool, p: Path, words: seq<string>) {
    && (forall w :: w in words ==> (dots && IsDot(w)) || GoodWord(w))
    && (forall q :: q in Trace(root, dots, p, words) ==> IsDir(root, q))
  }

  /** The directories passed on the way to the one that text names. */
  function Via(root: Node, cdir: Option<Path>, text: string): seq<Path> {
    Trace(root, cdir.Some?, Start(cdir, text), Segments(text))
  }

  lemma {:induction false} DirAbove(root: Node, p: Path, q: Path)
    requires IsDir(root, p + q)
    ensures IsDir(root, p)
    decreases p
  {
    if p != [] {
      assert (p + q)[1..] == p[1..] + q;
      DirAbove(root.slots[IndexOf(root.slots, p[0])].node, p[1..], q);
    } else {
      assert p + q == q;
    }
  }

  lemma DotsLeadToDirs(root: Node, p: Path, w: string)
    requires root.Dir? && IsDir(root, p) && IsDot(w)
    ensures IsDir(root, NextPos(root, true, p, w))
  {
    if p != [] {
      assert Up(p) + [Last(p)] == p;
      DirAbove(root, Up(p), [Last(p)]);
    }
  }

  /** A walk that goes through hits the place it ends at. */
  lemma {:induction false} GoesHits(root: Node, dots: bool, p: Path, words: seq<string>)
    requires words != [] && Goes(root, dots, p, words)
    ensures Follow(root, dots, p, words).Hit? && Follow(root, dots, p, words).path == Last(Trace(root, dots, p, words))
    decreases |words|
  {
    var next := NextPos(root, dots, p, words[0]);
    assert next in Trace(root, dots, p, words) by { assert Trace(root, dots, next, words[1..])[0] == next; }
    if |words| > 1 {
      GoesHits(root, dots, next, words[1..]);
    } else {
      assert words[1..] == [];
    }
  }

  /** Only walks that go through hit a directory. */
  lemma {:induction false} HitGoes(root: Node, dots: bool, p: Path, words: seq<string>)
    requires root.Dir? && words != [] && IsDir(root, p)
    requires Follow(root, dots, p, words).Hit? && IsDir(root, Follow(root, dots, p, words).path)
    ensures Goes(root, dots, p, words)
    decreases |words|
  {
    var next := NextPos(root, dots, p, words[0]);
    if dots && IsDot(words[0]) {
      DotsLeadToDirs(root, p, words[0]);
    }
    if |words| > 1 {
      HitGoes(root, dots, next, words[1..]);
    } else {
      assert words[1..] == [];
    }
  }

  lemma {:induction false} TraceMore(root: Node, dots: bool, p: Path, words: seq<string>, name: string)
    ensures Trace(root, dots, p, words + [name])
         == Trace(root, dots, p, words) + [NextPos(root, dots, Last(Trace(root, dots, p, words)), name)]
    decreases |words|
  {
    if words == [] {
      assert words + [name] == [name] && [name][1..] == [];
    } else {
      assert (words + [name])[1..] == words[1..] + [name];
      TraceMore(root, dots, NextPos(root, dots, p, words[0]), words[1..], name);
    }
  }

  // ---- walks while the tree loses objects ----

  ghost predicate Among(gone: seq<Item>, p: Path) {
    exists i :: 0 <= i < |gone| && gone[i].path == p
  }

  /** Of the directories of the tree exactly the listed ones are gone, and the others keep their dot entries. */
  ghost predicate Lost(root0: Node, root1: Node, gone: seq<Item>) {
    && (forall p :: IsDir(root1, p) <==> IsDir(root0, p) && !Among(gone, p))
    && (forall p, w :: IsDir(root1, p) ==> (HasDot(root1, p, w) <==> HasDot(root0, p, w)))
  }

  lemma LostNone(root: Node)
    ensures Lost(root, root, [])
  {
  }

  lemma AmongSum(a: seq<Item>, b: seq<Item>, p: Path)
    ensures Among(a + b, p) <==> Among(a, p) || Among(b, p)
  {
    if Among(a, p) {
      var i :| 0 <= i < |a| && a[i].path == p;
      assert (a + b)[i].path == p;
    }
    if Among(b, p) {
      var i :| 0 <= i < |b| && b[i].path == p;
      assert (a + b)[|a| + i].path == p;
    }
  }

  lemma LostMore(root0: Node, root1: Node, root2: Node, a: seq<Item>, b: seq<Item>)
    requires Lost(root0, root1, a) && Lost(root1, root2, b)
    ensures Lost(root0, root2, a + b)
  {
    hide IsDir, HasDot, Among;
    forall p
      ensures Among(a + b, p) <==> Among(a, p) || Among(b, p)
    {
      AmongSum(a, b, p);
    }
  }

  /** Some directory on the way is gone. */
  ghost predicate Crosses(via: seq<Path>, gone: seq<Item>) {
    exists q :: q in via && Among(gone, q)
  }

  lemma NextPosKept(root0: Node, root1: Node, gone: seq<Item>, dots: bool, p: Path, w: string)
    requires Lost(root0, root1, gone) && IsDir(root1, p)
    ensures NextPos(root1, dots, p, w) == NextPos(root0, dots, p, w)
  {
    hide IsDir, HasDot, Among;
  }

  lemma TraceHead(root: Node, dots: bool, p: Path, words: seq<string>)
    requires words != []
    ensures Trace(root, dots, p, words) == [p] + Trace(root, dots, NextPos(root, dots, p, words[0]), words[1..])
    ensures Goes(root, dots, p, words) ==>
              && IsDir(root, p) && IsDir(root, NextPos(root, dots, p, words[0]))
              && ((dots && IsDot(words[0])) || GoodWord(words[0]))
              && Goes(root, dots, NextPos(root, dots, p, words[0]), words[1..])
  {
    hide IsDir, NextPos, GoodWord, IsDot;
    var next := NextPos(root, dots, p, words[0]);
    assert Trace(root, dots, next, words[1..])[0] == next;
  }

  lemma FollowHead(root: Node, dots: bool, p: Path, words: seq<string>)
    requires |words| > 1 && IsDir(root, NextPos(root, dots, p, words[0]))
    requires (dots && IsDot(words[0])) || GoodWord(words[0])
    ensures Follow(root, dots, p, words) == Follow(root, dots, NextPos(root, dots, p, words[0]), words[1..])
  {
  }

  lemma FollowName(root: Node, dots: bool, p: Path, name: string)
    requires NameOk(name)
    ensures Follow(root, dots, p, [name]) == Look(root, p, name)
  {
    NameIsWord(name);
  }

  /** The object of that name in directory d. */
  function Look(root: Node, d: Path, name: string): Trail {
    if Find(root, d + [name]).Some? then Hit(d + [name], false) else Miss(NoFile)
  }

  /** One name more after a walk that goes through is looked up in the directory it ends at. */
  lemma {:induction false} FollowChild(root: Node, dots: bool, p: Path, words: seq<string>, name: string)
    requires NameOk(name) && Goes(root, dots, p, words)
    ensures Follow(root, dots, p, words + [name]) == Look(root, Last(Trace(root, dots, p, words)), name)
    decreases |words|
  {
    hide IsDir, NextPos, GoodWord, IsDot, NameOk, Follow, Look;
    if words == [] {
      FollowName(root, dots, p, name);
      assert words + [name] == [name];
    } else {
      TraceHead(root, dots, p, words);
      assert (words + [name])[1..] == words[1..] + [name];
      FollowHead(root, dots, p, words + [name]);
      FollowChild(root, dots, NextPos(root, dots, p, words[0]), words[1..], name);
    }
  }

  /** A walk none of whose directories is gone still goes through, the same way. */
  lemma {:induction false} LossSpares(root0: Node, root1: Node, gone: seq<Item>, dots: bool, p: Path, words: seq<string>)
    requires Lost(root0, root1, gone) && Goes(root0, dots, p, words)
    requires !Crosses(Trace(root0, dots, p, words), gone)
    ensures Trace(root1, dots, p, words) == Trace(root0, dots, p, words)
    ensures Goes(root1, dots, p, words)
    decreases |words|
  {
    hide IsDir, HasDot, NextPos, GoodWord, IsDot, Among;
    assert p in Trace(root0, dots, p, words);
    if words != [] {
      TraceHead(root0, dots, p, words);
      var next := NextPos(root0, dots, p, words[0]);
      NextPosKept(root0, root1, gone, dots, p, words[0]);
      assert forall q :: q in Trace(root0, dots, next, words[1..]) ==> q in Trace(root0, dots, p, words);
      LossSpares(root0, root1, gone, dots, next, words[1..]);
    }
  }

  /** Once a directory on the way is gone, every path that goes on from there leads nowhere. */
  lemma {:induction false} LossStops(root0: Node, root1: Node, gone: seq<Item>, dots: bool, p: Path, words: seq<string>, name: string)
    requires root1.Dir? && Lost(root0, root1, gone) && Goes(root0, dots, p, words) && IsDir(root1, p)
    requires Crosses(Trace(root0, dots, p, words), gone)
    ensures Follow(root1, dots, p, words + [name]) == Miss(NoPath)
    decreases |words|
  {
    hide IsDir, HasDot, NextPos, GoodWord, IsDot, Among;
    var q :| q in Trace(root0, dots, p, words) && Among(gone, q);
    assert q != p;
    if words != [] {
      TraceHead(root0, dots, p, words);
      var next := NextPos(root0, dots, p, words[0]);
      NextPosKept(root0, root1, gone, dots, p, words[0]);
      assert (words + [name])[1..] == words[1..] + [name];
      if IsDir(root1, next) {
        LossStops(root0, root1, gone, dots, next, words[1..], name);
        FollowHead(root1, dots, p, words + [name]);
      } else {
        MissHere(root1, dots, p, words + [name]);
      }
    }
  }

  lemma MissHere(root: Node, dots: bool, p: Path, words: seq<string>)
    requires root.Dir? && |words| > 1 && IsDir(root, p) && !IsDir(root, NextPos(root, dots, p, words[0]))
    requires (dots && IsDot(words[0])) || GoodWord(words[0])
    ensures Follow(root, dots, p, words) == Miss(NoPath)
  {
    if dots && IsDot(words[0]) {
      DotsLeadToDirs(root, p, words[0]);
    }
  }

  // ---- from texts to walks ----

  /** The current directory, where there is one, exists. */
  ghost predicate Placed(root: Node, cdir: Option<Path>) {
    root.Dir? && (cdir.Some? ==> IsDir(root, cdir.value))
  }

  /** The empty path, where it means a current directory other than the root; appending to it makes it start at the root. */
  predicate Astray(cdir: Option<Path>, text: string) {
    text == "" && cdir.Some? && cdir.value != []
  }

  lemma StartsAtDir(root: Node, cdir: Option<Path>, text: string)
    requires Placed(root, cdir)
    ensures IsDir(root, Start(cdir, text))
  {
  }

  /** A path is opened exactly if its walk goes through, and then at the end of the walk. */
  lemma OpenedGoes(root: Node, cdir: Option<Path>, text: string)
    requires Placed(root, cdir)
    ensures Opened(root, cdir, text).Some? <==> Goes(root, cdir.Some?, Start(cdir, text), Segments(text))
    ensures Opened(root, cdir, text).Some? ==> Opened(root, cdir, text).value == Last(Via(root, cdir, text))
  {
    var p, words := Start(cdir, text), Segments(text);
    StartsAtDir(root, cdir, text);
    if words != [] {
      if Goes(root, cdir.Some?, p, words) {
        GoesHits(root, cdir.Some?, p, words);
      } else if Opened(root, cdir, text).Some? {
        HitGoes(root, cdir.Some?, p, words);
      }
      if Opened(root, cdir, text).Some? {
        GoesHits(root, cdir.Some?, p, words);
      }
    }
  }

  lemma BodyOfChild(text: string, name: string)
    ensures Body(text + "/" + name) == if text == "" then name else Body(text) + "/" + name
  {
    var longer := text + "/" + name;
    if text == "" {
      assert longer[0] == '/' && longer[1..] == name;
    } else {
      assert longer[0] == text[0] && longer[1..] == text[1..] + "/" + name;
    }
  }

  lemma NotEmpty(name: string)
    requires NameOk(name)
    ensures name != "" && GoodWord(name) && Trim(name) == name && !IsDot(name)
  {
    NameIsWord(name);
  }

  lemma WordsOfChild(body: string, name: string)
    requires NameOk(name)
    ensures Words(name, "") == [name] == Words("/" + name, "")
    ensures Last(Words(body, "")) != "" ==> Words(body + "/" + name, "") == Words(body, "") + [name]
  {
    WordsOfName(name, "");
    assert "" + name == name;
    assert ("/" + name)[0] == '/' && ("/" + name)[1..] == name;
    WordsAppend(body, "", name);
  }

  /** Appending a slash and a name to a path whose segments are sound appends the name to its walk. */
  lemma ChildWalk(cdir: Option<Path>, text: string, name: string)
    requires NameOk(name) && !Astray(cdir, text)
    requires forall w :: w in Segments(text) ==> w != ""
    ensures Start(cdir, text + "/" + name) == Start(cdir, text)
    ensures Segments(text + "/" + name) == Segments(text) + [name]
  {
    hide Words, NameOk;
    BodyOfChild(text, name);
    WordsOfChild(Body(text), name);
    NotEmpty(name);
    assert text != "" ==> (text + "/" + name)[0] == text[0];
    hide Body;
    if Body(text) == "" {
      assert Body(text + "/" + name) == if text == "" then name else "/" + name;
    } else {
      assert Last(Words(Body(text), "")) in Words(Body(text), "");
    }
  }

  lemma GoesSound(root: Node, dots: bool, p: Path, words: seq<string>)
    requires Goes(root, dots, p, words)
    ensures forall w :: w in words ==> w != ""
  {
  }

  lemma ResolveFollows(root: Node, cdir: Option<Path>, text: string)
    requires Segments(text) != []
    ensures Resolve(root, cdir, text) == Follow(root, cdir.Some?, Start(cdir, text), Segments(text))
  {
  }

  /**
    The names of an opened directory, appended to its path, are looked up in that very directory, except
    after the empty path: those are looked up in the root.
  */
  lemma ChildResolves(root: Node, cdir: Option<Path>, text: string, name: string)
    requires NameOk(name) && Placed(root, cdir) && Opened(root, cdir, text).Some?
    ensures Resolve(root, cdir, text + "/" + name)
         == Look(root, if Astray(cdir, text) then [] else Opened(root, cdir, text).value, name)
    ensures Astray(cdir, text) ==> Opened(root, cdir, text).value == cdir.value != []
  {
    hide Words, Body, IsDir, Trace, Follow, Goes, NameOk, Start, Segments, Resolve, Opened;
    if Astray(cdir, text) {
      AstrayOpens(root, cdir, text, name);
      FollowName(root, cdir.Some?, [], name);
      ResolveFollows(root, cdir, text + "/" + name);
    } else {
      OpenedGoes(root, cdir, text);
      GoesSound(root, cdir.Some?, Start(cdir, text), Segments(text));
      ChildWalk(cdir, text, name);
      FollowChild(root, cdir.Some?, Start(cdir, text), Segments(text), name);
      ResolveFollows(root, cdir, text + "/" + name);
    }
  }

  lemma RootIsDir(root: Node, cdir: Option<Path>)
    requires Placed(root, cdir)
    ensures root.Dir?
  {
  }

  lemma AstrayOpens(root: Node, cdir: Option<Path>, text: string, name: string)
    requires Astray(cdir, text) && Placed(root, cdir) && NameOk(name)
    ensures Opened(root, cdir, text) == Some(cdir.value)
    ensures Start(cdir, text + "/" + name) == [] && Segments(text + "/" + name) == [name]
  {
    assert text + "/" + name == "/" + name && ("/" + name)[1..] == name;
    WordsOfName(name, "");
    assert "" + name == name;
  }

  /** The same while objects disappear: as soon as a directory on the way is gone, the names cannot be reached. */
  lemma ChildAfterLoss(root0: Node, root1: Node, gone: seq<Item>, cdir: Option<Path>, text: string, name: string)
    requires NameOk(name) && Placed(root0, cdir) && Opened(root0, cdir, text).Some? && !Astray(cdir, text)
    requires Lost(root0, root1, gone) && Placed(root1, cdir)
    ensures Resolve(root1, cdir, text + "/" + name)
         == if Crosses(Via(root0, cdir, text), gone) then Miss(NoPath) else Look(root1, Opened(root0, cdir, text).value, name)
    ensures !Crosses(Via(root0, cdir, text), gone) ==>
              && Opened(root1, cdir, text) == Opened(root0, cdir, text)
              && Via(root1, cdir, text + "/" + name) == Via(root0, cdir, text) + [Opened(root0, cdir, text).value + [name]]
  {
    hide Words, IsDir, Trace, Follow, Goes, NameOk, Start, Segments, Resolve, Opened, Lost, Crosses, Placed;
    var p, words := Start(cdir, text), Segments(text);
    OpenedGoes(root0, cdir, text);
    GoesSound(root0, cdir.Some?, p, words);
    ChildWalk(cdir, text, name);
    StartsAtDir(root1, cdir, text);
    if Crosses(Via(root0, cdir, text), gone) {
      RootIsDir(root1, cdir);
      LossStops(root0, root1, gone, cdir.Some?, p, words, name);
      ResolveFollows(root1, cdir, text + "/" + name);
    } else {
      LossSpares(root0, root1, gone, cdir.Some?, p, words);
      OpenedGoes(root1, cdir, text);
      ChildResolves(root1, cdir, text, name);
      TraceMore(root1, cdir.Some?, p, words, name);
      NotEmpty(name);
    }
  }

  // ---- deleting an entry ----

  /** What deleting the entry of that name in directory up should do to the directory p. */
  ghost predicate GoneOnly(root: Node, root1: Node, up: Path, name: string, p: Path) {
    && (IsDir(root1, p) <==> IsDir(root, p) && p != up + [name])
    && (IsDir(root1, p) ==> forall w :: HasDot(root1, p, w) <==> HasDot(root, p, w))
  }

  lemma EntryLostHere(slots: seq<Slot>, i: nat, p: Path)
    requires i < |slots| && slots[i].Used? && Distinct(slots) && (slots[i].node.Dir? ==> Empty(slots[i].node.slots))
    ensures GoneOnly(Dir(slots), Dir(slots[i := Deleted]), [], slots[i].name, p)
  {
    DotsKept(slots, i, Deleted);
    if p != [] {
      hide Distinct;
      SlotGone(slots, i, p[0]);
      HeadAndTail(p, slots[i].name, []);
      assert [slots[i].name] + [] == [] + [slots[i].name];
      FindHead(Dir(slots), p);
      FindHead(Dir(slots[i := Deleted]), p);
      if p[0] == slots[i].name && p[1..] != [] {
        NoneInside(slots[i].node, p[1..]);
      }
      hide IndexOf, Find, HoldsDot, Empty;
      assert Find(Dir(slots[i := Deleted]), p) == if p[0] == slots[i].name then None else Find(Dir(slots), p);
    }
  }

  lemma UnderSlot(slots: seq<Slot>, j: nat, child1: Node, up: Path, name: string, p: Path)
    requires j < |slots| && slots[j].Used? && IndexOf(slots, slots[j].name) == j
    requires slots[j].node.Dir? && child1.Dir?
    requires p != [] ==> GoneOnly(slots[j].node, child1, up, name, p[1..])
    ensures GoneOnly(Dir(slots), Dir(slots[j := slots[j].(node := child1)]), [slots[j].name] + up, name, p)
  {
    DotsKept(slots, j, slots[j].(node := child1));
    if p != [] {
      var left := slots[j := slots[j].(node := child1)];
      OtherSlot(slots, j, child1, p[0]);
      HeadAndTail(p, slots[j].name, up + [name]);
      assert [slots[j].name] + up + [name] == [slots[j].name] + (up + [name]);
      FindHead(Dir(slots), p);
      FindHead(Dir(left), p);
      hide IndexOf, Find, HoldsDot;
      if p[0] == slots[j].name {
        SameFind(Dir(slots), p, slots[j].node, p[1..]);
        SameFind(Dir(left), p, child1, p[1..]);
      } else {
        SameFind(Dir(left), p, Dir(slots), p);
      }
      hide IsDir, HasDot;
    }
  }

  lemma SameFind(a: Node, p: Path, b: Node, q: Path)
    requires Find(a, p) == Find(b, q)
    ensures IsDir(a, p) == IsDir(b, q) && forall w :: HasDot(a, p, w) == HasDot(b, q, w)
  {
  }

  lemma FindHead(node: Node, p: Path)
    requires node.Dir? && p != []
    ensures var k := IndexOf(node.slots, p[0]);
            Find(node, p) == if k == |node.slots| then None else Find(node.slots[k].node, p[1..])
  {
  }

  lemma HeadAndTail(p: Path, a: string, q: Path)
    requires p != []
    ensures p == [a] + q <==> p[0] == a && p[1..] == q
  {
    assert p == [p[0]] + p[1..];
    assert ([a] + q)[1..] == q;
  }

  /** Deleting the entry of a file or an empty directory takes just that object away. */
  lemma {:induction false} EntryLost(root: Node, up: Path, slots: seq<Slot>, i: nat, p: Path)
    requires Find(root, up) == Some(Dir(slots)) && i < |slots|
    requires slots[i].Used? && Distinct(slots) && (slots[i].node.Dir? ==> Empty(slots[i].node.slots))
    ensures GoneOnly(root, PutAt(root, up, Dir(slots[i := Deleted])), up, slots[i].name, p)
    decreases up
  {
    hide GoneOnly, Distinct, Empty, IndexOf;
    if up == [] {
      EntryLostHere(slots, i, p);
    } else {
      var j := IndexOf(root.slots, up[0]);
      var child := root.slots[j].node;
      if p != [] {
        EntryLost(child, up[1..], slots, i, p[1..]);
      }
      DirAtPut(child, up[1..], slots, Dir(slots[i := Deleted]));
      UnderSlot(root.slots, j, PutAt(child, up[1..], Dir(slots[i := Deleted])), up[1..], slots[i].name, p);
      assert up == [up[0]] + up[1..];
    }
  }

  lemma DirAtPut(node: Node, p: Path, slots: seq<Slot>, new_: Node)
    requires Find(node, p) == Some(Dir(slots)) && new_.Dir?
    ensures node.Dir? && PutAt(node, p, new_).Dir?
  {
  }

  lemma DotsKept(slots: seq<Slot>, i: nat, new_: Slot)
    requires i < |slots| && slots[i].Used? && !new_.Dot?
    ensures forall w :: HoldsDot(slots[i := new_], w) <==> HoldsDot(slots, w)
  {
    forall w
      ensures HoldsDot(slots[i := new_], w) <==> HoldsDot(slots, w)
    {
      if HoldsDot(slots, w) {
        var k :| 0 <= k < |slots| && slots[k] == Dot(w);
        assert slots[i := new_][k] == Dot(w);
      }
      if HoldsDot(slots[i := new_], w) {
        var k :| 0 <= k < |slots| && slots[i := new_][k] == Dot(w);
        assert slots[k] == Dot(w);
      }
    }
  }

  lemma SlotGone(slots: seq<Slot>, i: nat, name: string)
    requires i < |slots| && slots[i].Used? && Distinct(slots)
    ensures IndexOf(slots, slots[i].name) == i
    ensures IndexOf(slots[i := Deleted], name) == if name == slots[i].name then |slots| else IndexOf(slots, name)
  {
    hide IndexOf;
    var a, b := IndexOf(slots, name), IndexOf(slots[i := Deleted], name);
    assert IndexOf(slots, slots[i].name) <= i;
    if b < |slots| {
      assert slots[i := Deleted][b] == slots[b];
      assert a <= b;
    }
    if a < |slots| && a != i {
      assert slots[i := Deleted][a] == slots[a];
    }
  }

  lemma NoneInside(node: Node, p: Path)
    requires p != [] && (node.Dir? ==> Empty(node.slots))
    ensures Find(node, p) == None
  {
  }

  lemma OtherSlot(slots: seq<Slot>, j: nat, new_: Node, name: string)
    requires j < |slots| && slots[j].Used? && IndexOf(slots, slots[j].name) == j
    ensures IndexOf(slots[j := slots[j].(node := new_)], name) == IndexOf(slots, name)
  {
    hide IndexOf;
    var with_ := slots[j := slots[j].(node := new_)];
    var a, b := IndexOf(slots, name), IndexOf(with_, name);
    if a < |slots| {
      assert with_[a].Used? && with_[a].name == name;
    }
    if b < |slots| {
      assert slots[b].Used? && slots[b].name == name;
    }
  }

  lemma LostFrom(root: Node, root1: Node, up: Path, item: Item, name: string)
    requires item.path == up + [name]
    requires forall p :: GoneOnly(root, root1, up, name, p)
    ensures Lost(root, root1, [item])
  {
    hide IsDir, HasDot;
    forall p
      ensures IsDir(root1, p) <==> IsDir(root, p) && !Among([item], p)
    {
      assert [item][0] == item;
      assert GoneOnly(root, root1, up, name, p);
    }
    forall p, w | IsDir(root1, p)
      ensures HasDot(root1, p, w) <==> HasDot(root, p, w)
    {
      assert GoneOnly(root, root1, up, name, p);
    }
  }

  lemma UnlinkLoses(root: Node, up: Path, slots: seq<Slot>, i: nat)
    requires Find(root, up) == Some(Dir(slots)) && i < |slots|
    requires slots[i].Used? && Distinct(slots) && (slots[i].node.Dir? ==> Empty(slots[i].node.slots))
    ensures Lost(root, PutAt(root, up, Dir(slots[i := Deleted])), [Item(up + [slots[i].name], slots[i].readOnly)])
  {
    hide GoneOnly, Find, PutAt, Distinct, Empty, Lost;
    var root1, name := PutAt(root, up, Dir(slots[i := Deleted])), slots[i].name;
    forall p
      ensures GoneOnly(root, root1, up, name, p)
    {
      EntryLost(root, up, slots, i, p);
    }
    LostFrom(root, root1, up, Item(up + [name], slots[i].readOnly), name);
  }
}
