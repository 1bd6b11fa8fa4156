/**
  What FatFs makes of the characters of a path (ff.c, function create_name), in terms of the path texts and of
  the directories they open: which separators, names, dot segments and endings there are.
*/
module PathNames {
  import opened Basics
  import opened DirectoryTree
  import opened PathWalk

  // ---- segments ----

  /** A slash or a backslash ends a segment; one that begins nothing is skipped. */
  lemma SplitAt(a: string, c: char, b: string)
    requires c == '/' || c == '\\'
    requires forall i :: 0 <= i < |a| ==> a[i] != '/' && a[i] != '\\'
    ensures Words(a, "") == [a]
    ensures Words(a + [c] + b, "") == (if a == "" then [] else [a]) + Words(b, "")
  {
    WordsOfName(a, "");
    assert "" + a == a;
    SplitFrom(a, c, b, "");
    if a == "" {
      assert (a + [c] + b)[1..] == b;
    }
  }

  lemma {:induction false} SplitFrom(a: string, c: char, b: string, word: string)
    requires IsSep(c) && forall i :: 0 <= i < |a| ==> !IsSep(a[i])
    ensures word + a != "" ==> Words(a + [c] + b, word) == [word + a] + Words(b, "")
    decreases a
  {
    var s := a + [c] + b;
    if a == "" {
      assert s[0] == c && s[1..] == b && word + a == word;
    } else {
      assert s[0] == a[0] && s[1..] == a[1..] + [c] + b;
      SplitFrom(a[1..], c, b, word + [a[0]]);
      assert word + [a[0]] + a[1..] == word + a;
    }
  }

  /** Exactly the trailing dots and spaces of a segment do not matter. */
  lemma {:induction false} TrimMeans(w: string, n: string)
    ensures Trim(w) == n <==>
              && |n| <= |w| && w[..|n|] == n
              && (forall i :: |n| <= i < |w| ==> w[i] == '.' || w[i] == ' ')
              && (n != "" ==> n[|n| - 1] != '.' && n[|n| - 1] != ' ')
    decreases w
  {
    if w != "" && (w[|w| - 1] == ' ' || w[|w| - 1] == '.') {
      TrimMeans(w[..|w| - 1], n);
      if |n| <= |w| - 1 {
        assert w[..|w| - 1][..|n|] == w[..|n|];
        assert forall i :: |n| <= i < |w| - 1 ==> w[i] == w[..|w| - 1][i];
      } else if |n| == |w| {
        assert w[..|n|] == w;
      }
    } else {
      assert w[..|w|] == w;
    }
  }

  /** The segments that are names: at most 255 characters, all of them allowed, and not only dots and spaces. */
  lemma NamesAllowed(w: string)
    ensures GoodWord(w) <==>
              && |w| <= 255
              && (forall i :: 0 <= i < |w| ==> w[i] >= ' ' && w[i] !in "/\\\"*:<>?|\U{7F}")
              && (exists i :: 0 <= i < |w| && w[i] != '.' && w[i] != ' ')
  {
    TrimMeans(w, Trim(w));
    var n := Trim(w);
    if n != "" {
      assert w[|n| - 1] == n[|n| - 1];
    }
    if exists i :: 0 <= i < |w| && w[i] != '.' && w[i] != ' ' {
      var i :| 0 <= i < |w| && w[i] != '.' && w[i] != ' ';
      assert !(|n| <= i);
    }
  }

  // ---- one segment after the root ----

  lemma OneSegment(root: Node, w: string)
    requires root.Dir? && forall i :: 0 <= i < |w| ==> !IsSep(w[i])
    ensures w != "" ==> Resolve(root, None, "/" + w) == Follow(root, false, [], [w])
    ensures w == "" ==> Resolve(root, None, "/" + w) == Hit([], true)
  {
    assert ("/" + w)[0] == '/' && ("/" + w)[1..] == w;
    WordsOfName(w, "");
    assert "" + w == w;
  }

  /** What the root holds under a name. */
  lemma FindInRoot(root: Node, w: string)
    requires root.Dir?
    ensures Find(root, [w]) == if IndexOf(root.slots, w) == |root.slots| then None else Some(root.slots[IndexOf(root.slots, w)].node)
  {
    assert [w][1..] == [];
  }

  lemma FirstNamed(slots: seq<Slot>, w: string, i: nat)
    requires i < |slots| && slots[i].Used? && slots[i].name == w
    requires forall j :: 0 <= j < i ==> !(slots[j].Used? && slots[j].name == w)
    ensures IndexOf(slots, w) == i
  {
    var k := IndexOf(slots, w);
    assert !(i < k);
  }

  /** A directory of the root is opened by a slash and its name, of any length up to 255, and whatever dots and spaces follow. */
  lemma NameOpens(root: Node, w: string, tail: string, i: nat)
    requires root.Dir? && i < |root.slots| && root.slots[i].Used? && root.slots[i].name == w && root.slots[i].node.Dir?
    requires forall j :: 0 <= j < i ==> !(root.slots[j].Used? && root.slots[j].name == w)
    requires 1 <= |w| && |w + tail| <= 255 && w[|w| - 1] != ' ' && w[|w| - 1] != '.'
    requires forall j :: 0 <= j < |w| ==> w[j] >= ' ' && w[j] !in "/\\\"*:<>?|\U{7F}"
    requires forall j :: 0 <= j < |tail| ==> tail[j] == '.' || tail[j] == ' '
    ensures Opened(root, None, "/" + w + tail) == Some([w])
  {
    hide Find, Trim, GoodWord, Words, Follow;
    var text := w + tail;
    TailTrimmed(w, tail);
    assert "/" + w + tail == "/" + text;
    OneSegment(root, text) by {
      assert forall j :: 0 <= j < |text| ==> text[j] == if j < |w| then w[j] else tail[j - |w|];
    }
    FirstNamed(root.slots, w, i);
    FindInRoot(root, w);
    FollowFirst(root, text, w);
  }

  lemma TailTrimmed(w: string, tail: string)
    requires 1 <= |w| && |w + tail| <= 255 && w[|w| - 1] != ' ' && w[|w| - 1] != '.'
    requires forall j :: 0 <= j < |w| ==> w[j] >= ' ' && w[j] !in "/\\\"*:<>?|\U{7F}"
    requires forall j :: 0 <= j < |tail| ==> tail[j] == '.' || tail[j] == ' '
    ensures Trim(w + tail) == w && GoodWord(w + tail)
  {
    hide Trim, GoodWord;
    var text := w + tail;
    assert text[..|w|] == w;
    TrimMeans(text, w);
    NamesAllowed(text);
    assert text[|w| - 1] == w[|w| - 1];
  }

  lemma FollowFirst(root: Node, w: string, n: string)
    requires GoodWord(w) && Trim(w) == n
    ensures Follow(root, false, [], [w]) == if Find(root, [n]).Some? then Hit([n], false) else Miss(NoFile)
  {
    hide Trim, GoodWord, Find;
    assert [] + [n] == [n];
  }

  /** A name that is too long, with a character that is not allowed, or without any that counts, is refused as such. */
  lemma NameRefused(root: Node, w: string)
    requires root.Dir? && w != "" && forall i :: 0 <= i < |w| ==> w[i] != '/' && w[i] != '\\'
    requires |w| > 255 || (exists i :: 0 <= i < |w| && (w[i] < ' ' || w[i] in "\"*:<>?|\U{7F}"))
             || (forall i :: 0 <= i < |w| ==> w[i] == '.' || w[i] == ' ')
    ensures Opened(root, None, "/" + w) == None && OpenError(root, None, "/" + w) == InvalidName
  {
    NamesAllowed(w);
    OneSegment(root, w);
  }

  /** An allowed name under which there is nothing, or a file, is not found. */
  lemma NameMissing(root: Node, w: string)
    requires root.Dir? && 1 <= |w| <= 255 && w[|w| - 1] != ' ' && w[|w| - 1] != '.'
    requires forall j :: 0 <= j < |w| ==> w[j] >= ' ' && w[j] !in "/\\\"*:<>?|\U{7F}"
    requires forall j :: 0 <= j < |root.slots| && root.slots[j].Used? && root.slots[j].name == w ==> root.slots[j].node.File?
    ensures Opened(root, None, "/" + w) == None && OpenError(root, None, "/" + w) == NoPath
  {
    assert w[..|w|] == w;
    TrimMeans(w, w);
    NamesAllowed(w);
    OneSegment(root, w);
    FindInRoot(root, w);
    assert [] + [Trim(w)] == [w];
  }

  // ---- more segments ----

  /** Below a directory that was opened, one segment more leads to what the directory has under that name. */
  lemma {:induction false} FollowGood(root: Node, dots: bool, p: Path, words: seq<string>, w: string)
    requires Goes(root, dots, p, words) && GoodWord(w) && !IsDot(w)
    ensures var q := Last(Trace(root, dots, p, words)) + [Trim(w)];
            Follow(root, dots, p, words + [w]) == if Find(root, q).Some? then Hit(q, false) else Miss(NoFile)
    decreases |words|
  {
    hide IsDir, NextPos, GoodWord, IsDot, Follow, Find, Trim;
    if words == [] {
      FollowLast(root, dots, p, w);
      assert words + [w] == [w];
    } else {
      TraceHead(root, dots, p, words);
      assert (words + [w])[1..] == words[1..] + [w];
      FollowHead(root, dots, p, words + [w]);
      FollowGood(root, dots, NextPos(root, dots, p, words[0]), words[1..], w);
    }
  }

  lemma FollowLast(root: Node, dots: bool, p: Path, w: string)
    requires GoodWord(w) && !IsDot(w)
    ensures Follow(root, dots, p, [w]) == if Find(root, p + [Trim(w)]).Some? then Hit(p + [Trim(w)], false) else Miss(NoFile)
  {
  }

  /** A walk that goes through, and then one segment that is no name. */
  lemma {:induction false} FollowBad(root: Node, dots: bool, p: Path, words: seq<string>, w: string)
    requires Goes(root, dots, p, words) && !GoodWord(w) && !(dots && IsDot(w))
    ensures Follow(root, dots, p, words + [w]) == Miss(InvalidName)
    decreases |words|
  {
    hide IsDir, NextPos, GoodWord, IsDot, Follow, Find, Trim;
    if words == [] {
      FollowRefused(root, dots, p, w);
      assert words + [w] == [w];
    } else {
      TraceHead(root, dots, p, words);
      assert (words + [w])[1..] == words[1..] + [w];
      FollowHead(root, dots, p, words + [w]);
      FollowBad(root, dots, NextPos(root, dots, p, words[0]), words[1..], w);
    }
  }

  lemma FollowRefused(root: Node, dots: bool, p: Path, w: string)
    requires !GoodWord(w) && !(dots && IsDot(w))
    ensures Follow(root, dots, p, [w]) == Miss(InvalidName)
  {
  }

  /** Appending a separator and a text without one. */
  lemma {:induction false} WordsMore(s: string, word: string, c: char, w: string)
    requires IsSep(c) && forall i :: 0 <= i < |w| ==> !IsSep(w[i])
    ensures Words(s + [c] + w, word) == (if Last(Words(s, word)) == "" then Front(Words(s, word)) else Words(s, word)) + [w]
    decreases s
  {
    var t := s + [c] + w;
    if s == "" {
      assert t[0] == c && t[1..] == w;
      WordsOfName(w, "");
      assert "" + w == w;
      assert Words(t, word) == if word == "" then Words(w, "") else [word] + Words(w, "");
    } else {
      assert t[0] == s[0] && t[1..] == s[1..] + [c] + w;
      WordsMore(s[1..], if IsSep(s[0]) then "" else word + [s[0]], c, w);
    }
  }

  lemma EndsInSegment(s: string, word: string)
    requires s != "" && !IsSep(s[|s| - 1])
    ensures Last(Words(s, word)) != ""
    decreases s
  {
    if |s| > 1 {
      EndsInSegment(s[1..], if IsSep(s[0]) then "" else word + [s[0]]);
    }
  }

  /**
    A path that opens a directory, and a separator after it: with nothing behind it is refused, with either kind of
    separator, and with a name behind it leads to the directory of that name in the opened one.
  */
  lemma OpensBelow(root: Node, cdir: Option<Path>, text: string, c: char, w: string)
    requires root.Dir? && (cdir.Some? ==> IsDir(root, cdir.value)) && Opened(root, cdir, text).Some?
    requires text != "" && text[|text| - 1] != '/' && text[|text| - 1] != '\\' && (c == '/' || c == '\\')
    ensures Opened(root, cdir, text + [c]) == None && OpenError(root, cdir, text + [c]) == InvalidName
    ensures 1 <= |w| <= 255 && w[|w| - 1] != ' ' && w[|w| - 1] != '.'
            && (forall j :: 0 <= j < |w| ==> w[j] >= ' ' && w[j] !in "/\\\"*:<>?|\U{7F}") ==>
              var q := Opened(root, cdir, text).value + [w];
              && Opened(root, cdir, text + [c] + w) == (if IsDir(root, q) then Some(q) else None)
              && (!IsDir(root, q) ==> OpenError(root, cdir, text + [c] + w) == NoPath)
  {
    hide Follow, Find, Trim, GoodWord, Words, Trace, Goes;
    OpenedWalk(root, cdir, text);
    SegmentsMore(cdir, text, c, "");
    assert text + [c] + "" == text + [c];
    var p, ws := Start(cdir, text), Segments(text);
    NamesAllowed("");
    FollowBad(root, cdir.Some?, p, ws, "");
    if 1 <= |w| <= 255 && w[|w| - 1] != ' ' && w[|w| - 1] != '.'
       && (forall j :: 0 <= j < |w| ==> w[j] >= ' ' && w[j] !in "/\\\"*:<>?|\U{7F}") {
      assert forall i :: 0 <= i < |w| ==> !IsSep(w[i]);
      SegmentsMore(cdir, text, c, w);
      assert w[..|w|] == w;
      TrimMeans(w, w);
      NamesAllowed(w);
      FollowGood(root, cdir.Some?, p, ws, w);
    }
  }

  lemma OpenedWalk(root: Node, cdir: Option<Path>, text: string)
    requires root.Dir? && (cdir.Some? ==> IsDir(root, cdir.value)) && Opened(root, cdir, text).Some?
    ensures var p, ws := Start(cdir, text), Segments(text);
            Goes(root, cdir.Some?, p, ws) && Opened(root, cdir, text).value == Last(Trace(root, cdir.Some?, p, ws))
  {
    var p, ws := Start(cdir, text), Segments(text);
    if ws != [] {
      HitGoes(root, cdir.Some?, p, ws);
      GoesHits(root, cdir.Some?, p, ws);
    }
  }

  lemma SegmentsMore(cdir: Option<Path>, text: string, c: char, w: string)
    requires text != "" && !IsSep(text[|text| - 1]) && IsSep(c) && forall i :: 0 <= i < |w| ==> !IsSep(w[i])
    ensures Segments(text + [c] + w) == Segments(text) + [w] && Start(cdir, text + [c] + w) == Start(cdir, text)
  {
    var s := text + [c] + w;
    assert s[0] == text[0] && s != "";
    var b := Body(text);
    assert Body(s) == b + [c] + w;
    assert b != "" && b[|b| - 1] == text[|text| - 1];
    WordsMore(b, "", c, w);
    EndsInSegment(b, "");
  }

  // ---- where a path starts ----

  lemma FromDirectory(root: Node, dots: bool, p: Path, w: string)
    requires root.Dir? && IsDir(root, p) && 1 <= |w| <= 255 && w[|w| - 1] != ' ' && w[|w| - 1] != '.'
    requires forall j :: 0 <= j < |w| ==> w[j] >= ' ' && w[j] !in "/\\\"*:<>?|\U{7F}"
    ensures Words(w, "") == [w] && !IsSep(w[0])
    ensures Follow(root, dots, p, [w]) == if Find(root, p + [w]).Some? then Hit(p + [w], false) else Miss(NoFile)
  {
    hide Find, Trim, GoodWord, Follow, Words;
    WordsOfName(w, "");
    assert "" + w == w && w[..|w|] == w;
    TrimMeans(w, w);
    NamesAllowed(w);
    FollowLast(root, dots, p, w);
  }

  /** A leading separator of either kind leads to the root; without one a name is looked up in the current directory, if there is one. */
  lemma StartsFrom(root: Node, cdir: Option<Path>, s: string, w: string)
    requires root.Dir? && (cdir.Some? ==> IsDir(root, cdir.value))
    requires 1 <= |w| <= 255 && w[|w| - 1] != ' ' && w[|w| - 1] != '.'
    requires forall j :: 0 <= j < |w| ==> w[j] >= ' ' && w[j] !in "/\\\"*:<>?|\U{7F}"
    ensures Opened(root, cdir, "\\" + s) == Opened(root, cdir, "/" + s)
    ensures Opened(root, cdir, "/") == Some([]) && Opened(root, cdir, "") == Some(if cdir.Some? then cdir.value else [])
    ensures Opened(root, cdir, "/" + w) == (if IsDir(root, [w]) then Some([w]) else None)
    ensures var q := (if cdir.Some? then cdir.value else []) + [w];
            Opened(root, cdir, w) == if IsDir(root, q) then Some(q) else None
  {
    hide Find, Words, Follow;
    assert ("\\" + s)[1..] == s && ("/" + s)[1..] == s && ("/" + w)[1..] == w;
    var home: Path := if cdir.Some? then cdir.value else [];
    assert IsDir(root, []) by { WholeTree(root); }
    FromDirectory(root, cdir.Some?, [], w);
    FromDirectory(root, cdir.Some?, home, w);
    assert [] + [w] == [w];
  }

  lemma WholeTree(root: Node)
    ensures Find(root, []) == Some(root)
  {
  }

  // ---- dot segments ----

  /** A dot segment leads where the dot entries say, and to the root from a directory that has none. */
  lemma DotsOpen(root: Node, p: Path)
    requires root.Dir? && Find(root, p).Some? && Find(root, p).value.Dir?
    ensures var slots := Find(root, p).value.slots;
            && Opened(root, Some(p), ".") == Some(if exists i :: 0 <= i < |slots| && slots[i] == Dot(".") then p else [])
            && Opened(root, Some(p), "..")
               == Some(if (exists i :: 0 <= i < |slots| && slots[i] == Dot("..")) && p != [] then p[..|p| - 1] else [])
  {
    OneDot(root, p, ".");
    OneDot(root, p, "..");
  }

  lemma OneDot(root: Node, p: Path, w: string)
    requires root.Dir? && IsDir(root, p) && (w == "." || w == "..")
    ensures Opened(root, Some(p), w) == Some(NextPos(root, true, p, w))
  {
    WordsOfName(w, "");
    assert "" + w == w;
    DotsLeadToDirs(root, p, w);
  }
}
