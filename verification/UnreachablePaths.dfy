/** Two paths for which emptying goes wrong, with the trees that show it. */
module UnreachablePaths {
  import opened Basics
  import opened DirectoryTree
  import opened PathWalk
  import opened RemovalProgress

  const DOTS: seq<Slot> := [Dot("."), Dot("..")]

  /** Directory D holds the empty directory S and the file F. */
  const IN_D: seq<Slot> := [Used("S", false, Dir(DOTS)), Used("F", false, File)]
  const TREE: Node := Dir([Used("D", false, Dir(IN_D))])

  lemma OneLetter(c: char, rest: string)
    requires !IsSep(c)
    ensures Words([c] + "/" + rest, "") == [[c]] + Words(rest, "")
  {
    var s := [c] + "/" + rest;
    assert s[0] == c && s[1..] == "/" + rest && ("/" + rest)[1..] == rest;
    assert "" + [c] == [c];
    assert Words("/" + rest, [c]) == [[c]] + Words(rest, "");
  }

  lemma LetterIsName(c: char)
    requires 'A' <= c <= 'Z'
    ensures NameOk([c]) && GoodWord([c]) && Trim([c]) == [c]
  {
    assert !IsSep(c) && c !in "\"*:<>?|\U{7F}";
    NameIsWord([c]);
  }

  lemma WordsOf(s: string)
    requires forall i :: 0 <= i < |s| ==> !IsSep(s[i])
    ensures Words(s, "") == [s]
  {
    WordsOfName(s, "");
    assert "" + s == s;
  }

  lemma SegmentsOfDetour()
    ensures Segments("D/S/..") == ["D", "S", ".."]
  {
    WordsOf("..");
    OneLetter('S', "..");
    OneLetter('D', "S/..");
    assert ['S'] + "/" + ".." == "S/.." && ['D'] + "/" + "S/.." == "D/S/..";
  }

  lemma PlacesOnDetour()
    ensures IsDir(TREE, []) && IsDir(TREE, ["D"]) && IsDir(TREE, ["D", "S"]) && HasDot(TREE, ["D", "S"], "..")
  {
    assert IndexOf(TREE.slots, "D") == 0 && IndexOf(IN_D, "S") == 0;
    assert ["D", "S"][1..] == ["S"] && ["S"][1..] == [] && ["D"][1..] == [];
    assert Find(Dir(IN_D), ["S"]) == Some(Dir(DOTS));
    assert DOTS[1] == Dot("..");
  }

  lemma WayOnDetour()
    ensures Goes(TREE, true, [], ["D", "S", ".."])
    ensures Trace(TREE, true, [], ["D", "S", ".."]) == [[], ["D"], ["D", "S"], ["D"]]
  {
    hide IsDir, HasDot, GoodWord, Trim;
    PlacesOnDetour();
    LetterIsName('D');
    LetterIsName('S');
    assert ['D'] == "D" && ['S'] == "S";
    var w := ["D", "S", ".."];
    assert w[1..] == ["S", ".."] && ["S", ".."][1..] == [".."] && [".."][1..] == [];
    assert [] + ["D"] == ["D"] && ["D"] + ["S"] == ["D", "S"] && ["D", "S"][..1] == ["D"];
    assert Trace(TREE, true, ["D"], []) == [["D"]];
    assert Trace(TREE, true, ["D", "S"], [".."]) == [["D", "S"], ["D"]];
    assert Trace(TREE, true, ["D"], ["S", ".."]) == [["D"], ["D", "S"], ["D"]];
  }

  lemma DetourListing()
    ensures PostOrder(["D"], IN_D) == [Item(["D", "S"], false), Item(["D", "F"], false)]
  {
    assert ["D"] + ["S"] == ["D", "S"] && ["D"] + ["F"] == ["D", "F"];
    assert IN_D[1..] == [Used("F", false, File)] && IN_D[1..][1..] == [] && DOTS[1..] == [Dot("..")] && DOTS[1..][1..] == [];
    assert PostOrder(["D", "S"], DOTS[1..]) == [];
    assert PostOrder(["D", "S"], DOTS) == [];
    assert PostOrder(["D"], IN_D[1..]) == [Item(["D", "F"], false)];
  }

  /**
    The path D/S/.. opens D, but the way leads through D/S.  That directory is removed first, and then the
    file D/F cannot be reached.
  */
  lemma DetourFails(m: nat, res: FResult)
    requires Progress(Via(TREE, Some([]), "D/S/.."), Some([]), PostOrder(["D"], IN_D), m, res) && res != DiskErr
    ensures Opened(TREE, Some([]), "D/S/..") == Some(["D"])
    ensures m == 1 && res == NoPath
  {
    SegmentsOfDetour();
    PlacesOnDetour();
    WayOnDetour();
    assert Start(Some([]), "D/S/..") == [];
    OpenedGoes(TREE, Some([]), "D/S/..");
    DetourListing();
    var via, items := Via(TREE, Some([]), "D/S/.."), PostOrder(["D"], IN_D);
    assert items[0].path in via && items[..1][0] == items[0];
    assert Among(items[..1], ["D", "S"]);
    assert Crosses(via, items[..1]);
    NothingCrosses(via);
    assert items[..0] == [];
    assert Front(items) == items[..1];
    SucceedsExactly(via, Some([]), items, m, res);
    OutcomeUnique(via, Some([]), items, m, res, 1, NoPath);
  }

  /** The root has a file of the same name as one in the current directory D. */
  const TWIN: Node := Dir([Used("D", false, Dir([Used("F", false, File)])), Used("F", false, File)])

  /** The empty path opens D, but the name read there is then looked up, and removed, in the root. */
  lemma AstrayFails()
    ensures Opened(TWIN, Some(["D"]), "") == Some(["D"])
    ensures Find(TWIN, ["D", "F"]) == Some(File) && Resolve(TWIN, Some(["D"]), "" + "/" + "F") == Hit(["F"], false)
  {
    assert IndexOf(TWIN.slots, "D") == 0;
    assert ["D"][1..] == [] && ["F"][1..] == [] && ["D", "F"][1..] == ["F"];
    assert TWIN.slots[1..][0].name == "F";
    assert IndexOf(TWIN.slots, "F") == 1;
    assert Find(TWIN, ["D"]).Some? && Find(TWIN, ["F"]) == Some(File);
    assert [] + ["F"] == ["F"] && ['F'] == "F";
    LetterIsName('F');
    ChildResolves(TWIN, Some(["D"]), "", "F");
  }
}
