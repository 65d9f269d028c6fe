/** Small trees worked through the walk and the renderer. The names are
    left open: any names that are, or are not, on the ignore list behave
    the same way. */
module Scenarios {
  import opened Text
  import opened FileTree
  import opened Analyzer
  import opened Report

  lemma OneOfEach()
    ensures CountPhrase(1, "file") == "1 file"
    ensures CountPhrase(1, "dir") == "1 dir"
    ensures CountPhrase(2, "file") == "2 files"
  {
    assert NatToString(1) == "1";
    assert NatToString(2) == "2";
  }

  /** A directory without subdirectories contributes its own record only. */
  lemma LeafWalk(f: Frame, ignore: seq<string>)
    requires f.dir.subdirs == []
    ensures WalkAt(f, ignore) == [Record(f, ignore)]
  {
    assert Children(f, ignore) == [];
  }

  /** A directory with one kept subdirectory contributes its own record and
      then the subdirectory's walk. */
  lemma OnlyChildWalk(f: Frame, c: Dir, ignore: seq<string>)
    requires UnignoredDirs(f.dir.subdirs, ignore) == [c]
    ensures WalkAt(f, ignore) == [Record(f, ignore)] + WalkAt(Frame(c, f.path + [c.name]), ignore)
  {
    var kids := Children(f, ignore);
    assert |kids| == 1 && kids[0] == Frame(c, f.path + [c.name]);
    assert WalkFrames(kids, ignore) == WalkAt(kids[0], ignore) + WalkFrames(kids[1..], ignore);
    assert kids[1..] == [];
  }

  // ---------------------------------------------------------------------
  // A root holding one file and one empty subdirectory, beside an ignored
  // file and an ignored directory.

  function Flat(root: string, file: string, junk: string, sub: string, hidden: Dir): Dir
  {
    Dir(root, [file, junk], [Dir(sub, [], []), hidden])
  }

  /** The walk emits the root, then the kept subdirectory; the ignored file
      is not counted, and the ignored directory is neither counted nor
      visited. */
  lemma FlatWalk(root: string, file: string, junk: string, sub: string, hidden: Dir, ignore: seq<string>)
    requires file !in ignore && sub !in ignore && junk in ignore && hidden.name in ignore
    ensures Walk(Flat(root, file, junk, sub, hidden), ignore) == [Entry([root], 1, 1), Entry([sub], 0, 0)]
  {
    var d := Flat(root, file, junk, sub, hidden);
    var s := Dir(sub, [], []);
    assert d.subdirs[1..] == [hidden] && d.files[1..] == [junk];
    assert UnignoredDirs(d.subdirs, ignore) == [s];
    assert Unignored(d.files, ignore) == [file];
    OnlyChildWalk(Frame(d, []), s, ignore);
    LeafWalk(Frame(s, [sub]), ignore);
    assert [] + [sub] == [sub];
  }

  /** A record labelled by one segment is drawn flush left. */
  lemma DepthZeroLines(e: Entry)
    requires |e.path| == 1
    ensures NameLine(e) == e.path[0] + "/"
    ensures StatsLine(e) == "   (" + JoinWith(StatsParts(e), ", ") + ")"
  {
    assert Depth(e.path) == 0 && Indent(0) == "" && Marker(0) == "";
  }

  lemma FlatRootLines(root: string)
    ensures EntryLines(Entry([root], 1, 1)) == [root + "/", "   (1 file, 1 dir)"]
  {
    var e := Entry([root], 1, 1);
    OneOfEach();
    assert StatsParts(e) == ["1 file", "1 dir"];
    assert JoinWith(["1 file", "1 dir"], ", ") == "1 file, 1 dir";
    assert "   (" + "1 file, 1 dir" + ")" == "   (1 file, 1 dir)";
    DepthZeroLines(e);
  }

  /** The root's stats read "(1 file, 1 dir)" and the empty subdirectory
      gets no stats line. */
  lemma FlatTree(root: string, file: string, junk: string, sub: string, hidden: Dir, ignore: seq<string>)
    requires file !in ignore && sub !in ignore && junk in ignore && hidden.name in ignore
    ensures TreeLines(Walk(Flat(root, file, junk, sub, hidden), ignore)) ==
      [root + "/", "   (1 file, 1 dir)", sub + "/"]
  {
    FlatWalk(root, file, junk, sub, hidden, ignore);
    FlatRootLines(root);
    var es := [Entry([root], 1, 1), Entry([sub], 0, 0)];
    DepthZeroLines(es[1]);
    assert EntryLines(es[1]) == [sub + "/"];
    TwoRecords(es[0], es[1]);
  }

  lemma TwoRecords(a: Entry, b: Entry)
    ensures TreeLines([a, b]) == EntryLines(a) + EntryLines(b)
  {
    assert [a, b][1..] == [b];
    assert TreeLines([b]) == EntryLines(b) + TreeLines([]);
  }

  /** The default ignore list holds ".DS_Store" and ".git" but not
      "main.py" or "docs", so FlatTree applies to a project "proj" holding
      "main.py", ".DS_Store", "docs/" and ".git/" walked with the default
      list. */
  lemma DefaultMembership()
    ensures ".DS_Store" in DefaultIgnore && ".git" in DefaultIgnore
    ensures "main.py" !in DefaultIgnore && "docs" !in DefaultIgnore
  {
    assert DefaultIgnore[0] == ".DS_Store" && DefaultIgnore[1] == ".git";
    assert "main.py"[0] == 'm' && "docs"[0] == 'd';
    forall i | 0 <= i < |DefaultIgnore| ensures DefaultIgnore[i][0] != 'm' && DefaultIgnore[i][0] != 'd' {
    }
  }

  // ---------------------------------------------------------------------
  // A root with one subdirectory that has one subdirectory of its own.

  function Nested(root: string, mid: string, leaf: string, f1: string, f2: string, f3: string): Dir
  {
    Dir(root, [], [Dir(mid, [f1, f2], [Dir(leaf, [f3], [])])])
  }

  lemma NestedWalk(root: string, mid: string, leaf: string, f1: string, f2: string, f3: string)
    ensures Walk(Nested(root, mid, leaf, f1, f2, f3), []) ==
      [Entry([root], 0, 1), Entry([mid], 2, 1), Entry([mid, leaf], 1, 0)]
  {
    var l := Dir(leaf, [f3], []);
    var m := Dir(mid, [f1, f2], [l]);
    var r := Nested(root, mid, leaf, f1, f2, f3);
    assert UnignoredDirs(r.subdirs, []) == [m];
    assert UnignoredDirs(m.subdirs, []) == [l];
    assert Unignored(m.files, []) == m.files;
    assert Unignored(l.files, []) == l.files;
    OnlyChildWalk(Frame(r, []), m, []);
    assert [] + [mid] == [mid];
    OnlyChildWalk(Frame(m, [mid]), l, []);
    assert [mid] + [leaf] == [mid, leaf];
    LeafWalk(Frame(l, [mid, leaf]), []);
  }

  lemma NestedRootLines(root: string)
    ensures EntryLines(Entry([root], 0, 1)) == [root + "/", "   (1 dir)"]
  {
    var e := Entry([root], 0, 1);
    OneOfEach();
    assert StatsParts(e) == ["1 dir"];
    assert "   (" + "1 dir" + ")" == "   (1 dir)";
    DepthZeroLines(e);
  }

  lemma NestedMidLines(mid: string)
    ensures EntryLines(Entry([mid], 2, 1)) == [mid + "/", "   (2 files, 1 dir)"]
  {
    var e := Entry([mid], 2, 1);
    OneOfEach();
    assert StatsParts(e) == ["2 files", "1 dir"];
    assert JoinWith(["2 files", "1 dir"], ", ") == "2 files, 1 dir";
    assert "   (" + "2 files, 1 dir" + ")" == "   (2 files, 1 dir)";
    DepthZeroLines(e);
  }

  /** A record two segments deep is indented one level and marked. */
  lemma NestedLeafLines(mid: string, leaf: string)
    ensures EntryLines(Entry([mid, leaf], 1, 0)) == ["  └──" + leaf + "/", "     (1 file)"]
  {
    var e := Entry([mid, leaf], 1, 0);
    OneOfEach();
    assert Depth(e.path) == 1 && Basename(e.path) == leaf;
    assert Indent(1) == "  " + Indent(0);
    assert StatsParts(e) == ["1 file"];
    assert NameLine(e) == "  " + "└──" + leaf + "/";
    assert "  " + "└──" == "  └──";
    assert StatsLine(e) == "  " + "   (" + "1 file" + ")";
    assert "  " + "   (" + "1 file" + ")" == "     (1 file)";
  }

  /** Only the grandchild of the root is indented and marked: the root and
      its first-level subdirectory are both drawn at depth 0. The plural
      shows for two files, the singular for one. */
  lemma NestedTree(root: string, mid: string, leaf: string, f1: string, f2: string, f3: string)
    ensures TreeLines(Walk(Nested(root, mid, leaf, f1, f2, f3), [])) ==
      [root + "/", "   (1 dir)", mid + "/", "   (2 files, 1 dir)", "  └──" + leaf + "/", "     (1 file)"]
  {
    NestedWalk(root, mid, leaf, f1, f2, f3);
    NestedRootLines(root);
    NestedMidLines(mid);
    NestedLeafLines(mid, leaf);
    var es := [Entry([root], 0, 1), Entry([mid], 2, 1), Entry([mid, leaf], 1, 0)];
    assert TreeLines(es) == EntryLines(es[0]) + TreeLines(es[1..]);
    assert es[1..] == [es[1], es[2]];
    assert TreeLines(es[1..]) == EntryLines(es[1]) + TreeLines(es[2..]);
    assert es[2..] == [es[2]];
    assert TreeLines(es[2..]) == EntryLines(es[2]) + TreeLines([]);
  }
}
