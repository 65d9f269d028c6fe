/** The top-down walk of a directory tree that emits one record per visited
    directory, with ignored names filtered out at every level. */
module Analyzer {
  import opened FileTree

  /** A path below the walk's root, one segment per directory. */
  type Path = seq<string>

  /** One record of the analysis: the directory's path relative to the root
      (the root itself labelled by its own name), and how many files and
      subdirectories it holds once ignored names are removed. */
  datatype Entry = Entry(path: Path, fileCount: nat, dirCount: nat)

  /** A directory waiting on the walker's stack, with its path relative to
      the root ([] for the root itself). */
  datatype Frame = Frame(dir: Dir, path: Path)

  /** Sums of the two count fields over a list of records. */
  function SumFiles(es: seq<Entry>): nat
  {
    if es == [] then 0 else es[0].fileCount + SumFiles(es[1..])
  }

  function SumDirs(es: seq<Entry>): nat
  {
    if es == [] then 0 else es[0].dirCount + SumDirs(es[1..])
  }

  lemma {:induction false} SumsAppend(a: seq<Entry>, b: seq<Entry>)
    ensures SumFiles(a + b) == SumFiles(a) + SumFiles(b)
    ensures SumDirs(a + b) == SumDirs(a) + SumDirs(b)
  {
    if a != [] {
      assert (a + b)[1..] == a[1..] + b;
      SumsAppend(a[1..], b);
    } else {
      assert a + b == b;
    }
  }

  /** The label a record carries: the relative path, except that the root,
      whose relative path is ".", is labelled by its own base name. */
  function Label(f: Frame): (p: Path)
    ensures p != []
    ensures f.path != [] ==> p == f.path
  {
    if f.path == [] then [f.dir.name] else f.path
  }

  /** The record emitted when the walk reaches a frame. */
  function Record(f: Frame, ignore: seq<string>): Entry
  {
    Entry(Label(f), |Unignored(f.dir.files, ignore)|, |UnignoredDirs(f.dir.subdirs, ignore)|)
  }

  /** The frames the walker descends into below a directory at path p. */
  function ChildFrames(ds: seq<Dir>, p: Path): (fs: seq<Frame>)
    ensures |fs| == |ds|
    ensures forall i :: 0 <= i < |ds| ==> fs[i] == Frame(ds[i], p + [ds[i].name])
  {
    seq(|ds|, i requires 0 <= i < |ds| => Frame(ds[i], p + [ds[i].name]))
  }

  function FramesSize(fs: seq<Frame>): nat
  {
    if fs == [] then 0 else Size(fs[0].dir) + FramesSize(fs[1..])
  }

  lemma {:induction false} FramesSizeAppend(a: seq<Frame>, b: seq<Frame>)
    ensures FramesSize(a + b) == FramesSize(a) + FramesSize(b)
  {
    if a != [] {
      assert (a + b)[1..] == a[1..] + b;
      FramesSizeAppend(a[1..], b);
    } else {
      assert a + b == b;
    }
  }

  lemma {:induction false} FramesSizeOfChildren(ds: seq<Dir>, p: Path)
    ensures FramesSize(ChildFrames(ds, p)) == SizeSeq(ds)
  {
    if ds != [] {
      assert ChildFrames(ds, p)[1..] == ChildFrames(ds[1..], p);
      FramesSizeOfChildren(ds[1..], p);
    }
  }

  /** The frames the walker descends into below frame f: one per kept
      subdirectory, in order, each smaller than f. */
  function Children(f: Frame, ignore: seq<string>): (fs: seq<Frame>)
    ensures FramesSize(fs) < Size(f.dir)
    ensures forall i :: 0 <= i < |fs| ==> fs[i].path == f.path + [fs[i].dir.name] && fs[i].dir.name !in ignore
    ensures FrameDirs(fs) == UnignoredDirs(f.dir.subdirs, ignore)
  {
    var kids := UnignoredDirs(f.dir.subdirs, ignore);
    FramesSizeOfChildren(kids, f.path);
    assert forall i :: 0 <= i < |kids| ==> kids[i] in kids;
    ChildFrames(kids, f.path)
  }

  /** The records of the walk of one frame in the order the walk emits them:
      the frame's own record, then, child by kept child, the whole walk below
      that child. */
  function WalkAt(f: Frame, ignore: seq<string>): (es: seq<Entry>)
    decreases Size(f.dir), 0
  {
    [Record(f, ignore)] + WalkFrames(Children(f, ignore), ignore)
  }

  /** The records produced by walking a stack of frames, top first. */
  function WalkFrames(fs: seq<Frame>, ignore: seq<string>): seq<Entry>
    decreases FramesSize(fs), 1
  {
    if fs == [] then [] else WalkAt(fs[0], ignore) + WalkFrames(fs[1..], ignore)
  }

  /** The whole analysis of a tree. */
  function Walk(root: Dir, ignore: seq<string>): seq<Entry>
  {
    WalkAt(Frame(root, []), ignore)
  }

  lemma {:induction false} WalkFramesAppend(a: seq<Frame>, b: seq<Frame>, ignore: seq<string>)
    ensures WalkFrames(a + b, ignore) == WalkFrames(a, ignore) + WalkFrames(b, ignore)
  {
    if a != [] {
      assert (a + b)[0] == a[0];
      assert (a + b)[1..] == a[1..] + b;
      WalkFramesAppend(a[1..], b, ignore);
      var h := WalkAt(a[0], ignore);
      var x, y := WalkFrames(a[1..], ignore), WalkFrames(b, ignore);
      Regroup(h, x, y);
    } else {
      assert a + b == b;
    }
  }

  /** One step of the walker: popping the top frame emits its record and
      pushes its kept children, in order, on top of the rest. */
  lemma WalkFramesStep(fs: seq<Frame>, ignore: seq<string>)
    requires fs != []
    ensures WalkFrames(fs, ignore) ==
      [Record(fs[0], ignore)] + WalkFrames(Children(fs[0], ignore) + fs[1..], ignore)
    ensures FramesSize(Children(fs[0], ignore) + fs[1..]) < FramesSize(fs)
  {
    var kids, rest := Children(fs[0], ignore), fs[1..];
    WalkFramesAppend(kids, rest, ignore);
    FramesSizeAppend(kids, rest);
    var head, below, after := [Record(fs[0], ignore)], WalkFrames(kids, ignore), WalkFrames(rest, ignore);
    assert WalkFrames(fs, ignore) == (head + below) + after;
    Regroup(head, below, after);
  }

  /** Concatenation regroups freely. */
  lemma Regroup<T>(a: seq<T>, b: seq<T>, c: seq<T>)
    ensures (a + b) + c == a + (b + c)
  {
  }

  /** The analysis as the source runs it: with no ignore list given the
      default one is used (an empty list given is kept as it is), and the
      tree is then walked with it. */
  method AnalyzeDirectory(root: Dir, ignorePatterns: Option<seq<string>>) returns (results: seq<Entry>)
    ensures ignorePatterns.None? ==> results == Walk(root, DefaultIgnore)
    ensures ignorePatterns.Some? ==> results == Walk(root, ignorePatterns.value)
    ensures var ignore := IgnoreList(ignorePatterns);
      |results| >= 1 &&
      results[0] == Entry([root.name], |Unignored(root.files, ignore)|, |UnignoredDirs(root.subdirs, ignore)|)
    ensures |results| == 1 + SumDirs(results)
  {
    var ignore := IgnoreList(ignorePatterns);
    results := WalkDirectory(root, ignore);
    WalkCount(root, ignore);
    WalkHead(root, ignore);
  }

  /** The walk loop: the walker pops the next directory, the ignored
      subdirectory names are removed from its listing before the walker
      descends (so nothing below them is visited), the ignored file names
      are removed, and one record is appended. */
  method WalkDirectory(root: Dir, ignore: seq<string>) returns (results: seq<Entry>)
    ensures results == Walk(root, ignore)
  {
    results := [];
    var stack := [Frame(root, [])];
    while stack != []
      invariant results + WalkFrames(stack, ignore) == Walk(root, ignore)
      decreases FramesSize(stack)
    {
      var current := stack[0];
      WalkFramesStep(stack, ignore);
      stack := stack[1..];
      var dirs := UnignoredDirs(current.dir.subdirs, ignore);
      var files := Unignored(current.dir.files, ignore);
      var relPath := if current.path == [] then [current.dir.name] else current.path;
      assert Entry(relPath, |files|, |dirs|) == Record(current, ignore);
      results := results + [Entry(relPath, |files|, |dirs|)];
      assert ChildFrames(dirs, current.path) == Children(current, ignore);
      stack := ChildFrames(dirs, current.path) + stack;
    }
  }

  /** The first record is the root's, labelled by the root's own name and
      counting what the root directly holds once ignored names are removed. */
  lemma WalkHead(root: Dir, ignore: seq<string>)
    ensures |Walk(root, ignore)| >= 1
    ensures Walk(root, ignore)[0] ==
      Entry([root.name], |Unignored(root.files, ignore)|, |UnignoredDirs(root.subdirs, ignore)|)
  {
    assert Walk(root, ignore)[0] == Record(Frame(root, []), ignore);
  }

  // ---------------------------------------------------------------------
  // Counting: every kept subdirectory is visited exactly once.

  lemma {:induction false} WalkAtCount(f: Frame, ignore: seq<string>)
    ensures |WalkAt(f, ignore)| == 1 + SumDirs(WalkAt(f, ignore))
    decreases Size(f.dir), 0
  {
    var children := Children(f, ignore);
    WalkFramesCount(children, ignore);
    SumsAppend([Record(f, ignore)], WalkFrames(children, ignore));
  }

  lemma {:induction false} WalkFramesCount(fs: seq<Frame>, ignore: seq<string>)
    ensures |WalkFrames(fs, ignore)| == |fs| + SumDirs(WalkFrames(fs, ignore))
    decreases FramesSize(fs), 1
  {
    if fs != [] {
      WalkAtCount(fs[0], ignore);
      WalkFramesCount(fs[1..], ignore);
      SumsAppend(WalkAt(fs[0], ignore), WalkFrames(fs[1..], ignore));
    }
  }

  /** There is one record for the root plus one for every subdirectory any
      record counts. */
  lemma WalkCount(root: Dir, ignore: seq<string>)
    ensures |Walk(root, ignore)| == 1 + SumDirs(Walk(root, ignore))
  {
    WalkAtCount(Frame(root, []), ignore);
  }

  // ---------------------------------------------------------------------
  // Totals: the sums over the records are the totals of the pruned tree.

  function FrameDirs(fs: seq<Frame>): (ds: seq<Dir>)
    ensures |ds| == |fs|
    ensures forall i :: 0 <= i < |fs| ==> ds[i] == fs[i].dir
  {
    seq(|fs|, i requires 0 <= i < |fs| => fs[i].dir)
  }

  lemma {:induction false} WalkAtTotals(f: Frame, ignore: seq<string>)
    ensures SumFiles(WalkAt(f, ignore)) == TotalFiles(Prune(f.dir, ignore))
    ensures SumDirs(WalkAt(f, ignore)) == TotalDirs(Prune(f.dir, ignore))
    ensures |WalkAt(f, ignore)| == Size(Prune(f.dir, ignore))
    decreases Size(f.dir), 0
  {
    var children := Children(f, ignore);
    var kids := UnignoredDirs(f.dir.subdirs, ignore);
    WalkFramesTotals(children, ignore);
    SumsAppend([Record(f, ignore)], WalkFrames(children, ignore));
    PruneAllLength(kids, ignore);
  }

  lemma {:induction false} WalkFramesTotals(fs: seq<Frame>, ignore: seq<string>)
    ensures SumFiles(WalkFrames(fs, ignore)) == TotalFilesSeq(PruneAll(FrameDirs(fs), ignore))
    ensures SumDirs(WalkFrames(fs, ignore)) == TotalDirsSeq(PruneAll(FrameDirs(fs), ignore))
    ensures |WalkFrames(fs, ignore)| == SizeSeq(PruneAll(FrameDirs(fs), ignore))
    decreases FramesSize(fs), 1
  {
    if fs != [] {
      WalkAtTotals(fs[0], ignore);
      WalkFramesTotals(fs[1..], ignore);
      SumsAppend(WalkAt(fs[0], ignore), WalkFrames(fs[1..], ignore));
      assert FrameDirs(fs)[1..] == FrameDirs(fs[1..]);
      var ps := PruneAll(FrameDirs(fs), ignore);
      assert ps[0] == Prune(fs[0].dir, ignore);
      assert ps[1..] == PruneAll(FrameDirs(fs[1..]), ignore);
    }
  }

  lemma {:induction false} PruneAllLength(ds: seq<Dir>, ignore: seq<string>)
    ensures |PruneAll(ds, ignore)| == |ds|
  {
    if ds != [] {
      PruneAllLength(ds[1..], ignore);
    }
  }

  /** The sums of the count fields over the records are the numbers of files
      and of subdirectories left in the tree once ignored names are removed,
      and the walk visits every directory left in it. */
  lemma WalkTotals(root: Dir, ignore: seq<string>)
    ensures SumFiles(Walk(root, ignore)) == TotalFiles(Prune(root, ignore))
    ensures SumDirs(Walk(root, ignore)) == TotalDirs(Prune(root, ignore))
    ensures |Walk(root, ignore)| == Size(Prune(root, ignore))
  {
    WalkAtTotals(Frame(root, []), ignore);
  }

  /** With nothing to ignore, every directory of the tree is visited once. */
  lemma WalkVisitsAll(root: Dir)
    ensures |Walk(root, [])| == Size(root)
    ensures SumFiles(Walk(root, [])) == TotalFiles(root)
  {
    WalkTotals(root, []);
    PruneNothing(root);
  }

  // ---------------------------------------------------------------------
  // Ignored names never appear below the root.

  /** No segment of the path is an ignored name. */
  ghost predicate Clean(p: Path, ignore: seq<string>)
  {
    forall j :: 0 <= j < |p| ==> p[j] !in ignore
  }

  /** Below a frame whose path is free of ignored names, so are the paths
      of the frames the walker descends into. */
  lemma ChildrenClean(f: Frame, ignore: seq<string>)
    requires Clean(f.path, ignore)
    ensures forall i :: 0 <= i < |Children(f, ignore)| ==>
      Children(f, ignore)[i].path != [] && Clean(Children(f, ignore)[i].path, ignore)
  {
    var children := Children(f, ignore);
    forall i | 0 <= i < |children|
      ensures children[i].path != [] && Clean(children[i].path, ignore)
    {
      var p := children[i].path;
      assert p == f.path + [children[i].dir.name];
      forall j | 0 <= j < |p| ensures p[j] !in ignore {
        if j < |f.path| { assert p[j] == f.path[j]; }
      }
    }
  }

  lemma {:induction false} WalkAtClean(f: Frame, ignore: seq<string>)
    requires f.path != [] && Clean(f.path, ignore)
    ensures forall k :: 0 <= k < |WalkAt(f, ignore)| ==> Clean(WalkAt(f, ignore)[k].path, ignore)
    decreases Size(f.dir), 0
  {
    var children := Children(f, ignore);
    ChildrenClean(f, ignore);
    WalkFramesClean(children, ignore);
  }

  lemma {:induction false} WalkFramesClean(fs: seq<Frame>, ignore: seq<string>)
    requires forall i :: 0 <= i < |fs| ==> fs[i].path != [] && Clean(fs[i].path, ignore)
    ensures forall k :: 0 <= k < |WalkFrames(fs, ignore)| ==> Clean(WalkFrames(fs, ignore)[k].path, ignore)
    decreases FramesSize(fs), 1
  {
    if fs != [] {
      WalkAtClean(fs[0], ignore);
      WalkFramesClean(fs[1..], ignore);
    }
  }

  /** Every record after the root's has a path free of ignored names: no
      ignored directory is visited, nor anything below one. */
  lemma WalkAvoidsIgnored(root: Dir, ignore: seq<string>)
    ensures forall k :: 1 <= k < |Walk(root, ignore)| ==> Clean(Walk(root, ignore)[k].path, ignore)
  {
    var f := Frame(root, []);
    var inner := WalkFrames(Children(f, ignore), ignore);
    ChildrenClean(f, ignore);
    WalkFramesClean(Children(f, ignore), ignore);
    CleanAfterHead(Record(f, ignore), inner, ignore);
  }

  lemma CleanAfterHead(head: Entry, rest: seq<Entry>, ignore: seq<string>)
    requires forall k :: 0 <= k < |rest| ==> Clean(rest[k].path, ignore)
    ensures forall k :: 1 <= k < |[head] + rest| ==> Clean(([head] + rest)[k].path, ignore)
  {
    forall k | 1 <= k < |[head] + rest|
      ensures Clean(([head] + rest)[k].path, ignore)
    {
      assert ([head] + rest)[k] == rest[k - 1];
    }
  }

  // ---------------------------------------------------------------------
  // Top-down order: a directory's record comes before its children's.

  function DropLast(p: Path): Path
  {
    if p == [] then [] else p[..|p| - 1]
  }

  ghost predicate ParentBefore(es: seq<Entry>, k: int)
    requires 0 <= k < |es|
  {
    exists i :: 0 <= i < k && es[i].path == DropLast(es[k].path)
  }

  ghost predicate IsHead(fs: seq<Frame>, p: Path)
  {
    exists m :: 0 <= m < |fs| && fs[m].path == p
  }

  lemma ShiftParent(a: seq<Entry>, b: seq<Entry>, k: int)
    requires 0 <= k < |b| && ParentBefore(b, k)
    ensures ParentBefore(a + b, |a| + k)
  {
    var i :| 0 <= i < k && b[i].path == DropLast(b[k].path);
    assert (a + b)[|a| + i] == b[i];
  }

  /** Within the walk below a frame, every record but the frame's own is
      preceded by its parent's. */
  lemma {:induction false} WalkAtParents(f: Frame, ignore: seq<string>)
    requires f.path != []
    ensures WalkAt(f, ignore)[0].path == f.path
    ensures forall k :: 1 <= k < |WalkAt(f, ignore)| ==> ParentBefore(WalkAt(f, ignore), k)
    decreases Size(f.dir), 0
  {
    var children := Children(f, ignore);
    WalkFramesParents(children, ignore);
    forall m | 0 <= m < |children| ensures DropLast(children[m].path) == f.path {
      assert children[m].path[..|children[m].path| - 1] == f.path;
    }
    HeadsUnderParent(Record(f, ignore), WalkFrames(children, ignore), children);
  }

  /** A record followed by a stack walk whose frames are all its children. */
  lemma HeadsUnderParent(rec: Entry, inner: seq<Entry>, children: seq<Frame>)
    requires forall m :: 0 <= m < |children| ==> DropLast(children[m].path) == rec.path
    requires forall k :: 0 <= k < |inner| ==> IsHead(children, inner[k].path) || ParentBefore(inner, k)
    ensures forall k :: 1 <= k < |[rec] + inner| ==> ParentBefore([rec] + inner, k)
  {
    var here := [rec] + inner;
    forall k | 1 <= k < |here|
      ensures ParentBefore(here, k)
    {
      assert here[k] == inner[k - 1];
      if IsHead(children, inner[k - 1].path) {
        var m :| 0 <= m < |children| && children[m].path == inner[k - 1].path;
        assert here[0].path == DropLast(here[k].path);
      } else {
        ShiftParent([rec], inner, k - 1);
      }
    }
  }

  /** Within the walk of a stack of frames, every record is that of one of
      the frames or is preceded by its parent's. */
  lemma {:induction false} WalkFramesParents(fs: seq<Frame>, ignore: seq<string>)
    requires forall m :: 0 <= m < |fs| ==> fs[m].path != []
    ensures forall k :: 0 <= k < |WalkFrames(fs, ignore)| ==>
      IsHead(fs, WalkFrames(fs, ignore)[k].path) || ParentBefore(WalkFrames(fs, ignore), k)
    decreases FramesSize(fs), 1
  {
    if fs != [] {
      WalkAtParents(fs[0], ignore);
      WalkFramesParents(fs[1..], ignore);
      ConcatParents(fs, WalkAt(fs[0], ignore), WalkFrames(fs[1..], ignore));
    }
  }

  /** The records of the first frame's walk, then those of the rest. */
  lemma ConcatParents(fs: seq<Frame>, here: seq<Entry>, rest: seq<Entry>)
    requires fs != [] && here != [] && here[0].path == fs[0].path
    requires forall k :: 1 <= k < |here| ==> ParentBefore(here, k)
    requires forall k :: 0 <= k < |rest| ==> IsHead(fs[1..], rest[k].path) || ParentBefore(rest, k)
    ensures forall k :: 0 <= k < |here + rest| ==> IsHead(fs, (here + rest)[k].path) || ParentBefore(here + rest, k)
  {
    var all := here + rest;
    forall k | 0 <= k < |all|
      ensures IsHead(fs, all[k].path) || ParentBefore(all, k)
    {
      if k == 0 {
        assert all[0].path == fs[0].path;
      } else if k < |here| {
        ParentPrefix(here, rest, k);
      } else {
        var j := k - |here|;
        assert all[k] == rest[j];
        if IsHead(fs[1..], rest[j].path) {
          var m :| 0 <= m < |fs[1..]| && fs[1..][m].path == rest[j].path;
          assert fs[m + 1].path == all[k].path;
        } else {
          ShiftParent(here, rest, j);
        }
      }
    }
  }

  /** A parent found in the front part of a list stays found in the whole. */
  lemma ParentPrefix(a: seq<Entry>, b: seq<Entry>, k: int)
    requires 0 <= k < |a| && ParentBefore(a, k)
    ensures ParentBefore(a + b, k)
  {
    var i :| 0 <= i < k && a[i].path == DropLast(a[k].path);
    assert (a + b)[i] == a[i];
  }

  /** Records are produced top-down: the root's record comes first, and
      every later record whose path has more than one segment is preceded
      by the record of its parent directory. */
  lemma WalkTopDown(root: Dir, ignore: seq<string>)
    ensures Walk(root, ignore)[0].path == [root.name]
    ensures forall k :: 1 <= k < |Walk(root, ignore)| && |Walk(root, ignore)[k].path| > 1 ==>
      ParentBefore(Walk(root, ignore), k)
  {
    var f := Frame(root, []);
    var children := Children(f, ignore);
    WalkFramesParents(children, ignore);
    RootChildren(Record(f, ignore), WalkFrames(children, ignore), children);
  }

  /** Below the root, whose label is not a path, the heads of the stack walk
      are the one-segment paths. */
  lemma RootChildren(rec: Entry, inner: seq<Entry>, children: seq<Frame>)
    requires forall m :: 0 <= m < |children| ==> |children[m].path| == 1
    requires forall k :: 0 <= k < |inner| ==> IsHead(children, inner[k].path) || ParentBefore(inner, k)
    ensures forall k :: 1 <= k < |[rec] + inner| && |([rec] + inner)[k].path| > 1 ==> ParentBefore([rec] + inner, k)
  {
    var all := [rec] + inner;
    forall k | 1 <= k < |all| && |all[k].path| > 1
      ensures ParentBefore(all, k)
    {
      assert all[k] == inner[k - 1];
      assert !IsHead(children, inner[k - 1].path);
      ShiftParent([rec], inner, k - 1);
    }
  }
}
