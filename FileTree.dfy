/** An abstract, acyclic directory tree and the ignore-list filtering applied
    to it at every directory of the walk. */
module FileTree {

  /** A directory: its own name, the names of the files directly inside it,
      and its child directories, in the order the walk lists them. */
  datatype Dir = Dir(name: string, files: seq<string>, subdirs: seq<Dir>)

  datatype Option<T> = None | Some(value: T)

  /** The names skipped when no ignore list is given. */
  const DefaultIgnore: seq<string> := [".DS_Store", ".git", "__pycache__", ".pytest_cache"]

  /** The ignore list in force: the given one, even when it is empty, or the
      default when none is given. */
  function IgnoreList(given: Option<seq<string>>): seq<string>
  {
    if given.None? then DefaultIgnore else given.value
  }

  /** Number of directories in a tree, the tree's own root included. */
  function Size(d: Dir): (n: nat)
    ensures n >= 1
  {
    1 + SizeSeq(d.subdirs)
  }

  function SizeSeq(ds: seq<Dir>): nat
  {
    if ds == [] then 0 else Size(ds[0]) + SizeSeq(ds[1..])
  }

  /** The names of a sequence of directories, in order. */
  function Names(ds: seq<Dir>): (r: seq<string>)
    ensures |r| == |ds|
    ensures forall i :: 0 <= i < |ds| ==> r[i] == ds[i].name
  {
    if ds == [] then [] else [ds[0].name] + Names(ds[1..])
  }

  /** The file-name filter: the names that are not on the ignore list, in
      their original order, each kept name as often as it was listed. */
  function Unignored(names: seq<string>, ignore: seq<string>): (r: seq<string>)
    ensures |r| <= |names|
    ensures forall x :: x in r <==> x in names && x !in ignore
    ensures (forall x :: x in names ==> x !in ignore) ==> r == names
  {
    if names == [] then []
    else if names[0] in ignore then Unignored(names[1..], ignore)
    else [names[0]] + Unignored(names[1..], ignore)
  }

  /** The filter keeps every name that is not ignored exactly as many times
      as it was listed, and no ignored name at all; so the number of kept
      names is the number of listed names that are not ignored. */
  lemma {:induction false} UnignoredCounts(names: seq<string>, ignore: seq<string>)
    ensures forall x :: multiset(Unignored(names, ignore))[x] == if x in ignore then 0 else multiset(names)[x]
  {
    if names != [] {
      UnignoredCounts(names[1..], ignore);
      assert names == [names[0]] + names[1..];
    }
  }

  /** The directory filter: the child directories whose name is not on the
      ignore list, in their original order. It keeps exactly the directories
      whose names the file-name filter would keep. */
  function UnignoredDirs(ds: seq<Dir>, ignore: seq<string>): (r: seq<Dir>)
    ensures Names(r) == Unignored(Names(ds), ignore)
    ensures forall d :: d in r <==> d in ds && d.name !in ignore
    ensures SizeSeq(r) <= SizeSeq(ds)
    ensures (forall d :: d in ds ==> d.name !in ignore) ==> r == ds
  {
    if ds == [] then []
    else
      var rest := UnignoredDirs(ds[1..], ignore);
      assert Names(ds)[1..] == Names(ds[1..]);
      if ds[0].name in ignore then rest
      else
        assert Names([ds[0]] + rest) == [ds[0].name] + Names(rest);
        [ds[0]] + rest
  }

  /** The tree as the walk sees it: ignored files and ignored directories
      (with everything below them) removed at every level. */
  function Prune(d: Dir, ignore: seq<string>): (p: Dir)
    decreases Size(d), 0
  {
    Dir(d.name, Unignored(d.files, ignore), PruneAll(UnignoredDirs(d.subdirs, ignore), ignore))
  }

  function PruneAll(ds: seq<Dir>, ignore: seq<string>): (ps: seq<Dir>)
    decreases SizeSeq(ds), 1
  {
    if ds == [] then [] else [Prune(ds[0], ignore)] + PruneAll(ds[1..], ignore)
  }

  /** Files in a tree, counted at every level. */
  function TotalFiles(d: Dir): nat
  {
    |d.files| + TotalFilesSeq(d.subdirs)
  }

  function TotalFilesSeq(ds: seq<Dir>): nat
  {
    if ds == [] then 0 else TotalFiles(ds[0]) + TotalFilesSeq(ds[1..])
  }

  /** Subdirectories in a tree, that is every directory except the root. */
  function TotalDirs(d: Dir): nat
  {
    |d.subdirs| + TotalDirsSeq(d.subdirs)
  }

  function TotalDirsSeq(ds: seq<Dir>): nat
  {
    if ds == [] then 0 else TotalDirs(ds[0]) + TotalDirsSeq(ds[1..])
  }

  /** Every directory but the root is some directory's subdirectory. */
  lemma {:induction false} TotalDirsIsSizeMinusOne(d: Dir)
    ensures TotalDirs(d) == Size(d) - 1
  {
    TotalDirsSeqIsSizeSeq(d.subdirs);
  }

  lemma {:induction false} TotalDirsSeqIsSizeSeq(ds: seq<Dir>)
    ensures TotalDirsSeq(ds) + |ds| == SizeSeq(ds)
  {
    if ds != [] {
      TotalDirsIsSizeMinusOne(ds[0]);
      TotalDirsSeqIsSizeSeq(ds[1..]);
    }
  }

  /** An empty ignore list leaves the tree as it is. */
  lemma {:induction false} PruneNothing(d: Dir)
    ensures Prune(d, []) == d
    decreases d, 0
  {
    PruneAllNothing(d.subdirs);
  }

  lemma {:induction false} PruneAllNothing(ds: seq<Dir>)
    ensures PruneAll(ds, []) == ds
    decreases ds, 1
  {
    if ds != [] {
      PruneNothing(ds[0]);
      PruneAllNothing(ds[1..]);
    }
  }

  /** No directory left in a pruned tree, below its root, carries an ignored
      name, and no file left in it does either. */
  ghost predicate FreeOf(d: Dir, ignore: seq<string>)
  {
    (forall x :: x in d.files ==> x !in ignore) &&
    (forall c :: c in d.subdirs ==> c.name !in ignore && FreeOf(c, ignore))
  }

  lemma {:induction false} PruneIsFreeOf(d: Dir, ignore: seq<string>)
    ensures FreeOf(Prune(d, ignore), ignore)
    decreases Size(d), 0
  {
    PruneAllIsFreeOf(UnignoredDirs(d.subdirs, ignore), ignore);
  }

  lemma {:induction false} PruneAllIsFreeOf(ds: seq<Dir>, ignore: seq<string>)
    requires forall c :: c in ds ==> c.name !in ignore
    ensures forall c :: c in PruneAll(ds, ignore) ==> c.name !in ignore && FreeOf(c, ignore)
    decreases SizeSeq(ds), 1
  {
    if ds != [] {
      PruneIsFreeOf(ds[0], ignore);
      PruneAllIsFreeOf(ds[1..], ignore);
    }
  }
}
