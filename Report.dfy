/** The text report rendered from the analysis records: a header, one line
    per record (and a stats line for records that hold anything), and a
    summary with the totals. */
module Report {
  import opened Text
  import opened FileTree
  import opened Analyzer

  const Title := "Project Directory Structure Report"
  const RuleWidth := 35

  /** Depth of a record: the number of segments of its path less one. The
      root is labelled by one segment, and a first-level subdirectory's
      relative path is its name alone, so both have depth 0. */
  function Depth(p: Path): int
  {
    |p| - 1
  }

  /** The last segment of a path, as the base name of the path text. */
  function Basename(p: Path): string
  {
    if p == [] then "" else p[|p| - 1]
  }

  /** Two spaces per level of depth. */
  function Indent(depth: int): string
  {
    Repeat("  ", depth)
  }

  /** The branch marker, drawn only below depth 0. */
  function Marker(depth: int): string
  {
    if depth > 0 then "└──" else ""
  }

  function NameLine(e: Entry): string
  {
    Indent(Depth(e.path)) + Marker(Depth(e.path)) + Basename(e.path) + "/"
  }

  /** "n file" / "n files": a count of one is singular, any other plural. */
  function CountPhrase(n: nat, unit: string): string
  {
    NatToString(n) + " " + unit + (if n != 1 then "s" else "")
  }

  /** The counts a stats line lists: the nonzero ones, files first. */
  function StatsParts(e: Entry): seq<string>
  {
    (if e.fileCount > 0 then [CountPhrase(e.fileCount, "file")] else []) +
    (if e.dirCount > 0 then [CountPhrase(e.dirCount, "dir")] else [])
  }

  function StatsLine(e: Entry): string
  {
    Indent(Depth(e.path)) + "   (" + JoinWith(StatsParts(e), ", ") + ")"
  }

  function HasStats(e: Entry): bool
  {
    e.fileCount > 0 || e.dirCount > 0
  }

  /** The lines one record contributes to the tree section. */
  function EntryLines(e: Entry): seq<string>
  {
    [NameLine(e)] + (if HasStats(e) then [StatsLine(e)] else [])
  }

  function TreeLines(es: seq<Entry>): seq<string>
  {
    if es == [] then [] else EntryLines(es[0]) + TreeLines(es[1..])
  }

  function HeaderLines(rootPath: string, timestamp: string): seq<string>
  {
    [Title, Repeat("=", RuleWidth), "Generated: " + timestamp, "Root Directory: " + rootPath,
     "\nDirectory Structure:", Repeat("-", RuleWidth)]
  }

  function SummaryLines(es: seq<Entry>): seq<string>
  {
    ["\nSummary:", Repeat("-", RuleWidth),
     "Total Directories: " + NatToString(SumDirs(es)), "Total Files: " + NatToString(SumFiles(es))]
  }

  /** All lines of the report, in order. */
  function ReportLines(rootPath: string, es: seq<Entry>, timestamp: string): seq<string>
  {
    HeaderLines(rootPath, timestamp) + TreeLines(es) + SummaryLines(es)
  }

  lemma {:induction false} TreeLinesAppend(a: seq<Entry>, b: seq<Entry>)
    ensures TreeLines(a + b) == TreeLines(a) + TreeLines(b)
  {
    if a == [] {
      assert a + b == b;
    } else {
      assert (a + b)[0] == a[0];
      assert (a + b)[1..] == a[1..] + b;
      TreeLinesAppend(a[1..], b);
    }
  }

  lemma TreeLinesSnoc(es: seq<Entry>, i: nat)
    requires i < |es|
    ensures TreeLines(es[..i + 1]) == TreeLines(es[..i]) + EntryLines(es[i])
  {
    assert es[..i + 1] == es[..i] + [es[i]];
    TreeLinesAppend(es[..i], [es[i]]);
    assert TreeLines([es[i]]) == EntryLines(es[i]) + TreeLines([]);
  }

  /** The comma-separated counts inside a stats line, built as the source
      builds them: the file count if nonzero, then the directory count if
      nonzero. */
  method StatsText(e: Entry) returns (text: string)
    ensures text == JoinWith(StatsParts(e), ", ")
  {
    var stats: seq<string> := [];
    if e.fileCount > 0 {
      stats := stats + [NatToString(e.fileCount) + " file" + (if e.fileCount != 1 then "s" else "")];
      assert NatToString(e.fileCount) + " file" == NatToString(e.fileCount) + " " + "file";
    }
    if e.dirCount > 0 {
      stats := stats + [NatToString(e.dirCount) + " dir" + (if e.dirCount != 1 then "s" else "")];
      assert NatToString(e.dirCount) + " dir" == NatToString(e.dirCount) + " " + "dir";
    }
    assert stats == StatsParts(e);
    text := JoinWith(stats, ", ");
  }

  /** The lines of one record, built as the source builds them: the depth
      from the path, two spaces of indent per level, the marker below depth
      0, then the name line and, for a record that holds anything, the
      stats line. */
  method RenderEntry(e: Entry) returns (out: seq<string>)
    ensures out == EntryLines(e)
  {
    var depth := |e.path| - 1;
    var indent := Repeat("  ", depth);
    var prefix := if depth > 0 then "└──" else "";
    out := [indent + prefix + Basename(e.path) + "/"];
    assert out == [NameLine(e)];
    if e.fileCount > 0 || e.dirCount > 0 {
      var stats := StatsText(e);
      out := out + [indent + "   (" + stats + ")"];
    }
  }

  /** The report as the source builds it: the header, then the totals, then
      a pass over the records appending each name line and, for a record
      that holds anything, its stats line, then the summary; the lines are
      joined with newlines. The generation time is given as text. */
  method GenerateReport(rootPath: string, structure: seq<Entry>, timestamp: string) returns (report: string)
    ensures report == JoinWith(ReportLines(rootPath, structure, timestamp), "\n")
  {
    var lines: seq<string> := [];
    lines := lines + [Title, Repeat("=", RuleWidth), "Generated: " + timestamp,
                      "Root Directory: " + rootPath, "\nDirectory Structure:", Repeat("-", RuleWidth)];

    var totalFiles := SumFiles(structure);
    var totalDirs := SumDirs(structure);

    var i := 0;
    while i < |structure|
      invariant 0 <= i <= |structure|
      invariant lines == HeaderLines(rootPath, timestamp) + TreeLines(structure[..i])
    {
      var e := structure[i];
      var entryLines := RenderEntry(e);
      lines := lines + entryLines;
      TreeLinesSnoc(structure, i);
      i := i + 1;
    }
    assert structure[..i] == structure;

    lines := lines + ["\nSummary:", Repeat("-", RuleWidth),
                      "Total Directories: " + NatToString(totalDirs), "Total Files: " + NatToString(totalFiles)];
    report := JoinWith(lines, "\n");
  }

  // ---------------------------------------------------------------------
  // Stats lines and their wording.

  /** A record contributes a stats line exactly when it holds a file or a
      subdirectory. */
  lemma StatsLineIff(e: Entry)
    ensures |EntryLines(e)| == 2 <==> e.fileCount > 0 || e.dirCount > 0
    ensures |EntryLines(e)| == 1 <==> e.fileCount == 0 && e.dirCount == 0
    ensures EntryLines(e)[0] == NameLine(e)
  {
  }

  /** The stats line lists only the nonzero counts, the files first, and
      separates two of them with a comma. */
  lemma {:induction false} StatsListing(e: Entry)
    requires HasStats(e)
    ensures e.fileCount > 0 && e.dirCount > 0 ==>
      StatsLine(e) == Indent(Depth(e.path)) + "   (" + CountPhrase(e.fileCount, "file") + ", " +
        CountPhrase(e.dirCount, "dir") + ")"
    ensures e.fileCount > 0 && e.dirCount == 0 ==>
      StatsLine(e) == Indent(Depth(e.path)) + "   (" + CountPhrase(e.fileCount, "file") + ")"
    ensures e.fileCount == 0 && e.dirCount > 0 ==>
      StatsLine(e) == Indent(Depth(e.path)) + "   (" + CountPhrase(e.dirCount, "dir") + ")"
  {
    var parts := StatsParts(e);
    if e.fileCount > 0 && e.dirCount > 0 {
      var a, b := CountPhrase(e.fileCount, "file"), CountPhrase(e.dirCount, "dir");
      assert parts == [a, b];
      assert parts[1..] == [b];
      assert JoinWith(parts, ", ") == a + ", " + b;
    } else if e.fileCount > 0 {
      assert parts == [CountPhrase(e.fileCount, "file")];
    } else {
      assert parts == [CountPhrase(e.dirCount, "dir")];
    }
  }

  /** Exactly one thing is singular: "1 file", "1 dir"; any other count
      takes a trailing "s". The number in front reads back as the count. */
  lemma PluralRule(n: nat, unit: string)
    requires unit != [] && unit[|unit| - 1] != 's'
    ensures n == 1 ==> CountPhrase(n, unit) == "1 " + unit
    ensures n != 1 ==> CountPhrase(n, unit) == NatToString(n) + " " + unit + "s"
    ensures CountPhrase(n, unit)[|CountPhrase(n, unit)| - 1] == 's' <==> n != 1
    ensures ParseDecimal(CountPhrase(n, unit)[..|NatToString(n)|]) == n
  {
    var p := CountPhrase(n, unit);
    assert p[..|NatToString(n)|] == NatToString(n);
    DecimalRoundTrip(n);
    if n == 1 {
      assert NatToString(1) == "1";
      assert p[|p| - 1] == unit[|unit| - 1];
    }
  }

  // ---------------------------------------------------------------------
  // Indentation and the branch marker.

  /** A name line starts with two spaces per level of depth; below depth 0
      the marker follows; at depth 0 or less the line is the base name and
      a slash, with no indent and no marker. */
  lemma NameLineLayout(e: Entry)
    ensures var d := Depth(e.path); var line := NameLine(e);
      d > 0 ==>
        |line| == 2 * d + 3 + |Basename(e.path)| + 1 &&
        (forall i :: 0 <= i < 2 * d ==> line[i] == ' ') &&
        line[2 * d..2 * d + 3] == "└──" &&
        line[2 * d + 3..] == Basename(e.path) + "/"
    ensures Depth(e.path) <= 0 ==> NameLine(e) == Basename(e.path) + "/"
  {
    var d := Depth(e.path);
    var line := NameLine(e);
    if d > 0 {
      var ind := Indent(d);
      assert |ind| == 2 * d;
      assert line == ind + "└──" + (Basename(e.path) + "/");
      forall i | 0 <= i < 2 * d ensures line[i] == ' ' {
        assert line[i] == ind[i];
        assert ind[i] in "  ";
      }
      assert line[2 * d..2 * d + 3] == "└──";
    }
  }

  /** The stats line is indented like its name line and three spaces more. */
  lemma StatsLineLayout(e: Entry)
    ensures StatsLine(e)[..|Indent(Depth(e.path))|] == Indent(Depth(e.path))
    ensures StatsLine(e)[|Indent(Depth(e.path))|..|Indent(Depth(e.path))| + 4] == "   ("
    ensures StatsLine(e)[|StatsLine(e)| - 1] == ')'
  {
  }

  // ---------------------------------------------------------------------
  // The tree section and the summary.

  /** Every record's lines appear in the tree section, in record order. */
  lemma {:induction false} TreeLinesAt(es: seq<Entry>, k: nat)
    requires k < |es|
    ensures TreeLines(es) == TreeLines(es[..k]) + EntryLines(es[k]) + TreeLines(es[k + 1..])
  {
    assert es == es[..k] + [es[k]] + es[k + 1..];
    TreeLinesAppend(es[..k] + [es[k]], es[k + 1..]);
    TreeLinesAppend(es[..k], [es[k]]);
    assert TreeLines([es[k]]) == EntryLines(es[k]) + TreeLines([]);
  }

  function CountWithStats(es: seq<Entry>): nat
  {
    if es == [] then 0 else (if HasStats(es[0]) then 1 else 0) + CountWithStats(es[1..])
  }

  /** One name line per record, plus one stats line per record that holds
      anything. */
  lemma {:induction false} TreeLinesLength(es: seq<Entry>)
    ensures |TreeLines(es)| == |es| + CountWithStats(es)
  {
    if es != [] {
      TreeLinesLength(es[1..]);
    }
  }

  /** The last two lines of the report give the sums of the two count
      fields over all records. */
  lemma ReportTotals(rootPath: string, es: seq<Entry>, timestamp: string)
    ensures var lines := ReportLines(rootPath, es, timestamp);
      |lines| == 10 + |TreeLines(es)| &&
      lines[|lines| - 2] == "Total Directories: " + NatToString(SumDirs(es)) &&
      lines[|lines| - 1] == "Total Files: " + NatToString(SumFiles(es))
  {
  }

  /** For the records of a walk, "Total Files" is the number of files in
      the tree and "Total Directories" the number of subdirectories, ignored
      names and everything below an ignored directory left out; the latter
      is also one less than the number of records. */
  lemma ReportOfWalk(root: Dir, ignore: seq<string>, rootPath: string, timestamp: string)
    ensures var es := Walk(root, ignore); var lines := ReportLines(rootPath, es, timestamp);
      lines[|lines| - 2] == "Total Directories: " + NatToString(TotalDirs(Prune(root, ignore))) &&
      lines[|lines| - 1] == "Total Files: " + NatToString(TotalFiles(Prune(root, ignore))) &&
      TotalDirs(Prune(root, ignore)) == |es| - 1
  {
    ReportTotals(rootPath, Walk(root, ignore), timestamp);
    WalkTotals(root, ignore);
    WalkCount(root, ignore);
  }

  /** The tree section of a walk starts with the root's base name: the
      root's relative path "." is replaced by that name, and the line carries
      no indent and no marker. */
  lemma ReportRootLine(root: Dir, ignore: seq<string>)
    ensures TreeLines(Walk(root, ignore))[0] == root.name + "/"
  {
    WalkTopDown(root, ignore);
    NameLineLayout(Walk(root, ignore)[0]);
  }

  /** The three sections of the report are joined with exactly one newline
      between them: the header, the tree section and the summary. */
  lemma ReportSections(rootPath: string, es: seq<Entry>, timestamp: string)
    requires es != []
    ensures JoinWith(ReportLines(rootPath, es, timestamp), "\n") ==
      JoinWith(HeaderLines(rootPath, timestamp), "\n") + "\n" +
      JoinWith(TreeLines(es), "\n") + "\n" + JoinWith(SummaryLines(es), "\n")
  {
    var h, t, m := HeaderLines(rootPath, timestamp), TreeLines(es), SummaryLines(es);
    assert t != [] by {
      assert |t| >= |EntryLines(es[0])|;
    }
    JoinWithThree(h, t, m, "\n");
  }
}
