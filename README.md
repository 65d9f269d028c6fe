# Folder structure report, modelled in Dafny

`document_folders.py` walks a project directory top-down. At every directory it
drops the names on an ignore list from the listing (ignored subdirectories are
therefore never entered) and records three things:
- the directory's path relative to the root, where the root itself is labelled by its base name;
- how many files it holds;
- how many subdirectories it holds.

From those records it renders a text report:
- a header;
- one name line per directory, indented by depth, with a `└──` marker below depth 0;
- for each directory that holds anything, a stats line listing the nonzero counts;
- a summary with the totals.

This project models both halves:

- **FileTree** (`FileTree.dfy`) covers the directory tree and the filter.
  - A `Dir` is a name, its file names and its child directories, in listing order.
  - `Unignored` and `UnignoredDirs` are the two list filters.
  - `Prune` is an independent reference definition: the tree with every ignored name, and everything below an ignored directory, removed.
  - `TotalFiles` and `TotalDirs` count the files and subdirectories of a tree.
- **Analyzer** (`Analyzer.dfy`) covers the walk.
  - The walker is a stack of frames (a directory and its path relative to the root).
  - Popping a frame emits its record and pushes its kept subdirectories in order, so the walk is pre-order.
  - `Walk` is the functional definition of the record list.
  - `WalkDirectory` is the loop, proved equal to `Walk`.
  - `AnalyzeDirectory` picks the ignore list and calls the loop.
  - The lemmas relate `Walk` to `Prune` and state:
    - the counts;
    - that no record below the root carries an ignored name;
    - the top-down order.
- **Text** (`Text.dfy`) holds string repetition, joining with a separator and the decimal rendering of counts. Joining comes with a lemma splitting a join in two, and the decimal rendering with a parse-back round trip.
- **Report** (`Report.dfy`) covers the rendering.
  - The functions `NameLine`, `StatsLine`, `EntryLines`, `TreeLines` and `ReportLines` say what the report is.
  - `GenerateReport`, `RenderEntry` and `StatsText` build it with the source's loop and appends, and are proved equal to those functions.
  - The lemmas state:
    - the stats-line and plural rules;
    - the indentation and marker layout;
    - that the summary's totals are the sums of the records and the totals of the pruned tree.
- **Scenarios** (`Scenarios.dfy`) works small trees through the walk and the renderer. The file and directory names in them are left open.

How the model matches the source:
- A path is a sequence of segments.
- The depth of a record is its number of segments less one. The root is labelled by one segment (its name), and a first-level subdirectory's relative path is its name alone, so both are drawn at depth 0 with no indent and no marker; only grandchildren of the root and deeper are indented.
- When no ignore list is given, the default four names are used. An explicitly empty list is kept, and then nothing is ignored. The root's own name is never checked against the list.
- The generation time and the root path's text are parameters of `GenerateReport`.

## Model

| member | source | states |
|---|---|---|
| FileTree.Unignored | document_folders.py:44 | the kept file names are exactly those of the listing that are not on the ignore list; there are never more of them than were listed, and a listing with nothing ignored is kept unchanged |
| FileTree.UnignoredCounts | document_folders.py:44 | each name not on the ignore list is kept exactly as many times as it was listed and no ignored name is kept, which fixes how many names the filter keeps and so the file count recorded |
| FileTree.UnignoredDirs | document_folders.py:41 | the kept subdirectories are exactly those whose name is not on the ignore list, their names are what the name filter keeps, and a listing with nothing ignored is kept unchanged |
| FileTree.PruneIsFreeOf | document_folders.py:39-44 | in the tree as the walk sees it, no file and no directory below the root carries an ignored name, at any depth |
| FileTree.PruneNothing | document_folders.py:39-44 | with an empty ignore list nothing is removed from the tree |
| FileTree.TotalDirsIsSizeMinusOne | document_folders.py:50-54 | the subdirectory counts summed over a tree number its directories less the root |
| Analyzer.AnalyzeDirectory | document_folders.py:29-56 | with no ignore list the result is the walk with the default list, otherwise the walk with the given one (an empty list included); the first record is the root's, labelled by its name, with its kept file and subdirectory counts; there is one record more than the subdirectory counts sum to |
| Analyzer.WalkDirectory | document_folders.py:37-56 | the loop over the walker's stack (pop a directory, filter its subdirectories before descending, filter its files, append its record, push the kept subdirectories) yields exactly the pre-order walk `Walk` |
| Analyzer.WalkFramesStep | document_folders.py:39-54 | one step of the walker: the rest of the walk is the popped directory's record followed by the walk of its kept subdirectories pushed on top of the remaining stack, and the stack's measure strictly drops |
| Analyzer.WalkHead | document_folders.py:46-54 | the walk has a first record; it is the root's, labelled by the root's base name and counting what the root directly holds once ignored names are removed |
| Analyzer.WalkCount | document_folders.py:41-54 | the number of records is one (the root) plus the sum of the subdirectory counts: every kept subdirectory is visited exactly once |
| Analyzer.WalkTotals | document_folders.py:39-54 | the sums of the file and subdirectory counts over the records equal the totals of the tree pruned of ignored names, and the walk visits every directory of the pruned tree |
| Analyzer.WalkVisitsAll | document_folders.py:39-54 | with nothing ignored the walk visits every directory of the tree and counts every file |
| Analyzer.WalkAvoidsIgnored | document_folders.py:39-44 | no record after the root's has an ignored name in any segment of its path: ignored directories and everything below them are neither visited nor counted |
| Analyzer.WalkTopDown | document_folders.py:39-48 | the first record is labelled by the root's name, and every later record at depth 1 or more comes after its parent directory's record |
| Text.Repeat | document_folders.py:77 | the repetition has the piece's length times the count (nothing for a count of zero or less) and only the piece's characters |
| Text.NatToString | document_folders.py:84 | a count renders as a nonempty string of digits with a leading zero only for zero; zero renders as "0", and exactly the counts below ten render as one digit |
| Text.DecimalRoundTrip | document_folders.py:84-93 | reading a rendered count back gives the count |
| Text.DecimalInjective | document_folders.py:84-93 | two different counts never render the same |
| Text.JoinWithAppend | document_folders.py:95 | joining two nonempty lists of parts is joining each and putting exactly one separator between the two results |
| Text.JoinWithThree | document_folders.py:95 | joining three nonempty lists of parts puts exactly one separator between the joins of each |
| Text.JoinWithSmall | document_folders.py:87 | one part joins to itself and two parts join as the first, the separator, the second |
| Report.StatsText | document_folders.py:82-87 | the stats text built by appending the file phrase when there are files and then the directory phrase when there are subdirectories, joined with ", ", is the join of the nonzero count phrases |
| Report.RenderEntry | document_folders.py:75-87 | the lines one record appends are its name line and, exactly when it holds anything, its stats line |
| Report.GenerateReport | document_folders.py:58-95 | the report is the header lines, the tree lines of every record in order and the summary lines, joined with newlines |
| Report.StatsLineIff | document_folders.py:80-81 | a record contributes two lines exactly when its file or subdirectory count is nonzero and one line exactly when both are zero; the first is always its name line |
| Report.StatsListing | document_folders.py:82-87 | the stats line lists the file phrase then the directory phrase separated by ", " when both counts are nonzero, and only the nonzero one otherwise |
| Report.PluralRule | document_folders.py:84-86 | a count of one gives "1 file" or "1 dir"; any other count gives its number, the unit and a trailing "s"; the phrase ends in "s" exactly when the count is not one, and its leading digits read back as the count |
| Report.NameLineLayout | document_folders.py:76-80 | below depth 0 a name line is two spaces per level, then `└──`, then the base name and "/"; at depth 0 it is the base name and "/" alone |
| Report.StatsLineLayout | document_folders.py:87 | a stats line starts with its record's indent followed by "   (" and ends with ")" |
| Report.TreeLinesAt | document_folders.py:75-87 | each record's lines sit in the tree section between the lines of the records before it and those after it |
| Report.TreeLinesLength | document_folders.py:75-87 | the tree section has one line per record plus one per record that holds anything |
| Report.ReportTotals | document_folders.py:71-93 | the report has ten fixed lines besides the tree section, and its last two lines give the sums of the subdirectory counts and of the file counts |
| Report.ReportOfWalk | document_folders.py:71-93 | for the records of a walk, "Total Directories" is the number of subdirectories and "Total Files" the number of files left in the tree once ignored names are removed; the former is also one less than the number of records |
| Report.ReportRootLine | document_folders.py:46-80 | the tree section of a walk begins with the root's base name and "/" (the relative path "." is replaced by that name), with no indent and no marker |
| Report.ReportSections | document_folders.py:60-95 | for a nonempty list of records, the report is the joined header, a newline, the joined tree section, a newline and the joined summary: exactly one newline separates the sections |
| Scenarios.FlatWalk | document_folders.py:39-54 | a root with one kept file, one ignored file, one kept empty subdirectory and one ignored subdirectory gives exactly two records: the root with one file and one subdirectory, then the kept subdirectory with nothing |
| Scenarios.FlatTree | document_folders.py:75-87 | that tree renders as the root's name line, "   (1 file, 1 dir)", and the subdirectory's name line without a stats line |
| Scenarios.DefaultMembership | document_folders.py:35 | ".DS_Store" and ".git" are on the default ignore list; "main.py" and "docs" are not |
| Scenarios.NestedWalk | document_folders.py:39-54 | a root, its one subdirectory and that subdirectory's one subdirectory give three records in top-down order; the deepest is labelled by two segments |
| Scenarios.NestedTree | document_folders.py:75-87 | that tree renders with the root and its child both flush left and only the grandchild indented and marked ("  └──"), with "1 dir", "2 files, 1 dir" and "1 file" as stats |

## Left out

- `get_directory_input`: the interactive prompt, the `~` expansion and the existence and directory checks are console and file-system I/O. The root is given as a `Dir` value.
- `main`:
  - not modelled: printing the report, the prompt to save it, the timestamped file name, writing the file, and `sys.exit(1)` after an interrupt or an exception;
  - reason: these are console and file I/O and process control.
- `datetime.datetime.now().strftime(...)`: the clock is replaced by a `timestamp` text parameter of `GenerateReport`.
- The text of `root_path` shown after "Root Directory:" is a parameter. The root's name in the tree is taken to be the base name of that path.
- `os.walk`:
  - not modelled: the file system itself, the order in which the operating system lists a directory (the model walks children in the order the `Dir` lists them), errors on unreadable directories (which `os.walk` skips silently), and symbolic links to directories (which `os.walk` counts but does not enter);
  - reason: the tree is an acyclic value with no links.
- `os.path.relpath`, `os.path.basename` and `Path(...).parts`:
  - not modelled: operating-system path text;
  - instead: paths are sequences of segments, with names assumed to contain no separator;
  - why this is safe: for a root whose base name is empty (the file-system root) or is "." (a root given as "."), `Path(...).parts` is empty, so the source computes depth −1 where the model computes depth 0; both give an empty indent, no marker and the same line ("/" or "./").
- In `GenerateReport`, the six header lines and the four summary lines are each added in one list append rather than six and four single appends. The resulting list is the same.
- `WalkDirectory`, `RenderEntry` and `StatsText` are the source's loop and loop bodies moved into their own methods. `AnalyzeDirectory` keeps the choice of ignore list and calls `WalkDirectory`.
