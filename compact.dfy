/**
 * `kex-mem compact`: picks the daily logs older than a cutoff and either
 * reports them, prints a prompt asking an agent to fold them into MEMORY.md
 * (`--smart`), or archives them month by month (`--auto`). A run is modelled
 * by its outcome: the lines printed, the archive files written and the
 * renames performed, from a snapshot of the memory directory.
 */
module Compact {
  import opened Wrappers
  import opened Text
  import opened Sorting
  import opened Files
  import Paths

  const DefaultAge: nat := 30

  const DurableName := "MEMORY.md"

  const Separator := "\n\n---\n\n"

  /** A file written: its path under the memory directory, and its text. */
  datatype Written = Written(path: string, text: string)

  /** A rename inside the memory directory. */
  datatype Move = Move(from: string, to: string)

  /** What a run does: console lines, files written, files renamed, each in order. */
  datatype Outcome = Outcome(out: seq<string>, writes: seq<Written>, moves: seq<Move>)

  /** Two steps of a run, one after the other. */
  function Then(a: Outcome, b: Outcome): Outcome {
    Outcome(a.out + b.out, a.writes + b.writes, a.moves + b.moves)
  }

  // ----- SELECTION

  /** The names kept by `filter(p)`, in order. */
  function Keep(s: seq<string>, p: string -> bool): (r: seq<string>)
    ensures forall x :: x in r <==> x in s && p(x)
  {
    if |s| == 0 then []
    else Keep(s[..|s| - 1], p) + (if p(s[|s| - 1]) then [s[|s| - 1]] else [])
  }

  lemma {:induction false} KeepSorted(s: seq<string>, p: string -> bool)
    requires SortedAsc(s)
    ensures SortedAsc(Keep(s, p))
  {
    if |s| > 0 {
      var n := |s| - 1;
      var front := s[..n];
      assert SortedAsc(front) by {
        forall i, j | 0 <= i < j < |front| ensures StrLe(front[i], front[j]) {
          assert front[i] == s[i] && front[j] == s[j];
        }
      }
      KeepSorted(front, p);
      var k := Keep(front, p);
      forall x | x in k ensures StrLe(x, s[n]) {
        var i :| 0 <= i < n && front[i] == x;
      }
    }
  }

  /** `^\d{4}-\d{2}-\d{2}\.md$` names of the listing, sorted by `sort()`. */
  function CompactFiles(d: MemDir): (r: seq<string>)
    ensures SortedAsc(r)
    ensures forall f :: f in r <==> f in d.listing && Paths.IsDailyLogName(f)
  {
    var r := SortAsc(DailyLogs(d.listing));
    assert forall f :: f in r <==> f in multiset(r);
    r
  }

  /** `f.replace(".md", "")`: for a daily log name, its first ten characters. */
  function DateOf(f: string): string {
    if |f| >= 10 then f[..10] else f
  }

  /**
   * The files whose date is before the cutoff. `new Date(date + "T00:00:00")
   * < cutoff` is the predicate `isOld` on the date.
   */
  function OldFiles(files: seq<string>, isOld: string -> bool): seq<string> {
    Keep(files, f => isOld(DateOf(f)))
  }

  /** The old files are the daily logs of the listing with an old date, in ascending order. */
  lemma OldFilesSpec(d: MemDir, isOld: string -> bool)
    ensures var aged := OldFiles(CompactFiles(d), isOld);
      SortedAsc(aged) &&
      forall f :: f in aged <==> f in d.listing && Paths.IsDailyLogName(f) && isOld(f[..10])
  {
    KeepSorted(CompactFiles(d), f => isOld(DateOf(f)));
    forall f | Paths.IsDailyLogName(f) ensures DateOf(f) == f[..10] {
    }
  }

  lemma {:induction false} KeepNone(s: seq<string>, p: string -> bool)
    requires forall x :: x in s ==> !p(x)
    ensures Keep(s, p) == []
  {
    if |s| > 0 {
      var n := |s| - 1;
      assert s[n] in s;
      var front := s[..n];
      assert forall x :: x in front ==> x in s;
      KeepNone(front, p);
    }
  }

  // ----- MONTH GROUPS

  /** `f.slice(0, 7)`: YYYY-MM for a daily log name. */
  function MonthOf(f: string): string {
    if |f| >= 7 then f[..7] else f
  }

  function SameMonth(m: string): string -> bool {
    f => MonthOf(f) == m
  }

  /** An entry of the `byMonth` map: a month and its files in the order pushed. */
  datatype MonthGroup = MonthGroup(month: string, files: seq<string>)

  /** The keys of the map, in insertion order. */
  function MonthsOf(gs: seq<MonthGroup>): (r: seq<string>)
    ensures |r| == |gs| && forall k :: 0 <= k < |gs| ==> r[k] == gs[k].month
  {
    if |gs| == 0 then [] else [gs[0].month] + MonthsOf(gs[1..])
  }

  /** Where month `m` sits in the map, or the size of the map when it is absent. */
  function FindGroup(gs: seq<MonthGroup>, m: string): (k: nat)
    ensures k <= |gs|
    ensures k < |gs| ==> gs[k].month == m
    ensures forall j :: 0 <= j < k ==> gs[j].month != m
  {
    if |gs| == 0 then 0
    else if gs[0].month == m then 0
    else 1 + FindGroup(gs[1..], m)
  }

  /** One turn of the grouping loop: add the month when absent, then push the file onto it. */
  function AddFile(gs: seq<MonthGroup>, f: string): seq<MonthGroup> {
    var m := MonthOf(f);
    var k := FindGroup(gs, m);
    var g := if k == |gs| then gs + [MonthGroup(m, [])] else gs;
    g[k := MonthGroup(m, g[k].files + [f])]
  }

  /** A file of a month already in the map joins its group; one of a new month opens a group at the end. */
  lemma AddFileCases(gs: seq<MonthGroup>, f: string)
    ensures var k := FindGroup(gs, MonthOf(f));
      if k == |gs| then AddFile(gs, f) == gs + [MonthGroup(MonthOf(f), [f])]
      else AddFile(gs, f) == gs[k := MonthGroup(MonthOf(f), gs[k].files + [f])]
  {
    var m := MonthOf(f);
    if FindGroup(gs, m) == |gs| {
      var g := gs + [MonthGroup(m, [])];
      assert g[|gs|].files + [f] == [f];
      UpdateLast(gs, MonthGroup(m, []), MonthGroup(m, [f]));
    }
  }

  /** The `byMonth` map after pushing every file. */
  function GroupsOf(files: seq<string>): seq<MonthGroup> {
    if |files| == 0 then [] else AddFile(GroupsOf(files[..|files| - 1]), files[|files| - 1])
  }

  /** The files of all groups, group after group. */
  function Flatten(gs: seq<MonthGroup>): seq<string> {
    if |gs| == 0 then [] else Flatten(gs[..|gs| - 1]) + gs[|gs| - 1].files
  }

  /** The map has each month once, and exactly the months of the files. */
  lemma {:induction false} GroupsMonths(files: seq<string>)
    ensures Distinct(MonthsOf(GroupsOf(files)))
    ensures forall m :: m in MonthsOf(GroupsOf(files)) <==> exists f :: f in files && MonthOf(f) == m
  {
    if |files| > 0 {
      var n := |files| - 1;
      var front, f := files[..n], files[n];
      assert files == front + [f];
      GroupsMonths(front);
      MonthsStep(GroupsOf(front), f);
      assert forall x :: x in files <==> x in front || x == f;
    }
  }

  /** Adding a file adds its month to the keys when the map lacks it, and otherwise keeps the keys. */
  lemma MonthsStep(gs: seq<MonthGroup>, f: string)
    ensures MonthOf(f) in MonthsOf(gs) ==> MonthsOf(AddFile(gs, f)) == MonthsOf(gs)
    ensures MonthOf(f) !in MonthsOf(gs) ==> MonthsOf(AddFile(gs, f)) == MonthsOf(gs) + [MonthOf(f)]
  {
    var m := MonthOf(f);
    var k := FindGroup(gs, m);
    AddFileCases(gs, f);
    if k == |gs| {
      assert forall i :: 0 <= i < |gs| ==> MonthsOf(gs)[i] != m;
      assert MonthsOf(AddFile(gs, f)) == MonthsOf(gs) + [m];
    } else {
      assert MonthsOf(gs)[k] == m;
      assert MonthsOf(AddFile(gs, f)) == MonthsOf(gs);
    }
  }

  lemma KeepLast(s: seq<string>, x: string, p: string -> bool)
    ensures Keep(s + [x], p) == Keep(s, p) + (if p(x) then [x] else [])
  {
    assert (s + [x])[..|s|] == s;
  }

  /** The month of a file is in the map just when a group carries it. */
  ghost predicate MonthsOfFiles(gs: seq<MonthGroup>, files: seq<string>) {
    forall m :: m in MonthsOf(gs) <==> exists f :: f in files && MonthOf(f) == m
  }

  predicate GroupsHold(gs: seq<MonthGroup>, files: seq<string>) {
    forall k :: 0 <= k < |gs| ==> gs[k].files == Keep(files, SameMonth(gs[k].month))
  }

  /** Pushing a file keeps every group equal to the files of its month. */
  lemma FilesStep(gs: seq<MonthGroup>, front: seq<string>, f: string)
    requires Distinct(MonthsOf(gs)) && MonthsOfFiles(gs, front) && GroupsHold(gs, front)
    ensures GroupsHold(AddFile(gs, f), front + [f])
  {
    var m := MonthOf(f);
    var k := FindGroup(gs, m);
    AddFileCases(gs, f);
    var gs' := AddFile(gs, f);
    forall j | 0 <= j < |gs'| ensures gs'[j].files == Keep(front + [f], SameMonth(gs'[j].month)) {
      KeepLast(front, f, SameMonth(gs'[j].month));
      if j == k {
        if k == |gs| {
          assert forall i :: 0 <= i < |gs| ==> MonthsOf(gs)[i] != m;
          assert m !in MonthsOf(gs);
          forall x | x in front ensures !SameMonth(m)(x) {
            assert MonthOf(x) != m;
          }
          KeepNone(front, SameMonth(m));
        }
      } else {
        assert gs'[j] == gs[j];
        assert MonthsOf(gs)[j] == gs[j].month;
        if k < |gs| {
          assert MonthsOf(gs)[k] == m;
        }
      }
    }
  }

  /** Each group holds exactly the files of its month, in their order. */
  lemma {:induction false} GroupsFiles(files: seq<string>)
    ensures GroupsHold(GroupsOf(files), files)
  {
    if |files| > 0 {
      var n := |files| - 1;
      var front := files[..n];
      assert files == front + [files[n]];
      GroupsFiles(front);
      GroupsMonths(front);
      FilesStep(GroupsOf(front), front, files[n]);
    }
  }

  /** Two strings between which a third lies in order share the prefix they share. */
  lemma {:induction false} StrLeBetween(x: string, y: string, z: string, n: nat)
    requires n <= |x| && n <= |y| && n <= |z|
    requires StrLe(x, y) && StrLe(y, z) && x[..n] == z[..n]
    ensures y[..n] == x[..n]
  {
    if n > 0 {
      assert x[0] == z[0];
      assert x[1..][..n - 1] == z[1..][..n - 1];
      StrLeBetween(x[1..], y[1..], z[1..], n - 1);
      assert x[..n] == [x[0]] + x[1..][..n - 1];
      assert y[..n] == [y[0]] + y[1..][..n - 1];
    }
  }

  /** The groups are the files in consecutive runs, none empty, the last one the last file's month. */
  predicate Runs(gs: seq<MonthGroup>, files: seq<string>) {
    Flatten(gs) == files &&
    (forall k :: 0 <= k < |gs| ==> gs[k].files != []) &&
    (|files| > 0 ==> |gs| > 0 && gs[|gs| - 1].month == MonthOf(files[|files| - 1]))
  }

  predicate LongNames(files: seq<string>) {
    forall f :: f in files ==> |f| >= 7
  }

  /** A file that sorts between two files of one month is of that month. */
  lemma MonthBetween(x: string, y: string, z: string)
    requires |x| >= 7 && |y| >= 7 && |z| >= 7
    requires StrLe(x, y) && StrLe(y, z) && MonthOf(x) == MonthOf(z)
    ensures MonthOf(y) == MonthOf(x)
  {
    StrLeBetween(x, y, z, 7);
  }

  /** Each earlier file sorts before the last one, which sorts before the new one. */
  lemma LastBetween(front: seq<string>, f: string, i: nat)
    requires SortedAsc(front + [f]) && i < |front|
    ensures StrLe(front[i], front[|front| - 1]) && StrLe(front[|front| - 1], f)
  {
    var files := front + [f];
    var n := |front|;
    assert files[i] == front[i] && files[n - 1] == front[n - 1] && files[n] == f;
    if i < n - 1 {
      assert StrLe(files[i], files[n - 1]);
    } else {
      StrLeReflexive(front[i]);
    }
    assert StrLe(files[n - 1], files[n]);
  }

  /** In sorted files, the next file's month is either new or the last group's. */
  lemma JoinsLast(gs: seq<MonthGroup>, front: seq<string>, f: string)
    requires |gs| > 0 ==> |front| > 0 && gs[|gs| - 1].month == MonthOf(front[|front| - 1])
    requires Distinct(MonthsOf(gs)) && MonthsOfFiles(gs, front)
    requires |f| >= 7 && LongNames(front)
    requires forall i :: 0 <= i < |front| ==> StrLe(front[i], front[|front| - 1]) && StrLe(front[|front| - 1], f)
    ensures FindGroup(gs, MonthOf(f)) == |gs| || FindGroup(gs, MonthOf(f)) == |gs| - 1
  {
    var m := MonthOf(f);
    var k := FindGroup(gs, m);
    if k < |gs| {
      assert MonthsOf(gs)[k] == m;
      assert m in MonthsOf(gs);
      var x :| x in front && MonthOf(x) == m;
      var i :| 0 <= i < |front| && front[i] == x;
      var y := front[|front| - 1];
      assert y in front;
      MonthBetween(x, y, f);
      assert MonthsOf(gs)[|gs| - 1] == m;
    }
  }

  lemma JoinsLastSorted(gs: seq<MonthGroup>, front: seq<string>, f: string)
    requires SortedAsc(front + [f]) && LongNames(front + [f])
    requires Runs(gs, front) && Distinct(MonthsOf(gs)) && MonthsOfFiles(gs, front)
    ensures FindGroup(gs, MonthOf(f)) == |gs| || FindGroup(gs, MonthOf(f)) == |gs| - 1
  {
    forall i | 0 <= i < |front|
      ensures StrLe(front[i], front[|front| - 1]) && StrLe(front[|front| - 1], f)
    {
      LastBetween(front, f, i);
    }
    assert f in front + [f];
    assert forall x :: x in front ==> x in front + [f];
    JoinsLast(gs, front, f);
  }

  /** A new month's group goes after the runs so far. */
  lemma OpenRun(gs: seq<MonthGroup>, front: seq<string>, f: string)
    requires Runs(gs, front)
    ensures Runs(gs + [MonthGroup(MonthOf(f), [f])], front + [f])
  {
    var gs' := gs + [MonthGroup(MonthOf(f), [f])];
    assert gs'[..|gs'| - 1] == gs;
  }

  /** A file of the last group's month extends the last run. */
  lemma ExtendRun(gs: seq<MonthGroup>, front: seq<string>, f: string)
    requires Runs(gs, front) && |gs| > 0 && gs[|gs| - 1].month == MonthOf(f)
    ensures Runs(gs[|gs| - 1 := MonthGroup(MonthOf(f), gs[|gs| - 1].files + [f])], front + [f])
  {
    var k := |gs| - 1;
    var gs' := gs[k := MonthGroup(MonthOf(f), gs[k].files + [f])];
    assert gs'[..k] == gs[..k];
    assert Flatten(gs) == Flatten(gs[..k]) + gs[k].files;
  }

  lemma RunsStep(gs: seq<MonthGroup>, front: seq<string>, f: string)
    requires SortedAsc(front + [f]) && LongNames(front + [f])
    requires Runs(gs, front) && Distinct(MonthsOf(gs)) && MonthsOfFiles(gs, front)
    ensures Runs(AddFile(gs, f), front + [f])
  {
    var k := FindGroup(gs, MonthOf(f));
    JoinsLastSorted(gs, front, f);
    AddFileCases(gs, f);
    if k == |gs| {
      OpenRun(gs, front, f);
    } else {
      ExtendRun(gs, front, f);
    }
  }

  /**
   * For sorted files of at least seven characters the map splits them into
   * consecutive runs: its groups, in insertion order, are the files again.
   */
  lemma {:induction false} GroupsInOrder(files: seq<string>)
    requires SortedAsc(files) && LongNames(files)
    ensures Runs(GroupsOf(files), files)
  {
    if |files| > 0 {
      var n := |files| - 1;
      var front := files[..n];
      assert files == front + [files[n]];
      assert SortedAsc(front) by {
        forall i, j | 0 <= i < j < |front| ensures StrLe(front[i], front[j]) {
          assert front[i] == files[i] && front[j] == files[j];
        }
      }
      GroupsInOrder(front);
      GroupsMonths(front);
      RunsStep(GroupsOf(front), front, files[n]);
    }
  }

  // ----- ARCHIVE TEXT

  /** The strings `piece(f)` for the files, concatenated in order. */
  function Concat(files: seq<string>, piece: string -> string): string {
    if |files| == 0 then "" else Concat(files[..|files| - 1], piece) + piece(files[|files| - 1])
  }

  lemma ConcatStep(files: seq<string>, i: nat, piece: string -> string)
    requires i < |files|
    ensures Concat(files[..i + 1], piece) == Concat(files[..i], piece) + piece(files[i])
  {
    assert files[..i + 1][..i] == files[..i];
  }

  lemma {:induction false} ConcatAppend(a: seq<string>, b: seq<string>, piece: string -> string)
    ensures Concat(a + b, piece) == Concat(a, piece) + Concat(b, piece)
    decreases |b|
  {
    if |b| == 0 {
      assert a + b == a;
    } else {
      var n := |b| - 1;
      assert (a + b)[..|a + b| - 1] == a + b[..n];
      ConcatAppend(a, b[..n], piece);
      assert (a + b)[|a + b| - 1] == b[n];
      var ca, cb, last := Concat(a, piece), Concat(b[..n], piece), piece(b[n]);
      assert Concat(a + b, piece) == ca + cb + last;
      assert Concat(b, piece) == cb + last;
      assert ca + cb + last == ca + (cb + last);
    }
  }

  /** Each file's piece occurs in the concatenation, where the earlier pieces end. */
  lemma ConcatHas(files: seq<string>, piece: string -> string, k: nat)
    requires k < |files|
    ensures OccursAt(Concat(files, piece), piece(files[k]), |Concat(files[..k], piece)|)
  {
    var a, b := files[..k + 1], files[k + 1..];
    assert files == a + b;
    ConcatAppend(a, b, piece);
    ConcatStep(files, k, piece);
    var c := Concat(files[..k], piece);
    assert Concat(files, piece) == c + piece(files[k]) + Concat(b, piece);
    InMiddle(c, piece(files[k]), Concat(b, piece));
  }

  lemma InMiddle(a: string, t: string, b: string)
    ensures OccursAt(a + t + b, t, |a|)
  {
    assert (a + t + b)[|a|..|a| + |t|] == t;
  }

  /** How a file appears in its month's archive: its content, then the separator. */
  function ArchivePiece(d: MemDir): string -> string {
    f => ReadMarkdown(d, f) + Separator
  }

  function ArchiveHeader(month: string): string {
    "# Archive: " + month + "\n\n"
  }

  function ArchiveText(d: MemDir, g: MonthGroup): string {
    ArchiveHeader(g.month) + Concat(g.files, ArchivePiece(d))
  }

  function ArchivePath(month: string): string {
    "archive/" + month + ".md"
  }

  /**
   * A month's archive is its header followed by each of its files' content
   * and the separator, the files in their order.
   */
  lemma ArchiveHolds(d: MemDir, g: MonthGroup, k: nat)
    requires k < |g.files|
    ensures StartsWith(ArchiveText(d, g), "# Archive: " + g.month + "\n\n")
    ensures OccursAt(ArchiveText(d, g), ReadMarkdown(d, g.files[k]) + Separator,
                     |ArchiveHeader(g.month)| + |Concat(g.files[..k], ArchivePiece(d))|)
  {
    var h := ArchiveHeader(g.month);
    var c := Concat(g.files, ArchivePiece(d));
    ConcatHas(g.files, ArchivePiece(d), k);
    assert (h + c)[..|h|] == h;
    var i := |Concat(g.files[..k], ArchivePiece(d))|;
    var t := ReadMarkdown(d, g.files[k]) + Separator;
    assert (h + c)[|h| + i..|h| + i + |t|] == c[i..i + |t|];
  }

  // ----- AUTO

  /** The rename of a daily log into the archive directory. */
  function MoveOf(f: string): Move {
    Move(f, "archive/daily-" + f)
  }

  function RenameWarning(f: string, msg: string): string {
    "Warning: could not rename " + f + ": " + msg
  }

  /** The renames that succeed, `err(f)` being the message of a rename that throws. */
  function Renamed(files: seq<string>, err: string -> Option<string>): seq<Move> {
    if |files| == 0 then []
    else
      var f := files[|files| - 1];
      Renamed(files[..|files| - 1], err) + (if err(f).None? then [MoveOf(f)] else [])
  }

  function Warnings(files: seq<string>, err: string -> Option<string>): seq<string> {
    if |files| == 0 then []
    else
      var f := files[|files| - 1];
      Warnings(files[..|files| - 1], err) + (if err(f).Some? then [RenameWarning(f, err(f).value)] else [])
  }

  function ArchivedLine(g: MonthGroup): string {
    "Archived " + NatToString(|g.files|) + " files for " + g.month
  }

  /** One turn of the loop over the map: write the archive, rename the files, report. */
  function MonthRun(d: MemDir, g: MonthGroup, err: string -> Option<string>): Outcome {
    Outcome(Warnings(g.files, err) + [ArchivedLine(g)],
            [Written(ArchivePath(g.month), ArchiveText(d, g))],
            Renamed(g.files, err))
  }

  function AutoRun(d: MemDir, gs: seq<MonthGroup>, err: string -> Option<string>): Outcome {
    if |gs| == 0 then Outcome([], [], [])
    else Then(AutoRun(d, gs[..|gs| - 1], err), MonthRun(d, gs[|gs| - 1], err))
  }

  lemma {:induction false} RenamedAppend(a: seq<string>, b: seq<string>, err: string -> Option<string>)
    ensures Renamed(a + b, err) == Renamed(a, err) + Renamed(b, err)
    decreases |b|
  {
    if |b| == 0 {
      assert a + b == a;
    } else {
      var n := |b| - 1;
      assert (a + b)[..|a + b| - 1] == a + b[..n];
      RenamedAppend(a, b[..n], err);
      assert (a + b)[|a + b| - 1] == b[n];
    }
  }

  /** The renames of a run over the map are those of its files, group after group. */
  lemma {:induction false} AutoRunMoves(d: MemDir, gs: seq<MonthGroup>, err: string -> Option<string>)
    ensures AutoRun(d, gs, err).moves == Renamed(Flatten(gs), err)
  {
    if |gs| > 0 {
      var n := |gs| - 1;
      AutoRunMoves(d, gs[..n], err);
      RenamedAppend(Flatten(gs[..n]), gs[n].files, err);
    }
  }

  /** A run over the map writes one archive per month, in the map's order. */
  lemma {:induction false} AutoRunWrites(d: MemDir, gs: seq<MonthGroup>, err: string -> Option<string>)
    ensures var w := AutoRun(d, gs, err).writes;
      |w| == |gs| && forall k :: 0 <= k < |gs| ==> w[k] == Written(ArchivePath(gs[k].month), ArchiveText(d, gs[k]))
  {
    if |gs| > 0 {
      var n := |gs| - 1;
      AutoRunWrites(d, gs[..n], err);
    }
  }

  /** The renames succeed for exactly the files whose rename does not throw, in order. */
  lemma {:induction false} RenamedMembers(files: seq<string>, err: string -> Option<string>, mv: Move)
    ensures mv in Renamed(files, err) <==> mv.from in files && err(mv.from).None? && mv == MoveOf(mv.from)
  {
    if |files| > 0 {
      var n := |files| - 1;
      assert files == files[..n] + [files[n]];
      RenamedMembers(files[..n], err, mv);
    }
  }

  // ----- SMART

  const SmartIntro :=
    "## kex-mem compact --smart\n\n" +
    "### Instructions\n" +
    "Review the daily logs below and update memory/MEMORY.md:\n" +
    "1. Extract key decisions, conventions, architecture notes, and bug fixes\n" +
    "2. Merge into appropriate sections of MEMORY.md (do NOT duplicate)\n" +
    "3. Delete the processed daily log files listed below\n" +
    "4. Run `kex-mem index` after all changes\n\n"

  function SmartHead(memory: string): string {
    SmartIntro + "### Current MEMORY.md\n```markdown\n" + memory + "\n```\n\n" + "### Daily Logs to Process\n\n"
  }

  function LogBlock(d: MemDir): string -> string {
    f => "#### " + f + "\n```markdown\n" + ReadMarkdown(d, f) + "\n```\n\n"
  }

  function DeleteLine(f: string): string {
    "- memory/" + f + "\n"
  }

  const DeleteHeader := "### Files to Delete After Processing\n"

  function SmartPrompt(d: MemDir, aged: seq<string>): string {
    SmartHead(ReadMarkdown(d, DurableName)) + Concat(aged, LogBlock(d)) + DeleteHeader + Concat(aged, DeleteLine)
  }

  /** The prompt shows every old file's content and lists it as `- memory/<f>` to delete. */
  lemma SmartListsAll(d: MemDir, aged: seq<string>, k: nat)
    requires k < |aged|
    ensures Contains(SmartPrompt(d, aged), LogBlock(d)(aged[k]))
    ensures Contains(SmartPrompt(d, aged), "- memory/" + aged[k] + "\n")
  {
    var h := SmartHead(ReadMarkdown(d, DurableName));
    var blocks := Concat(aged, LogBlock(d));
    var dels := Concat(aged, DeleteLine);
    var i := |Concat(aged[..k], LogBlock(d))|;
    ConcatHas(aged, LogBlock(d), k);
    InSecond(h, blocks, DeleteHeader, dels, LogBlock(d)(aged[k]), i);
    ConcatHas(aged, DeleteLine, k);
    InFourth(h, blocks, DeleteHeader, dels, DeleteLine(aged[k]), |Concat(aged[..k], DeleteLine)|);
  }

  lemma InSecond(a: string, b: string, c: string, e: string, t: string, i: nat)
    requires OccursAt(b, t, i)
    ensures Contains(a + b + c + e, t)
  {
    OccursAfter(a, b, t, i);
    OccursBefore(a + b, c, t, |a| + i);
    OccursBefore(a + b + c, e, t, |a| + i);
  }

  lemma InFourth(a: string, b: string, c: string, e: string, t: string, i: nat)
    requires OccursAt(e, t, i)
    ensures Contains(a + b + c + e, t)
  {
    OccursAfter(a + b + c, e, t, i);
  }

  lemma OccursAfter(a: string, s: string, t: string, i: nat)
    requires OccursAt(s, t, i)
    ensures OccursAt(a + s, t, |a| + i)
  {
    assert (a + s)[|a| + i..|a| + i + |t|] == s[i..i + |t|];
  }

  lemma OccursBefore(s: string, b: string, t: string, i: nat)
    requires OccursAt(s, t, i)
    ensures OccursAt(s + b, t, i)
  {
    assert (s + b)[i..i + |t|] == s[i..i + |t|];
  }

  // ----- THE COMMAND

  function NoOldLine(maxAge: nat): string {
    "No logs older than " + NatToString(maxAge) + " days."
  }

  const AutoHint := "\nRun with --auto to archive by month."

  function Indented(f: string): string {
    "  " + f
  }

  function Listed(files: seq<string>): (r: seq<string>)
    ensures |r| == |files| && forall k :: 0 <= k < |files| ==> r[k] == Indented(files[k])
  {
    if |files| == 0 then [] else Listed(files[..|files| - 1]) + [Indented(files[|files| - 1])]
  }

  function DryRun(aged: seq<string>, maxAge: nat): seq<string> {
    [NatToString(|aged|) + " logs older than " + NatToString(maxAge) + " days:"] + Listed(aged) + [AutoHint]
  }

  /** What `compact` does with a maximum age in days and its two flags. */
  function Compact(d: MemDir, maxAge: nat, auto: bool, smart: bool, isOld: string -> bool,
                   err: string -> Option<string>): Outcome
  {
    var aged := OldFiles(CompactFiles(d), isOld);
    if aged == [] then Outcome([NoOldLine(maxAge)], [], [])
    else if smart then Outcome([SmartPrompt(d, aged)], [], [])
    else if auto then AutoRun(d, GroupsOf(aged), err)
    else Outcome(DryRun(aged, maxAge), [], [])
  }

  /** The memory directory after the renames of a run. */
  function After(d: MemDir, o: Outcome): MemDir {
    var gone := set mv | mv in o.moves :: mv.from;
    MemDir(Keep(d.listing, f => f !in gone), d.files - gone)
  }

  /**
   * Files change only with `--auto` and without `--smart`, and only when
   * some log is old: smart mode wins over auto, and neither it nor the dry
   * run writes or renames anything.
   */
  lemma ChangesOnlyOnAuto(d: MemDir, maxAge: nat, auto: bool, smart: bool, isOld: string -> bool,
                          err: string -> Option<string>)
    ensures var o := Compact(d, maxAge, auto, smart, isOld, err);
      (o.writes != [] || o.moves != []) ==> auto && !smart && OldFiles(CompactFiles(d), isOld) != []
    ensures smart ==> Compact(d, maxAge, auto, smart, isOld, err) == Compact(d, maxAge, false, smart, isOld, err)
    ensures OldFiles(CompactFiles(d), isOld) == [] ==>
      Compact(d, maxAge, auto, smart, isOld, err) == Outcome([NoOldLine(maxAge)], [], [])
  {
  }

  /**
   * With `--auto` the old files are renamed into the archive in ascending
   * order, each unless its rename throws, and nothing else is renamed; one
   * archive is written per month of the old files, months in ascending order,
   * holding exactly that month's old files.
   */
  lemma AutoArchives(d: MemDir, maxAge: nat, isOld: string -> bool, err: string -> Option<string>)
    requires OldFiles(CompactFiles(d), isOld) != []
    ensures var aged := OldFiles(CompactFiles(d), isOld);
      var o := Compact(d, maxAge, true, false, isOld, err);
      var gs := GroupsOf(aged);
      o.moves == Renamed(aged, err) &&
      |o.writes| == |gs| &&
      (forall k :: 0 <= k < |gs| ==> o.writes[k] == Written(ArchivePath(gs[k].month), ArchiveText(d, gs[k]))) &&
      Distinct(MonthsOf(gs)) &&
      (forall k :: 0 <= k < |gs| ==> gs[k].files == Keep(aged, SameMonth(gs[k].month))) &&
      Flatten(gs) == aged
  {
    var aged := OldFiles(CompactFiles(d), isOld);
    OldFilesSpec(d, isOld);
    GroupsInOrder(aged);
    GroupsMonths(aged);
    GroupsFiles(aged);
    AutoRunMoves(d, GroupsOf(aged), err);
    AutoRunWrites(d, GroupsOf(aged), err);
  }

  /** A file that is not an old daily log keeps its place and its content. */
  lemma RecentStays(d: MemDir, maxAge: nat, auto: bool, smart: bool, isOld: string -> bool,
                    err: string -> Option<string>, f: string)
    requires f in d.listing && f in d.files && f !in OldFiles(CompactFiles(d), isOld)
    ensures var a := After(d, Compact(d, maxAge, auto, smart, isOld, err));
      f in a.listing && f in a.files && a.files[f] == d.files[f]
  {
    var aged := OldFiles(CompactFiles(d), isOld);
    var o := Compact(d, maxAge, auto, smart, isOld, err);
    if aged != [] && !smart && auto {
      OldFilesSpec(d, isOld);
      GroupsInOrder(aged);
      AutoRunMoves(d, GroupsOf(aged), err);
      forall mv | mv in o.moves ensures mv.from != f {
        RenamedMembers(aged, err, mv);
      }
    }
  }

  /** The printed listing of a dry run: a count, each old file indented, then the hint. */
  lemma DryRunLines(aged: seq<string>, maxAge: nat)
    ensures var r := DryRun(aged, maxAge);
      |r| == |aged| + 2 && r[|r| - 1] == AutoHint &&
      forall k :: 0 <= k < |aged| ==> r[k + 1] == "  " + aged[k]
  {
  }

  // ----- METHODS

  /** The `byMonth` loop. */
  method GroupByMonth(aged: seq<string>) returns (gs: seq<MonthGroup>)
    ensures gs == GroupsOf(aged)
  {
    gs := [];
    var i := 0;
    while i < |aged|
      invariant i <= |aged|
      invariant gs == GroupsOf(aged[..i])
    {
      var f := aged[i];
      var month := MonthOf(f);
      var k := FindGroup(gs, month);
      if k == |gs| {
        gs := gs + [MonthGroup(month, [])];
      }
      gs := gs[k := MonthGroup(month, gs[k].files + [f])];
      assert aged[..i + 1][..i] == aged[..i];
      i := i + 1;
    }
    assert aged[..i] == aged;
  }

  /** The `combined` loop for one month. */
  method Combine(d: MemDir, g: MonthGroup) returns (combined: string)
    ensures combined == ArchiveText(d, g)
  {
    combined := ArchiveHeader(g.month);
    var i := 0;
    while i < |g.files|
      invariant i <= |g.files|
      invariant combined == ArchiveHeader(g.month) + Concat(g.files[..i], ArchivePiece(d))
    {
      ghost var before := Concat(g.files[..i], ArchivePiece(d));
      var piece := ReadMarkdown(d, g.files[i]) + Separator;
      combined := combined + piece;
      ConcatStep(g.files, i, ArchivePiece(d));
      AppendAssoc(ArchiveHeader(g.month), before, piece);
      i := i + 1;
    }
    assert g.files[..i] == g.files;
  }

  /** The rename loop for one month. */
  method RenameAll(files: seq<string>, err: string -> Option<string>) returns (out: seq<string>, moves: seq<Move>)
    ensures out == Warnings(files, err) && moves == Renamed(files, err)
  {
    out, moves := [], [];
    var i := 0;
    while i < |files|
      invariant i <= |files|
      invariant out == Warnings(files[..i], err) && moves == Renamed(files[..i], err)
    {
      var f := files[i];
      assert files[..i + 1][..i] == files[..i];
      match err(f) {
        case None => moves := moves + [MoveOf(f)];
        case Some(msg) => out := out + [RenameWarning(f, msg)];
      }
      i := i + 1;
    }
    assert files[..i] == files;
  }

  /** The loop over the map: one archive, its renames and its report per month. */
  method ArchiveMonths(d: MemDir, gs: seq<MonthGroup>, err: string -> Option<string>) returns (o: Outcome)
    ensures o == AutoRun(d, gs, err)
  {
    o := Outcome([], [], []);
    var i := 0;
    while i < |gs|
      invariant i <= |gs|
      invariant o == AutoRun(d, gs[..i], err)
    {
      var g := gs[i];
      var combined := Combine(d, g);
      var warnings, moves := RenameAll(g.files, err);
      o := Then(o, Outcome(warnings + [ArchivedLine(g)], [Written(ArchivePath(g.month), combined)], moves));
      assert gs[..i + 1][..i] == gs[..i];
      i := i + 1;
    }
    assert gs[..i] == gs;
  }

  /** A loop appending each file's piece to `s`. */
  method AppendAll(s: string, files: seq<string>, piece: string -> string) returns (r: string)
    ensures r == s + Concat(files, piece)
  {
    r := s;
    var i := 0;
    while i < |files|
      invariant i <= |files|
      invariant r == s + Concat(files[..i], piece)
    {
      r := r + piece(files[i]);
      ConcatStep(files, i, piece);
      i := i + 1;
    }
    assert files[..i] == files;
  }

  /** The `--smart` prompt, built by appending to `output`. */
  method Prompt(d: MemDir, aged: seq<string>) returns (output: string)
    ensures output == SmartPrompt(d, aged)
  {
    output := SmartHead(ReadMarkdown(d, DurableName));
    output := AppendAll(output, aged, LogBlock(d));
    output := output + DeleteHeader;
    output := AppendAll(output, aged, DeleteLine);
  }

  /** The dry-run listing. */
  method ListOld(aged: seq<string>, maxAge: nat) returns (out: seq<string>)
    ensures out == DryRun(aged, maxAge)
  {
    out := [NatToString(|aged|) + " logs older than " + NatToString(maxAge) + " days:"];
    var i := 0;
    while i < |aged|
      invariant i <= |aged|
      invariant out == [NatToString(|aged|) + " logs older than " + NatToString(maxAge) + " days:"] + Listed(aged[..i])
    {
      assert aged[..i + 1][..i] == aged[..i];
      out := out + [Indented(aged[i])];
      i := i + 1;
    }
    assert aged[..i] == aged;
    out := out + [AutoHint];
  }

  /** `compactCommand`, the `--days` option parsed, the cutoff given as `isOld`. */
  method CompactCommand(d: MemDir, days: Option<nat>, auto: bool, smart: bool, isOld: string -> bool,
                        err: string -> Option<string>) returns (o: Outcome)
    ensures o == Compact(d, OrDefault(days, DefaultAge), auto, smart, isOld, err)
  {
    var maxAge := OrDefault(days, DefaultAge);
    var files := CompactFiles(d);
    var aged := OldFiles(files, isOld);
    if |aged| == 0 {
      o := Outcome([NoOldLine(maxAge)], [], []);
      return;
    }
    if smart {
      var output := Prompt(d, aged);
      o := Outcome([output], [], []);
      return;
    }
    if auto {
      var gs := GroupByMonth(aged);
      o := ArchiveMonths(d, gs, err);
    } else {
      var out := ListOld(aged, maxAge);
      o := Outcome(out, [], []);
    }
  }
}
