/**
 * `kex-mem brief`: a session summary in up to three sections. DURABLE is the
 * head of MEMORY.md; RECENT the entry lines of the newest daily logs; TODO
 * the open todo entries of every daily log, recent ones first.
 */
module Brief {
  import opened Wrappers
  import opened Text
  import opened Paths
  import opened Parser
  import opened Sorting
  import opened Files
  import Todo

  /** `--lines` and `--days` when not given. */
  const DefaultLines := 20
  const DefaultDays := 3

  /** The durable memory file's name inside the memory directory. */
  const DurableName := "MEMORY.md"

  const NoMemoryData := "No memory data found."

  function Min(a: nat, b: nat): nat {
    if a < b then a else b
  }

  // ----- DURABLE

  function MoreLinesNote(k: nat): string {
    "... (" + NatToString(k) + " more lines in MEMORY.md)"
  }

  /**
   * For a non-empty MEMORY.md: the header, its first `maxLines` lines, and a
   * note of how many lines were left out when there are more.
   */
  function DurableSection(content: string, maxLines: nat): seq<string> {
    if content == "" then []
    else
      var lines := Split(content);
      ["=== DURABLE ===", Join(lines[..Min(maxLines, |lines|)])] +
      (if |lines| > maxLines then [MoreLinesNote(|lines| - maxLines)] else [])
  }

  /**
   * The shown text is the first `maxLines` lines of the file, the whole file
   * when it has no more; otherwise the note counts the rest, so shown and
   * left-out lines add up to the file's.
   */
  lemma DurableShows(content: string, maxLines: nat)
    requires content != ""
    ensures var s, lines := DurableSection(content, maxLines), Split(content);
      |s| >= 2 && s[0] == "=== DURABLE ===" &&
      (|lines| <= maxLines ==> |s| == 2 && s[1] == content) &&
      (|lines| > maxLines ==>
         |s| == 3 && s[2] == MoreLinesNote(|lines| - maxLines) && (maxLines > 0 ==> Split(s[1]) == lines[..maxLines]))
  {
    var lines := Split(content);
    if |lines| <= maxLines {
      assert lines[..|lines|] == lines;
      JoinSplit(content);
    } else if maxLines > 0 {
      SplitJoin(lines[..maxLines]);
    }
  }

  /** The duration of the window in days, as the RECENT header shows it. */
  function RecentHeader(maxDays: nat): string {
    "=== RECENT (" + NatToString(maxDays) + "d) ==="
  }

  // ----- the files

  /** The daily logs newest first, as `todo` lists them. */
  function LogFiles(d: MemDir): seq<string> {
    Todo.TodoFiles(d)
  }

  /** `logFiles.slice(0, maxDays)` and `logFiles.slice(maxDays)`. */
  function RecentFiles(files: seq<string>, maxDays: nat): seq<string> {
    files[..Min(maxDays, |files|)]
  }

  function OlderFiles(files: seq<string>, maxDays: nat): seq<string> {
    files[Min(maxDays, |files|)..]
  }

  /**
   * The recent files are the `maxDays` newest (all of them when there are
   * fewer), the older ones the rest: together they are the list, in order,
   * and every older file sorts at or below every recent one.
   */
  lemma FilesPartition(files: seq<string>, maxDays: nat)
    requires SortedDesc(files)
    ensures RecentFiles(files, maxDays) + OlderFiles(files, maxDays) == files
    ensures |RecentFiles(files, maxDays)| == Min(maxDays, |files|)
    ensures forall i, j :: 0 <= i < |RecentFiles(files, maxDays)| && 0 <= j < |OlderFiles(files, maxDays)| ==>
      StrLe(OlderFiles(files, maxDays)[j], RecentFiles(files, maxDays)[i])
  {
    var k := Min(maxDays, |files|);
    assert files[..k] + files[k..] == files;
    forall i, j | 0 <= i < k && 0 <= j < |files| - k ensures StrLe(files[k..][j], files[..k][i]) {
      assert files[k..][j] == files[k + j] && files[..k][i] == files[i];
    }
  }

  /** With distinct names, no file is both recent and older. */
  lemma FilesDisjoint(files: seq<string>, maxDays: nat)
    requires Distinct(files)
    ensures forall n :: n in RecentFiles(files, maxDays) ==> n !in OlderFiles(files, maxDays)
  {
    var k := Min(maxDays, |files|);
    forall n | n in files[..k] ensures n !in files[k..] {
      var i :| 0 <= i < k && files[..k][i] == n;
    }
  }

  // ----- one file

  /** A todo of the brief: date, time and the message as written. */
  datatype OpenTodo = OpenTodo(date: string, time: string, message: string)

  function Raws(es: seq<LogEntry>): (r: seq<string>)
    ensures |r| == |es| && forall i :: 0 <= i < |es| ==> r[i] == es[i].raw
  {
    if |es| == 0 then [] else Raws(es[..|es| - 1]) + [es[|es| - 1].raw]
  }

  /** The todo entries whose line lacks "[done]", in order. */
  function OpenOf(date: string, ts: seq<LogEntry>): seq<OpenTodo> {
    if |ts| == 0 then []
    else
      var n := |ts| - 1;
      OpenOf(date, ts[..n]) + (if Contains(ts[n].raw, "[done]") then [] else [OpenTodo(date, ts[n].time, ts[n].message)])
  }

  lemma {:induction false} OpenOfMembers(date: string, ts: seq<LogEntry>, t: OpenTodo)
    ensures t in OpenOf(date, ts) <==>
      exists e :: e in ts && !Contains(e.raw, "[done]") && t == OpenTodo(date, e.time, e.message)
  {
    if |ts| > 0 {
      var n := |ts| - 1;
      OpenOfMembers(date, ts[..n], t);
      assert forall e :: e in ts <==> e in ts[..n] || e == ts[n] by {
        assert ts == ts[..n] + [ts[n]];
      }
    }
  }

  /** The open todos of a file in the brief's order equal `todo`'s open items of that file. */
  lemma {:induction false} OpenOfItems(file: string, ts: seq<LogEntry>)
    requires |file| >= 10
    ensures OpenOf(file[..10], ts) == Summaries(Todo.OpenItems(Todo.ItemsOf(file, ts)))
  {
    if |ts| > 0 {
      var n := |ts| - 1;
      OpenOfItems(file, ts[..n]);
      var it := Todo.ItemOf(file, ts[n]);
      OpenItemsAppend(Todo.ItemsOf(file, ts[..n]), [it]);
      SummariesAppend(Todo.OpenItems(Todo.ItemsOf(file, ts[..n])), Todo.OpenItems([it]));
    }
  }

  /** The lines a non-empty recent file adds to RECENT: its date heading and its entry lines. */
  function FileParts(d: MemDir, file: string, parse: Todo.EntryParser): seq<string>
    requires IsDailyLogName(file)
  {
    var content := ReadMarkdown(d, file);
    if content == "" then [] else ["# " + file[..10]] + Raws(parse(content))
  }

  /** The open todos a non-empty file adds. */
  function FileOpen(d: MemDir, file: string, parse: Todo.EntryParser): seq<OpenTodo>
    requires IsDailyLogName(file)
  {
    var content := ReadMarkdown(d, file);
    if content == "" then [] else OpenOf(file[..10], FilterByTag(parse(content), "todo"))
  }

  function PartsPer(d: MemDir): string -> seq<string> {
    f => if IsDailyLogName(f) then FileParts(d, f, LogEntries) else []
  }

  function OpenPer(d: MemDir): string -> seq<OpenTodo> {
    f => if IsDailyLogName(f) then FileOpen(d, f, LogEntries) else []
  }

  lemma PerAt(d: MemDir, file: string)
    requires IsDailyLogName(file)
    ensures PartsPer(d)(file) == FileParts(d, file, LogEntries)
    ensures OpenPer(d)(file) == FileOpen(d, file, LogEntries)
  {
  }

  // ----- the sections

  /** The lines of the recent files, emitted when there are recent files and at least one line. */
  function RecentSection(recent: seq<string>, parts: seq<string>, maxDays: nat): seq<string> {
    if |recent| > 0 && |parts| > 0 then ["", RecentHeader(maxDays), Join(parts)] else []
  }

  function TodoLine(t: OpenTodo): string {
    t.date + " " + t.time + "  " + t.message
  }

  function TodoLines(ts: seq<OpenTodo>): (r: seq<string>)
    ensures |r| == |ts| && forall i :: 0 <= i < |ts| ==> r[i] == TodoLine(ts[i])
  {
    if |ts| == 0 then [] else TodoLines(ts[..|ts| - 1]) + [TodoLine(ts[|ts| - 1])]
  }

  function TodoHeader(count: nat): string {
    "=== TODO (" + NatToString(count) + " open) ==="
  }

  /** A blank line, the count of open todos and one line each; nothing when there are none. */
  function TodoSection(ts: seq<OpenTodo>): seq<string> {
    if |ts| > 0 then ["", TodoHeader(|ts|)] + TodoLines(ts) else []
  }

  function RecentParts(d: MemDir, maxDays: nat): seq<string> {
    Gather(RecentFiles(LogFiles(d), maxDays), PartsPer(d))
  }

  /** The open todos of the recent files, then those of the older files. */
  function AllTodos(d: MemDir, maxDays: nat): seq<OpenTodo> {
    var files := LogFiles(d);
    Gather(RecentFiles(files, maxDays), OpenPer(d)) + Gather(OlderFiles(files, maxDays), OpenPer(d))
  }

  function Sections(d: MemDir, maxLines: nat, maxDays: nat): seq<string> {
    DurableSection(ReadMarkdown(d, DurableName), maxLines) +
    RecentSection(RecentFiles(LogFiles(d), maxDays), RecentParts(d, maxDays), maxDays) +
    TodoSection(AllTodos(d, maxDays))
  }

  /** What the command prints: the sections one per line, or the empty message when there are none. */
  function BriefOutput(d: MemDir, maxLines: nat, maxDays: nat): string {
    var s := Sections(d, maxLines, maxDays);
    if |s| == 0 then NoMemoryData else Join(s)
  }

  // ----- what the sections hold

  /** The brief's view of `todo`'s items. */
  function Summaries(items: seq<Todo.TodoItem>): (r: seq<OpenTodo>)
    ensures |r| == |items| && forall i :: 0 <= i < |items| ==> r[i] == OpenTodo(items[i].date, items[i].time, items[i].message)
  {
    if |items| == 0 then [] else [OpenTodo(items[0].date, items[0].time, items[0].message)] + Summaries(items[1..])
  }

  lemma SummariesAppend(a: seq<Todo.TodoItem>, b: seq<Todo.TodoItem>)
    ensures Summaries(a + b) == Summaries(a) + Summaries(b)
  {
  }

  lemma {:induction false} OpenItemsAppend(a: seq<Todo.TodoItem>, b: seq<Todo.TodoItem>)
    ensures Todo.OpenItems(a + b) == Todo.OpenItems(a) + Todo.OpenItems(b)
  {
    if |a| == 0 {
      assert a + b == b;
    } else {
      assert (a + b)[0] == a[0];
      assert (a + b)[1..] == a[1..] + b;
      OpenItemsAppend(a[1..], b);
    }
  }

  /** The open todos of a file are the (date, time, message) of `todo`'s open items of that file. */
  lemma FileOpenItems(d: MemDir, f: string)
    ensures OpenPer(d)(f) == Summaries(Todo.OpenItems(Todo.FileItems(d)(f)))
  {
    if IsDailyLogName(f) {
      PerAt(d, f);
      Todo.FileItemsAt(d, f);
      var content := ReadMarkdown(d, f);
      if content != "" {
        OpenOfItems(f, FilterByTag(LogEntries(content), "todo"));
      }
    }
  }

  lemma {:induction false} GatherOpen(d: MemDir, files: seq<string>)
    ensures Gather(files, OpenPer(d)) == Summaries(Todo.OpenItems(Gather(files, Todo.FileItems(d))))
  {
    if |files| > 0 {
      var n := |files| - 1;
      var front, f := files[..n], files[n];
      GatherOpen(d, front);
      FileOpenItems(d, f);
      OpenItemsAppend(Gather(front, Todo.FileItems(d)), Todo.FileItems(d)(f));
      SummariesAppend(Todo.OpenItems(Gather(front, Todo.FileItems(d))), Todo.OpenItems(Todo.FileItems(d)(f)));
    }
  }

  /**
   * Whatever `--days` is, the TODO section lists exactly the items `kex-mem
   * todo` lists by default, in the same order (newest file first, line order
   * within a file): recent and older files together are all the daily logs.
   */
  lemma AllTodosAreOpenItems(d: MemDir, maxDays: nat)
    ensures AllTodos(d, maxDays) == Summaries(Todo.OpenItems(Todo.TodosOf(d)))
  {
    var files := LogFiles(d);
    var k := Min(maxDays, |files|);
    assert files[..k] + files[k..] == files;
    GatherAppend(files[..k], files[k..], OpenPer(d));
    GatherOpen(d, files);
  }

  /** A todo is listed exactly when it is an open item of `todo`. */
  lemma AllTodosMembers(d: MemDir, maxDays: nat, t: OpenTodo)
    ensures t in AllTodos(d, maxDays) <==>
      exists it :: it in Todo.TodosOf(d) && !it.done && t == OpenTodo(it.date, it.time, it.message)
  {
    AllTodosAreOpenItems(d, maxDays);
    OpenSummariesMembers(Todo.TodosOf(d), t);
  }

  lemma OpenSummariesMembers(items: seq<Todo.TodoItem>, t: OpenTodo)
    ensures t in Summaries(Todo.OpenItems(items)) <==>
      exists it :: it in items && !it.done && t == OpenTodo(it.date, it.time, it.message)
  {
    var open := Todo.OpenItems(items);
    var r := Summaries(open);
    if t in r {
      var i :| 0 <= i < |r| && r[i] == t;
      assert open[i] in open;
    }
    forall it | it in items && !it.done && t == OpenTodo(it.date, it.time, it.message) ensures t in r {
      var i :| 0 <= i < |open| && open[i] == it;
      assert r[i] == t;
    }
  }

  /** A recent file adds lines exactly when it is not empty. */
  lemma PartsEmpty(d: MemDir, f: string)
    requires IsDailyLogName(f)
    ensures PartsPer(d)(f) == [] <==> ReadMarkdown(d, f) == ""
  {
    PerAt(d, f);
  }

  /** The recent files add no lines exactly when each of them is empty. */
  lemma PartsAllEmpty(d: MemDir, files: seq<string>)
    requires forall n :: n in files ==> IsDailyLogName(n)
    ensures Gather(files, PartsPer(d)) == [] <==> forall k :: 0 <= k < |files| ==> ReadMarkdown(d, files[k]) == ""
  {
    GatherEmpty(files, PartsPer(d));
    forall k | 0 <= k < |files| ensures PartsPer(d)(files[k]) == [] <==> ReadMarkdown(d, files[k]) == "" {
      assert files[k] in files;
      PartsEmpty(d, files[k]);
    }
  }

  /** RECENT is shown exactly when one of the recent files is not empty. */
  lemma RecentShown(d: MemDir, maxDays: nat)
    ensures RecentParts(d, maxDays) != [] <==>
      exists f :: f in RecentFiles(LogFiles(d), maxDays) && ReadMarkdown(d, f) != ""
  {
    var files := LogFiles(d);
    var recent := RecentFiles(files, maxDays);
    assert forall n :: n in recent ==> n in files;
    PartsAllEmpty(d, recent);
    if RecentParts(d, maxDays) != [] {
      var k :| 0 <= k < |recent| && ReadMarkdown(d, recent[k]) != "";
      assert recent[k] in recent;
    }
  }

  /**
   * Every RECENT line is the date heading of a non-empty recent file or the
   * raw line of one of its entries: older files add nothing here.
   */
  lemma RecentLines(d: MemDir, maxDays: nat, x: string)
    requires x in RecentParts(d, maxDays)
    ensures exists f :: f in RecentFiles(LogFiles(d), maxDays) && IsDailyLogName(f) && ReadMarkdown(d, f) != "" &&
                        (x == "# " + f[..10] || exists e :: e in LogEntries(ReadMarkdown(d, f)) && x == e.raw)
  {
    var files := LogFiles(d);
    var recent := RecentFiles(files, maxDays);
    GatherMembers(recent, PartsPer(d), x);
    var k :| 0 <= k < |recent| && x in PartsPer(d)(recent[k]);
    var f := recent[k];
    assert f in recent && f in files;
    PerAt(d, f);
    FilePartsLine(d, f, x);
  }

  /** A line a file adds is its date heading or the raw line of one of its entries. */
  lemma FilePartsLine(d: MemDir, f: string, x: string)
    requires IsDailyLogName(f) && x in FileParts(d, f, LogEntries)
    ensures ReadMarkdown(d, f) != ""
    ensures x == "# " + f[..10] || exists e :: e in LogEntries(ReadMarkdown(d, f)) && x == e.raw
  {
    var es := LogEntries(ReadMarkdown(d, f));
    if x != "# " + f[..10] {
      var i :| 0 <= i < |Raws(es)| && Raws(es)[i] == x;
      assert es[i] in es;
    }
  }

  /** "No memory data found." is printed exactly when MEMORY.md, RECENT and TODO are all empty. */
  lemma NoDataWhenEmpty(d: MemDir, maxLines: nat, maxDays: nat)
    ensures Sections(d, maxLines, maxDays) == [] <==>
      ReadMarkdown(d, DurableName) == "" && RecentParts(d, maxDays) == [] && AllTodos(d, maxDays) == []
  {
    var files := LogFiles(d);
    if |RecentFiles(files, maxDays)| == 0 {
      assert RecentParts(d, maxDays) == [];
    }
  }

  // ----- the command

  method Durable(content: string, maxLines: nat) returns (sections: seq<string>)
    ensures sections == DurableSection(content, maxLines)
  {
    sections := [];
    if content != "" {
      var lines := Split(content);
      var truncated := lines[..Min(maxLines, |lines|)];
      sections := sections + ["=== DURABLE ==="];
      sections := sections + [Join(truncated)];
      if |lines| > maxLines {
        sections := sections + [MoreLinesNote(|lines| - maxLines)];
      }
    }
  }

  /** `for (const e of entries) recentParts.push(e.raw)`. */
  method PushRaws(parts: seq<string>, es: seq<LogEntry>) returns (r: seq<string>)
    ensures r == parts + Raws(es)
  {
    r := parts;
    var k := 0;
    while k < |es|
      invariant 0 <= k <= |es|
      invariant r == parts + Raws(es[..k])
    {
      assert es[..k + 1][..k] == es[..k];
      r := r + [es[k].raw];
      k := k + 1;
    }
    assert es[..k] == es;
  }

  /** Push the todo entries whose line lacks "[done]". */
  method PushOpen(todos: seq<OpenTodo>, date: string, ts: seq<LogEntry>) returns (r: seq<OpenTodo>)
    ensures r == todos + OpenOf(date, ts)
  {
    r := todos;
    var k := 0;
    while k < |ts|
      invariant 0 <= k <= |ts|
      invariant r == todos + OpenOf(date, ts[..k])
    {
      assert ts[..k + 1][..k] == ts[..k];
      if !Contains(ts[k].raw, "[done]") {
        r := r + [OpenTodo(date, ts[k].time, ts[k].message)];
      }
      k := k + 1;
    }
    assert ts[..k] == ts;
  }

  /** One recent file: skipped when empty, else its heading, its entry lines and its open todos. */
  method RecentFile(d: MemDir, file: string, parts: seq<string>, todos: seq<OpenTodo>)
    returns (parts2: seq<string>, todos2: seq<OpenTodo>)
    requires IsDailyLogName(file)
    ensures parts2 == parts + FileParts(d, file, LogEntries)
    ensures todos2 == todos + FileOpen(d, file, LogEntries)
  {
    var content := ReadMarkdown(d, file);
    if content == "" {
      return parts, todos;
    }
    var date := file[..10];
    var entries := ParseLogEntries(content);
    parts2 := PushRaws(parts + ["# " + date], entries);
    assert parts + ["# " + date] + Raws(entries) == parts + (["# " + date] + Raws(entries));
    var ts := FilterByTag(entries, "todo");
    todos2 := PushOpen(todos, date, ts);
  }

  /** One older file: only its open todos. */
  method OlderFile(d: MemDir, file: string, todos: seq<OpenTodo>) returns (todos2: seq<OpenTodo>)
    requires IsDailyLogName(file)
    ensures todos2 == todos + FileOpen(d, file, LogEntries)
  {
    var content := ReadMarkdown(d, file);
    if content == "" {
      return todos;
    }
    var entries := ParseLogEntries(content);
    var ts := FilterByTag(entries, "todo");
    todos2 := PushOpen(todos, file[..10], ts);
  }

  /** The loop over the recent files. */
  method ScanRecent(d: MemDir, files: seq<string>) returns (parts: seq<string>, todos: seq<OpenTodo>)
    requires forall n :: n in files ==> IsDailyLogName(n)
    ensures parts == Gather(files, PartsPer(d)) && todos == Gather(files, OpenPer(d))
  {
    parts, todos := [], [];
    var i := 0;
    while i < |files|
      invariant 0 <= i <= |files|
      invariant parts == Gather(files[..i], PartsPer(d)) && todos == Gather(files[..i], OpenPer(d))
    {
      assert files[i] in files;
      parts, todos := RecentFile(d, files[i], parts, todos);
      PerAt(d, files[i]);
      GatherStep(files, i, PartsPer(d));
      GatherStep(files, i, OpenPer(d));
      i := i + 1;
    }
    assert files[..i] == files;
  }

  /** The loop over the older files, adding to the todos collected so far. */
  method ScanOlder(d: MemDir, files: seq<string>, todos: seq<OpenTodo>) returns (r: seq<OpenTodo>)
    requires forall n :: n in files ==> IsDailyLogName(n)
    ensures r == todos + Gather(files, OpenPer(d))
  {
    r := todos;
    var i := 0;
    while i < |files|
      invariant 0 <= i <= |files|
      invariant r == todos + Gather(files[..i], OpenPer(d))
    {
      assert files[i] in files;
      ghost var before := Gather(files[..i], OpenPer(d));
      r := OlderFile(d, files[i], r);
      PerAt(d, files[i]);
      GatherStep(files, i, OpenPer(d));
      AppendAssoc(todos, before, FileOpen(d, files[i], LogEntries));
      i := i + 1;
    }
    assert files[..i] == files;
  }

  /** `for (const t of allTodos) sections.push(...)`. */
  method PushTodoLines(sections: seq<string>, ts: seq<OpenTodo>) returns (r: seq<string>)
    ensures r == sections + TodoLines(ts)
  {
    r := sections;
    var k := 0;
    while k < |ts|
      invariant 0 <= k <= |ts|
      invariant r == sections + TodoLines(ts[..k])
    {
      assert ts[..k + 1][..k] == ts[..k];
      r := r + [TodoLine(ts[k])];
      k := k + 1;
    }
    assert ts[..k] == ts;
  }

  /**
   * The RECENT section and the todos: the daily logs newest first, split at
   * `maxDays`; the recent ones give their lines and todos, the older ones
   * only their todos.
   */
  method RecentAndTodos(d: MemDir, maxDays: nat) returns (recent: seq<string>, allTodos: seq<OpenTodo>)
    ensures recent == RecentSection(RecentFiles(LogFiles(d), maxDays), RecentParts(d, maxDays), maxDays)
    ensures allTodos == AllTodos(d, maxDays)
  {
    var logFiles := Todo.TodoFiles(d);
    var k := Min(maxDays, |logFiles|);
    var recentFiles := logFiles[..k];
    var olderFiles := logFiles[k..];
    assert forall n :: n in recentFiles ==> n in logFiles;
    assert forall n :: n in olderFiles ==> n in logFiles;
    assert recentFiles == RecentFiles(LogFiles(d), maxDays) && olderFiles == OlderFiles(LogFiles(d), maxDays);
    allTodos, recent := [], [];
    if |recentFiles| > 0 {
      var recentParts;
      recentParts, allTodos := ScanRecent(d, recentFiles);
      if |recentParts| > 0 {
        recent := ["", RecentHeader(maxDays), Join(recentParts)];
      }
    }
    allTodos := ScanOlder(d, olderFiles, allTodos);
  }

  /** The TODO section pushed after the others. */
  method PushTodoSection(sections: seq<string>, allTodos: seq<OpenTodo>) returns (r: seq<string>)
    ensures r == sections + TodoSection(allTodos)
  {
    r := sections;
    if |allTodos| > 0 {
      var header := ["", TodoHeader(|allTodos|)];
      r := PushTodoLines(r + header, allTodos);
      assert r == sections + (header + TodoLines(allTodos));
    }
  }

  /**
   * `briefCommand`: `lines` and `days` are the parsed options, `d` the
   * memory directory, which holds MEMORY.md and the daily logs.
   */
  method BriefCommand(d: MemDir, lines: Option<nat>, days: Option<nat>) returns (out: string)
    ensures out == BriefOutput(d, OrDefault(lines, DefaultLines), OrDefault(days, DefaultDays))
  {
    var maxLines := OrDefault(lines, DefaultLines);
    var maxDays := OrDefault(days, DefaultDays);
    var sections := Durable(ReadMarkdown(d, DurableName), maxLines);
    var recent, allTodos := RecentAndTodos(d, maxDays);
    sections := sections + recent;
    sections := PushTodoSection(sections, allTodos);
    if |sections| == 0 {
      return NoMemoryData;
    }
    out := Join(sections);
  }
}
