/**
 * `kex-mem todo`: the todo-tagged entries of the daily logs, newest file
 * first; listing them, and resolving one by appending " [done]" to its line
 * and re-indexing that file.
 */
module Todo {
  import opened Wrappers
  import opened Text
  import opened Paths
  import opened Parser
  import opened Sorting
  import opened Db
  import opened Files
  import Log
  import Indexer
  import ConfigStore

  /** One todo entry as collected: `date` is the file name's date part, `lineNum` 1-based. */
  datatype TodoItem = TodoItem(date: string, time: string, message: string, file: string, lineNum: nat, done: bool)

  // ----- the done marker

  /**
   * `^\s*\[done\]\s*$` matches all of `t`. The greedy `\s*` takes every
   * leading space; giving one back leaves a space where '[' is needed, so
   * this is the only way to match.
   */
  predicate DoneTail(t: string) {
    var k := LeadingSpaces(t);
    k + 6 <= |t| && t[k..k + 6] == "[done]" && AllSpaces(t[k + 6..])
  }

  /** The search of `/\s*\[done\]\s*$/`: the first start position at or after `j` where it matches. */
  function DoneTailFrom(s: string, j: nat): (r: Option<nat>)
    requires j <= |s|
    ensures r.Some? ==> j <= r.value <= |s|
    decreases |s| - j
  {
    if DoneTail(s[j..]) then Some(j)
    else if j == |s| then None
    else DoneTailFrom(s, j + 1)
  }

  /** The search finds the leftmost match from `j` on, and fails only when there is none. */
  lemma {:induction false} DoneTailFromSpec(s: string, j: nat)
    requires j <= |s|
    ensures var r := DoneTailFrom(s, j);
      (r.Some? ==> j <= r.value <= |s| && DoneTail(s[r.value..]) && forall i :: j <= i < r.value ==> !DoneTail(s[i..])) &&
      (r.None? ==> forall i :: j <= i <= |s| ==> !DoneTail(s[i..]))
    decreases |s| - j
  {
    if !DoneTail(s[j..]) && j < |s| {
      DoneTailFromSpec(s, j + 1);
      assert DoneTailFrom(s, j) == DoneTailFrom(s, j + 1);
      LeftmostStep(s, j, DoneTailFrom(s, j + 1), DoneTail);
    }
  }

  /** A search that fails at `j` finds what the search from `j + 1` finds. */
  lemma LeftmostStep(s: string, j: nat, r: Option<nat>, p: string -> bool)
    requires j < |s| && !p(s[j..])
    requires r.Some? ==> j + 1 <= r.value <= |s| && p(s[r.value..]) && forall i :: j + 1 <= i < r.value ==> !p(s[i..])
    requires r.None? ==> forall i :: j + 1 <= i <= |s| ==> !p(s[i..])
    ensures r.Some? ==> j <= r.value <= |s| && p(s[r.value..]) && forall i :: j <= i < r.value ==> !p(s[i..])
    ensures r.None? ==> forall i :: j <= i <= |s| ==> !p(s[i..])
  {
  }

  /** `message.replace(/\s*\[done\]\s*$/, "")`. */
  function StripDone(s: string): string {
    var m := DoneTailFrom(s, 0);
    if m.Some? then s[..m.value] else s
  }

  /**
   * Stripping cuts the text off at the leftmost match of the pattern, which
   * is at least "[done]" long; when the pattern does not occur the message stays.
   */
  lemma StripDoneSpec(s: string)
    ensures var r := StripDone(s);
      StartsWith(s, r) &&
      (r == s <==> forall i :: 0 <= i <= |s| ==> !DoneTail(s[i..])) &&
      (r != s ==> DoneTail(s[|r|..]) && forall i :: 0 <= i < |r| ==> !DoneTail(s[i..]))
  {
    DoneTailFromSpec(s, 0);
    var m := DoneTailFrom(s, 0);
    if m.Some? {
      assert |s[m.value..]| >= 6;
      assert s[..m.value] != s;
    }
  }

  /** The leading spaces end at the first non-space character. */
  lemma LeadingSpacesAt(t: string, k: nat)
    requires k < |t| && AllSpaces(t[..k]) && !IsSpace(t[k])
    ensures LeadingSpaces(t) == k
  {
    var n := LeadingSpaces(t);
  }

  /** A white-space suffix is no longer than the trailing spaces. */
  lemma TrailingSpacesAtLeast(m: string, j: nat)
    requires j <= |m| && AllSpaces(m[j..])
    ensures |m| - j <= TrailingSpaces(m)
  {
    var n := TrailingSpaces(m);
  }

  /** The text that `kex-mem todo --resolve` appends to a line. */
  const DoneSuffix := " [done]"

  lemma DoneSuffixShape()
    ensures |DoneSuffix| == 7 && DoneSuffix[0] == ' ' && DoneSuffix[1..] == "[done]"
    ensures IsSpace(DoneSuffix[0]) && !IsSpace(DoneSuffix[6]) && !IsSpace(DoneSuffix[1])
  {
  }

  /** A white-space suffix of a text that ends in a non-space character is empty. */
  lemma SpacesUpToEnd(t: string, a: nat)
    requires a <= |t| && AllSpaces(t[a..]) && |t| > 0 && !IsSpace(t[|t| - 1])
    ensures a == |t|
  {
  }

  /** The match in `m + " [done]"` starts where the trailing spaces of `m` do. */
  lemma DoneTailOfMarked(m: string)
    ensures DoneTail((m + DoneSuffix)[|TrimEnd(m)|..])
  {
    DoneSuffixShape();
    var s := m + DoneSuffix;
    var i0 := |m| - TrailingSpaces(m);
    var t := s[i0..];
    var k := TrailingSpaces(m) + 1;
    assert t == m[i0..] + DoneSuffix;
    assert t[..k] == m[i0..] + [' '];
    assert AllSpaces(t[..k]);
    assert t[k..k + 6] == "[done]";
    assert t[k + 6..] == [];
    LeadingSpacesAt(t, k);
  }

  /** No match of the pattern in `m + " [done]"` starts before the trailing spaces of `m`. */
  lemma NoEarlierDoneTail(m: string, j: nat)
    requires j < |TrimEnd(m)|
    ensures !DoneTail((m + DoneSuffix)[j..])
  {
    DoneSuffixShape();
    var s := m + DoneSuffix;
    var t := s[j..];
    if DoneTail(t) {
      var k := LeadingSpaces(t);
      assert t[|t| - 1] == DoneSuffix[6];
      SpacesUpToEnd(t, k + 6);
      assert j + k == |m| + 1;
      assert AllSpaces(m[j..]) by {
        forall i | 0 <= i < |m[j..]| ensures IsSpace(m[j..][i]) {
          assert m[j..][i] == t[..k][i];
        }
      }
      TrailingSpacesAtLeast(m, j);
    }
  }

  /** Resolving then listing shows the original message without its trailing spaces. */
  lemma StripMarked(m: string)
    ensures StripDone(m + DoneSuffix) == TrimEnd(m)
  {
    var s := m + DoneSuffix;
    var i0 := |TrimEnd(m)|;
    DoneTailOfMarked(m);
    forall j | 0 <= j < i0 ensures !DoneTail(s[j..]) {
      NoEarlierDoneTail(m, j);
    }
    DoneTailFromSpec(s, 0);
    var r := DoneTailFrom(s, 0);
    assert r.Some? && r.value == i0;
    assert s[..i0] == TrimEnd(m);
  }

  // ----- collecting

  /** The item of one todo entry: done when its line holds "[done]", whose trailing marker is then hidden. */
  function ItemOf(file: string, e: LogEntry): TodoItem
    requires |file| >= 10
  {
    var done := Contains(e.raw, "[done]");
    TodoItem(file[..10], e.time, if done then StripDone(e.message) else e.message, file, e.lineNum, done)
  }

  function ItemsOf(file: string, es: seq<LogEntry>): (r: seq<TodoItem>)
    requires |file| >= 10
    ensures |r| == |es| && forall i :: 0 <= i < |es| ==> r[i] == ItemOf(file, es[i])
  {
    if |es| == 0 then []
    else
      var n := |es| - 1;
      ItemsOf(file, es[..n]) + [ItemOf(file, es[n])]
  }

  /**
   * How a file's text becomes entries. Collecting is stated for any parser
   * and used with `LogEntries`, whose properties the lemmas below take as
   * hypotheses.
   */
  type EntryParser = string -> seq<LogEntry>

  /** The entries tagged "todo" of a file; an empty file is skipped. */
  function TodoEntries(d: MemDir, file: string, parse: EntryParser): seq<LogEntry> {
    var content := ReadMarkdown(d, file);
    if content == "" then [] else FilterByTag(parse(content), "todo")
  }

  function FileTodos(d: MemDir, file: string, parse: EntryParser): seq<TodoItem>
    requires IsDailyLogName(file)
  {
    ItemsOf(file, TodoEntries(d, file, parse))
  }

  /** How a file name becomes its items. */
  type PerFile = string -> seq<TodoItem>

  /** The items of a daily log; a name of another shape has none. */
  function FileItems(d: MemDir): PerFile {
    f => if IsDailyLogName(f) then FileTodos(d, f, LogEntries) else []
  }

  lemma FileItemsAt(d: MemDir, file: string)
    requires IsDailyLogName(file)
    ensures FileItems(d)(file) == FileTodos(d, file, LogEntries)
  {
  }

  /** The daily log names newest first: `b.localeCompare(a)` on names of one fixed shape. */
  function TodoFiles(d: MemDir): (r: seq<string>)
    ensures forall n :: n in r <==> n in d.listing && IsDailyLogName(n)
    ensures SortedDesc(r)
    ensures Distinct(d.listing) ==> Distinct(r)
  {
    var logs := DailyLogs(d.listing);
    var r := SortDesc(logs);
    assert forall n :: n in r <==> n in multiset(logs);
    if Distinct(d.listing) then
      PermutationDistinct(logs, r);
      r
    else r
  }

  /** What `collectTodos` returns. */
  function TodosOf(d: MemDir): seq<TodoItem> {
    Gather(TodoFiles(d), FileItems(d))
  }

  lemma ItemsStep(file: string, es: seq<LogEntry>, k: nat)
    requires |file| >= 10 && k < |es|
    ensures ItemsOf(file, es[..k + 1]) == ItemsOf(file, es[..k]) + [ItemOf(file, es[k])]
  {
    assert es[..k + 1][..k] == es[..k];
  }

  /** The item the loop of `collectTodos` builds from its parts. */
  lemma ItemParts(file: string, e: LogEntry, done: bool, message: string)
    requires |file| >= 10 && done == Contains(e.raw, "[done]")
    requires message == if done then StripDone(e.message) else e.message
    ensures TodoItem(file[..10], e.time, message, file, e.lineNum, done) == ItemOf(file, e)
  {
  }

  /** Pushing the next entry's item extends the collected prefix by one entry. */
  lemma PushItem(prefix: seq<TodoItem>, file: string, es: seq<LogEntry>, k: nat, todos: seq<TodoItem>, item: TodoItem)
    requires |file| >= 10 && k < |es|
    requires todos == prefix + ItemsOf(file, es[..k]) && item == ItemOf(file, es[k])
    ensures todos + [item] == prefix + ItemsOf(file, es[..k + 1])
  {
    ItemsStep(file, es, k);
    PushAssoc(prefix, ItemsOf(file, es[..k]), item);
  }

  /** The inner loop of `collectTodos`: push an item per todo entry of one file. */
  method PushFileTodos(todos: seq<TodoItem>, file: string, todoEntries: seq<LogEntry>) returns (r: seq<TodoItem>)
    requires IsDailyLogName(file)
    ensures r == todos + ItemsOf(file, todoEntries)
  {
    var date := file[..10];
    r := todos;
    var k := 0;
    while k < |todoEntries|
      invariant 0 <= k <= |todoEntries|
      invariant r == todos + ItemsOf(file, todoEntries[..k])
    {
      var e := todoEntries[k];
      var done := Contains(e.raw, "[done]");
      var message := if done then StripDone(e.message) else e.message;
      var item := TodoItem(date, e.time, message, file, e.lineNum, done);
      ItemParts(file, e, done, message);
      PushItem(todos, file, todoEntries, k, r, item);
      r := r + [item];
      k := k + 1;
    }
    assert todoEntries[..k] == todoEntries;
  }

  /** The body of the loop of `collectTodos`: read one daily log, skip it when empty, else push its todo items. */
  method CollectFile(d: MemDir, file: string, todos: seq<TodoItem>) returns (r: seq<TodoItem>)
    requires IsDailyLogName(file)
    ensures r == todos + FileTodos(d, file, LogEntries)
  {
    var content := ReadMarkdown(d, file);
    if content == "" {
      return todos;
    }
    var entries := ParseLogEntries(content);
    var todoEntries := FilterByTag(entries, "todo");
    r := PushFileTodos(todos, file, todoEntries);
  }

  /**
   * `collectTodos`: for each daily log, newest first, parse the non-empty
   * file and push an item per todo entry.
   */
  method CollectTodos(d: MemDir) returns (todos: seq<TodoItem>)
    ensures todos == TodosOf(d)
  {
    var files := TodoFiles(d);
    ghost var items := FileItems(d);
    todos := [];
    var i := 0;
    while i < |files|
      invariant 0 <= i <= |files|
      invariant todos == Gather(files[..i], items)
    {
      var file := files[i];
      assert IsDailyLogName(file);
      todos := CollectFile(d, file, todos);
      FileItemsAt(d, file);
      GatherStep(files, i, items);
      i := i + 1;
    }
    assert files[..i] == files;
  }

  /** The items of a non-empty file are its todo entries, each dated by the file name. */
  lemma FileTodosMembers(d: MemDir, file: string, parse: EntryParser, it: TodoItem)
    requires IsDailyLogName(file)
    ensures it in FileTodos(d, file, parse) <==>
      ReadMarkdown(d, file) != "" && exists e :: e in parse(ReadMarkdown(d, file)) && e.tag == Some("todo") && it == ItemOf(file, e)
  {
    var es := TodoEntries(d, file, parse);
    var r := FileTodos(d, file, parse);
    if it in r {
      var i :| 0 <= i < |r| && r[i] == it;
      assert es[i] in es;
    }
    if ReadMarkdown(d, file) != "" {
      forall e | e in parse(ReadMarkdown(d, file)) && e.tag == Some("todo") && it == ItemOf(file, e)
        ensures it in r
      {
        var i :| 0 <= i < |es| && es[i] == e;
        assert r[i] == it;
      }
    }
  }

  /**
   * The collected items are exactly the todo entries of the non-empty daily
   * logs of the directory: only names of the YYYY-MM-DD.md shape are read.
   */
  lemma TodosOfMembers(d: MemDir, it: TodoItem)
    ensures it in TodosOf(d) <==>
      exists f :: f in d.listing && IsDailyLogName(f) && it in FileTodos(d, f, LogEntries)
  {
    var files := TodoFiles(d);
    GatherMembers(files, FileItems(d), it);
    if it in TodosOf(d) {
      var k :| 0 <= k < |files| && it in FileItems(d)(files[k]);
      assert files[k] in files;
      FileItemsAt(d, files[k]);
    }
    forall f | f in d.listing && IsDailyLogName(f) && it in FileTodos(d, f, LogEntries) ensures it in TodosOf(d) {
      var k :| 0 <= k < |files| && files[k] == f;
      FileItemsAt(d, f);
    }
  }

  /** The entries of a text are in line order, and each names a line of the text. */
  lemma LogEntriesFit(content: string)
    ensures LineOrdered(LogEntries(content))
    ensures forall e :: e in LogEntries(content) ==> 1 <= e.lineNum <= |Split(content)|
  {
    LogEntriesSpec(content);
  }

  /** Filtering keeps the entries in line order. */
  predicate LineOrdered(es: seq<LogEntry>) {
    forall j, k :: 0 <= j < k < |es| ==> es[j].lineNum < es[k].lineNum
  }

  lemma {:induction false} FilterKeepsOrder(es: seq<LogEntry>, tag: string)
    requires LineOrdered(es)
    ensures LineOrdered(FilterByTag(es, tag))
  {
    if |es| > 0 {
      var rest := es[1..];
      FilterKeepsOrder(rest, tag);
      var t := FilterByTag(rest, tag);
      if es[0].tag == Some(tag) {
        HeadBelowRest(es);
        assert forall e :: e in t ==> e in rest;
        ConsOrdered(es[0], t);
      }
    }
  }

  /** In ordered entries the first one's line comes before every later one's. */
  lemma HeadBelowRest(es: seq<LogEntry>)
    requires |es| > 0 && LineOrdered(es)
    ensures forall e :: e in es[1..] ==> es[0].lineNum < e.lineNum
  {
    forall e | e in es[1..] ensures es[0].lineNum < e.lineNum {
      var k :| 0 <= k < |es[1..]| && es[1..][k] == e;
      assert es[k + 1] == e;
    }
  }

  /** An entry whose line comes before all of an ordered sequence's keeps it ordered when put in front. */
  lemma ConsOrdered(x: LogEntry, t: seq<LogEntry>)
    requires LineOrdered(t) && forall e :: e in t ==> x.lineNum < e.lineNum
    ensures LineOrdered([x] + t)
  {
    var r := [x] + t;
    forall j, k | 0 <= j < k < |r| ensures r[j].lineNum < r[k].lineNum {
      assert r[k] == t[k - 1];
      if j > 0 {
        assert r[j] == t[j - 1];
      } else {
        assert t[k - 1] in t;
      }
    }
  }

  /** Within a file, items keep line order and carry the file's name and date. */
  predicate InFile(r: seq<TodoItem>, file: string)
    requires |file| >= 10
  {
    forall j :: 0 <= j < |r| ==> r[j].file == file && r[j].date == file[..10]
  }

  predicate ItemLineOrdered(r: seq<TodoItem>) {
    forall j, k :: 0 <= j < k < |r| ==> r[j].lineNum < r[k].lineNum
  }

  lemma FileTodosOrdered(d: MemDir, file: string, parse: EntryParser)
    requires IsDailyLogName(file) && LineOrdered(parse(ReadMarkdown(d, file)))
    ensures InFile(FileTodos(d, file, parse), file) && ItemLineOrdered(FileTodos(d, file, parse))
  {
    var content := ReadMarkdown(d, file);
    if content != "" {
      FilterKeepsOrder(parse(content), "todo");
    }
  }

  /** Newer files first, and within one file in line order. */
  predicate NewestFirst(r: seq<TodoItem>) {
    forall i, j :: 0 <= i < j < |r| ==>
      StrLe(r[j].file, r[i].file) && (r[i].file == r[j].file ==> r[i].lineNum < r[j].lineNum)
  }

  /** Every file's items carry its name and date and keep line order. */
  predicate FilesInOrder(files: seq<string>, items: PerFile) {
    forall n :: n in files ==> |n| >= 10 && InFile(items(n), n) && ItemLineOrdered(items(n))
  }

  /**
   * Items come in the order of the files, each file's in line order; so
   * files that are distinct and sorted descending give the newest first.
   */
  lemma {:induction false} TodosOrdered(files: seq<string>, items: PerFile)
    requires FilesInOrder(files, items) && SortedDesc(files) && Distinct(files)
    ensures NewestFirst(Gather(files, items))
  {
    if |files| > 0 {
      var n := |files| - 1;
      var front, last := files[..n], files[n];
      assert forall k :: 0 <= k < n ==> front[k] == files[k];
      TodosOrdered(front, items);
      var a, b := Gather(front, items), items(last);
      forall x | x in a ensures StrLe(last, x.file) && x.file != last {
        GatherMembers(front, items, x);
        var k :| 0 <= k < n && x in items(front[k]);
        FrontItem(files, items, k, x);
      }
      AppendNewestFirst(a, b, last);
    }
  }

  /** An item of an earlier file comes from a file newer than the last one. */
  lemma FrontItem(files: seq<string>, items: PerFile, k: nat, x: TodoItem)
    requires FilesInOrder(files, items) && SortedDesc(files) && Distinct(files)
    requires k < |files| - 1 && x in items(files[k])
    ensures StrLe(files[|files| - 1], x.file) && x.file != files[|files| - 1]
  {
    var f := files[k];
    assert f in files;
    var j :| 0 <= j < |items(f)| && items(f)[j] == x;
    assert x.file == f;
  }

  /** Items of an older file appended after items of newer ones keep the order. */
  lemma AppendNewestFirst(a: seq<TodoItem>, b: seq<TodoItem>, last: string)
    requires NewestFirst(a) && ItemLineOrdered(b)
    requires forall x :: x in a ==> StrLe(last, x.file) && x.file != last
    requires forall j :: 0 <= j < |b| ==> b[j].file == last
    ensures NewestFirst(a + b)
  {
    var r := a + b;
    forall i, j | 0 <= i < j < |r|
      ensures StrLe(r[j].file, r[i].file) && (r[i].file == r[j].file ==> r[i].lineNum < r[j].lineNum)
    {
      if j < |a| {
        assert r[i] == a[i] && r[j] == a[j];
      } else if i >= |a| {
        assert r[i] == b[i - |a|] && r[j] == b[j - |a|];
        StrLeReflexive(last);
      } else {
        assert r[i] == a[i] && r[j] == b[j - |a|];
        assert a[i] in a;
      }
    }
  }

  /** The collected items, newest file first and in line order within a file. */
  lemma TodosOfOrdered(d: MemDir)
    requires WellFormed(d)
    ensures NewestFirst(TodosOf(d))
  {
    var files := TodoFiles(d);
    forall n | n in files ensures |n| >= 10 && InFile(FileItems(d)(n), n) && ItemLineOrdered(FileItems(d)(n)) {
      LogEntriesFit(ReadMarkdown(d, n));
      FileTodosOrdered(d, n, LogEntries);
      FileItemsAt(d, n);
    }
    TodosOrdered(files, FileItems(d));
  }

  // ----- listing

  /** `todos.filter((t) => !t.done)`. */
  function OpenItems(items: seq<TodoItem>): (r: seq<TodoItem>)
    ensures |r| <= |items|
    ensures forall x :: x in r <==> x in items && !x.done
  {
    if |items| == 0 then []
    else if items[0].done then OpenItems(items[1..])
    else [items[0]] + OpenItems(items[1..])
  }

  /** The items a listing shows: all of them with `--all`, else the open ones. */
  function Shown(items: seq<TodoItem>, all: bool): seq<TodoItem> {
    if all then items else OpenItems(items)
  }

  /** One listed line: date, time, two spaces, the message and " [done]" on a done item. */
  function ItemLine(t: TodoItem): string {
    t.date + " " + t.time + "  " + t.message + (if t.done then DoneSuffix else "")
  }

  function ItemLines(items: seq<TodoItem>): (r: seq<string>)
    ensures |r| == |items| && forall i :: 0 <= i < |items| ==> r[i] == ItemLine(items[i])
  {
    if |items| == 0 then [] else [ItemLine(items[0])] + ItemLines(items[1..])
  }

  const NoOpenTodos := "No open TODOs."

  /**
   * The lines the listing prints: "No open TODOs." when nothing would be
   * shown, either because there are no items or because all are done and
   * `--all` is not given; otherwise one line per shown item, in order.
   */
  function Listing(todos: seq<TodoItem>, all: bool): (out: seq<string>)
    ensures Shown(todos, all) == [] ==> out == [NoOpenTodos]
    ensures Shown(todos, all) != [] ==>
      |out| == |Shown(todos, all)| && forall i :: 0 <= i < |out| ==> out[i] == ItemLine(Shown(todos, all)[i])
  {
    if |todos| == 0 then [NoOpenTodos]
    else
      var filtered := if all then todos else OpenItems(todos);
      if |filtered| == 0 then [NoOpenTodos] else ItemLines(filtered)
  }

  // ----- resolving

  /** `items.find((t) => t.message.includes(sub))`. */
  function FindContaining(items: seq<TodoItem>, sub: string): (r: Option<TodoItem>)
    ensures r.Some? ==> r.value in items && Contains(r.value.message, sub)
    ensures r.None? ==> forall x :: x in items ==> !Contains(x.message, sub)
  {
    if |items| == 0 then None
    else if Contains(items[0].message, sub) then Some(items[0])
    else FindContaining(items[1..], sub)
  }

  /** The item `--resolve` picks: the first open item whose message contains `sub`. */
  function ResolveTarget(todos: seq<TodoItem>, sub: string): (r: Option<TodoItem>)
    ensures r.Some? ==> r.value in todos && !r.value.done && Contains(r.value.message, sub)
    ensures r.None? ==> forall x :: x in todos && !x.done ==> !Contains(x.message, sub)
  {
    FindContaining(OpenItems(todos), sub)
  }

  /** A reference definition: scan the items in order for one that is open and matches. */
  function FirstOpenMatch(todos: seq<TodoItem>, sub: string): Option<TodoItem> {
    if |todos| == 0 then None
    else if !todos[0].done && Contains(todos[0].message, sub) then Some(todos[0])
    else FirstOpenMatch(todos[1..], sub)
  }

  /** Filtering the open items and then finding is the first open match in collection order. */
  lemma {:induction false} ResolveTargetFirst(todos: seq<TodoItem>, sub: string)
    ensures ResolveTarget(todos, sub) == FirstOpenMatch(todos, sub)
  {
    if |todos| > 0 {
      ResolveTargetFirst(todos[1..], sub);
      if !todos[0].done {
        assert OpenItems(todos) == [todos[0]] + OpenItems(todos[1..]);
        assert ([todos[0]] + OpenItems(todos[1..]))[1..] == OpenItems(todos[1..]);
      }
    }
  }

  /**
   * The file after " [done]" is appended to line `lineNum` (1-based), or
   * None when that line does not exist and nothing is written.
   */
  function MarkDone(content: string, lineNum: nat): Option<string> {
    var lines := Split(content);
    var idx := lineNum - 1;
    if 0 <= idx < |lines| then Some(Join(lines[idx := lines[idx] + DoneSuffix])) else None
  }

  /**
   * Marking writes the file exactly when the line exists; then the marked
   * line gains " [done]" and every other line, and the number of lines, stay.
   */
  lemma MarkDoneLines(content: string, lineNum: nat)
    ensures MarkDone(content, lineNum).Some? <==> 1 <= lineNum <= |Split(content)|
    ensures MarkDone(content, lineNum).Some? ==>
      var before, after := Split(content), Split(MarkDone(content, lineNum).value);
      |after| == |before| && after[lineNum - 1] == before[lineNum - 1] + DoneSuffix &&
      forall i :: 0 <= i < |before| && i != lineNum - 1 ==> after[i] == before[i]
  {
    var lines := Split(content);
    if 1 <= lineNum <= |lines| {
      var idx := lineNum - 1;
      var line := lines[idx] + DoneSuffix;
      assert '\n' !in DoneSuffix;
      assert '\n' !in line;
      SplitJoinUpdate(lines, idx, line);
      assert MarkDone(content, lineNum).value == Join(lines[idx := line]);
    }
  }

  /** The line of a collected item exists in its file, so resolving always writes. */
  lemma ItemLineExists(d: MemDir, it: TodoItem)
    requires it in TodosOf(d)
    ensures 1 <= it.lineNum <= |Split(ReadMarkdown(d, it.file))|
  {
    TodosOfMembers(d, it);
    var f :| f in d.listing && IsDailyLogName(f) && it in FileTodos(d, f, LogEntries);
    FileTodosMembers(d, f, LogEntries, it);
    LogEntriesFit(ReadMarkdown(d, f));
    FileTodosOrdered(d, f, LogEntries);
    var e :| e in LogEntries(ReadMarkdown(d, f)) && e.tag == Some("todo") && it == ItemOf(f, e);
  }

  /**
   * A todo line as `kex-mem log` writes it, once resolved, parses as a todo
   * entry holding the marker, so it is collected as done and listed with
   * the original message.
   */
  lemma ResolvedReparses(time: string, message: string)
    requires Log.TimeShaped(time) && Log.PlainMessage(message, Some("todo"))
    ensures var line := Log.EntryLine(time, Some("todo"), message) + DoneSuffix;
      MatchEntry(line) == Some(EntryMatch(time, Some("todo"), message + DoneSuffix)) &&
      Contains(line, "[done]") &&
      StripDone(message + DoneSuffix) == TrimEnd(message)
  {
    MarkedPlain(message);
    Log.EntryRoundTrip(time, Some("todo"), message + DoneSuffix);
    MarkedLine(time, Some("todo"), message);
    EndsMarked(Log.EntryLine(time, Some("todo"), message));
    StripMarked(message);
  }

  /** A plain message stays plain once marked. */
  lemma MarkedPlain(message: string)
    requires Log.PlainMessage(message, Some("todo"))
    ensures Log.PlainMessage(message + DoneSuffix, Some("todo"))
  {
    DoneSuffixShape();
    var marked := message + DoneSuffix;
    forall i | 0 <= i < |marked| ensures !IsLineTerminator(marked[i]) {
      if i >= |message| {
        assert marked[i] == DoneSuffix[i - |message|];
      } else {
        assert marked[i] == message[i];
      }
    }
    assert marked[0] == message[0];
  }

  /** Appending the marker to a line appends it to the line's message. */
  lemma MarkedLine(time: string, tag: Option<string>, message: string)
    ensures Log.EntryLine(time, tag, message) + DoneSuffix == Log.EntryLine(time, tag, message + DoneSuffix)
  {
  }

  /** A marked line holds "[done]". */
  lemma EndsMarked(line: string)
    ensures Contains(line + DoneSuffix, "[done]")
  {
    DoneSuffixShape();
    var s := line + DoneSuffix;
    assert s[|s| - 6..] == DoneSuffix[1..];
    assert OccursAt(s, "[done]", |s| - 6);
  }

  /** What `--resolve` does to the directory: nothing, or the target's file rewritten. */
  datatype Resolution = NoMatch | Resolved(item: TodoItem, written: Option<string>)

  function Resolve(d: MemDir, sub: string): Resolution {
    var target := ResolveTarget(TodosOf(d), sub);
    if target.None? then NoMatch
    else Resolved(target.value, MarkDone(ReadMarkdown(d, target.value.file), target.value.lineNum))
  }

  /** The directory after the write, the file getting its new content, time and size. */
  function AfterResolve(d: MemDir, r: Resolution, mtimeMs: int, size: nat): (d2: MemDir)
    ensures d2.listing == d.listing
    ensures WellFormed(d) ==> WellFormed(d2)
  {
    if r.Resolved? && r.written.Some? then
      MemDir(d.listing, d.files[r.item.file := FileInfo(r.written.value, mtimeMs, size)])
    else d
  }

  /** A resolve always finds the line it marks. */
  lemma ResolveWrites(d: MemDir, sub: string)
    requires Resolve(d, sub).Resolved?
    ensures Resolve(d, sub).written.Some?
  {
    var it := ResolveTarget(TodosOf(d), sub).value;
    ItemLineExists(d, it);
    MarkDoneLines(ReadMarkdown(d, it.file), it.lineNum);
  }

  /** A marked file is never empty, so indexing it afterwards indexes it rather than removing it. */
  lemma MarkedNonEmpty(content: string, lineNum: nat)
    requires MarkDone(content, lineNum).Some?
    ensures MarkDone(content, lineNum).value != ""
  {
    MarkDoneLines(content, lineNum);
    assert |Split(MarkDone(content, lineNum).value)[lineNum - 1]| > 0;
    SplitEmpty();
  }

  /** The resolved file is a daily log that the write leaves non-empty. */
  lemma ResolvedIndexable(d: MemDir, sub: string, mtimeMs: int, size: nat)
    requires WellFormed(d) && Resolve(d, sub).Resolved?
    ensures var r := Resolve(d, sub); var d2 := AfterResolve(d, r, mtimeMs, size);
      WellFormed(d2) && r.item.file != "" && !Indexer.Vanished(d2, r.item.file)
  {
    var t := Resolve(d, sub).item;
    TodoFileIsLog(d, t);
    ResolveWrites(d, sub);
    MarkedNonEmpty(ReadMarkdown(d, t.file), t.lineNum);
  }

  /** Every collected item comes from a daily log. */
  lemma TodoFileIsLog(d: MemDir, t: TodoItem)
    requires t in TodosOf(d)
    ensures IsDailyLogName(t.file) && t.file != ""
  {
    TodosOfMembers(d, t);
    var f :| f in d.listing && IsDailyLogName(f) && t in FileTodos(d, f, LogEntries);
    LogEntriesFit(ReadMarkdown(d, f));
    FileTodosOrdered(d, f, LogEntries);
  }

  const NoMatchingTodo := "No matching open TODO."

  /**
   * `todoCommand`: with a non-empty `--resolve` string, resolve and then
   * index the resolved file alone; otherwise list. `d2` is the directory
   * afterwards, and `mtimeMs` and `size` describe a rewritten file.
   */
  method TodoCommand(store: Store, d: MemDir, resolve: Option<string>, all: bool,
                     cfg: ConfigStore.VectorConfig, vecEnabled: bool, envKey: Option<string>, embed: Indexer.EmbedFn,
                     mtimeMs: int, size: nat) returns (out: seq<string>, d2: MemDir)
    requires WellFormed(d)
    modifies store
    ensures resolve.None? || resolve.value == "" ==>
      out == Listing(TodosOf(d), all) && d2 == d && store.State() == old(store.State())
    ensures resolve.Some? && resolve.value != "" && Resolve(d, resolve.value).NoMatch? ==>
      out == [NoMatchingTodo] && d2 == d && store.State() == old(store.State())
    ensures resolve.Some? && resolve.value != "" && Resolve(d, resolve.value).Resolved? ==>
      var r := Resolve(d, resolve.value);
      |out| == 2 && out[0] == "Resolved: " + r.item.message && out[1] == "Indexed " + r.item.file &&
      d2 == AfterResolve(d, r, mtimeMs, size) &&
      store.State() == Indexer.SingleFile(old(store.State()), d2, MarkdownDoc, r.item.file, vecEnabled,
        if Indexer.Vanished(d2, r.item.file) then None
        else Indexer.SingleEmbedding(Indexer.HasEmbedder(vecEnabled, cfg, envKey), embed, EntryOf(d2, r.item.file, MarkdownDoc).body))
  {
    d2 := d;
    if resolve.Some? && resolve.value != "" {
      out, d2 := ResolveCommand(store, d, resolve.value, cfg, vecEnabled, envKey, embed, mtimeMs, size);
    } else {
      var todos := CollectTodos(d);
      out := Listing(todos, all);
    }
  }

  /**
   * `resolveTask`: mark the newest open todo containing `sub` as done,
   * then index its file alone.
   */
  method ResolveCommand(store: Store, d: MemDir, sub: string,
                        cfg: ConfigStore.VectorConfig, vecEnabled: bool, envKey: Option<string>, embed: Indexer.EmbedFn,
                        mtimeMs: int, size: nat) returns (out: seq<string>, d2: MemDir)
    requires WellFormed(d)
    modifies store
    ensures Resolve(d, sub).NoMatch? ==> out == [NoMatchingTodo] && d2 == d && store.State() == old(store.State())
    ensures Resolve(d, sub).Resolved? ==>
      var r := Resolve(d, sub);
      |out| == 2 && out[0] == "Resolved: " + r.item.message && out[1] == "Indexed " + r.item.file &&
      d2 == AfterResolve(d, r, mtimeMs, size) &&
      store.State() == Indexer.SingleFile(old(store.State()), d2, MarkdownDoc, r.item.file, vecEnabled,
        if Indexer.Vanished(d2, r.item.file) then None
        else Indexer.SingleEmbedding(Indexer.HasEmbedder(vecEnabled, cfg, envKey), embed, EntryOf(d2, r.item.file, MarkdownDoc).body))
  {
    d2 := d;
    var todos := CollectTodos(d);
    var target := ResolveTarget(todos, sub);
    if target.None? {
      out := [NoMatchingTodo];
      return;
    }
    var t := target.value;
    var written := MarkDone(ReadMarkdown(d, t.file), t.lineNum);
    d2 := AfterResolve(d, Resolved(t, written), mtimeMs, size);
    ResolvedIndexable(d, sub, mtimeMs, size);
    var msg := IndexResolved(store, d2, cfg, vecEnabled, envKey, t.file, embed);
    out := ["Resolved: " + t.message, msg];
  }

  /** `indexCommand(relPath)` on the rewritten file, which is there and not empty. */
  method IndexResolved(store: Store, d2: MemDir, cfg: ConfigStore.VectorConfig, vecEnabled: bool, envKey: Option<string>,
                       file: string, embed: Indexer.EmbedFn) returns (msg: string)
    requires WellFormed(d2) && file != "" && !Indexer.Vanished(d2, file)
    modifies store
    ensures msg == "Indexed " + file
    ensures store.State() == Indexer.SingleFile(old(store.State()), d2, MarkdownDoc, file, vecEnabled,
      Indexer.SingleEmbedding(Indexer.HasEmbedder(vecEnabled, cfg, envKey), embed, EntryOf(d2, file, MarkdownDoc).body))
  {
    msg := Indexer.IndexCommand(store, d2, cfg, vecEnabled, envKey, Some(file), false, embed);
  }
}
