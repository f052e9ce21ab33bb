/**
 * The memory directory as a snapshot: the names `readdirSync` lists, in its
 * order, and for each file its content, modification time and size. The
 * relative path of a listed file is its name.
 */
module Files {
  import opened Text
  import Markdown
  import Layout = Paths

  datatype FileInfo = FileInfo(content: string, mtimeMs: int, size: nat)

  datatype MemDir = MemDir(listing: seq<string>, files: map<string, FileInfo>)

  predicate Distinct(s: seq<string>) {
    forall i, j :: 0 <= i < j < |s| ==> s[i] != s[j]
  }

  /** A listing names each entry once, and every listed name is a file of the snapshot. */
  predicate WellFormed(d: MemDir) {
    Distinct(d.listing) && forall n :: n in d.listing ==> n in d.files
  }

  /** `readMarkdown`: the file's text, or "" when there is no such file. */
  function ReadMarkdown(d: MemDir, name: string): string {
    if name in d.files then d.files[name].content else ""
  }

  /** `files.filter((f) => f.endsWith(".md"))`. */
  function MdFiles(names: seq<string>): (r: seq<string>)
    ensures |r| <= |names|
    ensures forall n :: n in r <==> n in names && EndsWith(n, ".md")
    ensures Distinct(names) ==> Distinct(r)
  {
    if |names| == 0 then []
    else
      var tail := MdFiles(names[1..]);
      assert forall n :: n in names <==> n == names[0] || n in names[1..];
      if EndsWith(names[0], ".md") then
        assert Distinct(names) ==> names[0] !in names[1..];
        [names[0]] + tail
      else tail
  }

  /** The names matching `^\d{4}-\d{2}-\d{2}\.md$`, in listing order. */
  function DailyLogs(names: seq<string>): (r: seq<string>)
    ensures |r| <= |names|
    ensures forall n :: n in r <==> n in names && Layout.IsDailyLogName(n)
    ensures Distinct(names) ==> Distinct(r)
  {
    if |names| == 0 then []
    else
      var tail := DailyLogs(names[1..]);
      assert forall n :: n in names <==> n == names[0] || n in names[1..];
      if Layout.IsDailyLogName(names[0]) then
        assert Distinct(names) ==> names[0] !in names[1..];
        [names[0]] + tail
      else tail
  }

  /** The title and body indexing stores for a text. */
  datatype Doc = Doc(title: string, body: string)

  /** How a text's title and body are obtained. */
  type Extractor = string -> Doc

  /** `extractTitle` and `extractBody`. */
  function MarkdownDoc(content: string): Doc {
    Doc(Markdown.ExtractTitle(content), Markdown.ExtractBody(content))
  }

  /** What indexing takes from one file: its path, title, body, time and size. */
  datatype IndexEntry = IndexEntry(path: string, title: string, body: string, mtimeMs: int, size: nat)

  function EntryOf(d: MemDir, name: string, ex: Extractor): IndexEntry
    requires name in d.files
  {
    var f := d.files[name];
    IndexEntry(name, ex(f.content).title, ex(f.content).body, f.mtimeMs, f.size)
  }

  predicate DistinctEntryPaths(es: seq<IndexEntry>) {
    forall i, j :: 0 <= i < j < |es| ==> es[i].path != es[j].path
  }

  /** The names among `names` whose file has non-empty content, in the order of `names`. */
  function NonEmpty(d: MemDir, names: seq<string>): (r: seq<string>)
    requires forall n :: n in names ==> n in d.files
    ensures |r| <= |names|
    ensures forall n :: n in r <==> n in names && d.files[n].content != ""
    ensures Distinct(names) ==> Distinct(r)
  {
    if |names| == 0 then []
    else
      var tail := NonEmpty(d, names[1..]);
      assert forall n :: n in names <==> n == names[0] || n in names[1..];
      if d.files[names[0]].content == "" then tail
      else
        assert Distinct(names) ==> names[0] !in names[1..];
        [names[0]] + tail
  }

  /** One entry per name, in order. */
  function EntriesOf(d: MemDir, names: seq<string>, ex: Extractor): (r: seq<IndexEntry>)
    requires forall n :: n in names ==> n in d.files
    ensures |r| == |names| && forall i :: 0 <= i < |names| ==> r[i] == EntryOf(d, names[i], ex)
  {
    if |names| == 0 then [] else [EntryOf(d, names[0], ex)] + EntriesOf(d, names[1..], ex)
  }

  /** The entries of the files among `names` with non-empty content. */
  function Collect(d: MemDir, names: seq<string>, ex: Extractor): seq<IndexEntry>
    requires forall n :: n in names ==> n in d.files
  {
    EntriesOf(d, NonEmpty(d, names), ex)
  }

  /** The paths of the entries. */
  function Paths(es: seq<IndexEntry>): set<string> {
    set e | e in es :: e.path
  }

  /**
   * The collected entries are exactly those of the files with non-empty
   * content: their paths are those names, one entry each, and every entry is
   * the file's own.
   */
  lemma CollectSpec(d: MemDir, names: seq<string>, ex: Extractor)
    requires Distinct(names) && forall n :: n in names ==> n in d.files
    ensures var es := Collect(d, names, ex);
      Paths(es) == (set n | n in names && d.files[n].content != "") &&
      DistinctEntryPaths(es) &&
      forall i :: 0 <= i < |es| ==> es[i] == EntryOf(d, es[i].path, ex)
  {
    var ns := NonEmpty(d, names);
    var es := Collect(d, names, ex);
    assert forall i :: 0 <= i < |es| ==> es[i].path == ns[i];
    forall n | n in names && d.files[n].content != "" ensures n in Paths(es) {
      var i :| 0 <= i < |ns| && ns[i] == n;
      assert es[i].path == n;
    }
  }

  function Bodies(es: seq<IndexEntry>): (r: seq<string>)
    ensures |r| == |es| && forall i :: 0 <= i < |es| ==> r[i] == es[i].body
  {
    if |es| == 0 then [] else [es[0].body] + Bodies(es[1..])
  }

  /** The per-file results of `files` concatenated in order: a loop over the files pushing each one's. */
  function Gather<T>(files: seq<string>, per: string -> seq<T>): seq<T> {
    if |files| == 0 then []
    else Gather(files[..|files| - 1], per) + per(files[|files| - 1])
  }

  lemma GatherStep<T>(files: seq<string>, i: nat, per: string -> seq<T>)
    requires i < |files|
    ensures Gather(files[..i + 1], per) == Gather(files[..i], per) + per(files[i])
  {
    assert files[..i + 1][..i] == files[..i];
  }

  /** Gathering two runs of files one after the other. */
  lemma {:induction false} GatherAppend<T>(a: seq<string>, b: seq<string>, per: string -> seq<T>)
    ensures Gather(a + b, per) == Gather(a, per) + Gather(b, per)
    decreases |b|
  {
    if |b| == 0 {
      assert a + b == a;
    } else {
      var n := |b| - 1;
      assert (a + b)[..|a + b| - 1] == a + b[..n];
      GatherAppend(a, b[..n], per);
      assert (a + b)[|a + b| - 1] == b[n];
      assert Gather(a + b, per) == Gather(a, per) + Gather(b[..n], per) + per(b[n]);
    }
  }

  /** A result of one of the files is gathered. */
  lemma {:induction false} GatherHas<T>(files: seq<string>, per: string -> seq<T>, k: nat, x: T)
    requires k < |files| && x in per(files[k])
    ensures x in Gather(files, per)
  {
    var n := |files| - 1;
    var front := files[..n];
    var a, b := Gather(front, per), per(files[n]);
    assert Gather(files, per) == a + b;
    if k < n {
      assert front[k] == files[k];
      GatherHas(front, per, k, x);
      assert x in a;
    } else {
      assert x in b;
    }
    assert x in a + b;
  }

  /** A gathered result is a result of one of the files. */
  lemma {:induction false} GatherFrom<T>(files: seq<string>, per: string -> seq<T>, x: T)
    requires x in Gather(files, per)
    ensures exists k :: 0 <= k < |files| && x in per(files[k])
  {
    var n := |files| - 1;
    var front := files[..n];
    assert Gather(files, per) == Gather(front, per) + per(files[n]);
    if x in Gather(front, per) {
      GatherFrom(front, per, x);
      var k :| 0 <= k < n && x in per(front[k]);
      assert front[k] == files[k];
    } else {
      assert x in per(files[n]);
    }
  }

  /** A result is gathered exactly when it is a result of one of the files. */
  lemma GatherMembers<T>(files: seq<string>, per: string -> seq<T>, x: T)
    ensures x in Gather(files, per) <==> exists k :: 0 <= k < |files| && x in per(files[k])
  {
    if x in Gather(files, per) {
      GatherFrom(files, per, x);
    }
    forall k | 0 <= k < |files| && x in per(files[k]) ensures x in Gather(files, per) {
      GatherHas(files, per, k, x);
    }
  }

  /** Nothing is gathered exactly when every file has no result. */
  lemma {:induction false} GatherEmpty<T>(files: seq<string>, per: string -> seq<T>)
    ensures Gather(files, per) == [] <==> forall k :: 0 <= k < |files| ==> per(files[k]) == []
  {
    if |files| > 0 {
      var n := |files| - 1;
      var front := files[..n];
      GatherEmpty(front, per);
      assert forall k :: 0 <= k < n ==> front[k] == files[k];
    }
  }
}
