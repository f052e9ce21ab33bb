/**
 * `kex-mem reindex`: upsert every non-empty Markdown file of the memory
 * directory, one at a time and without embeddings, and report how many were
 * upserted. Nothing is ever removed.
 */
module Reindex {
  import opened Wrappers
  import opened Text
  import opened Db
  import opened Files
  import opened Indexer

  /** The store after a reindex: the upsert of every collected entry, in listing order. */
  function Reindexed(t: Tables, d: MemDir, ex: Extractor): Tables
    requires WellFormed(d)
  {
    UpsertPrefix(t, MdEntries(d, ex), None, |MdEntries(d, ex)|)
  }

  /** Upserting a prefix does not look past it. */
  lemma {:induction false} UpsertPrefixOfAppend(t: Tables, a: seq<IndexEntry>, b: seq<IndexEntry>, n: nat)
    requires n <= |a|
    ensures UpsertPrefix(t, a + b, None, n) == UpsertPrefix(t, a, None, n)
  {
    if n > 0 {
      UpsertPrefixOfAppend(t, a, b, n - 1);
      assert (a + b)[n - 1] == a[n - 1];
    }
  }

  /** The paths of a non-empty sequence: the first entry's and the rest's. */
  lemma PathsCons(es: seq<IndexEntry>)
    requires |es| > 0
    ensures Paths(es) == {es[0].path} + Paths(es[1..])
  {
    assert forall e :: e in es <==> e == es[0] || e in es[1..];
  }

  /** Entries with distinct paths have as many paths as entries. */
  lemma {:induction false} PathsCount(es: seq<IndexEntry>)
    requires DistinctEntryPaths(es)
    ensures |Paths(es)| == |es|
  {
    if |es| > 0 {
      var rest := es[1..];
      assert DistinctEntryPaths(rest) by {
        assert forall i :: 0 <= i < |rest| ==> rest[i] == es[i + 1];
      }
      PathsCount(rest);
      PathsCons(es);
      assert es[0].path !in Paths(rest) by {
        forall e | e in rest ensures e.path != es[0].path {
          var j :| 0 <= j < |rest| && rest[j] == e;
          assert es[j + 1] == e;
        }
      }
    }
  }

  /** One step of the loop: a non-empty file's entry is upserted last, an empty one adds nothing. */
  lemma ReindexStep(t: Tables, d: MemDir, ex: Extractor, files: seq<string>, i: nat)
    requires i < |files| && forall n :: n in files ==> n in d.files
    ensures var c, c1 := Collect(d, files[..i], ex), Collect(d, files[..i + 1], ex);
      if d.files[files[i]].content != "" then
        |c1| == |c| + 1 &&
        UpsertPrefix(t, c1, None, |c1|) == UpsertEntry(UpsertPrefix(t, c, None, |c|), EntryOf(d, files[i], ex), None)
      else c1 == c
  {
    CollectStep(d, ex, files, i);
    var c := Collect(d, files[..i], ex);
    if d.files[files[i]].content != "" {
      UpsertPrefixOfAppend(t, c, [EntryOf(d, files[i], ex)], |c|);
    }
  }

  /**
   * The loop of `reindexCommand`: each non-empty Markdown file is upserted as
   * it is read, and counted.
   */
  method ReindexCommand(store: Store, d: MemDir) returns (count: nat, msg: string)
    requires WellFormed(d)
    modifies store
    ensures store.State() == Reindexed(old(store.State()), d, MarkdownDoc)
    ensures count == |MdEntries(d, MarkdownDoc)|
    ensures msg == "Indexed " + NatToString(count) + " files."
  {
    ghost var t0 := store.State();
    var files := MdFiles(d.listing);
    count := 0;
    var i := 0;
    while i < |files|
      invariant 0 <= i <= |files|
      invariant count == |Collect(d, files[..i], MarkdownDoc)|
      invariant store.State() == UpsertPrefix(t0, Collect(d, files[..i], MarkdownDoc), None, count)
    {
      count := ReindexFile(store, t0, d, MarkdownDoc, files, i, count);
      i := i + 1;
    }
    assert files[..i] == files;
    msg := "Indexed " + NatToString(count) + " files.";
  }

  /** One pass of the loop of `reindexCommand`: upsert and count the next file when it is not empty. */
  method ReindexFile(store: Store, ghost t0: Tables, d: MemDir, ex: Extractor, files: seq<string>, i: nat, count: nat)
    returns (count1: nat)
    requires WellFormed(d) && files == MdFiles(d.listing) && i < |files|
    requires count == |Collect(d, files[..i], ex)|
    requires store.State() == UpsertPrefix(t0, Collect(d, files[..i], ex), None, count)
    modifies store
    ensures count1 == |Collect(d, files[..i + 1], ex)|
    ensures store.State() == UpsertPrefix(t0, Collect(d, files[..i + 1], ex), None, count1)
  {
    var file := files[i];
    ReindexStep(t0, d, ex, files, i);
    var content := ReadMarkdown(d, file);
    count1 := count;
    if content != "" {
      var e := EntryOf(d, file, ex);
      store.Upsert(file, e.title, e.body, e.mtimeMs, e.size, None);
      count1 := count + 1;
    }
  }

  /**
   * The count is the number of non-empty Markdown files, whether or not the
   * store already had them up to date.
   */
  lemma ReindexCount(d: MemDir, ex: Extractor)
    requires WellFormed(d)
    ensures |MdEntries(d, ex)| == |NonEmptyMd(d)|
  {
    var es := MdEntries(d, ex);
    CollectSpec(d, MdFiles(d.listing), ex);
    assert Paths(es) == NonEmptyMd(d);
    PathsCount(es);
  }

  /** A reindex only adds: the indexed paths become the old ones and the non-empty Markdown files. */
  lemma ReindexKeys(t: Tables, d: MemDir, ex: Extractor)
    requires WellFormed(d)
    ensures Reindexed(t, d, ex).meta.Keys == t.meta.Keys + NonEmptyMd(d)
  {
    var es := MdEntries(d, ex);
    CollectSpec(d, MdFiles(d.listing), ex);
    UpsertPrefixKeys(t, es, None, |es|);
    assert es[..|es|] == es;
  }

  /** A file that is not a non-empty Markdown file keeps whatever the store held for it. */
  lemma ReindexSkips(t: Tables, d: MemDir, ex: Extractor, n: string)
    requires WellFormed(d) && n !in NonEmptyMd(d)
    ensures SameFor(Reindexed(t, d, ex), t, n)
  {
    var es := MdEntries(d, ex);
    CollectSpec(d, MdFiles(d.listing), ex);
    assert forall j :: 0 <= j < |es| ==> es[j].path in Paths(es);
    UpsertRangeFrame(t, es, None, 0, |es|, n);
  }

  /** Reindexing an unchanged directory a second time leaves the store as the first run left it. */
  lemma ReindexIdempotent(t: Tables, d: MemDir, ex: Extractor)
    requires WellFormed(d)
    ensures Reindexed(Reindexed(t, d, ex), d, ex) == Reindexed(t, d, ex)
  {
    CollectSpec(d, MdFiles(d.listing), ex);
    UpsertPrefixIdempotent(t, MdEntries(d, ex), None, None);
  }

  /**
   * A non-empty Markdown file that is newer than what the store holds (or
   * not held at all) replaces its stored meta and row with the file's own
   * title and body.
   */
  lemma ReindexReplaces(t: Tables, d: MemDir, ex: Extractor, n: string)
    requires WellFormed(d) && n in NonEmptyMd(d) && !UpToDate(t, n, d.files[n].mtimeMs)
    ensures var u, f := Reindexed(t, d, ex), d.files[n];
      n in u.meta && u.meta[n] == FileMeta(f.mtimeMs, f.size) &&
      RowsFor(u.rows, n) == [FtsRow(n, ex(f.content).title, ex(f.content).body)]
  {
    var es := MdEntries(d, ex);
    CollectSpec(d, MdFiles(d.listing), ex);
    assert n in Paths(es);
    var i :| 0 <= i < |es| && es[i].path == n;
    UpsertPrefixAccepted(t, es, None, |es|, i);
  }

  /** Reindexing keeps the store's invariant. */
  lemma ReindexConsistent(t: Tables, d: MemDir, ex: Extractor)
    requires WellFormed(d) && Consistent(t)
    ensures Consistent(Reindexed(t, d, ex))
  {
    UpsertPrefixConsistent(t, MdEntries(d, ex), None, |MdEntries(d, ex)|);
  }
}
