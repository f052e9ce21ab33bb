/**
 * `kex-mem index`: one file, a full rebuild, or the incremental update that
 * compares the store with the directory. The embedder's batch call is a
 * parameter.
 */
module Indexer {
  import opened Wrappers
  import opened Text
  import opened JsonValues
  import opened Db
  import opened Files
  import ConfigStore
  import Embedder

  /** A batch embedding call: one vector per text, or an error. */
  type EmbedFn = seq<string> -> Result<seq<Vector>, string>

  /** `embeddings ? embeddings[i] : undefined`. */
  function EmbAt(embs: Option<seq<Vector>>, i: nat): Option<Vector> {
    if embs.Some? && i < |embs.value| then Some(embs.value[i]) else None
  }

  /** The upsert of one entry. */
  function UpsertEntry(t: Tables, e: IndexEntry, emb: Option<Vector>): Tables {
    Upserted(t, e.path, e.title, e.body, e.mtimeMs, e.size, emb)
  }

  /** The store after upserting the first `n` entries in order, entry `i` with embedding `EmbAt(embs, i)`. */
  function UpsertPrefix(t: Tables, es: seq<IndexEntry>, embs: Option<seq<Vector>>, n: nat): Tables
    requires n <= |es|
  {
    if n == 0 then t else UpsertEntry(UpsertPrefix(t, es, embs, n - 1), es[n - 1], EmbAt(embs, n - 1))
  }

  /** Everything stored for `q` is the same in `a` and `b`. */
  predicate SameFor(a: Tables, b: Tables, q: string) {
    RowsFor(a.rows, q) == RowsFor(b.rows, q) &&
    (q in a.meta <==> q in b.meta) && (q in a.meta ==> a.meta[q] == b.meta[q]) &&
    (q in a.vec <==> q in b.vec) && (q in a.vec ==> a.vec[q] == b.vec[q])
  }

  /** Upserting entries whose paths differ from `q` leaves `q` alone. */
  lemma {:induction false} UpsertRangeFrame(t: Tables, es: seq<IndexEntry>, embs: Option<seq<Vector>>, m: nat, n: nat, q: string)
    requires m <= n <= |es|
    requires forall j :: m <= j < n ==> es[j].path != q
    ensures SameFor(UpsertPrefix(t, es, embs, n), UpsertPrefix(t, es, embs, m), q)
    decreases n
  {
    if n > m {
      UpsertRangeFrame(t, es, embs, m, n - 1, q);
      var e := es[n - 1];
      UpsertFrame(UpsertPrefix(t, es, embs, n - 1), e.path, e.title, e.body, e.mtimeMs, e.size, EmbAt(embs, n - 1), q);
    }
  }

  /** The fold keeps the store's invariant. */
  lemma {:induction false} UpsertPrefixConsistent(t: Tables, es: seq<IndexEntry>, embs: Option<seq<Vector>>, n: nat)
    requires n <= |es| && Consistent(t)
    ensures Consistent(UpsertPrefix(t, es, embs, n))
  {
    if n > 0 {
      UpsertPrefixConsistent(t, es, embs, n - 1);
      var e := es[n - 1];
      UpsertConsistent(UpsertPrefix(t, es, embs, n - 1), e.path, e.title, e.body, e.mtimeMs, e.size, EmbAt(embs, n - 1));
    }
  }

  /** Upserts only add paths: the meta keys become the old ones and the entries' paths. */
  lemma {:induction false} UpsertPrefixKeys(t: Tables, es: seq<IndexEntry>, embs: Option<seq<Vector>>, n: nat)
    requires n <= |es|
    ensures UpsertPrefix(t, es, embs, n).meta.Keys == t.meta.Keys + Paths(es[..n])
  {
    if n > 0 {
      UpsertPrefixKeys(t, es, embs, n - 1);
      assert es[..n] == es[..n - 1] + [es[n - 1]];
      assert Paths(es[..n]) == Paths(es[..n - 1]) + {es[n - 1].path} by {
        assert forall e :: e in es[..n] <==> e in es[..n - 1] || e == es[n - 1];
      }
    }
  }

  /**
   * An entry whose stored meta is older (or absent) is accepted: afterwards
   * its path has the new meta, exactly the new row, and the embedding given
   * for it.
   */
  lemma UpsertPrefixAccepted(t: Tables, es: seq<IndexEntry>, embs: Option<seq<Vector>>, n: nat, i: nat)
    requires DistinctEntryPaths(es) && i < n <= |es|
    requires !UpToDate(t, es[i].path, es[i].mtimeMs)
    ensures var u, e := UpsertPrefix(t, es, embs, n), es[i];
      e.path in u.meta && u.meta[e.path] == FileMeta(e.mtimeMs, e.size) &&
      RowsFor(u.rows, e.path) == [FtsRow(e.path, e.title, e.body)] &&
      (EmbAt(embs, i).Some? ==> e.path in u.vec && u.vec[e.path] == EmbAt(embs, i).value)
  {
    var e := es[i];
    UpsertRangeFrame(t, es, embs, 0, i, e.path);
    var before := UpsertPrefix(t, es, embs, i);
    assert !UpToDate(before, e.path, e.mtimeMs);
    UpsertEffect(before, e.path, e.title, e.body, e.mtimeMs, e.size, EmbAt(embs, i));
    UpsertRangeFrame(t, es, embs, i + 1, n, e.path);
  }

  /** After the fold every entry's path is stored at least as new as the entry. */
  lemma UpsertPrefixUpToDate(t: Tables, es: seq<IndexEntry>, embs: Option<seq<Vector>>, n: nat, i: nat)
    requires DistinctEntryPaths(es) && i < n <= |es|
    ensures UpToDate(UpsertPrefix(t, es, embs, n), es[i].path, es[i].mtimeMs)
  {
    var e := es[i];
    var before := UpsertPrefix(t, es, embs, i);
    UpsertEffect(before, e.path, e.title, e.body, e.mtimeMs, e.size, EmbAt(embs, i));
    UpsertRangeFrame(t, es, embs, i + 1, n, e.path);
  }

  /** Upserting entries that are all up to date in `u` leaves `u` as it is. */
  lemma {:induction false} UpsertPrefixNoop(u: Tables, es: seq<IndexEntry>, embs: Option<seq<Vector>>, n: nat)
    requires n <= |es| && forall i :: 0 <= i < n ==> UpToDate(u, es[i].path, es[i].mtimeMs)
    ensures UpsertPrefix(u, es, embs, n) == u
  {
    if n > 0 {
      UpsertPrefixNoop(u, es, embs, n - 1);
    }
  }

  /** Folding the same entries a second time changes nothing, whatever embeddings come with them. */
  lemma UpsertPrefixIdempotent(t: Tables, es: seq<IndexEntry>, embs: Option<seq<Vector>>, embs2: Option<seq<Vector>>)
    requires DistinctEntryPaths(es)
    ensures UpsertPrefix(UpsertPrefix(t, es, embs, |es|), es, embs2, |es|) == UpsertPrefix(t, es, embs, |es|)
  {
    var u := UpsertPrefix(t, es, embs, |es|);
    forall i | 0 <= i < |es| ensures UpToDate(u, es[i].path, es[i].mtimeMs) {
      UpsertPrefixUpToDate(t, es, embs, |es|, i);
    }
    UpsertPrefixNoop(u, es, embs2, |es|);
  }

  // ----- embedder selection

  /** `useVec`: the vector table exists and the settings enable it. */
  function UseVec(vecEnabled: bool, cfg: ConfigStore.VectorConfig): bool {
    vecEnabled && Truthy(cfg.enabled)
  }

  /** An embedder is used when vectors are in use and one could be created. */
  function HasEmbedder(vecEnabled: bool, cfg: ConfigStore.VectorConfig, envKey: Option<string>): (b: bool)
    ensures b <==> UseVec(vecEnabled, cfg) && Embedder.CreateEmbedder(cfg.provider, cfg.openaiKey, envKey).Success?
  {
    UseVec(vecEnabled, cfg) && Embedder.CreateEmbedder(cfg.provider, cfg.openaiKey, envKey).Success?
  }

  /** The embeddings of a batch: present only when there is an embedder, the batch is non-empty and the call succeeds. */
  function BatchEmbeddings(hasEmbedder: bool, embed: EmbedFn, es: seq<IndexEntry>): (r: Option<seq<Vector>>)
    ensures r.Some? <==> hasEmbedder && |es| > 0 && embed(Bodies(es)).Success?
    ensures r.Some? ==> r.value == embed(Bodies(es)).value
  {
    if hasEmbedder && |es| > 0 then
      var res := embed(Bodies(es));
      if res.Success? then Some(res.value) else None
    else None
  }

  // ----- single-file mode

  /** The file is missing or empty, so single-file mode removes it. */
  predicate Vanished(d: MemDir, path: string) {
    path !in d.files || d.files[path].content == ""
  }

  /** The embedding of one body: the first vector of a successful call. */
  function SingleEmbedding(hasEmbedder: bool, embed: EmbedFn, body: string): Option<Vector> {
    if !hasEmbedder then None
    else
      var res := embed([body]);
      if res.Success? && |res.value| > 0 then Some(res.value[0]) else None
  }

  function SingleFile(t: Tables, d: MemDir, ex: Extractor, path: string, vecEnabled: bool, emb: Option<Vector>): Tables {
    if Vanished(d, path) then Removed(t, path, vecEnabled)
    else UpsertEntry(t, EntryOf(d, path, ex), emb)
  }

  /**
   * Single-file mode touches only its path: a missing or empty file loses
   * its rows and meta; otherwise an older-or-absent entry is replaced by the
   * file's, and an up-to-date one kept. Every other path is unchanged, and
   * the store's invariant holds after.
   */
  lemma SingleFileEffect(t: Tables, d: MemDir, ex: Extractor, path: string, vecEnabled: bool, emb: Option<Vector>, q: string)
    ensures var u := SingleFile(t, d, ex, path, vecEnabled, emb);
      (q != path ==> SameFor(u, t, q)) &&
      (Vanished(d, path) ==> path !in u.meta && RowsFor(u.rows, path) == []) &&
      (!Vanished(d, path) && !UpToDate(t, path, d.files[path].mtimeMs) ==>
        u.meta[path] == FileMeta(d.files[path].mtimeMs, d.files[path].size) &&
        RowsFor(u.rows, path) == [FtsRow(path, EntryOf(d, path, ex).title, EntryOf(d, path, ex).body)]) &&
      (!Vanished(d, path) && UpToDate(t, path, d.files[path].mtimeMs) ==> u == t) &&
      (Consistent(t) ==> Consistent(u))
  {
    if Vanished(d, path) {
      RemoveEffect(t, {path}, vecEnabled, q);
      RowsForDropped(t.rows, {path}, path);
    } else {
      var e := EntryOf(d, path, ex);
      UpsertEffect(t, path, e.title, e.body, e.mtimeMs, e.size, emb);
      if Consistent(t) {
        UpsertConsistent(t, path, e.title, e.body, e.mtimeMs, e.size, emb);
      }
      if q != path {
        UpsertFrame(t, path, e.title, e.body, e.mtimeMs, e.size, emb, q);
      }
    }
  }

  method IndexSingle(store: Store, d: MemDir, ex: Extractor, path: string, vecEnabled: bool, hasEmbedder: bool, embed: EmbedFn) returns (msg: string)
    modifies store
    ensures store.State() == SingleFile(old(store.State()), d, ex, path, vecEnabled,
      if Vanished(d, path) then None else SingleEmbedding(hasEmbedder, embed, EntryOf(d, path, ex).body))
    ensures msg == if Vanished(d, path) then "Removed " + path + " from index." else "Indexed " + path
  {
    if path !in d.files {
      store.Remove(path, vecEnabled);
      return "Removed " + path + " from index.";
    }
    var content := ReadMarkdown(d, path);
    if content == "" {
      store.Remove(path, vecEnabled);
      return "Removed " + path + " from index.";
    }
    var e := EntryOf(d, path, ex);
    var emb: Option<Vector> := None;
    if hasEmbedder {
      var batch := embed([e.body]);
      if batch.Success? && |batch.value| > 0 {
        emb := Some(batch.value[0]);
      }
    }
    store.Upsert(path, e.title, e.body, e.mtimeMs, e.size, emb);
    msg := "Indexed " + path;
  }

  // ----- collecting entries

  lemma {:induction false} NonEmptyAppend(d: MemDir, a: seq<string>, b: seq<string>)
    requires forall n :: n in a + b ==> n in d.files
    ensures NonEmpty(d, a + b) == NonEmpty(d, a) + NonEmpty(d, b)
  {
    if |a| == 0 {
      assert a + b == b;
    } else {
      assert (a + b)[0] == a[0] && (a + b)[1..] == a[1..] + b;
      NonEmptyAppend(d, a[1..], b);
      if d.files[a[0]].content != "" {
        assert [a[0]] + (NonEmpty(d, a[1..]) + NonEmpty(d, b)) == ([a[0]] + NonEmpty(d, a[1..])) + NonEmpty(d, b);
      }
    }
  }

  lemma {:induction false} EntriesOfAppend(d: MemDir, ex: Extractor, a: seq<string>, b: seq<string>)
    requires forall n :: n in a + b ==> n in d.files
    ensures EntriesOf(d, a + b, ex) == EntriesOf(d, a, ex) + EntriesOf(d, b, ex)
  {
    assert forall n :: n in a ==> n in a + b;
    assert forall n :: n in b ==> n in a + b;
    var l, x, y := EntriesOf(d, a + b, ex), EntriesOf(d, a, ex), EntriesOf(d, b, ex);
    forall i | 0 <= i < |l| ensures l[i] == (x + y)[i] {
      if i < |a| {
        assert (a + b)[i] == a[i];
      } else {
        assert (a + b)[i] == b[i - |a|];
      }
    }
  }

  /** Collecting one more file adds its entry exactly when it is non-empty. */
  lemma CollectStep(d: MemDir, ex: Extractor, files: seq<string>, i: nat)
    requires i < |files| && forall n :: n in files ==> n in d.files
    ensures Collect(d, files[..i + 1], ex) ==
      Collect(d, files[..i], ex) + (if d.files[files[i]].content != "" then [EntryOf(d, files[i], ex)] else [])
  {
    var front, f := files[..i], files[i];
    assert files[..i + 1] == front + [f];
    assert f in files;
    assert forall n :: n in front + [f] ==> n in d.files;
    NonEmptyAppend(d, front, [f]);
    CollectOne(d, ex, f);
    EntriesOfAppend(d, ex, NonEmpty(d, front), NonEmpty(d, [f]));
  }

  lemma CollectOne(d: MemDir, ex: Extractor, f: string)
    requires f in d.files
    ensures EntriesOf(d, NonEmpty(d, [f]), ex) == if d.files[f].content != "" then [EntryOf(d, f, ex)] else []
  {
    assert [f][1..] == [];
  }

  /** The entries of the non-empty files among `files`, collected in a loop over them. */
  method CollectEntries(d: MemDir, ex: Extractor, files: seq<string>) returns (entries: seq<IndexEntry>)
    requires forall n :: n in files ==> n in d.files
    ensures entries == Collect(d, files, ex)
  {
    entries := [];
    var i := 0;
    while i < |files|
      invariant 0 <= i <= |files|
      invariant entries == Collect(d, files[..i], ex)
    {
      var f := files[i];
      CollectStep(d, ex, files, i);
      var content := ReadMarkdown(d, f);
      if content != "" {
        entries := entries + [EntryOf(d, f, ex)];
      }
      i := i + 1;
    }
    assert files[..i] == files;
  }

  /** The upsert loop over the collected entries, entry `i` with embedding `EmbAt(embs, i)`. */
  method UpsertEntries(store: Store, es: seq<IndexEntry>, embs: Option<seq<Vector>>)
    modifies store
    ensures store.State() == UpsertPrefix(old(store.State()), es, embs, |es|)
  {
    var i := 0;
    while i < |es|
      invariant 0 <= i <= |es|
      invariant store.State() == UpsertPrefix(old(store.State()), es, embs, i)
    {
      var e := es[i];
      store.Upsert(e.path, e.title, e.body, e.mtimeMs, e.size, EmbAt(embs, i));
      i := i + 1;
    }
  }

  // ----- full rebuild

  /** The entries of every non-empty Markdown file, in listing order. */
  function MdEntries(d: MemDir, ex: Extractor): seq<IndexEntry>
    requires WellFormed(d)
  {
    Collect(d, MdFiles(d.listing), ex)
  }

  function FullRebuilt(t: Tables, d: MemDir, ex: Extractor, useVec: bool, embs: Option<seq<Vector>>): Tables
    requires WellFormed(d)
  {
    UpsertPrefix(Cleared(t, useVec), MdEntries(d, ex), embs, |MdEntries(d, ex)|)
  }

  /** The names of the Markdown files with non-empty content. */
  function NonEmptyMd(d: MemDir): set<string>
    requires WellFormed(d)
  {
    set n | n in d.listing && EndsWith(n, ".md") && d.files[n].content != ""
  }

  /**
   * After a full rebuild the indexed paths are exactly the non-empty
   * Markdown files, each with its file's meta and one row of its title and
   * body, and its embedding when one was computed; the invariant holds.
   */
  lemma FullRebuildSpec(t: Tables, d: MemDir, ex: Extractor, useVec: bool, embs: Option<seq<Vector>>)
    requires WellFormed(d)
    ensures var u, es := FullRebuilt(t, d, ex, useVec, embs), MdEntries(d, ex);
      u.meta.Keys == NonEmptyMd(d) && Consistent(u) &&
      forall i :: 0 <= i < |es| ==>
        u.meta[es[i].path] == FileMeta(es[i].mtimeMs, es[i].size) &&
        RowsFor(u.rows, es[i].path) == [FtsRow(es[i].path, es[i].title, es[i].body)] &&
        (EmbAt(embs, i).Some? ==> es[i].path in u.vec && u.vec[es[i].path] == EmbAt(embs, i).value)
  {
    var es := MdEntries(d, ex);
    var c := Cleared(t, useVec);
    var files := MdFiles(d.listing);
    CollectSpec(d, files, ex);
    UpsertPrefixKeys(c, es, embs, |es|);
    assert es[..|es|] == es;
    assert Paths(es) == NonEmptyMd(d);
    assert Consistent(c) by {
      assert RowPaths(c.rows) == {};
    }
    UpsertPrefixConsistent(c, es, embs, |es|);
    forall i | 0 <= i < |es|
      ensures var u := FullRebuilt(t, d, ex, useVec, embs);
        u.meta[es[i].path] == FileMeta(es[i].mtimeMs, es[i].size) &&
        RowsFor(u.rows, es[i].path) == [FtsRow(es[i].path, es[i].title, es[i].body)] &&
        (EmbAt(embs, i).Some? ==> es[i].path in u.vec && u.vec[es[i].path] == EmbAt(embs, i).value)
    {
      UpsertPrefixAccepted(c, es, embs, |es|, i);
    }
  }

  method FullRebuild(store: Store, d: MemDir, ex: Extractor, useVec: bool, hasEmbedder: bool, embed: EmbedFn) returns (count: nat, msg: string)
    requires WellFormed(d)
    modifies store
    ensures store.State() == FullRebuilt(old(store.State()), d, ex, useVec, BatchEmbeddings(hasEmbedder, embed, MdEntries(d, ex)))
    ensures count == |MdEntries(d, ex)|
    ensures msg == "Indexed " + NatToString(count) + " files (full rebuild)."
  {
    store.Clear(useVec);
    var files := MdFiles(d.listing);
    var entries := CollectEntries(d, ex, files);
    var embs: Option<seq<Vector>> := None;
    if hasEmbedder && |entries| > 0 {
      var res := embed(Bodies(entries));
      if res.Success? {
        embs := Some(res.value);
      }
    }
    UpsertEntries(store, entries, embs);
    count := |entries|;
    msg := "Indexed " + NatToString(count) + " files (full rebuild).";
  }

  // ----- incremental mode

  /** The file's stored entry is not at least as new as the file, and the file is not empty. */
  predicate IsChanged(t: Tables, d: MemDir, n: string)
    requires n in d.files
  {
    !UpToDate(t, n, d.files[n].mtimeMs) && d.files[n].content != ""
  }

  /** The changed files among `names`, in their order. */
  function ChangedNames(t: Tables, d: MemDir, names: seq<string>): (r: seq<string>)
    requires forall n :: n in names ==> n in d.files
    ensures |r| <= |names|
    ensures forall n :: n in r <==> n in names && IsChanged(t, d, n)
    ensures Distinct(names) ==> Distinct(r)
  {
    if |names| == 0 then []
    else
      var tail := ChangedNames(t, d, names[1..]);
      assert forall n :: n in names <==> n == names[0] || n in names[1..];
      if IsChanged(t, d, names[0]) then
        assert Distinct(names) ==> names[0] !in names[1..];
        [names[0]] + tail
      else tail
  }

  lemma {:induction false} ChangedNamesAppend(t: Tables, d: MemDir, a: seq<string>, b: seq<string>)
    requires forall n :: n in a + b ==> n in d.files
    ensures ChangedNames(t, d, a + b) == ChangedNames(t, d, a) + ChangedNames(t, d, b)
  {
    if |a| == 0 {
      assert a + b == b;
    } else {
      assert (a + b)[0] == a[0] && (a + b)[1..] == a[1..] + b;
      ChangedNamesAppend(t, d, a[1..], b);
      if IsChanged(t, d, a[0]) {
        assert [a[0]] + (ChangedNames(t, d, a[1..]) + ChangedNames(t, d, b)) == ([a[0]] + ChangedNames(t, d, a[1..])) + ChangedNames(t, d, b);
      }
    }
  }

  function Changed(t: Tables, d: MemDir, ex: Extractor, names: seq<string>): seq<IndexEntry>
    requires forall n :: n in names ==> n in d.files
  {
    EntriesOf(d, ChangedNames(t, d, names), ex)
  }

  /** Looking at one more file adds its entry exactly when it is changed. */
  lemma ChangedStep(t: Tables, d: MemDir, ex: Extractor, files: seq<string>, i: nat)
    requires i < |files| && forall n :: n in files ==> n in d.files
    ensures Changed(t, d, ex, files[..i + 1]) ==
      Changed(t, d, ex, files[..i]) + (if IsChanged(t, d, files[i]) then [EntryOf(d, files[i], ex)] else [])
  {
    var front, f := files[..i], files[i];
    assert files[..i + 1] == front + [f];
    assert f in files;
    assert forall n :: n in front + [f] ==> n in d.files;
    ChangedNamesAppend(t, d, front, [f]);
    ChangedOne(t, d, ex, f);
    EntriesOfAppend(d, ex, ChangedNames(t, d, front), ChangedNames(t, d, [f]));
  }

  lemma ChangedOne(t: Tables, d: MemDir, ex: Extractor, f: string)
    requires f in d.files
    ensures EntriesOf(d, ChangedNames(t, d, [f]), ex) == if IsChanged(t, d, f) then [EntryOf(d, f, ex)] else []
  {
    assert [f][1..] == [];
  }

  /**
   * The second loop of incremental mode: every file is counted once, as
   * skipped (up to date, or empty) or as changed.
   */
  method CollectChanged(store: Store, d: MemDir, ex: Extractor, files: seq<string>) returns (changed: seq<IndexEntry>, skipped: nat)
    requires forall n :: n in files ==> n in d.files
    ensures changed == Changed(store.State(), d, ex, files)
    ensures skipped + |changed| == |files|
  {
    changed := [];
    skipped := 0;
    var i := 0;
    while i < |files|
      invariant 0 <= i <= |files|
      invariant changed == Changed(store.State(), d, ex, files[..i])
      invariant skipped + |changed| == i
    {
      var f := files[i];
      ChangedStep(store.State(), d, ex, files, i);
      var info := d.files[f];
      var meta := store.GetFileMeta(f);
      if meta.Some? && meta.value.mtimeMs >= info.mtimeMs {
        skipped := skipped + 1;
      } else {
        var content := ReadMarkdown(d, f);
        if content == "" {
          skipped := skipped + 1;
        } else {
          changed := changed + [EntryOf(d, f, ex)];
        }
      }
      i := i + 1;
    }
    assert files[..i] == files;
  }

  /** The first loop of incremental mode: every indexed path that is not a Markdown file on disk is removed. */
  method RemoveDeleted(store: Store, disk: set<string>, vecEnabled: bool) returns (removed: nat)
    modifies store
    ensures store.State() == RemovedAll(old(store.State()), old(store.meta.Keys) - disk, vecEnabled)
    ensures removed == |old(store.meta.Keys) - disk|
  {
    ghost var t0 := store.State();
    var indexed := store.meta.Keys;
    var todo := indexed;
    ghost var gone: set<string> := {};
    removed := 0;
    RemoveNothing(t0, vecEnabled);
    while todo != {}
      invariant todo <= indexed
      invariant gone == (indexed - todo) - disk
      invariant store.State() == RemovedAll(t0, gone, vecEnabled)
      invariant removed == |gone|
      decreases |todo|
    {
      var fp :| fp in todo;
      PendingStep(indexed, todo, disk, gone, fp);
      if fp !in disk {
        RemoveOne(store, t0, gone, fp, vecEnabled);
        gone := gone + {fp};
        removed := removed + 1;
      }
      todo := todo - {fp};
    }
  }

  /** One deletion of the loop: the store then lacks one more path. */
  method RemoveOne(store: Store, ghost t0: Tables, ghost gone: set<string>, fp: string, vecEnabled: bool)
    requires store.State() == RemovedAll(t0, gone, vecEnabled)
    modifies store
    ensures store.State() == RemovedAll(t0, gone + {fp}, vecEnabled)
  {
    RemoveTwice(t0, gone, fp, vecEnabled);
    store.Remove(fp, vecEnabled);
  }

  /** Taking `fp` off the paths still to look at adds it to the removed ones exactly when it is not on disk. */
  lemma PendingStep(indexed: set<string>, todo: set<string>, disk: set<string>, gone: set<string>, fp: string)
    requires fp in todo && todo <= indexed && gone == (indexed - todo) - disk
    ensures fp !in disk ==> fp !in gone && gone + {fp} == (indexed - (todo - {fp})) - disk
    ensures fp in disk ==> gone == (indexed - (todo - {fp})) - disk
  {
  }

  /** The summary line of incremental mode: the count, then the non-zero skip and removal counts. */
  function SummaryLine(n: nat, skipped: nat, removed: nat): string {
    var parts := [SummaryHead(n)] +
      (if skipped > 0 then [NatToString(skipped) + " skipped"] else []) +
      (if removed > 0 then [NatToString(removed) + " removed"] else []);
    if |parts| == 1 then parts[0] + "." else parts[0] + " (" + JoinWith(parts[1..], ", ") + ")."
  }

  /** The four shapes of the summary: "Indexed n files." or, with non-zero counts, e.g. "Indexed n files (k skipped, r removed).". */
  lemma SummaryLineCases(n: nat, skipped: nat, removed: nat)
    ensures var r, c := SummaryLine(n, skipped, removed), SummaryHead(n);
      c == "Indexed " + NatToString(n) + " files" &&
      (skipped == 0 && removed == 0 ==> r == c + ".") &&
      (skipped > 0 && removed == 0 ==> r == c + " (" + NatToString(skipped) + " skipped).") &&
      (skipped == 0 && removed > 0 ==> r == c + " (" + NatToString(removed) + " removed).") &&
      (skipped > 0 && removed > 0 ==> r == c + " (" + NatToString(skipped) + " skipped, " + NatToString(removed) + " removed).")
  {
    if skipped > 0 && removed > 0 {
      SummaryBoth(n, skipped, removed);
    } else if skipped > 0 {
      SummaryOne(n, skipped, removed);
    } else if removed > 0 {
      SummaryOne(n, skipped, removed);
    } else {
      assert [SummaryHead(n)] + [] + [] == [SummaryHead(n)];
    }
  }

  function SummaryHead(n: nat): string {
    "Indexed " + NatToString(n) + " files"
  }

  lemma SummaryBoth(n: nat, skipped: nat, removed: nat)
    requires skipped > 0 && removed > 0
    ensures SummaryLine(n, skipped, removed) ==
      SummaryHead(n) + " (" + NatToString(skipped) + " skipped, " + NatToString(removed) + " removed)."
  {
    var a, b, c := SummaryHead(n), NatToString(skipped) + " skipped", NatToString(removed) + " removed";
    var parts := [a] + [b] + [c];
    assert parts[0] == a && parts[1..] == [b, c] && [b, c][1..] == [c];
    assert JoinWith([b, c], ", ") == b + ", " + c;
  }

  /** Exactly one of the two counts is non-zero. */
  lemma SummaryOne(n: nat, skipped: nat, removed: nat)
    requires (skipped > 0) != (removed > 0)
    ensures skipped > 0 ==> SummaryLine(n, skipped, removed) == SummaryHead(n) + " (" + NatToString(skipped) + " skipped)."
    ensures removed > 0 ==> SummaryLine(n, skipped, removed) == SummaryHead(n) + " (" + NatToString(removed) + " removed)."
  {
    var a := SummaryHead(n);
    if skipped > 0 {
      var b := NatToString(skipped) + " skipped";
      assert ([a] + [b] + [])[1..] == [b];
    } else {
      var c := NatToString(removed) + " removed";
      assert ([a] + [] + [c])[1..] == [c];
    }
  }

  /** The Markdown files on disk, as a set of paths. */
  function DiskSet(d: MemDir): set<string> {
    set n | n in MdFiles(d.listing)
  }

  /** The store once the deleted paths are gone. */
  function AfterRemoval(t: Tables, d: MemDir, vecEnabled: bool): Tables {
    RemovedAll(t, t.meta.Keys - DiskSet(d), vecEnabled)
  }

  function IncrementalChanged(t: Tables, d: MemDir, ex: Extractor, vecEnabled: bool): seq<IndexEntry>
    requires WellFormed(d)
  {
    Changed(AfterRemoval(t, d, vecEnabled), d, ex, MdFiles(d.listing))
  }

  function Incremental(t: Tables, d: MemDir, ex: Extractor, vecEnabled: bool, embs: Option<seq<Vector>>): Tables
    requires WellFormed(d)
  {
    var ch := IncrementalChanged(t, d, ex, vecEnabled);
    UpsertPrefix(AfterRemoval(t, d, vecEnabled), ch, embs, |ch|)
  }

  /** The line the incremental run prints: changed files, then the skipped and the removed ones. */
  function IncrementalSummary(t: Tables, d: MemDir, ex: Extractor, vecEnabled: bool): string
    requires WellFormed(d)
  {
    var ch := IncrementalChanged(t, d, ex, vecEnabled);
    SummaryLine(|ch|, |MdFiles(d.listing)| - |ch|, |t.meta.Keys - DiskSet(d)|)
  }

  /** The counts the incremental run reports give its summary line. */
  lemma IncrementalSummaryOf(t: Tables, d: MemDir, ex: Extractor, vecEnabled: bool, c: nat, sk: nat, r: nat)
    requires WellFormed(d)
    requires c == |IncrementalChanged(t, d, ex, vecEnabled)| && sk + c == |MdFiles(d.listing)|
    requires r == |t.meta.Keys - DiskSet(d)|
    ensures SummaryLine(c, sk, r) == IncrementalSummary(t, d, ex, vecEnabled)
  {
    var ch := IncrementalChanged(t, d, ex, vecEnabled);
    assert c == |ch| && sk == |MdFiles(d.listing)| - |ch|;
  }

  method IndexIncremental(store: Store, d: MemDir, ex: Extractor, vecEnabled: bool, hasEmbedder: bool, embed: EmbedFn)
    returns (changedCount: nat, skipped: nat, removed: nat, msg: string)
    requires WellFormed(d)
    modifies store
    ensures var ch := IncrementalChanged(old(store.State()), d, ex, vecEnabled);
      store.State() == Incremental(old(store.State()), d, ex, vecEnabled, BatchEmbeddings(hasEmbedder, embed, ch)) &&
      changedCount == |ch| && skipped + changedCount == |MdFiles(d.listing)| &&
      removed == |old(store.meta.Keys) - DiskSet(d)| &&
      msg == SummaryLine(changedCount, skipped, removed)
  {
    var files := MdFiles(d.listing);
    var disk := set n | n in files;
    removed := RemoveDeleted(store, disk, vecEnabled);
    var changed;
    changed, skipped := CollectChanged(store, d, ex, files);
    var embs: Option<seq<Vector>> := None;
    if hasEmbedder && |changed| > 0 {
      var res := embed(Bodies(changed));
      if res.Success? {
        embs := Some(res.value);
      }
    }
    UpsertEntries(store, changed, embs);
    changedCount := |changed|;
    msg := SummaryLine(changedCount, skipped, removed);
  }

  /**
   * Incremental mode, given a consistent store: the indexed paths become the
   * old ones still on disk plus the changed files; every changed file gets
   * its new meta, row and any embedding computed for it; a file that is on
   * disk but not changed (up to date, or now empty) keeps what was stored.
   */
  /** The changed entries have distinct paths, each that of a changed Markdown file. */
  lemma IncrementalChangedPaths(t: Tables, d: MemDir, ex: Extractor, vecEnabled: bool)
    requires WellFormed(d)
    ensures var ch := IncrementalChanged(t, d, ex, vecEnabled);
      DistinctEntryPaths(ch) &&
      forall i :: 0 <= i < |ch| ==> ch[i].path in ChangedNames(AfterRemoval(t, d, vecEnabled), d, MdFiles(d.listing))
  {
    var names := ChangedNames(AfterRemoval(t, d, vecEnabled), d, MdFiles(d.listing));
    var ch := IncrementalChanged(t, d, ex, vecEnabled);
    assert forall i :: 0 <= i < |ch| ==> ch[i].path == names[i];
  }

  /** Incremental mode keeps the old paths still on disk and adds the changed ones. */
  lemma IncrementalKeys(t: Tables, d: MemDir, ex: Extractor, vecEnabled: bool, embs: Option<seq<Vector>>)
    requires WellFormed(d)
    ensures var u, ch := Incremental(t, d, ex, vecEnabled, embs), IncrementalChanged(t, d, ex, vecEnabled);
      u.meta.Keys == (t.meta.Keys * DiskSet(d)) + Paths(ch)
  {
    var t1 := AfterRemoval(t, d, vecEnabled);
    var ch := IncrementalChanged(t, d, ex, vecEnabled);
    RemoveEffect(t, t.meta.Keys - DiskSet(d), vecEnabled, "");
    assert t1.meta.Keys == t.meta.Keys * DiskSet(d);
    UpsertPrefixKeys(t1, ch, embs, |ch|);
    assert ch[..|ch|] == ch;
  }

  /** Incremental mode keeps a consistent store consistent. */
  lemma IncrementalConsistent(t: Tables, d: MemDir, ex: Extractor, vecEnabled: bool, embs: Option<seq<Vector>>)
    requires WellFormed(d) && Consistent(t)
    ensures Consistent(Incremental(t, d, ex, vecEnabled, embs))
  {
    var t1 := AfterRemoval(t, d, vecEnabled);
    var ch := IncrementalChanged(t, d, ex, vecEnabled);
    IncrementalChangedPaths(t, d, ex, vecEnabled);
    RemoveEffect(t, t.meta.Keys - DiskSet(d), vecEnabled, "");
    UpsertPrefixConsistent(t1, ch, embs, |ch|);
  }

  /** Every changed file gets its new meta, its row and any embedding computed for it. */
  lemma IncrementalUpdated(t: Tables, d: MemDir, ex: Extractor, vecEnabled: bool, embs: Option<seq<Vector>>, i: nat)
    requires WellFormed(d) && i < |IncrementalChanged(t, d, ex, vecEnabled)|
    ensures var u, ch := Incremental(t, d, ex, vecEnabled, embs), IncrementalChanged(t, d, ex, vecEnabled);
      ch[i].path in u.meta && u.meta[ch[i].path] == FileMeta(ch[i].mtimeMs, ch[i].size) &&
      RowsFor(u.rows, ch[i].path) == [FtsRow(ch[i].path, ch[i].title, ch[i].body)] &&
      (EmbAt(embs, i).Some? ==> ch[i].path in u.vec && u.vec[ch[i].path] == EmbAt(embs, i).value)
  {
    var ch := IncrementalChanged(t, d, ex, vecEnabled);
    IncrementalChangedPaths(t, d, ex, vecEnabled);
    UpsertPrefixAccepted(AfterRemoval(t, d, vecEnabled), ch, embs, |ch|, i);
  }

  /** A file on disk that is not changed (up to date, or now empty) keeps what was stored. */
  lemma IncrementalKept(t: Tables, d: MemDir, ex: Extractor, vecEnabled: bool, embs: Option<seq<Vector>>, n: string)
    requires WellFormed(d) && n in DiskSet(d) && n in t.meta && !IsChanged(AfterRemoval(t, d, vecEnabled), d, n)
    ensures var u := Incremental(t, d, ex, vecEnabled, embs);
      n in u.meta && u.meta[n] == t.meta[n] && RowsFor(u.rows, n) == RowsFor(t.rows, n)
  {
    var t1 := AfterRemoval(t, d, vecEnabled);
    var ch := IncrementalChanged(t, d, ex, vecEnabled);
    IncrementalChangedPaths(t, d, ex, vecEnabled);
    RemoveEffect(t, t.meta.Keys - DiskSet(d), vecEnabled, n);
    UpsertRangeFrame(t1, ch, embs, 0, |ch|, n);
  }

  /**
   * Incremental mode, given a consistent store: the indexed paths become the
   * old ones still on disk plus the changed files; every changed file gets
   * its new meta, row and any embedding computed for it; a file that is on
   * disk but not changed (up to date, or now empty) keeps what was stored.
   */
  lemma IncrementalSpec(t: Tables, d: MemDir, ex: Extractor, vecEnabled: bool, embs: Option<seq<Vector>>)
    requires WellFormed(d) && Consistent(t)
    ensures var u, ch := Incremental(t, d, ex, vecEnabled, embs), IncrementalChanged(t, d, ex, vecEnabled);
      u.meta.Keys == (t.meta.Keys * DiskSet(d)) + Paths(ch) && Consistent(u) &&
      (forall i :: 0 <= i < |ch| ==>
        ch[i].path in u.meta && u.meta[ch[i].path] == FileMeta(ch[i].mtimeMs, ch[i].size) &&
        RowsFor(u.rows, ch[i].path) == [FtsRow(ch[i].path, ch[i].title, ch[i].body)] &&
        (EmbAt(embs, i).Some? ==> ch[i].path in u.vec && u.vec[ch[i].path] == EmbAt(embs, i).value)) &&
      (forall n :: n in DiskSet(d) && n in t.meta && !IsChanged(AfterRemoval(t, d, vecEnabled), d, n) ==>
        n in u.meta && u.meta[n] == t.meta[n] && RowsFor(u.rows, n) == RowsFor(t.rows, n))
  {
    IncrementalKeys(t, d, ex, vecEnabled, embs);
    IncrementalConsistent(t, d, ex, vecEnabled, embs);
    forall i: nat | i < |IncrementalChanged(t, d, ex, vecEnabled)| {
      IncrementalUpdated(t, d, ex, vecEnabled, embs, i);
    }
    forall n | n in DiskSet(d) && n in t.meta && !IsChanged(AfterRemoval(t, d, vecEnabled), d, n) {
      IncrementalKept(t, d, ex, vecEnabled, embs, n);
    }
  }

  // ----- the command

  /** Which mode a call runs in: a non-empty path selects single-file mode, then `--full` the rebuild. */
  datatype Mode = Single(path: string) | Full | Increment

  function SelectMode(filepath: Option<string>, full: bool): (m: Mode)
    ensures m.Single? <==> filepath.Some? && filepath.value != ""
    ensures m.Single? ==> m.path == filepath.value
    ensures m.Full? <==> !m.Single? && full
  {
    if filepath.Some? && filepath.value != "" then Single(filepath.value)
    else if full then Full
    else Increment
  }

  /**
   * `indexCommand`: embeddings are used when the vector table exists, the
   * settings enable it and an embedder can be created; then the mode chosen
   * runs. Returns the line printed last.
   */
  method IndexCommand(store: Store, d: MemDir, cfg: ConfigStore.VectorConfig, vecEnabled: bool, envKey: Option<string>,
                      filepath: Option<string>, full: bool, embed: EmbedFn) returns (msg: string)
    requires WellFormed(d)
    modifies store
    ensures var useVec, has := UseVec(vecEnabled, cfg), HasEmbedder(vecEnabled, cfg, envKey);
      match SelectMode(filepath, full)
      case Single(p) =>
        store.State() == SingleFile(old(store.State()), d, MarkdownDoc, p, vecEnabled,
          if Vanished(d, p) then None else SingleEmbedding(has, embed, EntryOf(d, p, MarkdownDoc).body)) &&
        msg == if Vanished(d, p) then "Removed " + p + " from index." else "Indexed " + p
      case Full =>
        store.State() == FullRebuilt(old(store.State()), d, MarkdownDoc, useVec, BatchEmbeddings(has, embed, MdEntries(d, MarkdownDoc))) &&
        msg == "Indexed " + NatToString(|MdEntries(d, MarkdownDoc)|) + " files (full rebuild)."
      case Increment =>
        store.State() == Incremental(old(store.State()), d, MarkdownDoc, vecEnabled,
          BatchEmbeddings(has, embed, IncrementalChanged(old(store.State()), d, MarkdownDoc, vecEnabled))) &&
        msg == IncrementalSummary(old(store.State()), d, MarkdownDoc, vecEnabled)
  {
    var useVec := vecEnabled && Truthy(cfg.enabled);
    var hasEmbedder := false;
    if useVec {
      var created := Embedder.CreateEmbedder(cfg.provider, cfg.openaiKey, envKey);
      hasEmbedder := created.Success?;
    }
    var mode := SelectMode(filepath, full);
    match mode {
      case Single(p) =>
        msg := IndexSingle(store, d, MarkdownDoc, p, vecEnabled, hasEmbedder, embed);
      case Full =>
        var count;
        count, msg := FullRebuild(store, d, MarkdownDoc, useVec, hasEmbedder, embed);
      case Increment =>
        ghost var t0 := store.State();
        var c, s, r;
        c, s, r, msg := IndexIncremental(store, d, MarkdownDoc, vecEnabled, hasEmbedder, embed);
        IncrementalSummaryOf(t0, d, MarkdownDoc, vecEnabled, c, s, r);
    }
  }
}
