/**
 * The index store: the full-text table `memory_fts` (rows of path, title and
 * body), the `file_meta` table (path to modification time and size) and an
 * optional per-path embedding map. The tables are modelled as values, the
 * store as an object whose methods replace them, and every change as a pure
 * transition whose properties are proved as lemmas.
 */
module Db {
  import opened Wrappers

  /** An embedding vector; its values are opaque here. */
  type Vector = seq<real>

  /** A row of `memory_fts`. */
  datatype FtsRow = FtsRow(path: string, title: string, body: string)

  /** A row of `file_meta`, keyed by path. */
  datatype FileMeta = FileMeta(mtimeMs: int, sizeBytes: int)

  /** The contents of the store. */
  datatype Tables = Tables(rows: seq<FtsRow>, meta: map<string, FileMeta>, vec: map<string, Vector>)

  /** The search-result limit when the caller gives none. */
  const DefaultSearchLimit: nat := 10

  function RowPaths(rows: seq<FtsRow>): set<string> {
    set x | x in rows :: x.path
  }

  predicate DistinctPaths(rows: seq<FtsRow>) {
    forall i, j :: 0 <= i < j < |rows| ==> rows[i].path != rows[j].path
  }

  /** The store's invariant: the paths with full-text rows are the paths with meta, one row each. */
  predicate Consistent(t: Tables) {
    RowPaths(t.rows) == t.meta.Keys && DistinctPaths(t.rows)
  }

  /** The rows for path `p`, in table order. */
  function RowsFor(rows: seq<FtsRow>, p: string): (r: seq<FtsRow>)
    ensures forall x :: x in r <==> x in rows && x.path == p
  {
    if |rows| == 0 then []
    else if rows[0].path == p then [rows[0]] + RowsFor(rows[1..], p)
    else RowsFor(rows[1..], p)
  }

  /** `DELETE FROM memory_fts WHERE filepath IN s`: the rows whose path is outside `s`, in table order. */
  function DropPaths(rows: seq<FtsRow>, s: set<string>): seq<FtsRow> {
    if |rows| == 0 then []
    else if rows[0].path in s then DropPaths(rows[1..], s)
    else [rows[0]] + DropPaths(rows[1..], s)
  }

  /** Dropping keeps exactly the rows outside `s`, and keeps paths distinct. */
  lemma {:induction false} DropPathsSpec(rows: seq<FtsRow>, s: set<string>)
    ensures forall x :: x in DropPaths(rows, s) <==> x in rows && x.path !in s
    ensures RowPaths(DropPaths(rows, s)) == RowPaths(rows) - s
    ensures DistinctPaths(rows) ==> DistinctPaths(DropPaths(rows, s))
  {
    if |rows| > 0 {
      DropPathsSpec(rows[1..], s);
      var tail := DropPaths(rows[1..], s);
      assert forall x :: x in rows <==> x == rows[0] || x in rows[1..];
      if rows[0].path !in s {
        assert DistinctPaths(rows) ==> forall x :: x in tail ==> x.path != rows[0].path;
      }
    }
  }

  /** `file_meta` restricted to the paths outside `s`. */
  function DropMeta<V>(m: map<string, V>, s: set<string>): (r: map<string, V>)
    ensures r.Keys == m.Keys - s && forall k :: k in r ==> r[k] == m[k]
  {
    map k | k in m && k !in s :: m[k]
  }

  /** The stored entry for `path` is at least as new as `mtimeMs`. */
  predicate UpToDate(t: Tables, path: string, mtimeMs: int) {
    path in t.meta && t.meta[path].mtimeMs >= mtimeMs
  }

  /**
   * `upsertDocument`: nothing changes when the stored entry is at least as new;
   * otherwise the path's rows are replaced by one new row, its meta is set,
   * and a given embedding is stored.
   */
  function Upserted(t: Tables, path: string, title: string, body: string, mtimeMs: int, size: int, emb: Option<Vector>): Tables {
    if UpToDate(t, path, mtimeMs) then t
    else Tables(DropPaths(t.rows, {path}) + [FtsRow(path, title, body)],
                t.meta[path := FileMeta(mtimeMs, size)],
                if emb.Some? then t.vec[path := emb.value] else t.vec)
  }

  /** `removeDocument`: the path's rows and meta go, and its embedding when the vector table exists. */
  function Removed(t: Tables, path: string, vecEnabled: bool): Tables {
    RemovedAll(t, {path}, vecEnabled)
  }

  /** Every path of `s` removed. */
  function RemovedAll(t: Tables, s: set<string>, vecEnabled: bool): Tables {
    Tables(DropPaths(t.rows, s), DropMeta(t.meta, s), if vecEnabled then DropMeta(t.vec, s) else t.vec)
  }

  /** The full rebuild's `DELETE FROM memory_fts` and `DELETE FROM file_meta`, and the vector table when in use. */
  function Cleared(t: Tables, useVec: bool): Tables {
    Tables([], map[], if useVec then map[] else t.vec)
  }

  lemma {:induction false} RowsForAppend(a: seq<FtsRow>, b: seq<FtsRow>, p: string)
    ensures RowsFor(a + b, p) == RowsFor(a, p) + RowsFor(b, p)
  {
    if |a| == 0 {
      assert a + b == b;
    } else {
      assert (a + b)[0] == a[0] && (a + b)[1..] == a[1..] + b;
      RowsForAppend(a[1..], b, p);
      if a[0].path == p {
        assert [a[0]] + (RowsFor(a[1..], p) + RowsFor(b, p)) == ([a[0]] + RowsFor(a[1..], p)) + RowsFor(b, p);
      }
    }
  }

  lemma {:induction false} RowsForDropped(rows: seq<FtsRow>, s: set<string>, p: string)
    ensures p !in s ==> RowsFor(DropPaths(rows, s), p) == RowsFor(rows, p)
    ensures p in s ==> RowsFor(DropPaths(rows, s), p) == []
  {
    if |rows| > 0 {
      RowsForDropped(rows[1..], s, p);
    }
  }

  lemma {:induction false} DropTwice(rows: seq<FtsRow>, a: set<string>, b: set<string>)
    ensures DropPaths(DropPaths(rows, a), b) == DropPaths(rows, a + b)
  {
    if |rows| > 0 {
      DropTwice(rows[1..], a, b);
    }
  }

  lemma {:induction false} DropAbsent(rows: seq<FtsRow>, s: set<string>)
    requires forall x :: x in rows ==> x.path !in s
    ensures DropPaths(rows, s) == rows
  {
    if |rows| > 0 {
      assert rows[0] in rows;
      DropAbsent(rows[1..], s);
      assert DropPaths(rows, s) == [rows[0]] + DropPaths(rows[1..], s);
      assert rows == [rows[0]] + rows[1..];
    }
  }

  /**
   * An upsert whose stored entry is at least as new, the equal case included,
   * changes nothing. An accepted one leaves the new meta and exactly one row
   * for the path, holding the new title and body, and stores a given embedding.
   */
  lemma UpsertEffect(t: Tables, path: string, title: string, body: string, mtimeMs: int, size: int, emb: Option<Vector>)
    ensures UpToDate(t, path, mtimeMs) ==> Upserted(t, path, title, body, mtimeMs, size, emb) == t
    ensures !UpToDate(t, path, mtimeMs) ==> var u := Upserted(t, path, title, body, mtimeMs, size, emb);
      u.meta[path] == FileMeta(mtimeMs, size) && RowsFor(u.rows, path) == [FtsRow(path, title, body)] &&
      (emb.Some? ==> path in u.vec && u.vec[path] == emb.value)
  {
    if !UpToDate(t, path, mtimeMs) {
      var d := DropPaths(t.rows, {path});
      RowsForAppend(d, [FtsRow(path, title, body)], path);
      RowsForDropped(t.rows, {path}, path);
    }
  }

  /** An upsert changes nothing stored for any other path. */
  lemma UpsertFrame(t: Tables, path: string, title: string, body: string, mtimeMs: int, size: int, emb: Option<Vector>, q: string)
    requires q != path
    ensures var u := Upserted(t, path, title, body, mtimeMs, size, emb);
      RowsFor(u.rows, q) == RowsFor(t.rows, q) &&
      (q in u.meta <==> q in t.meta) && (q in t.meta ==> u.meta[q] == t.meta[q]) &&
      (q in u.vec <==> q in t.vec) && (q in t.vec ==> u.vec[q] == t.vec[q])
  {
    if !UpToDate(t, path, mtimeMs) {
      var d := DropPaths(t.rows, {path});
      RowsForAppend(d, [FtsRow(path, title, body)], q);
      RowsForDropped(t.rows, {path}, q);
    }
  }

  /** Upsert keeps the store's invariant. */
  lemma UpsertConsistent(t: Tables, path: string, title: string, body: string, mtimeMs: int, size: int, emb: Option<Vector>)
    requires Consistent(t)
    ensures Consistent(Upserted(t, path, title, body, mtimeMs, size, emb))
  {
    if !UpToDate(t, path, mtimeMs) {
      var d := DropPaths(t.rows, {path});
      DropPathsSpec(t.rows, {path});
      var row := FtsRow(path, title, body);
      var rows := d + [row];
      assert forall x :: x in rows <==> x in d || x == row;
      assert RowPaths(rows) == RowPaths(d) + {path};
      forall i, j | 0 <= i < j < |rows| ensures rows[i].path != rows[j].path {
        if j == |d| {
          assert rows[i] in d;
        }
      }
    }
  }

  /**
   * Removing every path of `s` drops their rows, meta and (with the vector
   * table) embeddings, and nothing else; it keeps the store's invariant.
   */
  lemma RemoveEffect(t: Tables, s: set<string>, vecEnabled: bool, q: string)
    ensures var u := RemovedAll(t, s, vecEnabled);
      u.meta.Keys == t.meta.Keys - s && RowPaths(u.rows) == RowPaths(t.rows) - s &&
      (q !in s ==> RowsFor(u.rows, q) == RowsFor(t.rows, q) && (q in t.meta ==> u.meta[q] == t.meta[q])) &&
      (vecEnabled ==> u.vec.Keys == t.vec.Keys - s) && (!vecEnabled ==> u.vec == t.vec) &&
      (Consistent(t) ==> Consistent(u))
  {
    RowsForDropped(t.rows, s, q);
    DropPathsSpec(t.rows, s);
  }

  /** Removing a path the store does not hold changes nothing. */
  lemma RemoveAbsent(t: Tables, path: string, vecEnabled: bool)
    requires Consistent(t) && path !in t.meta && path !in t.vec
    ensures Removed(t, path, vecEnabled) == t
  {
    assert forall x :: x in t.rows ==> x.path in RowPaths(t.rows);
    DropAbsent(t.rows, {path});
    assert DropMeta(t.meta, {path}) == t.meta;
    assert DropMeta(t.vec, {path}) == t.vec;
  }

  /** Removing no path changes nothing. */
  lemma RemoveNothing(t: Tables, vecEnabled: bool)
    ensures RemovedAll(t, {}, vecEnabled) == t
  {
    DropAbsent(t.rows, {});
    assert DropMeta(t.meta, {}) == t.meta;
    assert DropMeta(t.vec, {}) == t.vec;
  }

  /** Removing paths one after another is removing them together. */
  lemma RemoveTwice(t: Tables, s: set<string>, p: string, vecEnabled: bool)
    ensures Removed(RemovedAll(t, s, vecEnabled), p, vecEnabled) == RemovedAll(t, s + {p}, vecEnabled)
  {
    DropTwice(t.rows, s, {p});
  }

  /** The rows a query matches, in table order. */
  function Matching(rows: seq<FtsRow>, matches: (FtsRow, string) -> bool, query: string): (r: seq<FtsRow>)
    ensures |r| <= |rows| && forall x :: x in r <==> x in rows && matches(x, query)
  {
    if |rows| == 0 then []
    else if matches(rows[0], query) then [rows[0]] + Matching(rows[1..], matches, query)
    else Matching(rows[1..], matches, query)
  }

  /** An open index database. */
  class Store {
    var rows: seq<FtsRow>
    var meta: map<string, FileMeta>
    var vec: map<string, Vector>

    function State(): Tables
      reads this
    {
      Tables(rows, meta, vec)
    }

    /** Opens a database holding `t`. */
    constructor (t: Tables)
      ensures State() == t
    {
      rows := t.rows;
      meta := t.meta;
      vec := t.vec;
    }

    /** `getFileMeta`: the stored meta of `path`, or nothing when it has none. */
    function GetFileMeta(path: string): (r: Option<FileMeta>)
      reads this
      ensures r.None? <==> path !in meta
      ensures r.Some? ==> path in meta && r.value == meta[path]
    {
      if path in meta then Some(meta[path]) else None
    }

    /** `upsertDocument`, with the optional embedding of the newer store interface. */
    method Upsert(path: string, title: string, body: string, mtimeMs: int, size: int, emb: Option<Vector>)
      modifies this
      ensures State() == Upserted(old(State()), path, title, body, mtimeMs, size, emb)
    {
      var existing := GetFileMeta(path);
      if existing.Some? && existing.value.mtimeMs >= mtimeMs {
        return;
      }
      rows := DropPaths(rows, {path}) + [FtsRow(path, title, body)];
      meta := meta[path := FileMeta(mtimeMs, size)];
      if emb.Some? {
        vec := vec[path := emb.value];
      }
    }

    /** `removeDocument`; the embedding goes too when the vector table exists. */
    method Remove(path: string, vecEnabled: bool)
      modifies this
      ensures State() == Removed(old(State()), path, vecEnabled)
    {
      rows := DropPaths(rows, {path});
      meta := DropMeta(meta, {path});
      if vecEnabled {
        vec := DropMeta(vec, {path});
      }
    }

    /** The full rebuild's deletion of both tables, and of the vector table when in use. */
    method Clear(useVec: bool)
      modifies this
      ensures State() == Cleared(old(State()), useVec)
    {
      rows := [];
      meta := map[];
      if useVec {
        vec := map[];
      }
    }

    /**
     * `searchFts`: at most `limit` (by default 10) rows the query matches.
     * Matching and ranking belong to the full-text engine: `matches` stands
     * for the first, and the order of the hits is not modelled.
     */
    method SearchFts(matches: (FtsRow, string) -> bool, query: string, limit: Option<nat>) returns (hits: seq<FtsRow>)
      ensures var n := if limit.Some? then limit.value else DefaultSearchLimit;
        |hits| == if |Matching(rows, matches, query)| < n then |Matching(rows, matches, query)| else n
      ensures forall h :: h in hits ==> h in rows && matches(h, query)
    {
      var n := if limit.Some? then limit.value else DefaultSearchLimit;
      var all := Matching(rows, matches, query);
      hits := if |all| < n then all else all[..n];
      assert forall h :: h in hits ==> h in all;
    }
  }
}
