/**
 * Daily-log entries. A line is an entry when it matches
 * `^- (\d{2}:\d{2})\s*(?:\[(\w+)\])?\s*(.+)$`; the match is modelled as the
 * backtracking search a JS regex engine performs, alternatives tried in
 * priority order.
 */
module Parser {
  import opened Wrappers
  import opened Text

  /** The captures of one match: the time, the bracketed word if any, and the message. */
  datatype EntryMatch = EntryMatch(time: string, tag: Option<string>, message: string)

  /** A parsed entry; `lineNum` is 1-based and `raw` the unmodified line. */
  datatype LogEntry = LogEntry(time: string, tag: Option<string>, message: string, lineNum: nat, raw: string)

  /** The length of the run of word characters that starts `s`. */
  function WordRun(s: string): (n: nat)
    ensures n <= |s| && forall i :: 0 <= i < n ==> IsWordChar(s[i])
    ensures n < |s| ==> !IsWordChar(s[n])
  {
    if |s| == 0 || !IsWordChar(s[0]) then 0 else 1 + WordRun(s[1..])
  }

  /** Where the pieces of a match lie in the text after the time: the bracketed word and the message start. */
  datatype Span = Span(tag: Option<(nat, nat)>, msg: nat)

  /**
   * `\s*(.+)$` after the spaces of `s[..k]` were taken greedily: the
   * remainders `s[k..]`, `s[k-1..]`, ..., `s[0..]` are tried in turn, and the
   * first that is non-empty and free of line terminators is the message; the
   * result is where it starts.
   */
  function TryMessage(s: string, k: nat): (r: Option<nat>)
    requires k <= |s|
    ensures r.Some? ==> r.value <= k && r.value < |s| && SingleLine(s[r.value..])
    decreases k
  {
    if |s[k..]| > 0 && SingleLine(s[k..]) then Some(k)
    else if k == 0 then None
    else TryMessage(s, k - 1)
  }

  /** The bracketed word and message that a span marks out are well formed. */
  predicate SpanFits(r: string, sp: Span) {
    sp.msg < |r| && SingleLine(r[sp.msg..]) &&
    (sp.tag.Some? ==>
      (0 < sp.tag.value.0 < sp.tag.value.1 < sp.msg && forall i :: sp.tag.value.0 <= i < sp.tag.value.1 ==> IsWordChar(r[i])))
  }

  /**
   * `(?:\[(\w+)\])\s*(.+)$` taken at position `p`: the group matches only with
   * the whole run of word characters (a shorter run leaves a word character
   * where ']' is needed), then the message is searched for.
   */
  function TryGroup(r: string, p: nat): (m: Option<Span>)
    requires p <= |r|
    ensures m.Some? ==> SpanFits(r, m.value) && m.value.tag.Some? && m.value.tag.value.0 == p + 1
  {
    if p < |r| && r[p] == '[' then
      var w := WordRun(r[p + 1..]);
      if w >= 1 && p + 1 + w < |r| && r[p + 1 + w] == ']' then
        var q := p + 2 + w;
        var rest := r[q..];
        var j := TryMessage(rest, LeadingSpaces(rest));
        if j.Some? then
          assert r[q + j.value..] == rest[j.value..];
          assert forall i :: p + 1 <= i < p + 1 + w ==> r[i] == r[p + 1..][i - p - 1];
          Some(Span(Some((p + 1, p + 1 + w)), q + j.value))
        else None
      else None
    else None
  }

  /**
   * `\s*(?:\[(\w+)\])?\s*(.+)$` on the text after the time, with the first
   * `\s*` holding `k` spaces, then fewer: for each `k` the group is tried
   * before skipping it.
   */
  function SearchAfterTime(r: string, k: nat): (m: Option<Span>)
    requires k <= |r|
    ensures m.Some? ==> SpanFits(r, m.value)
    decreases k
  {
    var g := TryGroup(r, k);
    if g.Some? then g
    else
      var rest := r[k..];
      var j := TryMessage(rest, LeadingSpaces(rest));
      if j.Some? then
        assert r[k + j.value..] == rest[j.value..];
        Some(Span(None, k + j.value))
      else if k == 0 then None
      else SearchAfterTime(r, k - 1)
  }

  /** The line starts with "- " and a two-digit:two-digit time. */
  predicate HasTimePrefix(line: string) {
    |line| >= 7 && line[0] == '-' && line[1] == ' ' && IsDigit(line[2]) && IsDigit(line[3]) &&
    line[4] == ':' && IsDigit(line[5]) && IsDigit(line[6])
  }

  /** The captures a span marks out in `line`, whose time prefix is seven characters long. */
  function Captures(line: string, sp: Span): (m: EntryMatch)
    requires |line| >= 7 && SpanFits(line[7..], sp)
    ensures |m.message| > 0 && SingleLine(m.message) && EndsWith(line, m.message)
    ensures m.tag.Some? ==> |m.tag.value| > 0 && forall i :: 0 <= i < |m.tag.value| ==> IsWordChar(m.tag.value[i])
  {
    var r := line[7..];
    var msg := r[sp.msg..];
    assert line[|line| - |msg|..] == msg;
    var tag := if sp.tag.Some? then Some(r[sp.tag.value.0..sp.tag.value.1]) else None;
    assert tag.Some? ==> forall i :: 0 <= i < |tag.value| ==> tag.value[i] == r[sp.tag.value.0 + i];
    EntryMatch(line[2..7], tag, msg)
  }

  /** `line.match(ENTRY_RE)`. */
  function MatchEntry(line: string): (m: Option<EntryMatch>)
    ensures m.Some? ==> HasTimePrefix(line) && m.value.time == line[2..7]
    ensures m.Some? ==> |m.value.message| > 0 && SingleLine(m.value.message) && EndsWith(line, m.value.message)
    ensures m.Some? && m.value.tag.Some? ==> |m.value.tag.value| > 0 && forall i :: 0 <= i < |m.value.tag.value| ==> IsWordChar(m.value.tag.value[i])
  {
    if HasTimePrefix(line) then
      var r := line[7..];
      var s := SearchAfterTime(r, LeadingSpaces(r));
      if s.Some? then Some(Captures(line, s.value)) else None
    else None
  }

  /** The entry built for line `i` (0-based) of the content. */
  function MakeEntry(m: EntryMatch, i: nat, line: string): LogEntry {
    LogEntry(m.time, m.tag, m.message, i + 1, line)
  }

  /** The match of every line. */
  function MatchLines(lines: seq<string>): (ms: seq<Option<EntryMatch>>)
    ensures |ms| == |lines|
  {
    if |lines| == 0 then [] else [MatchEntry(lines[0])] + MatchLines(lines[1..])
  }

  lemma {:induction false} MatchLinesAt(lines: seq<string>)
    ensures forall i :: 0 <= i < |lines| ==> MatchLines(lines)[i] == MatchEntry(lines[i])
  {
    if |lines| > 0 {
      MatchLinesAt(lines[1..]);
      assert forall i :: 1 <= i < |lines| ==> MatchLines(lines)[i] == MatchLines(lines[1..])[i - 1];
    }
  }

  /** The entries of the first `n` lines, in line order, given the match of every line. */
  function EntriesUpTo(lines: seq<string>, ms: seq<Option<EntryMatch>>, n: nat): seq<LogEntry>
    requires n <= |lines| == |ms|
  {
    if n == 0 then []
    else
      var prev := EntriesUpTo(lines, ms, n - 1);
      if ms[n - 1].Some? then prev + [MakeEntry(ms[n - 1].value, n - 1, lines[n - 1])] else prev
  }

  /** Each entry names one of the first `n` lines, holds it and its captures, and they come in line order. */
  predicate EntriesFit(lines: seq<string>, ms: seq<Option<EntryMatch>>, n: nat, r: seq<LogEntry>)
    requires n <= |lines| == |ms|
  {
    (forall j :: 0 <= j < |r| ==>
      1 <= r[j].lineNum <= n && r[j].raw == lines[r[j].lineNum - 1] &&
      ms[r[j].lineNum - 1] == Some(EntryMatch(r[j].time, r[j].tag, r[j].message))) &&
    (forall j, k :: 0 <= j < k < |r| ==> r[j].lineNum < r[k].lineNum)
  }

  lemma {:induction false} EntriesUpToSpec(lines: seq<string>, ms: seq<Option<EntryMatch>>, n: nat)
    requires n <= |lines| == |ms|
    ensures EntriesFit(lines, ms, n, EntriesUpTo(lines, ms, n))
  {
    if n > 0 {
      EntriesUpToSpec(lines, ms, n - 1);
      var prev := EntriesUpTo(lines, ms, n - 1);
      if ms[n - 1].Some? {
        FitSnoc(lines, ms, n, prev, MakeEntry(ms[n - 1].value, n - 1, lines[n - 1]));
      } else {
        FitWiden(lines, ms, n, prev);
      }
    }
  }

  /** Entries that fit the first `n - 1` lines fit the first `n`. */
  lemma FitWiden(lines: seq<string>, ms: seq<Option<EntryMatch>>, n: nat, prev: seq<LogEntry>)
    requires 0 < n <= |lines| == |ms| && EntriesFit(lines, ms, n - 1, prev)
    ensures EntriesFit(lines, ms, n, prev)
  {
  }

  /** The entry of line `n - 1`, appended to entries that fit the lines before it, still fits. */
  lemma FitSnoc(lines: seq<string>, ms: seq<Option<EntryMatch>>, n: nat, prev: seq<LogEntry>, x: LogEntry)
    requires 0 < n <= |lines| == |ms| && EntriesFit(lines, ms, n - 1, prev)
    requires x.lineNum == n && x.raw == lines[n - 1] && ms[n - 1] == Some(EntryMatch(x.time, x.tag, x.message))
    ensures EntriesFit(lines, ms, n, prev + [x])
  {
    var r := prev + [x];
    assert forall j :: 0 <= j < |prev| ==> r[j] == prev[j];
    assert r[|prev|] == x;
  }

  /** Every matching line among the first `n` has its entry. */
  lemma {:induction false} EntriesComplete(lines: seq<string>, ms: seq<Option<EntryMatch>>, n: nat, i: nat)
    requires n <= |lines| == |ms| && i < n && ms[i].Some?
    ensures exists j :: 0 <= j < |EntriesUpTo(lines, ms, n)| && EntriesUpTo(lines, ms, n)[j].lineNum == i + 1
    decreases n
  {
    var prev := EntriesUpTo(lines, ms, n - 1);
    var r := EntriesUpTo(lines, ms, n);
    if i == n - 1 {
      assert r[|prev|].lineNum == i + 1;
    } else {
      EntriesComplete(lines, ms, n - 1, i);
      var j :| 0 <= j < |prev| && prev[j].lineNum == i + 1;
      assert r[j] == prev[j];
    }
  }

  /**
   * The entries of a text correspond one to one, in line order, to its lines
   * that match: each entry carries its line's 1-based number, the line as it
   * is and the line's captures, and each matching line has an entry.
   */
  lemma LogEntriesSpec(content: string)
    ensures var lines, r := Split(content), LogEntries(content);
      (forall j :: 0 <= j < |r| ==>
        1 <= r[j].lineNum <= |lines| && r[j].raw == lines[r[j].lineNum - 1] &&
        MatchEntry(r[j].raw) == Some(EntryMatch(r[j].time, r[j].tag, r[j].message))) &&
      (forall j, k :: 0 <= j < k < |r| ==> r[j].lineNum < r[k].lineNum) &&
      (forall i :: 0 <= i < |lines| && MatchEntry(lines[i]).Some? ==> exists j :: 0 <= j < |r| && r[j].lineNum == i + 1)
  {
    var lines := Split(content);
    var ms := MatchLines(lines);
    var r := EntriesUpTo(lines, ms, |lines|);
    assert LogEntries(content) == r;
    MatchLinesAt(lines);
    EntriesUpToSpec(lines, ms, |lines|);
    forall i | 0 <= i < |lines| && MatchEntry(lines[i]).Some?
      ensures exists j :: 0 <= j < |r| && r[j].lineNum == i + 1
    {
      assert ms[i] == MatchEntry(lines[i]);
      EntriesComplete(lines, ms, |lines|, i);
    }
  }

  /** The entries of a log text. */
  function LogEntries(content: string): seq<LogEntry> {
    var lines := Split(content);
    EntriesUpTo(lines, MatchLines(lines), |lines|)
  }

  /** `parseLogEntries`: one pass over the lines, pushing an entry for each matching line. */
  method ParseLogEntries(content: string) returns (entries: seq<LogEntry>)
    ensures entries == LogEntries(content)
    ensures content == "" ==> entries == []
  {
    var lines := Split(content);
    ghost var ms := MatchLines(lines);
    MatchLinesAt(lines);
    entries := [];
    var i := 0;
    while i < |lines|
      invariant 0 <= i <= |lines|
      invariant entries == EntriesUpTo(lines, ms, i)
    {
      var m := MatchEntry(lines[i]);
      if m.Some? {
        entries := entries + [LogEntry(m.value.time, m.value.tag, m.value.message, i + 1, lines[i])];
      }
      i := i + 1;
    }
  }

  /** `filterByTag`: the entries whose tag equals `tag`, in their order. */
  function FilterByTag(entries: seq<LogEntry>, tag: string): (r: seq<LogEntry>)
    ensures |r| <= |entries|
    ensures forall e :: e in r <==> e in entries && e.tag == Some(tag)
  {
    if |entries| == 0 then []
    else if entries[0].tag == Some(tag) then [entries[0]] + FilterByTag(entries[1..], tag)
    else FilterByTag(entries[1..], tag)
  }

  /** Filtering keeps the order: it splits over concatenation. */
  lemma {:induction false} FilterByTagAppend(a: seq<LogEntry>, b: seq<LogEntry>, tag: string)
    ensures FilterByTag(a + b, tag) == FilterByTag(a, tag) + FilterByTag(b, tag)
  {
    if |a| == 0 {
      assert a + b == b;
    } else {
      assert (a + b)[0] == a[0];
      assert (a + b)[1..] == a[1..] + b;
      FilterByTagAppend(a[1..], b, tag);
      if a[0].tag == Some(tag) {
        assert [a[0]] + (FilterByTag(a[1..], tag) + FilterByTag(b, tag)) == ([a[0]] + FilterByTag(a[1..], tag)) + FilterByTag(b, tag);
      }
    }
  }
}
