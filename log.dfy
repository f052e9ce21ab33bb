/**
 * `kex-mem log <message> [--tag t]`: the tag check, the entry line with its
 * zero-padded time, the date heading written only into a new or empty daily
 * log, the append, and the re-index of the whole file.
 */
module Log {
  import opened Wrappers
  import opened Text
  import opened Paths
  import Markdown
  import Parser
  import opened Db
  import opened Files

  const ValidTags: seq<string> := ["decision", "bug", "convention", "todo"]

  /** The moment of the call as a local clock shows it. */
  datatype Now = Now(date: Date, hours: nat, minutes: nat)

  predicate ValidNow(now: Now) {
    ValidDate(now.date) && now.hours < 24 && now.minutes < 60
  }

  /** The tag is given (an empty one counts as none) and is not one of the valid tags. */
  predicate TagRejected(tag: Option<string>) {
    tag.Some? && tag.value != "" && tag.value !in ValidTags
  }

  lemma JoinLastTwo()
    ensures JoinWith(["convention", "todo"], ", ") == "convention, todo"
  {
    assert ["convention", "todo"][1..] == ["todo"];
  }

  lemma JoinLastThree()
    ensures JoinWith(["bug", "convention", "todo"], ", ") == "bug, convention, todo"
  {
    JoinLastTwo();
    assert ["bug", "convention", "todo"][1..] == ["convention", "todo"];
  }

  /** `VALID_TAGS.join(", ")`. */
  lemma ValidTagsText()
    ensures JoinWith(ValidTags, ", ") == "decision, bug, convention, todo"
  {
    JoinLastThree();
    assert ValidTags[1..] == ["bug", "convention", "todo"];
  }

  function InvalidTagError(tag: string): (r: string)
    ensures r == "Invalid tag: " + tag + ". Valid: " + "decision, bug, convention, todo"
  {
    ValidTagsText();
    "Invalid tag: " + tag + ". Valid: " + JoinWith(ValidTags, ", ")
  }

  /** The tag an entry carries: a non-empty given tag, or none. */
  function EffectiveTag(tag: Option<string>): Option<string> {
    if tag.Some? && tag.value != "" then tag else None
  }

  /** "HH:MM", each part zero-padded to two digits. */
  function Clock(hours: nat, minutes: nat): string {
    PadStart2(NatToString(hours)) + ":" + PadStart2(NatToString(minutes))
  }

  function TagText(tag: Option<string>): string {
    if EffectiveTag(tag).Some? then " [" + tag.value + "]" else ""
  }

  /** The entry as a line of the file: "- HH:MM", the optional " [tag]", a space and the message. */
  function EntryLine(time: string, tag: Option<string>, message: string): string {
    "- " + time + TagText(tag) + " " + message
  }

  /** The text appended for one entry. */
  function Entry(time: string, tag: Option<string>, message: string): string {
    EntryLine(time, tag, message) + "\n"
  }

  function Header(date: Date): string
    requires ValidDate(date)
  {
    "# " + FormatDate(date) + "\n\n"
  }

  /** The daily log after one entry: the heading goes in first only when the file was missing or empty. */
  function Logged(existing: string, header: string, entry: string): (r: string)
    ensures StartsWith(r, existing) && EndsWith(r, entry)
    ensures existing == "" ==> r == header + entry
    ensures existing != "" ==> r == existing + (if EndsWith(existing, "\n") then "" else "\n") + entry
  {
    if existing == "" then Markdown.AppendText(existing, header + entry)
    else Markdown.AppendText(existing, entry)
  }

  /** Logging entries one after another on the same day, each ending in a newline. */
  function LogAll(existing: string, header: string, entries: seq<string>): string
    decreases |entries|
  {
    if |entries| == 0 then existing else LogAll(Logged(existing, header, entries[0]), header, entries[1..])
  }

  function Concat(entries: seq<string>): string {
    if |entries| == 0 then "" else entries[0] + Concat(entries[1..])
  }

  lemma AppendAssoc(a: string, b: string, c: string)
    ensures a + b + c == a + (b + c)
  {
  }

  lemma EndsWithNewline(a: string, b: string)
    requires EndsWith(b, "\n")
    ensures EndsWith(a + b, "\n")
  {
    assert (a + b)[|a + b| - 1] == b[|b| - 1];
  }

  /** Onto a file that ends in a newline, the entries are appended one after another and nothing else. */
  lemma {:induction false} LogAllOnto(existing: string, header: string, entries: seq<string>)
    requires existing != "" && EndsWith(existing, "\n")
    requires forall i :: 0 <= i < |entries| ==> EndsWith(entries[i], "\n")
    ensures LogAll(existing, header, entries) == existing + Concat(entries)
    decreases |entries|
  {
    if |entries| > 0 {
      var e, rest := entries[0], entries[1..];
      var next := Logged(existing, header, e);
      assert next == existing + e;
      EndsWithNewline(existing, e);
      assert forall i :: 0 <= i < |rest| ==> rest[i] == entries[i + 1];
      LogAllOnto(next, header, rest);
      assert LogAll(existing, header, entries) == LogAll(next, header, rest);
      assert Concat(entries) == e + Concat(rest);
      AppendAssoc(existing, e, Concat(rest));
    }
  }

  /** Logging several entries into a new day's file writes the heading once, then the entries in order. */
  lemma HeaderOnce(header: string, entries: seq<string>)
    requires |entries| > 0 && forall i :: 0 <= i < |entries| ==> EndsWith(entries[i], "\n")
    ensures LogAll("", header, entries) == header + Concat(entries)
  {
    var first := Logged("", header, entries[0]);
    assert first == header + entries[0];
    EndsWithNewline(header, entries[0]);
    LogAllOnto(first, header, entries[1..]);
    AppendAssoc(header, entries[0], Concat(entries[1..]));
  }

  /** What one call does: reject the tag, or write the new daily log and report it. */
  datatype LogOutcome =
    | Rejected(error: string)
    | Written(path: string, content: string, message: string)

  /**
   * `logCommand` on the clock reading `now`, with `existing` the daily log's
   * text ("" when it is missing).
   */
  function LogRun(now: Now, existing: string, message: string, tag: Option<string>): (o: LogOutcome)
    requires ValidNow(now)
    ensures o.Rejected? <==> TagRejected(tag)
    ensures o.Rejected? ==> o.error == InvalidTagError(tag.value)
    ensures o.Written? ==>
      o.path == FormatDate(now.date) + ".md" &&
      o.content == Logged(existing, Header(now.date), Entry(Clock(now.hours, now.minutes), tag, message)) &&
      o.message == "Logged to " + FormatDate(now.date)
  {
    if TagRejected(tag) then Rejected(InvalidTagError(tag.value))
    else
      var entry := Entry(Clock(now.hours, now.minutes), tag, message);
      Written(FormatDate(now.date) + ".md", Logged(existing, Header(now.date), entry), "Logged to " + FormatDate(now.date))
  }

  /**
   * The command against the index: a rejected tag changes nothing; otherwise
   * the daily log is re-indexed whole from its new text, with the modification
   * time and size the file then has.
   */
  method LogCommand(store: Store, now: Now, existing: string, message: string, tag: Option<string>,
                    mtimeMs: int, size: nat) returns (o: LogOutcome)
    requires ValidNow(now)
    modifies store
    ensures o == LogRun(now, existing, message, tag)
    ensures o.Rejected? ==> store.State() == old(store.State())
    ensures o.Written? ==>
      store.State() == Upserted(old(store.State()), o.path, Markdown.ExtractTitle(o.content), Markdown.ExtractBody(o.content), mtimeMs, size, None)
  {
    if tag.Some? && tag.value != "" && tag.value !in ValidTags {
      return Rejected(InvalidTagError(tag.value));
    }
    var time := PadStart2(NatToString(now.hours)) + ":" + PadStart2(NatToString(now.minutes));
    var tagStr := if tag.Some? && tag.value != "" then " [" + tag.value + "]" else "";
    var entry := "- " + time + tagStr + " " + message + "\n";
    var content: string;
    if existing == "" {
      var header := "# " + FormatDate(now.date) + "\n\n";
      content := Markdown.AppendText(existing, header + entry);
    } else {
      content := Markdown.AppendText(existing, entry);
    }
    var relPath := FormatDate(now.date) + ".md";
    store.Upsert(relPath, Markdown.ExtractTitle(content), Markdown.ExtractBody(content), mtimeMs, size, None);
    o := Written(relPath, content, "Logged to " + FormatDate(now.date));
  }

  // ----- reading the entry back

  /** A message that the entry pattern gives back whole. */
  predicate PlainMessage(message: string, tag: Option<string>) {
    |message| > 0 && SingleLine(message) && !IsSpace(message[0]) &&
    (EffectiveTag(tag).None? ==> message[0] != '[')
  }

  /** A run of word characters followed by something else. */
  lemma {:induction false} WordRunOf(w: string, rest: string)
    requires forall i :: 0 <= i < |w| ==> IsWordChar(w[i])
    requires |rest| > 0 && !IsWordChar(rest[0])
    ensures Parser.WordRun(w + rest) == |w|
  {
    if |w| > 0 {
      assert (w + rest)[1..] == w[1..] + rest;
      WordRunOf(w[1..], rest);
    }
  }

  lemma ValidTagIsWord(t: string)
    requires t in ValidTags
    ensures |t| > 0 && forall i :: 0 <= i < |t| ==> IsWordChar(t[i])
  {
  }

  /** "HH:MM" with two digits on each side. */
  predicate TimeShaped(c: string) {
    |c| == 5 && IsDigit(c[0]) && IsDigit(c[1]) && c[2] == ':' && IsDigit(c[3]) && IsDigit(c[4])
  }

  lemma ClockShape(hours: nat, minutes: nat)
    requires hours < 100 && minutes < 100
    ensures TimeShaped(Clock(hours, minutes))
  {
    Pad2Digits(hours);
    Pad2Digits(minutes);
  }

  /** After the time, " " and the message: the message is found without a tag. */
  lemma MatchUntagged(r: string, message: string)
    requires r == " " + message && |message| > 0 && SingleLine(message) && !IsSpace(message[0]) && message[0] != '['
    ensures Parser.SearchAfterTime(r, Text.LeadingSpaces(r)) == Some(Parser.Span(None, 1))
  {
    assert r[1..] == message;
    assert Text.LeadingSpaces(r[1..]) == 0;
    assert Text.LeadingSpaces(r) == 1;
    assert Parser.TryGroup(r, 1).None?;
    assert message[0..] == message;
    assert Parser.TryMessage(message, 0) == Some(0);
  }

  /** After the time, " [t] " and the message: the tag is the group and the message follows. */
  lemma MatchTagged(r: string, t: string, message: string)
    requires r == " [" + t + "] " + message && |message| > 0 && SingleLine(message) && !IsSpace(message[0])
    requires |t| > 0 && forall i :: 0 <= i < |t| ==> IsWordChar(t[i])
    ensures Parser.SearchAfterTime(r, Text.LeadingSpaces(r)) == Some(Parser.Span(Some((2, 2 + |t|)), 4 + |t|))
  {
    assert r[1..][0] == '[';
    assert Text.LeadingSpaces(r[1..]) == 0;
    assert Text.LeadingSpaces(r) == 1;
    assert r[2..] == t + ("] " + message);
    WordRunOf(t, "] " + message);
    var q := 3 + |t|;
    var rest := r[q..];
    assert rest == " " + message;
    assert rest[1..] == message;
    assert Text.LeadingSpaces(rest[1..]) == 0;
    assert Text.LeadingSpaces(rest) == 1;
    assert Parser.TryMessage(rest, 1) == Some(1);
  }

  /** The text of an entry line after its time prefix. */
  lemma EntryLineParts(time: string, tag: Option<string>, message: string)
    requires |time| == 5
    ensures var line, r := EntryLine(time, tag, message), TagText(tag) + " " + message;
      line == "- " + time + r && line[2..7] == time && line[7..] == r
  {
  }

  /** A line of a time prefix and a text the search accepts is matched with that search's captures. */
  lemma MatchWith(line: string, time: string, r: string, sp: Parser.Span)
    requires TimeShaped(time) && line == "- " + time + r && Parser.SearchAfterTime(r, Text.LeadingSpaces(r)) == Some(sp)
    ensures Parser.HasTimePrefix(line) && line[2..7] == time && line[7..] == r
    ensures Parser.MatchEntry(line) == Some(Parser.Captures(line, sp))
  {
    assert line[2..7] == time && line[7..] == r;
  }

  /** The captures of the tagged span are the tag and the message. */
  lemma CapturesTagged(line: string, r: string, time: string, t: string, message: string)
    requires |time| == 5 && line == "- " + time + r && r == " [" + t + "] " + message && |message| > 0
    requires Parser.SpanFits(r, Parser.Span(Some((2, 2 + |t|)), 4 + |t|))
    ensures line[7..] == r
    ensures Parser.Captures(line, Parser.Span(Some((2, 2 + |t|)), 4 + |t|)) == Parser.EntryMatch(time, Some(t), message)
  {
    assert line[2..7] == time && line[7..] == r;
    assert r[2..2 + |t|] == t;
    assert r[4 + |t|..] == message;
  }

  lemma RoundTripTagged(time: string, t: string, message: string)
    requires TimeShaped(time) && |message| > 0 && SingleLine(message) && !IsSpace(message[0])
    requires |t| > 0 && forall i :: 0 <= i < |t| ==> IsWordChar(t[i])
    ensures Parser.MatchEntry("- " + time + (" [" + t + "]") + " " + message) == Some(Parser.EntryMatch(time, Some(t), message))
  {
    var r := " [" + t + "] " + message;
    var line := "- " + time + (" [" + t + "]") + " " + message;
    var sp := Parser.Span(Some((2, 2 + |t|)), 4 + |t|);
    assert line == "- " + time + r;
    MatchTagged(r, t, message);
    MatchWith(line, time, r, sp);
    CapturesTagged(line, r, time, t, message);
  }

  lemma RoundTripUntagged(time: string, message: string)
    requires TimeShaped(time) && |message| > 0 && SingleLine(message) && !IsSpace(message[0]) && message[0] != '['
    ensures Parser.MatchEntry("- " + time + "" + " " + message) == Some(Parser.EntryMatch(time, None, message))
  {
    var r := " " + message;
    var line := "- " + time + "" + " " + message;
    assert line == "- " + time + r;
    MatchUntagged(r, message);
    MatchWith(line, time, r, Parser.Span(None, 1));
    assert r[1..] == message;
  }

  /**
   * Round trip: the entry pattern reads back the time, the tag and the
   * message of an entry line, for an accepted tag and a plain message.
   */
  lemma EntryRoundTrip(time: string, tag: Option<string>, message: string)
    requires TimeShaped(time) && !TagRejected(tag) && PlainMessage(message, tag)
    ensures Parser.MatchEntry(EntryLine(time, tag, message)) == Some(Parser.EntryMatch(time, EffectiveTag(tag), message))
  {
    if EffectiveTag(tag).Some? {
      ValidTagIsWord(tag.value);
      RoundTripTagged(time, tag.value, message);
    } else {
      RoundTripUntagged(time, message);
    }
  }

  lemma NoNewlineAppend(a: string, b: string)
    requires '\n' !in a && '\n' !in b
    ensures '\n' !in a + b
  {
    assert forall i :: 0 <= i < |a + b| ==> (a + b)[i] == if i < |a| then a[i] else b[i - |a|];
  }

  /** No part of an entry line breaks the line. */
  lemma EntryLineSingle(time: string, tag: Option<string>, message: string)
    requires TimeShaped(time) && !TagRejected(tag) && PlainMessage(message, tag)
    ensures '\n' !in EntryLine(time, tag, message)
  {
    if EffectiveTag(tag).Some? {
      ValidTagIsWord(tag.value);
      NoNewlineAppend(" [", tag.value);
      NoNewlineAppend(" [" + tag.value, "]");
    }
    assert '\n' !in time;
    NoNewlineAppend("- ", time);
    NoNewlineAppend("- " + time, TagText(tag));
    NoNewlineAppend("- " + time + TagText(tag), " ");
    assert '\n' !in message;
    NoNewlineAppend("- " + time + TagText(tag) + " ", message);
  }

  /** A text that ends in a newline, followed by one line and a newline, splits with that line second to last. */
  lemma SplitLastLine(content: string, before: string, line: string)
    requires content == before + (line + "\n")
    requires |before| > 0 && before[|before| - 1] == '\n' && '\n' !in line
    ensures |Split(content)| >= 2 && Split(content)[|Split(content)| - 2] == line && Split(content)[|Split(content)| - 1] == ""
  {
    var y := before[..|before| - 1];
    assert content == y + "\n" + (line + "\n");
    SplitAppend(y, line + "\n");
    assert line + "\n" == line + "\n" + "";
    SplitAppend(line, "");
    SplitNoNewline(line);
  }

  /** Lines whose last two are a matching line and an empty one give entries ending with that line's entry. */
  lemma LastEntryOf(lines: seq<string>, line: string, m: Parser.EntryMatch, es: seq<Parser.LogEntry>)
    requires |lines| >= 2 && lines[|lines| - 2] == line && lines[|lines| - 1] == "" && Parser.MatchEntry(line) == Some(m)
    requires es == Parser.EntriesUpTo(lines, Parser.MatchLines(lines), |lines|)
    ensures |es| > 0 && es[|es| - 1] == Parser.LogEntry(m.time, m.tag, m.message, |lines| - 1, line)
  {
    var n := |lines|;
    var ms := Parser.MatchLines(lines);
    Parser.MatchLinesAt(lines);
    assert ms[n - 1] == Parser.MatchEntry(lines[n - 1]) == None;
    assert Parser.EntriesUpTo(lines, ms, n) == Parser.EntriesUpTo(lines, ms, n - 1);
    assert ms[n - 2] == Some(m);
    var front := Parser.EntriesUpTo(lines, ms, n - 2);
    LastOfSnoc(front, Parser.LogEntry(m.time, m.tag, m.message, n - 1, line));
  }

  lemma LogEntriesOfLines(content: string)
    ensures Parser.LogEntries(content) == Parser.EntriesUpTo(Split(content), Parser.MatchLines(Split(content)), |Split(content)|)
  {
  }

  /** A text whose last two lines are a matching line and an empty one: its last entry is that line's. */
  lemma LastLineEntry(content: string, line: string, m: Parser.EntryMatch)
    requires |Split(content)| >= 2 && Split(content)[|Split(content)| - 2] == line && Split(content)[|Split(content)| - 1] == ""
    requires Parser.MatchEntry(line) == Some(m)
    ensures var es := Parser.LogEntries(content);
      |es| > 0 && es[|es| - 1] == Parser.LogEntry(m.time, m.tag, m.message, |Split(content)| - 1, line)
  {
    LogEntriesOfLines(content);
    LastEntryOf(Split(content), line, m, Parser.LogEntries(content));
  }

  /** What precedes the new entry in the daily log: the heading of a new file, or the old text and any newline added. */
  function LogPrefix(existing: string, header: string): string {
    if existing == "" then header else existing + (if EndsWith(existing, "\n") then "" else "\n")
  }

  lemma LoggedIsPrefixed(existing: string, header: string, entry: string)
    requires |header| > 0 && header[|header| - 1] == '\n'
    ensures Logged(existing, header, entry) == LogPrefix(existing, header) + entry
    ensures var p := LogPrefix(existing, header); |p| > 0 && p[|p| - 1] == '\n'
  {
  }

  /**
   * After logging, the last entry parsed from the daily log is the one just
   * written, with its own time, tag and message, whatever the file held before.
   */
  lemma LoggedLastEntry(now: Now, existing: string, message: string, tag: Option<string>)
    requires ValidNow(now) && !TagRejected(tag) && PlainMessage(message, tag)
    ensures var o := LogRun(now, existing, message, tag);
      var es := Parser.LogEntries(o.content);
      |es| > 0 &&
      es[|es| - 1] == Parser.LogEntry(Clock(now.hours, now.minutes), EffectiveTag(tag), message,
                                      |Split(o.content)| - 1, EntryLine(Clock(now.hours, now.minutes), tag, message))
  {
    var time := Clock(now.hours, now.minutes);
    ClockShape(now.hours, now.minutes);
    var header := Header(now.date);
    assert header[|header| - 1] == '\n';
    AppendedLastEntry(existing, header, time, tag, message);
  }

  /** The entry appended after any text and heading is the last one the parser finds. */
  lemma AppendedLastEntry(existing: string, header: string, time: string, tag: Option<string>, message: string)
    requires |header| > 0 && header[|header| - 1] == '\n'
    requires TimeShaped(time) && !TagRejected(tag) && PlainMessage(message, tag)
    ensures var content := Logged(existing, header, Entry(time, tag, message));
      var es := Parser.LogEntries(content);
      |es| > 0 &&
      es[|es| - 1] == Parser.LogEntry(time, EffectiveTag(tag), message, |Split(content)| - 1, EntryLine(time, tag, message))
  {
    var line := EntryLine(time, tag, message);
    var m := Parser.EntryMatch(time, EffectiveTag(tag), message);
    var content := Logged(existing, header, Entry(time, tag, message));
    EntryLineSingle(time, tag, message);
    LoggedIsPrefixed(existing, header, line + "\n");
    SplitLastLine(content, LogPrefix(existing, header), line);
    EntryRoundTrip(time, tag, message);
    LastLineEntry(content, line, m);
  }

  /** Logging an entry indexes the daily log under its file name, from its whole new text. */
  lemma LogIndexes(t: Tables, now: Now, existing: string, message: string, tag: Option<string>,
                   mtimeMs: int, size: nat)
    requires ValidNow(now) && !TagRejected(tag)
    ensures var o := LogRun(now, existing, message, tag);
      var title, body := Markdown.ExtractTitle(o.content), Markdown.ExtractBody(o.content);
      var u := Upserted(t, o.path, title, body, mtimeMs, size, None);
      o.Written? && o.path == FormatDate(now.date) + ".md" &&
      (!UpToDate(t, o.path, mtimeMs) ==>
        RowsFor(u.rows, o.path) == [FtsRow(o.path, title, body)] &&
        u.meta[o.path] == FileMeta(mtimeMs, size))
  {
    var o := LogRun(now, existing, message, tag);
    UpsertEffect(t, o.path, Markdown.ExtractTitle(o.content), Markdown.ExtractBody(o.content), mtimeMs, size, None);
  }
}
