/**
 * Calendar dates as the program formats and parses them (YYYY-MM-DD), and the
 * locations of the memory directory, the index database, MEMORY.md and the
 * daily log files under a project root.
 */
module Paths {
  import opened Wrappers
  import opened Text

  /** A calendar date as a JS `Date` reports it: full year, month 1..12, day of month. */
  datatype Date = Date(year: int, month: int, day: int)

  predicate IsLeapYear(y: int) {
    (y % 4 == 0 && y % 100 != 0) || y % 400 == 0
  }

  function DaysInMonth(y: int, m: int): (n: int)
    requires 1 <= m <= 12
    ensures 28 <= n <= 31
    ensures n == 29 <==> m == 2 && IsLeapYear(y)
  {
    if m == 2 then (if IsLeapYear(y) then 29 else 28)
    else if m == 4 || m == 6 || m == 9 || m == 11 then 30
    else 31
  }

  /** A date that exists in the calendar. */
  predicate ValidDate(d: Date) {
    1 <= d.month <= 12 && 1 <= d.day <= DaysInMonth(d.year, d.month)
  }

  /** The year `new Date(y, m, d)` builds from a year argument: 0..99 mean 1900..1999. */
  function DateCtorYear(y: int): (r: int)
    ensures 0 <= y <= 99 ==> r == 1900 + y
    ensures !(0 <= y <= 99) ==> r == y
  {
    if 0 <= y <= 99 then 1900 + y else y
  }

  /** Two-digit, zero-padded form of a month or day number. */
  function Pad2(n: nat): string
  {
    PadStart2(NatToString(n))
  }

  /** `formatDate`: the year, then month and day zero-padded to two digits, joined by '-'. */
  function FormatDate(d: Date): (r: string)
    requires 1 <= d.month <= 12 && 1 <= d.day <= 31
  {
    IntToString(d.year) + "-" + Pad2(d.month) + "-" + Pad2(d.day)
  }

  /** The string matches `^\d{4}-\d{2}-\d{2}$`. */
  predicate DateShaped(s: string) {
    |s| == 10 && AllDigits(s[..4]) && s[4] == '-' && AllDigits(s[5..7]) && s[7] == '-' && AllDigits(s[8..])
  }

  /** A file name matching `^\d{4}-\d{2}-\d{2}\.md$`. */
  predicate IsDailyLogName(name: string) {
    |name| == 13 && DateShaped(name[..10]) && name[10..] == ".md"
  }

  function FormatError(s: string): string {
    "Invalid date format: \"" + s + "\" (expected YYYY-MM-DD)"
  }

  function DateError(s: string): string {
    "Invalid date: \"" + s + "\""
  }

  /**
   * `parseDate`: rejects a string of the wrong shape, a month outside 1..12, a
   * day outside 1..31, and a day the month does not have (the rollover check
   * of `new Date(y, m - 1, d)`, which reads years 0..99 as 1900..1999).
   */
  function ParseDate(s: string): (r: Result<Date, string>)
    ensures !DateShaped(s) ==> r == Failure(FormatError(s))
    ensures r.Success? ==> DateShaped(s) && ValidDate(r.value)
    ensures r.Success? ==> r.value == Date(DateCtorYear(DigitsValue(s[..4])), DigitsValue(s[5..7]), DigitsValue(s[8..]))
    ensures DateShaped(s) ==> (r.Failure? <==> !ValidDate(Date(DateCtorYear(DigitsValue(s[..4])), DigitsValue(s[5..7]), DigitsValue(s[8..]))))
    ensures r.Failure? && DateShaped(s) ==> r.error == DateError(s)
  {
    if !DateShaped(s) then Failure(FormatError(s))
    else
      var y := DigitsValue(s[..4]);
      var m := DigitsValue(s[5..7]);
      var d := DigitsValue(s[8..]);
      if m < 1 || m > 12 || d < 1 || d > 31 then Failure(DateError(s))
      else if d > DaysInMonth(DateCtorYear(y), m) then Failure(DateError(s))
      else Success(Date(DateCtorYear(y), m, d))
  }

  /** Formatting a real date with a four-digit year and parsing it back gives the date. */
  lemma ParseFormatDate(d: Date)
    requires ValidDate(d) && 1000 <= d.year <= 9999
    ensures DateShaped(FormatDate(d))
    ensures ParseDate(FormatDate(d)) == Success(d)
  {
    var s := FormatDate(d);
    var ys := NatToString(d.year);
    FourDigits(d.year);
    DigitsValueOfNatToString(d.year);
    Pad2Digits(d.month);
    Pad2Digits(d.day);
    assert s[..4] == ys;
    assert s[5..7] == Pad2(d.month);
    assert s[8..] == Pad2(d.day);
  }

  /** Every string `ParseDate` accepts with a year not starting with '0' is what `FormatDate` prints. */
  lemma FormatParseDate(s: string)
    requires ParseDate(s).Success? && s[0] != '0'
    ensures FormatDate(ParseDate(s).value) == s
  {
    var d := ParseDate(s).value;
    NatToStringOfDigits(s[..4]);
    assert d.year == DigitsValue(s[..4]);
    assert IntToString(d.year) == s[..4];
    PadOfDigits(s[5..7]);
    PadOfDigits(s[8..]);
    assert s == s[..4] + "-" + s[5..7] + "-" + s[8..];
  }

  /** A four-digit string without a leading zero is the decimal form of its value. */
  lemma NatToStringOfDigits(t: string)
    requires |t| == 4 && AllDigits(t) && t[0] != '0'
    ensures 1000 <= DigitsValue(t) <= 9999
    ensures NatToString(DigitsValue(t)) == t
  {
    FourDigitsValue(t);
    NatToStringOfDigitsValue(t);
  }

  lemma FourDigitsValue(t: string)
    requires |t| == 4 && AllDigits(t)
    ensures DigitsValue(t) ==
      (t[0] as int - '0' as int) * 1000 + (t[1] as int - '0' as int) * 100 +
      (t[2] as int - '0' as int) * 10 + (t[3] as int - '0' as int)
  {
    var a, b, c := t[0] as int - '0' as int, t[1] as int - '0' as int, t[2] as int - '0' as int;
    assert t[..3][..2][..1][..0] == [];
    assert t[..3][..2] == t[..2] && t[..3][..2][..1] == t[..1];
    assert DigitsValue(t[..1]) == a;
    assert DigitsValue(t[..2]) == a * 10 + b;
    assert DigitsValue(t[..3]) == a * 100 + b * 10 + c;
  }

  /** A two-digit string is the padded decimal form of its value. */
  lemma PadOfDigits(t: string)
    requires |t| == 2 && AllDigits(t)
    ensures Pad2(DigitsValue(t)) == t
  {
    var a, b := t[0] as int - '0' as int, t[1] as int - '0' as int;
    assert t[..1][..0] == [];
    assert DigitsValue(t[..1]) == a;
    var v := DigitsValue(t);
    assert v == a * 10 + b;
    if a == 0 {
      assert NatToString(v) == [t[1]];
    } else {
      assert v / 10 == a && v % 10 == b;
      assert NatToString(v) == [t[0], t[1]];
    }
  }

  /** Formatting a real date with a four-digit year gives a daily-log file name. */
  lemma FormatDateIsLogName(d: Date)
    requires ValidDate(d) && 1000 <= d.year <= 9999
    ensures IsDailyLogName(FormatDate(d) + ".md")
  {
    ParseFormatDate(d);
    var s := FormatDate(d) + ".md";
    assert s[..10] == FormatDate(d);
  }

  /** `path.join(a, b)` for a relative segment `b`; normalisation is not modelled. */
  function PathJoin(a: string, b: string): string {
    if a == "" then b else if EndsWith(a, "/") then a + b else a + "/" + b
  }

  function MemoryDir(root: string): string {
    PathJoin(root, "memory")
  }

  function DbPath(root: string): string {
    PathJoin(MemoryDir(root), ".kex-mem.db")
  }

  function DurableMemoryPath(root: string): string {
    PathJoin(MemoryDir(root), "MEMORY.md")
  }

  function ClaudeMdPath(root: string): string {
    PathJoin(root, "CLAUDE.md")
  }

  function DailyLogPath(root: string, d: Date): string
    requires 1 <= d.month <= 12 && 1 <= d.day <= 31
  {
    PathJoin(MemoryDir(root), FormatDate(d) + ".md")
  }

  /**
   * The database, MEMORY.md and every daily log sit directly in the memory
   * directory, under the names `.kex-mem.db`, `MEMORY.md` and `YYYY-MM-DD.md`;
   * the three kinds of path never coincide.
   */
  lemma PathLayout(root: string, d: Date)
    requires ValidDate(d) && 1000 <= d.year <= 9999
    ensures DbPath(root) == MemoryDir(root) + "/" + ".kex-mem.db"
    ensures DurableMemoryPath(root) == MemoryDir(root) + "/" + "MEMORY.md"
    ensures DailyLogPath(root, d) == MemoryDir(root) + "/" + FormatDate(d) + ".md"
    ensures DbPath(root) != DurableMemoryPath(root)
    ensures DailyLogPath(root, d) != DbPath(root) && DailyLogPath(root, d) != DurableMemoryPath(root)
  {
    var m := MemoryDir(root);
    assert |m| > 0 && m[|m| - 1] == 'y';
    FormatDateIsLogName(d);
    var f := FormatDate(d) + ".md";
    var p := DailyLogPath(root, d);
    assert p[|p| - 4] == f[9];
    assert DbPath(root)[|DbPath(root)| - 1] == 'b';
    assert DurableMemoryPath(root)[|DurableMemoryPath(root)| - 4] == 'Y';
  }
}
