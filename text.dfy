/**
 * The string operations of JavaScript that the program relies on, with their
 * JavaScript meaning: `trim()` and the regular-expression class `\s`, `.`,
 * `\d` and `\w`, `split("\n")`, `join("\n")`, `indexOf`, `includes`,
 * `startsWith`, `endsWith`, decimal formatting of numbers and `padStart(2, "0")`.
 */
module Text {

  /** The WhiteSpace and LineTerminator code points of JavaScript: what `trim()` removes and `\s` matches. */
  predicate IsSpace(c: char) {
    var n := c as int;
    n == 0x09 || n == 0x0A || n == 0x0B || n == 0x0C || n == 0x0D || n == 0x20 || n == 0xA0
    || n == 0x1680 || (0x2000 <= n <= 0x200A) || n == 0x2028 || n == 0x2029 || n == 0x202F
    || n == 0x205F || n == 0x3000 || n == 0xFEFF
  }

  /** The characters that a regular-expression `.` (without the s flag) does not match. */
  predicate IsLineTerminator(c: char) {
    c == '\n' || c == '\r' || c as int == 0x2028 || c as int == 0x2029
  }

  /** `\d` without the u flag. */
  predicate IsDigit(c: char) {
    '0' <= c <= '9'
  }

  /** `\w` without the u flag. */
  predicate IsWordChar(c: char) {
    ('a' <= c <= 'z') || ('A' <= c <= 'Z') || IsDigit(c) || c == '_'
  }

  predicate AllSpaces(s: string) {
    forall i :: 0 <= i < |s| ==> IsSpace(s[i])
  }

  predicate AllDigits(s: string) {
    forall i :: 0 <= i < |s| ==> IsDigit(s[i])
  }

  /** A string that `.+` can match entirely: no line terminator in it. */
  predicate SingleLine(s: string) {
    forall i :: 0 <= i < |s| ==> !IsLineTerminator(s[i])
  }

  predicate StartsWith(s: string, prefix: string) {
    |prefix| <= |s| && s[..|prefix|] == prefix
  }

  predicate EndsWith(s: string, suffix: string) {
    |suffix| <= |s| && s[|s| - |suffix|..] == suffix
  }

  /** `t` occurs in `s` starting at index `i`. */
  predicate OccursAt(s: string, t: string, i: nat) {
    i + |t| <= |s| && s[i..i + |t|] == t
  }

  /** `s.includes(t)`. */
  predicate Contains(s: string, t: string) {
    exists i | 0 <= i <= |s| :: OccursAt(s, t, i)
  }

  /** The number of leading characters of `s` that are white space. */
  function LeadingSpaces(s: string): (n: nat)
    ensures n <= |s| && AllSpaces(s[..n])
    ensures n < |s| ==> !IsSpace(s[n])
  {
    if |s| == 0 || !IsSpace(s[0]) then 0
    else
      var k := LeadingSpaces(s[1..]);
      assert s[..k + 1] == [s[0]] + s[1..][..k];
      k + 1
  }

  /** The number of white-space characters that end at index `j` of `s`. */
  function SpacesBefore(s: string, j: nat): (n: nat)
    requires j <= |s|
    ensures n <= j && forall i :: j - n <= i < j ==> IsSpace(s[i])
    ensures n < j ==> !IsSpace(s[j - n - 1])
  {
    if j == 0 || !IsSpace(s[j - 1]) then 0 else SpacesBefore(s, j - 1) + 1
  }

  /** The number of trailing characters of `s` that are white space. */
  function TrailingSpaces(s: string): (n: nat)
    ensures n <= |s| && AllSpaces(s[|s| - n..])
    ensures forall i :: |s| - n <= i < |s| ==> IsSpace(s[i])
    ensures n < |s| ==> !IsSpace(s[|s| - n - 1])
  {
    SpacesBefore(s, |s|)
  }

  function TrimEnd(s: string): string {
    s[..|s| - TrailingSpaces(s)]
  }

  /**
   * `s.trim()`: the result is the middle part of `s` between a white-space
   * prefix and a white-space suffix, and it neither starts nor ends with white space.
   */
  function Trim(s: string): (r: string)
    ensures exists i, j :: 0 <= i <= j <= |s| && r == s[i..j] && AllSpaces(s[..i]) && AllSpaces(s[j..])
    ensures |r| > 0 ==> !IsSpace(r[0]) && !IsSpace(r[|r| - 1])
    ensures AllSpaces(s) <==> r == ""
  {
    var i := LeadingSpaces(s);
    LeadingAll(s, i);
    if i < |s| then TrimBounds(s, i, TrailingSpaces(s)); s[i..|s| - TrailingSpaces(s)]
    else s[i..]
  }

  /** All of `s` is white space exactly when its leading white space is all of it. */
  lemma LeadingAll(s: string, i: nat)
    requires i == LeadingSpaces(s)
    ensures AllSpaces(s) <==> i == |s|
  {
    if i == |s| {
      assert s[..i] == s;
    }
  }

  /** Unless `s` is all white space, its leading and trailing white space leave a non-space middle. */
  lemma TrimBounds(s: string, i: nat, k: nat)
    requires i < |s| && !IsSpace(s[i])
    requires k <= |s| && forall j :: |s| - k <= j < |s| ==> IsSpace(s[j])
    ensures i < |s| - k
  {
  }

  /** `s.split("\n")`: never empty, and no piece holds a newline. */
  lemma SplitEmpty()
    ensures Split("") == [""]
  {
  }

  function Split(s: string): (r: seq<string>)
    ensures |r| >= 1
    ensures forall i :: 0 <= i < |r| ==> '\n' !in r[i]
  {
    if |s| == 0 then [""]
    else if s[0] == '\n' then [""] + Split(s[1..])
    else
      var t := Split(s[1..]);
      [[s[0]] + t[0]] + t[1..]
  }

  /** `lines.join("\n")`. */
  function Join(lines: seq<string>): string {
    if |lines| == 0 then ""
    else if |lines| == 1 then lines[0]
    else lines[0] + "\n" + Join(lines[1..])
  }

  /** `parts.join(sep)`. */
  function JoinWith(parts: seq<string>, sep: string): string {
    if |parts| == 0 then "" else if |parts| == 1 then parts[0] else parts[0] + sep + JoinWith(parts[1..], sep)
  }

  /** Joining the pieces of a split gives back the string. */
  lemma {:induction false} JoinSplit(s: string)
    ensures Join(Split(s)) == s
  {
    if |s| == 0 {
    } else if s[0] == '\n' {
      JoinSplit(s[1..]);
      assert s == "\n" + s[1..];
    } else {
      JoinSplit(s[1..]);
      var t := Split(s[1..]);
      if |t| == 1 {
        assert s == [s[0]] + t[0];
      } else {
        assert Join(t) == t[0] + "\n" + Join(t[1..]);
        assert s == [s[0]] + s[1..];
      }
    }
  }

  /** Splitting a joined list of newline-free lines gives back the lines. */
  /** Replacing one line by a line without a newline survives a join and a split. */
  lemma SplitJoinUpdate(lines: seq<string>, idx: nat, line: string)
    requires idx < |lines| && '\n' !in line
    requires forall i :: 0 <= i < |lines| ==> '\n' !in lines[i]
    ensures Split(Join(lines[idx := line])) == lines[idx := line]
  {
    var m := lines[idx := line];
    assert forall i :: 0 <= i < |m| ==> '\n' !in m[i];
    SplitJoin(m);
  }

  lemma {:induction false} SplitJoin(lines: seq<string>)
    requires |lines| >= 1
    requires forall i :: 0 <= i < |lines| ==> '\n' !in lines[i]
    ensures Split(Join(lines)) == lines
  {
    if |lines| == 1 {
      SplitNoNewline(lines[0]);
    } else {
      SplitJoin(lines[1..]);
      SplitNoNewline(lines[0]);
      SplitAppend(lines[0], Join(lines[1..]));
      assert lines == [lines[0]] + lines[1..];
    }
  }

  /** A string without a newline splits into itself. */
  lemma {:induction false} SplitNoNewline(s: string)
    requires '\n' !in s
    ensures Split(s) == [s]
  {
    if |s| > 0 {
      assert '\n' !in s[1..] by {
        forall i | 0 <= i < |s[1..]| ensures s[1..][i] != '\n' {
          assert s[1..][i] == s[i + 1];
        }
      }
      SplitNoNewline(s[1..]);
      assert s == [s[0]] + s[1..];
    }
  }

  /** Splitting distributes over a newline. */
  lemma {:induction false} SplitAppend(a: string, b: string)
    ensures Split(a + "\n" + b) == Split(a) + Split(b)
  {
    if |a| == 0 {
      assert a + "\n" + b == "\n" + b;
      assert ("\n" + b)[1..] == b;
    } else {
      assert (a + "\n" + b)[1..] == a[1..] + "\n" + b;
      SplitAppend(a[1..], b);
    }
  }

  /** The index of the first occurrence of `t` in `s` at or after `from`, or -1: `s.indexOf(t, from)`. */
  function IndexOfFrom(s: string, t: string, from: nat): (r: int)
    ensures r == -1 || (from <= r && OccursAt(s, t, r))
    ensures forall i :: from <= i && (r == -1 || i < r) ==> !OccursAt(s, t, i)
    decreases |s| + 1 - from
  {
    if from + |t| > |s| then -1
    else if s[from..from + |t|] == t then from
    else IndexOfFrom(s, t, from + 1)
  }

  /** `s.indexOf(t)`: -1 exactly when `s` does not contain `t`. */
  function IndexOf(s: string, t: string): (r: int)
    ensures r == -1 <==> !Contains(s, t)
    ensures r >= 0 ==> OccursAt(s, t, r) && forall i :: 0 <= i < r ==> !OccursAt(s, t, i)
  {
    IndexOfFrom(s, t, 0)
  }

  /** The number of non-overlapping occurrences of `t` in `s`, found left to right: `s.split(t).length - 1`. */
  function CountOcc(s: string, t: string): nat
    requires |t| > 0
    decreases |s|
  {
    if |s| < |t| then 0
    else if s[..|t|] == t then 1 + CountOcc(s[|t|..], t)
    else CountOcc(s[1..], t)
  }

  /** The character of a decimal digit. */
  function DigitChar(d: nat): (c: char)
    requires d < 10
    ensures IsDigit(c) && c as int - '0' as int == d
  {
    ('0' as int + d) as char
  }

  /** The decimal digits of `n` without leading zeros: `String(n)`. */
  function NatToString(n: nat): (r: string)
    ensures |r| >= 1 && AllDigits(r)
    decreases n
  {
    if n < 10 then [DigitChar(n)] else NatToString(n / 10) + [DigitChar(n % 10)]
  }

  /** `String(n)` for an integer that may be negative. */
  function IntToString(n: int): string {
    if n < 0 then "-" + NatToString(-n) else NatToString(n)
  }

  /** The value of a string of decimal digits: `Number(s)` for such a string. */
  function DigitsValue(s: string): nat
    requires AllDigits(s)
  {
    if |s| == 0 then 0 else DigitsValue(s[..|s| - 1]) * 10 + (s[|s| - 1] as int - '0' as int)
  }

  /** Reading back the decimal form of a number gives the number. */
  lemma {:induction false} DigitsValueOfNatToString(n: nat)
    ensures DigitsValue(NatToString(n)) == n
    decreases n
  {
    if n >= 10 {
      DigitsValueOfNatToString(n / 10);
      var s := NatToString(n);
      assert s[..|s| - 1] == NatToString(n / 10);
    }
  }

  /** Appending a digit to the decimal form of a positive number. */
  lemma NatToStringDigit(x: nat, d: nat)
    requires x >= 1 && d < 10
    ensures NatToString(10 * x + d) == NatToString(x) + [DigitChar(d)]
  {
    assert (10 * x + d) / 10 == x && (10 * x + d) % 10 == d;
  }

  /** A string of digits without a leading zero is the decimal form of its value. */
  lemma {:induction false} NatToStringOfDigitsValue(t: string)
    requires |t| >= 1 && AllDigits(t) && t[0] != '0'
    ensures DigitsValue(t) >= 1 && NatToString(DigitsValue(t)) == t
    decreases |t|
  {
    var n := |t| - 1;
    var d := t[n] as int - '0' as int;
    var p := t[..n];
    assert DigitChar(d) == t[n];
    if n == 0 {
      assert t == [t[0]];
    } else {
      assert p[0] == t[0];
      NatToStringOfDigitsValue(p);
      NatToStringDigit(DigitsValue(p), d);
      assert DigitsValue(t) == 10 * DigitsValue(p) + d;
      assert t == p + [t[n]];
    }
  }

  /** The decimal form of a number in 1000..9999 has four digits. */
  lemma FourDigits(n: nat)
    requires 1000 <= n <= 9999
    ensures |NatToString(n)| == 4
  {
    assert NatToString(n) == NatToString(n / 10) + [DigitChar(n % 10)];
    assert NatToString(n / 10) == NatToString(n / 100) + [DigitChar(n / 10 % 10)];
    assert NatToString(n / 100) == NatToString(n / 1000) + [DigitChar(n / 100 % 10)];
  }

  /** `s.padStart(2, "0")`. */
  function PadStart2(s: string): (r: string)
    ensures |s| >= 2 ==> r == s
    ensures |s| < 2 ==> |r| == 2 && EndsWith(r, s) && forall i :: 0 <= i < 2 - |s| ==> r[i] == '0'
  {
    if |s| == 0 then "00" else if |s| == 1 then "0" + s else s
  }

  /** `String(n).padStart(2, "0")` for a number below 100: two digits whose value is `n`. */
  lemma Pad2Digits(n: nat)
    requires n < 100
    ensures |PadStart2(NatToString(n))| == 2 && AllDigits(PadStart2(NatToString(n)))
    ensures DigitsValue(PadStart2(NatToString(n))) == n
  {
    var s := NatToString(n);
    var p := PadStart2(s);
    if n < 10 {
      assert p == ['0', DigitChar(n)];
      assert p[..1] == "0";
    } else {
      assert s == NatToString(n / 10) + [DigitChar(n % 10)];
      assert NatToString(n / 10) == [DigitChar(n / 10)];
      assert p == [DigitChar(n / 10), DigitChar(n % 10)];
      assert p[..1] == [DigitChar(n / 10)];
      assert p[..1][..0] == [];
      assert DigitsValue(p[..1]) == n / 10;
      assert DigitsValue(p) == DigitsValue(p[..1]) * 10 + (p[1] as int - '0' as int);
    }
  }

  // ----- facts about sequences, stated generically so that proofs using them
  // do not unfold the functions that built the sequences

  lemma AppendAssoc<T>(a: seq<T>, b: seq<T>, c: seq<T>)
    ensures a + b + c == a + (b + c)
  {
  }

  lemma PushAssoc<T>(a: seq<T>, b: seq<T>, x: T)
    ensures a + b + [x] == a + (b + [x])
  {
  }

  lemma ConsAssoc<T>(a: seq<T>, b: T, c: seq<T>)
    ensures a + ([b] + c) == (a + [b]) + c
  {
  }

  lemma Regroup<T>(a: seq<T>, b: seq<T>, c: seq<T>, d: seq<T>)
    ensures (a + b) + c + (b + c + d) == a + b + c + b + c + d
  {
  }

  lemma PrefixOfAppend<T>(a: seq<T>, b: seq<T>)
    ensures (a + b)[..|a|] == a
  {
  }

  lemma SliceAround<T>(p: seq<T>, m: seq<T>, t: seq<T>)
    ensures (p + m + t)[..|p|] == p && (p + m + t)[|p| + |m|..] == t
  {
  }

  lemma LastOfSnoc<T>(a: seq<T>, x: T)
    ensures |a + [x]| > 0 && (a + [x])[|a + [x]| - 1] == x
  {
  }

  lemma UpdateLast<T>(a: seq<T>, x: T, y: T)
    ensures (a + [x])[|a| := y] == a + [y]
  {
  }

  lemma SliceAfter<T>(a: seq<T>, b: seq<T>, i: nat, j: nat)
    requires |a| <= i <= j <= |a| + |b|
    ensures (a + b)[i..j] == b[i - |a|..j - |a|]
  {
  }
}
