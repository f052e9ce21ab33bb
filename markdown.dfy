/**
 * Title and body extraction from Markdown text, and the text that appending
 * to a Markdown file produces.
 */
module Markdown {
  import opened Text

  /** The title one line yields once trimmed: the text after "# ", or the line itself. */
  function LineTitle(line: string): (r: string)
    requires Trim(line) != ""
    ensures |r| > 0
    ensures StartsWith(Trim(line), "# ") ==> r == Trim(Trim(line)[2..])
    ensures !StartsWith(Trim(line), "# ") ==> r == Trim(line)
  {
    var t := Trim(line);
    if StartsWith(t, "# ") then
      assert !IsSpace(t[|t| - 1]) && t[|t| - 1] in t[2..];
      Trim(t[2..])
    else t
  }

  /** The lines before `k` are blank and line `k` is not. */
  predicate FirstNonBlank(lines: seq<string>, k: int) {
    0 <= k < |lines| && Trim(lines[k]) != "" && forall i :: 0 <= i < k ==> Trim(lines[i]) == ""
  }

  /** The title of the first non-blank line, or "Untitled" when there is none. */
  function TitleOfLines(lines: seq<string>): (r: string)
    ensures |r| > 0
    ensures (forall i :: 0 <= i < |lines| ==> Trim(lines[i]) == "") ==> r == "Untitled"
  {
    if |lines| == 0 then "Untitled"
    else if Trim(lines[0]) != "" then LineTitle(lines[0])
    else TitleOfLines(lines[1..])
  }

  /** The title comes from the first non-blank line. */
  lemma {:induction false} TitleOfFirstNonBlank(lines: seq<string>, k: int)
    requires FirstNonBlank(lines, k)
    ensures TitleOfLines(lines) == LineTitle(lines[k])
    decreases k
  {
    if k > 0 {
      assert Trim(lines[0]) == "";
      FirstNonBlankShift(lines, k);
      TitleOfFirstNonBlank(lines[1..], k - 1);
    }
  }

  /** Past a blank first line, the first non-blank line is one place earlier in the rest. */
  lemma FirstNonBlankShift(lines: seq<string>, k: int)
    requires FirstNonBlank(lines, k) && k > 0
    ensures FirstNonBlank(lines[1..], k - 1) && lines[k] == lines[1..][k - 1]
  {
    assert forall i :: 0 <= i < k - 1 ==> lines[1..][i] == lines[i + 1];
  }

  /** `extractTitle`. */
  function ExtractTitle(content: string): string {
    TitleOfLines(Split(content))
  }

  /** The line matches `^#{1,6}\s+`: one to six '#' followed by whitespace. */
  predicate HasHeadingMark(line: string) {
    exists h :: 1 <= h <= 6 && h < |line| && IsSpace(line[h]) && forall i :: 0 <= i < h ==> line[i] == '#'
  }

  /** The number of leading '#' characters, at most six. */
  function Hashes(line: string): (h: nat)
    ensures h <= 6 && h <= |line|
    ensures forall i :: 0 <= i < h ==> line[i] == '#'
    ensures h < 6 && h < |line| ==> line[h] != '#'
  {
    if |line| == 0 || line[0] != '#' then 0
    else if |line| == 1 then 1
    else if line[1] != '#' then 1
    else if |line| == 2 || line[2] != '#' then 2
    else if |line| == 3 || line[3] != '#' then 3
    else if |line| == 4 || line[4] != '#' then 4
    else if |line| == 5 || line[5] != '#' then 5
    else 6
  }

  /** `line.replace(/^#{1,6}\s+/, "")`. */
  function StripHeading(line: string): (r: string)
    ensures !HasHeadingMark(line) ==> r == line
    ensures HasHeadingMark(line) ==> exists h, k ::
      1 <= h < k <= |line| && h <= 6 && (forall i :: 0 <= i < h ==> line[i] == '#') &&
      AllSpaces(line[h..k]) && r == line[k..] && (k < |line| ==> !IsSpace(line[k]))
    ensures HasHeadingMark(line) <==> |r| < |line|
  {
    var h := Hashes(line);
    HeadingMarkAtHashes(line);
    if 1 <= h && h < |line| && IsSpace(line[h]) then
      var k := h + LeadingSpaces(line[h..]);
      assert line[h..k] == line[h..][..k - h];
      assert k < |line| ==> line[k] == line[h..][k - h];
      line[k..]
    else line
  }

  /** The regex can only match with the maximal run of hashes: fewer leave a '#' where whitespace must be. */
  lemma HeadingMarkAtHashes(line: string)
    ensures HasHeadingMark(line) <==> 1 <= Hashes(line) < |line| && IsSpace(line[Hashes(line)])
  {
    var h := Hashes(line);
    if HasHeadingMark(line) {
      var g :| 1 <= g <= 6 && g < |line| && IsSpace(line[g]) && forall i :: 0 <= i < g ==> line[i] == '#';
      assert line[g] != '#';
      assert g == h;
    }
  }

  function StripAll(lines: seq<string>): (r: seq<string>)
    ensures |r| == |lines| && forall i :: 0 <= i < |lines| ==> r[i] == StripHeading(lines[i])
  {
    if |lines| == 0 then [] else [StripHeading(lines[0])] + StripAll(lines[1..])
  }

  /** `extractBody`: heading marks removed line by line, the lines re-joined and the result trimmed. */
  function ExtractBody(content: string): string {
    Trim(Join(StripAll(Split(content))))
  }

  /**
   * The lines of the body text before trimming are the content's lines with
   * their heading marks removed: one per content line, in order, and a line
   * without a mark is kept as it is.
   */
  lemma {:induction false} ExtractBodyLines(content: string)
    ensures Split(Join(StripAll(Split(content)))) == StripAll(Split(content))
    ensures forall i :: 0 <= i < |Split(content)| && !HasHeadingMark(Split(content)[i]) ==>
      StripAll(Split(content))[i] == Split(content)[i]
  {
    var lines := StripAll(Split(content));
    forall i | 0 <= i < |lines| ensures '\n' !in lines[i] {
      var l := Split(content)[i];
      assert '\n' !in l;
      if HasHeadingMark(l) {
        var h, k :| 1 <= h < k <= |l| && h <= 6 && (forall j :: 0 <= j < h ==> l[j] == '#') &&
          AllSpaces(l[h..k]) && lines[i] == l[k..] && (k < |l| ==> !IsSpace(l[k]));
        assert forall c :: c in l[k..] ==> c in l;
      }
    }
    SplitJoin(lines);
  }

  /** Content in which no line has a heading mark has the trimmed content as its body. */
  lemma {:induction false} ExtractBodyWithoutHeadings(content: string)
    requires forall i :: 0 <= i < |Split(content)| ==> !HasHeadingMark(Split(content)[i])
    ensures ExtractBody(content) == Trim(content)
  {
    var lines := Split(content);
    assert StripAll(lines) == lines;
    JoinSplit(content);
  }

  /** The text `appendMarkdown` writes: a newline is inserted only when the existing text lacks a final one. */
  function AppendText(existing: string, content: string): (r: string)
    ensures |r| == |existing| + |content| + (if existing != "" && !EndsWith(existing, "\n") then 1 else 0)
    ensures StartsWith(r, existing) && EndsWith(r, content)
    ensures existing != "" ==> r[|r| - |content| - 1] == '\n'
  {
    var sep := if existing != "" && !EndsWith(existing, "\n") then "\n" else "";
    existing + sep + content
  }
}
