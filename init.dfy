/**
 * `kex-mem init`: creates the memory directory, the durable MEMORY.md, the
 * database, and splices the kex-mem section between its two HTML-comment
 * markers into the project's CLAUDE.md.
 */
module Init {
  import opened Wrappers
  import opened Text
  import Paths

  const MarkerStart := "<!-- kex-mem:start -->"
  const MarkerEnd := "<!-- kex-mem:end -->"

  const MemoryTemplate := "# Durable Memory\n\nLong-term facts, decisions, and conventions for this project.\n\n## Decisions\n\n## Conventions\n\n## Architecture\n"

  const HooksNote := "Hooks: " + "use .claude-plugin/plugin.json for PostToolUse integration"

  /**
   * What the splice relies on in the injected section: it opens with the
   * start marker, closes with the end marker, and holds each exactly there.
   */
  ghost predicate InjectionShape(inj: string) {
    StartsWith(inj, MarkerStart) && EndsWith(inj, MarkerEnd) &&
    (forall i :: OccursAt(inj, MarkerStart, i) ==> i == 0) &&
    (forall i :: OccursAt(inj, MarkerEnd, i) ==> i == |inj| - |MarkerEnd|)
  }

  /** The blank-line separator put before an appended section. */
  function Separator(c: string): string {
    if c == "" || EndsWith(c, "\n\n") then ""
    else if EndsWith(c, "\n") then "\n"
    else "\n\n"
  }

  /**
   * The new CLAUDE.md content: a marked section is replaced (or, with no end
   * marker, everything from the start marker on is dropped), and when no start
   * marker is left the section is appended after a separator.
   */
  function Splice(c: string, inj: string): string {
    var c1 :=
      if Contains(c, MarkerStart) then
        var s := IndexOf(c, MarkerStart);
        var e := IndexOf(c, MarkerEnd);
        if e != -1 then c[..s] + inj + c[e + |MarkerEnd|..] else c[..s]
      else c;
    if Contains(c1, MarkerStart) then c1 else c1 + Separator(c1) + inj + "\n"
  }

  /** The end marker does not come before the first start marker. */
  predicate EndAfterStart(c: string) {
    IndexOf(c, MarkerEnd) == -1 ||
    (IndexOf(c, MarkerStart) != -1 && IndexOf(c, MarkerStart) <= IndexOf(c, MarkerEnd))
  }

  /** Where the kept user text ends: the first start marker, or the end of the file. */
  function FirstStart(c: string): (n: nat)
    ensures n <= |c|
  {
    if Contains(c, MarkerStart) then IndexOf(c, MarkerStart) else |c|
  }

  /** The text that ends up before the section. */
  function SplicePrefix(c: string): string {
    if Contains(c, MarkerStart) && Contains(c, MarkerEnd) then c[..FirstStart(c)]
    else c[..FirstStart(c)] + Separator(c[..FirstStart(c)])
  }

  /** The text that ends up after the section. */
  function SpliceTail(c: string): string {
    if Contains(c, MarkerStart) && Contains(c, MarkerEnd) then c[IndexOf(c, MarkerEnd) + |MarkerEnd|..]
    else "\n"
  }

  // ----- marker facts -----

  /** `t` starts with '<' and holds no other '<'. */
  predicate LtOnlyFirst(t: string) {
    |t| > 0 && t[0] == '<' && forall k :: 0 < k < |t| ==> t[k] != '<'
  }

  predicate NoNewline(t: string) {
    forall k :: 0 <= k < |t| ==> t[k] != '\n'
  }

  lemma MarkerFacts()
    ensures LtOnlyFirst(MarkerStart) && LtOnlyFirst(MarkerEnd)
    ensures NoNewline(MarkerStart) && NoNewline(MarkerEnd)
    ensures |MarkerStart| == 22 && |MarkerEnd| == 20
    ensures MarkerStart[13] != MarkerEnd[13]
  {
    StartMarkerFacts();
    EndMarkerFacts();
  }

  lemma StartMarkerFacts()
    ensures LtOnlyFirst(MarkerStart) && NoNewline(MarkerStart) && |MarkerStart| == 22 && MarkerStart[13] == 's'
  {
  }

  lemma EndMarkerFacts()
    ensures LtOnlyFirst(MarkerEnd) && NoNewline(MarkerEnd) && |MarkerEnd| == 20 && MarkerEnd[13] == 'e'
  {
  }

  // ----- occurrences in concatenations -----

  lemma OccursInFront(a: string, b: string, t: string, i: nat)
    requires i + |t| <= |a|
    ensures OccursAt(a + b, t, i) <==> OccursAt(a, t, i)
  {
    assert (a + b)[i..i + |t|] == a[i..i + |t|];
  }

  lemma OccursInMiddle(a: string, m: string, b: string, t: string, i: nat)
    requires |a| <= i && i + |t| <= |a| + |m|
    ensures OccursAt(a + m + b, t, i) <==> OccursAt(m, t, i - |a|)
  {
    assert (a + m + b)[i..i + |t|] == m[i - |a|..i - |a| + |t|];
  }

  lemma OccursInPrefix(c: string, t: string, i: nat, n: nat)
    requires n <= |c|
    ensures OccursAt(c[..n], t, i) ==> OccursAt(c, t, i)
  {
    if OccursAt(c[..n], t, i) {
      assert c[..n][i..i + |t|] == c[i..i + |t|];
    }
  }

  /** Two markers that each hold '<' only first cannot overlap: the later one's '<' would fall inside the earlier. */
  lemma NoOverlapAfter(s: string, p: string, q: string, i: nat, j: nat)
    requires LtOnlyFirst(p) && LtOnlyFirst(q) && i < j < i + |p| && OccursAt(s, p, i)
    ensures !OccursAt(s, q, j)
  {
    assert s[j] == s[i..i + |p|][j - i];
  }

  lemma NoOverlapBefore(s: string, p: string, q: string, i: nat, j: nat)
    requires LtOnlyFirst(p) && LtOnlyFirst(q) && i < j < i + |p| && OccursAt(s, q, j)
    ensures !OccursAt(s, p, i)
  {
    assert s[j] == s[j..j + |q|][0];
  }

  /** The two markers never start at the same place. */
  lemma StartNotEnd(s: string, i: nat)
    ensures !(OccursAt(s, MarkerStart, i) && OccursAt(s, MarkerEnd, i))
  {
    MarkerFacts();
    if OccursAt(s, MarkerStart, i) && i + 20 <= |s| {
      assert s[i + 13] == s[i..i + 22][13];
      assert s[i + 13] == s[i..i + 20][13];
    }
  }

  /** The first occurrence is at `p` when `t` occurs there and nowhere before. */
  lemma FirstAt(s: string, t: string, p: nat)
    requires OccursAt(s, t, p) && forall i :: 0 <= i < p ==> !OccursAt(s, t, i)
    ensures IndexOf(s, t) == p
  {
    assert Contains(s, t);
  }

  lemma NoneBeforeFirst(c: string, t: string, n: nat)
    requires |t| > 0 && n <= |c| && forall i :: 0 <= i < n ==> !OccursAt(c, t, i)
    ensures !Contains(c[..n], t)
  {
    forall i | 0 <= i <= n ensures !OccursAt(c[..n], t, i) {
      OccursInPrefix(c, t, i, n);
    }
  }

  /** Appending newlines cannot create a marker, which holds none. */
  lemma SeparatorAdds(c: string, t: string)
    requires !Contains(c, t) && |t| > 0 && NoNewline(t)
    ensures !Contains(c + Separator(c), t)
  {
    var sep := Separator(c);
    assert forall k :: 0 <= k < |sep| ==> sep[k] == '\n';
    forall i | 0 <= i <= |c + sep| ensures !OccursAt(c + sep, t, i) {
      if i + |t| <= |c| {
        OccursInFront(c, sep, t, i);
      } else if i + |t| <= |c + sep| {
        var k := i + |t| - 1;
        assert (c + sep)[k] == sep[k - |c|];
        assert (c + sep)[k] == (c + sep)[i..i + |t|][|t| - 1];
      }
    }
  }

  // ----- the shape of the result -----

  /** The user text before the first start marker holds neither marker. */
  lemma PrefixClean(c: string)
    requires EndAfterStart(c)
    ensures !Contains(SplicePrefix(c), MarkerStart) && !Contains(SplicePrefix(c), MarkerEnd)
  {
    MarkerFacts();
    var n := FirstStart(c);
    if Contains(c, MarkerStart) {
      NoneBeforeFirst(c, MarkerStart, n);
      NoneBeforeFirst(c, MarkerEnd, n);
    } else {
      assert c[..n] == c;
    }
    if !(Contains(c, MarkerStart) && Contains(c, MarkerEnd)) {
      SeparatorAdds(c[..n], MarkerStart);
      SeparatorAdds(c[..n], MarkerEnd);
    }
  }

  /** The result is the kept text, the section, and the kept tail. */
  lemma SpliceFramed(c: string, inj: string)
    requires InjectionShape(inj)
    ensures Splice(c, inj) == SplicePrefix(c) + inj + SpliceTail(c)
  {
    MarkerFacts();
    if Contains(c, MarkerStart) {
      var s := IndexOf(c, MarkerStart);
      NoneBeforeFirst(c, MarkerStart, s);
      if Contains(c, MarkerEnd) {
        var c1 := c[..s] + inj + c[IndexOf(c, MarkerEnd) + |MarkerEnd|..];
        OccursInMiddle(c[..s], inj, c[IndexOf(c, MarkerEnd) + |MarkerEnd|..], MarkerStart, s);
        assert OccursAt(c1, MarkerStart, s);
      }
    } else {
      assert c[..|c|] == c;
    }
  }

  /** The first start marker of `prefix + inj + tail` opens `inj` when `prefix` holds none. */
  lemma FramedStart(prefix: string, inj: string, tail: string)
    requires StartsWith(inj, MarkerStart) && !Contains(prefix, MarkerStart)
    ensures IndexOf(prefix + inj + tail, MarkerStart) == |prefix|
  {
    MarkerFacts();
    var r := prefix + inj + tail;
    var p := |prefix|;
    OccursInMiddle(prefix, inj, tail, MarkerStart, p);
    forall i | 0 <= i < p ensures !OccursAt(r, MarkerStart, i) {
      if i + |MarkerStart| <= p {
        OccursInFront(prefix, inj + tail, MarkerStart, i);
        assert r == prefix + (inj + tail);
      } else {
        NoOverlapBefore(r, MarkerStart, MarkerStart, i, p);
      }
    }
    FirstAt(r, MarkerStart, p);
  }

  /**
   * In `prefix + inj + tail` with no marker in `prefix`, the first start
   * marker is the one opening `inj` and the first end marker the one closing it.
   */
  lemma Framed(prefix: string, inj: string, tail: string)
    requires InjectionShape(inj) && !Contains(prefix, MarkerStart) && !Contains(prefix, MarkerEnd)
    ensures IndexOf(prefix + inj + tail, MarkerStart) == |prefix|
    ensures IndexOf(prefix + inj + tail, MarkerEnd) == |prefix| + |inj| - |MarkerEnd|
  {
    FramedStart(prefix, inj, tail);
    FramedEnd(prefix, inj, tail);
  }

  /** The first end marker of `prefix + inj + tail` closes `inj` when `prefix` holds none. */
  lemma FramedEnd(prefix: string, inj: string, tail: string)
    requires InjectionShape(inj) && !Contains(prefix, MarkerEnd)
    ensures IndexOf(prefix + inj + tail, MarkerEnd) == |prefix| + |inj| - |MarkerEnd|
  {
    var r := prefix + inj + tail;
    var q := |prefix| + |inj| - |MarkerEnd|;
    OccursInMiddle(prefix, inj, tail, MarkerEnd, q);
    forall i | 0 <= i < q ensures !OccursAt(r, MarkerEnd, i) {
      NoEndBeforeClose(prefix, inj, tail, i);
    }
    FirstAt(r, MarkerEnd, q);
  }

  /** No end marker starts before the one closing `inj`. */
  lemma NoEndBeforeClose(prefix: string, inj: string, tail: string, i: nat)
    requires InjectionShape(inj) && !Contains(prefix, MarkerEnd)
    requires i < |prefix| + |inj| - |MarkerEnd|
    ensures !OccursAt(prefix + inj + tail, MarkerEnd, i)
  {
    MarkerFacts();
    var r := prefix + inj + tail;
    var p := |prefix|;
    if i + |MarkerEnd| <= p {
      OccursInFront(prefix, inj + tail, MarkerEnd, i);
      assert r == prefix + (inj + tail);
    } else if i < p {
      OccursInMiddle(prefix, inj, tail, MarkerStart, p);
      NoOverlapBefore(r, MarkerEnd, MarkerStart, i, p);
    } else if i == p {
      OccursInMiddle(prefix, inj, tail, MarkerStart, p);
      StartNotEnd(r, i);
    } else {
      OccursInMiddle(prefix, inj, tail, MarkerEnd, i);
    }
  }

  /** With no marker in `prefix`, `prefix + inj + "\n"` holds each marker exactly once. */
  lemma FramedOnce(prefix: string, inj: string)
    requires InjectionShape(inj) && !Contains(prefix, MarkerStart) && !Contains(prefix, MarkerEnd)
    ensures forall i :: OccursAt(prefix + inj + "\n", MarkerStart, i) <==> i == |prefix|
    ensures forall i :: OccursAt(prefix + inj + "\n", MarkerEnd, i) <==> i == |prefix| + |inj| - |MarkerEnd|
  {
    MarkerFacts();
    var r := prefix + inj + "\n";
    var p := |prefix|;
    var q := |prefix| + |inj| - |MarkerEnd|;
    Framed(prefix, inj, "\n");
    forall i | i > p ensures !OccursAt(r, MarkerStart, i) {
      if i < p + |MarkerStart| {
        NoOverlapAfter(r, MarkerStart, MarkerStart, p, i);
      } else if i + |MarkerStart| <= p + |inj| {
        OccursInMiddle(prefix, inj, "\n", MarkerStart, i);
      } else if i < q {
        NoOverlapBefore(r, MarkerStart, MarkerEnd, i, q);
      } else if i == q {
        StartNotEnd(r, i);
      } else if i < q + |MarkerEnd| {
        NoOverlapAfter(r, MarkerEnd, MarkerStart, q, i);
      }
    }
    forall i | i > q ensures !OccursAt(r, MarkerEnd, i) {
      if i < q + |MarkerEnd| {
        NoOverlapAfter(r, MarkerEnd, MarkerEnd, q, i);
      }
    }
  }

  // ----- properties of the splice -----

  /** A file with no start marker keeps all of its text, gets a separator, then the section. */
  lemma SpliceAppends(c: string, inj: string)
    requires InjectionShape(inj) && !Contains(c, MarkerStart)
    ensures Splice(c, inj) == c + Separator(c) + inj + "\n"
  {
    SpliceFramed(c, inj);
    assert c[..|c|] == c;
  }

  /** A marked section is replaced, keeping the text around it. */
  lemma SpliceReplaces(c: string, inj: string)
    requires InjectionShape(inj) && Contains(c, MarkerStart) && Contains(c, MarkerEnd)
    ensures Splice(c, inj) ==
      c[..IndexOf(c, MarkerStart)] + inj + c[IndexOf(c, MarkerEnd) + |MarkerEnd|..]
  {
    SpliceFramed(c, inj);
  }

  /** A start marker with no end marker: everything from it on is replaced by the section. */
  lemma SpliceTruncates(c: string, inj: string)
    requires InjectionShape(inj) && Contains(c, MarkerStart) && !Contains(c, MarkerEnd)
    ensures Splice(c, inj) ==
      c[..IndexOf(c, MarkerStart)] + Separator(c[..IndexOf(c, MarkerStart)]) + inj + "\n"
  {
    SpliceFramed(c, inj);
  }

  /** Unless the kept text is empty, the section always starts after a blank line. */
  lemma SeparatorBlankLine(c: string)
    ensures c != "" ==> EndsWith(c + Separator(c), "\n\n")
    ensures |Separator(c)| <= 2
  {
    var r := c + Separator(c);
    if c != "" && !EndsWith(c, "\n\n") {
      if EndsWith(c, "\n") {
        assert r[|r| - 2..] == [c[|c| - 1], '\n'];
        assert c[|c| - 1..] == "\n";
      } else {
        assert r[|r| - 2..] == "\n\n";
      }
    }
  }

  /** Everything before the first start marker survives at the head of the file. */
  lemma SpliceKeepsPrefix(c: string, inj: string)
    requires InjectionShape(inj)
    ensures StartsWith(Splice(c, inj), c[..FirstStart(c)])
  {
    SpliceFramed(c, inj);
    var r := Splice(c, inj);
    assert r[..FirstStart(c)] == SplicePrefix(c)[..FirstStart(c)];
  }

  /**
   * The result holds the section whole, with its first start marker and first
   * end marker the section's own, so that a later run finds them again.
   */
  lemma SpliceMarkers(c: string, inj: string)
    requires InjectionShape(inj) && EndAfterStart(c)
    ensures IndexOf(Splice(c, inj), MarkerStart) == |SplicePrefix(c)|
    ensures IndexOf(Splice(c, inj), MarkerEnd) == |SplicePrefix(c)| + |inj| - |MarkerEnd|
    ensures Splice(c, inj)[|SplicePrefix(c)|..|SplicePrefix(c)| + |inj|] == inj
    ensures EndAfterStart(Splice(c, inj))
  {
    SpliceFramed(c, inj);
    PrefixClean(c);
    Framed(SplicePrefix(c), inj, SpliceTail(c));
    var r := Splice(c, inj);
    assert r[|SplicePrefix(c)|..|SplicePrefix(c)| + |inj|] == inj;
  }

  /** Running init again leaves CLAUDE.md unchanged. */
  lemma SpliceIdempotent(c: string, inj: string)
    requires InjectionShape(inj) && EndAfterStart(c)
    ensures Splice(Splice(c, inj), inj) == Splice(c, inj)
  {
    var r := Splice(c, inj);
    var p := SplicePrefix(c);
    var t := SpliceTail(c);
    SpliceMarkers(c, inj);
    SpliceFramed(c, inj);
    assert Contains(r, MarkerStart) && Contains(r, MarkerEnd);
    SpliceReplaces(r, inj);
    SliceAround(p, inj, t);
  }

  /**
   * A file that had no complete section ends up with exactly one start marker
   * and exactly one end marker.
   */
  lemma SpliceOneSection(c: string, inj: string)
    requires InjectionShape(inj) && EndAfterStart(c) && !(Contains(c, MarkerStart) && Contains(c, MarkerEnd))
    ensures forall i :: OccursAt(Splice(c, inj), MarkerStart, i) <==> i == |SplicePrefix(c)|
    ensures forall i :: OccursAt(Splice(c, inj), MarkerEnd, i) <==> i == |SplicePrefix(c)| + |inj| - |MarkerEnd|
  {
    SpliceFramed(c, inj);
    PrefixClean(c);
    FramedOnce(SplicePrefix(c), inj);
  }

  /**
   * An end marker before the first start marker is not guarded against: a
   * file holding only an end marker gets the section appended, and the next
   * run copies the section a second time, so init is not idempotent there.
   */
  lemma StrayEndRepeats(inj: string)
    requires InjectionShape(inj)
    ensures Splice(MarkerEnd, inj) == MarkerEnd + "\n\n" + inj + "\n"
    ensures Splice(Splice(MarkerEnd, inj), inj) == MarkerEnd + "\n\n" + inj + "\n\n" + inj + "\n"
  {
    StrayEndOnce(inj);
    var pre := MarkerEnd + "\n\n";
    var r := pre + inj + "\n";
    StrayEndFramed(inj);
    SpliceReplaces(r, inj);
    StrayEndPieces(inj);
    Regroup(MarkerEnd, "\n\n", inj, "\n");
  }

  /** The once-spliced file around its section: the stray end and blank line, then the rest after the stray marker. */
  lemma StrayEndPieces(inj: string)
    ensures var r := MarkerEnd + "\n\n" + inj + "\n";
      |MarkerEnd| == 20 && r[..22] == MarkerEnd + "\n\n" && r[20..] == "\n\n" + inj + "\n"
  {
    var pre := MarkerEnd + "\n\n";
    var r := pre + inj + "\n";
    assert |pre| == 22;
    assert r[..|pre|] == pre;
    assert r[20..] == "\n\n" + inj + "\n";
  }

  lemma StrayEndOnce(inj: string)
    requires InjectionShape(inj)
    ensures Splice(MarkerEnd, inj) == MarkerEnd + "\n\n" + inj + "\n"
  {
    MarkerFacts();
    assert !Contains(MarkerEnd, MarkerStart);
    SpliceAppends(MarkerEnd, inj);
    assert MarkerEnd[|MarkerEnd| - 1] == '>';
    assert Separator(MarkerEnd) == "\n\n";
  }

  /** In the once-spliced file the first end marker is the stray one, before the section. */
  lemma StrayEndFramed(inj: string)
    requires InjectionShape(inj)
    ensures var r := MarkerEnd + "\n\n" + inj + "\n";
      IndexOf(r, MarkerStart) == 22 && IndexOf(r, MarkerEnd) == 0 &&
      Contains(r, MarkerStart) && Contains(r, MarkerEnd)
  {
    MarkerFacts();
    var pre := MarkerEnd + "\n\n";
    var r := pre + inj + "\n";
    assert !Contains(pre, MarkerStart) by {
      assert pre[0..22][13] == MarkerEnd[13];
      assert forall i | 0 <= i <= |pre| :: !OccursAt(pre, MarkerStart, i);
    }
    FramedStart(pre, inj, "\n");
    assert OccursAt(r, MarkerEnd, 0) by { assert r[..20] == MarkerEnd; }
    FirstAt(r, MarkerEnd, 0);
    assert OccursAt(r, MarkerStart, |pre|);
  }

  // ----- the command -----

  /** The files init looks at. */
  datatype Project = Project(
    memDirExists: bool,
    durable: Option<string>,
    claude: Option<string>,
    pluginDirExists: bool)

  datatype InitRun = InitRun(after: Project, out: seq<string>)

  /** The lines init prints. */
  function InitOutput(root: string, p: Project, hooks: bool): seq<string> {
    (if p.memDirExists then [] else ["Created " + Paths.MemoryDir(root)]) +
    (if p.durable.Some? then [] else ["Created " + Paths.DurableMemoryPath(root)]) +
    ["Initialized " + Paths.DbPath(root), "Updated " + Paths.ClaudeMdPath(root)] +
    (if hooks then [HooksNote] else []) +
    ["longmem initialized."]
  }

  /** A run of `kex-mem init` in `root`, with `hooks` for `--hooks`. */
  function InitCommand(root: string, p: Project, hooks: bool, inj: string): InitRun {
    var after := Project(
      true,
      if p.durable.None? then Some(MemoryTemplate) else p.durable,
      Some(Splice(OrDefault(p.claude, ""), inj)),
      p.pluginDirExists || hooks);
    InitRun(after, InitOutput(root, p, hooks))
  }

  /**
   * MEMORY.md is written with the template only when it is absent, an
   * existing one is never overwritten, and the memory directory and CLAUDE.md
   * exist afterwards.
   */
  lemma InitCreates(root: string, p: Project, hooks: bool, inj: string)
    ensures p.durable.Some? ==> InitCommand(root, p, hooks, inj).after.durable == p.durable
    ensures p.durable.None? ==> InitCommand(root, p, hooks, inj).after.durable == Some(MemoryTemplate)
    ensures InitCommand(root, p, hooks, inj).after.memDirExists && InitCommand(root, p, hooks, inj).after.claude.Some?
    ensures hooks ==> InitCommand(root, p, hooks, inj).after.pluginDirExists
  {
  }

  lemma HeadsDiffer(a: string, b: string)
    requires |a| > 0 && |b| > 0 && a[0] != b[0]
    ensures a != b
  {
  }

  /** The "Created" line for MEMORY.md differs from every other line init prints. */
  lemma CreatedLineDistinct(root: string)
    ensures "Created " + Paths.DurableMemoryPath(root) != "Created " + Paths.MemoryDir(root)
    ensures "Created " + Paths.DurableMemoryPath(root) != "Initialized " + Paths.DbPath(root)
    ensures "Created " + Paths.DurableMemoryPath(root) != "Updated " + Paths.ClaudeMdPath(root)
    ensures "Created " + Paths.DurableMemoryPath(root) != HooksNote
    ensures "Created " + Paths.DurableMemoryPath(root) != "longmem initialized."
  {
    var created := "Created " + Paths.DurableMemoryPath(root);
    var m := Paths.MemoryDir(root);
    assert |m| > 0 && m[|m| - 1] == 'y';
    assert |Paths.DurableMemoryPath(root)| == |m| + 10;
    assert created[0] == 'C';
    HeadsDiffer(created, "Initialized " + Paths.DbPath(root));
    HeadsDiffer(created, "Updated " + Paths.ClaudeMdPath(root));
    assert HooksNote[0] == "Hooks: "[0];
    HeadsDiffer(created, HooksNote);
    HeadsDiffer(created, "longmem initialized.");
  }

  /** init reports creating MEMORY.md exactly when it was absent. */
  lemma InitReports(root: string, p: Project, hooks: bool)
    ensures ("Created " + Paths.DurableMemoryPath(root) in InitOutput(root, p, hooks)) <==> p.durable.None?
  {
    CreatedLineDistinct(root);
  }

  /** A second init leaves every file as the first one left it. */
  lemma InitTwice(root: string, p: Project, hooks: bool, inj: string)
    requires InjectionShape(inj) && EndAfterStart(OrDefault(p.claude, ""))
    ensures var once := InitCommand(root, p, hooks, inj).after;
      InitCommand(root, once, hooks, inj).after == once
  {
    SpliceIdempotent(OrDefault(p.claude, ""), inj);
  }
}
