/**
 * The report view: `renderMarkdown`, the minimal markdown-to-HTML rewriter
 * applied to the report text, and the source list of the printable copy.
 *
 * The regular expressions of `renderMarkdown` all carry the `g`, `i` and `m`
 * flags: `^` and `$` match at line boundaries and `.` matches any character
 * but a line terminator. Text is assumed free of the other line terminators
 * (CR, LS, PS), so lines are exactly the pieces between '\n' characters.
 * None of the patterns contains a letter, so `i` changes nothing.
 */
module ProspectResult {
  import opened Wrappers
  import opened Strings
  import opened Types
  import LinkList

  // ---------------------------------------------------------------------
  // Whole-line rules: headings and bullets
  // ---------------------------------------------------------------------

  /** The rule `replace(/^marker(.*$)/gim, open + '$1' + close)`. */
  datatype LineRule = LineRule(marker: string, open: string, close: string)

  const H3Rule: LineRule := LineRule("### ", "<h3>", "</h3>")
  const H2Rule: LineRule := LineRule("## ", "<h2>", "</h2>")
  const H1Rule: LineRule := LineRule("# ", "<h1>", "</h1>")
  const DashRule: LineRule := LineRule("- ", "<li>", "</li>")
  const StarRule: LineRule := LineRule("* ", "<li>", "</li>")

  /** A rule whose replacement text adds no line break. */
  predicate KeepsLines(rule: LineRule) {
    '\n' !in rule.open && '\n' !in rule.close
  }

  /** The rule applied to one line: a line starting with the marker is wrapped, minus the marker. */
  function RewriteLine(rule: LineRule, line: string): string {
    if StartsWith(line, rule.marker) then rule.open + line[|rule.marker|..] + rule.close else line
  }

  /** The rule applied to each line of a list. */
  function RewriteEach(rule: LineRule, lines: seq<string>): (out: seq<string>)
    ensures |out| == |lines|
    ensures forall k :: 0 <= k < |lines| ==> out[k] == RewriteLine(rule, lines[k])
  {
    seq(|lines|, k requires 0 <= k < |lines| => RewriteLine(rule, lines[k]))
  }

  /** The rule applied to a whole text, line by line. */
  function RewriteLines(rule: LineRule, text: string): string {
    Join(RewriteEach(rule, Split(text, '\n')), '\n')
  }

  /** Rewriting keeps the line structure: the lines of the result are the rewritten lines. */
  lemma RewriteLinesSplit(rule: LineRule, text: string)
    requires KeepsLines(rule)
    ensures Split(RewriteLines(rule, text), '\n') == RewriteEach(rule, Split(text, '\n'))
  {
    var lines := RewriteEach(rule, Split(text, '\n'));
    forall k | 0 <= k < |lines| ensures '\n' !in lines[k] {
      var line := Split(text, '\n')[k];
      if StartsWith(line, rule.marker) {
        assert lines[k] == rule.open + line[|rule.marker|..] + rule.close;
      }
    }
    SplitJoin(lines, '\n');
  }

  /** The heading a line becomes: the markers are tried from the longest to the shortest. */
  function HeadingOf(line: string): string {
    if StartsWith(line, "### ") then "<h3>" + line[4..] + "</h3>"
    else if StartsWith(line, "## ") then "<h2>" + line[3..] + "</h2>"
    else if StartsWith(line, "# ") then "<h1>" + line[2..] + "</h1>"
    else line
  }

  /** The three heading rules, in the order applied. */
  function Headings(text: string): string {
    RewriteLines(H1Rule, RewriteLines(H2Rule, RewriteLines(H3Rule, text)))
  }

  /** A rewritten line starts with the opening tag, which no marker starts with. */
  lemma NotRewrittenAgain(rule: LineRule, later: LineRule, line: string)
    requires rule.open != [] && later.marker != [] && rule.open[0] != later.marker[0]
    requires StartsWith(line, rule.marker)
    ensures RewriteLine(later, RewriteLine(rule, line)) == RewriteLine(rule, line)
  {
    var out := RewriteLine(rule, line);
    assert out[0] == rule.open[0];
  }

  /**
   * Each line of the text becomes its heading, and the lines stay the same
   * in number: a "### " line never becomes an h2 or h1, and a line without
   * a heading marker is left alone.
   */
  lemma HeadingsPerLine(text: string)
    ensures |Split(Headings(text), '\n')| == |Split(text, '\n')|
    ensures forall k :: 0 <= k < |Split(text, '\n')| ==>
      Split(Headings(text), '\n')[k] == HeadingOf(Split(text, '\n')[k])
  {
    var lines := Split(text, '\n');
    var t3 := RewriteLines(H3Rule, text);
    var t2 := RewriteLines(H2Rule, t3);
    RewriteLinesSplit(H3Rule, text);
    RewriteLinesSplit(H2Rule, t3);
    RewriteLinesSplit(H1Rule, t2);
    forall k | 0 <= k < |lines|
      ensures RewriteLine(H1Rule, RewriteLine(H2Rule, RewriteLine(H3Rule, lines[k]))) == HeadingOf(lines[k])
    {
      var line := lines[k];
      if StartsWith(line, "### ") {
        NotRewrittenAgain(H3Rule, H2Rule, line);
        NotRewrittenAgain(H3Rule, H1Rule, line);
      } else if StartsWith(line, "## ") {
        NotRewrittenAgain(H2Rule, H1Rule, line);
      }
    }
  }

  /** The item a line becomes: a line starting with "- " or "* " is wrapped in `<li>`. */
  function BulletOf(line: string): string {
    if StartsWith(line, "- ") || StartsWith(line, "* ") then "<li>" + line[2..] + "</li>" else line
  }

  /** The two bullet rules, in the order applied. */
  function Bullets(text: string): string {
    RewriteLines(StarRule, RewriteLines(DashRule, text))
  }

  /** Each line becomes its list item, or stays as it is, and the lines stay the same in number. */
  lemma BulletsPerLine(text: string)
    ensures |Split(Bullets(text), '\n')| == |Split(text, '\n')|
    ensures forall k :: 0 <= k < |Split(text, '\n')| ==>
      Split(Bullets(text), '\n')[k] == BulletOf(Split(text, '\n')[k])
  {
    var lines := Split(text, '\n');
    var dashed := RewriteLines(DashRule, text);
    RewriteLinesSplit(DashRule, text);
    RewriteLinesSplit(StarRule, dashed);
    forall k | 0 <= k < |lines|
      ensures RewriteLine(StarRule, RewriteLine(DashRule, lines[k])) == BulletOf(lines[k])
    {
      if StartsWith(lines[k], "- ") {
        NotRewrittenAgain(DashRule, StarRule, lines[k]);
      }
    }
  }

  // ---------------------------------------------------------------------
  // Bold: `replace(/\*\*(.*?)\*\*/gim, ...)` and `replace(/__(.*?)__/gim, ...)`
  // ---------------------------------------------------------------------

  /** A doubled marker `m m` starts at index `j` of `t`. */
  predicate PairAt(t: string, m: char, j: nat) {
    j + 2 <= |t| && t[j] == m && t[j + 1] == m
  }

  /**
   * Where the lazy `(.*?)` stops after an opening pair: at the first
   * closing pair, provided no line break comes before it (`.` does not
   * match one). `CloseAtIsFirstPair` states this in full.
   */
  function CloseAt(t: string, m: char): (r: Option<nat>)
    requires m != '\n'
    ensures r.Some? ==> PairAt(t, m, r.value)
    decreases |t|
  {
    if |t| < 2 then None
    else if t[0] == m && t[1] == m then Some(0)
    else if t[0] == '\n' then None
    else
      match CloseAt(t[1..], m)
      case None => None
      case Some(j) => Some(j + 1)
  }

  /**
   * `CloseAt` finds the first pair that no line break precedes: no pair
   * comes before it, none of the text before it is a line break, and when
   * it finds nothing, every pair has a line break before it.
   */
  lemma {:induction false} CloseAtIsFirstPair(t: string, m: char)
    requires m != '\n'
    ensures CloseAt(t, m).Some? ==> '\n' !in t[..CloseAt(t, m).value]
    ensures CloseAt(t, m).Some? ==> forall j: nat :: j < CloseAt(t, m).value ==> !PairAt(t, m, j)
    ensures CloseAt(t, m).None? ==> forall j: nat :: PairAt(t, m, j) ==> '\n' in t[..j]
    decreases |t|
  {
    if |t| >= 2 && !(t[0] == m && t[1] == m) {
      if t[0] == '\n' {
        forall j: nat | PairAt(t, m, j) ensures '\n' in t[..j] {
          assert t[..j][0] == '\n';
        }
      } else {
        CloseAtIsFirstPair(t[1..], m);
        assert forall j: nat :: 1 <= j <= |t| ==> t[..j] == [t[0]] + t[1..][..j - 1];
        assert forall j: nat :: 1 <= j <= |t| ==> (PairAt(t, m, j) <==> PairAt(t[1..], m, j - 1));
      }
    }
  }

  /** Without the marker there is no closing pair. */
  lemma {:induction false} CloseAtWithoutMarker(t: string, m: char)
    requires m != '\n' && m !in t
    ensures CloseAt(t, m) == None
    decreases |t|
  {
    if |t| >= 2 {
      assert t[0] in t;
      CloseAtWithoutMarker(t[1..], m);
    }
  }

  /**
   * No doubled marker starts anywhere in `t`. Single markers may occur; for
   * `x + [m]` the condition also says that `x` does not end with the marker.
   */
  predicate PairFree(t: string, m: char) {
    forall j: nat :: j < |t| ==> !PairAt(t, m, j)
  }

  /** Dropping the first character of `x` keeps `x + [m]` pair-free, and `x` opens no pair. */
  lemma PairFreeTail(x: string, m: char)
    requires x != [] && PairFree(x + [m], m)
    ensures PairFree(x[1..] + [m], m)
    ensures x[0] != m || (x + [m])[1] != m
  {
    assert !PairAt(x + [m], m, 0);
    assert x[1..] + [m] == (x + [m])[1..];
    forall j: nat | j < |x[1..] + [m]| ensures !PairAt(x[1..] + [m], m, j) {
      assert !PairAt(x + [m], m, j + 1);
    }
  }

  /**
   * The first pair after text on the same line that holds no pair (and does
   * not end with the marker) closes the run.
   */
  lemma {:induction false} CloseAtFirstPair(x: string, b: string, m: char)
    requires m != '\n' && '\n' !in x && PairFree(x + [m], m)
    ensures CloseAt(x + [m, m] + b, m) == Some(|x|)
    decreases |x|
  {
    var t := x + [m, m] + b;
    if x != [] {
      assert x[0] in x;
      PairFreeTail(x, m);
      assert t[0] == x[0] && t[1] == (x + [m])[1];
      assert t[1..] == x[1..] + [m, m] + b;
      CloseAtFirstPair(x[1..], b, m);
    }
  }

  /**
   * Every bold run `m m x m m` is replaced by `<strong>x</strong>`, scanning
   * from the left; a doubled marker without a closing pair on its line is
   * kept and the scan resumes one character later.
   */
  function Embolden(s: string, m: char): string
    requires m != '\n'
    decreases |s|
  {
    if |s| < 2 then s
    else if s[0] == m && s[1] == m && CloseAt(s[2..], m).Some? then
      var j := CloseAt(s[2..], m).value;
      "<strong>" + s[2..2 + j] + "</strong>" + Embolden(s[4 + j..], m)
    else [s[0]] + Embolden(s[1..], m)
  }

  /** `**x**` first, then `__x__`. */
  function Bolded(text: string): string {
    Embolden(Embolden(text, '*'), '_')
  }

  /** A closing pair is never looked for past a line break. */
  lemma {:induction false} CloseAtStopsAtNewline(x: string, y: string, m: char)
    requires m != '\n' && '\n' !in x
    ensures CloseAt(x + "\n" + y, m) == CloseAt(x, m)
    decreases |x|
  {
    var t := x + "\n" + y;
    if |x| >= 2 && !(x[0] == m && x[1] == m) {
      assert t[1..] == x[1..] + "\n" + y;
      CloseAtStopsAtNewline(x[1..], y, m);
    } else if |x| == 1 && x[0] != m {
      assert t[1..] == "\n" + y;
    }
  }

  /** Where no bold run starts, the first character is copied. */
  lemma EmboldenCopies(s: string, m: char)
    requires m != '\n' && s != []
    requires !(PairAt(s, m, 0) && CloseAt(s[2..], m).Some?)
    ensures Embolden(s, m) == [s[0]] + Embolden(s[1..], m)
  {
    if |s| == 1 {
      assert s[1..] == [];
    }
  }

  /** Where a bold run starts and closes at `j`, it is replaced. */
  lemma EmboldenReplaces(s: string, m: char, j: nat)
    requires m != '\n' && PairAt(s, m, 0) && CloseAt(s[2..], m) == Some(j)
    ensures Embolden(s, m) == "<strong>" + s[2..2 + j] + "</strong>" + Embolden(s[4 + j..], m)
  {
  }

  /** A bold run that opens and closes on the first line of `s` is replaced as in the line alone. */
  lemma RunBeforeNewline(a: string, b: string, s: string, m: char, j: nat)
    requires m != '\n' && '\n' !in a && s == a + "\n" + b
    requires PairAt(a, m, 0) && CloseAt(a[2..], m) == Some(j)
    ensures Embolden(s, m) == "<strong>" + a[2..2 + j] + "</strong>" + Embolden(s[4 + j..], m)
  {
    assert CloseAt(s[2..], m) == Some(j) by {
      assert s[2..] == a[2..] + "\n" + b;
      CloseAtStopsAtNewline(a[2..], b, m);
    }
    assert s[2..2 + j] == a[2..2 + j];
    EmboldenReplaces(s, m, j);
  }

  /** Where no bold run opens on the first line of `s`, its first character is copied. */
  lemma CopyBeforeNewline(a: string, b: string, s: string, m: char)
    requires m != '\n' && '\n' !in a && a != [] && s == a + "\n" + b
    requires !(PairAt(a, m, 0) && CloseAt(a[2..], m).Some?)
    ensures Embolden(s, m) == [a[0]] + Embolden(s[1..], m)
  {
    assert !(PairAt(s, m, 0) && CloseAt(s[2..], m).Some?) by {
      if PairAt(a, m, 0) {
        assert s[2..] == a[2..] + "\n" + b;
        CloseAtStopsAtNewline(a[2..], b, m);
      }
    }
    EmboldenCopies(s, m);
  }

  /** The line-by-line step where the first line opens with a bold run closed on it. */
  lemma LineByLineAtRun(a: string, b: string, s: string, m: char, j: nat)
    requires m != '\n' && '\n' !in a && s == a + "\n" + b
    requires PairAt(a, m, 0) && CloseAt(a[2..], m) == Some(j)
    requires Embolden(s[4 + j..], m) == Embolden(a[4 + j..], m) + "\n" + Embolden(b, m)
    ensures Embolden(s, m) == Embolden(a, m) + "\n" + Embolden(b, m)
  {
    RunBeforeNewline(a, b, s, m, j);
    EmboldenReplaces(a, m, j);
    RegroupAtBreak("<strong>" + a[2..2 + j] + "</strong>", Embolden(a[4 + j..], m), Embolden(b, m));
  }

  /** The line-by-line step where the first character of the first line is copied. */
  lemma LineByLineCopy(a: string, b: string, s: string, m: char)
    requires m != '\n' && '\n' !in a && a != [] && s == a + "\n" + b
    requires !(PairAt(a, m, 0) && CloseAt(a[2..], m).Some?)
    requires Embolden(s[1..], m) == Embolden(a[1..], m) + "\n" + Embolden(b, m)
    ensures Embolden(s, m) == Embolden(a, m) + "\n" + Embolden(b, m)
  {
    CopyBeforeNewline(a, b, s, m);
    EmboldenCopies(a, m);
    RegroupAtBreak([a[0]], Embolden(a[1..], m), Embolden(b, m));
  }

  /** `EmboldenLineByLine` for `s`, the text `a + "\n" + b`. */
  lemma {:induction false} EmboldenLines(a: string, b: string, s: string, m: char)
    requires m != '\n' && '\n' !in a && s == a + "\n" + b
    ensures Embolden(s, m) == Embolden(a, m) + "\n" + Embolden(b, m)
    decreases |a|
  {
    if a == [] {
      assert s == "\n" + b;
      EmboldenCopies(s, m);
      assert s[1..] == b;
    } else if PairAt(a, m, 0) && CloseAt(a[2..], m).Some? {
      var j := CloseAt(a[2..], m).value;
      assert s[4 + j..] == a[4 + j..] + "\n" + b;
      EmboldenLines(a[4 + j..], b, s[4 + j..], m);
      LineByLineAtRun(a, b, s, m, j);
    } else {
      assert s[1..] == a[1..] + "\n" + b;
      EmboldenLines(a[1..], b, s[1..], m);
      LineByLineCopy(a, b, s, m);
    }
  }

  /** Bold runs never span lines: emboldening works line by line. */
  lemma EmboldenLineByLine(a: string, b: string, m: char)
    requires m != '\n' && '\n' !in a
    ensures Embolden(a + "\n" + b, m) == Embolden(a, m) + "\n" + Embolden(b, m)
  {
    EmboldenLines(a, b, a + "\n" + b, m);
  }

  /** Text without the marker is left unchanged. */
  lemma {:induction false} EmboldenWithoutMarker(s: string, m: char)
    requires m != '\n' && m !in s
    ensures Embolden(s, m) == s
    decreases |s|
  {
    if s != [] {
      EmboldenCopies(s, m);
      EmboldenWithoutMarker(s[1..], m);
      assert [s[0]] + s[1..] == s;
    }
  }

  /** A doubled marker followed by text without the marker is left unchanged. */
  lemma {:induction false} EmboldenUnpaired(a: string, c: string, m: char)
    requires m != '\n' && m !in a && m !in c
    ensures Embolden(a + [m, m] + c, m) == a + [m, m] + c
    decreases |a|
  {
    var s := a + [m, m] + c;
    if a == [] {
      assert s[2..] == c;
      CloseAtWithoutMarker(c, m);
      EmboldenCopies(s, m);
      assert s[1..] == [m] + c;
      if c != [] {
        EmboldenCopies([m] + c, m);
        assert ([m] + c)[1..] == c;
      }
      EmboldenWithoutMarker(c, m);
    } else {
      assert a[0] in a;
      EmboldenCopies(s, m);
      assert s[1..] == a[1..] + [m, m] + c;
      EmboldenUnpaired(a[1..], c, m);
    }
  }

  /**
   * A text in which no doubled marker is followed by a closing pair on its
   * line is left unchanged: single markers, and doubled ones without a
   * partner, are kept as they are.
   */
  lemma {:induction false} NoClosingRunUnchanged(s: string, m: char)
    requires m != '\n'
    requires forall j: nat :: PairAt(s, m, j) ==> CloseAt(s[j + 2..], m).None?
    ensures Embolden(s, m) == s
    decreases |s|
  {
    if s != [] {
      EmboldenCopies(s, m);
      forall j: nat | PairAt(s[1..], m, j) ensures CloseAt(s[1..][j + 2..], m).None? {
        assert PairAt(s, m, j + 1);
        assert s[1..][j + 2..] == s[j + 3..];
      }
      NoClosingRunUnchanged(s[1..], m);
      assert [s[0]] + s[1..] == s;
    }
  }

  /** A complete pair at the start of `s` is replaced. */
  lemma EmboldenPairAtStart(x: string, b: string, s: string, m: char)
    requires m != '\n' && '\n' !in x && PairFree(x + [m], m) && s == [m, m] + x + [m, m] + b
    ensures Embolden(s, m) == "<strong>" + x + "</strong>" + Embolden(b, m)
  {
    assert s[2..] == x + [m, m] + b;
    CloseAtFirstPair(x, b, m);
    EmboldenReplaces(s, m, |x|);
    assert s[2..2 + |x|] == x;
    assert s[4 + |x|..] == b;
  }

  /**
   * Text that opens no pair at its front has its first character copied:
   * the result is `a` followed by whatever the rest of `a` is followed by.
   */
  lemma CopyBeforePair(a: string, tail: string, out: string, s: string, m: char)
    requires m != '\n' && a != [] && PairFree(a + [m], m)
    requires s == a + tail && tail != [] && tail[0] == m
    requires Embolden(s[1..], m) == a[1..] + out
    ensures Embolden(s, m) == a + out
  {
    assert !PairAt(s, m, 0) by {
      PairFreeTail(a, m);
      assert s[0] == a[0] && s[1] == (a + [m])[1];
    }
    EmboldenCopies(s, m);
    assert [a[0]] + (a[1..] + out) == ([a[0]] + a[1..]) + out;
    assert [a[0]] + a[1..] == a;
  }

  /** `EmboldenPair` for `s`, the text `a + tail` with `tail` the run and `b`. */
  lemma {:induction false} EmboldenPairIn(a: string, x: string, b: string, tail: string, s: string, m: char)
    requires m != '\n' && '\n' !in x && PairFree(a + [m], m) && PairFree(x + [m], m)
    requires tail == [m, m] + x + [m, m] + b && s == a + tail
    ensures Embolden(s, m) == a + ("<strong>" + x + "</strong>" + Embolden(b, m))
    decreases |a|
  {
    if a == [] {
      assert s == tail;
      EmboldenPairAtStart(x, b, s, m);
    } else {
      PairFreeTail(a, m);
      assert s[1..] == a[1..] + tail;
      EmboldenPairIn(a[1..], x, b, tail, s[1..], m);
      CopyBeforePair(a, tail, "<strong>" + x + "</strong>" + Embolden(b, m), s, m);
    }
  }

  /**
   * The leftmost complete pair on a line is replaced, and the scan goes on
   * after it. The text before it and the run's content may hold single
   * markers, but no doubled one, and neither ends with the marker (else the
   * pair would start, or close, one character earlier).
   */
  lemma EmboldenPair(a: string, x: string, b: string, m: char)
    requires m != '\n' && '\n' !in x && PairFree(a + [m], m) && PairFree(x + [m], m)
    ensures Embolden(a + [m, m] + x + [m, m] + b, m) ==
      a + "<strong>" + x + "</strong>" + Embolden(b, m)
  {
    var tail := [m, m] + x + [m, m] + b;
    assert a + [m, m] + x + [m, m] + b == a + tail;
    EmboldenPairIn(a, x, b, tail, a + tail, m);
    var out := Embolden(b, m);
    assert a + ("<strong>" + x + "</strong>" + out) == a + "<strong>" + x + "</strong>" + out;
  }

  // ---------------------------------------------------------------------
  // The list wrapper and the line breaks
  // ---------------------------------------------------------------------

  /** `if (html.includes('<li>')) html = '<ul>' + html + '</ul>'` */
  function WrapList(html: string): string {
    if Contains(html, "<li>") then "<ul>" + html + "</ul>" else html
  }

  /** The trimmed line starts with `<h`, `<ul` or `<li>`: a block element that gets no break. */
  predicate IsBlockStart(line: string) {
    var trimmed := Trim(line);
    StartsWith(trimmed, "<h") || StartsWith(trimmed, "<ul") || StartsWith(trimmed, "<li>")
  }

  /**
   * Line `index` of `count`: `<br/>` is appended exactly when the line is
   * not a block element and not the last line.
   */
  function BreakLine(line: string, index: nat, count: nat): (r: string)
    ensures r == line || r == line + "<br/>"
    ensures r == line + "<br/>" <==> !IsBlockStart(line) && index + 1 < count
    ensures index + 1 >= count ==> r == line
  {
    if IsBlockStart(line) then line
    else line + (if index + 1 < count then "<br/>" else "")
  }

  /** `lines.map(BreakLine)` */
  function BreakAll(lines: seq<string>): (out: seq<string>)
    ensures |out| == |lines|
    ensures forall k :: 0 <= k < |lines| ==> out[k] == BreakLine(lines[k], k, |lines|)
  {
    seq(|lines|, k requires 0 <= k < |lines| => BreakLine(lines[k], k, |lines|))
  }

  /** `renderMarkdown(markdownText)` */
  function RenderMarkdown(markdownText: string): string {
    var listed := Bullets(Bolded(Headings(markdownText)));
    Concat(BreakAll(Split(WrapList(listed), '\n')))
  }

  /** A break adds no '\n' to a line. */
  lemma BreakLineLacksNewline(line: string, index: nat, count: nat)
    requires '\n' !in line
    ensures '\n' !in BreakLine(line, index, count)
  {
    assert '\n' !in "<br/>";
  }

  /** Breaking lines that hold no '\n' gives a single line. */
  lemma BrokenIsOneLine(lines: seq<string>)
    requires forall k :: 0 <= k < |lines| ==> '\n' !in lines[k]
    ensures '\n' !in Concat(BreakAll(lines))
  {
    var broken := BreakAll(lines);
    forall k | 0 <= k < |broken| ensures '\n' !in broken[k] {
      BreakLineLacksNewline(lines[k], k, |lines|);
    }
    ConcatLacks(broken, '\n');
  }

  /** The rendered HTML is a single line: it is split on '\n' and joined with ''. */
  lemma RenderHasNoNewline(markdownText: string)
    ensures '\n' !in RenderMarkdown(markdownText)
  {
    BrokenIsOneLine(Split(WrapList(Bullets(Bolded(Headings(markdownText)))), '\n'));
  }

  /** A line starting with `<ul>` is a block start. */
  lemma ListOpensBlock(line: string)
    requires StartsWith(line, "<ul>")
    ensures IsBlockStart(line)
  {
    StartsWithTrans(line, "<ul>", "<ul");
    TrimKeepsPrefix(line, "<ul");
  }

  /** Broken lines whose first line starts with `<ul>` start with `<ul>`. */
  lemma BrokenStartsWithList(lines: seq<string>)
    requires |lines| >= 1 && StartsWith(lines[0], "<ul>")
    ensures StartsWith(Concat(BreakAll(lines)), "<ul>")
  {
    ListOpensBlock(lines[0]);
    assert BreakAll(lines)[0] == lines[0];
    ConcatKeepsPrefix(BreakAll(lines), "<ul>");
  }

  /** Broken lines whose last line ends with `</ul>` end with `</ul>`. */
  lemma BrokenEndsWithList(lines: seq<string>)
    requires |lines| >= 1 && EndsWith(lines[|lines| - 1], "</ul>")
    ensures EndsWith(Concat(BreakAll(lines)), "</ul>")
  {
    assert BreakAll(lines)[|lines| - 1] == lines[|lines| - 1];
    ConcatKeepsSuffix(BreakAll(lines), "</ul>");
  }

  /** The wrapped and broken fragment starts with `<ul>`: its first line is a block start. */
  lemma WrapsListStart(listed: string)
    requires Contains(listed, "<li>")
    ensures StartsWith(Concat(BreakAll(Split(WrapList(listed), '\n'))), "<ul>")
  {
    var wrapped := WrapList(listed);
    assert wrapped == "<ul>" + (listed + "</ul>");
    SplitPrepend("<ul>", listed + "</ul>", '\n');
    BrokenStartsWithList(Split(wrapped, '\n'));
  }

  /** The wrapped and broken fragment ends with `</ul>`: the last line gets no break. */
  lemma WrapsListEnd(listed: string)
    requires Contains(listed, "<li>")
    ensures EndsWith(Concat(BreakAll(Split(WrapList(listed), '\n'))), "</ul>")
  {
    var wrapped := WrapList(listed);
    assert wrapped == ("<ul>" + listed) + "</ul>";
    SplitAppend("<ul>" + listed, "</ul>", '\n');
    BrokenEndsWithList(Split(wrapped, '\n'));
  }

  /** When a list item was produced, the rendered report starts with `<ul>` and ends with `</ul>`. */
  lemma RenderWrapsList(markdownText: string)
    requires Contains(Bullets(Bolded(Headings(markdownText))), "<li>")
    ensures StartsWith(RenderMarkdown(markdownText), "<ul>")
    ensures EndsWith(RenderMarkdown(markdownText), "</ul>")
  {
    WrapsListStart(Bullets(Bolded(Headings(markdownText))));
    WrapsListEnd(Bullets(Bolded(Headings(markdownText))));
  }

  /** Without a list item no wrapper is added: the report is the broken lines of the bulleted text. */
  lemma RenderWithoutListItem(markdownText: string)
    requires !Contains(Bullets(Bolded(Headings(markdownText))), "<li>")
    ensures RenderMarkdown(markdownText) == Concat(BreakAll(Split(Bullets(Bolded(Headings(markdownText))), '\n')))
  {
  }

  // ---------------------------------------------------------------------
  // The source list of the printable copy
  // ---------------------------------------------------------------------

  /** The "Sources & References" section of the printable copy, or its absence. */
  datatype SourceSection = NoSection | Section(items: seq<LinkList.LinkItem>)

  /** `report.groundingLinks.length > 0 ? <section of the valid links> : ''` */
  function PdfSources(links: seq<GroundingChunk>): SourceSection {
    if |links| > 0 then Section(LinkList.Items(LinkList.ValidLinks(links))) else NoSection
  }

  /**
   * The section is present exactly when the report has citations; its
   * items are those of the valid citations, in order, with the same address
   * and label as on screen. Where the on-screen list shows nothing for a
   * non-empty list without a valid citation, the printable copy still has
   * the section, with no items.
   */
  lemma PdfSourcesAgreeWithLinkList(links: seq<GroundingChunk>)
    ensures PdfSources(links).Section? <==> |links| > 0
    ensures PdfSources(links).Section? ==>
      |PdfSources(links).items| == |LinkList.ValidLinks(links)| &&
      forall k :: 0 <= k < |LinkList.ValidLinks(links)| ==>
        PdfSources(links).items[k].href == LinkList.ValidLinks(links)[k].web.value.uri.value &&
        PdfSources(links).items[k].text == LinkList.Label(LinkList.ValidLinks(links)[k])
    ensures LinkList.Render(links).Some? ==> PdfSources(links) == Section(LinkList.Render(links).value)
    ensures LinkList.Render(links).None? && |links| > 0 ==> PdfSources(links) == Section([])
  {
  }
}
