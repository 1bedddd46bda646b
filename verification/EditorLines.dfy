/** Where the formatter breaks the words into lines and how deep it indents each, read from the words. */
module EditorLines {
  import opened EditorLayout

  /** The braces open before word `i`; a closing one without its opening one counts for nothing. */
  function Braces(ws: seq<string>, i: nat): nat
    requires i <= |ws|
  {
    if i == 0 then 0
    else
      var before := Braces(ws, i - 1);
      if ws[i - 1] == "{" then before + 1
      else if ws[i - 1] == "}" && before > 0 then before - 1
      else before
  }

  /** PREFIX or SELECT outside every brace. */
  predicate Restarts(ws: seq<string>, i: nat) {
    i < |ws| && (ws[i] == "PREFIX" || ws[i] == "SELECT") && Braces(ws, i) == 0
  }

  predicate EndsLine(w: string) {
    w == "{" || w == "}" || w == "." || w == ";"
  }

  /** A line starts at word `i`: after a brace, a dot or a semicolon, at a closing brace, at a prologue word. */
  predicate BreaksAt(ws: seq<string>, i: nat)
    requires 0 < i < |ws|
  {
    EndsLine(ws[i - 1]) || ws[i] == "}" || Restarts(ws, i)
  }

  /** The line that starts at word `i` continues a subject's list after a semicolon. */
  predicate Hangs(ws: seq<string>, i: nat)
    requires i < |ws|
  {
    && i > 0 && ws[i - 1] == ";" && ws[i] != "}" && !Restarts(ws, i)
    && ws[i] != "FILTER" && ws[i] != "OPTIONAL" && ws[i] != "VALUES"
  }

  /** How deep the line that starts at word `i` is: a closing brace is as deep as the line that opened it. */
  function Indent(ws: seq<string>, i: nat): nat
    requires i < |ws|
  {
    Braces(ws, if ws[i] == "}" then i + 1 else i) + if Hangs(ws, i) then 1 else 0
  }

  /** A line: its depth and its words. */
  datatype Line = Line(depth: nat, words: seq<string>)

  /** The words joined; a dot or semicolon that ends the line has its space even with nothing before it. */
  function Shown(ws: seq<string>): string {
    if ws == ["."] || ws == [";"] then " " + ws[0] else Join(ws, " ")
  }

  /** Two spaces for each level, then the words, without space inside parentheses. */
  function TextOf(l: Line): string {
    CloseParens(OpenParens(Blanks(2 * l.depth) + Shown(l.words)))
  }

  function Texts(ls: seq<Line>): seq<string> {
    seq(|ls|, n requires 0 <= n < |ls| => TextOf(ls[n]))
  }

  /** The first break from word `k` on, or the end. */
  function NextBreak(ws: seq<string>, k: nat): (b: nat)
    requires 0 < k <= |ws|
    ensures k <= b <= |ws| && (b < |ws| ==> BreaksAt(ws, b)) && forall n :: k <= n < b ==> !BreaksAt(ws, n)
    decreases |ws| - k
  {
    if k == |ws| || BreaksAt(ws, k) then k else NextBreak(ws, k + 1)
  }

  /** The lines from word `a` on, each up to the next break. */
  function LinesFrom(ws: seq<string>, a: nat): seq<Line>
    requires a <= |ws|
    decreases |ws| - a
  {
    if a == |ws| then []
    else
      var b := NextBreak(ws, a + 1);
      [Line(Indent(ws, a), ws[a..b])] + LinesFrom(ws, b)
  }

  // ---- the formatter's loop cuts there ----

  /** The depth a line gets if it is flushed now. */
  function FlushDepth(st: Layout): nat {
    st.depth + if st.hang && !Unhung(st.cur) then 1 else 0
  }

  /** The layout of the words up to `i`, the line from word `a` on not yet flushed. */
  ghost predicate Cut(ws: seq<string>, i: nat, st: Layout, a: nat) {
    && a <= i <= |ws| && st.cur == ws[a..i] && st.depth == Braces(ws, i)
    && (a == i <==> i == 0 || EndsLine(ws[i - 1])) && (a == i ==> (st.hang <==> i > 0 && ws[i - 1] == ";"))
    && (a < i ==> NextBreak(ws, a + 1) == NextBreak(ws, i) && FlushDepth(st) == Indent(ws, a))
  }

  lemma TextsAppend(a: seq<Line>, b: seq<Line>)
    ensures Texts(a + b) == Texts(a) + Texts(b)
  {}

  /** The text flushed is the line's. */
  lemma FlushedLine(ws: seq<string>, a: nat, i: nat, st: Layout)
    requires a < i <= |ws| && st.cur == ws[a..i] && ws[i - 1] != "." && ws[i - 1] != ";"
    requires FlushDepth(st) == Indent(ws, a)
    ensures Flushed(st, "") == st.(lines := st.lines + Texts([Line(Indent(ws, a), ws[a..i])]), cur := [])
  {
    PlainText(st, Line(Indent(ws, a), ws[a..i]));
  }

  lemma PlainText(st: Layout, l: Line)
    requires st.cur == l.words && l.words != [] && l.words[|l.words| - 1] != "." && l.words[|l.words| - 1] != ";"
    requires FlushDepth(st) == l.depth
    ensures Flushed(st, "") == st.(lines := st.lines + Texts([l]), cur := [])
  {
    var text := Blanks(2 * l.depth) + Join(st.cur, " ");
    assert text + "" == text;
    assert Texts([l]) == [TextOf(l)];
  }

  lemma EndedLine(ws: seq<string>, a: nat, i: nat, st: Layout, mark: char)
    requires a <= i < |ws| && st.cur == ws[a..i] && (mark == '.' || mark == ';') && ws[i] == [mark]
    requires FlushDepth(st) == Indent(ws, a)
    ensures Flushed(st, [' ', mark])
            == st.(lines := st.lines + Texts([Line(Indent(ws, a), ws[a..i + 1])]), cur := [])
  {
    assert ws[a..i + 1] == st.cur + [[mark]];
    EndedText(st, mark, Line(Indent(ws, a), ws[a..i + 1]));
  }

  lemma EndedText(st: Layout, mark: char, l: Line)
    requires l.words == st.cur + [[mark]] && (mark == '.' || mark == ';') && FlushDepth(st) == l.depth
    ensures Flushed(st, [' ', mark]) == st.(lines := st.lines + Texts([l]), cur := [])
  {
    ShownEnded(st.cur, mark);
    var indent := Blanks(2 * l.depth);
    assert indent + Join(st.cur, " ") + [' ', mark] == indent + (Join(st.cur, " ") + [' ', mark]);
    assert Texts([l]) == [TextOf(l)];
  }

  lemma ShownEnded(cur: seq<string>, mark: char)
    requires mark == '.' || mark == ';'
    ensures Shown(cur + [[mark]]) == Join(cur, " ") + [' ', mark]
  {
    if cur == [] {
      assert cur + [[mark]] == [[mark]];
      assert [mark] == "." || [mark] == ";";
      assert " " + [mark] == [' ', mark] == Join(cur, " ") + [' ', mark];
    } else {
      assert (cur + [[mark]])[..|cur|] == cur;
      assert Join(cur, " ") + " " + [mark] == Join(cur, " ") + [' ', mark];
    }
  }

  lemma BracesOnward(ws: seq<string>, i: nat)
    requires i < |ws|
    ensures Braces(ws, i + 1) == (if ws[i] == "{" then Braces(ws, i) + 1
                                  else if ws[i] == "}" && Braces(ws, i) > 0 then Braces(ws, i) - 1
                                  else Braces(ws, i))
  {}

  /** A layout with no line open. */
  lemma CleanCut(ws: seq<string>, i: nat, lines: seq<string>, hang: bool)
    requires 0 < i <= |ws| && EndsLine(ws[i - 1]) && (hang <==> ws[i - 1] == ";")
    ensures Cut(ws, i, Layout(lines, Braces(ws, i), [], hang), i)
  {}

  /** The lines flushed when the open line moves from word `a` to word `b`. */
  ghost predicate Adds(ws: seq<string>, a: nat, b: nat, added: seq<Line>) {
    a <= b <= |ws| && added + LinesFrom(ws, b) == LinesFrom(ws, a)
  }

  lemma AddsOne(ws: seq<string>, a: nat, b: nat)
    requires a < b <= |ws| && b == NextBreak(ws, a + 1)
    ensures Adds(ws, a, b, [Line(Indent(ws, a), ws[a..b])])
  {}

  lemma AddsOnward(ws: seq<string>, a: nat, b: nat, c: nat, first: seq<Line>, after: seq<Line>)
    requires Adds(ws, a, b, first) && Adds(ws, b, c, after)
    ensures Adds(ws, a, c, first + after)
  {
    assert first + after + LinesFrom(ws, c) == first + (after + LinesFrom(ws, c));
  }

  lemma LinesOnward(lines: seq<string>, more: seq<string>, first: seq<Line>, after: seq<Line>)
    requires more == lines + Texts(first)
    ensures more + Texts(after) == lines + Texts(first + after)
  {
    TextsAppend(first, after);
  }

  /** Where a line starts with word `i`, the one before it is flushed. */
  lemma BreakFlushed(ws: seq<string>, i: nat, st: Layout, a: nat) returns (added: seq<Line>)
    requires Cut(ws, i, st, a) && (i < |ws| && i > 0 ==> BreaksAt(ws, i))
    ensures Flushed(st, "") == st.(lines := st.lines + Texts(added), cur := []) && Adds(ws, a, i, added)
  {
    if a < i {
      FlushedLine(ws, a, i, st);
      added := [Line(Indent(ws, a), ws[a..i])];
      AddsOne(ws, a, i);
    } else {
      added := [];
    }
  }

  /** Word `i` goes on the open line. */
  lemma WordGoesOn(ws: seq<string>, i: nat, st: Layout, a: nat)
    requires a < i < |ws| && st.cur == ws[a..i] && ws[i] != "}" && !Restarts(ws, i) && !EndsLine(ws[i - 1])
    requires NextBreak(ws, a + 1) == NextBreak(ws, i)
    ensures NextBreak(ws, a + 1) == NextBreak(ws, i + 1)
    ensures var next := st.(cur := st.cur + [ws[i]]); next.cur == ws[a..i + 1] && FlushDepth(next) == FlushDepth(st)
  {
    assert (st.cur + [ws[i]])[0] == st.cur[0];
  }

  /** Word `i` starts the line. */
  lemma WordStarts(ws: seq<string>, i: nat, st: Layout)
    requires i < |ws| && st.cur == [] && st.depth == Braces(ws, i) && ws[i] != "}" && !Restarts(ws, i)
    requires st.hang <==> i > 0 && ws[i - 1] == ";"
    ensures var next := st.(cur := [ws[i]]); next.cur == ws[i..i + 1] && FlushDepth(next) == Indent(ws, i)
    ensures ws[i] in {".", ";"} ==> FlushDepth(st) == Indent(ws, i)
  {
    assert ws[i..i + 1] == [ws[i]];
    assert [ws[i]][0] == ws[i];
  }

  lemma WordJoins(ws: seq<string>, i: nat, st: Layout, a: nat)
    requires Cut(ws, i, st, a) && i < |ws| && ws[i] != "}" && !Restarts(ws, i)
    ensures NextBreak(ws, a + 1) == NextBreak(ws, i + 1)
    ensures var next := st.(cur := st.cur + [ws[i]]); next.cur == ws[a..i + 1] && FlushDepth(next) == Indent(ws, a)
    ensures ws[i] in {".", ";"} ==> FlushDepth(st) == Indent(ws, a)
  {
    if a < i {
      WordGoesOn(ws, i, st, a);
    } else {
      WordStarts(ws, i, st);
      assert st.cur + [ws[i]] == [ws[i]];
    }
  }

  lemma PlacedPlain(ws: seq<string>, i: nat, st: Layout, a: nat)
    requires Cut(ws, i, st, a) && i < |ws| && !EndsLine(ws[i]) && !Restarts(ws, i)
    ensures Cut(ws, i + 1, st.(cur := st.cur + [ws[i]]), a)
  {
    WordJoins(ws, i, st, a);
    BracesOnward(ws, i);
  }

  /** A prologue word has the depth of no brace, whatever the line before it was. */
  lemma RestartCut(ws: seq<string>, i: nat, lines: seq<string>)
    requires Restarts(ws, i)
    ensures Cut(ws, i + 1, Layout(lines, Braces(ws, i), [ws[i]], false), i)
  {
    BracesOnward(ws, i);
    assert ws[i..i + 1] == [ws[i]];
  }

  lemma PlacedOpening(ws: seq<string>, i: nat, st: Layout, a: nat)
    requires Cut(ws, i, st, a) && i < |ws| && ws[i] == "{"
    ensures GroupOpened(st, ws[i])
         == Layout(st.lines + Texts([Line(Indent(ws, a), ws[a..i + 1])]), Braces(ws, i + 1), [], false)
    ensures Adds(ws, a, i + 1, [Line(Indent(ws, a), ws[a..i + 1])])
  {
    var next := st.(cur := st.cur + [ws[i]]);
    assert next.cur == ws[a..i + 1] && FlushDepth(next) == Indent(ws, a) && NextBreak(ws, a + 1) == i + 1 by {
      WordJoins(ws, i, st, a);
    }
    assert Flushed(next, "") == next.(lines := st.lines + Texts([Line(Indent(ws, a), ws[a..i + 1])]), cur := []) by {
      FlushedLine(ws, a, i + 1, next);
    }
    BracesOnward(ws, i);
    AddsOne(ws, a, i + 1);
  }

  lemma ClosingIndent(ws: seq<string>, i: nat, st: Layout)
    requires i < |ws| && ws[i] == "}" && st.depth == Braces(ws, i + 1) && !st.hang
    ensures FlushDepth(st) == Indent(ws, i)
  {}

  /** The line of a closing brace. */
  lemma ClosingLine(ws: seq<string>, i: nat, f: Layout)
    requires i < |ws| && ws[i] == "}" && f.cur == [] && f.depth == Braces(ws, i)
    ensures LineClosed(f, "}")
         == Layout(f.lines + Texts([Line(Indent(ws, i), ws[i..i + 1])]), Braces(ws, i + 1), [], false)
    ensures Adds(ws, i, i + 1, [Line(Indent(ws, i), ws[i..i + 1])])
  {
    var next := f.(depth := Braces(ws, i + 1), hang := false, cur := f.cur + [ws[i]]);
    BracesOnward(ws, i);
    assert ws[i..i + 1] == next.cur;
    ClosingIndent(ws, i, next);
    FlushedLine(ws, i, i + 1, next);
    AddsOne(ws, i, i + 1);
  }

  lemma PlacedMark(ws: seq<string>, i: nat, st: Layout, a: nat, mark: char)
    requires Cut(ws, i, st, a) && i < |ws| && mark in {'.', ';'} && ws[i] == [mark]
    ensures Ended(st, mark, mark == ';')
            == Layout(st.lines + Texts([Line(Indent(ws, a), ws[a..i + 1])]), Braces(ws, i + 1), [], mark == ';')
    ensures Adds(ws, a, i + 1, [Line(Indent(ws, a), ws[a..i + 1])])
  {
    assert ws[i][0] == mark;
    WordJoins(ws, i, st, a);
    BracesOnward(ws, i);
    EndedLine(ws, a, i, st, mark);
    AddsOne(ws, a, i + 1);
  }

  lemma CutAtRestart(ws: seq<string>, i: nat, st: Layout, a: nat) returns (next: Layout, added: seq<Line>)
    requires Cut(ws, i, st, a) && Restarts(ws, i)
    ensures next == Started(st, ws[i]) && Cut(ws, i + 1, next, i)
    ensures next.lines == st.lines + Texts(added) && Adds(ws, a, i, added)
  {
    added := BreakFlushed(ws, i, st, a);
    next := Layout(st.lines + Texts(added), Braces(ws, i), [ws[i]], false);
    RestartCut(ws, i, next.lines);
  }

  lemma CutAtOpening(ws: seq<string>, i: nat, st: Layout, a: nat) returns (next: Layout, added: seq<Line>)
    requires Cut(ws, i, st, a) && i < |ws| && ws[i] == "{"
    ensures next == GroupOpened(st, ws[i]) && Cut(ws, i + 1, next, i + 1)
    ensures next.lines == st.lines + Texts(added) && Adds(ws, a, i + 1, added)
  {
    PlacedOpening(ws, i, st, a);
    added := [Line(Indent(ws, a), ws[a..i + 1])];
    next := Layout(st.lines + Texts(added), Braces(ws, i + 1), [], false);
    CleanCut(ws, i + 1, next.lines, false);
  }

  lemma CutAtClosing(ws: seq<string>, i: nat, st: Layout, a: nat) returns (next: Layout, added: seq<Line>)
    requires Cut(ws, i, st, a) && i < |ws| && ws[i] == "}"
    ensures next == GroupClosed(st, ws[i]) && Cut(ws, i + 1, next, i + 1)
    ensures next.lines == st.lines + Texts(added) && Adds(ws, a, i + 1, added)
  {
    var first := BreakFlushed(ws, i, st, a);
    var last := [Line(Indent(ws, i), ws[i..i + 1])];
    ClosingLine(ws, i, Flushed(st, ""));
    added := first + last;
    AddsOnward(ws, a, i, i + 1, first, last);
    TextsAppend(first, last);
    next := Layout(st.lines + Texts(added), Braces(ws, i + 1), [], false);
    CleanCut(ws, i + 1, next.lines, false);
  }

  lemma CutAtMark(ws: seq<string>, i: nat, st: Layout, a: nat, mark: char) returns (next: Layout, added: seq<Line>)
    requires Cut(ws, i, st, a) && i < |ws| && (mark == '.' || mark == ';') && ws[i] == [mark]
    ensures next == Ended(st, mark, mark == ';') && Cut(ws, i + 1, next, i + 1)
    ensures next.lines == st.lines + Texts(added) && Adds(ws, a, i + 1, added)
  {
    PlacedMark(ws, i, st, a, mark);
    added := [Line(Indent(ws, a), ws[a..i + 1])];
    next := Layout(st.lines + Texts(added), Braces(ws, i + 1), [], mark == ';');
    CleanCut(ws, i + 1, next.lines, mark == ';');
  }

  lemma PlacedCut(ws: seq<string>, i: nat, st: Layout, a: nat) returns (next: Layout, b: nat, added: seq<Line>)
    requires Cut(ws, i, st, a) && i < |ws|
    ensures next == Placed(st, ws[i]) && Cut(ws, i + 1, next, b)
    ensures next.lines == st.lines + Texts(added) && Adds(ws, a, b, added)
  {
    b := i + 1;
    if Restarts(ws, i) {
      b := i;
      next, added := CutAtRestart(ws, i, st, a);
    } else if ws[i] == "{" {
      next, added := CutAtOpening(ws, i, st, a);
    } else if ws[i] == "}" {
      next, added := CutAtClosing(ws, i, st, a);
    } else if ws[i] == "." {
      next, added := CutAtMark(ws, i, st, a, '.');
    } else if ws[i] == ";" {
      next, added := CutAtMark(ws, i, st, a, ';');
    } else {
      PlacedPlain(ws, i, st, a);
      next, b, added := st.(cur := st.cur + [ws[i]]), a, [];
    }
  }

  lemma PlacedNext(ws: seq<string>, i: nat, st: Layout, a: nat) returns (next: Layout, b: nat, added: seq<Line>)
    requires Cut(ws, i, st, a) && i < |ws|
    ensures PlacedAll(st, ws[i..]) == PlacedAll(next, ws[i + 1..]) && Cut(ws, i + 1, next, b)
    ensures next.lines == st.lines + Texts(added) && Adds(ws, a, b, added)
  {
    next, b, added := PlacedCut(ws, i, st, a);
    assert ws[i..][1..] == ws[i + 1..] && ws[i..][0] == ws[i];
  }

  lemma {:induction false} PlacedAllCut(ws: seq<string>, i: nat, st: Layout, a: nat)
    returns (done: Layout, b: nat, added: seq<Line>)
    requires Cut(ws, i, st, a)
    ensures done == PlacedAll(st, ws[i..]) && Cut(ws, |ws|, done, b)
    ensures done.lines == st.lines + Texts(added) && Adds(ws, a, b, added)
    decreases |ws| - i
  {
    if i == |ws| {
      done, b, added := st, a, [];
    } else {
      var next, m, first := PlacedNext(ws, i, st, a);
      var rest;
      done, b, rest := PlacedAllCut(ws, i + 1, next, m);
      added := first + rest;
      AddsOnward(ws, a, m, b, first, rest);
      LinesOnward(st.lines, next.lines, first, rest);
    }
  }

  /**
   The formatter's lines: the words cut after each brace, dot and semicolon, before each closing brace and
   before PREFIX and SELECT outside braces; each indented two spaces for each brace open there, and two
   more where it goes on after a semicolon, unless it is a FILTER, OPTIONAL or VALUES.
   */
  lemma LinesAreCut(ws: seq<string>)
    ensures LinesOf(ws) == Texts(LinesFrom(ws, 0))
  {
    var done, b, added := PlacedAllCut(ws, 0, START, 0);
    assert ws[0..] == ws;
    var last := BreakFlushed(ws, |ws|, done, b);
    LinesOnward([], done.lines, added, last);
    AddsOnward(ws, 0, b, |ws|, added, last);
    AllAdded(ws, added + last);
  }

  lemma AllAdded(ws: seq<string>, added: seq<Line>)
    requires Adds(ws, 0, |ws|, added)
    ensures added == LinesFrom(ws, 0)
  {
    assert added + [] == added;
  }

  lemma DropBlanks(n: nat, t: string)
    requires t != "" && !IsSpace(t[0])
    ensures DropSpaces(Blanks(n) + t) == t
  {
    if n == 0 {
      assert Blanks(n) + t == t;
    } else {
      assert (Blanks(n) + t)[1..] == Blanks(n - 1) + t;
      DropBlanks(n - 1, t);
    }
  }

  /** Tightening the parentheses leaves the indentation, unless the line begins with a closing one. */
  lemma {:induction false} BlanksStay(n: nat, t: string)
    requires t != "" && !IsSpace(t[0]) && t[0] != ')'
    ensures CloseParens(OpenParens(Blanks(n) + t)) == Blanks(n) + CloseParens(OpenParens(t))
    ensures CloseParens(OpenParens(t)) != "" && CloseParens(OpenParens(t))[0] == t[0]
  {
    OpenStays(n, t);
    CloseStays(n, OpenParens(t));
  }

  lemma {:induction false} OpenStays(n: nat, t: string)
    ensures OpenParens(Blanks(n) + t) == Blanks(n) + OpenParens(t)
  {
    if n == 0 {
      assert Blanks(n) + t == t && Blanks(n) + OpenParens(t) == OpenParens(t);
    } else {
      assert (Blanks(n) + t)[1..] == Blanks(n - 1) + t;
      OpenStays(n - 1, t);
      assert [' '] + (Blanks(n - 1) + OpenParens(t)) == Blanks(n) + OpenParens(t);
    }
  }

  lemma BlankMore(n: nat, t: string)
    requires n > 0
    ensures [' '] + (Blanks(n - 1) + t) == Blanks(n) + t
  {}

  /** A space before anything but a closing parenthesis stays. */
  lemma CloseOneMore(s: string, rest: string)
    requires s == [' '] + rest && DropSpaces(s) != "" && DropSpaces(s)[0] != ')'
    ensures CloseParens(s) == [' '] + CloseParens(rest)
  {
    assert s[1..] == rest;
  }

  lemma {:induction false} CloseStays(n: nat, t: string)
    requires t != "" && !IsSpace(t[0]) && t[0] != ')'
    ensures CloseParens(Blanks(n) + t) == Blanks(n) + CloseParens(t)
  {
    if n == 0 {
      assert Blanks(n) + t == t && Blanks(n) + CloseParens(t) == CloseParens(t);
    } else {
      DropBlanks(n, t);
      CloseOneMore(Blanks(n) + t, Blanks(n - 1) + t);
      CloseStays(n - 1, t);
      BlankMore(n, CloseParens(t));
    }
  }

  /** A line begins with its depth in blanks, then its first word's first character. */
  lemma LineBegins(l: Line)
    requires Shown(l.words) != "" && !IsSpace(Shown(l.words)[0]) && Shown(l.words)[0] != ')'
    ensures |TextOf(l)| > 2 * l.depth && TextOf(l)[..2 * l.depth] == Blanks(2 * l.depth)
    ensures TextOf(l)[2 * l.depth] == Shown(l.words)[0]
  {
    BlanksStay(2 * l.depth, Shown(l.words));
  }

  // ---- parentheses ----

  /** No space right after an opening parenthesis. */
  predicate OpensTight(t: string) {
    forall k :: 0 < k < |t| && t[k - 1] == '(' ==> !IsSpace(t[k])
  }

  /** No space right before a closing parenthesis. */
  predicate ClosesTight(t: string) {
    forall k :: 0 < k < |t| && t[k] == ')' ==> !IsSpace(t[k - 1])
  }

  lemma {:induction false} DropsAll(t: string)
    ensures DropSpaces(t) != "" ==> !IsSpace(DropSpaces(t)[0])
    decreases |t|
  {
    if t != "" && IsSpace(t[0]) { DropsAll(t[1..]); }
  }

  lemma {:induction false} OpenParensTight(t: string)
    ensures OpensTight(OpenParens(t)) && (OpenParens(t) != "" <==> t != "")
    ensures t != "" ==> OpenParens(t)[0] == t[0]
    decreases |t|
  {
    if t != "" {
      var rest := if t[0] == '(' then DropSpaces(t[1..]) else t[1..];
      DropsAll(t[1..]);
      OpenParensTight(rest);
      ConsOpens(t[0], OpenParens(rest));
    }
  }

  lemma ConsOpens(c: char, t: string)
    requires OpensTight(t) && (c == '(' && t != "" ==> !IsSpace(t[0]))
    ensures OpensTight([c] + t)
  {
    forall k | 0 < k < |[c] + t| && ([c] + t)[k - 1] == '(' ensures !IsSpace(([c] + t)[k]) {
      if k > 1 { assert t[k - 2] == ([c] + t)[k - 1]; }
    }
  }

  lemma ConsCloses(c: char, t: string)
    requires ClosesTight(t) && (IsSpace(c) && t != "" ==> t[0] != ')')
    ensures ClosesTight([c] + t)
  {
    forall k | 0 < k < |[c] + t| && ([c] + t)[k] == ')' ensures !IsSpace(([c] + t)[k - 1]) {
      if k > 1 { assert t[k - 1] == ([c] + t)[k]; }
    }
  }

  lemma TailTight(t: string)
    requires OpensTight(t) && t != ""
    ensures OpensTight(t[1..])
  {
    forall k | 0 < k < |t[1..]| && t[1..][k - 1] == '(' ensures !IsSpace(t[1..][k]) {
      assert t[k] == '(';
    }
  }

  lemma {:induction false} DropTight(t: string)
    requires OpensTight(t)
    ensures OpensTight(DropSpaces(t))
    decreases |t|
  {
    if t != "" && IsSpace(t[0]) {
      TailTight(t);
      DropTight(t[1..]);
    }
  }

  lemma {:induction false} CloseParensTight(t: string)
    requires OpensTight(t)
    ensures OpensTight(CloseParens(t)) && ClosesTight(CloseParens(t))
    ensures CloseParens(t) != "" <==> t != ""
    ensures t != "" && !IsSpace(t[0]) ==> CloseParens(t)[0] == t[0]
    ensures t != "" && IsSpace(t[0]) && !(DropSpaces(t) != "" && DropSpaces(t)[0] == ')') ==> CloseParens(t)[0] == t[0]
    decreases |t|
  {
    if t != "" {
      if IsSpace(t[0]) && DropSpaces(t) != "" && DropSpaces(t)[0] == ')' {
        var rest := DropSpaces(t)[1..];
        DropTight(t);
        TailTight(DropSpaces(t));
        CloseParensTight(rest);
        ConsOpens(')', CloseParens(rest));
        ConsCloses(')', CloseParens(rest));
      } else {
        TailTight(t);
        CloseParensTight(t[1..]);
        assert IsSpace(t[0]) ==> DropSpaces(t) == DropSpaces(t[1..]);
        assert t[1..] != "" && !IsSpace(t[1]) ==> DropSpaces(t[1..]) == t[1..];
        ConsOpens(t[0], CloseParens(t[1..]));
        ConsCloses(t[0], CloseParens(t[1..]));
      }
    }
  }

  /** No line has a space right after an opening parenthesis or right before a closing one. */
  lemma LineTight(l: Line)
    ensures OpensTight(TextOf(l)) && ClosesTight(TextOf(l))
  {
    var text := Blanks(2 * l.depth) + Shown(l.words);
    OpenParensTight(text);
    CloseParensTight(OpenParens(text));
  }
}
