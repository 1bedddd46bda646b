/**
 The formatter's middle: the replacements that respace a text, and the loop that lays its words out
 in lines. Both keep the words and their order.
 */
module EditorLayout {

  /** JavaScript's white space. */
  predicate IsSpace(c: char) {
    || '\t' <= c <= '\r' || c == ' ' || c == '\U{a0}' || c == '\U{1680}' || '\U{2000}' <= c <= '\U{200a}'
    || c == '\U{2028}' || c == '\U{2029}' || c == '\U{202f}' || c == '\U{205f}' || c == '\U{3000}' || c == '\U{feff}'
  }

  predicate NoSpace(s: string) {
    forall k :: 0 <= k < |s| ==> !IsSpace(s[k])
  }

  predicate AllSpace(s: string) {
    forall k :: 0 <= k < |s| ==> IsSpace(s[k])
  }

  predicate IsBrace(c: char) {
    c == '{' || c == '}'
  }

  // ---- words ----

  function Pending(cur: string): seq<string> {
    if cur == "" then [] else [cur]
  }

  /** The maximal runs without white space, `cur` being the run so far. */
  function WordsFrom(s: string, cur: string): seq<string>
    decreases |s|
  {
    if s == "" then Pending(cur)
    else if IsSpace(s[0]) then Pending(cur) + WordsFrom(s[1..], "")
    else WordsFrom(s[1..], cur + [s[0]])
  }

  /** The same with every brace a word of its own. */
  function BraceWordsFrom(s: string, cur: string): seq<string>
    decreases |s|
  {
    if s == "" then Pending(cur)
    else if IsSpace(s[0]) then Pending(cur) + BraceWordsFrom(s[1..], "")
    else if IsBrace(s[0]) then Pending(cur) + [[s[0]]] + BraceWordsFrom(s[1..], "")
    else BraceWordsFrom(s[1..], cur + [s[0]])
  }

  lemma WordsSpace(c: char, rest: string, cur: string)
    requires IsSpace(c)
    ensures WordsFrom([c] + rest, cur) == Pending(cur) + WordsFrom(rest, "")
  {
    assert ([c] + rest)[1..] == rest;
  }

  lemma WordsChar(c: char, rest: string, cur: string)
    requires !IsSpace(c)
    ensures WordsFrom([c] + rest, cur) == WordsFrom(rest, cur + [c])
  {
    assert ([c] + rest)[1..] == rest;
  }

  // ---- the replacements ----

  function DropSpaces(s: string): (r: string)
    ensures |r| <= |s| && (r != "" ==> !IsSpace(r[0])) && (s != "" && IsSpace(s[0]) ==> |r| < |s|)
  {
    if s != "" && IsSpace(s[0]) then DropSpaces(s[1..]) else s
  }

  /** /\s+/g to a space. */
  function Collapse(s: string): string
    decreases |s|
  {
    if s == "" then ""
    else if IsSpace(s[0]) then " " + Collapse(DropSpaces(s))
    else [s[0]] + Collapse(s[1..])
  }

  /** /([{}])/g with a space on either side. */
  function SpaceBraces(s: string): string {
    if s == "" then "" else (if IsBrace(s[0]) then " " + [s[0]] + " " else [s[0]]) + SpaceBraces(s[1..])
  }

  predicate EndOrSpace(s: string) {
    s == "" || IsSpace(s[0])
  }

  /** /(^|\s)\.(?=\s|$)/g to " . "; `first` at the start of the text. */
  function SpaceDots(s: string, first: bool): string
    decreases |s|
  {
    if s == "" then ""
    else if first && s[0] == '.' && EndOrSpace(s[1..]) then " . " + SpaceDots(s[1..], false)
    else if |s| >= 2 && IsSpace(s[0]) && s[1] == '.' && EndOrSpace(s[2..]) then " . " + SpaceDots(s[2..], false)
    else [s[0]] + SpaceDots(s[1..], false)
  }

  /** /\s;\s/g to " ; ". */
  function SpaceSemicolons(s: string): string
    decreases |s|
  {
    if s == "" then ""
    else if |s| >= 3 && IsSpace(s[0]) && s[1] == ';' && IsSpace(s[2]) then " ; " + SpaceSemicolons(s[3..])
    else [s[0]] + SpaceSemicolons(s[1..])
  }

  function TrimEnd(s: string): string {
    if s != "" && IsSpace(s[|s| - 1]) then TrimEnd(s[..|s| - 1]) else s
  }

  function Trim(s: string): string {
    TrimEnd(DropSpaces(s))
  }

  /** split(' ') without the empty strings. */
  function SplitFrom(s: string, cur: string): seq<string>
    decreases |s|
  {
    if s == "" then Pending(cur)
    else if s[0] == ' ' then Pending(cur) + SplitFrom(s[1..], "")
    else SplitFrom(s[1..], cur + [s[0]])
  }

  function Respaced(s: string): string {
    Trim(SpaceSemicolons(SpaceDots(SpaceBraces(Collapse(s)), true)))
  }

  // ---- the replacements keep the words ----

  lemma {:induction false} DropKeepsWords(s: string)
    ensures WordsFrom(DropSpaces(s), "") == WordsFrom(s, "")
    ensures BraceWordsFrom(DropSpaces(s), "") == BraceWordsFrom(s, "")
    decreases |s|
  {
    if s != "" && IsSpace(s[0]) { DropKeepsWords(s[1..]); }
  }

  lemma {:induction false} CollapseKeepsWords(s: string, cur: string)
    ensures BraceWordsFrom(Collapse(s), cur) == BraceWordsFrom(s, cur)
    decreases |s|
  {
    if s != "" {
      if IsSpace(s[0]) {
        assert (" " + Collapse(DropSpaces(s)))[1..] == Collapse(DropSpaces(s));
        CollapseKeepsWords(DropSpaces(s), "");
        DropKeepsWords(s[1..]);
      } else {
        assert ([s[0]] + Collapse(s[1..]))[1..] == Collapse(s[1..]);
        CollapseKeepsWords(s[1..], if IsBrace(s[0]) then "" else cur + [s[0]]);
      }
    }
  }

  lemma {:induction false} SpaceBracesKeepsWords(s: string, cur: string)
    ensures WordsFrom(SpaceBraces(s), cur) == BraceWordsFrom(s, cur)
    decreases |s|
  {
    if s != "" {
      var rest := SpaceBraces(s[1..]);
      if IsBrace(s[0]) {
        assert " " + [s[0]] + " " + rest == [' '] + ([s[0]] + ([' '] + rest));
        WordsSpace(' ', [s[0]] + ([' '] + rest), cur);
        WordsChar(s[0], [' '] + rest, "");
        WordsSpace(' ', rest, [s[0]]);
        assert "" + [s[0]] == [s[0]];
        SpaceBracesKeepsWords(s[1..], "");
      } else if IsSpace(s[0]) {
        WordsSpace(s[0], rest, cur);
        SpaceBracesKeepsWords(s[1..], "");
      } else {
        WordsChar(s[0], rest, cur);
        SpaceBracesKeepsWords(s[1..], cur + [s[0]]);
      }
    }
  }

  /** A spaced-out mark is the word it was. */
  lemma MarkWord(m: char, rest: string, cur: string)
    requires !IsSpace(m)
    ensures WordsFrom(" " + [m] + " " + rest, cur) == Pending(cur) + ([[m]] + WordsFrom(rest, ""))
  {
    assert " " + [m] + " " + rest == [' '] + ([m] + ([' '] + rest));
    WordsSpace(' ', [m] + ([' '] + rest), cur);
    WordsChar(m, [' '] + rest, "");
    assert "" + [m] == [m];
    WordsSpace(' ', rest, [m]);
  }

  lemma EndedWord(m: char, rest: string)
    requires !IsSpace(m) && EndOrSpace(rest)
    ensures WordsFrom([m] + rest, "") == [[m]] + WordsFrom(rest, "")
  {
    WordsChar(m, rest, "");
    assert "" + [m] == [m];
    if rest != "" {
      assert rest == [rest[0]] + rest[1..];
      WordsSpace(rest[0], rest[1..], [m]);
      WordsSpace(rest[0], rest[1..], "");
    }
  }

  lemma SpacedWord(c: char, m: char, rest: string, cur: string)
    requires IsSpace(c) && !IsSpace(m) && EndOrSpace(rest)
    ensures WordsFrom([c] + ([m] + rest), cur) == Pending(cur) + ([[m]] + WordsFrom(rest, ""))
  {
    WordsSpace(c, [m] + rest, cur);
    EndedWord(m, rest);
  }

  lemma {:induction false} SpaceDotsKeepsWords(s: string, first: bool, cur: string)
    requires first ==> cur == ""
    ensures WordsFrom(SpaceDots(s, first), cur) == WordsFrom(s, cur)
    decreases |s|
  {
    if s != "" {
      if first && s[0] == '.' && EndOrSpace(s[1..]) {
        MarkWord('.', SpaceDots(s[1..], false), cur);
        SpaceDotsKeepsWords(s[1..], false, "");
        EndedWord('.', s[1..]);
        assert s == ['.'] + s[1..] && cur == "";
        assert SpaceDots(s, first) == " " + ['.'] + " " + SpaceDots(s[1..], false);
        assert Pending(cur) + (["."] + WordsFrom(s[1..], "")) == ["."] + WordsFrom(s[1..], "");
      } else if |s| >= 2 && IsSpace(s[0]) && s[1] == '.' && EndOrSpace(s[2..]) {
        MarkWord('.', SpaceDots(s[2..], false), cur);
        SpaceDotsKeepsWords(s[2..], false, "");
        SpacedWord(s[0], '.', s[2..], cur);
        assert s == [s[0]] + (['.'] + s[2..]);
        assert SpaceDots(s, first) == " " + ['.'] + " " + SpaceDots(s[2..], false);
      } else {
        SpaceDotsKeepsWords(s[1..], false, if IsSpace(s[0]) then "" else cur + [s[0]]);
        if IsSpace(s[0]) { WordsSpace(s[0], SpaceDots(s[1..], false), cur); }
        else { WordsChar(s[0], SpaceDots(s[1..], false), cur); }
      }
    }
  }

  lemma {:induction false} SpaceSemicolonsKeepsWords(s: string, cur: string)
    ensures WordsFrom(SpaceSemicolons(s), cur) == WordsFrom(s, cur)
    decreases |s|
  {
    if s != "" {
      if |s| >= 3 && IsSpace(s[0]) && s[1] == ';' && IsSpace(s[2]) {
        MarkWord(';', SpaceSemicolons(s[3..]), cur);
        SpaceSemicolonsKeepsWords(s[3..], "");
        SpacedWord(s[0], ';', s[2..], cur);
        assert s == [s[0]] + ([';'] + s[2..]) && s[2..] == [s[2]] + s[3..];
        WordsSpace(s[2], s[3..], "");
        assert SpaceSemicolons(s) == " " + [';'] + " " + SpaceSemicolons(s[3..]);
      } else {
        SpaceSemicolonsKeepsWords(s[1..], if IsSpace(s[0]) then "" else cur + [s[0]]);
        if IsSpace(s[0]) { WordsSpace(s[0], SpaceSemicolons(s[1..]), cur); }
        else { WordsChar(s[0], SpaceSemicolons(s[1..]), cur); }
      }
    }
  }

  lemma {:induction false} WordsBeforeSpace(s: string, c: char, cur: string)
    requires IsSpace(c)
    ensures WordsFrom(s + [c], cur) == WordsFrom(s, cur)
    decreases |s|
  {
    if s == "" {
      assert s + [c] == [c] + "";
      WordsSpace(c, "", cur);
    } else {
      assert (s + [c])[1..] == s[1..] + [c];
      WordsBeforeSpace(s[1..], c, if IsSpace(s[0]) then "" else cur + [s[0]]);
    }
  }

  lemma {:induction false} TrimEndKeepsWords(s: string)
    ensures WordsFrom(TrimEnd(s), "") == WordsFrom(s, "")
    decreases |s|
  {
    if s != "" && IsSpace(s[|s| - 1]) {
      TrimEndKeepsWords(s[..|s| - 1]);
      assert s == s[..|s| - 1] + [s[|s| - 1]];
      WordsBeforeSpace(s[..|s| - 1], s[|s| - 1], "");
    }
  }

  /** All white space is the plain space. */
  predicate PlainSpaces(s: string) {
    forall k :: 0 <= k < |s| ==> IsSpace(s[k]) ==> s[k] == ' '
  }

  lemma {:induction false} CollapsePlain(s: string)
    ensures PlainSpaces(Collapse(s))
    decreases |s|
  {
    if s != "" {
      if IsSpace(s[0]) { CollapsePlain(DropSpaces(s)); } else { CollapsePlain(s[1..]); }
    }
  }

  lemma {:induction false} BracesPlain(s: string)
    requires PlainSpaces(s)
    ensures PlainSpaces(SpaceBraces(s))
  {
    if s != "" { BracesPlain(s[1..]); }
  }

  lemma {:induction false} DotsPlain(s: string, first: bool)
    requires PlainSpaces(s)
    ensures PlainSpaces(SpaceDots(s, first))
    decreases |s|
  {
    if s != "" {
      DotsPlain(s[1..], false);
      if |s| >= 2 { DotsPlain(s[2..], false); }
    }
  }

  lemma {:induction false} SemicolonsPlain(s: string)
    requires PlainSpaces(s)
    ensures PlainSpaces(SpaceSemicolons(s))
    decreases |s|
  {
    if s != "" {
      SemicolonsPlain(s[1..]);
      if |s| >= 3 { SemicolonsPlain(s[3..]); }
    }
  }

  lemma {:induction false} TrimPlain(s: string)
    requires PlainSpaces(s)
    ensures PlainSpaces(DropSpaces(s)) && PlainSpaces(TrimEnd(s))
    decreases |s|
  {
    if s != "" {
      TrimPlain(s[1..]);
      TrimPlain(s[..|s| - 1]);
    }
  }

  lemma {:induction false} SplitIsWords(s: string, cur: string)
    requires PlainSpaces(s)
    ensures SplitFrom(s, cur) == WordsFrom(s, cur)
    decreases |s|
  {
    if s != "" { SplitIsWords(s[1..], if s[0] == ' ' then "" else cur + [s[0]]); }
  }

  /** After all the replacements the words are those of the text, braces set apart. */
  lemma RespacedWords(s: string)
    ensures SplitFrom(Respaced(s), "") == BraceWordsFrom(s, "")
  {
    var s1 := Collapse(s);
    var s2 := SpaceBraces(s1);
    var s3 := SpaceDots(s2, true);
    var s4 := SpaceSemicolons(s3);
    CollapseKeepsWords(s, "");
    SpaceBracesKeepsWords(s1, "");
    SpaceDotsKeepsWords(s2, true, "");
    SpaceSemicolonsKeepsWords(s3, "");
    DropKeepsWords(s4);
    TrimEndKeepsWords(DropSpaces(s4));
    CollapsePlain(s);
    BracesPlain(s1);
    DotsPlain(s2, true);
    SemicolonsPlain(s3);
    TrimPlain(s4);
    TrimPlain(DropSpaces(s4));
    SplitIsWords(Respaced(s), "");
  }

  // ---- a text made of words ----

  /** A new word may follow this character directly. */
  predicate Frees(c: char) {
    IsSpace(c) || c == '('
  }

  /**
   `t` is the rest of a word, then the words in order, each unbroken, and white space. Between two
   words there is white space, but after an opening parenthesis and before a closing one; `free`
   tells whether the text before `t` ends so that a word may begin at once.
   */
  predicate Fits(t: string, cur: string, ws: seq<string>, free: bool)
    decreases |t|, if cur == "" then 1 else 0
  {
    if cur != "" then t != "" && t[0] == cur[0] && Fits(t[1..], cur[1..], ws, Frees(cur[0]))
    else if t == "" then ws == []
    else if IsSpace(t[0]) then Fits(t[1..], "", ws, true)
    else (free || t[0] == ')') && ws != [] && ws[0] != "" && Fits(t, ws[0], ws[1..], free)
  }

  predicate IsWordText(w: string) {
    w != "" && NoSpace(w)
  }

  predicate WordTexts(ws: seq<string>) {
    forall k :: 0 <= k < |ws| ==> IsWordText(ws[k])
  }

  /** Within a word `free` says nothing, and more freedom does no harm. */
  lemma FitsFree(t: string, cur: string, ws: seq<string>, free: bool)
    requires Fits(t, cur, ws, free)
    ensures Fits(t, cur, ws, true) && (cur != "" ==> Fits(t, cur, ws, false))
  {
    if cur == "" && t != "" && !IsSpace(t[0]) { MidwordFree(t, ws[0], ws[1..], free); }
  }

  lemma MidwordFree(t: string, cur: string, ws: seq<string>, free: bool)
    requires Fits(t, cur, ws, free) && cur != ""
    ensures Fits(t, cur, ws, true) && Fits(t, cur, ws, false)
  {}

  /** Whether a word may follow `a` directly. */
  function EndFree(a: string, free: bool): bool {
    if a == "" then free else Frees(a[|a| - 1])
  }

  lemma EndFreeStep(a: string, free: bool)
    requires a != ""
    ensures EndFree(a[1..], Frees(a[0])) == EndFree(a, free)
  {}

  lemma {:induction false} FitsAppend(a: string, cur: string, u: seq<string>, b: string, v: seq<string>, free: bool)
    requires Fits(a, cur, u, free) && Fits(b, "", v, EndFree(a, free)) && WordTexts(u)
    ensures Fits(a + b, cur, u + v, free)
    decreases |a|, if cur == "" then 1 else 0
  {
    if cur != "" {
      assert (a + b)[1..] == a[1..] + b;
      EndFreeStep(a, free);
      FitsAppend(a[1..], cur[1..], u, b, v, Frees(cur[0]));
    } else if a == "" {
      assert a + b == b && u + v == v;
    } else if IsSpace(a[0]) {
      assert (a + b)[1..] == a[1..] + b;
      EndFreeStep(a, free);
      FitsAppend(a[1..], "", u, b, v, true);
    } else {
      assert (u + v)[1..] == u[1..] + v;
      FitsAppend(a, u[0], u[1..], b, v, free);
    }
  }

  /** After white space, or whatever lets a word begin, the next part is appended as a line is. */
  lemma FitsAppendFree(a: string, u: seq<string>, b: string, v: seq<string>, free: bool)
    requires Fits(a, "", u, free) && WordTexts(u) && EndFree(a, free) && Fits(b, "", v, true)
    ensures Fits(a + b, "", u + v, free)
  {
    FitsAppend(a, "", u, b, v, free);
  }

  /** A part that begins a word only after white space of its own can be appended anywhere. */
  lemma FitsAppendSpaced(a: string, u: seq<string>, b: string, v: seq<string>, free: bool)
    requires Fits(a, "", u, free) && WordTexts(u) && Fits(b, "", v, false)
    ensures Fits(a + b, "", u + v, free)
  {
    FitsFree(b, "", v, false);
    FitsAppend(a, "", u, b, v, free);
  }

  lemma {:induction false} FitsSpaces(t: string, free: bool)
    requires AllSpace(t)
    ensures Fits(t, "", [], free)
  {
    if t != "" { FitsSpaces(t[1..], true); }
  }

  lemma {:induction false} FitsRest(w: string, free: bool)
    ensures Fits(w, w, [], free)
  {
    if w != "" { FitsRest(w[1..], Frees(w[0])); }
  }

  lemma FitsWord(w: string)
    requires IsWordText(w)
    ensures Fits(w, "", [w], true)
  {
    FitsRest(w, true);
  }

  // ---- the layout ----

  function Join(ws: seq<string>, sep: string): string {
    if ws == [] then "" else if |ws| == 1 then ws[0] else Join(ws[..|ws| - 1], sep) + sep + ws[|ws| - 1]
  }

  function Blanks(n: nat): string {
    seq(n, i => ' ')
  }

  /** /\(\s+/g to "(". */
  function OpenParens(t: string): string
    decreases |t|
  {
    if t == "" then ""
    else if t[0] == '(' then "(" + OpenParens(DropSpaces(t[1..]))
    else [t[0]] + OpenParens(t[1..])
  }

  /** /\s+\)/g to ")". */
  function CloseParens(t: string): string
    decreases |t|
  {
    if t == "" then ""
    else if IsSpace(t[0]) && DropSpaces(t) != "" && DropSpaces(t)[0] == ')' then ")" + CloseParens(DropSpaces(t)[1..])
    else [t[0]] + CloseParens(t[1..])
  }

  datatype Layout = Layout(lines: seq<string>, depth: nat, cur: seq<string>, hang: bool)

  const START := Layout([], 0, [], false)

  predicate Unhung(cur: seq<string>) {
    cur != [] && (cur[0] == "FILTER" || cur[0] == "OPTIONAL" || cur[0] == "VALUES")
  }

  function LineOf(st: Layout, suffix: string): string {
    var indent := Blanks(2 * (st.depth + if st.hang && !Unhung(st.cur) then 1 else 0));
    CloseParens(OpenParens(indent + Join(st.cur, " ") + suffix))
  }

  function Flushed(st: Layout, suffix: string): Layout {
    if st.cur == [] && suffix == "" then st
    else st.(lines := st.lines + [LineOf(st, suffix)], cur := [])
  }

  /** A clause that starts a line of its own. */
  function Started(st: Layout, w: string): Layout {
    Flushed(st, "").(hang := false, cur := [w])
  }

  function GroupOpened(st: Layout, w: string): Layout {
    var flushed := Flushed(st.(cur := st.cur + [w]), "");
    flushed.(depth := flushed.depth + 1, hang := false)
  }

  function LineClosed(before: Layout, w: string): Layout {
    var depth := if before.depth == 0 then 0 else before.depth - 1;
    Flushed(before.(depth := depth, hang := false, cur := before.cur + [w]), "")
  }

  function GroupClosed(st: Layout, w: string): Layout {
    LineClosed(Flushed(st, ""), w)
  }

  function Ended(st: Layout, mark: char, hang: bool): Layout {
    Flushed(st, [' ', mark]).(hang := hang)
  }

  function Placed(st: Layout, w: string): Layout {
    if (w == "PREFIX" || w == "SELECT") && st.depth == 0 then Started(st, w)
    else if w == "{" then GroupOpened(st, w)
    else if w == "}" then GroupClosed(st, w)
    else if w == "." then Ended(st, '.', false)
    else if w == ";" then Ended(st, ';', true)
    else st.(cur := st.cur + [w])
  }

  function PlacedAll(st: Layout, ws: seq<string>): Layout
    decreases |ws|
  {
    if ws == [] then st else PlacedAll(Placed(st, ws[0]), ws[1..])
  }

  function LinesOf(ws: seq<string>): seq<string> {
    Flushed(PlacedAll(START, ws), "").lines
  }

  // ---- the layout keeps the words ----

  lemma {:induction false} DropFits(t: string, ws: seq<string>, free: bool)
    requires Fits(t, "", ws, free)
    ensures Fits(DropSpaces(t), "", ws, true)
    decreases |t|
  {
    if t != "" && IsSpace(t[0]) { DropFits(t[1..], ws, true); } else { FitsFree(t, "", ws, free); }
  }

  lemma FitsCons(c: char, t: string, cur: string, ws: seq<string>, free: bool)
    requires cur != "" && cur[0] == c && Fits(t, cur[1..], ws, Frees(c))
    ensures Fits([c] + t, cur, ws, free)
  {
    assert ([c] + t)[1..] == t;
  }

  lemma FitsSpaceCons(c: char, t: string, ws: seq<string>, free: bool)
    requires IsSpace(c) && Fits(t, "", ws, true)
    ensures Fits([c] + t, "", ws, free)
  {
    assert ([c] + t)[1..] == t;
  }

  /** A word begins where the text says. */
  lemma FitsBegin(t: string, ws: seq<string>, free: bool)
    requires t != "" && !IsSpace(t[0]) && (free || t[0] == ')') && ws != [] && ws[0] != ""
    requires Fits(t, ws[0], ws[1..], free)
    ensures Fits(t, "", ws, free)
  {}

  /** Dropping spaces inside a fitting text never cuts a word: a word in progress has none next. */
  lemma DropMidword(t: string, cur: string, ws: seq<string>, free: bool)
    requires Fits(t, cur, ws, free) && NoSpace(cur)
    ensures Fits(DropSpaces(t), cur, ws, true)
  {
    if cur == "" { DropFits(t, ws, free); } else { FitsFree(t, cur, ws, free); }
  }

  lemma {:induction false} OpenParensFits(t: string, cur: string, ws: seq<string>, free: bool)
    requires Fits(t, cur, ws, free) && NoSpace(cur) && WordTexts(ws)
    ensures Fits(OpenParens(t), cur, ws, free)
    decreases |t|, if cur == "" then 1 else 0
  {
    if cur != "" {
      var rest := if t[0] == '(' then DropSpaces(t[1..]) else t[1..];
      if t[0] == '(' { DropMidword(t[1..], cur[1..], ws, true); }
      OpenParensFits(rest, cur[1..], ws, Frees(cur[0]));
      FitsCons(t[0], OpenParens(rest), cur, ws, free);
    } else if t != "" {
      if IsSpace(t[0]) {
        OpenParensFits(t[1..], "", ws, true);
        FitsSpaceCons(t[0], OpenParens(t[1..]), ws, free);
      } else {
        OpenParensFits(t, ws[0], ws[1..], free);
        assert OpenParens(t)[0] == t[0];
        FitsBegin(OpenParens(t), ws, free);
      }
    }
  }

  /** The closing parenthesis begins the next word, and needs no space before it. */
  lemma {:induction false} ParenClosed(t: string, ws: seq<string>, free: bool)
    requires t != "" && IsSpace(t[0]) && Fits(t, "", ws, free) && WordTexts(ws)
    requires DropSpaces(t) != "" && DropSpaces(t)[0] == ')'
    ensures Fits(CloseParens(t), "", ws, free)
    decreases |t|, 0
  {
    var d := DropSpaces(t);
    DropFits(t, ws, free);
    CloseParensFits(d[1..], ws[0][1..], ws[1..], false);
    FitsCons(')', CloseParens(d[1..]), ws[0], ws[1..], free);
    FitsBegin([')'] + CloseParens(d[1..]), ws, free);
  }

  lemma {:induction false} CloseParensFits(t: string, cur: string, ws: seq<string>, free: bool)
    requires Fits(t, cur, ws, free) && NoSpace(cur) && WordTexts(ws)
    ensures Fits(CloseParens(t), cur, ws, free)
    decreases |t|, if cur == "" then 1 else 0
  {
    if cur != "" {
      CloseParensFits(t[1..], cur[1..], ws, Frees(cur[0]));
      FitsCons(t[0], CloseParens(t[1..]), cur, ws, free);
    } else if t != "" {
      if IsSpace(t[0]) {
        if DropSpaces(t) != "" && DropSpaces(t)[0] == ')' {
          ParenClosed(t, ws, free);
        } else {
          CloseParensFits(t[1..], "", ws, true);
          FitsSpaceCons(t[0], CloseParens(t[1..]), ws, free);
        }
      } else {
        CloseParensFits(t, ws[0], ws[1..], free);
        assert CloseParens(t)[0] == t[0];
        FitsBegin(CloseParens(t), ws, free);
      }
    }
  }

  lemma {:induction false} JoinFits(ws: seq<string>)
    requires WordTexts(ws)
    ensures Fits(Join(ws, " "), "", ws, true)
    decreases |ws|
  {
    if |ws| == 1 {
      FitsWord(ws[0]);
      assert ws == [ws[0]];
    } else if |ws| > 1 {
      var init, w := ws[..|ws| - 1], ws[|ws| - 1];
      JoinFits(init);
      FitsWord(w);
      FitsSpaceCons(' ', w, [w], false);
      FitsAppendSpaced(Join(init, " "), init, [' '] + w, [w], true);
      assert Join(init, " ") + ([' '] + w) == Join(init, " ") + " " + w;
      assert init + [w] == ws;
    }
  }

  lemma LineFits(st: Layout, suffix: string, extra: seq<string>)
    requires WordTexts(st.cur) && WordTexts(extra) && Fits(suffix, "", extra, false)
    ensures Fits(LineOf(st, suffix), "", st.cur + extra, true)
  {
    var indent := Blanks(2 * (st.depth + if st.hang && !Unhung(st.cur) then 1 else 0));
    var joined := Join(st.cur, " ");
    FitsSpaces(indent, true);
    JoinFits(st.cur);
    FitsAppendFree(indent, [], joined, st.cur, true);
    assert [] + st.cur == st.cur;
    FitsAppendSpaced(indent + joined, st.cur, suffix, extra, true);
    OpenParensFits(indent + joined + suffix, "", st.cur + extra, true);
    CloseParensFits(OpenParens(indent + joined + suffix), "", st.cur + extra, true);
  }

  /** The words are those of the lines, then those still in `cur`. */
  predicate Parted(st: Layout, done: seq<string>, ws: seq<string>) {
    ws == done + st.cur && WordTexts(done) && WordTexts(st.cur) && Fits(Join(st.lines, "\n"), "", done, true)
  }

  /** The lines hold the words placed so far, but for those still in `cur`. */
  ghost predicate LaidOut(st: Layout, ws: seq<string>) {
    exists done :: Parted(st, done, ws)
  }

  lemma LineAdded(lines: seq<string>, done: seq<string>, line: string, words: seq<string>)
    requires WordTexts(done) && Fits(Join(lines, "\n"), "", done, true) && Fits(line, "", words, true)
    ensures Fits(Join(lines + [line], "\n"), "", done + words, true)
  {
    if lines == [] {
      assert done == [];
      assert done + words == words;
    } else {
      assert (lines + [line])[..|lines|] == lines;
      FitsSpaceCons('\n', line, words, false);
      FitsAppendSpaced(Join(lines, "\n"), done, ['\n'] + line, words, true);
      assert Join(lines, "\n") + (['\n'] + line) == Join(lines, "\n") + "\n" + line;
    }
  }

  /** A line of its own holds all the words up to the last. */
  lemma Flushes(lines: seq<string>, done: seq<string>, line: string, words: seq<string>, all: seq<string>, st: Layout)
    requires WordTexts(done) && WordTexts(words) && Fits(Join(lines, "\n"), "", done, true)
    requires Fits(line, "", words, true)
    requires st.lines == lines + [line] && st.cur == [] && all == done + words
    ensures LaidOut(st, all)
  {
    LineAdded(lines, done, line, words);
    assert all + [] == all;
    assert Parted(st, all, all);
  }

  lemma FlushKeeps(st: Layout, ws: seq<string>, suffix: string, extra: seq<string>)
    requires LaidOut(st, ws) && WordTexts(extra) && Fits(suffix, "", extra, false) && (suffix == "" ==> extra == [])
    ensures LaidOut(Flushed(st, suffix), ws + extra)
  {
    if st.cur == [] && suffix == "" {
      assert ws + extra == ws;
    } else {
      var done :| Parted(st, done, ws);
      LineFits(st, suffix, extra);
      assert ws + extra == done + (st.cur + extra);
      Flushes(st.lines, done, LineOf(st, suffix), st.cur + extra, ws + extra, Flushed(st, suffix));
    }
  }

  lemma PlaceWord(st: Layout, ws: seq<string>, w: string)
    requires LaidOut(st, ws) && IsWordText(w)
    ensures LaidOut(st.(cur := st.cur + [w]), ws + [w])
  {
    var done :| Parted(st, done, ws);
    assert done + st.cur + [w] == done + (st.cur + [w]);
    assert Parted(st.(cur := st.cur + [w]), done, ws + [w]);
  }

  lemma Reset(st: Layout, ws: seq<string>, depth: nat, hang: bool)
    requires LaidOut(st, ws)
    ensures LaidOut(st.(depth := depth, hang := hang), ws)
  {
    var done :| Parted(st, done, ws);
    assert Parted(st.(depth := depth, hang := hang), done, ws);
  }

  lemma PlainFlushKeeps(st: Layout, ws: seq<string>)
    requires LaidOut(st, ws)
    ensures LaidOut(Flushed(st, ""), ws)
  {
    FlushKeeps(st, ws, "", []);
    assert ws + [] == ws;
  }

  lemma StartedKeeps(st: Layout, ws: seq<string>, w: string)
    requires LaidOut(st, ws) && IsWordText(w)
    ensures LaidOut(Started(st, w), ws + [w])
  {
    PlainFlushKeeps(st, ws);
    var f := Flushed(st, "");
    Reset(f, ws, f.depth, false);
    PlaceWord(f.(hang := false), ws, w);
    assert f.cur + [w] == [w];
  }

  lemma GroupOpenedKeeps(st: Layout, ws: seq<string>, w: string)
    requires LaidOut(st, ws) && IsWordText(w)
    ensures LaidOut(GroupOpened(st, w), ws + [w])
  {
    PlaceWord(st, ws, w);
    PlainFlushKeeps(st.(cur := st.cur + [w]), ws + [w]);
    var f := Flushed(st.(cur := st.cur + [w]), "");
    Reset(f, ws + [w], f.depth + 1, false);
  }

  lemma GroupClosedKeeps(st: Layout, ws: seq<string>, w: string)
    requires LaidOut(st, ws) && IsWordText(w)
    ensures LaidOut(GroupClosed(st, w), ws + [w])
  {
    PlainFlushKeeps(st, ws);
    LineClosedKeeps(Flushed(st, ""), ws, w);
  }

  lemma LineClosedKeeps(before: Layout, ws: seq<string>, w: string)
    requires LaidOut(before, ws) && IsWordText(w)
    ensures LaidOut(LineClosed(before, w), ws + [w])
  {
    PlaceWord(before, ws, w);
    var depth := if before.depth == 0 then 0 else before.depth - 1;
    Reset(before.(cur := before.cur + [w]), ws + [w], depth, false);
    PlainFlushKeeps(before.(depth := depth, hang := false, cur := before.cur + [w]), ws + [w]);
  }

  lemma EndedKeeps(st: Layout, ws: seq<string>, mark: char, hang: bool)
    requires LaidOut(st, ws) && !IsSpace(mark)
    ensures LaidOut(Ended(st, mark, hang), ws + [[mark]])
  {
    FitsWord([mark]);
    FitsSpaceCons(' ', [mark], [[mark]], false);
    assert [' '] + [mark] == [' ', mark];
    FlushKeeps(st, ws, [' ', mark], [[mark]]);
    var f := Flushed(st, [' ', mark]);
    Reset(f, ws + [[mark]], f.depth, hang);
  }

  lemma PlacedKeeps(st: Layout, ws: seq<string>, w: string)
    requires LaidOut(st, ws) && IsWordText(w)
    ensures LaidOut(Placed(st, w), ws + [w])
  {
    if (w == "PREFIX" || w == "SELECT") && st.depth == 0 { StartedKeeps(st, ws, w); }
    else if w == "{" { GroupOpenedKeeps(st, ws, w); }
    else if w == "}" { GroupClosedKeeps(st, ws, w); }
    else if w == "." { EndedKeeps(st, ws, '.', false); }
    else if w == ";" { EndedKeeps(st, ws, ';', true); }
    else { PlaceWord(st, ws, w); }
  }

  lemma {:induction false} PlacedAllKeeps(st: Layout, done: seq<string>, ws: seq<string>, all: seq<string>)
    requires LaidOut(st, done) && WordTexts(ws) && all == done + ws
    ensures LaidOut(PlacedAll(st, ws), all)
    decreases |ws|
  {
    if ws == [] {
      assert all == done;
    } else {
      PlacedKeeps(st, done, ws[0]);
      assert done + [ws[0]] + ws[1..] == all;
      PlacedAllKeeps(Placed(st, ws[0]), done + [ws[0]], ws[1..], all);
    }
  }

  lemma NothingPlaced(st: Layout)
    requires st.lines == [] && st.cur == []
    ensures LaidOut(st, [])
  {
    assert Parted(st, [], []);
  }

  lemma LastFlush(st: Layout, ws: seq<string>)
    requires LaidOut(st, ws)
    ensures Fits(Join(Flushed(st, "").lines, "\n"), "", ws, true)
  {
    PlainFlushKeeps(st, ws);
    var done :| Parted(Flushed(st, ""), done, ws);
    assert done + [] == done;
  }

  /** The laid-out text is made of the words in order. */
  lemma LayoutFits(ws: seq<string>)
    requires WordTexts(ws)
    ensures Fits(Join(LinesOf(ws), "\n"), "", ws, true)
  {
    LaidOutFrom(START, ws);
  }

  lemma LaidOutFrom(start: Layout, ws: seq<string>)
    requires start.lines == [] && start.cur == [] && WordTexts(ws)
    ensures Fits(Join(Flushed(PlacedAll(start, ws), "").lines, "\n"), "", ws, true)
  {
    NothingPlaced(start);
    assert [] + ws == ws;
    PlacedAllKeeps(start, [], ws, ws);
    LastFlush(PlacedAll(start, ws), ws);
  }
}
