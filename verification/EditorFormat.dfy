/**
 The editor's pretty-printer: IRIs and literals are replaced by numbered holes, the text is
 respaced and laid out in lines, and the holes are filled again. Only white space moves.
 */
module EditorFormat {
  import opened Decimals
  import opened EditorLayout
  import EditorLines
  import L = EditorLexer
  import EditorScan

  // ---- text as atoms ----

  /** A character outside the spans, or a span, by its place in the store. */
  datatype Atom = Glyph(c: char) | Hole(k: nat)

  function Code(a: Atom): string {
    match a case Glyph(c) => [c] case Hole(k) => "\0" + Dec(k) + "\0"
  }

  function Shown(a: Atom, store: seq<string>): string {
    match a case Glyph(c) => [c] case Hole(k) => if k < |store| then store[k] else "undefined"
  }

  /** The text with the holes in it. */
  function Encoded(atoms: seq<Atom>): string {
    if atoms == [] then "" else Code(atoms[0]) + Encoded(atoms[1..])
  }

  function Glyphs(s: string): seq<Atom> {
    seq(|s|, k requires 0 <= k < |s| => Glyph(s[k]))
  }

  /** The atoms of `text` from `last` on, the next span being the `k`-th of the store. */
  function AtomsFrom(text: string, spans: seq<L.Span>, last: nat, k: nat): seq<Atom>
    requires last <= |text| && L.Ordered(spans, last, |text|)
    decreases |spans|
  {
    if spans == [] then Glyphs(text[last..])
    else Glyphs(text[last..spans[0].from]) + [Hole(k)] + AtomsFrom(text, spans[1..], spans[0].to, k + 1)
  }

  function StoreOf(text: string, spans: seq<L.Span>): seq<string>
    requires L.Ordered(spans, 0, |text|)
  {
    seq(|spans|, k requires 0 <= k < |spans| => text[spans[k].from..spans[k].to])
  }

  /** The atoms that are not white space: what must survive. */
  function Ink(atoms: seq<Atom>): seq<Atom> {
    if atoms == [] then []
    else (if atoms[0].Glyph? && IsSpace(atoms[0].c) then [] else [atoms[0]]) + Ink(atoms[1..])
  }

  predicate Splits(t: string, gap: string, shown: string, rest: string) {
    AllSpace(gap) && t == gap + shown + rest
  }

  /** `t` shows these atoms in order, with nothing but white space between, before and after. */
  ghost predicate Shows(t: string, ink: seq<Atom>, store: seq<string>)
    decreases |ink|
  {
    if ink == [] then AllSpace(t)
    else exists gap, rest :: Splits(t, gap, Shown(ink[0], store), rest) && Shows(rest, ink[1..], store)
  }

  lemma ShowsSplit(t: string, gap: string, a: Atom, rest: string, ink: seq<Atom>, store: seq<string>)
    requires Splits(t, gap, Shown(a, store), rest) && Shows(rest, ink, store)
    ensures Shows(t, [a] + ink, store)
  {
    var all := [a] + ink;
    assert all[1..] == ink && Shows(rest, all[1..], store) && Splits(t, gap, Shown(all[0], store), rest);
  }

  lemma ShowsAtom(a: Atom, t: string, ink: seq<Atom>, store: seq<string>)
    requires Shows(t, ink, store)
    ensures Shows(Shown(a, store) + t, [a] + ink, store)
  {
    assert Splits(Shown(a, store) + t, "", Shown(a, store), t);
    ShowsSplit(Shown(a, store) + t, "", a, t, ink, store);
  }

  lemma ShowsSpace(c: char, t: string, ink: seq<Atom>, store: seq<string>)
    requires IsSpace(c) && Shows(t, ink, store)
    ensures Shows([c] + t, ink, store)
  {
    if ink != [] {
      var gap, rest :| Splits(t, gap, Shown(ink[0], store), rest) && Shows(rest, ink[1..], store);
      assert [c] + t == ([c] + gap) + Shown(ink[0], store) + rest;
      ShowsSplit([c] + t, [c] + gap, ink[0], rest, ink[1..], store);
      assert [ink[0]] + ink[1..] == ink;
    }
  }

  // ---- words of atoms ----

  function PendingAtoms(cur: seq<Atom>): seq<seq<Atom>> {
    if cur == [] then [] else [cur]
  }

  predicate IsGap(a: Atom) {
    a.Glyph? && IsSpace(a.c)
  }

  function AtomWords(atoms: seq<Atom>, cur: seq<Atom>): seq<seq<Atom>>
    decreases |atoms|
  {
    if atoms == [] then PendingAtoms(cur)
    else if IsGap(atoms[0]) then PendingAtoms(cur) + AtomWords(atoms[1..], [])
    else if atoms[0].Glyph? && IsBrace(atoms[0].c) then PendingAtoms(cur) + [[atoms[0]]] + AtomWords(atoms[1..], [])
    else AtomWords(atoms[1..], cur + [atoms[0]])
  }

  function EncodedAll(ws: seq<seq<Atom>>): seq<string> {
    if ws == [] then [] else [Encoded(ws[0])] + EncodedAll(ws[1..])
  }

  function Flat(ws: seq<seq<Atom>>): seq<Atom> {
    if ws == [] then [] else ws[0] + Flat(ws[1..])
  }

  lemma {:induction false} EncodedAppend(a: seq<Atom>, b: seq<Atom>)
    ensures Encoded(a + b) == Encoded(a) + Encoded(b)
  {
    if a == [] {
      assert a + b == b;
    } else {
      assert (a + b)[1..] == a[1..] + b;
      EncodedAppend(a[1..], b);
    }
  }

  lemma EncodedOne(a: Atom)
    ensures Encoded([a]) == Code(a)
  {
    assert [a][1..] == [];
  }

  lemma {:induction false} EncodedAllAppend(a: seq<seq<Atom>>, b: seq<seq<Atom>>)
    ensures EncodedAll(a + b) == EncodedAll(a) + EncodedAll(b)
  {
    if a == [] {
      assert a + b == b;
    } else {
      assert (a + b)[1..] == a[1..] + b;
      EncodedAllAppend(a[1..], b);
    }
  }

  /** Text without white space and braces only lengthens the word. */
  lemma {:induction false} RunExtends(run: string, rest: string, cur: string)
    requires forall k :: 0 <= k < |run| ==> !IsSpace(run[k]) && !IsBrace(run[k])
    ensures BraceWordsFrom(run + rest, cur) == BraceWordsFrom(rest, cur + run)
    decreases |run|
  {
    if run == "" {
      assert run + rest == rest && cur + run == cur;
    } else {
      assert (run + rest)[1..] == run[1..] + rest;
      RunExtends(run[1..], rest, cur + [run[0]]);
      assert cur + [run[0]] + run[1..] == cur + run;
    }
  }

  lemma HoleIsSolid(k: nat)
    ensures forall i :: 0 <= i < |Code(Hole(k))| ==> !IsSpace(Code(Hole(k))[i]) && !IsBrace(Code(Hole(k))[i])
  {
    var code := Code(Hole(k));
    forall i | 0 <= i < |code| ensures !IsSpace(code[i]) && !IsBrace(code[i]) {
      assert code[i] == '\0' || IsDigit(code[i]);
    }
  }

  lemma PendingEncoded(cur: seq<Atom>)
    ensures EncodedAll(PendingAtoms(cur)) == Pending(Encoded(cur))
    ensures (cur == []) <==> (Encoded(cur) == "")
  {
    if cur != [] {
      assert Code(cur[0]) != "";
      assert [cur][1..] == [];
    }
  }

  /** The words of the text with holes are those of its atoms. */
  lemma {:induction false} EncodedWords(atoms: seq<Atom>, cur: seq<Atom>)
    ensures BraceWordsFrom(Encoded(atoms), Encoded(cur)) == EncodedAll(AtomWords(atoms, cur))
    decreases |atoms|
  {
    PendingEncoded(cur);
    if atoms != [] {
      var a, rest := atoms[0], atoms[1..];
      var t := Encoded(rest);
      if a.Glyph? { assert ([a.c] + t)[1..] == t; }
      if IsGap(a) {
        EncodedWords(rest, []);
        EncodedAllAppend(PendingAtoms(cur), AtomWords(rest, []));
      } else if a.Glyph? && IsBrace(a.c) {
        EncodedWords(rest, []);
        EncodedAllAppend(PendingAtoms(cur) + [[a]], AtomWords(rest, []));
        EncodedAllAppend(PendingAtoms(cur), [[a]]);
        EncodedOne(a);
        assert [[a]][1..] == [];
        assert EncodedAll([[a]]) == [[a.c]];
      } else {
        EncodedAppend(cur, [a]);
        EncodedOne(a);
        EncodedWords(rest, cur + [a]);
        if a.Hole? { HoleIsSolid(a.k); }
        RunExtends(Code(a), t, Encoded(cur));
      }
    }
  }

  lemma FlatPending(cur: seq<Atom>, ws: seq<seq<Atom>>)
    ensures Flat(PendingAtoms(cur) + ws) == cur + Flat(ws)
  {
    if cur == [] {
      assert PendingAtoms(cur) + ws == ws && cur + Flat(ws) == Flat(ws);
    } else {
      assert ([cur] + ws)[1..] == ws;
    }
  }

  lemma FlatMark(cur: seq<Atom>, a: Atom, ws: seq<seq<Atom>>)
    ensures Flat(PendingAtoms(cur) + [[a]] + ws) == cur + ([a] + Flat(ws))
  {
    assert ([[a]] + ws)[1..] == ws;
    FlatPending(cur, [[a]] + ws);
    assert PendingAtoms(cur) + [[a]] + ws == PendingAtoms(cur) + ([[a]] + ws);
  }

  lemma InkStep(a: Atom, rest: seq<Atom>, cur: seq<Atom>)
    ensures Ink([a] + rest) == if IsGap(a) then Ink(rest) else [a] + Ink(rest)
    ensures cur + ([a] + Ink(rest)) == cur + [a] + Ink(rest) && [] + Ink(rest) == Ink(rest)
  {
    assert ([a] + rest)[1..] == rest;
  }

  lemma {:induction false} WordsAreInk(atoms: seq<Atom>, cur: seq<Atom>)
    ensures Flat(AtomWords(atoms, cur)) == cur + Ink(atoms)
    decreases |atoms|
  {
    if atoms == [] {
      FlatPending(cur, []);
      assert PendingAtoms(cur) + [] == PendingAtoms(cur);
    } else {
      var a, rest := atoms[0], atoms[1..];
      assert atoms == [a] + rest;
      InkStep(a, rest, cur);
      if IsGap(a) {
        WordsAreInk(rest, []);
        FlatPending(cur, AtomWords(rest, []));
      } else if a.Glyph? && IsBrace(a.c) {
        WordsAreInk(rest, []);
        FlatMark(cur, a, AtomWords(rest, []));
      } else {
        WordsAreInk(rest, cur + [a]);
      }
    }
  }

  /** A word of atoms has no white space. */
  predicate Solid(w: seq<Atom>) {
    forall i :: 0 <= i < |w| ==> !IsGap(w[i])
  }

  predicate SolidWords(ws: seq<seq<Atom>>) {
    forall i :: 0 <= i < |ws| ==> ws[i] != [] && Solid(ws[i])
  }

  lemma {:induction false} AtomWordsSolid(atoms: seq<Atom>, cur: seq<Atom>)
    requires Solid(cur)
    ensures SolidWords(AtomWords(atoms, cur))
    decreases |atoms|
  {
    if atoms != [] {
      var joins := !IsGap(atoms[0]) && !(atoms[0].Glyph? && IsBrace(atoms[0].c));
      AtomWordsSolid(atoms[1..], if joins then cur + [atoms[0]] else []);
    }
  }

  // ---- what is taken for a hole ----

  predicate IsNul(a: Atom) {
    a == Glyph('\0')
  }

  predicate IsDigitGlyph(a: Atom) {
    a.Glyph? && IsDigit(a.c)
  }

  /** Digits up to a character that a hole's mark is written with; `some` when a digit was seen. */
  predicate MarkAhead(atoms: seq<Atom>, some: bool) {
    atoms != []
    && if IsDigitGlyph(atoms[0]) then MarkAhead(atoms[1..], true) else some && (atoms[0].Hole? || IsNul(atoms[0]))
  }

  /** U+0000, digits, and another U+0000 or the opening mark of a hole. */
  predicate ReadsAsHole(atoms: seq<Atom>) {
    atoms != [] && IsNul(atoms[0]) && MarkAhead(atoms[1..], false)
  }

  /** Somewhere the text has what the formatter takes for one of its holes. */
  predicate Clash(atoms: seq<Atom>) {
    atoms != [] && (ReadsAsHole(atoms) || Clash(atoms[1..]))
  }

  predicate Calm(ws: seq<seq<Atom>>) {
    forall i :: 0 <= i < |ws| ==> !Clash(ws[i])
  }

  /** A character that is no part of such a text. */
  predicate IsBreak(a: Atom) {
    a.Glyph? && !IsDigit(a.c) && a.c != '\0'
  }

  lemma {:induction false} MarkAheadSplit(front: seq<Atom>, a: Atom, rest: seq<Atom>, some: bool)
    requires IsBreak(a)
    ensures MarkAhead(front + [a] + rest, some) == MarkAhead(front, some)
    decreases |front|
  {
    var all := front + [a] + rest;
    if front != [] {
      assert all[1..] == front[1..] + [a] + rest;
      MarkAheadSplit(front[1..], a, rest, true);
    }
  }

  lemma {:induction false} ClashSplit(front: seq<Atom>, a: Atom, rest: seq<Atom>)
    requires IsBreak(a)
    ensures Clash(front + [a] + rest) <==> Clash(front) || Clash(rest)
    decreases |front|
  {
    var all := front + [a] + rest;
    if front == [] {
      assert all[1..] == rest;
    } else {
      assert all[1..] == front[1..] + [a] + rest;
      MarkAheadSplit(front[1..], a, rest, false);
      ClashSplit(front[1..], a, rest);
    }
  }

  lemma CalmAppend(a: seq<seq<Atom>>, b: seq<seq<Atom>>)
    ensures Calm(a + b) <==> Calm(a) && Calm(b)
  {
    if Calm(a + b) {
      assert forall i :: 0 <= i < |a| ==> (a + b)[i] == a[i];
      assert forall i :: 0 <= i < |b| ==> (a + b)[|a| + i] == b[i];
    }
  }

  lemma CalmPending(cur: seq<Atom>)
    ensures Calm(PendingAtoms(cur)) <==> !Clash(cur)
  {
    if cur != [] { assert PendingAtoms(cur)[0] == cur; }
  }

  lemma BreakIsCalm(a: Atom)
    requires IsBreak(a)
    ensures Calm([[a]])
  {
    assert [a][1..] == [];
  }

  /** White space and braces take no part in it, so it stands within one word or nowhere. */
  lemma {:induction false} ClashWithinWords(atoms: seq<Atom>, cur: seq<Atom>)
    ensures Clash(cur + atoms) <==> !Calm(AtomWords(atoms, cur))
    decreases |atoms|
  {
    CalmPending(cur);
    if atoms == [] {
      assert cur + atoms == cur;
    } else {
      var a, rest := atoms[0], atoms[1..];
      if IsGap(a) {
        ClashWithinWords(rest, []);
        ClashSplit(cur, a, rest);
        CalmAppend(PendingAtoms(cur), AtomWords(rest, []));
        assert cur + atoms == cur + [a] + rest && [] + rest == rest;
      } else if a.Glyph? && IsBrace(a.c) {
        ClashWithinWords(rest, []);
        ClashSplit(cur, a, rest);
        BreakIsCalm(a);
        CalmAppend(PendingAtoms(cur), [[a]]);
        CalmAppend(PendingAtoms(cur) + [[a]], AtomWords(rest, []));
        assert cur + atoms == cur + [a] + rest && [] + rest == rest;
      } else {
        ClashWithinWords(rest, cur + [a]);
        assert cur + atoms == (cur + [a]) + rest;
      }
    }
  }

  lemma {:induction false} SolidIsWordText(w: seq<Atom>)
    requires Solid(w)
    ensures NoSpace(Encoded(w)) && (w != [] ==> IsWordText(Encoded(w)))
  {
    if w != [] {
      SolidIsWordText(w[1..]);
      if w[0].Hole? { HoleIsSolid(w[0].k); }
      NoSpaceAppend(Code(w[0]), Encoded(w[1..]));
    }
  }

  lemma NoSpaceAppend(a: string, b: string)
    requires NoSpace(a) && NoSpace(b)
    ensures NoSpace(a + b)
  {}

  lemma {:induction false} SolidAreWordTexts(ws: seq<seq<Atom>>)
    requires SolidWords(ws)
    ensures WordTexts(EncodedAll(ws)) && |EncodedAll(ws)| == |ws|
  {
    if ws != [] {
      SolidAreWordTexts(ws[1..]);
      SolidIsWordText(ws[0]);
    }
  }

  // ---- filling the holes ----

  /** /\0(\d+)\0/g, each match replaced by the entry of the store it numbers. */
  function Restore(t: string, store: seq<string>): string
    decreases |t|
  {
    if t == "" then ""
    else
      var n := DigitRun(t[1..]);
      if t[0] == '\0' && n > 0 && n + 1 < |t| && t[n + 1] == '\0' then
        assert t[1..][..n] == t[1..n + 1];
        Shown(Hole(Undec(t[1..n + 1])), store) + Restore(t[n + 2..], store)
      else [t[0]] + Restore(t[1..], store)
  }

  lemma RestoreChar(c: char, rest: string, store: seq<string>)
    requires c != '\0'
    ensures Restore([c] + rest, store) == [c] + Restore(rest, store)
  {
    assert ([c] + rest)[1..] == rest;
  }

  /** A hole is found where it was left: its digits run up to the closing mark. */
  lemma HoleFound(digits: string, rest: string, store: seq<string>)
    requires digits != "" && AllDigits(digits)
    ensures Restore("\0" + digits + "\0" + rest, store) == Shown(Hole(Undec(digits)), store) + Restore(rest, store)
  {
    var after := "\0" + rest;
    var t := "\0" + digits + after;
    assert "\0" + digits + "\0" + rest == t;
    assert t[1..] == digits + after;
    DigitRunOf(digits, after);
    var n := |digits|;
    assert t[n + 1] == after[0] && t[n + 2..] == rest;
    assert t[1..n + 1] == digits;
  }

  lemma RestoreHole(k: nat, rest: string, store: seq<string>)
    ensures Restore(Code(Hole(k)) + rest, store) == Shown(Hole(k), store) + Restore(rest, store)
  {
    HoleFound(Dec(k), rest, store);
    DecReadsBack(k);
  }

  /** A text that fits a word in progress starts with it. */
  lemma {:induction false} FitsPeel(t: string, p: string, cur: string, ws: seq<string>, free: bool)
    requires Fits(t, p + cur, ws, free) && p != ""
    ensures |p| <= |t| && t[..|p|] == p && Fits(t[|p|..], cur, ws, Frees(p[|p| - 1]))
    decreases |p|
  {
    assert (p + cur)[1..] == p[1..] + cur;
    if |p| == 1 {
      assert p[1..] + cur == cur && t[..1] == [t[0]];
    } else {
      FitsPeel(t[1..], p[1..], cur, ws, Frees(p[0]));
      assert t[1..][|p[1..]|..] == t[|p|..];
      assert t[..|p|] == [t[0]] + t[1..][..|p[1..]|];
    }
  }

  /** Digits up to a mark, in the text and in the atoms: after the word comes neither. */
  lemma {:induction false} MarkInText(t: string, cur: seq<Atom>, ws: seq<string>, some: bool)
    requires Fits(t, Encoded(cur), ws, false)
    ensures MarkAhead(cur, some) <==> (some || DigitRun(t) > 0) && DigitRun(t) < |t| && t[DigitRun(t)] == '\0'
    decreases |cur|
  {
    if cur != [] && IsDigitGlyph(cur[0]) {
      assert Encoded(cur)[1..] == Encoded(cur[1..]);
      MarkInText(t[1..], cur[1..], ws, true);
    }
  }

  /** U+0000 is taken for the start of a hole exactly where the atoms read as one. */
  lemma NulInText(t: string, rest: seq<Atom>, ws: seq<string>, free: bool, store: seq<string>)
    requires Fits(t, "\0" + Encoded(rest), ws, free)
    ensures t != "" && t[0] == '\0' && Fits(t[1..], Encoded(rest), ws, false)
    ensures !MarkAhead(rest, false) ==> Restore(t, store) == "\0" + Restore(t[1..], store)
    ensures MarkAhead(rest, false) ==>
              exists k: nat, after :: Restore(t, store) == Shown(Hole(k), store) + Restore(after, store)
  {
    assert ("\0" + Encoded(rest))[1..] == Encoded(rest);
    MarkInText(t[1..], rest, ws, false);
    var n := DigitRun(t[1..]);
    if MarkAhead(rest, false) {
      assert t[1..][..n] == t[1..n + 1];
      assert Restore(t, store) == Shown(Hole(Undec(t[1..n + 1])), store) + Restore(t[n + 2..], store);
    }
  }

  lemma RestoreAtom(a: Atom, after: string, store: seq<string>)
    requires !IsNul(a)
    ensures Restore(Code(a) + after, store) == Shown(a, store) + Restore(after, store)
  {
    if a.Hole? { RestoreHole(a.k, after, store); } else { RestoreChar(a.c, after, store); }
  }

  /** The first atom of a word in progress, filled in, unless it reads as a hole it is not. */
  lemma RestoredAtom(t: string, a: Atom, rest: seq<Atom>, ws: seq<string>, free: bool, store: seq<string>)
    returns (after: string, freed: bool)
    requires Fits(t, Encoded([a] + rest), ws, free) && !ReadsAsHole([a] + rest)
    ensures |after| < |t| && Fits(after, Encoded(rest), ws, freed)
    ensures Restore(t, store) == Shown(a, store) + Restore(after, store)
  {
    assert ([a] + rest)[1..] == rest;
    if IsNul(a) {
      NulInText(t, rest, ws, free, store);
      after, freed := t[1..], false;
    } else {
      var code := Code(a);
      FitsPeel(t, code, Encoded(rest), ws, free);
      after, freed := t[|code|..], Frees(code[|code| - 1]);
      assert t == code + after;
      RestoreAtom(a, after, store);
    }
  }

  lemma WordsStep(ws: seq<seq<Atom>>)
    requires ws != [] && SolidWords(ws)
    ensures Solid(ws[0]) && ws[0] != [] && SolidWords(ws[1..]) && (Calm(ws) <==> !Clash(ws[0]) && Calm(ws[1..]))
    ensures EncodedAll(ws) == [Encoded(ws[0])] + EncodedAll(ws[1..])
  {
    CalmAppend([ws[0]], ws[1..]);
    assert [ws[0]] + ws[1..] == ws;
    CalmPending(ws[0]);
  }

  /** A word in progress and the words to come, the first atom apart. */
  lemma FirstApart(cur: seq<Atom>, flat: seq<Atom>)
    requires cur != []
    ensures cur == [cur[0]] + cur[1..] && cur + flat == [cur[0]] + (cur[1..] + flat)
  {}

  lemma {:induction false} ShownWord(t: string, a: Atom, rest: seq<Atom>, ws: seq<seq<Atom>>, free: bool,
                                     cur: seq<Atom>, ink: seq<Atom>, store: seq<string>)
    requires cur == [a] + rest && ink == [a] + (rest + Flat(ws)) && !Clash(cur) && Calm(ws) && Solid(cur)
    requires SolidWords(ws)
    requires Fits(t, Encoded(cur), EncodedAll(ws), free)
    ensures Shows(Restore(t, store), ink, store)
    decreases |t|, 0
  {
    assert cur[0] == a && cur[1..] == rest;
    var after, freed := RestoredAtom(t, a, rest, EncodedAll(ws), free, store);
    RestoredShows(after, rest, ws, freed, store);
    ShowsAtom(a, Restore(after, store), rest + Flat(ws), store);
  }

  lemma {:induction false} ShownGap(t: string, ws: seq<seq<Atom>>, free: bool, store: seq<string>)
    requires Fits(t, "", EncodedAll(ws), free) && SolidWords(ws) && Calm(ws)
    ensures Shows(Restore(t, store), Flat(ws), store)
    decreases |t|, 3
  {
    if t == "" {
      NoWords(ws);
    } else if IsSpace(t[0]) {
      ShownGap(t[1..], ws, true, store);
      assert t == [t[0]] + t[1..];
      RestoreChar(t[0], t[1..], store);
      ShowsSpace(t[0], Restore(t[1..], store), Flat(ws), store);
    } else {
      ShownStart(t, ws, free, store);
    }
  }

  lemma NoWords(ws: seq<seq<Atom>>)
    requires EncodedAll(ws) == []
    ensures ws == []
  {}

  lemma {:induction false} ShownStart(t: string, ws: seq<seq<Atom>>, free: bool, store: seq<string>)
    requires t != "" && !IsSpace(t[0]) && Fits(t, "", EncodedAll(ws), free) && SolidWords(ws) && Calm(ws)
    ensures Shows(Restore(t, store), Flat(ws), store)
    decreases |t|, 2
  {
    WordsStep(ws);
    RestoredShows(t, ws[0], ws[1..], free, store);
  }

  /** With the holes filled, a text made of encoded words shows their atoms. */
  lemma {:induction false} RestoredShows(t: string, cur: seq<Atom>, ws: seq<seq<Atom>>, free: bool, store: seq<string>)
    requires Fits(t, Encoded(cur), EncodedAll(ws), free) && Solid(cur) && SolidWords(ws) && !Clash(cur) && Calm(ws)
    ensures Shows(Restore(t, store), cur + Flat(ws), store)
    decreases |t|, if cur == [] then 4 else 1
  {
    if cur == [] {
      ShownGap(t, ws, free, store);
      assert cur + Flat(ws) == Flat(ws);
    } else {
      FirstApart(cur, Flat(ws));
      ShownWord(t, cur[0], cur[1..], ws, free, cur, cur + Flat(ws), store);
    }
  }

  // ---- and where something else is taken for a hole, they do not ----

  /** The entries of the store start visibly, and not with a mark. */
  predicate Visible(store: seq<string>) {
    forall k :: 0 <= k < |store| ==> StartsVisibly(store[k]) && store[k][0] != '\0'
  }

  predicate StartsVisibly(s: string) {
    s != "" && !IsSpace(s[0])
  }

  /** What is shown first begins where the white space ends. */
  lemma SplitGap(t: string, gap: string, shown: string, rest: string)
    requires Splits(t, gap, shown, rest) && StartsVisibly(shown)
    ensures t != "" && (IsSpace(t[0]) <==> gap != "")
    ensures !IsSpace(t[0]) ==> t == shown + rest && t[0] == shown[0]
  {
    if gap == "" {
      assert t == shown + rest;
    } else {
      assert t[0] == gap[0];
    }
  }

  /** What begins otherwise than the next atom does not show it. */
  lemma OtherStart(t: string, a: Atom, ink: seq<Atom>, store: seq<string>)
    requires StartsVisibly(t) && StartsVisibly(Shown(a, store)) && t[0] != Shown(a, store)[0]
    ensures !Shows(t, [a] + ink, store)
  {
    var all := [a] + ink;
    forall gap, rest ensures !Splits(t, gap, Shown(all[0], store), rest) {
      if Splits(t, gap, Shown(all[0], store), rest) { SplitGap(t, gap, Shown(a, store), rest); }
    }
  }

  /** The first atom is shown in one way only. */
  lemma ShowsRest(a: Atom, t: string, ink: seq<Atom>, store: seq<string>)
    requires StartsVisibly(Shown(a, store)) && Shows(Shown(a, store) + t, [a] + ink, store)
    ensures Shows(t, ink, store)
  {
    var all, text := [a] + ink, Shown(a, store) + t;
    assert all[1..] == ink;
    var gap, rest :| Splits(text, gap, Shown(all[0], store), rest) && Shows(rest, all[1..], store);
    SplitGap(text, gap, Shown(a, store), rest);
    assert text[|Shown(a, store)|..] == t == rest;
  }

  lemma SpaceShows(c: char, t: string, ink: seq<Atom>, store: seq<string>)
    requires IsSpace(c) && Shows([c] + t, ink, store) && (ink != [] ==> StartsVisibly(Shown(ink[0], store)))
    ensures Shows(t, ink, store)
  {
    var text := [c] + t;
    assert text[1..] == t;
    if ink != [] {
      var gap, rest :| Splits(text, gap, Shown(ink[0], store), rest) && Shows(rest, ink[1..], store);
      SplitGap(text, gap, Shown(ink[0], store), rest);
      assert t == gap[1..] + Shown(ink[0], store) + rest;
      ShowsSplit(t, gap[1..], ink[0], rest, ink[1..], store);
      assert [ink[0]] + ink[1..] == ink;
    } else {
      forall k | 0 <= k < |t| ensures IsSpace(t[k]) { assert text[k + 1] == t[k]; }
    }
  }

  lemma AtomStartsVisibly(a: Atom, store: seq<string>)
    requires !IsGap(a) && Visible(store)
    ensures StartsVisibly(Shown(a, store)) && (a.Hole? ==> Shown(a, store)[0] != '\0')
  {}

  lemma FirstOfFlat(ws: seq<seq<Atom>>)
    requires SolidWords(ws) && Flat(ws) != []
    ensures !IsGap(Flat(ws)[0])
  {}

  lemma FalseHole(t: string, rest: seq<Atom>, ws: seq<string>, free: bool, ink: seq<Atom>, store: seq<string>)
    requires Fits(t, "\0" + Encoded(rest), ws, free) && MarkAhead(rest, false) && Visible(store)
    ensures !Shows(Restore(t, store), [Glyph('\0')] + ink, store)
  {
    NulInText(t, rest, ws, free, store);
    var k: nat, after :| Restore(t, store) == Shown(Hole(k), store) + Restore(after, store);
    AtomStartsVisibly(Hole(k), store);
    OtherStart(Restore(t, store), Glyph('\0'), ink, store);
  }

  /** The atom is shown, and what follows is not. */
  lemma BrokenAfter(t: string, a: Atom, after: string, ink: seq<Atom>, store: seq<string>)
    requires !IsGap(a) && Visible(store) && Restore(t, store) == Shown(a, store) + Restore(after, store)
    requires !Shows(Restore(after, store), ink, store)
    ensures !Shows(Restore(t, store), [a] + ink, store)
  {
    AtomStartsVisibly(a, store);
    if Shows(Restore(t, store), [a] + ink, store) { ShowsRest(a, Restore(after, store), ink, store); }
  }

  lemma {:induction false} BrokenWord(t: string, a: Atom, rest: seq<Atom>, ws: seq<seq<Atom>>, free: bool,
                                      cur: seq<Atom>, ink: seq<Atom>, store: seq<string>)
    requires cur == [a] + rest && ink == [a] + (rest + Flat(ws)) && Solid(cur) && SolidWords(ws) && Visible(store)
    requires Fits(t, Encoded(cur), EncodedAll(ws), free) && (Clash(cur) || !Calm(ws))
    ensures !Shows(Restore(t, store), ink, store)
    decreases |t|, 0
  {
    assert cur[0] == a && cur[1..] == rest;
    if ReadsAsHole(cur) {
      FalseHole(t, rest, EncodedAll(ws), free, rest + Flat(ws), store);
    } else {
      var after, freed := RestoredAtom(t, a, rest, EncodedAll(ws), free, store);
      RestoredBroken(after, rest, ws, freed, store);
      BrokenAfter(t, a, after, rest + Flat(ws), store);
    }
  }

  lemma {:induction false} RestoredBroken(t: string, cur: seq<Atom>, ws: seq<seq<Atom>>, free: bool, store: seq<string>)
    requires Fits(t, Encoded(cur), EncodedAll(ws), free) && Solid(cur) && SolidWords(ws) && Visible(store)
    requires Clash(cur) || !Calm(ws)
    ensures !Shows(Restore(t, store), cur + Flat(ws), store)
    decreases |t|, if cur == [] then 4 else 1
  {
    if cur == [] {
      BrokenGap(t, ws, free, store);
      assert cur + Flat(ws) == Flat(ws);
    } else {
      FirstApart(cur, Flat(ws));
      BrokenWord(t, cur[0], cur[1..], ws, free, cur, cur + Flat(ws), store);
    }
  }

  lemma {:induction false} BrokenGap(t: string, ws: seq<seq<Atom>>, free: bool, store: seq<string>)
    requires Fits(t, "", EncodedAll(ws), free) && SolidWords(ws) && Visible(store) && !Calm(ws)
    ensures !Shows(Restore(t, store), Flat(ws), store)
    decreases |t|, 3
  {
    if t == "" {
      NoWords(ws);
      assert false;
    } else if IsSpace(t[0]) {
      BrokenGap(t[1..], ws, true, store);
      BrokenSpace(t, ws, store);
    } else {
      BrokenStart(t, ws, free, store);
    }
  }

  lemma {:induction false} BrokenStart(t: string, ws: seq<seq<Atom>>, free: bool, store: seq<string>)
    requires t != "" && !IsSpace(t[0]) && Fits(t, "", EncodedAll(ws), free) && SolidWords(ws) && Visible(store)
    requires !Calm(ws)
    ensures !Shows(Restore(t, store), Flat(ws), store)
    decreases |t|, 2
  {
    WordsStep(ws);
    RestoredBroken(t, ws[0], ws[1..], free, store);
  }

  lemma BrokenSpace(t: string, ws: seq<seq<Atom>>, store: seq<string>)
    requires t != "" && IsSpace(t[0]) && SolidWords(ws) && Visible(store)
    requires !Shows(Restore(t[1..], store), Flat(ws), store)
    ensures !Shows(Restore(t, store), Flat(ws), store)
  {
    assert t == [t[0]] + t[1..];
    RestoreChar(t[0], t[1..], store);
    if Flat(ws) != [] {
      FirstOfFlat(ws);
      AtomStartsVisibly(Flat(ws)[0], store);
    }
    if Shows(Restore(t, store), Flat(ws), store) { SpaceShows(t[0], Restore(t[1..], store), Flat(ws), store); }
  }

  // ---- the source shows its atoms ----

  function ShownAll(atoms: seq<Atom>, store: seq<string>): string {
    if atoms == [] then "" else Shown(atoms[0], store) + ShownAll(atoms[1..], store)
  }

  lemma {:induction false} ShownAllAppend(a: seq<Atom>, b: seq<Atom>, store: seq<string>)
    ensures ShownAll(a + b, store) == ShownAll(a, store) + ShownAll(b, store)
  {
    if a == [] {
      assert a + b == b;
    } else {
      assert (a + b)[1..] == a[1..] + b;
      ShownAllAppend(a[1..], b, store);
    }
  }

  lemma {:induction false} GlyphsShown(s: string, store: seq<string>)
    ensures ShownAll(Glyphs(s), store) == s
  {
    if s != "" {
      assert Glyphs(s)[1..] == Glyphs(s[1..]);
      GlyphsShown(s[1..], store);
    }
  }

  lemma HoleShown(k: nat, tail: seq<Atom>, store: seq<string>)
    requires k < |store|
    ensures ShownAll([Hole(k)] + tail, store) == store[k] + ShownAll(tail, store)
  {
    assert ([Hole(k)] + tail)[1..] == tail;
  }

  lemma PieceShown(piece: string, k: nat, tail: seq<Atom>, store: seq<string>)
    requires k < |store|
    ensures ShownAll(Glyphs(piece) + [Hole(k)] + tail, store) == piece + store[k] + ShownAll(tail, store)
  {
    assert Glyphs(piece) + [Hole(k)] + tail == Glyphs(piece) + ([Hole(k)] + tail);
    ShownAllAppend(Glyphs(piece), [Hole(k)] + tail, store);
    GlyphsShown(piece, store);
    HoleShown(k, tail, store);
  }

  /** The store holds the spans' texts from `k` on. */
  predicate Stored(text: string, spans: seq<L.Span>, k: nat, store: seq<string>)
    requires L.Ordered(spans, 0, |text|)
  {
    |store| == k + |spans| && forall i :: 0 <= i < |spans| ==> store[k + i] == text[spans[i].from..spans[i].to]
  }

  lemma SpansTail(text: string, spans: seq<L.Span>, last: nat, k: nat, store: seq<string>)
    requires spans != [] && L.Ordered(spans, last, |text|)
    ensures last <= spans[0].from < spans[0].to <= |text| && L.Ordered(spans[1..], spans[0].to, |text|)
    ensures L.Ordered(spans, 0, |text|) && L.Ordered(spans[1..], 0, |text|)
    ensures Stored(text, spans, k, store) ==>
              k < |store| && store[k] == text[spans[0].from..spans[0].to] && Stored(text, spans[1..], k + 1, store)
  {
    if Stored(text, spans, k, store) {
      assert store[k + 0] == text[spans[0].from..spans[0].to];
      forall i | 0 <= i < |spans[1..]| ensures store[k + 1 + i] == text[spans[1..][i].from..spans[1..][i].to] {
        assert store[k + (i + 1)] == text[spans[i + 1].from..spans[i + 1].to];
      }
    }
  }

  lemma {:induction false} AtomsShown(text: string, spans: seq<L.Span>, k: nat, last: nat, store: seq<string>)
    requires last <= |text| && L.Ordered(spans, last, |text|) && L.Ordered(spans, 0, |text|)
    requires Stored(text, spans, k, store)
    ensures ShownAll(AtomsFrom(text, spans, last, k), store) == text[last..]
    decreases |spans|
  {
    if spans == [] {
      GlyphsShown(text[last..], store);
    } else {
      SpansTail(text, spans, last, k, store);
      AtomsShown(text, spans[1..], k + 1, spans[0].to, store);
      PieceShown(text[last..spans[0].from], k, AtomsFrom(text, spans[1..], spans[0].to, k + 1), store);
      ThreePieces(text, last, spans[0].from, spans[0].to);
    }
  }

  lemma ThreePieces(text: string, a: nat, b: nat, c: nat)
    requires a <= b <= c <= |text|
    ensures text[a..b] + text[b..c] + text[c..] == text[a..]
  {}

  lemma {:induction false} SourceShows(atoms: seq<Atom>, store: seq<string>)
    ensures Shows(ShownAll(atoms, store), Ink(atoms), store)
  {
    if atoms != [] {
      var rest := atoms[1..];
      SourceShows(rest, store);
      if IsGap(atoms[0]) {
        ShowsSpace(atoms[0].c, ShownAll(rest, store), Ink(rest), store);
        assert Ink(atoms) == Ink(rest);
      } else {
        ShowsAtom(atoms[0], ShownAll(rest, store), Ink(rest), store);
      }
    }
  }

  // ---- formatting ----

  predicate IsRisky(src: string, spans: seq<L.Span>)
    requires L.Ordered(spans, 0, |src|)
  {
    exists i :: 0 <= i < |spans| &&
                (spans[i].kind == L.Comment || spans[i].kind == L.OpenString
                 || (spans[i].kind == L.OpenIri && '#' in src[spans[i].from..spans[i].to]))
  }

  /** What the formatter makes of a text with these spans. */
  function Formatted(src: string, spans: seq<L.Span>): string
    requires L.Ordered(spans, 0, |src|)
  {
    if IsRisky(src, spans) then src
    else Restore(Join(LinesOf(SplitFrom(Respaced(Encoded(AtomsFrom(src, spans, 0, 0))), "")), "\n"),
                 StoreOf(src, spans))
  }

  /** The words of the atoms, laid out and filled, show the atoms that are not white space, or do not. */
  lemma LaidOutShows(atoms: seq<Atom>, store: seq<string>)
    ensures !Clash(atoms)
         ==> Shows(Restore(Join(LinesOf(EncodedAll(AtomWords(atoms, []))), "\n"), store), Ink(atoms), store)
    ensures Clash(atoms) && Visible(store) ==>
              !Shows(Restore(Join(LinesOf(EncodedAll(AtomWords(atoms, []))), "\n"), store), Ink(atoms), store)
  {
    var words := AtomWords(atoms, []);
    AtomWordsSolid(atoms, []);
    SolidAreWordTexts(words);
    LayoutFits(EncodedAll(words));
    ClashWithinWords(atoms, []);
    assert [] + atoms == atoms;
    FilledShows(Join(LinesOf(EncodedAll(words)), "\n"), words, store);
    WordsAreInk(atoms, []);
    assert [] + Ink(atoms) == Ink(atoms);
  }

  lemma FilledShows(t: string, words: seq<seq<Atom>>, store: seq<string>)
    requires Fits(t, "", EncodedAll(words), true) && SolidWords(words)
    ensures Calm(words) ==> Shows(Restore(t, store), Flat(words), store)
    ensures !Calm(words) && Visible(store) ==> !Shows(Restore(t, store), Flat(words), store)
  {
    if Calm(words) { RestoredShows(t, [], words, true, store); }
    else if Visible(store) { RestoredBroken(t, [], words, true, store); }
    assert [] + Flat(words) == Flat(words);
  }

  lemma WordsOfHoles(atoms: seq<Atom>)
    ensures SplitFrom(Respaced(Encoded(atoms)), "") == EncodedAll(AtomWords(atoms, []))
  {
    RespacedWords(Encoded(atoms));
    EncodedWords(atoms, []);
  }

  lemma AtomsOfSource(src: string, spans: seq<L.Span>)
    requires L.Ordered(spans, 0, |src|)
    ensures ShownAll(AtomsFrom(src, spans, 0, 0), StoreOf(src, spans)) == src
  {
    AtomsShown(src, spans, 0, 0, StoreOf(src, spans));
    assert src[0..] == src;
  }

  /**
   Formatting moves only white space: the text and the formatted text show the same characters and
   the same spans, each span verbatim, in the same order. It does so for every text that has
   nothing the formatter takes for one of its holes.
   */
  lemma OnlySpaceMoves(src: string, spans: seq<L.Span>)
    requires L.Ordered(spans, 0, |src|)
    ensures Shows(src, Ink(AtomsFrom(src, spans, 0, 0)), StoreOf(src, spans))
    ensures IsRisky(src, spans) || !Clash(AtomsFrom(src, spans, 0, 0)) ==>
              Shows(Formatted(src, spans), Ink(AtomsFrom(src, spans, 0, 0)), StoreOf(src, spans))
  {
    AtomsOfSource(src, spans);
    SourceShows(AtomsFrom(src, spans, 0, 0), StoreOf(src, spans));
    if !IsRisky(src, spans) {
      WordsOfHoles(AtomsFrom(src, spans, 0, 0));
      LaidOutShows(AtomsFrom(src, spans, 0, 0), StoreOf(src, spans));
    }
  }

  predicate VisibleSpans(src: string, spans: seq<L.Span>)
    requires L.Ordered(spans, 0, |src|)
  {
    forall i :: 0 <= i < |spans| ==> !IsSpace(src[spans[i].from]) && src[spans[i].from] != '\0'
  }

  /** And for no other text: what is taken for a hole is not shown any more. */
  lemma FalseHoleIsLost(src: string, spans: seq<L.Span>)
    requires L.Ordered(spans, 0, |src|) && VisibleSpans(src, spans)
    requires !IsRisky(src, spans) && Clash(AtomsFrom(src, spans, 0, 0))
    ensures !Shows(Formatted(src, spans), Ink(AtomsFrom(src, spans, 0, 0)), StoreOf(src, spans))
  {
    var store := StoreOf(src, spans);
    assert Visible(store) by {
      assert forall k :: 0 <= k < |store| ==> store[k][0] == src[spans[k].from];
    }
    WordsOfHoles(AtomsFrom(src, spans, 0, 0));
    LaidOutShows(AtomsFrom(src, spans, 0, 0), store);
  }

  /** The lexer's spans all start with `#`, an angle bracket or a quote. */
  lemma LexedAreVisible(src: string, spans: seq<L.Span>)
    requires L.Lexed(src, spans, |src|)
    ensures VisibleSpans(src, spans)
  {
    forall i | 0 <= i < |spans| ensures !IsSpace(src[spans[i].from]) && src[spans[i].from] != '\0' {
      assert L.Shape(src, spans[i]);
    }
  }

  /** Without a span, a number between two U+0000 is taken for a hole, and there is nothing to fill it. */
  lemma NulIsTakenForAHole(src: string)
    requires src == "\0" + Dec(0) + "\0"
    ensures Formatted(src, []) == "undefined"
  {
    assert src[0..] == src;
    EncodedGlyphs(src);
    assert src == Code(Hole(0)) && src + "" == src;
    HoleIsSolid(0);
    LoneWord(src);
    OneWord(src);
    RestoreHole(0, "", []);
  }

  /** A text without white space and braces is one word. */
  lemma LoneWord(src: string)
    requires src != "" && forall k :: 0 <= k < |src| ==> !IsSpace(src[k]) && !IsBrace(src[k])
    ensures SplitFrom(Respaced(src), "") == [src]
  {
    RespacedWords(src);
    RunExtends(src, "", "");
    assert src + "" == src && "" + src == src;
  }

  lemma {:induction false} EncodedGlyphs(s: string)
    ensures Encoded(Glyphs(s)) == s
  {
    if s != "" {
      assert Glyphs(s)[1..] == Glyphs(s[1..]);
      EncodedGlyphs(s[1..]);
    }
  }

  lemma {:induction false} ParenFree(w: string)
    requires NoSpace(w) && '(' !in w
    ensures OpenParens(w) == w && CloseParens(w) == w
  {
    if w != "" { ParenFree(w[1..]); }
  }

  /** A query of one word that is no mark is laid out as itself. */
  lemma OneWord(w: string)
    requires IsWordText(w) && '(' !in w && w[0] == '\0'
    ensures Join(LinesOf([w]), "\n") == w
  {
    assert [w][1..] == [];
    assert PlacedAll(START, [w]) == START.(cur := [w]);
    ParenFree(w);
    assert Blanks(0) + w + "" == w;
  }

  lemma HoleEncoded(text: string, spans: seq<L.Span>, last: nat, k: nat)
    requires last <= |text| && L.Ordered(spans, last, |text|) && spans != []
    ensures Encoded(AtomsFrom(text, spans, last, k))
         == text[last..spans[0].from] + Code(Hole(k)) + Encoded(AtomsFrom(text, spans[1..], spans[0].to, k + 1))
  {
    var front, tail := Glyphs(text[last..spans[0].from]), AtomsFrom(text, spans[1..], spans[0].to, k + 1);
    EncodedAppend(front + [Hole(k)], tail);
    EncodedAppend(front, [Hole(k)]);
    EncodedOne(Hole(k));
    EncodedGlyphs(text[last..spans[0].from]);
  }

  predicate StoredSoFar(src: string, spans: seq<L.Span>, n: nat, store: seq<string>)
    requires L.Ordered(spans, 0, |src|)
  {
    |store| == n <= |spans| && forall i :: 0 <= i < n ==> store[i] == src[spans[i].from..spans[i].to]
  }

  lemma StoredOneMore(src: string, spans: seq<L.Span>, n: nat, store: seq<string>)
    requires L.Ordered(spans, 0, |src|) && n < |spans| && StoredSoFar(src, spans, n, store)
    ensures StoredSoFar(src, spans, n + 1, store + [src[spans[n].from..spans[n].to]])
  {}

  lemma AllStored(src: string, spans: seq<L.Span>, store: seq<string>)
    requires L.Ordered(spans, 0, |src|) && StoredSoFar(src, spans, |spans|, store)
    ensures store == StoreOf(src, spans)
  {}

  /** The text with every span replaced by a hole, and the spans. */
  method Substitute(src: string, spans: seq<L.Span>) returns (s: string, store: seq<string>)
    requires L.Ordered(spans, 0, |src|)
    ensures s == Encoded(AtomsFrom(src, spans, 0, 0)) && store == StoreOf(src, spans)
  {
    var last: nat := 0;
    s, store := "", [];
    ghost var all: string := Encoded(AtomsFrom(src, spans, 0, 0));
    assert spans[0..] == spans;
    for n := 0 to |spans|
      invariant StoredSoFar(src, spans, n, store)
      invariant Halfway(src, spans[n..], last, n, s, all)
    {
      var sp := spans[n];
      assert spans[n..][0] == sp && spans[n..][1..] == spans[n + 1..];
      Advance(src, spans[n..], last, n, s, all);
      StoredOneMore(src, spans, n, store);
      s := s + src[last..sp.from] + Code(Hole(|store|));
      store := store + [src[sp.from..sp.to]];
      last := sp.to;
    }
    AllSubstituted(src, last, |spans|, s, all);
    AllStored(src, spans, store);
    s := s + src[last..];
  }

  lemma AllSubstituted(src: string, last: nat, k: nat, s: string, all: string)
    requires Halfway(src, [], last, k, s, all)
    ensures s + src[last..] == all
  {
    EncodedGlyphs(src[last..]);
  }

  /** The text so far, and the spans still to come, make up the whole. */
  predicate Halfway(src: string, spans: seq<L.Span>, last: nat, k: nat, s: string, all: string) {
    last <= |src| && L.Ordered(spans, last, |src|) && s + Encoded(AtomsFrom(src, spans, last, k)) == all
  }

  lemma Advance(src: string, spans: seq<L.Span>, last: nat, k: nat, s: string, all: string)
    requires Halfway(src, spans, last, k, s, all) && spans != []
    ensures last <= spans[0].from
    ensures Halfway(src, spans[1..], spans[0].to, k + 1, s + src[last..spans[0].from] + Code(Hole(k)), all)
  {
    SpansTail(src, spans, last, k, []);
    HoleEncoded(src, spans, last, k);
    Associate(s, src[last..spans[0].from], Code(Hole(k)), Encoded(AtomsFrom(src, spans[1..], spans[0].to, k + 1)));
  }

  lemma Associate(a: string, b: string, c: string, d: string)
    ensures a + (b + c + d) == a + b + c + d
  {}

  /** The words in lines. */
  method LayOut(words: seq<string>) returns (text: string)
    ensures text == Join(LinesOf(words), "\n")
    ensures text == Join(EditorLines.Texts(EditorLines.LinesFrom(words, 0)), "\n")
  {
    var st := START;
    assert words[0..] == words;
    for n := 0 to |words|
      invariant PlacedAll(st, words[n..]) == PlacedAll(START, words)
    {
      assert words[n..][1..] == words[n + 1..];
      st := Placed(st, words[n]);
    }
    st := Flushed(st, "");
    EditorLines.LinesAreCut(words);
    text := Join(st.lines, "\n");
  }

  /** `formatSparql`. */
  method FormatSparql(src: string, notOperand: set<string>) returns (result: string)
    ensures L.Ordered(L.Spans(src, notOperand), 0, |src|)
    ensures result == Formatted(src, L.Spans(src, notOperand))
    ensures var spans := L.Spans(src, notOperand);
            Shows(result, Ink(AtomsFrom(src, spans, 0, 0)), StoreOf(src, spans))
            <==> IsRisky(src, spans) || !Clash(AtomsFrom(src, spans, 0, 0))
  {
    var spans := EditorScan.Lex(src, notOperand);
    OnlySpaceMoves(src, spans);
    if !IsRisky(src, spans) && Clash(AtomsFrom(src, spans, 0, 0)) {
      LexedAreVisible(src, spans);
      FalseHoleIsLost(src, spans);
    }
    if IsRisky(src, spans) { return src; }
    var s, store := Substitute(src, spans);
    result := LayOut(SplitFrom(Respaced(s), ""));
    result := Restore(result, store);
  }
}
