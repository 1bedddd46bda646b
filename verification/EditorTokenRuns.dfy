/** The lexer divides every text as its tokens must lie: its spans are those of the one tokenization. */
module EditorTokenRuns {
  import opened EditorLexer
  import opened EditorTokens

  // ---- literals ----

  lemma SlashesOnward(doc: string, start: nat, j: nat)
    requires start <= j < |doc| && doc[j] == '\\' && Slashes(doc, start, j) % 2 == 0
    ensures Slashes(doc, start, j + 1) % 2 == 1
    ensures j + 2 <= |doc| ==> Slashes(doc, start, j + 2) % 2 == 0
  {
    assert Slashes(doc, start, j + 1) == 1 + Slashes(doc, start, j);
  }

  lemma NoQuoteHere(doc: string, q: string, j: nat)
    requires IsQuote(q) && j < |doc| && doc[j] != '"' && doc[j] != '\''
    ensures !StartsWith(doc, q, j)
  {
    assert j + |q| <= |doc| ==> doc[j..j + |q|][0] == doc[j];
  }

  /** The literal does not stop before `j`, and no backslash escapes what stands there. */
  ghost predicate ReadsOn(doc: string, q: string, start: nat, j: nat) {
    && start <= |doc| && start <= j && (j <= |doc| ==> Slashes(doc, start, j) % 2 == 0)
    && forall k :: start <= k < j ==> !Stops(doc, q, start, k)
  }

  /** The literal ends at `to`, its first stop, behind its quoting if it is closed. */
  ghost predicate EndsAt(doc: string, q: string, start: nat, to: nat, closed: bool) {
    if closed then start + |q| <= to && FirstStop(doc, q, start, to - |q|) && StartsWith(doc, q, to - |q|)
    else FirstStop(doc, q, start, to) && !StartsWith(doc, q, to)
  }

  lemma OverEscape(doc: string, q: string, start: nat, j: nat)
    requires IsQuote(q) && ReadsOn(doc, q, start, j) && j < |doc| && doc[j] == '\\'
    ensures ReadsOn(doc, q, start, j + 2)
  {
    SlashesOnward(doc, start, j);
    NoQuoteHere(doc, q, j);
  }

  lemma OverChar(doc: string, q: string, start: nat, j: nat)
    requires IsQuote(q) && ReadsOn(doc, q, start, j) && j < |doc| && doc[j] != '\\'
    requires !(|q| == 1 && doc[j] == '\n') && !StartsWith(doc, q, j)
    ensures ReadsOn(doc, q, start, j + 1)
  {
    assert Slashes(doc, start, j + 1) == 0;
  }

  lemma AtStop(doc: string, q: string, start: nat, j: nat)
    requires IsQuote(q) && ReadsOn(doc, q, start, j)
    ensures j >= |doc| ==> EndsAt(doc, q, start, |doc|, false)
    ensures j < |doc| && |q| == 1 && doc[j] == '\n' ==> EndsAt(doc, q, start, j, false)
    ensures j < |doc| && StartsWith(doc, q, j) ==> EndsAt(doc, q, start, j + |q|, true)
  {
    if j < |doc| && doc[j] == '\n' { NoQuoteHere(doc, q, j); }
  }

  /** Reading on from a place that no backslash escapes, a literal ends at its first stop. */
  lemma {:induction false} LiteralStops(doc: string, q: string, start: nat, j: nat)
    requires IsQuote(q) && ReadsOn(doc, q, start, j)
    ensures EndsAt(doc, q, start, LiteralEnd(doc, q, j).0, LiteralEnd(doc, q, j).1)
    decreases |doc| - j
  {
    AtStop(doc, q, start, j);
    if j < |doc| {
      if doc[j] == '\\' {
        OverEscape(doc, q, start, j);
        LiteralStops(doc, q, start, j + 2);
      } else if !(|q| == 1 && doc[j] == '\n') && !StartsWith(doc, q, j) {
        OverChar(doc, q, start, j);
        LiteralStops(doc, q, start, j + 1);
      }
    }
  }

  lemma QuotingAt(doc: string, i: nat)
    requires i < |doc| && (doc[i] == '"' || doc[i] == '\'')
    ensures IsQuoting(doc, i, QuoteAt(doc, i))
  {
    var q, one, three := QuoteAt(doc, i), [doc[i]], [doc[i], doc[i], doc[i]];
    assert one + one + one == three;
    assert doc[i] == '"' ==> one == "\"" && three == "\"\"\"";
    assert doc[i] == '\'' ==> one == "'" && three == "'''";
  }

  lemma EndIsToken(doc: string, q: string, i: nat, to: nat, closed: bool)
    requires i < to <= |doc| && IsQuoting(doc, i, q) && EndsAt(doc, q, i + |q|, to, closed)
    ensures NoiseShape(doc, if closed then StringSpan else OpenString, i, to)
  {
    if closed { assert IsClosed(doc, i, q, to); } else { assert IsOpen(doc, i, q, to); }
  }

  lemma LiteralToken(doc: string, q: string, i: nat)
    requires IsQuote(q) && IsQuoting(doc, i, q)
    ensures i + |q| <= |doc| && i < LiteralEnd(doc, q, i + |q|).0 <= |doc|
    ensures NoiseShape(doc, if LiteralEnd(doc, q, i + |q|).1 then StringSpan else OpenString, i,
                       LiteralEnd(doc, q, i + |q|).0)
  {
    LiteralEnds(doc, q, i + |q|);
    LiteralStops(doc, q, i + |q|, i + |q|);
    EndIsToken(doc, q, i, LiteralEnd(doc, q, i + |q|).0, LiteralEnd(doc, q, i + |q|).1);
  }

  // ---- words and references ----

  lemma {:induction false} WordEnds(doc: string, i: nat, j: nat)
    requires i < j <= |doc| && forall k :: i < k < j ==> InWord(doc, k)
    ensures var end := WordEnd(doc, j);
            i < end <= |doc| && (forall k :: i < k < end ==> InWord(doc, k)) && (end < |doc| ==> !InWord(doc, end))
    decreases |doc| - j
  {
    if j < |doc| && ContinuesWord(doc, j) { WordEnds(doc, i, j + 1); }
  }

  lemma ReferenceShape(doc: string, i: nat)
    requires i < |doc| && doc[i] == '<'
    ensures match ReadAngle(doc, i)
            case LessThan => !HasIri(doc, i) && !HasTyped(doc, i)
            case Reference(kind, to) => kind in {IriSpan, OpenIri} && NoiseShape(doc, kind, i, to)
  {
    var end := RunEnd(doc, i + 1, c => IsIriChar(c));
    var open := RunEnd(doc, i + 1, c => IsOpenIriChar(c));
    if end < |doc| && doc[end] == '>' {
      assert IsIri(doc, i, end + 1);
    } else {
      forall to: nat ensures !IsIri(doc, i, to) {
        assert IsIri(doc, i, to) ==> to - 1 == end;
      }
      forall to: nat ensures IsTyped(doc, i, to) <==> to == open && exists k :: i < k < open && doc[k] == ':' {
        if IsTyped(doc, i, to) { assert to == open; }
      }
    }
  }

  // ---- what one more token changes ----

  lemma OperandSnoc(doc: string, ts: seq<Token>, t: Token, notOperand: set<string>)
    ensures AfterOperand(doc, ts + [t], notOperand) <==>
            if t.kind in {Space, Noise(Comment)} then AfterOperand(doc, ts, notOperand)
            else IsOperand(doc, t, notOperand)
  {
    var all := ts + [t];
    assert all[|ts|] == t && forall p :: 0 <= p < |ts| ==> all[p] == ts[p];
    if AfterOperand(doc, ts, notOperand) {
      var p :| 0 <= p < |ts| && IsOperand(doc, ts[p], notOperand)
               && forall k :: p < k < |ts| ==> ts[k].kind in {Space, Noise(Comment)};
      assert IsOperand(doc, all[p], notOperand);
    }
    if IsOperand(doc, t, notOperand) { assert IsOperand(doc, all[|ts|], notOperand); }
  }

  lemma AwaitedSnoc(doc: string, ts: seq<Token>, t: Token)
    ensures ValuesAwaited(doc, ts + [t]) <==>
            IsValuesWord(doc, t) || (ValuesAwaited(doc, ts) && !IsMark(doc, t, '{'))
  {
    var all := ts + [t];
    assert all[|ts|] == t && forall p :: 0 <= p < |ts| ==> all[p] == ts[p];
    if ValuesAwaited(doc, ts) {
      var p :| 0 <= p < |ts| && IsValuesWord(doc, ts[p]) && forall k :: p < k < |ts| ==> !IsMark(doc, ts[k], '{');
      assert IsValuesWord(doc, all[p]);
    }
    if IsValuesWord(doc, t) { assert IsValuesWord(doc, all[|ts|]); }
  }

  lemma KeywordSnoc(doc: string, ts: seq<Token>, t: Token, notOperand: set<string>)
    ensures AfterKeyword(doc, ts + [t], notOperand) <==>
            IsKeywordToken(doc, t, notOperand) || (AfterKeyword(doc, ts, notOperand) && IsPassed(t))
  {
    var all := ts + [t];
    assert all[|ts|] == t && forall p :: 0 <= p < |ts| ==> all[p] == ts[p];
    if AfterKeyword(doc, ts, notOperand) {
      var p :| 0 <= p < |ts| && IsKeywordToken(doc, ts[p], notOperand) && forall k :: p < k < |ts| ==> IsPassed(ts[k]);
      assert IsKeywordToken(doc, all[p], notOperand);
    }
    if IsKeywordToken(doc, t, notOperand) { assert IsKeywordToken(doc, all[|ts|], notOperand); }
  }

  lemma SpansSnoc(ts: seq<Token>, t: Token)
    ensures SpansOf(ts + [t]) == SpansOf(ts) + if t.kind.Noise? then [Span(t.kind.span, t.from, t.to)] else []
  {
    assert (ts + [t])[..|ts|] == ts;
  }

  // ---- the state against the tokens so far ----

  /** What the lexer remembers of the tokens before. */
  ghost predicate Remembers(doc: string, ts: seq<Token>, st: State, notOperand: set<string>) {
    && (st.operand <==> AfterOperand(doc, ts, notOperand))
    && (st.valuesPending <==> ValuesAwaited(doc, ts))
    && (st.last == Keyword <==> AfterKeyword(doc, ts, notOperand))
    && st.lastEnd <= st.i && (st.last == Name && st.lastEnd == st.i <==> RightAfterName(doc, ts, notOperand))
  }

  /** What a state must come to after the token for the lexer to remember it. */
  ghost predicate Notes(doc: string, t: Token, st: State, next: State, notOperand: set<string>) {
    && (next.operand <==>
          if t.kind in {Space, Noise(Comment)} then st.operand else IsOperand(doc, t, notOperand))
    && (next.valuesPending <==> IsValuesWord(doc, t) || (st.valuesPending && !IsMark(doc, t, '{')))
    && (next.last == Keyword <==> IsKeywordToken(doc, t, notOperand) || (st.last == Keyword && IsPassed(t)))
    && next.lastEnd <= next.i
    && (next.last == Name && next.lastEnd == next.i <==> IsFunctionName(doc, t, notOperand))
  }

  lemma NotesRemember(doc: string, ts: seq<Token>, t: Token, st: State, next: State, notOperand: set<string>)
    requires Remembers(doc, ts, st, notOperand) && Notes(doc, t, st, next, notOperand)
    ensures Remembers(doc, ts + [t], next, notOperand)
  {
    OperandSnoc(doc, ts, t, notOperand);
    AwaitedSnoc(doc, ts, t);
    KeywordSnoc(doc, ts, t, notOperand);
    assert (ts + [t])[|ts + [t]| - 1] == t;
  }

  // ---- the open brackets ----

  ghost predicate IsBracket(doc: string, before: seq<Token>, t: Token, b: Bracket, notOperand: set<string>) {
    match b
    case Expression => OpensExpression(doc, before, t, notOperand)
    case Row => IsMark(doc, t, '(') && !OpensExpression(doc, before, t, notOperand)
    case Braces => IsMark(doc, t, '{') && !ValuesAwaited(doc, before)
    case ValuesBlock => IsMark(doc, t, '{') && ValuesAwaited(doc, before)
  }

  /** Brackets still open, outermost first. */
  ghost predicate Held(doc: string, ts: seq<Token>, opens: seq<nat>) {
    forall j :: 0 <= j < |opens| ==>
      Encloses(doc, ts, opens[j]) && Depth(doc, ts, opens[j], |ts|) == |opens| - 1 - j
  }

  /** All the brackets still open, outermost first. */
  ghost predicate OpenAre(doc: string, ts: seq<Token>, opens: seq<nat>) {
    Held(doc, ts, opens) && forall q: nat :: Encloses(doc, ts, q) ==> q in opens
  }

  /** The stack holds the kinds of these brackets. */
  ghost predicate KindsAre(doc: string, ts: seq<Token>, opens: seq<nat>, stack: seq<Bracket>,
                           notOperand: set<string>) {
    && |opens| == |stack|
    && forall j :: 0 <= j < |opens| ==>
         opens[j] < |ts| && IsBracket(doc, ts[..opens[j]], ts[opens[j]], stack[j], notOperand)
  }

  ghost predicate Stacked(doc: string, ts: seq<Token>, stack: seq<Bracket>, opens: seq<nat>, notOperand: set<string>) {
    OpenAre(doc, ts, opens) && KindsAre(doc, ts, opens, stack, notOperand)
  }

  lemma {:induction false} DepthSame(doc: string, ts: seq<Token>, t: Token, q: nat, k: nat)
    requires q < k <= |ts|
    ensures Depth(doc, ts + [t], q, k) == Depth(doc, ts, q, k)
    decreases k
  {
    if k > q + 1 {
      DepthSame(doc, ts, t, q, k - 1);
      assert (ts + [t])[k - 1] == ts[k - 1];
    }
  }

  lemma EnclosesSnoc(doc: string, ts: seq<Token>, t: Token, q: nat)
    requires q < |ts|
    ensures Depth(doc, ts + [t], q, |ts| + 1) == Depth(doc, ts, q, |ts|) + Level(doc, t)
    ensures Encloses(doc, ts + [t], q) <==>
            Encloses(doc, ts, q) && Depth(doc, ts, q, |ts|) + Level(doc, t) >= 0
  {
    var all := ts + [t];
    assert all[q] == ts[q] && all[|ts|] == t;
    forall k | q < k <= |ts| ensures Depth(doc, all, q, k) == Depth(doc, ts, q, k) { DepthSame(doc, ts, t, q, k); }
    if Encloses(doc, all, q) {
      assert Depth(doc, all, q, |ts| + 1) >= 0;
      forall k | q < k <= |ts| ensures Depth(doc, ts, q, k) >= 0 { assert Depth(doc, all, q, k) >= 0; }
    }
  }

  lemma LastEncloses(doc: string, ts: seq<Token>, t: Token)
    ensures Encloses(doc, ts + [t], |ts|) <==> Level(doc, t) == 1
    ensures Depth(doc, ts + [t], |ts|, |ts| + 1) == 0
  {
    assert (ts + [t])[|ts|] == t;
  }

  /** A bracket that is open now was open before, or opens here. */
  lemma WasOpen(doc: string, ts: seq<Token>, t: Token, opens: seq<nat>, q: nat) returns (j: nat)
    requires Encloses(doc, ts + [t], q) && OpenAre(doc, ts, opens)
    ensures if q == |ts| then j == |opens| && Level(doc, t) == 1
            else j < |opens| && opens[j] == q && |opens| - 1 - j + Level(doc, t) >= 0
  {
    if q == |ts| {
      LastEncloses(doc, ts, t);
      j := |opens|;
    } else {
      EnclosesSnoc(doc, ts, t, q);
      j :| 0 <= j < |opens| && opens[j] == q;
    }
  }

  /** The brackets that are not closed here stay open. */
  lemma HeldOnward(doc: string, ts: seq<Token>, t: Token, opens: seq<nat>, n: nat)
    requires Held(doc, ts, opens) && n <= |opens| && n == |opens| + Level(doc, t)
    ensures Held(doc, ts + [t], opens[..n])
  {
    forall j | 0 <= j < n
      ensures Encloses(doc, ts + [t], opens[j]) && Depth(doc, ts + [t], opens[j], |ts| + 1) == n - 1 - j
    {
      EnclosesSnoc(doc, ts, t, opens[j]);
    }
  }

  lemma OpenSame(doc: string, ts: seq<Token>, t: Token, opens: seq<nat>)
    requires OpenAre(doc, ts, opens) && Level(doc, t) == 0
    ensures OpenAre(doc, ts + [t], opens)
  {
    HeldOnward(doc, ts, t, opens, |opens|);
    assert opens[..|opens|] == opens;
    forall q: nat | Encloses(doc, ts + [t], q) ensures q in opens { var j := WasOpen(doc, ts, t, opens, q); }
  }

  lemma OpenPush(doc: string, ts: seq<Token>, t: Token, opens: seq<nat>)
    requires OpenAre(doc, ts, opens) && Level(doc, t) == 1
    ensures OpenAre(doc, ts + [t], opens + [|ts|])
  {
    var all, more := ts + [t], opens + [|ts|];
    LastEncloses(doc, ts, t);
    forall j | 0 <= j < |more|
      ensures Encloses(doc, all, more[j]) && Depth(doc, all, more[j], |all|) == |more| - 1 - j
    {
      if j < |opens| { EnclosesSnoc(doc, ts, t, opens[j]); }
    }
    forall q: nat | Encloses(doc, all, q) ensures q in more {
      var j := WasOpen(doc, ts, t, opens, q);
      assert more[j] == q;
    }
  }

  lemma OpenPop(doc: string, ts: seq<Token>, t: Token, opens: seq<nat>)
    requires OpenAre(doc, ts, opens) && Level(doc, t) == -1
    ensures OpenAre(doc, ts + [t], if opens == [] then [] else opens[..|opens| - 1])
  {
    var left := if opens == [] then [] else opens[..|opens| - 1];
    if opens != [] { HeldOnward(doc, ts, t, opens, |opens| - 1); }
    forall q: nat | Encloses(doc, ts + [t], q) ensures q in left {
      var j := WasOpen(doc, ts, t, opens, q);
      assert left[j] == q;
    }
  }

  /** Brackets keep their kinds as tokens are read. */
  lemma KindsSame(doc: string, ts: seq<Token>, t: Token, opens: seq<nat>, stack: seq<Bracket>, n: nat,
                  notOperand: set<string>)
    requires KindsAre(doc, ts, opens, stack, notOperand) && n <= |opens|
    ensures KindsAre(doc, ts + [t], opens[..n], stack[..n], notOperand)
  {
    forall j | 0 <= j < n
      ensures IsBracket(doc, (ts + [t])[..opens[j]], (ts + [t])[opens[j]], stack[j], notOperand)
    {
      assert (ts + [t])[..opens[j]] == ts[..opens[j]];
    }
  }

  lemma KindsPush(doc: string, ts: seq<Token>, opens: seq<nat>, stack: seq<Bracket>, q: nat, b: Bracket,
                  notOperand: set<string>)
    requires KindsAre(doc, ts, opens, stack, notOperand) && q < |ts| && IsBracket(doc, ts[..q], ts[q], b, notOperand)
    ensures KindsAre(doc, ts, opens + [q], stack + [b], notOperand)
  {}

  lemma StackedSame(doc: string, ts: seq<Token>, t: Token, stack: seq<Bracket>, opens: seq<nat>,
                    notOperand: set<string>)
    requires Stacked(doc, ts, stack, opens, notOperand) && Level(doc, t) == 0
    ensures Stacked(doc, ts + [t], stack, opens, notOperand)
  {
    OpenSame(doc, ts, t, opens);
    KindsSame(doc, ts, t, opens, stack, |opens|, notOperand);
    assert opens[..|opens|] == opens && stack[..|opens|] == stack;
  }

  lemma StackedPush(doc: string, ts: seq<Token>, t: Token, stack: seq<Bracket>, opens: seq<nat>, b: Bracket,
                    notOperand: set<string>)
    requires Stacked(doc, ts, stack, opens, notOperand) && Level(doc, t) == 1
    requires IsBracket(doc, ts, t, b, notOperand)
    ensures Stacked(doc, ts + [t], stack + [b], opens + [|ts|], notOperand)
  {
    OpenPush(doc, ts, t, opens);
    KindsSame(doc, ts, t, opens, stack, |opens|, notOperand);
    assert opens[..|opens|] == opens && stack[..|opens|] == stack;
    assert (ts + [t])[..|ts|] == ts && (ts + [t])[|ts|] == t;
    KindsPush(doc, ts + [t], opens, stack, |ts|, b, notOperand);
  }

  lemma StackedPop(doc: string, ts: seq<Token>, t: Token, stack: seq<Bracket>, opens: seq<nat>,
                   notOperand: set<string>)
    requires Stacked(doc, ts, stack, opens, notOperand) && Level(doc, t) == -1
    ensures Stacked(doc, ts + [t], if stack == [] then [] else stack[..|stack| - 1],
                    if opens == [] then [] else opens[..|opens| - 1], notOperand)
  {
    OpenPop(doc, ts, t, opens);
    if opens != [] { KindsSame(doc, ts, t, opens, stack, |opens| - 1, notOperand); }
  }

  /** The innermost open bracket is the top of the stack. */
  lemma TopIsInnermost(doc: string, ts: seq<Token>, opens: seq<nat>)
    requires OpenAre(doc, ts, opens)
    ensures forall q: nat :: IsInnermost(doc, ts, q) <==> opens != [] && q == opens[|opens| - 1]
  {
    forall q: nat ensures IsInnermost(doc, ts, q) <==> opens != [] && q == opens[|opens| - 1] {
      if IsInnermost(doc, ts, q) { var j :| 0 <= j < |opens| && opens[j] == q; }
    }
  }

  lemma InExpressionExactly(doc: string, ts: seq<Token>, stack: seq<Bracket>, opens: seq<nat>,
                            notOperand: set<string>)
    requires Stacked(doc, ts, stack, opens, notOperand)
    ensures InExpression(stack) <==> InExpressionAt(doc, ts, notOperand)
  {
    TopIsInnermost(doc, ts, opens);
    KindsExpression(doc, ts, opens, stack, notOperand);
  }

  lemma KindsExpression(doc: string, ts: seq<Token>, opens: seq<nat>, stack: seq<Bracket>, notOperand: set<string>)
    requires KindsAre(doc, ts, opens, stack, notOperand)
    requires forall q: nat :: IsInnermost(doc, ts, q) <==> opens != [] && q == opens[|opens| - 1]
    ensures InExpression(stack) <==> InExpressionAt(doc, ts, notOperand)
  {
    if opens != [] {
      TopExpression(doc, ts, opens[|opens| - 1], stack[|stack| - 1], notOperand);
    }
  }

  lemma TopExpression(doc: string, ts: seq<Token>, top: nat, b: Bracket, notOperand: set<string>)
    requires top < |ts| && IsBracket(doc, ts[..top], ts[top], b, notOperand)
    requires forall q: nat :: IsInnermost(doc, ts, q) <==> q == top
    ensures b == Expression <==> InExpressionAt(doc, ts, notOperand)
  {
    assert IsInnermost(doc, ts, top);
  }

  /** In a bracket of this kind, the kind a `(` is given is the kind it has. */
  lemma OpenedInside(doc: string, ts: seq<Token>, t: Token, st: State, top: nat, b: Bracket, notOperand: set<string>)
    requires Remembers(doc, ts, st, notOperand) && IsMark(doc, t, '(') && top < |ts|
    requires forall q: nat :: IsInnermost(doc, ts, q) <==> q == top
    requires st.stack != [] && st.stack[|st.stack| - 1] == b && IsBracket(doc, ts[..top], ts[top], b, notOperand)
    ensures IsBracket(doc, ts, t, Opened(st.valuesPending, st.stack, st.last, st.lastEnd == st.i), notOperand)
  {
    assert IsInnermost(doc, ts, top);
    var inside := OpensExpression(doc, ts[..top], ts[top], notOperand);
    var braces := IsMark(doc, ts[top], '{') && !ValuesAwaited(doc, ts[..top]);
    var called := AfterKeyword(doc, ts, notOperand) || RightAfterName(doc, ts, notOperand);
    assert OpensExpression(doc, ts, t, notOperand) <==> !st.valuesPending && (inside || (braces && called));
    assert inside <==> b == Expression;
    assert braces <==> b == Braces;
    assert called <==> st.last == Keyword || (st.last == Name && st.lastEnd == st.i);
  }

  lemma OpenedExactly(doc: string, ts: seq<Token>, t: Token, st: State, opens: seq<nat>, notOperand: set<string>)
    requires Stacked(doc, ts, st.stack, opens, notOperand) && Remembers(doc, ts, st, notOperand)
    requires IsMark(doc, t, '(')
    ensures IsBracket(doc, ts, t, Opened(st.valuesPending, st.stack, st.last, st.lastEnd == st.i), notOperand)
  {
    TopIsInnermost(doc, ts, opens);
    if opens != [] {
      OpenedInside(doc, ts, t, st, opens[|opens| - 1], st.stack[|st.stack| - 1], notOperand);
    } else {
      assert OpensExpression(doc, ts, t, notOperand) <==> !st.valuesPending;
    }
  }

  // ---- one round ----

  /** The lexer has read the tokens `ts` and knows of them what it must. */
  ghost predicate Follows(doc: string, ts: seq<Token>, st: State, opens: seq<nat>, notOperand: set<string>) {
    && st.i <= |doc| && Divides(doc, ts, notOperand) && EndOf(ts) == st.i && SpansOf(ts) == st.spans
    && Remembers(doc, ts, st, notOperand) && Stacked(doc, ts, st.stack, opens, notOperand)
  }

  /** The round from `st` to `next` reads the token `t`. */
  ghost predicate Reads(doc: string, ts: seq<Token>, t: Token, st: State, next: State, notOperand: set<string>) {
    && t.from == st.i && t.to == next.i && Fits(doc, ts, t, notOperand) && Notes(doc, t, st, next, notOperand)
    && next.spans == st.spans + (if t.kind.Noise? then [Span(t.kind.span, t.from, t.to)] else [])
  }

  lemma ReadFollows(doc: string, ts: seq<Token>, t: Token, st: State, next: State, opens: seq<nat>, more: seq<nat>,
                    notOperand: set<string>)
    requires Follows(doc, ts, st, opens, notOperand) && Reads(doc, ts, t, st, next, notOperand)
    requires Stacked(doc, ts + [t], next.stack, more, notOperand)
    ensures Follows(doc, ts + [t], next, more, notOperand)
  {
    DividesSnoc(doc, ts, t, notOperand);
    SpansSnoc(ts, t);
    NotesRemember(doc, ts, t, st, next, notOperand);
  }

  lemma PlainReads(doc: string, ts: seq<Token>, st: State, kind: Kind, notOperand: set<string>)
    requires st.i < |doc| && st.lastEnd <= st.i
    requires kind == if doc[st.i] == '\\' then Escape else if IsBlankChar(doc[st.i]) then Space else Noise(Comment)
    requires kind == Noise(Comment) ==> doc[st.i] == '#'
    ensures var next := After(doc, st, notOperand);
            Reads(doc, ts, Token(kind, st.i, next.i), st, next, notOperand) && next.stack == st.stack
  {}

  lemma WordReads(doc: string, ts: seq<Token>, st: State, notOperand: set<string>)
    requires st.i < |doc| && StartsWord(doc[st.i])
    ensures var next := AfterWord(doc, st, notOperand);
            Reads(doc, ts, Token(Word, st.i, next.i), st, next, notOperand) && next.stack == st.stack
  {
    WordEnds(doc, st.i, st.i + 1);
  }

  lemma LiteralReads(doc: string, ts: seq<Token>, st: State, notOperand: set<string>) returns (t: Token)
    requires st.i < |doc| && (doc[st.i] == '"' || doc[st.i] == '\'') && st.lastEnd <= st.i
    ensures var next := AfterLiteral(doc, st);
            Reads(doc, ts, t, st, next, notOperand) && next.stack == st.stack && t.kind != Mark
  {
    var q := QuoteAt(doc, st.i);
    QuotingAt(doc, st.i);
    LiteralToken(doc, q, st.i);
    var end := LiteralEnd(doc, q, st.i + |q|);
    var kind := if end.1 then StringSpan else OpenString;
    t := Token(Noise(kind), st.i, end.0);
    NoiseReads(doc, ts, st, kind, end.0, notOperand);
  }

  lemma NoiseReads(doc: string, ts: seq<Token>, st: State, kind: SpanKind, to: nat, notOperand: set<string>)
    requires st.i < to <= |doc| && st.lastEnd <= st.i && kind in {StringSpan, OpenString}
    requires NoiseShape(doc, kind, st.i, to)
    ensures Reads(doc, ts, Token(Noise(kind), st.i, to), st,
                  st.(spans := st.spans + [Span(kind, st.i, to)], i := to, operand := true, last := Other), notOperand)
  {}

  lemma LessReads(doc: string, ts: seq<Token>, st: State, notOperand: set<string>)
    requires st.i < |doc| && doc[st.i] == '<' && st.lastEnd <= st.i
    requires Compares(doc, ts, notOperand) || !(HasIri(doc, st.i) || HasTyped(doc, st.i))
    ensures Reads(doc, ts, Token(Less, st.i, st.i + 1), st, st.(i := st.i + 1, operand := false), notOperand)
  {}

  lemma ReferenceReads(doc: string, ts: seq<Token>, st: State, kind: SpanKind, to: nat, notOperand: set<string>)
    requires st.i < to <= |doc| && doc[st.i] == '<' && st.lastEnd <= st.i
    requires kind in {IriSpan, OpenIri} && NoiseShape(doc, kind, st.i, to) && !Compares(doc, ts, notOperand)
    ensures var next := st.(spans := st.spans + [Span(kind, st.i, to)], i := to, operand := true);
            Reads(doc, ts, Token(Noise(kind), st.i, to), st,
                  if kind == IriSpan then next.(last := Name, lastEnd := to) else next, notOperand)
  {}

  lemma AngleReads(doc: string, ts: seq<Token>, st: State, notOperand: set<string>) returns (t: Token)
    requires st.i < |doc| && doc[st.i] == '<' && st.lastEnd <= st.i
    requires InExpression(st.stack) && st.operand <==> Compares(doc, ts, notOperand)
    ensures Reads(doc, ts, t, st, AfterAngle(doc, st), notOperand) && t.kind != Mark
    ensures AfterAngle(doc, st).stack == st.stack
  {
    ReferenceShape(doc, st.i);
    match (if InExpression(st.stack) && st.operand then LessThan else ReadAngle(doc, st.i)) {
      case LessThan =>
        t := Token(Less, st.i, st.i + 1);
        LessReads(doc, ts, st, notOperand);
      case Reference(kind, to) =>
        t := Token(Noise(kind), st.i, to);
        ReferenceReads(doc, ts, st, kind, to, notOperand);
    }
  }

  lemma MarkReads(doc: string, ts: seq<Token>, st: State, notOperand: set<string>)
    requires st.i < |doc| && IsMarkChar(doc[st.i]) && st.lastEnd <= st.i
    ensures var t := Token(Mark, st.i, st.i + 1);
            && Reads(doc, ts, t, st, AfterMark(doc, st), notOperand)
            && forall c: char :: IsMark(doc, t, c) <==> doc[st.i] == c
  {
    assert doc[st.i..st.i + 1] == [doc[st.i]];
  }

  lemma MarkStacks(doc: string, ts: seq<Token>, t: Token, st: State, opens: seq<nat>, notOperand: set<string>)
    returns (more: seq<nat>)
    requires st.i < |doc| && Stacked(doc, ts, st.stack, opens, notOperand) && Remembers(doc, ts, st, notOperand)
    requires forall c: char :: IsMark(doc, t, c) <==> doc[st.i] == c
    ensures Stacked(doc, ts + [t], AfterMark(doc, st).stack, more, notOperand)
  {
    var ch := doc[st.i];
    assert IsMark(doc, t, ch);
    if ch == '(' {
      OpenedExactly(doc, ts, t, st, opens, notOperand);
      StackedPush(doc, ts, t, st.stack, opens, Opened(st.valuesPending, st.stack, st.last, st.lastEnd == st.i),
                  notOperand);
      more := opens + [|ts|];
    } else if ch == '{' {
      StackedPush(doc, ts, t, st.stack, opens, if st.valuesPending then ValuesBlock else Braces, notOperand);
      more := opens + [|ts|];
    } else if ch == ')' || ch == '}' {
      StackedPop(doc, ts, t, st.stack, opens, notOperand);
      more := if opens == [] then [] else opens[..|opens| - 1];
    } else {
      StackedSame(doc, ts, t, st.stack, opens, notOperand);
      more := opens;
    }
  }

  /** Every round reads one token. */
  lemma RoundFollows(doc: string, ts: seq<Token>, st: State, opens: seq<nat>, notOperand: set<string>)
    returns (t: Token, more: seq<nat>)
    requires st.i < |doc| && Follows(doc, ts, st, opens, notOperand)
    ensures Follows(doc, ts + [t], After(doc, st, notOperand), more, notOperand)
  {
    var ch, next := doc[st.i], After(doc, st, notOperand);
    more := opens;
    if ch == '\\' {
      t := Token(Escape, st.i, next.i);
      PlainReads(doc, ts, st, Escape, notOperand);
    } else if IsBlankChar(ch) {
      t := Token(Space, st.i, next.i);
      PlainReads(doc, ts, st, Space, notOperand);
    } else if ch == '#' {
      t := Token(Noise(Comment), st.i, next.i);
      PlainReads(doc, ts, st, Noise(Comment), notOperand);
    } else if ch == '<' {
      InExpressionExactly(doc, ts, st.stack, opens, notOperand);
      t := AngleReads(doc, ts, st, notOperand);
    } else if ch == '"' || ch == '\'' {
      t := LiteralReads(doc, ts, st, notOperand);
    } else if StartsWord(ch) {
      t := Token(Word, st.i, next.i);
      WordReads(doc, ts, st, notOperand);
    } else {
      t := Token(Mark, st.i, next.i);
      MarkReads(doc, ts, st, notOperand);
      more := MarkStacks(doc, ts, t, st, opens, notOperand);
    }
    if t.kind != Mark { StackedSame(doc, ts, t, st.stack, opens, notOperand); }
    ReadFollows(doc, ts, t, st, next, opens, more, notOperand);
  }

  lemma {:induction false} RunTokenizes(doc: string, ts: seq<Token>, st: State, opens: seq<nat>,
                                        notOperand: set<string>)
    returns (all: seq<Token>)
    requires Follows(doc, ts, st, opens, notOperand)
    ensures Tokenizes(doc, all, notOperand) && SpansOf(all) == SpansFrom(doc, st, notOperand)
    decreases |doc| - st.i
  {
    if st.i == |doc| {
      all := ts;
    } else {
      Advances(doc, st, notOperand);
      var t, more := RoundFollows(doc, ts, st, opens, notOperand);
      all := RunTokenizes(doc, ts + [t], After(doc, st, notOperand), more, notOperand);
    }
  }

  /** The lexer's spans are the comments, references and literals of the text's one tokenization. */
  lemma SpansAreTokens(doc: string, notOperand: set<string>)
    ensures exists ts :: Tokenizes(doc, ts, notOperand) && SpansOf(ts) == Spans(doc, notOperand)
    ensures forall ts :: Tokenizes(doc, ts, notOperand) ==> SpansOf(ts) == Spans(doc, notOperand)
  {
    var ts := RunTokenizes(doc, [], START, [], notOperand);
    forall us | Tokenizes(doc, us, notOperand) ensures SpansOf(us) == Spans(doc, notOperand) {
      OneTokenization(doc, ts, us, notOperand);
    }
  }

  // ---- what `<` is ----

  /** The token that covers a place of the text. */
  lemma {:induction false} TokenOver(doc: string, ts: seq<Token>, n: nat, k: nat, notOperand: set<string>)
    returns (p: nat)
    requires Divides(doc, ts, notOperand) && n <= |ts| && k < EndOf(ts[..n])
    ensures p < n && ts[p].from <= k < ts[p].to <= |doc|
    decreases n
  {
    assert Fits(doc, ts[..n - 1], ts[n - 1], notOperand) && ts[n - 1].from == EndOf(ts[..n - 1]);
    if ts[n - 1].from <= k { p := n - 1; } else { p := TokenOver(doc, ts, n - 1, k, notOperand); }
  }

  lemma InsideToken(doc: string, t: Token, k: nat)
    requires t.from < k < t.to <= |doc| && doc[k] == '<' && TokenShape(doc, t)
    ensures t.kind == Escape || t.kind in {Noise(Comment), Noise(StringSpan), Noise(OpenString)}
  {
    assert !IsIriChar(doc[k]) && !IsOpenIriChar(doc[k]) && !InWord(doc, k);
  }

  /** A `<` starts a token of its own, is escaped, or lies in a comment or a literal. */
  lemma AngleToken(doc: string, ts: seq<Token>, k: nat, notOperand: set<string>) returns (p: nat)
    requires Tokenizes(doc, ts, notOperand) && k < |doc| && doc[k] == '<'
    ensures p < |ts| && ts[p].from <= k < ts[p].to
    ensures (ts[p].from == k && ts[p].kind in {Less, Noise(IriSpan), Noise(OpenIri)})
            || (ts[p].from == k - 1 && ts[p].kind == Escape)
            || ts[p].kind in {Noise(Comment), Noise(StringSpan), Noise(OpenString)}
  {
    assert ts[..|ts|] == ts;
    p := TokenOver(doc, ts, |ts|, k, notOperand);
    FitsThere(doc, ts, p, notOperand);
    if ts[p].from == k { TokenStarts(doc, ts[p]); } else { InsideToken(doc, ts[p], k); }
  }

  lemma FitsThere(doc: string, ts: seq<Token>, p: nat, notOperand: set<string>)
    requires Divides(doc, ts, notOperand) && p < |ts|
    ensures ts[p].from < ts[p].to <= |doc| && TokenShape(doc, ts[p])
    ensures ts[p].kind == Escape ==> ts[p].to <= ts[p].from + 2
  {
    assert Fits(doc, ts[..p], ts[p], notOperand);
  }

  /**
   A `<` that starts a token is a less-than exactly if it compares or no reference can be read there,
   and a reference, complete if it can be, otherwise.
   */
  lemma LessThanExactly(doc: string, ts: seq<Token>, p: nat, notOperand: set<string>)
    requires Tokenizes(doc, ts, notOperand) && p < |ts| && ts[p].from < |doc| && doc[ts[p].from] == '<'
    ensures var iri, typed := HasIri(doc, ts[p].from), HasTyped(doc, ts[p].from);
            var compares := Compares(doc, ts[..p], notOperand);
            && (ts[p].kind == Less <==> compares || !(iri || typed))
            && (ts[p].kind == Noise(IriSpan) <==> !compares && iri)
            && (ts[p].kind == Noise(OpenIri) <==> !compares && !iri && typed)
  {
    assert Fits(doc, ts[..p], ts[p], notOperand);
    TokenStarts(doc, ts[p]);
  }

  lemma {:induction false} SpanOfToken(ts: seq<Token>, s: Span)
    ensures s in SpansOf(ts) <==>
            exists p :: 0 <= p < |ts| && ts[p] == Token(Noise(s.kind), s.from, s.to)
  {
    if ts != [] {
      var rest, t := ts[..|ts| - 1], ts[|ts| - 1];
      SpanOfToken(rest, s);
      if s in SpansOf(rest) {
        var p :| 0 <= p < |rest| && rest[p] == Token(Noise(s.kind), s.from, s.to);
        assert ts[p] == Token(Noise(s.kind), s.from, s.to);
      }
      if exists p :: 0 <= p < |ts| && ts[p] == Token(Noise(s.kind), s.from, s.to) {
        var p :| 0 <= p < |ts| && ts[p] == Token(Noise(s.kind), s.from, s.to);
        if p < |rest| { assert rest[p] == Token(Noise(s.kind), s.from, s.to); }
      }
    }
  }

  /**
   The lexer's spans at a `<` that starts a token: none if it is right after an operand in the
   parentheses of an expression, else the reference that can be read there, if one can.
   */
  lemma ReferenceSpansExactly(doc: string, ts: seq<Token>, p: nat, s: Span, notOperand: set<string>)
    requires Tokenizes(doc, ts, notOperand) && p < |ts| && ts[p].from < |doc| && doc[ts[p].from] == '<'
    requires s.from == ts[p].from && s.kind in {IriSpan, OpenIri}
    ensures s in Spans(doc, notOperand) <==>
            && !Compares(doc, ts[..p], notOperand)
            && if HasIri(doc, s.from) then s.kind == IriSpan && IsIri(doc, s.from, s.to)
               else s.kind == OpenIri && IsTyped(doc, s.from, s.to)
  {
    SpansAreTokens(doc, notOperand);
    SpanOfToken(ts, s);
    LessThanExactly(doc, ts, p, notOperand);
    assert Fits(doc, ts[..p], ts[p], notOperand);
    if s in SpansOf(ts) {
      var n :| 0 <= n < |ts| && ts[n] == Token(Noise(s.kind), s.from, s.to);
      OneStart(doc, ts, n, p, notOperand);
    }
    if !Compares(doc, ts[..p], notOperand) {
      if IsIri(doc, s.from, s.to) {
        OneIri(doc, s.from, s.to, ts[p].to);
      }
    }
  }

  /** Two tokens do not start at one place. */
  lemma {:induction false} OneStart(doc: string, ts: seq<Token>, n: nat, p: nat, notOperand: set<string>)
    requires Divides(doc, ts, notOperand) && n < |ts| && p < |ts| && ts[n].from == ts[p].from
    ensures n == p
  {
    if n < p { Later(doc, ts, n, p, notOperand); }
    if p < n { Later(doc, ts, p, n, notOperand); }
  }

  lemma {:induction false} Later(doc: string, ts: seq<Token>, n: nat, p: nat, notOperand: set<string>)
    requires Divides(doc, ts, notOperand) && n < p < |ts|
    ensures ts[n].from < ts[p].from
  {
    assert Fits(doc, ts[..p - 1], ts[p - 1], notOperand);
    assert ts[p].from == EndOf(ts[..p]) == ts[p - 1].to;
    if n < p - 1 { Later(doc, ts, n, p - 1, notOperand); }
  }
}
