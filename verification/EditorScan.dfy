/** The lexer's loop, and the text with its spans blanked. */
module EditorScan {
  import opened EditorLexer
  import opened EditorTokens
  import EditorTokenRuns

  /** A bare word: whether it is VALUES or a keyword decides what may follow. */
  method ReadWordToken(doc: string, st: State, notOperand: set<string>) returns (next: State)
    requires st.i < |doc|
    ensures next == AfterWord(doc, st, notOperand)
  {
    var valuesPending := st.valuesPending;
    var j := ScanWord(doc, st.i);
    var word := doc[st.i..j];
    if IsValues(word) { valuesPending := true; }
    var keyword := IsKeyword(word, notOperand);
    var last := if keyword then Keyword else if IsNameStart(doc[st.i]) || doc[st.i] == ':' then Name else Other;
    next := State(st.spans, st.stack, valuesPending, !keyword, last, j, j);
  }

  /** One round of the lexer's loop. */
  method ReadToken(doc: string, st: State, notOperand: set<string>) returns (next: State)
    requires st.i < |doc|
    ensures next == After(doc, st, notOperand)
  {
    var spans, stack, valuesPending, operand, last, lastEnd, i :=
      st.spans, st.stack, st.valuesPending, st.operand, st.last, st.lastEnd, st.i;
    var ch := doc[i];
    if ch == '\\' {
      i := if i + 2 <= |doc| then i + 2 else |doc|;
      operand := true;
    } else if IsBlankChar(ch) {
      i := i + 1;
    } else if ch == '#' {
      var to := CommentEnd(doc, i);
      spans := spans + [Span(Comment, i, to)];
      i := to;
    } else if ch == '<' {
      var angle := if InExpression(stack) && operand then LessThan else ReadAngle(doc, i);
      match angle {
        case LessThan =>
          i := i + 1;
          operand := false;
        case Reference(kind, to) =>
          spans := spans + [Span(kind, i, to)];
          i := to;
          operand := true;
          if kind == IriSpan { last, lastEnd := Name, i; }
      }
    } else if ch == '"' || ch == '\'' {
      var to, closed := ScanString(doc, i);
      spans := spans + [Span(if closed then StringSpan else OpenString, i, to)];
      i := to;
      operand, last := true, Other;
    } else if IsWord(ch) || ch == '?' || ch == '$' || ch == ':' {
      next := ReadWordToken(doc, st, notOperand);
      return;
    } else {
      stack := StackAfter(stack, ch, valuesPending, last, lastEnd == i);
      if ch == '{' { valuesPending := false; }
      i := i + 1;
      operand, last := ch == ')', Other;
    }
    next := State(spans, stack, valuesPending, operand, last, lastEnd, i);
  }

  /**
   `lex`; `notOperand` holds the words after which a value is still to come. The spans are those of the
   text's one tokenization, which says of each `<` whether it is a less-than.
   */
  method Lex(doc: string, notOperand: set<string>) returns (spans: seq<Span>)
    ensures spans == Spans(doc, notOperand)
    ensures Ordered(spans, 0, |doc|)
    ensures forall i :: 0 <= i < |spans| ==> Shape(doc, spans[i])
    ensures NothingMissed(doc, spans, |doc|)
    ensures exists ts :: Tokenizes(doc, ts, notOperand) && SpansOf(ts) == spans
  {
    var st := START;
    while st.i < |doc|
      invariant st.i <= |doc| && SpansFrom(doc, st, notOperand) == Spans(doc, notOperand)
      decreases |doc| - st.i
    {
      Advances(doc, st, notOperand);
      st := ReadToken(doc, st, notOperand);
    }
    SpansAreLexed(doc, notOperand);
    EditorTokenRuns.SpansAreTokens(doc, notOperand);
    spans := st.spans;
  }

  /** `out` is the text up to its length, the spans done so far blanked; none of them lies further on. */
  ghost predicate BlankedTo(doc: string, done: seq<Span>, kinds: set<SpanKind>, out: string) {
    && |out| <= |doc| && (forall k :: 0 <= k < |out| ==> out[k] == BlankedChar(doc, done, kinds, k))
    && forall k :: |out| <= k ==> !InKind(done, kinds, k)
  }

  lemma BlankOneMore(doc: string, done: seq<Span>, s: Span, kinds: set<SpanKind>, out: string)
    requires BlankedTo(doc, done, kinds, out) && |out| <= s.from < s.to <= |doc|
    ensures BlankedTo(doc, done + [s], kinds,
                      if s.kind in kinds then out + doc[|out|..s.from] + Spaces(doc[s.from..s.to]) else out)
  {
    InKindSnoc(done, kinds, s);
  }

  lemma BlankRest(doc: string, done: seq<Span>, kinds: set<SpanKind>, out: string)
    requires BlankedTo(doc, done, kinds, out)
    ensures var all := out + doc[|out|..];
            |all| == |doc| && forall k :: 0 <= k < |doc| ==> all[k] == BlankedChar(doc, done, kinds, k)
  {}

  method BlankSpans(doc: string, found: seq<Span>, kinds: set<SpanKind>) returns (out: string)
    requires Ordered(found, 0, |doc|)
    ensures |out| == |doc| && forall k :: 0 <= k < |doc| ==> out[k] == BlankedChar(doc, found, kinds, k)
  {
    out := "";
    var last := 0;
    for n := 0 to |found|
      invariant |out| == last && BlankedTo(doc, found[..n], kinds, out)
      invariant forall i :: n <= i < |found| ==> last <= found[i].from
    {
      var s := found[n];
      BlankOneMore(doc, found[..n], s, kinds, out);
      assert found[..n + 1] == found[..n] + [s];
      if s.kind in kinds {
        out := out + doc[last..s.from] + Spaces(doc[s.from..s.to]);
        last := s.to;
      }
    }
    assert found[..|found|] == found;
    BlankRest(doc, found, kinds, out);
    out := out + doc[last..];
  }

  /** `blank`: the spans of the given kinds become spaces, newlines kept, every offset unmoved. */
  method Blank(doc: string, kinds: set<SpanKind>, notOperand: set<string>) returns (out: string)
    ensures |out| == |doc|
    ensures forall k :: 0 <= k < |doc| ==> out[k] == BlankedChar(doc, Spans(doc, notOperand), kinds, k)
  {
    var found := Lex(doc, notOperand);
    out := BlankSpans(doc, found, kinds);
  }

  function Spaces(s: string): (r: string)
    ensures |r| == |s| && forall k :: 0 <= k < |s| ==> r[k] == if s[k] == '\n' then '\n' else ' '
  {
    seq(|s|, k requires 0 <= k < |s| => if s[k] == '\n' then '\n' else ' ')
  }

  predicate InKind(spans: seq<Span>, kinds: set<SpanKind>, k: int) {
    exists i :: 0 <= i < |spans| && spans[i].kind in kinds && spans[i].from <= k < spans[i].to
  }

  lemma InKindSnoc(spans: seq<Span>, kinds: set<SpanKind>, s: Span)
    ensures forall k ::
              InKind(spans + [s], kinds, k) <==> InKind(spans, kinds, k) || (s.kind in kinds && s.from <= k < s.to)
  {
    forall k
      ensures InKind(spans + [s], kinds, k) <==> InKind(spans, kinds, k) || (s.kind in kinds && s.from <= k < s.to)
    {
      assert forall i :: 0 <= i < |spans| ==> spans[i] == (spans + [s])[i];
      assert (spans + [s])[|spans|] == s;
    }
  }

  /** What the blanked text has at an offset. */
  function BlankedChar(doc: string, spans: seq<Span>, kinds: set<SpanKind>, k: nat): char
    requires k < |doc|
  {
    if doc[k] != '\n' && InKind(spans, kinds, k) then ' ' else doc[k]
  }
}
