/** The editor's SPARQL lexer: the spans that are no syntax, and the text with them blanked. */
module EditorLexer {
  datatype SpanKind = Comment | IriSpan | OpenIri | StringSpan | OpenString
  datatype Span = Span(kind: SpanKind, from: nat, to: nat)

  // ---- characters ----

  predicate IsWord(c: char) {
    'a' <= c <= 'z' || 'A' <= c <= 'Z' || '0' <= c <= '9' || c == '_'
  }

  predicate IsNameStart(c: char) {
    'a' <= c <= 'z' || 'A' <= c <= 'Z' || c == '_'
  }

  predicate IsIriChar(c: char) {
    c > ' ' && c !in {'<', '>', '"', '{', '}', '|', '^', '`', '\\'}
  }

  predicate IsOpenIriChar(c: char) {
    IsIriChar(c) && c !in {')', ',', ';'}
  }

  predicate IsBlankChar(c: char) {
    c == ' ' || c == '\t' || c == '\r' || c == '\n'
  }

  function UpperChar(c: char): char {
    if 'a' <= c <= 'z' then c - 'a' + 'A' else c
  }

  function Upper(s: string): string {
    seq(|s|, k requires 0 <= k < |s| => UpperChar(s[k]))
  }

  /** The end of the run of characters from `i` on that satisfy the test. */
  function RunEnd(doc: string, i: nat, test: char -> bool): (j: nat)
    requires i <= |doc|
    ensures i <= j <= |doc| && (forall k :: i <= k < j ==> test(doc[k])) && (j < |doc| ==> !test(doc[j]))
    decreases |doc| - i
  {
    if i < |doc| && test(doc[i]) then RunEnd(doc, i + 1, test) else i
  }

  // ---- what a span is ----

  predicate StartsWith(doc: string, q: string, i: nat) {
    i + |q| <= |doc| && doc[i..i + |q|] == q
  }

  /** One quote or three of a kind. */
  predicate IsQuote(q: string) {
    (|q| == 1 || |q| == 3) && (q[0] == '"' || q[0] == '\'') && forall k :: 0 <= k < |q| ==> q[k] == q[0]
  }

  /** From `from` to `to`, between two equal quotings of this length. */
  predicate IsQuoted(doc: string, from: nat, to: nat, n: nat) {
    from + 2 * n <= to <= |doc| && IsQuote(doc[from..from + n]) && doc[to - n..to] == doc[from..from + n]
  }

  /** From `from` to `to` the quoting is only where a backslash stands before it. */
  predicate Unbroken(doc: string, q: string, from: int, to: int) {
    forall k: nat :: from <= k < to && StartsWith(doc, q, k) ==> from < k && 0 < k <= |doc| && doc[k - 1] == '\\'
  }

  /** A literal that is not closed: with one quote it ends at the line's end, with three at the text's. */
  predicate IsUnclosed(doc: string, from: nat, to: nat, q: string) {
    && StartsWith(doc, q, from) && from + |q| <= to <= |doc| && Unbroken(doc, q, from + |q|, to)
    && (to == |doc| || (|q| == 1 && doc[to] == '\n'))
  }

  ghost predicate Shape(doc: string, s: Span)
    requires s.from < s.to <= |doc|
  {
    match s.kind
    case Comment =>
      doc[s.from] == '#' && (forall k :: s.from <= k < s.to ==> doc[k] != '\n') && (s.to == |doc| || doc[s.to] == '\n')
    case IriSpan =>
      && doc[s.from] == '<' && s.from + 2 <= s.to && doc[s.to - 1] == '>'
      && forall k :: s.from < k < s.to - 1 ==> IsIriChar(doc[k])
    case OpenIri =>
      && doc[s.from] == '<' && (forall k :: s.from < k < s.to ==> IsOpenIriChar(doc[k]))
      && exists k :: s.from < k < s.to && doc[k] == ':'
    case StringSpan =>
      && (doc[s.from] == '"' || doc[s.from] == '\'')
      && var q := QuoteAt(doc, s.from);
         IsQuoted(doc, s.from, s.to, |q|) && Unbroken(doc, q, s.from + |q|, s.to - |q|)
    case OpenString =>
      (doc[s.from] == '"' || doc[s.from] == '\'') && IsUnclosed(doc, s.from, s.to, QuoteAt(doc, s.from))
  }

  /** Spans in range, none empty, each after the one before. */
  predicate Ordered(spans: seq<Span>, lo: nat, hi: nat) {
    && (forall i :: 0 <= i < |spans| ==> lo <= spans[i].from < spans[i].to <= hi)
    && (forall i, j :: 0 <= i < j < |spans| ==> spans[i].to <= spans[j].from)
  }

  predicate InSome(spans: seq<Span>, k: nat) {
    exists i :: 0 <= i < |spans| && spans[i].from <= k < spans[i].to
  }

  /** Outside the spans, a `#` or a quote is escaped by a backslash before it. */
  predicate NothingMissed(doc: string, spans: seq<Span>, upto: nat)
    requires upto <= |doc|
  {
    forall k :: 0 <= k < upto && doc[k] in {'#', '"', '\''} && !InSome(spans, k)
      ==> k > 0 && doc[k - 1] == '\\' && !InSome(spans, k - 1)
  }

  lemma InSomeSnoc(spans: seq<Span>, s: Span, k: nat)
    ensures InSome(spans + [s], k) <==> InSome(spans, k) || s.from <= k < s.to
  {
    assert forall i :: 0 <= i < |spans| ==> spans[i] == (spans + [s])[i];
    assert (spans + [s])[|spans|] == s;
  }

  /** What the lexer knows of the text up to `i`. */
  ghost predicate Lexed(doc: string, spans: seq<Span>, i: nat) {
    && i <= |doc| && Ordered(spans, 0, i) && NothingMissed(doc, spans, i)
    && forall k :: 0 <= k < |spans| ==> Shape(doc, spans[k])
  }

  /** A new span after the ones so far. */
  lemma SpanAdded(doc: string, spans: seq<Span>, s: Span)
    requires Lexed(doc, spans, s.from) && s.from < s.to <= |doc| && Shape(doc, s)
    ensures Lexed(doc, spans + [s], s.to)
  {
    forall k | 0 <= k < s.to && doc[k] in {'#', '"', '\''} && !InSome(spans + [s], k)
      ensures k > 0 && doc[k - 1] == '\\' && !InSome(spans + [s], k - 1)
    {
      InSomeSnoc(spans, s, k);
      if k > 0 { InSomeSnoc(spans, s, k - 1); }
    }
  }

  /** Text without comment and literal openers adds nothing to miss. */
  lemma PlainText(doc: string, spans: seq<Span>, i: nat, j: nat)
    requires i <= j <= |doc| && Lexed(doc, spans, i)
    requires forall k :: i <= k < j ==> doc[k] !in {'#', '"', '\''}
    ensures Lexed(doc, spans, j)
  {}

  /** The character after a backslash is skipped. */
  lemma Escaped(doc: string, spans: seq<Span>, i: nat, j: nat)
    requires i < |doc| && doc[i] == '\\' && Lexed(doc, spans, i)
    requires j == if i + 2 <= |doc| then i + 2 else |doc|
    ensures Lexed(doc, spans, j)
  {
    assert !InSome(spans, i);
  }

  // ---- the lexer's pieces ----

  datatype Bracket = Expression | Row | Braces | ValuesBlock
  datatype Last = Keyword | Name | Other

  /** The quoting of the literal at `i`: three quotes if they are there, else one. */
  function QuoteAt(doc: string, i: nat): (q: string)
    requires i < |doc| && (doc[i] == '"' || doc[i] == '\'')
    ensures IsQuote(q) && (|q| == 1 || |q| == 3) && i + |q| <= |doc| && doc[i..i + |q|] == q
  {
    var one, three := [doc[i]], [doc[i], doc[i], doc[i]];
    assert doc[i..i + 1] == one;
    if StartsWith(doc, three, i) then three else one
  }

  /** Where the literal with this quoting ends, read from `j` on, and whether it is closed. */
  function LiteralEnd(doc: string, q: string, j: nat): (nat, bool)
    requires q != ""
    decreases |doc| - j
  {
    if j >= |doc| then (|doc|, false)
    else if doc[j] == '\\' then LiteralEnd(doc, q, j + 2)
    else if |q| == 1 && doc[j] == '\n' then (j, false)
    else if StartsWith(doc, q, j) then (j + |q|, true)
    else LiteralEnd(doc, q, j + 1)
  }

  /** A literal ends in the text, at its own quoting if it is closed. */
  lemma {:induction false} LiteralEnds(doc: string, q: string, j: nat)
    requires q != ""
    ensures LiteralEnd(doc, q, j).0 <= |doc| && (j <= |doc| ==> j <= LiteralEnd(doc, q, j).0)
    ensures LiteralEnd(doc, q, j).1 ==>
              j + |q| <= LiteralEnd(doc, q, j).0 && StartsWith(doc, q, LiteralEnd(doc, q, j).0 - |q|)
    decreases |doc| - j
  {
    if j < |doc| {
      if doc[j] == '\\' { LiteralEnds(doc, q, j + 2); } else { LiteralEnds(doc, q, j + 1); }
    }
  }

  /** The first quoting that no backslash escapes closes the literal. */
  lemma {:induction false} LiteralUnbroken(doc: string, q: string, j: nat)
    requires IsQuote(q) && j <= |doc|
    ensures LiteralEnd(doc, q, j).1 ==> Unbroken(doc, q, j, LiteralEnd(doc, q, j).0 - |q|)
    ensures !LiteralEnd(doc, q, j).1 ==>
              var to := LiteralEnd(doc, q, j).0;
              Unbroken(doc, q, j, to) && (to < |doc| ==> |q| == 1 && doc[to] == '\n')
    decreases |doc| - j
  {
    LiteralEnds(doc, q, j);
    if j < |doc| {
      if doc[j] == '\\' {
        if j + 2 <= |doc| { LiteralUnbroken(doc, q, j + 2); }
      } else if !(|q| == 1 && doc[j] == '\n') && !StartsWith(doc, q, j) {
        LiteralUnbroken(doc, q, j + 1);
      }
    }
  }

  lemma ClosedShape(doc: string, q: string, i: nat, to: nat)
    requires i < |doc| && (doc[i] == '"' || doc[i] == '\'') && q == QuoteAt(doc, i)
    requires i + 2 * |q| <= to <= |doc| && StartsWith(doc, q, to - |q|) && Unbroken(doc, q, i + |q|, to - |q|)
    ensures Shape(doc, Span(StringSpan, i, to))
  {}

  lemma UnclosedShape(doc: string, q: string, i: nat, to: nat)
    requires i < |doc| && (doc[i] == '"' || doc[i] == '\'') && q == QuoteAt(doc, i)
    requires i + |q| <= to <= |doc| && Unbroken(doc, q, i + |q|, to) && (to < |doc| ==> |q| == 1 && doc[to] == '\n')
    ensures Shape(doc, Span(OpenString, i, to))
  {
    assert StartsWith(doc, q, i);
  }

  /** What is known of the end, whether closed or not, gives the shape. */
  lemma EndShape(doc: string, q: string, i: nat, to: nat, closed: bool)
    requires i < |doc| && (doc[i] == '"' || doc[i] == '\'') && q == QuoteAt(doc, i) && i + |q| <= to <= |doc|
    requires closed ==>
               i + 2 * |q| <= to && StartsWith(doc, q, to - |q|) && Unbroken(doc, q, i + |q|, to - |q|)
    requires !closed ==> Unbroken(doc, q, i + |q|, to) && (to < |doc| ==> |q| == 1 && doc[to] == '\n')
    ensures i < to && Shape(doc, Span(if closed then StringSpan else OpenString, i, to))
  {
    if closed { ClosedShape(doc, q, i, to); } else { UnclosedShape(doc, q, i, to); }
  }

  lemma LiteralShape(doc: string, q: string, i: nat)
    requires i < |doc| && (doc[i] == '"' || doc[i] == '\'') && q == QuoteAt(doc, i)
    ensures i < LiteralEnd(doc, q, i + |q|).0 <= |doc|
    ensures Shape(doc, Span(if LiteralEnd(doc, q, i + |q|).1 then StringSpan else OpenString,
                            i, LiteralEnd(doc, q, i + |q|).0))
  {
    var start := i + |q|;
    LiteralEnds(doc, q, start);
    LiteralUnbroken(doc, q, start);
    EndShape(doc, q, i, LiteralEnd(doc, q, start).0, LiteralEnd(doc, q, start).1);
  }

  /** Reading on from `j`, `q` still to close: where the literal ends. */
  method FindEnd(doc: string, q: string, start: nat) returns (to: nat, closed: bool)
    requires q != ""
    ensures (to, closed) == LiteralEnd(doc, q, start)
  {
    var j := start;
    while j < |doc|
      invariant LiteralEnd(doc, q, j) == LiteralEnd(doc, q, start)
    {
      if doc[j] == '\\' { j := j + 2; }
      else if |q| == 1 && doc[j] == '\n' { return j, false; }
      else if StartsWith(doc, q, j) { return j + |q|, true; }
      else { j := j + 1; }
    }
    return |doc|, false;
  }

  /** A literal from its opening quote: where it ends, and whether it is closed. */
  method ScanString(doc: string, i: nat) returns (to: nat, closed: bool)
    requires i < |doc| && (doc[i] == '"' || doc[i] == '\'')
    ensures (to, closed) == LiteralEnd(doc, QuoteAt(doc, i), i + |QuoteAt(doc, i)|)
    ensures i < to <= |doc|
    ensures Shape(doc, Span(if closed then StringSpan else OpenString, i, to))
  {
    var q := QuoteAt(doc, i);
    to, closed := FindEnd(doc, q, i + |q|);
    LiteralShape(doc, q, i);
  }

  predicate ContinuesWord(doc: string, j: nat)
    requires j < |doc|
  {
    IsWord(doc[j]) || doc[j] == ':' || doc[j] == '-' || (doc[j] == '.' && j + 1 < |doc| && IsWord(doc[j + 1]))
  }

  /** The end of the word that goes on at `j`: a dot belongs to it only before a word character. */
  function WordEnd(doc: string, j: nat): (end: nat)
    requires j <= |doc|
    ensures j <= end <= |doc| && forall k :: j <= k < end ==> doc[k] !in {'#', '"', '\'', '<', '('}
    decreases |doc| - j
  {
    if j < |doc| && ContinuesWord(doc, j) then WordEnd(doc, j + 1) else j
  }

  method ScanWord(doc: string, i: nat) returns (j: nat)
    requires i < |doc|
    ensures j == WordEnd(doc, i + 1)
  {
    j := i + 1;
    while j < |doc| && ContinuesWord(doc, j)
      invariant i < j <= |doc| && WordEnd(doc, j) == WordEnd(doc, i + 1)
    {
      j := j + 1;
    }
  }

  function CommentEnd(doc: string, i: nat): (to: nat)
    requires i < |doc| && doc[i] == '#'
    ensures i < to <= |doc| && Shape(doc, Span(Comment, i, to))
  {
    RunEnd(doc, i, c => c != '\n')
  }

  datatype Angle = LessThan | Reference(kind: SpanKind, to: nat)

  /** A `<` that is no less-than after an operand: an IRI, one still being typed, or a less-than. */
  function ReadAngle(doc: string, i: nat): (a: Angle)
    requires i < |doc| && doc[i] == '<'
    ensures a.Reference? ==> i < a.to <= |doc| && Shape(doc, Span(a.kind, i, a.to))
  {
    var end := RunEnd(doc, i + 1, c => IsIriChar(c));
    var open := RunEnd(doc, i + 1, c => IsOpenIriChar(c));
    if end < |doc| && doc[end] == '>' then Reference(IriSpan, end + 1)
    else if exists k :: i < k < open && doc[k] == ':' then Reference(OpenIri, open)
    else LessThan
  }

  predicate IsBare(word: string) {
    word != "" && forall k :: 0 <= k < |word| ==> IsNameStart(word[k])
  }

  /** The kind of bracket a `(` opens. */
  function Opened(valuesPending: bool, stack: seq<Bracket>, last: Last, adjacent: bool): Bracket {
    if valuesPending || (stack != [] && (stack[|stack| - 1] == ValuesBlock || stack[|stack| - 1] == Row)) then Row
    else if stack == [] || stack[|stack| - 1] == Expression || last == Keyword then Expression
    else if last == Name && adjacent then Expression
    else Row
  }

  // ---- the lexer ----

  /** Where the lexer is, the spans so far, the open brackets, and what the last token was. */
  datatype State = State(
    spans: seq<Span>, stack: seq<Bracket>, valuesPending: bool, operand: bool, last: Last, lastEnd: int, i: nat)

  const START := State([], [], false, false, Other, -1, 0)

  predicate InExpression(stack: seq<Bracket>) {
    stack != [] && stack[|stack| - 1] == Expression
  }

  function AfterAngle(doc: string, st: State): (r: State)
    requires st.i < |doc| && doc[st.i] == '<'
    ensures st.i < r.i <= |doc|
  {
    match (if InExpression(st.stack) && st.operand then LessThan else ReadAngle(doc, st.i))
    case LessThan => st.(i := st.i + 1, operand := false)
    case Reference(kind, to) =>
      var next := st.(spans := st.spans + [Span(kind, st.i, to)], i := to, operand := true);
      if kind == IriSpan then next.(last := Name, lastEnd := to) else next
  }

  function AfterLiteral(doc: string, st: State): State
    requires st.i < |doc| && (doc[st.i] == '"' || doc[st.i] == '\'')
  {
    var q := QuoteAt(doc, st.i);
    var (to, closed) := LiteralEnd(doc, q, st.i + |q|);
    var literal := Span(if closed then StringSpan else OpenString, st.i, to);
    st.(spans := st.spans + [literal], i := to, operand := true, last := Other)
  }

  predicate IsValues(word: string) {
    IsBare(word) && Upper(word) == "VALUES"
  }

  predicate IsKeyword(word: string, notOperand: set<string>) {
    IsBare(word) && Upper(word) in notOperand
  }

  function AfterWord(doc: string, st: State, notOperand: set<string>): State
    requires st.i < |doc|
  {
    var end := WordEnd(doc, st.i + 1);
    var word := doc[st.i..end];
    var keyword := IsKeyword(word, notOperand);
    st.(valuesPending := st.valuesPending || IsValues(word),
        operand := !keyword,
        last := if keyword then Keyword else if IsNameStart(doc[st.i]) || doc[st.i] == ':' then Name else Other,
        lastEnd := end, i := end)
  }

  /** The open brackets after a mark. */
  function StackAfter(stack: seq<Bracket>, ch: char, valuesPending: bool, last: Last, adjacent: bool): seq<Bracket> {
    if ch == '(' then stack + [Opened(valuesPending, stack, last, adjacent)]
    else if ch == '{' then stack + [if valuesPending then ValuesBlock else Braces]
    else if (ch == ')' || ch == '}') && stack != [] then stack[..|stack| - 1]
    else stack
  }

  function AfterMark(doc: string, st: State): State
    requires st.i < |doc|
  {
    var ch := doc[st.i];
    st.(stack := StackAfter(st.stack, ch, st.valuesPending, st.last, st.lastEnd == st.i),
        valuesPending := st.valuesPending && ch != '{',
        i := st.i + 1, operand := ch == ')', last := Other)
  }

  function AfterEscape(doc: string, st: State): State
    requires st.i < |doc|
  {
    st.(i := if st.i + 2 <= |doc| then st.i + 2 else |doc|, operand := true)
  }

  /** The lexer after the token at its place. */
  function After(doc: string, st: State, notOperand: set<string>): State
    requires st.i < |doc|
  {
    var ch := doc[st.i];
    if ch == '\\' then AfterEscape(doc, st)
    else if IsBlankChar(ch) then st.(i := st.i + 1)
    else if ch == '#' then
      st.(spans := st.spans + [Span(Comment, st.i, CommentEnd(doc, st.i))], i := CommentEnd(doc, st.i))
    else if ch == '<' then AfterAngle(doc, st)
    else if ch == '"' || ch == '\'' then AfterLiteral(doc, st)
    else if IsWord(ch) || ch == '?' || ch == '$' || ch == ':' then AfterWord(doc, st, notOperand)
    else AfterMark(doc, st)
  }

  lemma LiteralAdvances(doc: string, st: State)
    requires st.i < |doc| && (doc[st.i] == '"' || doc[st.i] == '\'')
    ensures st.i < AfterLiteral(doc, st).i <= |doc|
  {
    LiteralShape(doc, QuoteAt(doc, st.i), st.i);
  }

  lemma WordAdvances(doc: string, st: State, notOperand: set<string>)
    requires st.i < |doc|
    ensures st.i < AfterWord(doc, st, notOperand).i <= |doc|
  {}

  lemma Advances(doc: string, st: State, notOperand: set<string>)
    requires st.i < |doc|
    ensures st.i < After(doc, st, notOperand).i <= |doc|
  {
    WordAdvances(doc, st, notOperand);
    if doc[st.i] == '"' || doc[st.i] == '\'' { LiteralAdvances(doc, st); }
  }

  /** The spans of the whole text, the lexer being at `st`. */
  function SpansFrom(doc: string, st: State, notOperand: set<string>): seq<Span>
    requires st.i <= |doc|
    decreases |doc| - st.i
  {
    if st.i == |doc| then st.spans
    else
      Advances(doc, st, notOperand);
      SpansFrom(doc, After(doc, st, notOperand), notOperand)
  }

  function Spans(doc: string, notOperand: set<string>): seq<Span> {
    SpansFrom(doc, START, notOperand)
  }

  /** A step leaves what is known of the text intact. */
  lemma StepLexed(doc: string, st: State, notOperand: set<string>)
    requires st.i < |doc| && Lexed(doc, st.spans, st.i)
    ensures st.i < After(doc, st, notOperand).i <= |doc|
    ensures Lexed(doc, After(doc, st, notOperand).spans, After(doc, st, notOperand).i)
  {
    Advances(doc, st, notOperand);
    var ch, next := doc[st.i], After(doc, st, notOperand);
    if ch == '\\' {
      Escaped(doc, st.spans, st.i, next.i);
    } else if ch == '#' {
      SpanAdded(doc, st.spans, Span(Comment, st.i, next.i));
    } else if ch == '<' {
      AngleLexed(doc, st);
    } else if ch == '"' || ch == '\'' {
      LiteralLexed(doc, st);
    } else {
      PlainText(doc, st.spans, st.i, next.i);
    }
  }

  lemma AngleLexed(doc: string, st: State)
    requires st.i < |doc| && doc[st.i] == '<' && Lexed(doc, st.spans, st.i)
    ensures Lexed(doc, AfterAngle(doc, st).spans, AfterAngle(doc, st).i)
  {
    match (if InExpression(st.stack) && st.operand then LessThan else ReadAngle(doc, st.i))
    case LessThan => PlainText(doc, st.spans, st.i, st.i + 1);
    case Reference(kind, to) => SpanAdded(doc, st.spans, Span(kind, st.i, to));
  }

  /** What a literal is, is proved where it is scanned. */
  lemma LiteralLexed(doc: string, st: State)
    requires st.i < |doc| && (doc[st.i] == '"' || doc[st.i] == '\'') && Lexed(doc, st.spans, st.i)
    ensures Lexed(doc, AfterLiteral(doc, st).spans, AfterLiteral(doc, st).i)
  {
    var q := QuoteAt(doc, st.i);
    LiteralShape(doc, q, st.i);
    var end := LiteralEnd(doc, q, st.i + |q|);
    LiteralAdded(doc, st, end.0, end.1);
  }

  lemma LiteralAdded(doc: string, st: State, to: nat, closed: bool)
    requires st.i < to <= |doc| && Lexed(doc, st.spans, st.i)
    requires Shape(doc, Span(if closed then StringSpan else OpenString, st.i, to))
    ensures Lexed(doc, st.spans + [Span(if closed then StringSpan else OpenString, st.i, to)], to)
  {
    SpanAdded(doc, st.spans, Span(if closed then StringSpan else OpenString, st.i, to));
  }

  /** From any place of the lexer on, the spans are in order, each of its shape, and nothing is missed. */
  lemma {:induction false} SpansFromLexed(doc: string, st: State, notOperand: set<string>)
    requires st.i <= |doc| && Lexed(doc, st.spans, st.i)
    ensures Lexed(doc, SpansFrom(doc, st, notOperand), |doc|)
    decreases |doc| - st.i
  {
    if st.i < |doc| {
      StepLexed(doc, st, notOperand);
      SpansFromLexed(doc, After(doc, st, notOperand), notOperand);
    }
  }

  /**
   The comments, IRIs and literals of a text are in order and disjoint, each of its shape, and no
   comment or literal opener outside them is without a backslash.
   */
  lemma SpansAreLexed(doc: string, notOperand: set<string>)
    ensures Ordered(Spans(doc, notOperand), 0, |doc|) && NothingMissed(doc, Spans(doc, notOperand), |doc|)
    ensures forall k :: 0 <= k < |Spans(doc, notOperand)| ==> Shape(doc, Spans(doc, notOperand)[k])
  {
    SpansFromLexed(doc, START, notOperand);
  }

  // ---- no IRI is missed outside parentheses ----

  /** A complete IRI reference starts at `k`. */
  predicate IsIriAt(doc: string, k: nat) {
    k < |doc| && doc[k] == '<' && var end := RunEnd(doc, k + 1, c => IsIriChar(c)); end < |doc| && doc[end] == '>'
  }

  ghost predicate ParenBefore(doc: string, spans: seq<Span>, k: nat) {
    exists j: nat :: j < k && j < |doc| && doc[j] == '(' && !InSome(spans, j)
  }

  predicate EscapedAt(doc: string, spans: seq<Span>, k: nat)
    requires k < |doc|
  {
    k > 0 && doc[k - 1] == '\\' && !InSome(spans, k - 1)
  }

  /** A complete IRI outside the spans stands after an opening parenthesis, or is escaped. */
  ghost predicate IrisFound(doc: string, spans: seq<Span>, upto: nat)
    requires upto <= |doc|
  {
    forall k: nat :: k < upto && IsIriAt(doc, k) && !InSome(spans, k)
      ==> ParenBefore(doc, spans, k) || EscapedAt(doc, spans, k)
  }

  ghost predicate Protects(doc: string, st: State) {
    && st.i <= |doc| && Ordered(st.spans, 0, st.i) && IrisFound(doc, st.spans, st.i)
    && (Expression in st.stack ==> ParenBefore(doc, st.spans, st.i))
  }

  /** A new span hides no opening parenthesis before it. */
  lemma SpanProtects(doc: string, st: State, s: Span, next: State)
    requires Protects(doc, st) && s.from == st.i < s.to == next.i <= |doc| && next.spans == st.spans + [s]
    requires next.stack == st.stack
    ensures Protects(doc, next)
  {
    forall k: nat ensures InSome(next.spans, k) <==> InSome(st.spans, k) || s.from <= k < s.to {
      InSomeSnoc(st.spans, s, k);
    }
    forall k: nat | k <= st.i && ParenBefore(doc, st.spans, k) ensures ParenBefore(doc, next.spans, k) {
      var j: nat :| j < k && j < |doc| && doc[j] == '(' && !InSome(st.spans, j);
      assert !InSome(next.spans, j);
    }
    if Expression in next.stack {
      var j: nat :| j < st.i && j < |doc| && doc[j] == '(' && !InSome(st.spans, j);
      assert !InSome(next.spans, j);
    }
  }

  /** Text without a complete IRI protects as before. */
  lemma TextProtects(doc: string, st: State, next: State)
    requires Protects(doc, st) && st.i <= next.i <= |doc| && next.spans == st.spans
    requires forall k: nat :: st.i <= k < next.i ==>
               !IsIriAt(doc, k) || ParenBefore(doc, st.spans, k) || EscapedAt(doc, st.spans, k)
    requires Expression in next.stack ==> Expression in st.stack || ParenBefore(doc, st.spans, next.i)
    ensures Protects(doc, next)
  {
    if Expression in st.stack {
      var j: nat :| j < st.i && j < |doc| && doc[j] == '(' && !InSome(st.spans, j);
      assert ParenBefore(doc, st.spans, next.i);
    }
  }

  lemma AngleProtects(doc: string, st: State)
    requires st.i < |doc| && doc[st.i] == '<' && Protects(doc, st)
    ensures Protects(doc, AfterAngle(doc, st))
  {
    match (if InExpression(st.stack) && st.operand then LessThan else ReadAngle(doc, st.i))
    case LessThan => TextProtects(doc, st, AfterAngle(doc, st));
    case Reference(kind, to) => SpanProtects(doc, st, Span(kind, st.i, to), AfterAngle(doc, st));
  }

  lemma MarkProtects(doc: string, st: State)
    requires st.i < |doc| && doc[st.i] != '<' && Protects(doc, st)
    ensures Protects(doc, AfterMark(doc, st))
  {
    assert !InSome(st.spans, st.i);
    TextProtects(doc, st, AfterMark(doc, st));
  }

  lemma LiteralProtects(doc: string, st: State)
    requires st.i < |doc| && (doc[st.i] == '"' || doc[st.i] == '\'') && Protects(doc, st)
    ensures Protects(doc, AfterLiteral(doc, st))
  {
    var q := QuoteAt(doc, st.i);
    LiteralEnds(doc, q, st.i + |q|);
    var (to, closed) := LiteralEnd(doc, q, st.i + |q|);
    SpanProtects(doc, st, Span(if closed then StringSpan else OpenString, st.i, to), AfterLiteral(doc, st));
  }

  lemma StepProtects(doc: string, st: State, notOperand: set<string>)
    requires st.i < |doc| && Protects(doc, st)
    ensures Protects(doc, After(doc, st, notOperand))
  {
    var ch, next := doc[st.i], After(doc, st, notOperand);
    Advances(doc, st, notOperand);
    if ch == '\\' {
      assert !InSome(st.spans, st.i);
      TextProtects(doc, st, next);
    } else if ch == '#' {
      SpanProtects(doc, st, Span(Comment, st.i, next.i), next);
    } else if ch == '<' {
      AngleProtects(doc, st);
    } else if ch == '"' || ch == '\'' {
      LiteralProtects(doc, st);
    } else if IsBlankChar(ch) || IsWord(ch) || ch == '?' || ch == '$' || ch == ':' {
      TextProtects(doc, st, next);
    } else {
      MarkProtects(doc, st);
    }
  }

  lemma {:induction false} SpansFromProtect(doc: string, st: State, notOperand: set<string>)
    requires Protects(doc, st)
    ensures IrisFound(doc, SpansFrom(doc, st, notOperand), |doc|)
    decreases |doc| - st.i
  {
    if st.i < |doc| {
      Advances(doc, st, notOperand);
      StepProtects(doc, st, notOperand);
      SpansFromProtect(doc, After(doc, st, notOperand), notOperand);
    }
  }

  /**
   Every complete IRI is in a span, unless it is escaped or follows an opening parenthesis, where `<`
   can be less-than.
   */
  lemma IrisAreFound(doc: string, notOperand: set<string>)
    ensures IrisFound(doc, Spans(doc, notOperand), |doc|)
  {
    SpansFromProtect(doc, START, notOperand);
  }

  /** The words after which a value is still to come: keywords and function names, but true and false. */
  const NOT_OPERAND: set<string> := {
    "SELECT", "CONSTRUCT", "ASK", "DESCRIBE", "WHERE", "FROM", "PREFIX", "BASE", "OPTIONAL", "FILTER", "UNION",
    "MINUS", "GRAPH", "SERVICE", "BIND", "VALUES", "GROUP", "BY", "ORDER", "HAVING", "LIMIT", "OFFSET",
    "DISTINCT", "REDUCED", "AS", "ASC", "DESC", "NOT", "EXISTS", "IN",
    "STR", "LANG", "LANGMATCHES", "DATATYPE", "BOUND", "IRI", "URI", "BNODE", "RAND", "ABS", "CEIL", "FLOOR",
    "ROUND", "CONCAT", "STRLEN", "UCASE", "LCASE", "ENCODE_FOR_URI", "CONTAINS", "STRSTARTS", "STRENDS",
    "STRBEFORE", "STRAFTER", "YEAR", "MONTH", "DAY", "HOURS", "MINUTES", "SECONDS", "TIMEZONE", "TZ", "NOW",
    "UUID", "STRUUID", "MD5", "SHA1", "SHA256", "COALESCE", "IF", "STRLANG", "STRDT", "SAMETERM", "ISIRI",
    "ISURI", "ISBLANK", "ISLITERAL", "ISNUMERIC", "REGEX", "SUBSTR", "REPLACE", "COUNT", "SUM", "MIN", "MAX",
    "AVG", "SAMPLE", "GROUP_CONCAT"
  }
}
