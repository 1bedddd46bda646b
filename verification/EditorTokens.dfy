/**
 How the lexer must divide a text into tokens, and which `<` is a less-than: read from the text and
 the tokens before, not from the lexer's own state.
 */
module EditorTokens {
  import opened EditorLexer

  /** What a token is: one of the spans, a blank, an escape, a less-than, a word or another mark. */
  datatype Kind = Noise(span: SpanKind) | Space | Escape | Less | Word | Mark
  datatype Token = Token(kind: Kind, from: nat, to: nat)

  // ---- the shapes of tokens, each fixing where the token ends ----

  predicate IsIri(doc: string, from: nat, to: nat) {
    && from + 2 <= to <= |doc| && doc[from] == '<' && doc[to - 1] == '>'
    && forall k :: from < k < to - 1 ==> IsIriChar(doc[k])
  }

  /** An IRI still being typed: all that can belong to it, with a scheme's colon. */
  predicate IsTyped(doc: string, from: nat, to: nat) {
    && from < to <= |doc| && doc[from] == '<' && (forall k :: from < k < to ==> IsOpenIriChar(doc[k]))
    && (to < |doc| ==> !IsOpenIriChar(doc[to])) && exists k :: from < k < to && doc[k] == ':'
  }

  ghost predicate HasIri(doc: string, from: nat) {
    exists to: nat :: IsIri(doc, from, to)
  }

  ghost predicate HasTyped(doc: string, from: nat) {
    exists to: nat :: IsTyped(doc, from, to)
  }

  /** How many backslashes stand right before `k`, from `start` on. */
  function Slashes(doc: string, start: nat, k: nat): nat
    requires k <= |doc|
  {
    if start < k && doc[k - 1] == '\\' then 1 + Slashes(doc, start, k - 1) else 0
  }

  /** The quoting at `from`: three quotes where three stand, else one. */
  predicate IsQuoting(doc: string, from: nat, q: string) {
    && StartsWith(doc, q, from)
    && (q in {"\"\"\"", "'''"} || (q in {"\"", "'"} && !StartsWith(doc, q + q + q, from)))
  }

  /** The literal read from `start` on stops at `k`: at its quoting or its line's end, not escaped. */
  predicate Stops(doc: string, q: string, start: nat, k: nat) {
    && k < |doc| && Slashes(doc, start, k) % 2 == 0
    && (StartsWith(doc, q, k) || (|q| == 1 && doc[k] == '\n'))
  }

  /** The first place at which the literal stops, or the end of the text. */
  predicate FirstStop(doc: string, q: string, start: nat, stop: nat) {
    && start <= stop <= |doc| && (stop == |doc| || Stops(doc, q, start, stop))
    && forall k :: start <= k < stop ==> !Stops(doc, q, start, k)
  }

  predicate IsClosed(doc: string, from: nat, q: string, to: nat) {
    from + 2 * |q| <= to && FirstStop(doc, q, from + |q|, to - |q|) && StartsWith(doc, q, to - |q|)
  }

  predicate IsOpen(doc: string, from: nat, q: string, to: nat) {
    FirstStop(doc, q, from + |q|, to) && !StartsWith(doc, q, to)
  }

  predicate InWord(doc: string, k: nat)
    requires k < |doc|
  {
    IsWord(doc[k]) || doc[k] in {':', '-'} || (doc[k] == '.' && k + 1 < |doc| && IsWord(doc[k + 1]))
  }

  predicate StartsWord(c: char) {
    IsWord(c) || c in {'?', '$', ':'}
  }

  predicate IsMarkChar(c: char) {
    !IsBlankChar(c) && !StartsWord(c) && c !in {'\\', '#', '<', '"', '\''}
  }

  ghost predicate NoiseShape(doc: string, span: SpanKind, from: nat, to: nat)
    requires from < to <= |doc|
  {
    match span
    case Comment =>
      doc[from] == '#' && (forall k :: from <= k < to ==> doc[k] != '\n') && (to == |doc| || doc[to] == '\n')
    case IriSpan => IsIri(doc, from, to)
    case OpenIri => IsTyped(doc, from, to) && !HasIri(doc, from)
    case StringSpan => exists q: string :: IsQuoting(doc, from, q) && IsClosed(doc, from, q, to)
    case OpenString => exists q: string :: IsQuoting(doc, from, q) && IsOpen(doc, from, q, to)
  }

  ghost predicate TokenShape(doc: string, t: Token)
    requires t.from < t.to <= |doc|
  {
    match t.kind
    case Noise(span) => NoiseShape(doc, span, t.from, t.to)
    case Space => IsBlankChar(doc[t.from]) && t.to == t.from + 1
    case Escape => doc[t.from] == '\\' && (t.to == t.from + 2 || (t.to == t.from + 1 == |doc|))
    case Less => doc[t.from] == '<' && t.to == t.from + 1
    case Word =>
      && StartsWord(doc[t.from]) && (forall k :: t.from < k < t.to ==> InWord(doc, k))
      && (t.to < |doc| ==> !InWord(doc, t.to))
    case Mark => IsMarkChar(doc[t.from]) && t.to == t.from + 1
  }

  // ---- what the tokens before say ----

  function TextOf(doc: string, t: Token): string {
    if t.from <= t.to <= |doc| then doc[t.from..t.to] else ""
  }

  predicate IsMark(doc: string, t: Token, c: char) {
    t.kind == Mark && TextOf(doc, t) == [c]
  }

  predicate IsOperand(doc: string, t: Token, notOperand: set<string>) {
    match t.kind
    case Noise(span) => span != Comment
    case Escape => true
    case Word => !IsKeyword(TextOf(doc, t), notOperand)
    case Mark => TextOf(doc, t) == ")"
    case _ => false
  }

  /** The last token but blanks and comments is an operand. */
  ghost predicate AfterOperand(doc: string, before: seq<Token>, notOperand: set<string>) {
    exists p :: 0 <= p < |before| && IsOperand(doc, before[p], notOperand)
                && forall k :: p < k < |before| ==> before[k].kind in {Space, Noise(Comment)}
  }

  predicate IsValuesWord(doc: string, t: Token) {
    t.kind == Word && IsValues(TextOf(doc, t))
  }

  /** The word VALUES came and its block is not yet open. */
  ghost predicate ValuesAwaited(doc: string, before: seq<Token>) {
    exists p :: 0 <= p < |before| && IsValuesWord(doc, before[p])
                && forall k :: p < k < |before| ==> !IsMark(doc, before[k], '{')
  }

  predicate IsKeywordToken(doc: string, t: Token, notOperand: set<string>) {
    t.kind == Word && IsKeyword(TextOf(doc, t), notOperand)
  }

  /** Tokens that stand between a keyword and its parenthesis without a difference. */
  predicate IsPassed(t: Token) {
    t.kind in {Space, Escape, Less, Noise(Comment), Noise(OpenIri)}
  }

  ghost predicate AfterKeyword(doc: string, before: seq<Token>, notOperand: set<string>) {
    exists p :: 0 <= p < |before| && IsKeywordToken(doc, before[p], notOperand)
                && forall k :: p < k < |before| ==> IsPassed(before[k])
  }

  /** A name of a function: an IRI, or a word that is no keyword and starts as names do. */
  predicate IsFunctionName(doc: string, t: Token, notOperand: set<string>) {
    || t.kind == Noise(IriSpan)
    || (t.kind == Word && t.from < |doc| && (IsNameStart(doc[t.from]) || doc[t.from] == ':')
        && !IsKeyword(TextOf(doc, t), notOperand))
  }

  ghost predicate RightAfterName(doc: string, before: seq<Token>, notOperand: set<string>) {
    before != [] && IsFunctionName(doc, before[|before| - 1], notOperand)
  }

  // ---- brackets ----

  function Level(doc: string, t: Token): int {
    if IsMark(doc, t, '(') || IsMark(doc, t, '{') then 1
    else if IsMark(doc, t, ')') || IsMark(doc, t, '}') then -1
    else 0
  }

  /** Opening minus closing brackets after token `q` and before token `k`. */
  function Depth(doc: string, ts: seq<Token>, q: nat, k: nat): int
    requires q < k <= |ts|
    decreases k
  {
    if k == q + 1 then 0 else Depth(doc, ts, q, k - 1) + Level(doc, ts[k - 1])
  }

  /** The bracket that opens at `q` has not been closed: closing ones never outnumber after it. */
  ghost predicate Encloses(doc: string, before: seq<Token>, q: nat) {
    && q < |before| && Level(doc, before[q]) == 1
    && forall k :: q < k <= |before| ==> Depth(doc, before, q, k) >= 0
  }

  ghost predicate IsInnermost(doc: string, before: seq<Token>, q: nat) {
    Encloses(doc, before, q) && Depth(doc, before, q, |before|) == 0
  }

  /**
   A parenthesis that opens an expression: none of a VALUES clause, and in an expression, or in no
   bracket, or in a group right after a keyword or a function's name.
   */
  ghost predicate OpensExpression(doc: string, before: seq<Token>, t: Token, notOperand: set<string>)
    decreases |before|
  {
    && IsMark(doc, t, '(') && !ValuesAwaited(doc, before)
    && forall q: nat :: IsInnermost(doc, before, q) ==>
         || OpensExpression(doc, before[..q], before[q], notOperand)
         || (IsMark(doc, before[q], '{') && !ValuesAwaited(doc, before[..q])
             && (AfterKeyword(doc, before, notOperand) || RightAfterName(doc, before, notOperand)))
  }

  ghost predicate InExpressionAt(doc: string, before: seq<Token>, notOperand: set<string>) {
    exists q: nat :: IsInnermost(doc, before, q) && OpensExpression(doc, before[..q], before[q], notOperand)
  }

  /** Right after an operand, in the parentheses of an expression: where `<` compares. */
  ghost predicate Compares(doc: string, before: seq<Token>, notOperand: set<string>) {
    AfterOperand(doc, before, notOperand) && InExpressionAt(doc, before, notOperand)
  }

  // ---- how a text is divided ----

  /** The token fits the text and, if it starts with `<`, what stands before it. */
  ghost predicate Fits(doc: string, before: seq<Token>, t: Token, notOperand: set<string>) {
    && t.from < t.to <= |doc| && TokenShape(doc, t)
    && (t.kind == Less ==>
          Compares(doc, before, notOperand) || !(HasIri(doc, t.from) || HasTyped(doc, t.from)))
    && (t.kind in {Noise(IriSpan), Noise(OpenIri)} ==> !Compares(doc, before, notOperand))
  }

  function EndOf(ts: seq<Token>): nat {
    if ts == [] then 0 else ts[|ts| - 1].to
  }

  /** Each token starts where the one before it ends, and fits there. */
  ghost predicate Divides(doc: string, ts: seq<Token>, notOperand: set<string>) {
    forall p :: 0 <= p < |ts| ==> ts[p].from == EndOf(ts[..p]) && Fits(doc, ts[..p], ts[p], notOperand)
  }

  function SpansOf(ts: seq<Token>): seq<Span> {
    if ts == [] then []
    else
      var t := ts[|ts| - 1];
      SpansOf(ts[..|ts| - 1]) + if t.kind.Noise? then [Span(t.kind.span, t.from, t.to)] else []
  }

  /** The tokens of the whole text. */
  ghost predicate Tokenizes(doc: string, ts: seq<Token>, notOperand: set<string>) {
    Divides(doc, ts, notOperand) && EndOf(ts) == |doc|
  }

  lemma DividesSnoc(doc: string, ts: seq<Token>, t: Token, notOperand: set<string>)
    ensures Divides(doc, ts + [t], notOperand) <==>
            Divides(doc, ts, notOperand) && t.from == EndOf(ts) && Fits(doc, ts, t, notOperand)
  {
    var all := ts + [t];
    assert all[..|ts|] == ts && all[|ts|] == t;
    assert forall p :: 0 <= p < |ts| ==> all[..p] == ts[..p] && all[p] == ts[p];
    if Divides(doc, all, notOperand) {
      assert all[|ts|].from == EndOf(all[..|ts|]) && Fits(doc, all[..|ts|], all[|ts|], notOperand);
      forall p | 0 <= p < |ts| ensures ts[p].from == EndOf(ts[..p]) && Fits(doc, ts[..p], ts[p], notOperand) {
        assert all[p].from == EndOf(all[..p]) && Fits(doc, all[..p], all[p], notOperand);
      }
    }
  }

  // ---- a text is divided in one way only ----

  lemma OneStop(doc: string, q: string, start: nat, a: nat, b: nat)
    requires FirstStop(doc, q, start, a) && FirstStop(doc, q, start, b)
    ensures a == b
  {}

  lemma OneQuoting(doc: string, from: nat, q: string, r: string)
    requires IsQuoting(doc, from, q) && IsQuoting(doc, from, r)
    ensures q == r
  {
    assert doc[from..from + |q|][0] == doc[from] && doc[from..from + |r|][0] == doc[from];
    assert q[0] == r[0];
    assert |q| == 3 ==> q == [q[0]] + [q[0]] + [q[0]];
    assert |r| == 3 ==> r == [r[0]] + [r[0]] + [r[0]];
  }

  lemma OneIri(doc: string, from: nat, a: nat, b: nat)
    requires IsIri(doc, from, a) && IsIri(doc, from, b)
    ensures a == b
  {
    assert !IsIriChar(doc[a - 1]) && !IsIriChar(doc[b - 1]);
  }

  /** The literal with this quoting, closed or not. */
  predicate IsLiteral(doc: string, from: nat, q: string, closed: bool, to: nat) {
    if closed then IsClosed(doc, from, q, to) else IsOpen(doc, from, q, to)
  }

  lemma OneEnd(doc: string, from: nat, q: string, closed: bool, to: nat, closed': bool, to': nat)
    requires IsLiteral(doc, from, q, closed, to) && IsLiteral(doc, from, q, closed', to')
    ensures closed == closed' && to == to'
  {
    OneStop(doc, q, from + |q|, if closed then to - |q| else to, if closed' then to' - |q| else to');
  }

  lemma LiteralOf(doc: string, t: Token) returns (q: string)
    requires t.from < t.to <= |doc| && t.kind in {Noise(StringSpan), Noise(OpenString)} && TokenShape(doc, t)
    ensures IsQuoting(doc, t.from, q) && IsLiteral(doc, t.from, q, t.kind.span == StringSpan, t.to)
  {
    if t.kind.span == StringSpan {
      q :| IsQuoting(doc, t.from, q) && IsClosed(doc, t.from, q, t.to);
    } else {
      q :| IsQuoting(doc, t.from, q) && IsOpen(doc, t.from, q, t.to);
    }
  }

  lemma OneLiteral(doc: string, t: Token, u: Token)
    requires t.from == u.from && t.from < t.to <= |doc| && u.from < u.to <= |doc|
    requires t.kind in {Noise(StringSpan), Noise(OpenString)} && u.kind in {Noise(StringSpan), Noise(OpenString)}
    requires TokenShape(doc, t) && TokenShape(doc, u)
    ensures t == u
  {
    var q := LiteralOf(doc, t);
    var r := LiteralOf(doc, u);
    OneQuoting(doc, t.from, q, r);
    OneEnd(doc, t.from, q, t.kind.span == StringSpan, t.to, u.kind.span == StringSpan, u.to);
  }

  /** The first character says what may be read. */
  predicate KindFits(c: char, kind: Kind) {
    match kind
    case Noise(span) =>
      (match span
       case Comment => c == '#'
       case IriSpan => c == '<'
       case OpenIri => c == '<'
       case StringSpan => c in {'"', '\''}
       case OpenString => c in {'"', '\''})
    case Space => IsBlankChar(c)
    case Escape => c == '\\'
    case Less => c == '<'
    case Word => StartsWord(c)
    case Mark => IsMarkChar(c)
  }

  lemma TokenStarts(doc: string, t: Token)
    requires t.from < t.to <= |doc| && TokenShape(doc, t)
    ensures KindFits(doc[t.from], t.kind)
  {
    if t.kind in {Noise(StringSpan), Noise(OpenString)} {
      var q := LiteralOf(doc, t);
      assert doc[t.from..t.from + |q|][0] == doc[t.from];
    }
  }

  lemma KindsApart(c: char, kind: Kind, other: Kind)
    requires KindFits(c, kind) && KindFits(c, other)
    ensures kind == other || (c == '<' && kind in {Less, Noise(IriSpan), Noise(OpenIri)})
            || (c in {'"', '\''} && kind in {Noise(StringSpan), Noise(OpenString)})
    ensures c == '<' ==> other in {Less, Noise(IriSpan), Noise(OpenIri)}
    ensures c in {'"', '\''} ==> other in {Noise(StringSpan), Noise(OpenString)}
  {}

  /** Tokens of one kind that is neither a literal nor a reference. */
  lemma OnePlain(doc: string, t: Token, u: Token)
    requires t.from == u.from && t.from < t.to <= |doc| && u.from < u.to <= |doc| && t.kind == u.kind
    requires t.kind in {Noise(Comment), Space, Escape, Word, Mark} && TokenShape(doc, t) && TokenShape(doc, u)
    ensures t == u
  {}

  lemma OneAngle(doc: string, before: seq<Token>, t: Token, u: Token, notOperand: set<string>)
    requires Fits(doc, before, t, notOperand) && Fits(doc, before, u, notOperand) && t.from == u.from
    requires doc[t.from] == '<' && t.kind in {Less, Noise(IriSpan), Noise(OpenIri)}
    requires u.kind in {Less, Noise(IriSpan), Noise(OpenIri)}
    ensures t == u
  {
    if t.kind == Noise(IriSpan) && u.kind == Noise(IriSpan) { OneIri(doc, t.from, t.to, u.to); }
  }

  lemma OneToken(doc: string, before: seq<Token>, t: Token, u: Token, notOperand: set<string>)
    requires Fits(doc, before, t, notOperand) && Fits(doc, before, u, notOperand) && t.from == u.from
    ensures t == u
  {
    var c := doc[t.from];
    TokenStarts(doc, t);
    TokenStarts(doc, u);
    KindsApart(c, t.kind, u.kind);
    KindsApart(c, u.kind, t.kind);
    if c in {'"', '\''} {
      OneLiteral(doc, t, u);
    } else if c == '<' {
      OneAngle(doc, before, t, u, notOperand);
    } else {
      OnePlain(doc, t, u);
    }
  }

  /** A text has one tokenization at most. */
  lemma {:induction false} OneTokenization(doc: string, ts: seq<Token>, us: seq<Token>, notOperand: set<string>)
    requires Tokenizes(doc, ts, notOperand) && Tokenizes(doc, us, notOperand)
    ensures ts == us
  {
    var n := if |ts| < |us| then |ts| else |us|;
    SamePrefix(doc, ts, us, n, notOperand);
    NoneLeft(doc, ts, n, notOperand);
    NoneLeft(doc, us, n, notOperand);
    assert ts[..n] == us[..n];
  }

  lemma {:induction false} SamePrefix(doc: string, ts: seq<Token>, us: seq<Token>, n: nat, notOperand: set<string>)
    requires Divides(doc, ts, notOperand) && Divides(doc, us, notOperand) && n <= |ts| && n <= |us|
    ensures ts[..n] == us[..n]
  {
    if n > 0 {
      SamePrefix(doc, ts, us, n - 1, notOperand);
      SameToken(doc, ts, us, n - 1, notOperand);
      PrefixOnward(ts, us, n - 1);
    }
  }

  lemma PrefixOnward(ts: seq<Token>, us: seq<Token>, n: nat)
    requires n < |ts| && n < |us| && ts[..n] == us[..n] && ts[n] == us[n]
    ensures ts[..n + 1] == us[..n + 1]
  {
    assert ts[..n + 1] == ts[..n] + [ts[n]] && us[..n + 1] == us[..n] + [us[n]];
  }

  lemma SameToken(doc: string, ts: seq<Token>, us: seq<Token>, n: nat, notOperand: set<string>)
    requires Divides(doc, ts, notOperand) && Divides(doc, us, notOperand) && n < |ts| && n < |us|
    requires ts[..n] == us[..n]
    ensures ts[n] == us[n]
  {
    OneToken(doc, ts[..n], ts[n], us[n], notOperand);
  }

  /** Tokens that reach the end have none after the place where another tokenization ended. */
  lemma NoneLeft(doc: string, ts: seq<Token>, n: nat, notOperand: set<string>)
    requires Divides(doc, ts, notOperand) && n <= |ts|
    ensures n < |ts| ==> EndOf(ts[..n]) < EndOf(ts)
    ensures EndOf(ts[..n]) <= EndOf(ts)
    ensures n == |ts| ==> ts[..n] == ts
  {
    if n < |ts| { EndsOnward(doc, ts, n, notOperand); }
    else { assert ts[..n] == ts; }
  }

  lemma {:induction false} EndsOnward(doc: string, ts: seq<Token>, n: nat, notOperand: set<string>)
    requires Divides(doc, ts, notOperand) && n < |ts|
    ensures EndOf(ts[..n]) < EndOf(ts) <= |doc|
    decreases |ts| - n
  {
    assert Fits(doc, ts[..n], ts[n], notOperand);
    assert EndOf(ts[..n + 1]) == ts[n].to;
    assert ts[..|ts|] == ts;
    if n + 1 < |ts| { EndsOnward(doc, ts, n + 1, notOperand); }
  }
}
