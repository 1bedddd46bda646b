/**
 Seed rows as text: the trailing VALUES block a partition's query is given, and a reader for
 that block (sections 10.2 and 19.8 of SPARQL 1.1 Query Language) that undoes the printer.
 */
module SeedRows {
  import opened Collections
  import opened Decimals

  // ---- seed cells, and what they mean ----

  /** A seed value: an RDF term, a SPARQL JSON binding, or a Python scalar. */
  datatype Cell =
    | Missing
    | UriRef(iri: string)
    | Literal(lexical: string, datatypeIri: Option<string>, language: string)
    | Json(kind: string, value: string, jsonDatatype: string, xmlLang: string, lang: string)
    | Boolean(truth: bool)
    | Integer(i: int)
    | Float(repr: string)
    | Text(text: string)
    | Foreign

  datatype Term =
    | Undef
    | Iri(iri: string)
    | Plain(lexical: string)
    | Typed(lexical: string, datatypeIri: string)
    | Tagged(lexical: string, tag: string)
    | Bool(truth: bool)
    | Number(numeral: string)

  datatype Error = NoVariable | UnsafeIri(iri: string) | UnsupportedKind(kind: string) | UnsupportedType
  datatype Result<T> = Ok(value: T) | Err(error: Error)

  function IntText(i: int): string {
    if i < 0 then "-" + Dec(-i) else Dec(i)
  }

  /** The term a cell stands for, or why it stands for none. */
  function Meant(c: Cell): Result<Term> {
    match c
    case Missing => Ok(Undef)
    case UriRef(iri) => Ok(Iri(iri))
    case Literal(s, dt, tag) =>
      Ok(if dt.Some? then Typed(s, dt.value) else if tag != "" then Tagged(s, tag) else Plain(s))
    case Json(kind, s, dt, xmlLang, lang) =>
      if kind == "uri" then Ok(Iri(s))
      else if kind != "literal" && kind != "typed-literal" then Err(UnsupportedKind(kind))
      else if dt != "" then Ok(Typed(s, dt))
      else if xmlLang != "" then Ok(Tagged(s, xmlLang))
      else if lang != "" then Ok(Tagged(s, lang))
      else Ok(Plain(s))
    case Boolean(b) => Ok(Bool(b))
    case Integer(i) => Ok(Number(IntText(i)))
    case Float(repr) => Ok(Number(repr))
    case Text(s) => Ok(Plain(s))
    case Foreign => Err(UnsupportedType)
  }

  // ---- the printer ----

  /** Python's white space. */
  predicate IsSpace(c: char) {
    || '\t' <= c <= '\r' || '\U{1c}' <= c <= ' ' || c == '\U{85}' || c == '\U{a0}' || c == '\U{1680}'
    || '\U{2000}' <= c <= '\U{200a}' || c == '\U{2028}' || c == '\U{2029}' || c == '\U{202f}' || c == '\U{205f}'
    || c == '\U{3000}'
  }

  predicate IsUnsafe(c: char) {
    IsSpace(c) || c in {'<', '>', '"', '{', '}', '|', '^', '`', '\\'}
  }

  predicate HasUnsafe(iri: string) {
    exists k :: 0 <= k < |iri| && IsUnsafe(iri[k])
  }

  function IriText(iri: string): Result<string> {
    if HasUnsafe(iri) then Err(UnsafeIri(iri)) else Ok("<" + iri + ">")
  }

  /** Python's str.replace of one character. */
  function Replace(s: string, c: char, to: string): string {
    if s == "" then "" else (if s[0] == c then to else [s[0]]) + Replace(s[1..], c, to)
  }

  function FiveReplaced(s: string): string {
    Replace(Replace(Replace(Replace(Replace(s, '\\', "\\\\"), '"', "\\\""), '\n', "\\n"), '\r', "\\r"), '\t', "\\t")
  }

  function EscapeLiteral(s: string): string {
    "\"" + FiveReplaced(s) + "\""
  }

  function WithDatatype(s: string, iri: string): Result<string> {
    match IriText(iri) case Ok(t) => Ok(EscapeLiteral(s) + "^^" + t) case Err(e) => Err(e)
  }

  function TermText(c: Cell): Result<string> {
    match c
    case Missing => Ok("UNDEF")
    case UriRef(iri) => IriText(iri)
    case Literal(s, dt, tag) =>
      if dt.Some? then WithDatatype(s, dt.value)
      else if tag != "" then Ok(EscapeLiteral(s) + "@" + tag)
      else Ok(EscapeLiteral(s))
    case Json(kind, s, dt, xmlLang, lang) =>
      if kind == "uri" then IriText(s)
      else if kind == "literal" || kind == "typed-literal" then
        var tag := if xmlLang != "" then xmlLang else lang;
        if dt != "" then WithDatatype(s, dt)
        else if tag != "" then Ok(EscapeLiteral(s) + "@" + tag)
        else Ok(EscapeLiteral(s))
      else Err(UnsupportedKind(kind))
    case Boolean(b) => Ok(if b then "true" else "false")
    case Integer(i) => Ok(IntText(i))
    case Float(repr) => Ok(repr)
    case Text(s) => Ok(EscapeLiteral(s))
    case Foreign => Err(UnsupportedType)
  }

  // ---- the reader ----

  datatype Read<T> = Read(value: T, rest: string)

  predicate IsWs(c: char) {
    c == ' ' || c == '\t' || c == '\r' || c == '\n'
  }

  function SkipWs(s: string): (r: string)
    ensures |r| <= |s|
  {
    if s != "" && IsWs(s[0]) then SkipWs(s[1..]) else s
  }

  /** IRIREF [139]. */
  predicate IsIriChar(c: char) {
    c > ' ' && c !in {'<', '>', '"', '{', '}', '|', '^', '`', '\\'}
  }

  /** The rest of an IRIREF, `sofar` read. */
  function ReadIri(s: string, sofar: string): (r: Option<Read<string>>)
    ensures r.Some? ==> |r.value.rest| < |s|
    decreases |s|
  {
    if s == "" then None
    else if s[0] == '>' then Some(Read(sofar, s[1..]))
    else if IsIriChar(s[0]) then ReadIri(s[1..], sofar + [s[0]])
    else None
  }

  /** ECHAR [160]. */
  function Unescaped(c: char): Option<char> {
    match c
    case 't' => Some('\t')
    case 'b' => Some('\U{8}')
    case 'n' => Some('\n')
    case 'r' => Some('\r')
    case 'f' => Some('\U{c}')
    case '\\' => Some('\\') case '"' => Some('"') case '\'' => Some('\'')
    case _ => None
  }

  /** The rest of a STRING_LITERAL2 [157], `sofar` read. */
  function ReadString(s: string, sofar: string): (r: Option<Read<string>>)
    ensures r.Some? ==> |r.value.rest| < |s|
    decreases |s|
  {
    if s == "" || s[0] == '\n' || s[0] == '\r' then None
    else if s[0] == '"' then Some(Read(sofar, s[1..]))
    else if s[0] != '\\' then ReadString(s[1..], sofar + [s[0]])
    else if |s| == 1 || Unescaped(s[1]).None? then None
    else ReadString(s[2..], sofar + [Unescaped(s[1]).value])
  }

  predicate IsTagChar(c: char) {
    'a' <= c <= 'z' || 'A' <= c <= 'Z' || '0' <= c <= '9' || c == '-'
  }

  predicate IsNumeralChar(c: char) {
    IsDigit(c) || c in {'+', '-', '.', 'e', 'E'}
  }

  /** The run of characters that satisfy the test. */
  function Run(s: string, test: char -> bool): (n: nat)
    ensures n <= |s|
  {
    if s != "" && test(s[0]) then 1 + Run(s[1..], test) else 0
  }

  function Unsigned(s: string): string {
    if s != "" && s[0] in {'+', '-'} then s[1..] else s
  }

  /** EXPONENT [155]. */
  predicate IsExponent(s: string) {
    s != "" && s[0] in {'e', 'E'} && Unsigned(s[1..]) != "" && AllDigits(Unsigned(s[1..]))
  }

  /** What follows the digits of a numeral: nothing, a fraction, an exponent, or both. */
  predicate IsFraction(s: string, whole: bool) {
    if s == "" then whole
    else if s[0] == '.' then
      var n := Run(s[1..], IsDigit);
      if s[1..][n..] == "" then n > 0 else (whole || n > 0) && IsExponent(s[1..][n..])
    else whole && IsExponent(s)
  }

  /** INTEGER, DECIMAL and DOUBLE, with and without a sign [146-154]. */
  predicate IsNumeral(s: string) {
    && (forall k :: 0 <= k < |s| ==> IsNumeralChar(s[k]))
    && var t := Unsigned(s);
       IsFraction(t[Run(t, IsDigit)..], Run(t, IsDigit) > 0)
  }

  /** LANGTAG [145], without the at sign. */
  predicate IsTag(tag: string) {
    && tag != "" && (forall k :: 0 <= k < |tag| ==> IsTagChar(tag[k]))
    && !IsDigit(tag[0]) && tag[0] != '-' && tag[|tag| - 1] != '-'
    && (forall k :: 0 <= k < |tag| - 1 ==> tag[k] == '-' ==> tag[k + 1] != '-')
    && (forall k :: 0 <= k < |tag| && IsDigit(tag[k]) ==> '-' in tag[..k])
  }

  /** What follows a literal's text: its datatype, its tag, or neither. */
  function ReadSuffix(lexical: string, rest: string): (r: Option<Read<Term>>)
    ensures r.Some? ==> |r.value.rest| <= |rest|
  {
    if |rest| >= 3 && rest[..3] == "^^<" then
      (match ReadIri(rest[3..], "")
       case None => None
       case Some(Read(iri, after)) => Some(Read(Typed(lexical, iri), after)))
    else if rest != "" && rest[0] == '@' then
      var n := Run(rest[1..], IsTagChar);
      if IsTag(rest[1..][..n]) then Some(Read(Tagged(lexical, rest[1..][..n]), rest[1..][n..])) else None
    else Some(Read(Plain(lexical), rest))
  }

  function ReadLiteral(s: string): (r: Option<Read<Term>>)
    ensures r.Some? ==> |r.value.rest| < |s|
  {
    match ReadString(s, "") case None => None case Some(Read(lexical, rest)) => ReadSuffix(lexical, rest)
  }

  predicate Starts(s: string, p: string) {
    |p| <= |s| && s[..|p|] == p
  }

  lemma NumeralNotEmpty()
    ensures !IsNumeral("")
  {}

  /** DataBlockValue [65]: a term or UNDEF. A triple quote opens a long literal, which the printer never writes. */
  function ReadTerm(s: string): (r: Option<Read<Term>>)
    ensures r.Some? ==> |r.value.rest| < |s|
  {
    NumeralNotEmpty();
    if s == "" then None
    else if s[0] == '<' then
      (match ReadIri(s[1..], "") case None => None case Some(Read(iri, rest)) => Some(Read(Iri(iri), rest)))
    else if s[0] == '"' then (if Starts(s, "\"\"\"") then None else ReadLiteral(s[1..]))
    else if Starts(s, "UNDEF") then Some(Read(Undef, s[5..]))
    else if Starts(s, "true") then Some(Read(Bool(true), s[4..]))
    else if Starts(s, "false") then Some(Read(Bool(false), s[5..]))
    else
      var n := Run(s, IsNumeralChar);
      if IsNumeral(s[..n]) then Some(Read(Number(s[..n]), s[n..])) else None
  }

  // ---- escaping ----

  function Escape(c: char): string {
    match c
    case '\\' => "\\\\" case '"' => "\\\"" case '\n' => "\\n" case '\r' => "\\r" case '\t' => "\\t"
    case _ => [c]
  }

  function Escaped(s: string): string {
    if s == "" then "" else Escape(s[0]) + Escaped(s[1..])
  }

  lemma {:induction false} ReplaceAppend(a: string, b: string, c: char, to: string)
    ensures Replace(a + b, c, to) == Replace(a, c, to) + Replace(b, c, to)
  {
    if a == "" {
      assert a + b == b;
    } else {
      assert (a + b)[1..] == a[1..] + b;
      ReplaceAppend(a[1..], b, c, to);
    }
  }

  lemma FiveAppend(a: string, b: string)
    ensures FiveReplaced(a + b) == FiveReplaced(a) + FiveReplaced(b)
  {
    ReplaceAppend(a, b, '\\', "\\\\");
    var a1, b1 := Replace(a, '\\', "\\\\"), Replace(b, '\\', "\\\\");
    ReplaceAppend(a1, b1, '"', "\\\"");
    var a2, b2 := Replace(a1, '"', "\\\""), Replace(b1, '"', "\\\"");
    ReplaceAppend(a2, b2, '\n', "\\n");
    var a3, b3 := Replace(a2, '\n', "\\n"), Replace(b2, '\n', "\\n");
    ReplaceAppend(a3, b3, '\r', "\\r");
    ReplaceAppend(Replace(a3, '\r', "\\r"), Replace(b3, '\r', "\\r"), '\t', "\\t");
  }

  lemma ReplaceOne(x: char, c: char, to: string)
    ensures Replace([x], c, to) == if x == c then to else [x]
  {
    assert [x][1..] == "";
  }

  lemma ReplaceTwo(x: char, y: char, c: char, to: string)
    requires x != c && y != c
    ensures Replace([x, y], c, to) == [x, y]
  {
    assert [x, y][1..] == [y];
    ReplaceOne(y, c, to);
  }

  /** No later replacement touches what an earlier one wrote. */
  lemma FiveOfOne(c: char)
    ensures FiveReplaced([c]) == Escape(c)
  {
    ReplaceOne(c, '\\', "\\\\");
    ReplaceOne(c, '"', "\\\"");
    ReplaceOne(c, '\n', "\\n");
    ReplaceOne(c, '\r', "\\r");
    ReplaceOne(c, '\t', "\\t");
    ReplaceTwo('\\', '\\', '"', "\\\"");
    ReplaceTwo('\\', '\\', '\n', "\\n");
    ReplaceTwo('\\', '\\', '\r', "\\r");
    ReplaceTwo('\\', '\\', '\t', "\\t");
    ReplaceTwo('\\', '"', '\n', "\\n");
    ReplaceTwo('\\', '"', '\r', "\\r");
    ReplaceTwo('\\', '"', '\t', "\\t");
    ReplaceTwo('\\', 'n', '\r', "\\r");
    ReplaceTwo('\\', 'n', '\t', "\\t");
    ReplaceTwo('\\', 'r', '\t', "\\t");
  }

  /** The five replacements, one after the other, are one pass. */
  lemma {:induction false} FiveIsOnePass(s: string)
    ensures FiveReplaced(s) == Escaped(s)
  {
    if s != "" {
      FiveAppend([s[0]], s[1..]);
      assert [s[0]] + s[1..] == s;
      FiveOfOne(s[0]);
      FiveIsOnePass(s[1..]);
    }
  }

  lemma ReadEscape(c: char, rest: string, sofar: string)
    ensures ReadString(Escape(c) + rest, sofar) == ReadString(rest, sofar + [c])
  {
    var t := Escape(c) + rest;
    if |Escape(c)| == 1 { assert t[1..] == rest; } else { assert t[2..] == rest; }
  }

  lemma {:induction false} ReadEscaped(s: string, rest: string, sofar: string)
    ensures ReadString(Escaped(s) + "\"" + rest, sofar) == Some(Read(sofar + s, rest))
    decreases |s|
  {
    if s == "" {
      assert (Escaped(s) + "\"" + rest)[1..] == rest && sofar + s == sofar;
    } else {
      var tail := Escaped(s[1..]) + "\"" + rest;
      assert Escaped(s) + "\"" + rest == Escape(s[0]) + tail;
      ReadEscape(s[0], tail, sofar);
      ReadEscaped(s[1..], rest, sofar + [s[0]]);
      assert sofar + [s[0]] + s[1..] == sofar + s;
    }
  }

  /** A printed literal, and nothing after it taken for its datatype or its tag. */
  lemma LiteralReadBack(s: string, rest: string)
    ensures ReadString((EscapeLiteral(s) + rest)[1..], "") == Some(Read(s, rest))
    ensures rest != "" && rest[0] != '"'
         ==> (EscapeLiteral(s) + rest)[0] == '"' && !Starts(EscapeLiteral(s) + rest, "\"\"\"")
  {
    FiveIsOnePass(s);
    ReadEscaped(s, rest, "");
    assert "" + s == s;
    assert (EscapeLiteral(s) + rest)[1..] == Escaped(s) + "\"" + rest;
    var t := EscapeLiteral(s) + rest;
    assert Starts(t, "\"\"\"") ==> t[1] == t[..3][1] && t[2] == t[..3][2];
    if s != "" { assert t[1] == Escape(s[0])[0]; }
  }

  // ---- IRIs ----

  /** White space aside, the guard lets control characters through; IRIREF does not. */
  predicate HasControl(iri: string) {
    exists k :: 0 <= k < |iri| && iri[k] <= ' '
  }

  lemma {:induction false} IriReadBack(iri: string, rest: string, sofar: string)
    requires !HasUnsafe(iri)
    ensures ReadIri(iri + ">" + rest, sofar) == if HasControl(iri) then None else Some(Read(sofar + iri, rest))
    decreases |iri|
  {
    var t := iri + ">" + rest;
    if iri == "" {
      assert t[1..] == rest && sofar + iri == sofar;
    } else {
      assert t[1..] == iri[1..] + ">" + rest && !IsUnsafe(iri[0]);
      assert forall k :: 0 <= k < |iri[1..]| ==> iri[1..][k] == iri[k + 1];
      IriReadBack(iri[1..], rest, sofar + [iri[0]]);
      assert sofar + [iri[0]] + iri[1..] == sofar + iri;
      assert HasControl(iri) <==> iri[0] <= ' ' || HasControl(iri[1..]);
    }
  }

  /** An IRI the guard accepts reads back if and only if it has no control character. */
  lemma IriRoundTrip(iri: string, rest: string)
    requires IriText(iri).Ok?
    ensures ReadTerm(IriText(iri).value + rest) == Some(Read(Iri(iri), rest)) <==> !HasControl(iri)
  {
    var t := IriText(iri).value + rest;
    assert t[1..] == iri + ">" + rest;
    IriReadBack(iri, rest, "");
    assert "" + iri == iri;
  }

  // ---- a cell ----

  /** IRIs free of control characters, tags well-formed, numbers finite. */
  predicate WellFormed(t: Term) {
    match t
    case Iri(iri) => !HasControl(iri)
    case Typed(_, iri) => !HasControl(iri)
    case Tagged(_, tag) => IsTag(tag)
    case Number(numeral) => IsNumeral(numeral)
    case _ => true
  }

  /** Where a term ends in a row. */
  predicate Delimited(rest: string) {
    rest != "" && (rest[0] == ' ' || rest[0] == ')')
  }

  lemma {:induction false} RunOf(s: string, rest: string, test: char -> bool)
    requires (forall k :: 0 <= k < |s| ==> test(s[k])) && (rest == "" || !test(rest[0]))
    ensures Run(s + rest, test) == |s|
    decreases |s|
  {
    if s == "" {
      assert s + rest == rest;
    } else {
      assert (s + rest)[1..] == s[1..] + rest;
      RunOf(s[1..], rest, test);
    }
  }

  lemma LiteralTermRead(s: string, after: string)
    requires after != "" && after[0] != '"'
    ensures ReadTerm(EscapeLiteral(s) + after) == ReadSuffix(s, after)
  {
    LiteralReadBack(s, after);
  }

  lemma PlainReadBack(s: string, rest: string)
    requires Delimited(rest)
    ensures ReadTerm(EscapeLiteral(s) + rest) == Some(Read(Plain(s), rest))
  {
    LiteralTermRead(s, rest);
    assert |rest| >= 3 ==> rest[..3][0] == rest[0];
  }

  lemma TypedSuffix(s: string, iri: string, rest: string)
    requires !HasUnsafe(iri) && !HasControl(iri)
    ensures ReadSuffix(s, "^^<" + (iri + ">" + rest)) == Some(Read(Typed(s, iri), rest))
  {
    var after := "^^<" + (iri + ">" + rest);
    assert after[..3] == "^^<" && after[3..] == iri + ">" + rest;
    IriReadBack(iri, rest, "");
    assert "" + iri == iri;
  }

  lemma TypedReadBack(s: string, iri: string, rest: string)
    requires !HasUnsafe(iri) && !HasControl(iri)
    ensures ReadTerm(EscapeLiteral(s) + "^^" + ("<" + iri + ">") + rest) == Some(Read(Typed(s, iri), rest))
  {
    var after := "^^<" + (iri + ">" + rest);
    assert EscapeLiteral(s) + "^^" + ("<" + iri + ">") + rest == EscapeLiteral(s) + after;
    LiteralTermRead(s, after);
    TypedSuffix(s, iri, rest);
  }

  lemma TagSuffix(s: string, tag: string, rest: string)
    requires IsTag(tag) && Delimited(rest)
    ensures ReadSuffix(s, "@" + (tag + rest)) == Some(Read(Tagged(s, tag), rest))
  {
    var after := "@" + (tag + rest);
    assert after[1..] == tag + rest;
    assert |after| >= 3 ==> after[..3][0] == '@';
    RunOf(tag, rest, IsTagChar);
    assert (tag + rest)[..|tag|] == tag && (tag + rest)[|tag|..] == rest;
  }

  lemma TaggedReadBack(s: string, tag: string, rest: string)
    requires IsTag(tag) && Delimited(rest)
    ensures ReadTerm(EscapeLiteral(s) + "@" + tag + rest) == Some(Read(Tagged(s, tag), rest))
  {
    var after := "@" + (tag + rest);
    assert EscapeLiteral(s) + "@" + tag + rest == EscapeLiteral(s) + after;
    LiteralTermRead(s, after);
    TagSuffix(s, tag, rest);
  }

  /** A numeral starts no other kind of term; an exponent sign is no `true`, `false` or UNDEF. */
  lemma NumeralIsNoWord(t: string)
    requires t != "" && IsNumeralChar(t[0])
    ensures t[0] != '<' && t[0] != '"' && !Starts(t, "UNDEF") && !Starts(t, "true") && !Starts(t, "false")
  {
    assert |t| >= 5 ==> t[..5][0] == t[0];
    assert |t| >= 4 ==> t[..4][0] == t[0];
  }

  lemma NumberRead(t: string, numeral: string, rest: string)
    requires t != "" && IsNumeralChar(t[0]) && Run(t, IsNumeralChar) == |numeral|
    requires IsNumeral(numeral) && |numeral| <= |t| && t[..|numeral|] == numeral && t[|numeral|..] == rest
    ensures ReadTerm(t) == Some(Read(Number(numeral), rest))
  {
    NumeralIsNoWord(t);
  }

  lemma NumeralChars(numeral: string)
    requires IsNumeral(numeral)
    ensures numeral != "" && forall k :: 0 <= k < |numeral| ==> IsNumeralChar(numeral[k])
  {
    NumeralNotEmpty();
  }

  lemma NumberReadBack(numeral: string, rest: string)
    requires IsNumeral(numeral) && Delimited(rest)
    ensures ReadTerm(numeral + rest) == Some(Read(Number(numeral), rest))
  {
    var t := numeral + rest;
    NumeralChars(numeral);
    RunOf(numeral, rest, IsNumeralChar);
    assert t[0] == numeral[0] && t[..|numeral|] == numeral && t[|numeral|..] == rest;
    NumberRead(t, numeral, rest);
  }

  lemma WordReadBack(b: bool, rest: string)
    ensures ReadTerm("UNDEF" + rest) == Some(Read(Undef, rest))
    ensures ReadTerm((if b then "true" else "false") + rest) == Some(Read(Bool(b), rest))
  {
    assert ("UNDEF" + rest)[..5] == "UNDEF" && ("UNDEF" + rest)[5..] == rest;
    var w := if b then "true" else "false";
    assert (w + rest)[..|w|] == w && (w + rest)[|w|..] == rest && (w + rest)[0] == w[0];
    assert |w + rest| >= 5 ==> (w + rest)[..5][0] == w[0];
    if !b { assert (w + rest)[..4][0] == w[0]; }
  }

  /** A cell prints exactly when it stands for a term and its IRIs pass the guard. */
  predicate Accepted(t: Term) {
    match t case Iri(iri) => !HasUnsafe(iri) case Typed(_, iri) => !HasUnsafe(iri) case _ => true
  }

  function TermSource(t: Term): string {
    match t
    case Undef => "UNDEF"
    case Iri(iri) => "<" + iri + ">"
    case Plain(s) => EscapeLiteral(s)
    case Typed(s, iri) => EscapeLiteral(s) + "^^" + ("<" + iri + ">")
    case Tagged(s, tag) => EscapeLiteral(s) + "@" + tag
    case Bool(b) => if b then "true" else "false"
    case Number(n) => n
  }

  lemma PrintedExactly(c: Cell)
    ensures TermText(c).Ok? <==> Meant(c).Ok? && Accepted(Meant(c).value)
    ensures TermText(c).Ok? ==> TermText(c).value == TermSource(Meant(c).value)
  {}

  lemma {:induction false} IriReadIsClean(s: string, sofar: string)
    requires ReadIri(s, sofar).Some? && !HasControl(sofar)
    ensures !HasControl(ReadIri(s, sofar).value.value)
    decreases |s|
  {
    if s[0] != '>' { IriReadIsClean(s[1..], sofar + [s[0]]); }
  }

  lemma SuffixReadIsWellFormed(lexical: string, rest: string)
    requires ReadSuffix(lexical, rest).Some?
    ensures WellFormed(ReadSuffix(lexical, rest).value.value)
  {
    if |rest| >= 3 && rest[..3] == "^^<" { IriReadIsClean(rest[3..], ""); }
  }

  /** The reader reads well-formed terms only. */
  lemma TermReadIsWellFormed(s: string)
    requires ReadTerm(s).Some?
    ensures WellFormed(ReadTerm(s).value.value)
  {
    if s[0] == '<' {
      IriReadIsClean(s[1..], "");
    } else if s[0] == '"' {
      var r := ReadString(s[1..], "").value;
      SuffixReadIsWellFormed(r.value, r.rest);
    }
  }

  lemma WellFormedReadBack(t: Term, rest: string)
    requires Accepted(t) && WellFormed(t) && Delimited(rest)
    ensures ReadTerm(TermSource(t) + rest) == Some(Read(t, rest))
  {
    match t {
      case Undef => WordReadBack(true, rest);
      case Iri(iri) => IriRoundTrip(iri, rest);
      case Plain(s) => PlainReadBack(s, rest);
      case Typed(s, iri) => TypedReadBack(s, iri, rest);
      case Tagged(s, tag) => TaggedReadBack(s, tag, rest);
      case Bool(b) => WordReadBack(b, rest);
      case Number(n) => NumberReadBack(n, rest);
    }
  }

  /**
   A printed cell reads back as the term it stands for if and only if that term is well-formed:
   the printer checks neither control characters, nor language tags, nor that a float is a number.
   */
  lemma CellRoundTrip(c: Cell, rest: string)
    requires TermText(c).Ok? && Delimited(rest)
    ensures ReadTerm(TermText(c).value + rest) == Some(Read(Meant(c).value, rest)) <==> WellFormed(Meant(c).value)
  {
    PrintedExactly(c);
    if WellFormed(Meant(c).value) {
      WellFormedReadBack(Meant(c).value, rest);
    } else if ReadTerm(TermText(c).value + rest).Some? {
      TermReadIsWellFormed(TermText(c).value + rest);
    }
  }

  /** Every Python integer is a numeral, and no two the same. */
  lemma IntegersAreNumerals(i: int, j: int)
    ensures IsNumeral(IntText(i)) && (IntText(i) == IntText(j) ==> i == j)
  {
    DecReadsBack(if i < 0 then -i else i);
    DecReadsBack(if j < 0 then -j else j);
    assert forall k: nat :: AllDigits(Dec(k));
    if i < 0 { assert IntText(i)[1..] == Dec(-i); }
    if j < 0 { assert IntText(j)[1..] == Dec(-j); }
    DigitsAreNumeral(IntText(i), Dec(if i < 0 then -i else i));
  }

  lemma DigitsAreNumeral(s: string, digits: string)
    requires digits != "" && AllDigits(digits) && (s == digits || s == "-" + digits)
    ensures IsNumeral(s)
  {
    assert Unsigned(s) == digits;
    RunOf(digits, "", IsDigit);
    assert digits + "" == digits && digits[|digits|..] == "";
  }

  // ---- rows ----

  /** A row's items in order: keys as given, with or without the question mark. */
  type Row = seq<(string, Cell)>

  /** Python's lstrip of the question mark. */
  function Bare(key: string): (name: string)
    ensures name != "" ==> name[0] != '?'
  {
    if key != "" && key[0] == '?' then Bare(key[1..]) else key
  }

  /** The last item whose key is this variable. */
  function Lookup(row: Row, name: string): (c: Cell)
    ensures (forall k :: 0 <= k < |row| ==> Bare(row[k].0) != name) ==> c == Missing
    decreases |row|
  {
    if row == [] then Missing
    else if Bare(row[|row| - 1].0) == name then row[|row| - 1].1
    else Lookup(row[..|row| - 1], name)
  }

  // ---- the header ----

  /** Order by code points. */
  predicate Less(a: string, b: string) {
    b != "" && (a == "" || a[0] < b[0] || (a[0] == b[0] && Less(a[1..], b[1..])))
  }

  lemma {:induction false} LessTotal(a: string, b: string)
    ensures a == b || Less(a, b) || Less(b, a)
  {
    if a != "" && b != "" && a[0] == b[0] {
      LessTotal(a[1..], b[1..]);
      assert a[1..] == b[1..] ==> a == [a[0]] + a[1..] == [b[0]] + b[1..] == b;
    }
  }

  lemma {:induction false} LessTransitive(a: string, b: string, c: string)
    requires Less(a, b) && Less(b, c)
    ensures Less(a, c)
  {
    if a != "" && a[0] == b[0] && b[0] == c[0] { LessTransitive(a[1..], b[1..], c[1..]); }
  }

  lemma {:induction false} LessIrreflexive(a: string)
    ensures !Less(a, a)
  {
    if a != "" { LessIrreflexive(a[1..]); }
  }

  predicate Sorted(names: seq<string>) {
    forall i, j :: 0 <= i < j < |names| ==> Less(names[i], names[j])
  }

  lemma SortedIsDistinct(names: seq<string>)
    requires Sorted(names)
    ensures Distinct(names)
  {
    forall i, j | 0 <= i < j < |names| ensures names[i] != names[j] {
      LessIrreflexive(names[i]);
    }
  }

  function Inserted(names: seq<string>, name: string): seq<string> {
    if names == [] then [name]
    else if names[0] == name then names
    else if Less(name, names[0]) then [name] + names
    else [names[0]] + Inserted(names[1..], name)
  }

  lemma {:induction false} InsertedSorted(names: seq<string>, name: string)
    requires Sorted(names)
    ensures Sorted(Inserted(names, name))
    ensures forall x :: x in Inserted(names, name) <==> x in names || x == name
  {
    if names == [] || names[0] == name {
    } else if Less(name, names[0]) {
      forall j | 0 <= j < |names| ensures Less(name, names[j]) {
        if j > 0 { LessTransitive(name, names[0], names[j]); }
      }
    } else {
      var rest := Inserted(names[1..], name);
      InsertedSorted(names[1..], name);
      LessTotal(names[0], name);
      forall j | 0 <= j < |rest| ensures Less(names[0], rest[j]) {
        assert rest[j] in rest;
        if rest[j] != name {
          var k :| 0 <= k < |names[1..]| && names[1..][k] == rest[j];
          assert names[k + 1] == rest[j];
        }
      }
      forall x ensures x in Inserted(names, name) <==> x in names || x == name {
        assert x in names <==> x == names[0] || x in names[1..];
      }
    }
  }

  /** The variables of a row, added to those already there. */
  function RowNames(row: Row, names: seq<string>): seq<string>
    decreases |row|
  {
    if row == [] then names else RowNames(row[1..], Inserted(names, Bare(row[0].0)))
  }

  function AllNames(rows: seq<Row>, names: seq<string>): seq<string>
    decreases |rows|
  {
    if rows == [] then names else AllNames(rows[1..], RowNames(rows[0], names))
  }

  predicate Names(row: Row, name: string) {
    exists k :: 0 <= k < |row| && Bare(row[k].0) == name
  }

  lemma {:induction false} RowNamesSorted(row: Row, names: seq<string>)
    requires Sorted(names)
    ensures Sorted(RowNames(row, names))
    ensures forall x :: x in RowNames(row, names) <==> x in names || Names(row, x)
    decreases |row|
  {
    if row != [] {
      InsertedSorted(names, Bare(row[0].0));
      RowNamesSorted(row[1..], Inserted(names, Bare(row[0].0)));
      forall x ensures Names(row, x) <==> Bare(row[0].0) == x || Names(row[1..], x) {
        assert forall k :: 0 <= k < |row[1..]| ==> row[1..][k] == row[k + 1];
      }
    }
  }

  /** The header holds each variable that some row names, once, in order. */
  lemma {:induction false} HeaderIsUnion(rows: seq<Row>, names: seq<string>)
    requires Sorted(names)
    ensures Sorted(AllNames(rows, names)) && Distinct(AllNames(rows, names))
    ensures forall x :: x in AllNames(rows, names) <==> x in names || exists i :: 0 <= i < |rows| && Names(rows[i], x)
    decreases |rows|
  {
    if rows == [] {
      SortedIsDistinct(names);
    } else {
      RowNamesSorted(rows[0], names);
      HeaderIsUnion(rows[1..], RowNames(rows[0], names));
      forall x
        ensures (exists i :: 0 <= i < |rows| && Names(rows[i], x))
           <==> Names(rows[0], x) || exists i :: 0 <= i < |rows[1..]| && Names(rows[1..][i], x)
      {
        assert forall i :: 0 <= i < |rows[1..]| ==> rows[1..][i] == rows[i + 1];
      }
    }
  }

  // ---- the clause ----

  function Joined(parts: seq<string>): string {
    if parts == [] then "" else if |parts| == 1 then parts[0] else parts[0] + " " + Joined(parts[1..])
  }

  function Header(names: seq<string>): seq<string> {
    if names == [] then [] else ["?" + names[0]] + Header(names[1..])
  }

  /** The cells of a row in the header's order; the first that does not print is the error. */
  function CellTexts(row: Row, names: seq<string>): (r: Result<seq<string>>)
    ensures r.Ok? ==> |r.value| == |names|
  {
    if names == [] then Ok([])
    else
      match TermText(Lookup(row, names[0]))
      case Err(e) => Err(e)
      case Ok(t) => match CellTexts(row, names[1..]) case Err(e) => Err(e) case Ok(ts) => Ok([t] + ts)
  }

  function RowText(row: Row, names: seq<string>): Result<string> {
    match CellTexts(row, names) case Err(e) => Err(e) case Ok(ts) => Ok("(" + Joined(ts) + ")")
  }

  function RowTexts(rows: seq<Row>, names: seq<string>): Result<seq<string>> {
    if rows == [] then Ok([])
    else
      match RowText(rows[0], names)
      case Err(e) => Err(e)
      case Ok(t) => match RowTexts(rows[1..], names) case Err(e) => Err(e) case Ok(ts) => Ok([t] + ts)
  }

  function ClauseText(names: seq<string>, rowTexts: seq<string>): string {
    "VALUES (" + Joined(Header(names)) + ") { " + Joined(rowTexts) + " }"
  }

  // ---- reading a block ----

  /** The first character of VARNAME [166]. */
  predicate IsNameStart(c: char) {
    || 'A' <= c <= 'Z' || 'a' <= c <= 'z' || '0' <= c <= '9' || c == '_' || '\U{c0}' <= c <= '\U{d6}'
    || '\U{d8}' <= c <= '\U{f6}' || '\U{f8}' <= c <= '\U{2ff}' || '\U{370}' <= c <= '\U{37d}'
    || '\U{37f}' <= c <= '\U{1fff}'
    || '\U{200c}' <= c <= '\U{200d}' || '\U{2070}' <= c <= '\U{218f}' || '\U{2c00}' <= c <= '\U{2fef}'
    || '\U{3001}' <= c <= '\U{d7ff}' || '\U{f900}' <= c <= '\U{fdcf}' || '\U{fdf0}' <= c <= '\U{fffd}'
    || '\U{10000}' <= c <= '\U{effff}'
  }

  predicate IsNameChar(c: char) {
    IsNameStart(c) || c == '\U{b7}' || '\U{300}' <= c <= '\U{36f}' || '\U{203f}' <= c <= '\U{2040}'
  }

  predicate IsName(name: string) {
    name != "" && IsNameStart(name[0]) && forall k :: 0 <= k < |name| ==> IsNameChar(name[k])
  }

  datatype Block = Block(names: seq<string>, rows: seq<seq<Term>>)

  function ReadVars(s: string): (r: Option<Read<seq<string>>>)
    ensures r.Some? ==> |r.value.rest| < |s|
    decreases |s|
  {
    var t := SkipWs(s);
    if t == "" then None
    else if t[0] == ')' then Some(Read([], t[1..]))
    else if t[0] != '?' then None
    else
      var n := Run(t[1..], IsNameChar);
      var name := t[1..][..n];
      if !IsName(name) then None
      else
        match ReadVars(t[1..][n..])
        case None => None
        case Some(Read(names, rest)) => Some(Read([name] + names, rest))
  }

  function ReadCells(s: string): (r: Option<Read<seq<Term>>>)
    ensures r.Some? ==> |r.value.rest| < |s|
    decreases |s|
  {
    var t := SkipWs(s);
    if t == "" then None
    else if t[0] == ')' then Some(Read([], t[1..]))
    else
      match ReadTerm(t)
      case None => None
      case Some(Read(term, after)) =>
        match ReadCells(after) case None => None case Some(Read(terms, rest)) => Some(Read([term] + terms, rest))
  }

  function ReadRows(s: string): (r: Option<Read<seq<seq<Term>>>>)
    decreases |s|
  {
    var t := SkipWs(s);
    if t == "" then None
    else if t[0] == '}' then Some(Read([], t[1..]))
    else if t[0] != '(' then None
    else
      match ReadCells(t[1..])
      case None => None
      case Some(Read(cells, after)) =>
        match ReadRows(after) case None => None case Some(Read(rows, rest)) => Some(Read([cells] + rows, rest))
  }

  /** The rows in their braces, and nothing after them; as many terms in each as there are variables. */
  function ReadBody(names: seq<string>, after: string): Option<Block> {
    var u := SkipWs(after);
    if u == "" || u[0] != '{' then None
    else
      match ReadRows(u[1..])
      case None => None
      case Some(Read(rows, rest)) =>
        if SkipWs(rest) == "" && forall i :: 0 <= i < |rows| ==> |rows[i]| == |names|
        then Some(Block(names, rows)) else None
  }

  /** VALUES and InlineDataFull [63]. */
  function ReadValues(s: string): Option<Block> {
    if !Starts(s, "VALUES") then None
    else
      var t := SkipWs(s[6..]);
      if t == "" || t[0] != '(' then None
      else match ReadVars(t[1..]) case None => None case Some(Read(names, after)) => ReadBody(names, after)
  }

  // ---- the block reads back ----

  /** What a row means, a cell that prints nothing aside. */
  function RowTerms(row: Row, names: seq<string>): (r: seq<Term>)
    ensures |r| == |names|
  {
    seq(|names|, j requires 0 <= j < |names| =>
      var m := Meant(Lookup(row, names[j])); if m.Ok? then m.value else Undef)
  }

  function Table(rows: seq<Row>, names: seq<string>): (r: seq<seq<Term>>)
    ensures |r| == |rows|
  {
    seq(|rows|, i requires 0 <= i < |rows| => RowTerms(rows[i], names))
  }

  lemma SkipOne(rest: string)
    ensures SkipWs(" " + rest) == SkipWs(rest)
  {
    assert (" " + rest)[1..] == rest;
  }

  lemma ReadsSkip(s: string)
    ensures ReadVars(" " + s) == ReadVars(s)
    ensures ReadCells(" " + s) == ReadCells(s)
    ensures ReadRows(" " + s) == ReadRows(s)
  {
    SkipOne(s);
  }

  lemma ReadsEnd(rest: string)
    ensures ReadVars(")" + rest) == Some(Read([], rest))
    ensures ReadCells(")" + rest) == Some(Read([], rest))
    ensures ReadRows("}" + rest) == Some(Read([], rest))
  {
    assert (")" + rest)[1..] == rest && ("}" + rest)[1..] == rest;
  }

  /** What comes after the first of some joined parts. */
  function After(parts: seq<string>, end: string): string {
    if parts == [] then end else " " + (Joined(parts) + end)
  }

  lemma JoinedStep(part: string, parts: seq<string>, end: string)
    ensures Joined([part] + parts) + end == part + After(parts, end)
    ensures Joined([]) + end == end
  {
    assert ([part] + parts)[1..] == parts;
    assert parts != [] ==> part + " " + Joined(parts) + end == part + (" " + (Joined(parts) + end));
  }

  lemma AfterReads(parts: seq<string>, end: string)
    ensures ReadVars(After(parts, end)) == ReadVars(Joined(parts) + end)
    ensures ReadCells(After(parts, end)) == ReadCells(Joined(parts) + end)
    ensures ReadRows(After(parts, end)) == ReadRows(Joined(parts) + end)
  {
    if parts == [] { assert Joined(parts) + end == end; } else { ReadsSkip(Joined(parts) + end); }
  }

  lemma ReadVarsStep(name: string, after: string)
    requires IsName(name) && Delimited(after)
    ensures ReadVars("?" + name + after)
         == match ReadVars(after) case None => None case Some(Read(names, rest)) => Some(Read([name] + names, rest))
  {
    var t := "?" + name + after;
    assert t[1..] == name + after;
    RunOf(name, after, IsNameChar);
    assert (name + after)[..|name|] == name && (name + after)[|name|..] == after;
  }

  lemma HeaderStep(name: string, parts: seq<string>, end: string, names: seq<string>, rest: string)
    requires IsName(name) && Delimited(end) && ReadVars(Joined(parts) + end) == Some(Read(names, rest))
    ensures ReadVars(Joined(["?" + name] + parts) + end) == Some(Read([name] + names, rest))
  {
    JoinedStep("?" + name, parts, end);
    AfterReads(parts, end);
    ReadVarsStep(name, After(parts, end));
  }

  lemma HeaderParts(names: seq<string>)
    requires names != []
    ensures Header(names) == ["?" + names[0]] + Header(names[1..])
  {}

  /** Every name is a VARNAME. */
  predicate AllNamed(names: seq<string>) {
    forall k :: 0 <= k < |names| ==> IsName(names[k])
  }

  lemma NamedStep(name: string, names: seq<string>)
    requires AllNamed([name] + names)
    ensures IsName(name) && AllNamed(names)
  {
    assert ([name] + names)[0] == name;
    assert forall k :: 0 <= k < |names| ==> names[k] == ([name] + names)[k + 1];
  }

  lemma {:induction false} HeaderReadBack(names: seq<string>, end: string, rest: string)
    requires AllNamed(names)
    requires end == ")" + rest
    ensures ReadVars(Joined(Header(names)) + end) == Some(Read(names, rest))
    decreases |names|
  {
    if names == [] {
      JoinedStep("", [], end);
      ReadsEnd(rest);
    } else {
      assert [names[0]] + names[1..] == names;
      NamedStep(names[0], names[1..]);
      HeaderReadBack(names[1..], end, rest);
      HeaderStep(names[0], Header(names[1..]), end, names[1..], rest);
      HeaderParts(names);
    }
  }

  lemma TermStartsVisibly(c: Cell)
    requires TermText(c).Ok? && WellFormed(Meant(c).value)
    ensures TermText(c).value != "" && !IsWs(TermText(c).value[0]) && TermText(c).value[0] != ')'
  {
    PrintedExactly(c);
  }

  lemma ReadCellsStep(text: string, term: Term, after: string)
    requires text != "" && !IsWs(text[0]) && text[0] != ')'
    requires ReadTerm(text + after) == Some(Read(term, after))
    ensures ReadCells(text + after)
         == match ReadCells(after) case None => None case Some(Read(terms, rest)) => Some(Read([term] + terms, rest))
  {
    assert (text + after)[0] == text[0];
  }

  /** The cell stands for a term that prints and is well-formed. */
  predicate CellReadable(c: Cell) {
    Meant(c).Ok? && Accepted(Meant(c).value) && WellFormed(Meant(c).value)
  }

  predicate RowReadable(row: Row, names: seq<string>) {
    forall j :: 0 <= j < |names| ==> CellReadable(Lookup(row, names[j]))
  }

  lemma CellStep(c: Cell, after: string)
    requires CellReadable(c) && Delimited(after)
    ensures TermText(c).Ok?
    ensures ReadCells(TermText(c).value + after)
         == match ReadCells(after) case None => None case Some(Read(terms, rest)) =>
              Some(Read([Meant(c).value] + terms, rest))
  {
    PrintedExactly(c);
    TermStartsVisibly(c);
    CellRoundTrip(c, after);
    ReadCellsStep(TermText(c).value, Meant(c).value, after);
  }

  lemma RowTermsStep(row: Row, name: string, tail: seq<string>)
    requires CellReadable(Lookup(row, name))
    ensures RowTerms(row, [name] + tail) == [Meant(Lookup(row, name)).value] + RowTerms(row, tail)
  {}

  lemma {:induction false} RowReadBack(row: Row, names: seq<string>, end: string, rest: string)
    requires RowReadable(row, names) && end == ")" + rest
    ensures CellTexts(row, names).Ok?
    ensures ReadCells(Joined(CellTexts(row, names).value) + end) == Some(Read(RowTerms(row, names), rest))
    decreases |names|
  {
    if names == [] {
      JoinedStep("", [], end);
      ReadsEnd(rest);
    } else {
      var name, tail := names[0], names[1..];
      assert names == [name] + tail;
      RowReadBack(row, tail, end, rest);
      var ts := CellTexts(row, tail).value;
      CellStep(Lookup(row, name), After(ts, end));
      JoinedStep(TermText(Lookup(row, name)).value, ts, end);
      AfterReads(ts, end);
      RowTermsStep(row, name, tail);
    }
  }

  lemma ReadRowsOpens(s: string)
    ensures ReadRows("(" + s)
         == match ReadCells(s)
            case None => None
            case Some(Read(cells, after)) =>
              match ReadRows(after) case None => None case Some(Read(rows, rest)) => Some(Read([cells] + rows, rest))
  {
    assert ("(" + s)[1..] == s;
  }

  lemma RowStep(row: Row, names: seq<string>, after: string)
    requires RowReadable(row, names)
    ensures RowText(row, names).Ok?
    ensures ReadRows(RowText(row, names).value + after)
         == match ReadRows(after) case None => None case Some(Read(rows, rest)) =>
              Some(Read([RowTerms(row, names)] + rows, rest))
  {
    RowReadBack(row, names, ")" + after, after);
    var cells := Joined(CellTexts(row, names).value);
    assert "(" + cells + ")" + after == "(" + (cells + (")" + after));
    ReadRowsOpens(cells + (")" + after));
  }

  lemma RowsEnd(names: seq<string>, end: string)
    requires end == " }"
    ensures ReadRows(Joined([]) + end) == Some(Read(Table([], names), ""))
  {
    JoinedStep("", [], end);
    ReadsSkip("}");
    ReadsEnd("");
    assert end == " " + "}" && "}" + "" == "}";
    assert Table([], names) == [];
  }

  predicate Readable(rows: seq<Row>, names: seq<string>) {
    forall i :: 0 <= i < |rows| ==> RowReadable(rows[i], names)
  }

  lemma RowsStep(row: Row, names: seq<string>, texts: seq<string>, end: string, terms: seq<seq<Term>>)
    requires RowReadable(row, names) && ReadRows(Joined(texts) + end) == Some(Read(terms, ""))
    ensures RowText(row, names).Ok?
    ensures ReadRows(Joined([RowText(row, names).value] + texts) + end)
         == Some(Read([RowTerms(row, names)] + terms, ""))
  {
    RowStep(row, names, After(texts, end));
    JoinedStep(RowText(row, names).value, texts, end);
    AfterReads(texts, end);
  }

  lemma TableStep(rows: seq<Row>, names: seq<string>)
    requires rows != [] && Readable(rows, names)
    ensures RowReadable(rows[0], names) && Readable(rows[1..], names)
    ensures Table(rows, names) == [RowTerms(rows[0], names)] + Table(rows[1..], names)
  {
    assert forall i :: 0 <= i < |rows[1..]| ==> rows[1..][i] == rows[i + 1];
  }

  lemma {:induction false} RowsReadBack(rows: seq<Row>, names: seq<string>, end: string)
    requires Readable(rows, names)
    requires end == " }"
    ensures RowTexts(rows, names).Ok?
    ensures ReadRows(Joined(RowTexts(rows, names).value) + end) == Some(Read(Table(rows, names), ""))
    decreases |rows|
  {
    if rows == [] {
      RowsEnd(names, end);
    } else {
      TableStep(rows, names);
      RowsReadBack(rows[1..], names, end);
      RowsStep(rows[0], names, RowTexts(rows[1..], names).value, end, Table(rows[1..], names));
    }
  }

  lemma ReadValuesOpens(s: string)
    ensures ReadValues("VALUES (" + s)
         == match ReadVars(s) case None => None case Some(Read(names, after)) => ReadBody(names, after)
  {
    var t := "VALUES (" + s;
    assert t[..6] == "VALUES" && t[6..] == " " + ("(" + s);
    SkipOne("(" + s);
    assert ("(" + s)[1..] == s;
  }

  lemma ReadBodyOpens(names: seq<string>, s: string, rows: seq<seq<Term>>)
    requires ReadRows(s) == Some(Read(rows, "")) && forall i :: 0 <= i < |rows| ==> |rows[i]| == |names|
    ensures ReadBody(names, " { " + s) == Some(Block(names, rows))
  {
    assert " { " + s == " " + ("{ " + s);
    SkipOne("{ " + s);
    assert ("{ " + s)[1..] == " " + s;
    ReadsSkip(s);
  }

  lemma ClauseParts(header: string, body: string)
    ensures "VALUES (" + header + ") { " + body + " }" == "VALUES (" + (header + (")" + (" { " + (body + " }"))))
  {
    assert ") { " == ")" + " { ";
  }

  /** The block parses back to the header and to what every cell means, a missing one to UNDEF. */
  lemma BlockReadBack(rows: seq<Row>, names: seq<string>)
    requires AllNamed(names) && Readable(rows, names)
    ensures RowTexts(rows, names).Ok?
    ensures ReadValues(ClauseText(names, RowTexts(rows, names).value)) == Some(Block(names, Table(rows, names)))
  {
    RowsReadBack(rows, names, " }");
    var body := Joined(RowTexts(rows, names).value) + " }";
    var after := " { " + body;
    ClauseParts(Joined(Header(names)), Joined(RowTexts(rows, names).value));
    ReadValuesOpens(Joined(Header(names)) + (")" + after));
    HeaderReadBack(names, ")" + after, after);
    ReadBodyOpens(names, body, Table(rows, names));
  }

  // ---- and only then ----

  predicate AllWellFormed(rows: seq<seq<Term>>) {
    forall i :: 0 <= i < |rows| ==> TermsWellFormed(rows[i])
  }

  predicate TermsWellFormed(terms: seq<Term>) {
    forall j :: 0 <= j < |terms| ==> WellFormed(terms[j])
  }

  lemma {:induction false} ReadVarsAreNames(s: string)
    requires ReadVars(s).Some?
    ensures AllNamed(ReadVars(s).value.value)
    decreases |s|
  {
    var t := SkipWs(s);
    if t[0] != ')' {
      ReadVarsAreNames(t[1..][Run(t[1..], IsNameChar)..]);
    }
  }

  lemma {:induction false} ReadCellsAreWellFormed(s: string)
    requires ReadCells(s).Some?
    ensures TermsWellFormed(ReadCells(s).value.value)
    decreases |s|
  {
    var t := SkipWs(s);
    if t[0] != ')' {
      TermReadIsWellFormed(t);
      ReadCellsAreWellFormed(ReadTerm(t).value.rest);
    }
  }

  lemma {:induction false} ReadRowsAreWellFormed(s: string)
    requires ReadRows(s).Some?
    ensures AllWellFormed(ReadRows(s).value.value)
    decreases |s|
  {
    var t := SkipWs(s);
    if t[0] != '}' {
      ReadCellsAreWellFormed(t[1..]);
      ReadRowsAreWellFormed(ReadCells(t[1..]).value.rest);
    }
  }

  /** What the reader reads has names for its variables and well-formed terms. */
  lemma ReadBlockIsClean(s: string)
    requires ReadValues(s).Some?
    ensures AllNamed(ReadValues(s).value.names) && AllWellFormed(ReadValues(s).value.rows)
  {
    var t := SkipWs(s[6..]);
    ReadVarsAreNames(t[1..]);
    var after := ReadVars(t[1..]).value.rest;
    ReadRowsAreWellFormed(SkipWs(after)[1..]);
  }

  lemma TableIsReadable(rows: seq<Row>, names: seq<string>)
    requires forall i :: 0 <= i < |rows| ==> RowPrints(rows[i], names)
    requires AllWellFormed(Table(rows, names))
    ensures Readable(rows, names)
  {
    forall i, j | 0 <= i < |rows| && 0 <= j < |names| ensures CellReadable(Lookup(rows[i], names[j])) {
      assert TermsWellFormed(Table(rows, names)[i]) && WellFormed(RowTerms(rows[i], names)[j]);
      assert RowPrints(rows[i], names) && CellPrints(Lookup(rows[i], names[j]));
    }
  }

  /**
   A printed block reads back as its header and what its cells mean if and only if every key is a
   VARNAME and every cell's term is well-formed: the printer checks neither.
   */
  lemma BlockRoundTrip(rows: seq<Row>, names: seq<string>)
    requires RowTexts(rows, names).Ok?
    ensures ReadValues(ClauseText(names, RowTexts(rows, names).value)) == Some(Block(names, Table(rows, names)))
       <==> AllNamed(names) && Readable(rows, names)
  {
    var text := ClauseText(names, RowTexts(rows, names).value);
    if AllNamed(names) && Readable(rows, names) {
      BlockReadBack(rows, names);
    } else if ReadValues(text) == Some(Block(names, Table(rows, names))) {
      ReadBlockIsClean(text);
      RefusedExactly(rows, names);
      TableIsReadable(rows, names);
      assert false;
    }
  }

  /** For one: the key `a b` is printed as it is, and its block does not read back. */
  lemma KeyIsNotChecked(rows: seq<Row>, key: string, i: int)
    requires key == "a b" && rows == [[(key, Integer(i))]]
    ensures AllNames(rows, []) == [key] && RowTexts(rows, [key]).Ok?
    ensures ReadValues(ClauseText([key], RowTexts(rows, [key]).value)) != Some(Block([key], Table(rows, [key])))
  {
    assert Bare(key) == key && Lookup(rows[0], key) == Integer(i);
    assert RowNames(rows[0], []) == [key] by { assert rows[0][1..] == [] && Inserted([], key) == [key]; }
    assert rows[1..] == [];
    RefusedExactly(rows, [key]);
    assert RowPrints(rows[0], [key]);
    BlockRoundTrip(rows, [key]);
    assert !IsNameChar(key[1]) && !IsName([key][0]);
  }

  predicate CellPrints(c: Cell) {
    Meant(c).Ok? && Accepted(Meant(c).value)
  }

  predicate RowPrints(row: Row, names: seq<string>) {
    forall j :: 0 <= j < |names| ==> CellPrints(Lookup(row, names[j]))
  }

  lemma {:induction false} RowPrintsExactly(row: Row, names: seq<string>)
    ensures CellTexts(row, names).Ok? <==> RowPrints(row, names)
  {
    if names != [] {
      RowPrintsExactly(row, names[1..]);
      PrintedExactly(Lookup(row, names[0]));
      assert RowPrints(row, names) <==> CellPrints(Lookup(row, names[0])) && RowPrints(row, names[1..]) by {
        assert forall j :: 0 <= j < |names[1..]| ==> names[1..][j] == names[j + 1];
      }
    }
  }

  /** The rows are refused exactly when some cell stands for no term or has an unsafe IRI. */
  lemma {:induction false} RefusedExactly(rows: seq<Row>, names: seq<string>)
    ensures RowTexts(rows, names).Ok? <==> forall i :: 0 <= i < |rows| ==> RowPrints(rows[i], names)
  {
    if rows != [] {
      RowPrintsExactly(rows[0], names);
      RefusedExactly(rows[1..], names);
      assert forall i :: 0 <= i < |rows[1..]| ==> rows[1..][i] == rows[i + 1];
    }
  }

  function Prefix(texts: seq<string>, r: Result<seq<string>>): Result<seq<string>> {
    match r case Err(e) => Err(e) case Ok(ts) => Ok(texts + ts)
  }

  lemma Prefixed(r: Result<seq<string>>, a: seq<string>, b: seq<string>)
    ensures Prefix(a, Prefix(b, r)) == Prefix(a + b, r) && Prefix([], r) == r
  {
    if r.Ok? { assert a + (b + r.value) == (a + b) + r.value && [] + r.value == r.value; }
  }

  /** `_values_clause`. */
  method ValuesClause(rows: seq<Row>) returns (r: Result<string>)
    ensures rows == [] ==> r == Ok("")
    ensures rows != [] && AllNames(rows, []) == [] ==> r == Err(NoVariable)
    ensures rows != [] && AllNames(rows, []) != [] ==>
              var names := AllNames(rows, []);
              match RowTexts(rows, names) case Err(e) => r == Err(e) case Ok(ts) => r == Ok(ClauseText(names, ts))
  {
    if rows == [] { return Ok(""); }
    var names := AllNames(rows, []);
    if names == [] { return Err(NoVariable); }
    var rendered: seq<string> := [];
    assert rows[0..] == rows;
    Prefixed(RowTexts(rows, names), [], []);
    for i := 0 to |rows|
      invariant RowTexts(rows, names) == Prefix(rendered, RowTexts(rows[i..], names))
    {
      assert rows[i..][1..] == rows[i + 1..];
      var cells := CellTexts(rows[i], names);
      if cells.Err? { return Err(cells.error); }
      var text := "(" + Joined(cells.value) + ")";
      Prefixed(RowTexts(rows[i + 1..], names), rendered, [text]);
      rendered := rendered + [text];
    }
    assert rendered + [] == rendered;
    r := Ok(ClauseText(names, rendered));
  }
}
