/**
 How the builder writes attribute names: bare where AQL's lexer takes them, in backticks
 otherwise; and an AQL name lexer that reads a path back.
 */
module AqlNames {
  import opened Collections

  predicate IsLetter(c: char) {
    'a' <= c <= 'z' || 'A' <= c <= 'Z'
  }

  predicate IsIdentChar(c: char) {
    IsLetter(c) || '0' <= c <= '9' || c == '_'
  }

  predicate AllIdent(s: string) {
    forall k :: 0 <= k < |s| ==> IsIdentChar(s[k])
  }

  /** The bare-attribute pattern: underscores, then a letter, then identifier characters. */
  predicate Bare(s: string) {
    s != "" && if s[0] == '_' then Bare(s[1..]) else IsLetter(s[0]) && AllIdent(s[1..])
  }

  /** Python's `$` also matches before a final newline. */
  predicate MatchesBare(s: string) {
    Bare(s) || NewlineBare(s)
  }

  predicate NewlineBare(s: string) {
    s != "" && s[|s| - 1] == '\n' && Bare(s[..|s| - 1])
  }

  function LowerChar(c: char): char {
    if 'A' <= c <= 'Z' then c - 'A' + 'a' else c
  }

  function Lower(s: string): string {
    seq(|s|, k requires 0 <= k < |s| => LowerChar(s[k]))
  }

  /** The keywords AQL refuses as a bare name are a parameter; KEYWORDS below lists them. */
  predicate Reserved(kw: set<string>, s: string) {
    Lower(s) in kw
  }

  predicate IsAqlIdentifier(kw: set<string>, name: string) {
    MatchesBare(name) && !Reserved(kw, name)
  }

  predicate CanBacktickQuote(name: string) {
    name != "" && '`' !in name && '\\' !in name
  }

  /** `attribute_ref`; None when the name cannot be passed to AQL. */
  function AttributeRef(kw: set<string>, alias: string, name: string): Option<string> {
    if IsAqlIdentifier(kw, name) then Some(alias + "." + name)
    else if !CanBacktickQuote(name) then None
    else Some(alias + ".`" + name + "`")
  }

  function SegmentText(kw: set<string>, name: string): string {
    if IsAqlIdentifier(kw, name) then "." + name else ".`" + name + "`"
  }

  function PathText(kw: set<string>, path: seq<string>): string {
    if path == [] then "" else SegmentText(kw, path[0]) + PathText(kw, path[1..])
  }

  predicate IsPrintable(kw: set<string>, name: string) {
    IsAqlIdentifier(kw, name) || CanBacktickQuote(name)
  }

  predicate Printable(kw: set<string>, path: seq<string>) {
    forall k :: 0 <= k < |path| ==> IsPrintable(kw, path[k])
  }

  /** One segment: refused, or the reference and the segment's own text. */
  lemma SegmentPrinted(kw: set<string>, ref: string, name: string)
    ensures AttributeRef(kw, ref, name) == if IsPrintable(kw, name) then Some(ref + SegmentText(kw, name)) else None
  {
    assert ref + "." + name == ref + ("." + name);
    assert ref + ".`" + name + "`" == ref + (".`" + name + "`");
  }

  lemma PrintableSnoc(kw: set<string>, path: seq<string>, name: string)
    ensures Printable(kw, path + [name]) <==> Printable(kw, path) && IsPrintable(kw, name)
  {
    assert (path + [name])[|path|] == name;
    assert forall k :: 0 <= k < |path| ==> (path + [name])[k] == path[k];
  }

  datatype Printed = Ref(text: string) | EmptyPath | Unsupported(name: string)

  lemma {:induction false} PathTextSnoc(kw: set<string>, path: seq<string>, name: string)
    ensures PathText(kw, path + [name]) == PathText(kw, path) + SegmentText(kw, name)
    decreases |path|
  {
    if path == [] {
      assert path + [name] == [name];
    } else {
      assert (path + [name])[1..] == path[1..] + [name];
      PathTextSnoc(kw, path[1..], name);
    }
  }

  lemma OneMoreText(kw: set<string>, alias: string, done: seq<string>, name: string)
    ensures alias + PathText(kw, done + [name]) == (alias + PathText(kw, done)) + SegmentText(kw, name)
  {
    PathTextSnoc(kw, done, name);
    Associate(alias, PathText(kw, done), SegmentText(kw, name));
  }

  lemma Associate(a: string, b: string, c: string)
    ensures a + (b + c) == (a + b) + c
  {}

  /** A refused name, everything before it printable. */
  predicate FirstRefused(kw: set<string>, path: seq<string>, name: string) {
    exists k :: 0 <= k < |path| && path[k] == name && Printable(kw, path[..k]) && !Printable(kw, path[..k + 1])
  }

  lemma RefusedPath(kw: set<string>, path: seq<string>, k: nat)
    requires k < |path| && !Printable(kw, path[..k + 1])
    ensures !Printable(kw, path)
  {}

  /** `attribute_path_ref`: every segment quoted on its own; the first unprintable one is refused. */
  method AttributePathRef(kw: set<string>, alias: string, path: seq<string>) returns (r: Printed)
    ensures r.EmptyPath? <==> path == []
    ensures r.Ref? <==> path != [] && Printable(kw, path)
    ensures r.Ref? ==> r.text == alias + PathText(kw, path)
    ensures r.Unsupported? ==> FirstRefused(kw, path, r.name)
  {
    if path == [] { return EmptyPath; }
    var ref := alias;
    for k := 0 to |path|
      invariant Printable(kw, path[..k]) && ref == alias + PathText(kw, path[..k])
    {
      assert path[..k + 1] == path[..k] + [path[k]];
      SegmentPrinted(kw, ref, path[k]);
      PrintableSnoc(kw, path[..k], path[k]);
      OneMoreText(kw, alias, path[..k], path[k]);
      var next := AttributeRef(kw, ref, path[k]);
      if next == None {
        RefusedPath(kw, path, k);
        return Unsupported(path[k]);
      }
      ref := next.value;
    }
    assert path[..|path|] == path;
    return Ref(ref);
  }

  // ---- the lexer ----

  function IdentRun(s: string): (n: nat)
    ensures n <= |s| && AllIdent(s[..n]) && (n < |s| ==> !IsIdentChar(s[n]))
  {
    if s == "" || !IsIdentChar(s[0]) then 0
    else
      var n := 1 + IdentRun(s[1..]);
      assert forall k :: 0 <= k < n ==> s[k] == if k == 0 then s[0] else s[1..][k - 1];
      n
  }

  function QuoteEnd(s: string): (n: nat)
    ensures n <= |s| && '`' !in s[..n] && (n < |s| ==> s[n] == '`')
  {
    if s == "" || s[0] == '`' then 0
    else
      var n := 1 + QuoteEnd(s[1..]);
      assert s[..n] == [s[0]] + s[1..][..n - 1];
      n
  }

  predicate IsSpace(c: char) {
    c == ' ' || c == '\t' || c == '\r' || c == '\n'
  }

  function SkipSpace(s: string): (r: string)
    ensures |r| <= |s|
  {
    if s != "" && IsSpace(s[0]) then SkipSpace(s[1..]) else s
  }

  /** The attribute names after an alias: each a dot, then a bare or a quoted name. */
  function ReadSegments(kw: set<string>, text: string): Option<seq<string>>
    decreases |text|
  {
    var s := SkipSpace(text);
    if s == "" then Some([])
    else if s[0] != '.' || |s| == 1 then None
    else if s[1] == '`' then
      var n := QuoteEnd(s[2..]);
      var name := s[2..2 + n];
      if 2 + n == |s| || name == "" || '\\' in name then None else Prefixed(name, ReadSegments(kw, s[3 + n..]))
    else
      var n := IdentRun(s[1..]);
      var name := s[1..1 + n];
      if !Bare(name) || Reserved(kw, name) then None else Prefixed(name, ReadSegments(kw, s[1 + n..]))
  }

  function Prefixed(name: string, rest: Option<seq<string>>): Option<seq<string>> {
    match rest case None => None case Some(names) => Some([name] + names)
  }

  function ReadPath(kw: set<string>, text: string): Option<(string, seq<string>)> {
    var n := IdentRun(text);
    match ReadSegments(kw, text[n..])
    case None => None
    case Some(names) => Some((text[..n], names))
  }

  lemma {:induction false} BareIsIdent(s: string)
    requires Bare(s)
    ensures AllIdent(s)
  {
    if s[0] == '_' { BareIsIdent(s[1..]); }
    assert forall k :: 0 <= k < |s| ==> s[k] == if k == 0 then s[0] else s[1..][k - 1];
  }

  lemma {:induction false} IdentRunOf(a: string, rest: string)
    requires AllIdent(a) && (rest == "" || !IsIdentChar(rest[0]))
    ensures IdentRun(a + rest) == |a|
    decreases |a|
  {
    if a == "" {
      assert a + rest == rest;
    } else {
      assert (a + rest)[1..] == a[1..] + rest;
      IdentRunOf(a[1..], rest);
    }
  }

  lemma {:induction false} QuoteEndOf(a: string, rest: string)
    requires '`' !in a
    ensures QuoteEnd(a + "`" + rest) == |a|
    decreases |a|
  {
    var s := a + "`" + rest;
    if a != "" {
      assert s[1..] == a[1..] + "`" + rest;
      assert a[0] in a && forall c :: c in a[1..] ==> c in a;
      QuoteEndOf(a[1..], rest);
    }
  }

  /** What the lexer makes of a printed segment: a final newline is skipped as white space. */
  function Stripped(name: string): string {
    if NewlineBare(name) then name[..|name| - 1] else name
  }

  predicate Loses(kw: set<string>, name: string) {
    NewlineBare(name) && Reserved(kw, Stripped(name))
  }

  /** No keyword ends in a newline. */
  ghost predicate Words(kw: set<string>) {
    forall r :: r in kw ==> r == "" || r[|r| - 1] != '\n'
  }

  lemma NewlineNotReserved(kw: set<string>, name: string)
    requires NewlineBare(name) && Words(kw)
    ensures !Reserved(kw, name) && !Bare(name)
  {
    assert Lower(name)[|name| - 1] == '\n';
    if Bare(name) { BareIsIdent(name); }
  }

  lemma BareRead(kw: set<string>, name: string, rest: string)
    requires Bare(name) && (rest == "" || !IsIdentChar(rest[0]))
    ensures ReadSegments(kw, "." + name + rest)
         == if Reserved(kw, name) then None else Prefixed(name, ReadSegments(kw, rest))
  {
    var s := "." + name + rest;
    assert s[1..] == name + rest;
    BareIsIdent(name);
    IdentRunOf(name, rest);
    assert s[1..1 + |name|] == name && s[1 + |name|..] == rest;
    assert SkipSpace(s) == s && s[1] == name[0] && name[0] != '`';
  }

  lemma QuotedRead(kw: set<string>, name: string, rest: string)
    requires CanBacktickQuote(name)
    ensures ReadSegments(kw, ".`" + name + "`" + rest) == Prefixed(name, ReadSegments(kw, rest))
  {
    var s := ".`" + name + "`" + rest;
    assert s[2..] == name + "`" + rest;
    QuoteEndOf(name, rest);
    assert s[2..2 + |name|] == name && s[3 + |name|..] == rest;
    assert SkipSpace(s) == s;
  }

  lemma NewlineSkipped(kw: set<string>, rest: string)
    ensures ReadSegments(kw, "\n" + rest) == ReadSegments(kw, rest)
  {
    assert ("\n" + rest)[1..] == rest;
    assert SkipSpace("\n" + rest) == SkipSpace(rest);
  }

  lemma NewlineRead(kw: set<string>, t: string, rest: string)
    requires Bare(t)
    ensures ReadSegments(kw, "." + t + ("\n" + rest))
         == if Reserved(kw, t) then None else Prefixed(t, ReadSegments(kw, rest))
  {
    BareRead(kw, t, "\n" + rest);
    NewlineSkipped(kw, rest);
  }

  lemma SegmentRead(kw: set<string>, name: string, rest: string, text: string)
    requires Words(kw) && (IsAqlIdentifier(kw, name) || CanBacktickQuote(name))
    requires rest == "" || rest[0] == '.'
    requires text == SegmentText(kw, name) + rest
    ensures ReadSegments(kw, text)
         == if Loses(kw, name) then None else Prefixed(Stripped(name), ReadSegments(kw, rest))
  {
    if NewlineBare(name) {
      NewlineNotReserved(kw, name);
      NewlineText(name, rest, text);
      NewlineRead(kw, Stripped(name), rest);
    } else if IsAqlIdentifier(kw, name) {
      BareRead(kw, name, rest);
    } else {
      QuotedRead(kw, name, rest);
    }
  }

  lemma NewlineText(name: string, rest: string, text: string)
    requires NewlineBare(name) && text == "." + name + rest
    ensures text == "." + Stripped(name) + ("\n" + rest)
  {
    assert name == Stripped(name) + "\n";
  }

  function StrippedAll(path: seq<string>): seq<string> {
    if path == [] then [] else [Stripped(path[0])] + StrippedAll(path[1..])
  }

  predicate SomeLoses(kw: set<string>, path: seq<string>) {
    exists k :: 0 <= k < |path| && Loses(kw, path[k])
  }

  lemma SomeLosesCons(kw: set<string>, path: seq<string>)
    requires path != []
    ensures SomeLoses(kw, path) <==> Loses(kw, path[0]) || SomeLoses(kw, path[1..])
  {
    assert forall k :: 1 <= k < |path| ==> path[k] == path[1..][k - 1];
    if SomeLoses(kw, path[1..]) {
      var k :| 0 <= k < |path[1..]| && Loses(kw, path[1..][k]);
      assert Loses(kw, path[k + 1]);
    }
  }

  lemma {:induction false} SegmentsRead(kw: set<string>, path: seq<string>)
    requires Words(kw) && Printable(kw, path)
    ensures ReadSegments(kw, PathText(kw, path)) == if SomeLoses(kw, path) then None else Some(StrippedAll(path))
    decreases |path|
  {
    if path != [] {
      SegmentRead(kw, path[0], PathText(kw, path[1..]), PathText(kw, path));
      assert forall k :: 0 <= k < |path[1..]| ==> path[1..][k] == path[k + 1];
      SegmentsRead(kw, path[1..]);
      SomeLosesCons(kw, path);
    }
  }

  lemma {:induction false} StrippedAllSame(path: seq<string>)
    ensures StrippedAll(path) == path <==> forall k :: 0 <= k < |path| ==> !NewlineBare(path[k])
    decreases |path|
  {
    if path != [] {
      StrippedAllSame(path[1..]);
      assert path == [path[0]] + path[1..];
      assert forall k :: 1 <= k < |path| ==> path[k] == path[1..][k - 1];
      if StrippedAll(path) == path {
        assert StrippedAll(path)[0] == path[0] && StrippedAll(path)[1..] == path[1..];
      } else if StrippedAll(path[1..]) != path[1..] {
        var k :| 0 <= k < |path[1..]| && NewlineBare(path[1..][k]);
        assert NewlineBare(path[k + 1]);
      }
    }
  }

  /**
   A printed path is read back as the alias and exactly the path, if and only if no segment is
   a bare name followed by a newline.
   */
  lemma PathRoundTrip(kw: set<string>, alias: string, path: seq<string>)
    requires Words(kw) && AllIdent(alias) && path != [] && Printable(kw, path)
    ensures ReadPath(kw, alias + PathText(kw, path)) == Some((alias, path))
            <==> forall k :: 0 <= k < |path| ==> !NewlineBare(path[k])
  {
    var text := alias + PathText(kw, path);
    assert PathText(kw, path)[0] == '.';
    IdentRunOf(alias, PathText(kw, path));
    assert text[..|alias|] == alias && text[|alias|..] == PathText(kw, path);
    SegmentsRead(kw, path);
    StrippedAllSame(path);
    if SomeLoses(kw, path) {
      var k :| 0 <= k < |path| && Loses(kw, path[k]);
      assert NewlineBare(path[k]);
    }
  }

  const KEYWORDS: set<string> := {
    "aggregate", "all", "all_shortest_paths", "and", "any", "asc", "collect", "desc", "distinct", "false",
    "filter", "for", "graph", "in", "inbound", "insert", "into", "k_paths", "k_shortest_paths", "let", "like",
    "limit", "none", "not", "null", "or", "outbound", "remove", "replace", "return", "shortest_path", "sort",
    "true", "update", "upsert", "window", "with"
  }

  lemma KeywordsAreWords()
    ensures Words(KEYWORDS)
  {}
}
