/** The names the AQL builder mints: bind parameters, collection parameters and aliases. */
module BuilderNames {
  import opened Collections
  import opened Decimals
  import opened AqlNames

  /** The identifier pattern, whose `$` also matches before a final newline. */
  predicate Ident(s: string) {
    s != "" && (IsLetter(s[0]) || s[0] == '_') && AllIdent(s)
  }

  predicate MatchesIdent(s: string) {
    Ident(s) || (s != "" && s[|s| - 1] == '\n' && Ident(s[..|s| - 1]))
  }

  /** The bytes a character takes in UTF-8. */
  function Utf8Bytes(c: char): nat {
    if c < '\U{80}' then 1 else if c < '\U{800}' then 2 else if c < '\U{10000}' then 3 else 4
  }

  function Utf8Length(name: string): nat {
    if name == "" then 0 else Utf8Bytes(name[0]) + Utf8Length(name[1..])
  }

  /** Not empty, no slash, at most 256 bytes, and each character printable, as Python has it. */
  predicate ValidCollectionName(printable: char -> bool, name: string) {
    name != "" && '/' !in name && Utf8Length(name) <= 256 && forall k :: 0 <= k < |name| ==> printable(name[k])
  }

  function Sanitized(name: string): (s: string)
    ensures |s| == |name| && AllIdent(s)
  {
    seq(|name|, k requires 0 <= k < |name| => if IsIdentChar(name[k]) then name[k] else '_')
  }

  function BindName(n: nat, hint: string): string {
    "_p" + Dec(n) + if hint == "" then "" else "_" + hint
  }

  function CollectionName(n: nat, collection: string): string {
    "c" + Dec(n) + "_" + Sanitized(collection)
  }

  /** The counter value in a minted key: the digits after its two-letter mark. */
  function Number(key: string): nat {
    if |key| < 2 then 0 else Undec(key[2..][..DigitRun(key[2..])])
  }

  predicate Marked(key: string) {
    key != "" && (key[0] == '_' || key[0] == '@')
  }

  lemma NumberAfter(mark: string, n: nat, rest: string, key: string)
    requires |mark| == 2 && key == mark + Dec(n) + rest && (rest == "" || !IsDigit(rest[0]))
    ensures Number(key) == n
  {
    assert key[2..] == Dec(n) + rest;
    DigitRunOf(Dec(n), rest);
    assert key[2..][..|Dec(n)|] == Dec(n);
    DecReadsBack(n);
  }

  lemma BindNameNumber(n: nat, hint: string)
    ensures BindName(n, hint)[0] == '_' && Number(BindName(n, hint)) == n
  {
    NumberAfter("_p", n, if hint == "" then "" else "_" + hint, BindName(n, hint));
  }

  lemma CollectionNameNumber(n: nat, collection: string)
    ensures ("@" + CollectionName(n, collection))[0] == '@' && Number("@" + CollectionName(n, collection)) == n
    ensures Ident(CollectionName(n, collection))
  {
    var key := "@" + CollectionName(n, collection);
    assert key == "@c" + Dec(n) + ("_" + Sanitized(collection));
    NumberAfter("@c", n, "_" + Sanitized(collection), key);
    assert AllIdent(Dec(n)) by { assert forall c :: IsDigit(c) ==> IsIdentChar(c); }
  }

  // ---- aliases ----

  function AliasText(prefix: string, n: nat): string {
    prefix + Dec(n)
  }

  /** `q` is `p` followed by a numeral. */
  predicate DigitExtension(p: string, q: string) {
    |p| < |q| && q[..|p|] == p && AllDigits(q[|p|..]) && q[|p|] != '0'
  }

  lemma ClashExtends(p: string, n: nat, q: string, m: nat)
    requires AliasText(p, n) == AliasText(q, m) && n != m && n > 0 && |p| <= |q|
    ensures DigitExtension(p, q)
  {
    var text := AliasText(p, n);
    assert text[..|p|] == p && text[..|q|] == q && text[|p|..] == Dec(n) && text[|q|..] == Dec(m);
    if |p| == |q| {
      DecInjective(n, m);
    } else {
      DecReadsBack(n);
      assert q[|p|..] == text[|p|..|q|];
      assert forall k :: 0 <= k < |q| - |p| ==> q[|p|..][k] == Dec(n)[k];
      assert q[|p|] == Dec(n)[0];
    }
  }

  lemma ExtensionClashes(p: string, q: string)
    requires DigitExtension(p, q)
    ensures exists n: nat, m: nat :: n > 0 && m > 0 && n != m && AliasText(p, n) == AliasText(q, m)
  {
    var ds := q[|p|..] + "1";
    var n, m := Undec(ds), 1;
    DecOfUndec(ds);
    assert Dec(m) == "1";
    assert AliasText(q, m) == p + ds;
    assert |Dec(n)| > 1 == |Dec(m)|;
    assert ds[..|ds| - 1] == q[|p|..];
    assert n > 0;
    assert AliasText(p, n) == AliasText(q, m);
  }

  /** Two prefixes can mint one alias for two counters exactly when one extends the other by a numeral. */
  lemma PrefixClash(p: string, q: string)
    ensures (exists n: nat, m: nat :: n > 0 && m > 0 && n != m && AliasText(p, n) == AliasText(q, m))
            <==> DigitExtension(p, q) || DigitExtension(q, p)
  {
    if exists n: nat, m: nat :: n > 0 && m > 0 && n != m && AliasText(p, n) == AliasText(q, m) {
      var n: nat, m: nat :| n > 0 && m > 0 && n != m && AliasText(p, n) == AliasText(q, m);
      if |p| <= |q| { ClashExtends(p, n, q, m); } else { ClashExtends(q, m, p, n); }
    }
    if DigitExtension(p, q) { ExtensionClashes(p, q); }
    if DigitExtension(q, p) {
      ExtensionClashes(q, p);
      var n: nat, m: nat :| n > 0 && m > 0 && n != m && AliasText(q, n) == AliasText(p, m);
      assert AliasText(p, m) == AliasText(q, n);
    }
  }

  predicate EndsInDigit(p: string) {
    p != "" && IsDigit(p[|p| - 1])
  }

  lemma ExtensionEndsInDigit(p: string, q: string)
    requires DigitExtension(p, q)
    ensures EndsInDigit(q)
  {
    assert q[|q| - 1] == q[|p|..][|q| - |p| - 1];
  }

  lemma ExtendedByHour24(p: string, q: string)
    requires DigitExtension(p, q) && q == "h24"
    ensures p == "h" || p == "h2"
  {
    assert p == q[..|p|];
    assert q[0] == 'h';
  }

  /** Prefixes of which only `h24` ends in a digit never clash, unless `h` is one too. */
  lemma OnlyHour24EndsInADigit(prefixes: set<string>)
    requires forall p :: p in prefixes && EndsInDigit(p) ==> p == "h24"
    requires "h" !in prefixes
    ensures forall p, q :: p in prefixes && q in prefixes ==> !DigitExtension(p, q)
  {
    forall p, q | p in prefixes && q in prefixes ensures !DigitExtension(p, q) {
      if DigitExtension(p, q) {
        ExtensionEndsInDigit(p, q);
        ExtendedByHour24(p, q);
        assert false;
      }
    }
  }
}
