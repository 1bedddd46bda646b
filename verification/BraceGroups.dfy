/** Which class declarations count for the subject at the caret: those in groups still open there. */
module BraceGroups {
  import opened Collections
  import EditorLexer
  import EditorScan

  /** Opening minus closing braces after `a` and before `j`. */
  function Balance(text: string, a: nat, j: nat): int
    requires a < j <= |text|
    decreases j
  {
    if j == a + 1 then 0
    else Balance(text, a, j - 1) + (if text[j - 1] == '{' then 1 else if text[j - 1] == '}' then -1 else 0)
  }

  /** The group opened at `a` has not been closed before `upto`: closing braces never outnumber. */
  ghost predicate OpenIn(text: string, a: nat, upto: nat)
    requires upto <= |text|
  {
    a < upto && text[a] == '{' && forall k :: a < k <= upto ==> Balance(text, a, k) >= 0
  }

  /** Every group around `at` is still open at the end of the text. */
  ghost predicate EnclosingStillOpen(text: string, at: nat)
    requires at <= |text|
  {
    forall a: nat :: OpenIn(text, a, at) ==> OpenIn(text, a, |text|)
  }

  lemma OpenEarlier(text: string, a: nat, i: nat, j: nat)
    requires a < i <= j <= |text| && OpenIn(text, a, j)
    ensures OpenIn(text, a, i)
  {}

  lemma OpenStep(text: string, a: nat, i: nat)
    requires a < i < |text|
    ensures OpenIn(text, a, i + 1) <==> OpenIn(text, a, i) && Balance(text, a, i + 1) >= 0
  {}

  /** Where a group that is open at `i` and not at the end is closed. */
  lemma ClosingBrace(text: string, a: nat, i: nat) returns (b: nat)
    requires i <= |text| && OpenIn(text, a, i) && !OpenIn(text, a, |text|)
    ensures i <= b < |text| && OpenIn(text, a, b) && !OpenIn(text, a, b + 1) && text[b] == '}'
    decreases |text| - i
  {
    OpenStep(text, a, i);
    if OpenIn(text, a, i + 1) {
      b := ClosingBrace(text, a, i + 1);
    } else {
      b := i;
    }
  }

  ghost predicate Closes(text: string, upto: nat, pair: (nat, nat))
    requires upto <= |text|
  {
    pair.0 < pair.1 < upto && OpenIn(text, pair.0, pair.1) && !OpenIn(text, pair.0, pair.1 + 1)
  }

  /** The stack holds exactly the groups open at `i`, and the place on it counts the groups inside. */
  ghost predicate StackOf(text: string, i: nat, open: seq<nat>)
    requires i <= |text|
  {
    && (forall p :: 0 <= p < |open| ==> OpenIn(text, open[p], i) && Balance(text, open[p], i) == |open| - 1 - p)
    && (forall a: nat :: OpenIn(text, a, i) ==> a in open)
  }

  lemma PushGroup(text: string, i: nat, open: seq<nat>)
    requires i < |text| && text[i] == '{' && StackOf(text, i, open)
    ensures StackOf(text, i + 1, open + [i])
    ensures forall a: nat :: a < i && OpenIn(text, a, i) ==> OpenIn(text, a, i + 1)
  {
    forall a: nat | OpenIn(text, a, i + 1) ensures a in open + [i] {
      if a < i { OpenStep(text, a, i); assert a in open; }
      else { assert (open + [i])[|open|] == i; }
    }
  }

  lemma PopGroup(text: string, i: nat, open: seq<nat>)
    requires i < |text| && text[i] == '}' && StackOf(text, i, open)
    ensures open == [] ==> StackOf(text, i + 1, open)
    ensures open != [] ==> StackOf(text, i + 1, open[..|open| - 1])
    ensures forall a: nat :: a < i && OpenIn(text, a, i) ==>
              (!OpenIn(text, a, i + 1) <==> open != [] && a == open[|open| - 1])
  {
    forall a: nat | a < i && OpenIn(text, a, i)
      ensures !OpenIn(text, a, i + 1) <==> open != [] && a == open[|open| - 1]
    {
      OpenStep(text, a, i);
      var p :| 0 <= p < |open| && open[p] == a;
    }
    var left := if open == [] then open else open[..|open| - 1];
    forall a: nat | OpenIn(text, a, i + 1) ensures a in left {
      OpenStep(text, a, i);
      var p :| 0 <= p < |open| && open[p] == a;
      assert left[p] == a;
    }
    forall p | 0 <= p < |open| - 1
      ensures OpenIn(text, open[p], i + 1) && Balance(text, open[p], i + 1) == |open| - 2 - p
    {
      OpenStep(text, open[p], i);
    }
  }

  lemma OtherChar(text: string, i: nat, open: seq<nat>)
    requires i < |text| && text[i] != '{' && text[i] != '}' && StackOf(text, i, open)
    ensures StackOf(text, i + 1, open)
    ensures forall a: nat :: a < i && OpenIn(text, a, i) ==> OpenIn(text, a, i + 1)
  {
    forall a: nat | OpenIn(text, a, i + 1) ensures a in open {
      OpenStep(text, a, i);
    }
  }

  /** The groups closed in the text, found with the stack of open ones. */
  method ClosedGroups(text: string) returns (closed: seq<(nat, nat)>)
    ensures forall pair :: pair in closed <==> Closes(text, |text|, pair)
  {
    closed := [];
    var open: seq<nat> := [];
    for i := 0 to |text|
      invariant StackOf(text, i, open)
      invariant forall pair :: pair in closed <==> Closes(text, i, pair)
    {
      ghost var before := closed;
      if text[i] == '{' {
        PushGroup(text, i, open);
        open := open + [i];
      } else if text[i] == '}' {
        PopGroup(text, i, open);
        if open != [] {
          closed := closed + [(open[|open| - 1], i)];
          open := open[..|open| - 1];
        }
      } else {
        OtherChar(text, i, open);
      }
      ClosedSnoc(text, i, before, closed);
    }
  }

  lemma ClosedSnoc(text: string, i: nat, before: seq<(nat, nat)>, closed: seq<(nat, nat)>)
    requires i < |text| && forall pair :: pair in before <==> Closes(text, i, pair)
    requires forall pair :: pair in closed <==> pair in before || (pair.1 == i && Closes(text, i + 1, pair))
    ensures forall pair :: pair in closed <==> Closes(text, i + 1, pair)
  {
    forall pair: (nat, nat) ensures pair in closed <==> Closes(text, i + 1, pair) {}
  }

  predicate InClosed(closed: seq<(nat, nat)>, at: nat) {
    exists n :: 0 <= n < |closed| && closed[n].0 < at < closed[n].1
  }

  /** A declaration lies in a closed group exactly when some group around it is no longer open. */
  lemma CountsExactly(text: string, closed: seq<(nat, nat)>, at: nat)
    requires at < |text| && text[at] != '{' && text[at] != '}'
    requires forall pair :: pair in closed <==> Closes(text, |text|, pair)
    ensures !InClosed(closed, at) <==> EnclosingStillOpen(text, at)
  {
    if InClosed(closed, at) {
      var n :| 0 <= n < |closed| && closed[n].0 < at < closed[n].1;
      var a, b := closed[n].0, closed[n].1;
      assert Closes(text, |text|, closed[n]);
      OpenEarlier(text, a, at, b);
    }
    if !EnclosingStillOpen(text, at) {
      var a: nat :| OpenIn(text, a, at) && !OpenIn(text, a, |text|);
      var b := ClosingBrace(text, a, at);
      assert Closes(text, |text|, (a, b));
      assert (a, b) in closed;
    }
  }

  /** A place where the query says `?s a c:Class`, and the class named. */
  datatype Declaration = Declaration(at: nat, name: string)

  ghost predicate Counts(text: string, known: set<string>, d: Declaration)
    requires d.at <= |text|
  {
    d.name in known && EnclosingStillOpen(text, d.at)
  }

  /** The classes of the declarations that count, in the order they are declared. */
  ghost function CountingNames(text: string, known: set<string>, declarations: seq<Declaration>): seq<string>
    requires forall n :: 0 <= n < |declarations| ==> declarations[n].at <= |text|
  {
    if declarations == [] then []
    else
      var last := declarations[|declarations| - 1];
      CountingNames(text, known, declarations[..|declarations| - 1])
      + if Counts(text, known, last) then [last.name] else []
  }

  /** One more declaration: its class is added when it counts and is new. */
  lemma FoundOneMore(text: string, known: set<string>, declarations: seq<Declaration>, n: nat, found: seq<string>)
    requires n < |declarations| && forall k :: 0 <= k < |declarations| ==> declarations[k].at <= |text|
    requires found == AddNew([], CountingNames(text, known, declarations[..n]))
    ensures AddNew([], CountingNames(text, known, declarations[..n + 1]))
         == if Counts(text, known, declarations[n]) && declarations[n].name !in found
            then found + [declarations[n].name] else found
  {
    var names, name := CountingNames(text, known, declarations[..n]), declarations[n].name;
    CountOneMore(text, known, declarations, n);
    if Counts(text, known, declarations[n]) {
      AddNewAppend([], names, [name]);
      assert [name][1..] == [];
    } else {
      assert names + [] == names;
    }
  }

  lemma CountOneMore(text: string, known: set<string>, declarations: seq<Declaration>, n: nat)
    requires n < |declarations| && forall k :: 0 <= k < |declarations| ==> declarations[k].at <= |text|
    ensures CountingNames(text, known, declarations[..n + 1])
         == CountingNames(text, known, declarations[..n])
           + if Counts(text, known, declarations[n]) then [declarations[n].name] else []
  {
    assert declarations[..n + 1][..n] == declarations[..n];
  }

  lemma {:induction false} CountingNamesAre(text: string, known: set<string>, declarations: seq<Declaration>)
    requires forall n :: 0 <= n < |declarations| ==> declarations[n].at <= |text|
    ensures forall name :: name in CountingNames(text, known, declarations) <==>
              exists n :: 0 <= n < |declarations| && declarations[n].name == name
                && Counts(text, known, declarations[n])
    decreases |declarations|
  {
    if declarations != [] {
      var init, last := declarations[..|declarations| - 1], declarations[|declarations| - 1];
      CountingNamesAre(text, known, init);
      assert declarations == init + [last];
    }
  }

  /** `subjectClasses`: the known classes some declaration of which counts, each once, in the order first declared. */
  method SubjectClasses(text: string, declarations: seq<Declaration>, known: set<string>) returns (found: seq<string>)
    requires forall n :: 0 <= n < |declarations| ==>
               declarations[n].at < |text| && (text[declarations[n].at] == '?' || text[declarations[n].at] == '$')
    ensures found == AddNew([], CountingNames(text, known, declarations))
    ensures Distinct(found)
    ensures forall name :: name in found <==>
              exists n :: 0 <= n < |declarations| && declarations[n].name == name
                && Counts(text, known, declarations[n])
  {
    var closed := ClosedGroups(text);
    found := [];
    for n := 0 to |declarations|
      invariant found == AddNew([], CountingNames(text, known, declarations[..n]))
    {
      var d := declarations[n];
      CountsExactly(text, closed, d.at);
      FoundOneMore(text, known, declarations, n, found);
      if d.name in known && !InClosed(closed, d.at) && d.name !in found {
        found := found + [d.name];
      }
    }
    assert declarations[..|declarations|] == declarations;
    AddNewMembers([], CountingNames(text, known, declarations));
    CountingNamesAre(text, known, declarations);
  }

  /** The text before the caret, comments and literals blanked: only braces outside them are left. */
  method TextBefore(doc: string, caret: nat, notOperand: set<string>) returns (text: string)
    requires caret <= |doc|
    ensures |text| == caret
    ensures forall k :: 0 <= k < caret && (text[k] == '{' || text[k] == '}') <==>
              0 <= k < caret && (doc[k] == '{' || doc[k] == '}')
              && !EditorScan.InKind(EditorLexer.Spans(doc, notOperand),
                                     {EditorLexer.Comment, EditorLexer.StringSpan, EditorLexer.OpenString}, k)
  {
    var blanked := EditorScan.Blank(doc, {EditorLexer.Comment, EditorLexer.StringSpan, EditorLexer.OpenString},
                                     notOperand);
    text := blanked[..caret];
  }
}
