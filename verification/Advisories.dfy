/**
 The advisories a schema resolver raises. A resolution is cached, and its cache entry remembers
 what it raised; a hit reports that again. A translation collects what its own resolutions
 raise, and that list is shown to depend on the ontology and the translation alone: not on
 what the resolver resolved, cached or surveyed before.
 */
module Advisories {

  datatype Entry = Entry(code: string, iri: string, message: string)
  datatype Id = Id(kind: string, key: string)

  /** What a resolution or a translation does to the log. */
  datatype Action =
    | Warn(entry: Entry)
    | Resolve(id: Id)
    | Quietly(survey: seq<Action>)
    | Collect(scope: seq<Action>)
    | Attempt(body: seq<Action>)   // a failure inside is caught
    | Fail                         // a resolution error

  /** What resolving each key does on a miss; a resolution only needs ones of lower rank. */
  datatype Ontology = Ontology(body: Id -> seq<Action>, rank: Id -> nat)

  predicate Below(ont: Ontology, acts: seq<Action>, bound: nat) {
    forall a :: a in acts ==> BelowOne(ont, a, bound)
  }

  predicate BelowOne(ont: Ontology, a: Action, bound: nat) {
    match a
    case Warn(_) => true
    case Resolve(id) => ont.rank(id) < bound
    case Quietly(b) => forall x :: x in b ==> BelowOne(ont, x, bound)
    case Collect(b) => forall x :: x in b ==> BelowOne(ont, x, bound)
    case Attempt(b) => forall x :: x in b ==> BelowOne(ont, x, bound)
    case Fail => true
  }

  ghost predicate Acyclic(ont: Ontology) {
    forall id :: Below(ont, ont.body(id), ont.rank(id))
  }

  // ---- what a cold run raises ----

  /** The advisories raised, in order, and whether the actions completed. */
  datatype Outcome = Outcome(raised: seq<Entry>, ok: bool)

  ghost function Raised(ont: Ontology, acts: seq<Action>, bound: nat): Outcome
    requires Acyclic(ont) && Below(ont, acts, bound)
    decreases bound, acts
  {
    if acts == [] then Outcome([], true)
    else
      var first := RaisedOne(ont, acts[0], bound);
      if !first.ok then first
      else
        var rest := Raised(ont, acts[1..], bound);
        Outcome(first.raised + rest.raised, rest.ok)
  }

  ghost function RaisedOne(ont: Ontology, a: Action, bound: nat): Outcome
    requires Acyclic(ont) && BelowOne(ont, a, bound)
    decreases bound, a
  {
    match a
    case Warn(e) => Outcome([e], true)
    case Resolve(id) => Raised(ont, ont.body(id), ont.rank(id))
    case Quietly(b) => Outcome([], Raised(ont, b, bound).ok)
    case Collect(b) => Raised(ont, b, bound)
    case Attempt(b) => Outcome(Raised(ont, b, bound).raised, true)
    case Fail => Outcome([], false)
  }

  // ---- de-duplication by (code, iri) ----

  function Key(e: Entry): (string, string) {
    (e.code, e.iri)
  }

  function Keys(es: seq<Entry>): set<(string, string)> {
    set e | e in es :: Key(e)
  }

  ghost predicate DistinctKeys(es: seq<Entry>) {
    forall i, j :: 0 <= i < j < |es| ==> Key(es[i]) != Key(es[j])
  }

  /** `_record` of each entry in turn. */
  function Merge(ws: seq<Entry>, es: seq<Entry>): (r: seq<Entry>)
    ensures ws <= r
    decreases |es|
  {
    if es == [] then ws
    else Merge(if Key(es[0]) in Keys(ws) then ws else ws + [es[0]], es[1..])
  }

  /** The entries whose key no earlier entry has. */
  function Firsts(es: seq<Entry>): seq<Entry> {
    if es == [] then []
    else
      var init, last := es[..|es| - 1], es[|es| - 1];
      Firsts(init) + if Key(last) in Keys(init) then [] else [last]
  }

  lemma KeysSnoc(ws: seq<Entry>, e: Entry)
    ensures Keys(ws + [e]) == Keys(ws) + {Key(e)}
  {
    assert forall x :: x in ws + [e] <==> x in ws || x == e;
  }

  lemma {:induction false} FirstsKeys(es: seq<Entry>)
    ensures Keys(Firsts(es)) == Keys(es) && DistinctKeys(Firsts(es))
    decreases |es|
  {
    if es != [] {
      var init, last := es[..|es| - 1], es[|es| - 1];
      FirstsKeys(init);
      assert es == init + [last];
      KeysSnoc(init, last);
      KeysSnoc(Firsts(init), last);
      assert forall i :: 0 <= i < |Firsts(init)| ==> Key(Firsts(init)[i]) in Keys(Firsts(init));
    }
  }

  lemma FirstsSnoc(es: seq<Entry>, e: Entry)
    ensures Firsts(es + [e]) == if Key(e) in Keys(es) then Firsts(es) else Firsts(es) + [e]
  {
    assert (es + [e])[..|es|] == es;
  }

  lemma {:induction false} FirstsOfDistinct(es: seq<Entry>)
    requires DistinctKeys(es)
    ensures Firsts(es) == es
    decreases |es|
  {
    if es != [] {
      var init, last := es[..|es| - 1], es[|es| - 1];
      assert es == init + [last];
      FirstsOfDistinct(init);
      assert Key(last) !in Keys(init);
    }
  }

  /** Recording onto distinct advisories keeps the first occurrence of every key. */
  lemma {:induction false} MergeKeepsFirsts(ws: seq<Entry>, es: seq<Entry>, all: seq<Entry>)
    requires Firsts(all) == ws
    ensures Merge(ws, es) == Firsts(all + es)
    decreases |es|
  {
    if es == [] {
      assert all + es == all;
    } else {
      FirstsKeys(all);
      FirstsSnoc(all, es[0]);
      assert all + es == (all + [es[0]]) + es[1..];
      MergeKeepsFirsts(Firsts(all + [es[0]]), es[1..], all + [es[0]]);
    }
  }

  /** De-duplicating first and recording afterwards is recording. */
  lemma {:induction false} FirstsThenMerge(ws: seq<Entry>, es: seq<Entry>)
    requires DistinctKeys(ws)
    ensures Merge(ws, Firsts(es)) == Firsts(ws + es)
    ensures Merge(ws, es) == Firsts(ws + es)
    decreases |es|
  {
    FirstsOfDistinct(ws);
    MergeKeepsFirsts(ws, es, ws);
    MergeKeepsFirsts(ws, Firsts(es), ws);
    FirstsIdempotent(ws, es);
  }

  lemma {:induction false} FirstsIdempotent(ws: seq<Entry>, es: seq<Entry>)
    ensures Firsts(ws + Firsts(es)) == Firsts(ws + es)
    decreases |es|
  {
    if es != [] {
      var init, last := es[..|es| - 1], es[|es| - 1];
      assert es == init + [last];
      FirstsIdempotent(ws, init);
      FirstsIdempotentStep(ws, init, last);
    }
  }

  lemma FirstsNew(ws: seq<Entry>, es: seq<Entry>, last: Entry)
    ensures Firsts(ws + (es + [last])) == Firsts(ws + es) + if Key(last) in Keys(ws) + Keys(es) then [] else [last]
  {
    assert ws + (es + [last]) == (ws + es) + [last];
    FirstsSnoc(ws + es, last);
    KeysAppend(ws, es);
  }

  lemma FirstsIdempotentStep(ws: seq<Entry>, init: seq<Entry>, last: Entry)
    requires Firsts(ws + Firsts(init)) == Firsts(ws + init)
    ensures Firsts(ws + Firsts(init + [last])) == Firsts(ws + (init + [last]))
  {
    FirstsNew(ws, init, last);
    FirstsSnoc(init, last);
    if Key(last) !in Keys(init) {
      FirstsKeys(init);
      FirstsNew(ws, Firsts(init), last);
    }
  }

  lemma KeysAppend(a: seq<Entry>, b: seq<Entry>)
    ensures Keys(a + b) == Keys(a) + Keys(b)
  {
    assert forall x :: x in a + b <==> x in a || x in b;
  }

  lemma {:induction false} MergeAppend(ws: seq<Entry>, a: seq<Entry>, b: seq<Entry>)
    ensures Merge(Merge(ws, a), b) == Merge(ws, a + b)
    decreases |a|
  {
    if a == [] {
      assert a + b == b;
    } else {
      assert (a + b)[1..] == a[1..] + b;
      MergeAppend(if Key(a[0]) in Keys(ws) then ws else ws + [a[0]], a[1..], b);
    }
  }

  // ---- what that means, code and IRI written out ----

  predicate SameAdvisory(a: Entry, b: Entry) {
    a.code == b.code && a.iri == b.iri
  }

  predicate Heard(es: seq<Entry>, e: Entry) {
    exists k :: 0 <= k < |es| && SameAdvisory(es[k], e)
  }

  /** `ys` are the entries of `es` at these places, none of them heard before, and none left out. */
  ghost predicate FirstsAt(es: seq<Entry>, ys: seq<Entry>, at: seq<nat>) {
    && |at| == |ys| && (forall i :: 0 <= i < |at| ==> at[i] < |es| && es[at[i]] == ys[i])
    && (forall i, k :: 0 <= i < |at| && 0 <= k < at[i] ==> !SameAdvisory(es[k], ys[i]))
    && (forall i, j :: 0 <= i < j < |at| ==> at[i] < at[j])
    && forall k :: 0 <= k < |es| ==> Heard(ys, es[k])
  }

  /** Each advisory once, at its first occurrence, in order. */
  ghost predicate AreFirsts(es: seq<Entry>, ys: seq<Entry>) {
    exists at :: FirstsAt(es, ys, at)
  }

  lemma KeyIsHeard(es: seq<Entry>, e: Entry)
    ensures Key(e) in Keys(es) <==> Heard(es, e)
  {
    if Heard(es, e) {
      var k :| 0 <= k < |es| && SameAdvisory(es[k], e);
      assert es[k] in es && Key(es[k]) == Key(e);
    }
  }

  lemma HeardMore(ys: seq<Entry>, more: seq<Entry>, e: Entry)
    requires Heard(ys, e)
    ensures Heard(ys + more, e)
  {
    var k :| 0 <= k < |ys| && SameAdvisory(ys[k], e);
    assert (ys + more)[k] == ys[k];
  }

  lemma HeardAgain(es: seq<Entry>, e: Entry, ys: seq<Entry>, at: seq<nat>)
    requires FirstsAt(es, ys, at) && Heard(ys, e)
    ensures FirstsAt(es + [e], ys, at)
  {}

  lemma HeardNew(es: seq<Entry>, e: Entry, ys: seq<Entry>, at: seq<nat>)
    requires FirstsAt(es, ys, at) && !Heard(es, e)
    ensures FirstsAt(es + [e], ys + [e], at + [|es|])
  {
    forall k | 0 <= k < |es + [e]| ensures Heard(ys + [e], (es + [e])[k]) {
      if k < |es| { HeardMore(ys, [e], es[k]); } else { assert SameAdvisory((ys + [e])[|ys|], e); }
    }
  }

  lemma FirstsOneMore(init: seq<Entry>, last: Entry)
    ensures Heard(init, last) ==> Firsts(init + [last]) == Firsts(init) && Heard(Firsts(init), last)
    ensures !Heard(init, last) ==> Firsts(init + [last]) == Firsts(init) + [last]
  {
    FirstsSnoc(init, last);
    KeyIsHeard(init, last);
    KeyIsHeard(Firsts(init), last);
    FirstsKeys(init);
  }

  lemma PlacedOneMore(init: seq<Entry>, last: Entry, ys: seq<Entry>, at: seq<nat>) returns (next: seq<nat>)
    requires ys == Firsts(init) && FirstsAt(init, ys, at)
    ensures FirstsAt(init + [last], Firsts(init + [last]), next)
  {
    FirstsOneMore(init, last);
    if Heard(init, last) {
      HeardAgain(init, last, ys, at);
      next := at;
    } else {
      HeardNew(init, last, ys, at);
      next := at + [|init|];
    }
  }

  lemma {:induction false} FirstsArePlaced(es: seq<Entry>, n: nat) returns (at: seq<nat>)
    requires n <= |es|
    ensures FirstsAt(es[..n], Firsts(es[..n]), at)
  {
    if n == 0 {
      at := [];
    } else {
      var init, last := es[..n - 1], es[n - 1];
      assert es[..n] == init + [last];
      var before := FirstsArePlaced(es, n - 1);
      at := PlacedOneMore(init, last, Firsts(init), before);
    }
  }

  lemma FirstsAreFirsts(es: seq<Entry>)
    ensures AreFirsts(es, Firsts(es))
  {
    var at := FirstsArePlaced(es, |es|);
    assert es[..|es|] == es;
  }

  // ---- the log ----

  class AdvisoryLog {
    var warnings: seq<Entry>
    var warnedKeys: set<(string, string)>
    var entryWarnings: map<Id, seq<Entry>>
    var captures: seq<seq<Entry>>   // the open captures, innermost last
    var cache: set<Id>              // the resolver's caches

    ghost predicate Valid()
      reads this
    {
      warnedKeys == Keys(warnings) && DistinctKeys(warnings)
    }

    /** Each cached resolution completed, and its entry holds exactly what it raises cold. */
    ghost predicate Faithful(ont: Ontology)
      requires Acyclic(ont)
      reads this
    {
      && Valid()
      && forall id :: id in cache ==>
           id in entryWarnings && Raised(ont, ont.body(id), ont.rank(id)) == Outcome(entryWarnings[id], true)
    }

    constructor ()
      ensures warnings == [] && cache == {} && captures == []
      ensures forall ont: Ontology | Acyclic(ont) :: Faithful(ont)
    {
      warnings, warnedKeys, entryWarnings, captures, cache := [], {}, map[], [], {};
    }

    method Record(entry: Entry)
      requires Valid()
      modifies this`warnings, this`warnedKeys
      ensures Valid() && warnings == Merge(old(warnings), [entry])
      ensures warnings == if exists k :: 0 <= k < |old(warnings)| && old(warnings)[k].code == entry.code
                                         && old(warnings)[k].iri == entry.iri
                          then old(warnings) else old(warnings) + [entry]
    {
      KeyIsHeard(warnings, entry);
      assert Heard(warnings, entry) <==>
             exists k :: 0 <= k < |warnings| && warnings[k].code == entry.code && warnings[k].iri == entry.iri;
      KeysSnoc(warnings, entry);
      assert Merge(warnings, [entry]) == if Key(entry) in Keys(warnings) then warnings else warnings + [entry];
      if Key(entry) in warnedKeys { return; }
      warnedKeys := warnedKeys + {Key(entry)};
      warnings := warnings + [entry];
    }

    method RecordAll(es: seq<Entry>)
      requires Valid()
      modifies this`warnings, this`warnedKeys
      ensures Valid() && warnings == Merge(old(warnings), es)
    {
      for k := 0 to |es|
        invariant Valid() && warnings == Merge(old(warnings), es[..k])
      {
        Record(es[k]);
        assert es[..k + 1] == es[..k] + [es[k]];
        MergeAppend(old(warnings), es[..k], [es[k]]);
      }
      assert es[..|es|] == es;
    }

    method WarnSchema(entry: Entry)
      requires Valid()
      modifies this`warnings, this`warnedKeys, this`captures
      ensures Valid() && warnings == Merge(old(warnings), [entry])
      ensures captures == Captured(old(captures), [entry])
    {
      captures := Captured(captures, [entry]);
      Record(entry);
    }

    method Replay(id: Id)
      requires Valid()
      modifies this`warnings, this`warnedKeys, this`captures
      ensures Valid()
      ensures var es := if id in entryWarnings then entryWarnings[id] else [];
              warnings == Merge(old(warnings), es) && captures == Captured(old(captures), es)
    {
      var es := if id in entryWarnings then entryWarnings[id] else [];
      CapturedNothing(captures);
      for k := 0 to |es|
        invariant Valid()
        invariant warnings == Merge(old(warnings), es[..k]) && captures == Captured(old(captures), es[..k])
      {
        WarnSchema(es[k]);
        assert es[..k + 1] == es[..k] + [es[k]];
        MergeAppend(old(warnings), es[..k], [es[k]]);
        CapturedAppend(old(captures), es[..k], [es[k]]);
      }
      assert es[..|es|] == es;
    }

    /** `_capture` around a resolution that misses: its body, then its cache entry. */
    method ResolveMiss(ont: Ontology, id: Id) returns (ok: bool)
      requires Acyclic(ont) && Faithful(ont) && id !in cache
      modifies this
      ensures Faithful(ont)
      ensures var r := Raised(ont, ont.body(id), ont.rank(id));
              ok == r.ok && warnings == Merge(old(warnings), r.raised) && captures == Captured(old(captures), r.raised)
      decreases ont.rank(id), ont.body(id), 1
    {
      captures := captures + [[]];
      ok := Perform(ont, ont.body(id), ont.rank(id));
      ghost var r := Raised(ont, ont.body(id), ont.rank(id));
      var captured := captures[|captures| - 1];
      captures := captures[..|captures| - 1];
      assert captured == [] + r.raised;
      assert captures == Captured(old(captures), r.raised);
      entryWarnings := entryWarnings[id := captured];
      if ok { cache := cache + {id}; }
    }

    method PerformOne(ont: Ontology, a: Action, bound: nat) returns (ok: bool)
      requires Acyclic(ont) && BelowOne(ont, a, bound) && Faithful(ont)
      modifies this
      ensures Faithful(ont)
      ensures var r := RaisedOne(ont, a, bound);
              ok == r.ok && warnings == Merge(old(warnings), r.raised) && captures == Captured(old(captures), r.raised)
      decreases bound, a, 0
    {
      CapturedNothing(captures);
      match a
      case Warn(e) =>
        WarnSchema(e);
        ok := true;
      case Resolve(id) =>
        if id in cache {
          Replay(id);
          ok := true;
        } else {
          ok := ResolveMiss(ont, id);
        }
      case Quietly(b) =>
        var saved, savedKeys, savedCaptures := warnings, warnedKeys, captures;
        captures := [];
        ok := Perform(ont, b, bound);
        captures, warnings, warnedKeys := savedCaptures, saved, savedKeys;
      case Collect(b) =>
        var _, done := CollectingWarnings(ont, b, bound);
        ok := done;
        FirstsThenMerge(old(warnings), Raised(ont, b, bound).raised);
      case Attempt(b) =>
        var _ := Perform(ont, b, bound);
        ok := true;
      case Fail =>
        ok := false;
    }

    method Perform(ont: Ontology, acts: seq<Action>, bound: nat) returns (ok: bool)
      requires Acyclic(ont) && Below(ont, acts, bound) && Faithful(ont)
      modifies this
      ensures Faithful(ont)
      ensures var r := Raised(ont, acts, bound);
              ok == r.ok && warnings == Merge(old(warnings), r.raised) && captures == Captured(old(captures), r.raised)
      decreases bound, acts, 0
    {
      CapturedNothing(captures);
      ok := true;
      if acts != [] {
        ok := PerformOne(ont, acts[0], bound);
        if ok {
          ghost var first := RaisedOne(ont, acts[0], bound).raised;
          ok := Perform(ont, acts[1..], bound);
          ghost var rest := Raised(ont, acts[1..], bound).raised;
          MergeAppend(old(warnings), first, rest);
          CapturedAppend(old(captures), first, rest);
        }
      }
    }

    /**
     `collecting_warnings` around the actions of one translation. Whatever state the log is in,
     the yielded list is the first occurrences of what the actions raise in a fresh resolver;
     on exit the outer list is the first occurrences of outer then collected.
     */
    method CollectingWarnings(ont: Ontology, acts: seq<Action>, bound: nat) returns (yielded: seq<Entry>, ok: bool)
      requires Acyclic(ont) && Below(ont, acts, bound) && Faithful(ont)
      modifies this
      ensures Faithful(ont)
      ensures var r := Raised(ont, acts, bound);
              && ok == r.ok && yielded == Firsts(r.raised)
              && captures == Captured(old(captures), r.raised)
      ensures AreFirsts(Raised(ont, acts, bound).raised, yielded) && AreFirsts(old(warnings) + yielded, warnings)
      ensures warnings == Firsts(old(warnings) + yielded) == Merge(old(warnings), yielded)
      decreases bound, acts, 1
    {
      var outer, outerKeys := warnings, warnedKeys;
      warnings, warnedKeys := [], {};
      ok := Perform(ont, acts, bound);
      MergeIntoNothing(Raised(ont, acts, bound).raised);
      yielded := warnings;
      warnings, warnedKeys := outer, outerKeys;
      RecordAll(yielded);
      CollectedAreFirsts(outer, Raised(ont, acts, bound).raised, yielded, warnings);
    }
  }

  lemma CollectedAreFirsts(outer: seq<Entry>, es: seq<Entry>, yielded: seq<Entry>, all: seq<Entry>)
    requires DistinctKeys(outer) && yielded == Firsts(es) && all == Merge(outer, yielded)
    ensures all == Firsts(outer + yielded) && AreFirsts(es, yielded) && AreFirsts(outer + yielded, all)
  {
    FirstsThenMerge(outer, yielded);
    FirstsAreFirsts(es);
    FirstsAreFirsts(outer + yielded);
  }

  lemma MergeIntoNothing(es: seq<Entry>)
    ensures Merge([], es) == Firsts(es)
  {
    FirstsThenMerge([], es);
    assert [] + es == es;
  }

  /** Every open capture has heard the entries. */
  function Captured(captures: seq<seq<Entry>>, es: seq<Entry>): (r: seq<seq<Entry>>)
    ensures |r| == |captures|
  {
    seq(|captures|, i requires 0 <= i < |captures| => captures[i] + es)
  }

  lemma CapturedNothing(captures: seq<seq<Entry>>)
    ensures Captured(captures, []) == captures
  {
    assert forall i :: 0 <= i < |captures| ==> captures[i] + [] == captures[i];
  }

  lemma CapturedAppend(captures: seq<seq<Entry>>, a: seq<Entry>, b: seq<Entry>)
    ensures Captured(Captured(captures, a), b) == Captured(captures, a + b)
  {
    forall i | 0 <= i < |captures| ensures captures[i] + a + b == captures[i] + (a + b) {}
  }
}
