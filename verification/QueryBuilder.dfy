/**
 The mutable AQL builder: name counters, bind parameters, the clauses collected, child builders
 for sub-queries and their absorption.
 */
module QueryBuilder {
  import opened Collections
  import opened Decimals
  import opened BuilderNames
  import opened AqlQuery

  datatype Error = InvalidName | InvalidCollection | ReservedSeed | AlreadyEmitted | NoReturn | NoFor | Collision
  datatype Result<+T> = Ok(value: T) | Err(error: Error)

  type Binds = map<string, Value>

  /** A marked key belongs to the counter values after `low` up to `high`. */
  predicate Placed(key: string, lowBind: nat, highBind: nat, lowColl: nat, highColl: nat) {
    && (key != "" && key[0] == '_' ==> lowBind < Number(key) <= highBind)
    && (key != "" && key[0] == '@' ==> lowColl < Number(key) <= highColl)
  }

  ghost predicate Extends(small: Binds, big: Binds) {
    forall k :: k in small ==> k in big && big[k] == small[k]
  }

  /** Some name has two values. */
  ghost predicate Conflict(a: Binds, b: Binds) {
    exists k :: k in a && k in b && a[k] != b[k]
  }

  /** What a merge that was refused has left: the old names, and some of the new ones. */
  ghost predicate PartlyMerged(before: Binds, added: Binds, now: Binds) {
    && Extends(before, now)
    && forall k :: k in now && k !in before ==> k in added && now[k] == added[k]
  }

  /** The names merged so far agree with what was there. */
  ghost predicate Merging(before: Binds, added: Binds, left: set<string>, now: Binds) {
    && left <= added.Keys && now == before + (added - left)
    && forall k :: k in before && k in added && k !in left ==> before[k] == added[k]
  }

  lemma MergingStarts(before: Binds, added: Binds)
    ensures Merging(before, added, added.Keys, before)
  {
    assert before + (added - added.Keys) == before;
  }

  lemma MergingEnds(before: Binds, added: Binds, now: Binds)
    requires Merging(before, added, {}, now)
    ensures now == before + added && !Conflict(before, added)
  {
    assert added - {} == added;
  }

  lemma MergeOne(before: Binds, added: Binds, left: set<string>, now: Binds, name: string)
    requires Merging(before, added, left, now) && name in left
    ensures name in now <==> name in before
    ensures name in now ==> now[name] == before[name]
    ensures !(name in now && now[name] != added[name])
         ==> Merging(before, added, left - {name}, now[name := added[name]])
  {
    var next := before + (added - (left - {name}));
    forall k ensures k in now[name := added[name]] <==> k in next {}
    if !(name in now && now[name] != added[name]) {
      forall k | k in next ensures now[name := added[name]][k] == next[k] {}
      assert now[name := added[name]] == next;
    }
  }

  lemma MergeRefused(before: Binds, added: Binds, left: set<string>, now: Binds, name: string)
    requires Merging(before, added, left, now) && name in left && name in before && before[name] != added[name]
    ensures Conflict(before, added) && PartlyMerged(before, added, now)
  {}

  // ---- what a run registers ----

  datatype Alias = Alias(prefix: string, n: nat)

  /** The bind names with their values, the collections, and the aliases a run put in its query. */
  datatype Log = Log(binds: seq<(string, Value)>, collections: seq<(string, string)>, aliases: seq<Alias>)

  function NoLog(): Log {
    Log([], [], [])
  }

  function Joined(a: Log, b: Log): Log {
    Log(a.binds + b.binds, a.collections + b.collections, a.aliases + b.aliases)
  }

  /** The counters move up through the log: no bind name and no alias number comes twice. */
  ghost predicate LogWithin(log: Log, lowBind: nat, highBind: nat, lowAlias: nat, highAlias: nat) {
    && lowBind <= highBind && lowAlias <= highAlias
    && (forall i :: 0 <= i < |log.binds| ==>
          Marked(log.binds[i].0) && lowBind < Number(log.binds[i].0) <= highBind)
    && (forall i, j :: 0 <= i < j < |log.binds| ==> Number(log.binds[i].0) < Number(log.binds[j].0))
    && (forall i :: 0 <= i < |log.aliases| ==> lowAlias < log.aliases[i].n <= highAlias)
    && (forall i, j :: 0 <= i < j < |log.aliases| ==> log.aliases[i].n < log.aliases[j].n)
  }

  /** Every placeholder of the log stands for the value it was registered with. */
  ghost predicate Resolves(log: Log, binds: Binds) {
    && (forall i :: 0 <= i < |log.binds| ==> log.binds[i].0 in binds && binds[log.binds[i].0] == log.binds[i].1)
    && (forall i :: 0 <= i < |log.collections| ==>
          var key := "@" + log.collections[i].0;
          key in binds && binds[key] == Str(log.collections[i].1))
  }

  lemma JoinedWithin(a: Log, b: Log, lowBind: nat, midBind: nat, highBind: nat, lowAlias: nat, midAlias: nat,
                     highAlias: nat)
    requires LogWithin(a, lowBind, midBind, lowAlias, midAlias)
    requires LogWithin(b, midBind, highBind, midAlias, highAlias)
    ensures LogWithin(Joined(a, b), lowBind, highBind, lowAlias, highAlias)
  {}

  lemma JoinedResolves(a: Log, b: Log, mid: Binds, binds: Binds)
    requires Resolves(a, mid) && Extends(mid, binds) && Resolves(b, binds)
    ensures Resolves(Joined(a, b), binds)
  {}

  lemma LogRises(log: Log, lowBind: nat, highBind: nat, lowAlias: nat, highAlias: nat)
    requires LogWithin(log, lowBind, highBind, lowAlias, highAlias)
    ensures forall i, j :: 0 <= i < j < |log.binds| ==> log.binds[i].0 != log.binds[j].0
  {}

  /** Under the prefix condition the aliases of one run are pairwise distinct texts. */
  lemma AliasesDiffer(log: Log, lowBind: nat, highBind: nat, lowAlias: nat, highAlias: nat)
    requires LogWithin(log, lowBind, highBind, lowAlias, highAlias)
    requires forall i, j :: 0 <= i < |log.aliases| && 0 <= j < |log.aliases| ==>
               !DigitExtension(log.aliases[i].prefix, log.aliases[j].prefix)
    ensures forall i, j :: 0 <= i < j < |log.aliases| ==>
              AliasText(log.aliases[i].prefix, log.aliases[i].n) != AliasText(log.aliases[j].prefix, log.aliases[j].n)
  {
    forall i, j | 0 <= i < j < |log.aliases|
      ensures AliasText(log.aliases[i].prefix, log.aliases[i].n) != AliasText(log.aliases[j].prefix, log.aliases[j].n)
    {
      var a, b := log.aliases[i], log.aliases[j];
      if AliasText(a.prefix, a.n) == AliasText(b.prefix, b.n) {
        if |a.prefix| <= |b.prefix| { ClashExtends(a.prefix, a.n, b.prefix, b.n); }
        else { ClashExtends(b.prefix, b.n, a.prefix, a.n); }
        assert false;
      }
    }
  }

  /** What a translation does with its builder; `Sub` opens a child while the parent stays idle. */
  datatype Op =
    | DoBind(value: Value, hint: string)
    | DoCollection(collection: string)
    | DoAlias(prefix: string)
    | DoFor(forPrefix: string, forCollection: string)
    | DoStep(step: Step)
    | Sub(ops: seq<Op>, absorb: bool)

  class AqlQueryBuilder {
    /** Python's `str.isprintable` of one character. */
    const printable: char -> bool
    var aliasCounter: nat
    var bindCounter: nat
    var collCounter: nat
    var collBindByName: map<string, string>
    var bindVars: Binds
    var bodyClauses: seq<Clause>
    var sortKeys: seq<SortKey>
    var limitClause: Option<Limit>
    var returnClause: Option<Return>
    var askMode: bool
    var emptyResultFallback: bool

    ghost const lowBind: nat
    ghost const lowColl: nat
    ghost const seedKeys: set<string>

    ghost predicate Valid()
      reads this
    {
      && lowBind <= bindCounter && lowColl <= collCounter
      && (forall k :: k in seedKeys ==> !Marked(k))
      && (forall k :: k in bindVars ==> Marked(k) || k in seedKeys)
      && (forall k :: k in bindVars ==> Placed(k, lowBind, bindCounter, lowColl, collCounter))
      && (forall c :: c in collBindByName ==>
            var key := "@" + collBindByName[c]; key in bindVars && bindVars[key] == Str(c))
    }

    function TheDraft(): Draft
      reads this
    {
      Draft(bodyClauses, sortKeys, limitClause, returnClause, askMode, emptyResultFallback)
    }

    /** A builder seeded with caller parameters none of which has a reserved name. */
    constructor (seeds: Binds, printable: char -> bool)
      requires forall k :: k in seeds ==> !Marked(k)
      ensures this.printable == printable
      ensures Valid() && bindVars == seeds && TheDraft() == EMPTY_DRAFT
      ensures bindCounter == lowBind == 0 && collCounter == lowColl == 0 && aliasCounter == 0 && seedKeys == seeds.Keys
    {
      this.printable := printable;
      aliasCounter, bindCounter, collCounter := 0, 0, 0;
      collBindByName, bindVars := map[], seeds;
      bodyClauses, sortKeys, limitClause, returnClause := [], [], None, None;
      askMode, emptyResultFallback := false, false;
      lowBind, lowColl, seedKeys := 0, 0, seeds.Keys;
    }

    /** The child of a builder: its counters, nothing else. */
    constructor Child(binds: nat, aliases: nat, collections: nat, printable: char -> bool)
      ensures this.printable == printable
      ensures Valid() && bindVars == map[] && TheDraft() == EMPTY_DRAFT && seedKeys == {}
      ensures bindCounter == lowBind == binds && collCounter == lowColl == collections && aliasCounter == aliases
    {
      this.printable := printable;
      aliasCounter, bindCounter, collCounter := aliases, binds, collections;
      collBindByName, bindVars := map[], map[];
      bodyClauses, sortKeys, limitClause, returnClause := [], [], None, None;
      askMode, emptyResultFallback := false, false;
      lowBind, lowColl, seedKeys := binds, collections, {};
    }

    method FreshAlias(prefix: string) returns (r: Result<string>)
      modifies this`aliasCounter
      ensures r.Ok? <==> MatchesIdent(prefix)
      ensures r.Ok? ==> aliasCounter == old(aliasCounter) + 1 && r.value == AliasText(prefix, aliasCounter)
      ensures r.Err? ==> r.error == InvalidName && aliasCounter == old(aliasCounter)
    {
      if !MatchesIdent(prefix) { return Err(InvalidName); }
      aliasCounter := aliasCounter + 1;
      return Ok(prefix + Dec(aliasCounter));
    }

    method Bind(value: Value, hint: string) returns (r: Result<string>)
      requires Valid()
      modifies this`bindCounter, this`bindVars
      ensures Valid() && bindCounter == old(bindCounter) + 1  // counted even when the hint is refused
      ensures r.Ok? <==> hint == "" || MatchesIdent(hint)
      ensures r.Err? ==> r.error == InvalidName && bindVars == old(bindVars)
      ensures r.Ok? ==>
                && r.value == BindName(bindCounter, hint)
                && r.value !in old(bindVars)
                && bindVars == old(bindVars)[r.value := value]
    {
      bindCounter := bindCounter + 1;
      if hint != "" && !MatchesIdent(hint) { return Err(InvalidName); }
      var name := "_p" + Dec(bindCounter) + if hint == "" then "" else "_" + hint;
      BindNameNumber(bindCounter, hint);
      bindVars := bindVars[name := value];
      return Ok(name);
    }

    method BindCollection(collection: string) returns (r: Result<string>)
      requires Valid()
      modifies this`collCounter, this`bindVars, this`collBindByName
      ensures Valid() && Extends(old(bindVars), bindVars) && collCounter >= old(collCounter)
      ensures r.Ok? <==> ValidCollectionName(printable, collection)
      ensures r.Err? ==> r.error == InvalidCollection && bindVars == old(bindVars)
      ensures r.Ok? ==> "@" + r.value in bindVars && bindVars["@" + r.value] == Str(collection)
      ensures r.Ok? && collection in old(collBindByName) ==> r.value == old(collBindByName)[collection]
      ensures r.Ok? ==> collection in collBindByName && collBindByName[collection] == r.value
    {
      if !ValidCollectionName(printable, collection) { return Err(InvalidCollection); }
      if collection in collBindByName { return Ok(collBindByName[collection]); }
      collCounter := collCounter + 1;
      var name := "c" + Dec(collCounter) + "_" + Sanitized(collection);
      CollectionNameNumber(collCounter, collection);
      collBindByName := collBindByName[collection := name];
      bindVars := bindVars["@" + name := Str(collection)];
      return Ok(name);
    }

    /** A call that adds or sets a clause. */
    method Take(step: Step) returns (r: Result<()>)
      requires Valid()
      modifies this`bodyClauses, this`sortKeys, this`limitClause, this`returnClause, this`askMode,
        this`emptyResultFallback
      ensures Valid()
      ensures r.Ok? <==> Drafted(old(TheDraft()), step).Some?
      ensures r.Ok? ==> TheDraft() == Drafted(old(TheDraft()), step).value
      ensures r.Err? ==> r.error == AlreadyEmitted && TheDraft() == old(TheDraft())
    {
      match step {
      case AddClause(c) => bodyClauses := bodyClauses + [c];
      case PutFirst(c) => bodyClauses := [c] + bodyClauses;
      case AddSort(k) => sortKeys := sortKeys + [k];
      case SetLimit(l) =>
        if limitClause.Some? { return Err(AlreadyEmitted); }
        limitClause := Some(l);
      case SetReturn(ret) =>
        if returnClause.Some? { return Err(AlreadyEmitted); }
        returnClause := Some(ret);
      case SetAsk => askMode := true;
      case SetFallback(on) => emptyResultFallback := on;
      }
      return Ok(());
    }

    /** `for_`: the collection goes in as a bind parameter. */
    method For(alias: string, collection: string) returns (r: Result<string>)
      requires Valid()
      modifies this`collCounter, this`bindVars, this`collBindByName, this`bodyClauses
      ensures Valid() && Extends(old(bindVars), bindVars) && collCounter >= old(collCounter)
      ensures r.Ok? <==> MatchesIdent(alias) && ValidCollectionName(printable, collection)
      ensures r.Ok? ==> "@" + r.value in bindVars && bindVars["@" + r.value] == Str(collection)
      ensures r.Ok? ==> TheDraft() == Drafted(old(TheDraft()), AddClause(ForCollection(alias, collection))).value
      ensures r.Err? ==> r.error != Collision && TheDraft() == old(TheDraft())
    {
      if !MatchesIdent(alias) { return Err(InvalidName); }
      r := BindCollection(collection);
      if r.Err? { return; }
      bodyClauses := bodyClauses + [ForCollection(alias, collection)];
    }

    /** The query, and the aliases its wrapping minted. */
    method Finalize(w: World) returns (r: Result<Query>, minted: seq<Alias>)
      modifies this`aliasCounter
      ensures r.Ok? <==> Complete(TheDraft())
      ensures r.Err? ==> r.error == (if returnClause.None? then NoReturn else NoFor)
                         && minted == [] && aliasCounter == old(aliasCounter)
      ensures r.Ok? ==>
                && r.value == Finalized(w, TheDraft(), old(aliasCounter))
                && |minted| == Minted(TheDraft()) && aliasCounter == old(aliasCounter) + |minted|
                && forall i :: 0 <= i < |minted| ==> minted[i].n == old(aliasCounter) + 1 + i
    {
      minted := [];
      if returnClause.None? { return Err(NoReturn), []; }
      if !HasFor(bodyClauses) { return Err(NoFor), []; }
      var d := TheDraft();
      r := Ok(Finalized(w, d, aliasCounter));
      if d.fallback {
        minted := [Alias("results", aliasCounter + 1), Alias("result", aliasCounter + 2)];
        aliasCounter := aliasCounter + 2;
      } else if d.limit.Some? && d.ret.value.distinct {
        minted := [Alias("deduped", aliasCounter + 1), Alias("row", aliasCounter + 2)];
        aliasCounter := aliasCounter + 2;
      }
    }

    method CreateChild() returns (child: AqlQueryBuilder)
      ensures fresh(child) && child.Valid() && child.bindVars == map[] && child.TheDraft() == EMPTY_DRAFT
      ensures child.seedKeys == {}
      ensures child.bindCounter == child.lowBind == bindCounter
      ensures child.collCounter == child.lowColl == collCounter
      ensures child.aliasCounter == aliasCounter && child.printable == printable
    {
      child := new AqlQueryBuilder.Child(bindCounter, aliasCounter, collCounter, printable);
    }

    /** The parent has minted nothing since the child was created. */
    ghost predicate Idle(child: AqlQueryBuilder)
      reads this, child
    {
      child.lowBind == bindCounter && child.lowColl == collCounter && child.seedKeys == {}
    }

    /** Takes over the child's parameters name by name, and stops at a name with another value. */
    method MergeBinds(childBinds: Binds) returns (merged: bool)
      modifies this`bindVars
      ensures merged <==> !Conflict(old(bindVars), childBinds)
      ensures merged ==> bindVars == old(bindVars) + childBinds
      ensures !merged ==> PartlyMerged(old(bindVars), childBinds, bindVars)
    {
      var left := childBinds.Keys;
      MergingStarts(bindVars, childBinds);
      while left != {}
        invariant Merging(old(bindVars), childBinds, left, bindVars)
        decreases |left|
      {
        var name :| name in left;
        MergeOne(old(bindVars), childBinds, left, bindVars, name);
        if name in bindVars && bindVars[name] != childBinds[name] {
          MergeRefused(old(bindVars), childBinds, left, bindVars, name);
          return false;
        }
        bindVars := bindVars[name := childBinds[name]];
        left := left - {name};
      }
      MergingEnds(old(bindVars), childBinds, bindVars);
      return true;
    }

    /** Merges the child's parameters and takes over its counters; a name with two values is refused. */
    method AbsorbChild(w: World, child: AqlQueryBuilder) returns (r: Result<Query>, minted: seq<Alias>)
      requires Valid() && child.Valid() && child != this
      modifies this`bindVars, this`bindCounter, this`aliasCounter, this`collCounter, child`aliasCounter
      ensures r.Ok? <==> Complete(child.TheDraft()) && !Conflict(old(bindVars), child.bindVars)
      ensures r.Err? && Complete(child.TheDraft()) ==> r.error == Collision
      ensures r.Err? && r.error == Collision ==>
                Conflict(old(bindVars), child.bindVars) && PartlyMerged(old(bindVars), child.bindVars, bindVars)
      ensures old(Idle(child)) ==> !Conflict(old(bindVars), child.bindVars) && Valid()
      ensures r.Err? ==>
                aliasCounter == old(aliasCounter) && bindCounter == old(bindCounter) && collCounter == old(collCounter)
      ensures r.Err? && r.error != Collision ==> bindVars == old(bindVars)
      ensures r.Ok? ==>
                && r.value == Finalized(w, child.TheDraft(), old(child.aliasCounter))
                && bindVars == old(bindVars) + child.bindVars
                && bindCounter == child.bindCounter && collCounter == child.collCounter
                && |minted| == Minted(child.TheDraft())
                && aliasCounter == child.aliasCounter == old(child.aliasCounter) + |minted|
                && forall i :: 0 <= i < |minted| ==> minted[i].n == old(child.aliasCounter) + 1 + i
    {
      if Idle(child) { NoConflictWhenIdle(child); }
      r, minted := child.Finalize(w);
      if r.Err? { return; }
      var merged := MergeBinds(child.bindVars);
      if !merged { return Err(Collision), []; }
      bindCounter, aliasCounter, collCounter := child.bindCounter, child.aliasCounter, child.collCounter;
    }

    /** A child that started at the parent's counters shares no key with it. */
    lemma NoConflictWhenIdle(child: AqlQueryBuilder)
      requires Valid() && child.Valid() && Idle(child)
      ensures bindVars.Keys !! child.bindVars.Keys
    {}

    /**
     Over every stack-disciplined run: absorbing never collides, earlier parameters keep their
     values, every placeholder the query got resolves to its registered value, and neither a
     bind name nor an alias number is minted twice.
     */
    method Perform(w: World, ops: seq<Op>) returns (r: Result<Log>)
      requires Valid()
      modifies this
      ensures Valid() && Extends(old(bindVars), bindVars)
      ensures bindCounter >= old(bindCounter) && collCounter >= old(collCounter) && aliasCounter >= old(aliasCounter)
      ensures r.Err? ==> r.error != Collision
      ensures r.Ok? ==>
                && LogWithin(r.value, old(bindCounter), bindCounter, old(aliasCounter), aliasCounter)
                && Resolves(r.value, bindVars)
                && forall i :: 0 <= i < |r.value.binds| ==> r.value.binds[i].0 !in old(bindVars)
      decreases ops, 0
    {
      if ops == [] { return Ok(NoLog()); }
      var first := PerformOne(w, ops[0]);
      if first.Err? { return first; }
      ghost var midBinds, midBind, midAlias := bindVars, bindCounter, aliasCounter;
      var rest := Perform(w, ops[1..]);
      if rest.Err? { return rest; }
      JoinedWithin(first.value, rest.value, old(bindCounter), midBind, bindCounter, old(aliasCounter), midAlias,
                   aliasCounter);
      JoinedResolves(first.value, rest.value, midBinds, bindVars);
      return Ok(Joined(first.value, rest.value));
    }

    method PerformOne(w: World, op: Op) returns (r: Result<Log>)
      requires Valid()
      modifies this
      ensures Valid() && Extends(old(bindVars), bindVars)
      ensures bindCounter >= old(bindCounter) && collCounter >= old(collCounter) && aliasCounter >= old(aliasCounter)
      ensures r.Err? ==> r.error != Collision
      ensures r.Ok? ==>
                && LogWithin(r.value, old(bindCounter), bindCounter, old(aliasCounter), aliasCounter)
                && Resolves(r.value, bindVars)
                && forall i :: 0 <= i < |r.value.binds| ==> r.value.binds[i].0 !in old(bindVars)
      decreases op, 0
    {
      match op {
      case DoBind(value, hint) =>
        r := PerformBind(value, hint);
      case DoCollection(collection) =>
        var name := BindCollection(collection);
        if name.Err? { return Err(name.error); }
        return Ok(Log([], [(name.value, collection)], []));
      case DoAlias(prefix) =>
        var alias := FreshAlias(prefix);
        if alias.Err? { return Err(alias.error); }
        return Ok(Log([], [], [Alias(prefix, aliasCounter)]));
      case DoFor(prefix, collection) =>
        r := PerformFor(prefix, collection);
      case DoStep(step) =>
        var done := Take(step);
        if done.Err? { return Err(done.error); }
        return Ok(NoLog());
      case Sub(ops, absorb) =>
        r := PerformSub(w, ops, absorb);
      }
    }

    method PerformBind(value: Value, hint: string) returns (r: Result<Log>)
      requires Valid()
      modifies this`bindCounter, this`bindVars
      ensures Valid() && Extends(old(bindVars), bindVars) && bindCounter >= old(bindCounter)
      ensures r.Err? ==> r.error != Collision
      ensures r.Ok? ==>
                && LogWithin(r.value, old(bindCounter), bindCounter, aliasCounter, aliasCounter)
                && Resolves(r.value, bindVars)
                && forall i :: 0 <= i < |r.value.binds| ==> r.value.binds[i].0 !in old(bindVars)
    {
      var name := Bind(value, hint);
      if name.Err? { return Err(name.error); }
      BindNameNumber(bindCounter, hint);
      return Ok(Log([(name.value, value)], [], []));
    }

    method PerformFor(prefix: string, collection: string) returns (r: Result<Log>)
      requires Valid()
      modifies this
      ensures Valid() && Extends(old(bindVars), bindVars) && bindCounter == old(bindCounter)
      ensures collCounter >= old(collCounter) && aliasCounter >= old(aliasCounter)
      ensures r.Err? ==> r.error != Collision
      ensures r.Ok? ==>
                && LogWithin(r.value, bindCounter, bindCounter, old(aliasCounter), aliasCounter)
                && Resolves(r.value, bindVars) && r.value.binds == []
    {
      var alias := FreshAlias(prefix);
      if alias.Err? { return Err(alias.error); }
      var name := For(alias.value, collection);
      if name.Err? { return Err(name.error); }
      return Ok(Log([], [(name.value, collection)], [Alias(prefix, aliasCounter)]));
    }

    method PerformSub(w: World, ops: seq<Op>, absorb: bool) returns (r: Result<Log>)
      requires Valid()
      modifies this
      ensures Valid() && Extends(old(bindVars), bindVars)
      ensures bindCounter >= old(bindCounter) && collCounter >= old(collCounter) && aliasCounter >= old(aliasCounter)
      ensures r.Err? ==> r.error != Collision
      ensures r.Ok? ==>
                && LogWithin(r.value, old(bindCounter), bindCounter, old(aliasCounter), aliasCounter)
                && Resolves(r.value, bindVars)
                && forall i :: 0 <= i < |r.value.binds| ==> r.value.binds[i].0 !in old(bindVars)
      decreases ops, 1
    {
      var child := CreateChild();
      var log := child.Perform(w, ops);
      if log.Err? { return log; }
      if !absorb { return Ok(NoLog()); }  // a probe: its names are dropped with it
      assert Idle(child);
      ghost var own, childAlias := child.bindVars, child.aliasCounter;
      var absorbed, minted := AbsorbChild(w, child);
      if absorbed.Err? { return Err(absorbed.error); }
      var tail := Log([], [], minted);
      assert LogWithin(tail, bindCounter, bindCounter, childAlias, aliasCounter);
      JoinedWithin(log.value, tail, old(bindCounter), bindCounter, bindCounter, old(aliasCounter), childAlias,
                   aliasCounter);
      JoinedResolves(log.value, tail, own, bindVars);
      return Ok(Joined(log.value, tail));
    }
  }

  /**
   The stack discipline is needed: when a parent and its open child both bind next, they take
   one name, and absorbing the child is refused.
   */
  method InterleavedBindsCollide(w: World, parent: AqlQueryBuilder, child: AqlQueryBuilder, mine: Value, theirs: Value,
                                 hint: string)
    returns (r: Result<Query>)
    requires parent != child && parent.Valid() && child.Valid() && child.bindCounter == parent.bindCounter
    requires Complete(child.TheDraft()) && mine != theirs && (hint == "" || MatchesIdent(hint))
    modifies parent, child
    ensures r == Err(Collision)
  {
    var a := parent.Bind(mine, hint);
    var b := child.Bind(theirs, hint);
    assert a == b;
    assert parent.bindVars[a.value] == mine && child.bindVars[a.value] == theirs;
    var absorbed, _ := parent.AbsorbChild(w, child);
    r := absorbed;
  }

  /** A builder for caller parameters; a reserved name is refused. */
  method Seeded(seeds: Binds, printable: char -> bool) returns (r: Result<AqlQueryBuilder>)
    ensures r.Ok? <==> forall k :: k in seeds ==> !Marked(k)
    ensures r.Err? ==> r.error == ReservedSeed
    ensures r.Ok? ==>
              fresh(r.value) && r.value.Valid() && r.value.bindVars == seeds && r.value.TheDraft() == EMPTY_DRAFT
    ensures r.Ok? ==> r.value.printable == printable
  {
    if exists k :: k in seeds && Marked(k) { return Err(ReservedSeed); }
    var builder := new AqlQueryBuilder(seeds, printable);
    return Ok(builder);
  }
}
