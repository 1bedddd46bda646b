/**
 The AQL the builder emits, as clauses with a small evaluator, and how finalize assembles
 them. Expressions stand for what they evaluate to in an environment of AQL variables.
 */
module AqlQuery {
  import opened Collections
  import opened Decimals

  datatype Value =
    | Null
    | Bool(b: bool)
    | Num(n: int)
    | Str(s: string)
    | Arr(items: seq<Value>)
    | Obj(fields: map<string, Value>)

  type Env = map<string, Value>

  datatype SortKey = SortKey(expr: Env -> Value, descending: bool)

  datatype Clause =
    | ForCollection(alias: string, collection: string)
    | ForIn(alias: string, source: Env -> seq<Value>)
    | FilterBy(cond: Env -> bool)
    | Let(alias: string, expr: Env -> Value)
    | SortBy(keys: seq<SortKey>)
    | LimitTo(offset: nat, count: nat)
    | Collect(groups: seq<Env> -> seq<Env>)

  /** A block: its clauses, then RETURN [DISTINCT]. */
  datatype Query = Query(clauses: seq<Clause>, ret: Env -> Value, distinct: bool)

  /** The documents of each collection, and how SORT orders rows. */
  datatype World = World(db: string -> seq<Value>, order: (seq<SortKey>, seq<Env>) -> seq<Env>)

  // ---- evaluation ----

  function Bindings(env: Env, alias: string, vs: seq<Value>): (r: seq<Env>)
    ensures |r| == |vs|
  {
    seq(|vs|, i requires 0 <= i < |vs| => env[alias := vs[i]])
  }

  function Loop(rows: seq<Env>, alias: string, source: Env -> seq<Value>): seq<Env> {
    if rows == [] then [] else Bindings(rows[0], alias, source(rows[0])) + Loop(rows[1..], alias, source)
  }

  function Keep(rows: seq<Env>, cond: Env -> bool): seq<Env> {
    if rows == [] then [] else (if cond(rows[0]) then [rows[0]] else []) + Keep(rows[1..], cond)
  }

  function Min(a: nat, b: nat): nat {
    if a <= b then a else b
  }

  /** `count` elements from `offset` on, as far as there are. */
  function Slice<T>(xs: seq<T>, offset: nat, count: nat): (r: seq<T>)
    ensures |r| == if offset >= |xs| then 0 else if offset + count > |xs| then |xs| - offset else count
    ensures forall k :: 0 <= k < |r| ==> r[k] == xs[offset + k]
  {
    xs[Min(offset, |xs|)..Min(offset + count, |xs|)]
  }

  function Apply(w: World, c: Clause, rows: seq<Env>): seq<Env> {
    match c
    case ForCollection(alias, collection) => Loop(rows, alias, env => w.db(collection))
    case ForIn(alias, source) => Loop(rows, alias, source)
    case FilterBy(cond) => Keep(rows, cond)
    case Let(alias, expr) => seq(|rows|, i requires 0 <= i < |rows| => rows[i][alias := expr(rows[i])])
    case SortBy(keys) => w.order(keys, rows)
    case LimitTo(offset, count) => Slice(rows, offset, count)
    case Collect(groups) => groups(rows)
  }

  function ApplyAll(w: World, cs: seq<Clause>, rows: seq<Env>): seq<Env> {
    if cs == [] then rows else ApplyAll(w, cs[1..], Apply(w, cs[0], rows))
  }

  function Project(rows: seq<Env>, ret: Env -> Value): (r: seq<Value>)
    ensures |r| == |rows|
  {
    seq(|rows|, i requires 0 <= i < |rows| => ret(rows[i]))
  }

  /** RETURN DISTINCT keeps the order of its input. */
  function Deduplicated(vs: seq<Value>, distinct: bool): seq<Value> {
    if distinct then AddNew([], vs) else vs
  }

  function Run(w: World, q: Query, env: Env): seq<Value> {
    Deduplicated(Project(ApplyAll(w, q.clauses, [env]), q.ret), q.distinct)
  }

  lemma {:induction false} ApplyAllAppend(w: World, a: seq<Clause>, b: seq<Clause>, rows: seq<Env>)
    ensures ApplyAll(w, a + b, rows) == ApplyAll(w, b, ApplyAll(w, a, rows))
    decreases |a|
  {
    if a == [] {
      assert a + b == b;
    } else {
      assert (a + b)[1..] == a[1..] + b;
      ApplyAllAppend(w, a[1..], b, Apply(w, a[0], rows));
    }
  }

  lemma ApplyOne(w: World, c: Clause, rows: seq<Env>)
    ensures ApplyAll(w, [c], rows) == Apply(w, c, rows)
  {
    assert [c][1..] == [];
  }

  // ---- a query under construction ----

  datatype Limit = Limit(offset: nat, count: nat)
  datatype Return = Return(expr: Env -> Value, distinct: bool)

  /** The clauses a builder has collected, by kind. */
  datatype Draft = Draft(
    body: seq<Clause>, sorts: seq<SortKey>, limit: Option<Limit>, ret: Option<Return>, ask: bool, fallback: bool)

  const EMPTY_DRAFT := Draft([], [], None, None, false, false)

  predicate IsFor(c: Clause) {
    c.ForCollection? || c.ForIn?
  }

  predicate HasFor(cs: seq<Clause>) {
    exists k :: 0 <= k < |cs| && IsFor(cs[k])
  }

  /** finalize raises without a RETURN or without a FOR. */
  predicate Complete(d: Draft) {
    d.ret.Some? && HasFor(d.body)
  }

  function ItemsOf(v: Value): seq<Value> {
    if v.Arr? then v.items else []
  }

  function Lookup(env: Env, alias: string): Value {
    if alias in env then env[alias] else Null
  }

  function LimitClauses(d: Draft): seq<Clause> {
    match d.limit case None => [] case Some(l) => [LimitTo(l.offset, l.count)]
  }

  /** Body and SORT, in the order finalize writes them. */
  function Ordered(d: Draft): seq<Clause> {
    d.body + if d.sorts == [] then [] else [SortBy(d.sorts)]
  }

  /** How many aliases finalize mints: two for each wrapping it needs. */
  function Minted(d: Draft): nat
    requires d.ret.Some?
  {
    if d.fallback || (d.limit.Some? && d.ret.value.distinct) then 2 else 0
  }

  /** LET list = (inner) FOR row IN source(list) [LIMIT] RETURN row, as one evaluated block. */
  function Wrapped(w: World, inner: Query, listAlias: string, rowAlias: string,
                   source: seq<Value> -> seq<Value>, limit: seq<Clause>): Query {
    Query([Let(listAlias, env => Arr(Run(w, inner, env))),
           ForIn(rowAlias, (env: Env) => source(ItemsOf(Lookup(env, listAlias))))] + limit,
          (env: Env) => Lookup(env, rowAlias), false)
  }

  /** finalize, before the ASK wrapping; `n` is the alias counter. */
  function Body(w: World, d: Draft, n: nat): Query
    requires d.ret.Some?
  {
    var inner := Query(Ordered(d), d.ret.value.expr, d.ret.value.distinct);
    if d.fallback then
      Wrapped(w, inner, "results" + Dec(n + 1), "result" + Dec(n + 2),
              (vs: seq<Value>) => if |vs| == 0 then [Obj(map[])] else vs, LimitClauses(d))
    else if d.limit.Some? && d.ret.value.distinct then
      Wrapped(w, inner, "deduped" + Dec(n + 1), "row" + Dec(n + 2), (vs: seq<Value>) => vs, LimitClauses(d))
    else
      Query(Ordered(d) + LimitClauses(d), d.ret.value.expr, d.ret.value.distinct)
  }

  function Finalized(w: World, d: Draft, n: nat): Query
    requires d.ret.Some?
  {
    if d.ask then Query([], env => Bool(|Run(w, Body(w, d, n), env)| > 0), false) else Body(w, d, n)
  }

  // ---- what the query means (section 18.2.5 of SPARQL 1.1) ----

  function OrderBy(w: World, sorts: seq<SortKey>, rows: seq<Env>): seq<Env> {
    if sorts == [] then rows else w.order(sorts, rows)
  }

  function Limited(vs: seq<Value>, limit: Option<Limit>): seq<Value> {
    match limit case None => vs case Some(l) => Slice(vs, l.offset, l.count)
  }

  /** Distinct(Project(OrderBy(body))), with one empty row for an empty grouping. */
  function Solutions(w: World, d: Draft, env: Env): seq<Value>
    requires d.ret.Some?
  {
    var vs := Deduplicated(Project(OrderBy(w, d.sorts, ApplyAll(w, d.body, [env])), d.ret.value.expr),
                           d.ret.value.distinct);
    if d.fallback && |vs| == 0 then [Obj(map[])] else vs
  }

  function Meaning(w: World, d: Draft, env: Env): seq<Value>
    requires d.ret.Some?
  {
    var sliced := Limited(Solutions(w, d, env), d.limit);
    if d.ask then [Bool(|sliced| > 0)] else sliced
  }

  lemma OrderedRows(w: World, d: Draft, env: Env)
    ensures ApplyAll(w, Ordered(d), [env]) == OrderBy(w, d.sorts, ApplyAll(w, d.body, [env]))
  {
    if d.sorts == [] {
      assert Ordered(d) == d.body;
    } else {
      ApplyAllAppend(w, d.body, [SortBy(d.sorts)], [env]);
      ApplyOne(w, SortBy(d.sorts), ApplyAll(w, d.body, [env]));
    }
  }

  lemma ProjectSlice(rows: seq<Env>, ret: Env -> Value, offset: nat, count: nat)
    ensures Project(Slice(rows, offset, count), ret) == Slice(Project(rows, ret), offset, count)
  {}

  lemma LimitApplied(w: World, d: Draft, rows: seq<Env>, ret: Env -> Value)
    ensures Project(ApplyAll(w, LimitClauses(d), rows), ret) == Limited(Project(rows, ret), d.limit)
  {
    if d.limit.Some? {
      var l := d.limit.value;
      ApplyOne(w, LimitTo(l.offset, l.count), rows);
      ProjectSlice(rows, ret, l.offset, l.count);
    }
  }

  /** A wrapped block yields the inner rows, each once and in order, then limits them. */
  lemma WrappedRows(w: World, inner: Query, listAlias: string, rowAlias: string,
                    source: seq<Value> -> seq<Value>, d: Draft, env: Env)
    ensures Run(w, Wrapped(w, inner, listAlias, rowAlias, source, LimitClauses(d)), env)
         == Limited(source(Run(w, inner, env)), d.limit)
  {
    var q := Wrapped(w, inner, listAlias, rowAlias, source, LimitClauses(d));
    var letClause, forClause := q.clauses[0], q.clauses[1];
    assert q.clauses == [letClause] + ([forClause] + LimitClauses(d));
    ApplyAllAppend(w, [letClause], [forClause] + LimitClauses(d), [env]);
    ApplyOne(w, letClause, [env]);
    var env1 := env[listAlias := Arr(Run(w, inner, env))];
    assert Apply(w, letClause, [env]) == [env1];
    ApplyAllAppend(w, [forClause], LimitClauses(d), [env1]);
    ApplyOne(w, forClause, [env1]);
    var vs := source(Run(w, inner, env));
    assert Lookup(env1, listAlias) == Arr(Run(w, inner, env));
    assert forClause.source(env1) == source(ItemsOf(Lookup(env1, listAlias)));
    assert Loop([env1], rowAlias, forClause.source)
      == Bindings(env1, rowAlias, vs) + Loop([], rowAlias, forClause.source);
    var rows := Bindings(env1, rowAlias, vs);
    assert Apply(w, forClause, [env1]) == rows;
    LimitApplied(w, d, rows, q.ret);
    assert Project(rows, q.ret) == vs;
  }

  lemma BodyMeans(w: World, d: Draft, n: nat, env: Env)
    requires d.ret.Some?
    ensures Run(w, Body(w, d, n), env) == Limited(Solutions(w, d, env), d.limit)
  {
    OrderedRows(w, d, env);
    var inner := Query(Ordered(d), d.ret.value.expr, d.ret.value.distinct);
    if d.fallback {
      WrappedRows(w, inner, "results" + Dec(n + 1), "result" + Dec(n + 2),
                  (vs: seq<Value>) => if |vs| == 0 then [Obj(map[])] else vs, d, env);
    } else if d.limit.Some? && d.ret.value.distinct {
      WrappedRows(w, inner, "deduped" + Dec(n + 1), "row" + Dec(n + 2), (vs: seq<Value>) => vs, d, env);
    } else {
      ApplyAllAppend(w, Ordered(d), LimitClauses(d), [env]);
      LimitApplied(w, d, ApplyAll(w, Ordered(d), [env]), d.ret.value.expr);
      if d.limit.None? { assert Ordered(d) + LimitClauses(d) == Ordered(d); }
    }
  }

  /**
   The finalized query evaluates to Slice(Distinct(Project(OrderBy(body)))), whatever aliases
   the wrapping mints; a grouped query's empty result becomes one empty row before the slice,
   and ASK answers whether the result is non-empty.
   */
  lemma FinalizedMeans(w: World, d: Draft, n: nat, env: Env)
    requires d.ret.Some?
    ensures Run(w, Finalized(w, d, n), env) == Meaning(w, d, env)
  {
    BodyMeans(w, d, n, env);
    if d.ask {
      var q := Finalized(w, d, n);
      assert ApplyAll(w, q.clauses, [env]) == [env];
      assert Project([env], q.ret) == [q.ret(env)];
    }
  }

  // ---- in whatever order the clauses arrive ----

  datatype Step =
    | AddClause(clause: Clause)
    | PutFirst(clause: Clause)        // let_first, open_one_row_scope_first
    | AddSort(key: SortKey)
    | SetLimit(limit: Limit)
    | SetReturn(ret: Return)
    | SetAsk
    | SetFallback(on: bool)

  /** One call on the builder; None when it raises because there is a LIMIT or a RETURN already. */
  function Drafted(d: Draft, step: Step): Option<Draft> {
    match step
    case AddClause(c) => Some(d.(body := d.body + [c]))
    case PutFirst(c) => Some(d.(body := [c] + d.body))
    case AddSort(k) => Some(d.(sorts := d.sorts + [k]))
    case SetLimit(l) => if d.limit.Some? then None else Some(d.(limit := Some(l)))
    case SetReturn(r) => if d.ret.Some? then None else Some(d.(ret := Some(r)))
    case SetAsk => Some(d.(ask := true))
    case SetFallback(on) => Some(d.(fallback := on))
  }

  function DraftedAll(d: Draft, steps: seq<Step>): Option<Draft>
    decreases |steps|
  {
    if steps == [] then Some(d)
    else
      match Drafted(d, steps[0])
      case None => None
      case Some(d1) => DraftedAll(d1, steps[1..])
  }

  /** Which part of the draft a step sets. */
  function Part(s: Step): nat {
    match s
    case AddClause(_) => 0
    case PutFirst(_) => 0
    case AddSort(_) => 1
    case SetLimit(_) => 2
    case SetReturn(_) => 3
    case SetAsk => 4
    case SetFallback(_) => 5
  }

  function OfPart(steps: seq<Step>, part: nat): seq<Step> {
    if steps == [] then [] else (if Part(steps[0]) == part then [steps[0]] else []) + OfPart(steps[1..], part)
  }

  /** Each part of the draft is what the steps of that part alone make of it. */
  ghost predicate SamePart(d: Draft, e: Draft, part: nat) {
    && (part == 0 ==> d.body == e.body)
    && (part == 1 ==> d.sorts == e.sorts)
    && (part == 2 ==> d.limit == e.limit)
    && (part == 3 ==> d.ret == e.ret)
    && (part == 4 ==> d.ask == e.ask)
    && (part == 5 ==> d.fallback == e.fallback)
  }

  lemma {:induction false} PartAlone(d: Draft, e: Draft, steps: seq<Step>, part: nat)
    requires SamePart(d, e, part) && DraftedAll(d, steps).Some?
    ensures DraftedAll(e, OfPart(steps, part)).Some?
    ensures SamePart(DraftedAll(d, steps).value, DraftedAll(e, OfPart(steps, part)).value, part)
    decreases |steps|
  {
    if steps != [] {
      var d1 := Drafted(d, steps[0]).value;
      if Part(steps[0]) == part {
        var e1 := Drafted(e, steps[0]).value;
        PartAlone(d1, e1, steps[1..], part);
        assert ([steps[0]] + OfPart(steps[1..], part))[1..] == OfPart(steps[1..], part);
      } else {
        PartAlone(d1, e, steps[1..], part);
        assert [] + OfPart(steps[1..], part) == OfPart(steps[1..], part);
      }
    }
  }

  /** A run is refused exactly for a second LIMIT or a second RETURN. */
  lemma {:induction false} RefusedExactly(d: Draft, steps: seq<Step>)
    ensures DraftedAll(d, steps).Some?
            <==> && |OfPart(steps, 2)| <= (if d.limit.Some? then 0 else 1)
                 && |OfPart(steps, 3)| <= (if d.ret.Some? then 0 else 1)
    decreases |steps|
  {
    if steps != [] && Drafted(d, steps[0]).Some? {
      RefusedExactly(Drafted(d, steps[0]).value, steps[1..]);
    }
  }

  /**
   Two runs that add the same body clauses, sort keys, LIMIT, RETURN and modes, each kind in
   the same order but interleaved in any way, come to the same draft, or are both refused.
   */
  lemma InterleavingIsIrrelevant(a: seq<Step>, b: seq<Step>)
    requires forall part :: 0 <= part < 6 ==> OfPart(a, part) == OfPart(b, part)
    ensures DraftedAll(EMPTY_DRAFT, a) == DraftedAll(EMPTY_DRAFT, b)
  {
    RefusedExactly(EMPTY_DRAFT, a);
    RefusedExactly(EMPTY_DRAFT, b);
    assert OfPart(a, 2) == OfPart(b, 2) && OfPart(a, 3) == OfPart(b, 3);
    if DraftedAll(EMPTY_DRAFT, a).Some? {
      forall part | 0 <= part < 6
        ensures SamePart(DraftedAll(EMPTY_DRAFT, a).value, DraftedAll(EMPTY_DRAFT, b).value, part)
      {
        PartAlone(EMPTY_DRAFT, EMPTY_DRAFT, a, part);
        PartAlone(EMPTY_DRAFT, EMPTY_DRAFT, b, part);
      }
      var d, e := DraftedAll(EMPTY_DRAFT, a).value, DraftedAll(EMPTY_DRAFT, b).value;
      assert SamePart(d, e, 0) && SamePart(d, e, 1) && SamePart(d, e, 2);
      assert SamePart(d, e, 3) && SamePart(d, e, 4) && SamePart(d, e, 5);
    }
  }

  // ---- the draft of a run, read off its calls ----

  /** The sort keys, in the order they are added. */
  function SortKeys(steps: seq<Step>): seq<SortKey> {
    if steps == [] then []
    else (if steps[0].AddSort? then [steps[0].key] else []) + SortKeys(steps[1..])
  }

  /** The clauses put behind those there are, in the order they come. */
  function Appended(steps: seq<Step>): seq<Clause> {
    if steps == [] then []
    else (if steps[0].AddClause? then [steps[0].clause] else []) + Appended(steps[1..])
  }

  /** The clauses put before those there are, in the order they come. */
  function Prepended(steps: seq<Step>): seq<Clause> {
    if steps == [] then []
    else (if steps[0].PutFirst? then [steps[0].clause] else []) + Prepended(steps[1..])
  }

  function Limits(steps: seq<Step>): seq<Limit> {
    if steps == [] then []
    else (if steps[0].SetLimit? then [steps[0].limit] else []) + Limits(steps[1..])
  }

  function Returns(steps: seq<Step>): seq<Return> {
    if steps == [] then []
    else (if steps[0].SetReturn? then [steps[0].ret] else []) + Returns(steps[1..])
  }

  function Fallbacks(steps: seq<Step>): seq<bool> {
    if steps == [] then []
    else (if steps[0].SetFallback? then [steps[0].on] else []) + Fallbacks(steps[1..])
  }

  function Backwards<T>(xs: seq<T>): (r: seq<T>)
    ensures |r| == |xs| && forall k :: 0 <= k < |xs| ==> r[k] == xs[|xs| - 1 - k]
  {
    seq(|xs|, k requires 0 <= k < |xs| => xs[|xs| - 1 - k])
  }

  function FirstOr<T>(one: Option<T>, more: seq<T>): Option<T> {
    if one.Some? || more == [] then one else Some(more[0])
  }

  function LastOr(mode: bool, modes: seq<bool>): bool {
    if modes == [] then mode else modes[|modes| - 1]
  }

  /**
   What a run collects: what was put first from the last back, then what was added; the sort keys in
   order; the LIMIT and the RETURN; ASK once it was asked for; and the last fallback mode.
   */
  ghost function Collected(steps: seq<Step>): Draft {
    Draft(Backwards(Prepended(steps)) + Appended(steps), SortKeys(steps),
          if Limits(steps) == [] then None else Some(Limits(steps)[0]),
          if Returns(steps) == [] then None else Some(Returns(steps)[0]),
          SetAsk in steps,
          LastOr(false, Fallbacks(steps)))
  }

  /** A draft so far, and what the calls still to come add to it. */
  ghost predicate Continues(d: Draft, steps: seq<Step>, e: Draft) {
    && e.body == Backwards(Prepended(steps)) + d.body + Appended(steps)
    && e.sorts == d.sorts + SortKeys(steps)
    && e.limit == FirstOr(d.limit, Limits(steps)) && e.ret == FirstOr(d.ret, Returns(steps))
    && (e.ask <==> d.ask || SetAsk in steps) && e.fallback == LastOr(d.fallback, Fallbacks(steps))
  }

  lemma BackwardsCons<T>(x: T, xs: seq<T>)
    ensures Backwards([x] + xs) == Backwards(xs) + [x]
  {}

  lemma BodyContinues(d: Draft, step: Step, rest: seq<Step>, body: seq<Clause>)
    requires Drafted(d, step).Some?
    requires body == Backwards(Prepended(rest)) + Drafted(d, step).value.body + Appended(rest)
    ensures body == Backwards(Prepended([step] + rest)) + d.body + Appended([step] + rest)
  {
    assert ([step] + rest)[1..] == rest;
    var before, after := Backwards(Prepended(rest)), Appended(rest);
    if step.PutFirst? {
      BackwardsCons(step.clause, Prepended(rest));
      assert before + ([step.clause] + d.body) + after == before + [step.clause] + d.body + after;
    } else if step.AddClause? {
      assert before + (d.body + [step.clause]) + after == before + d.body + ([step.clause] + after);
    }
  }

  lemma SortsContinue(d: Draft, step: Step, rest: seq<Step>, sorts: seq<SortKey>)
    requires Drafted(d, step).Some? && sorts == Drafted(d, step).value.sorts + SortKeys(rest)
    ensures sorts == d.sorts + SortKeys([step] + rest)
  {
    assert ([step] + rest)[1..] == rest;
  }

  lemma LimitContinues(d: Draft, step: Step, rest: seq<Step>)
    requires Drafted(d, step).Some? && (d.limit.Some? || !step.SetLimit? || Limits(rest) == [])
    ensures FirstOr(Drafted(d, step).value.limit, Limits(rest)) == FirstOr(d.limit, Limits([step] + rest))
  {
    assert ([step] + rest)[1..] == rest;
  }

  lemma ReturnContinues(d: Draft, step: Step, rest: seq<Step>)
    requires Drafted(d, step).Some? && (d.ret.Some? || !step.SetReturn? || Returns(rest) == [])
    ensures FirstOr(Drafted(d, step).value.ret, Returns(rest)) == FirstOr(d.ret, Returns([step] + rest))
  {
    assert ([step] + rest)[1..] == rest;
  }

  lemma FallbackContinues(d: Draft, step: Step, rest: seq<Step>)
    requires Drafted(d, step).Some?
    ensures LastOr(Drafted(d, step).value.fallback, Fallbacks(rest)) == LastOr(d.fallback, Fallbacks([step] + rest))
  {
    assert ([step] + rest)[1..] == rest;
  }

  lemma AskContinues(d: Draft, step: Step, rest: seq<Step>)
    requires Drafted(d, step).Some?
    ensures Drafted(d, step).value.ask || SetAsk in rest <==> d.ask || SetAsk in [step] + rest
  {}

  lemma StepContinues(d: Draft, step: Step, rest: seq<Step>, e: Draft)
    requires Drafted(d, step).Some? && Continues(Drafted(d, step).value, rest, e)
    requires d.limit.Some? || !step.SetLimit? || Limits(rest) == []
    requires d.ret.Some? || !step.SetReturn? || Returns(rest) == []
    ensures Continues(d, [step] + rest, e)
  {
    BodyContinues(d, step, rest, e.body);
    SortsContinue(d, step, rest, e.sorts);
    LimitContinues(d, step, rest);
    ReturnContinues(d, step, rest);
    AskContinues(d, step, rest);
    FallbackContinues(d, step, rest);
  }

  /** A run from a draft is refused exactly for a second LIMIT or a second RETURN. */
  lemma {:induction false} RunRefused(d: Draft, steps: seq<Step>)
    ensures DraftedAll(d, steps).Some?
            <==> && |Limits(steps)| <= (if d.limit.Some? then 0 else 1)
                 && |Returns(steps)| <= (if d.ret.Some? then 0 else 1)
    decreases |steps|
  {
    if steps != [] && Drafted(d, steps[0]).Some? { RunRefused(Drafted(d, steps[0]).value, steps[1..]); }
  }

  /** And else it adds what its calls collect. */
  lemma {:induction false} RunContinues(d: Draft, steps: seq<Step>)
    requires DraftedAll(d, steps).Some?
    ensures Continues(d, steps, DraftedAll(d, steps).value)
    decreases |steps|
  {
    if steps == [] {
      assert Backwards(Prepended(steps)) + d.body + Appended(steps) == d.body;
    } else {
      var next, step, rest := Drafted(d, steps[0]).value, steps[0], steps[1..];
      RunContinues(next, rest);
      RunRefused(next, rest);
      StepContinues(d, step, rest, DraftedAll(next, rest).value);
      assert [step] + rest == steps;
    }
  }

  /** The draft of every run, or its refusal, read off the calls. */
  lemma DraftIsCollected(steps: seq<Step>)
    ensures DraftedAll(EMPTY_DRAFT, steps)
         == if |Limits(steps)| <= 1 && |Returns(steps)| <= 1 then Some(Collected(steps)) else None
  {
    RunRefused(EMPTY_DRAFT, steps);
    if DraftedAll(EMPTY_DRAFT, steps).Some? { RunContinues(EMPTY_DRAFT, steps); }
    assert Backwards(Prepended(steps)) + [] + Appended(steps) == Backwards(Prepended(steps)) + Appended(steps);
    assert [] + SortKeys(steps) == SortKeys(steps);
  }

  /** The parts of the meaning, one by one. */
  lemma MeaningByParts(w: World, d: Draft, n: nat, env: Env, rows: seq<Env>, vs: seq<Value>, padded: seq<Value>,
                       sliced: seq<Value>)
    requires d.ret.Some? && rows == OrderBy(w, d.sorts, ApplyAll(w, d.body, [env]))
    requires vs == Deduplicated(Project(rows, d.ret.value.expr), d.ret.value.distinct)
    requires padded == if d.fallback && |vs| == 0 then [Obj(map[])] else vs
    requires sliced == if d.limit.None? then padded else Slice(padded, d.limit.value.offset, d.limit.value.count)
    ensures Run(w, Finalized(w, d, n), env) == if d.ask then [Bool(|sliced| > 0)] else sliced
  {
    FinalizedMeans(w, d, n, env);
    assert vs == Deduplicated(Project(rows, d.ret.value.expr), d.ret.value.distinct);
  }

  /**
   So of every run of calls with one RETURN the query means what the calls collected: the rows of the
   clauses sorted by the keys in order, what is returned of them, one empty row in place of none where
   the last fallback mode asks for it, the slice of the LIMIT, and for ASK whether that is empty.
   */
  lemma RunMeans(w: World, steps: seq<Step>, n: nat, env: Env,
                 rows: seq<Env>, vs: seq<Value>, padded: seq<Value>, sliced: seq<Value>)
    requires |Limits(steps)| <= 1 && |Returns(steps)| == 1
    requires rows == OrderBy(w, SortKeys(steps), ApplyAll(w, Backwards(Prepended(steps)) + Appended(steps), [env]))
    requires vs == Deduplicated(Project(rows, Returns(steps)[0].expr), Returns(steps)[0].distinct)
    requires padded == if LastOr(false, Fallbacks(steps)) && |vs| == 0 then [Obj(map[])] else vs
    requires sliced == if Limits(steps) == [] then padded
                       else Slice(padded, Limits(steps)[0].offset, Limits(steps)[0].count)
    ensures DraftedAll(EMPTY_DRAFT, steps).Some? && DraftedAll(EMPTY_DRAFT, steps).value.ret.Some?
    ensures Run(w, Finalized(w, DraftedAll(EMPTY_DRAFT, steps).value, n), env)
         == if SetAsk in steps then [Bool(|sliced| > 0)] else sliced
  {
    DraftIsCollected(steps);
    MeaningByParts(w, Collected(steps), n, env, rows, vs, padded, sliced);
  }
}
