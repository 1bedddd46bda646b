/**
 OPTIONAL { ?o ?p2 ?o2 } over a triples table, where ?o is bound outside only as a value: the
 emitted scan with its [null] pad against the LeftJoin of section 18.5 of SPARQL 1.1.
 */
module OptionalScan {
  import opened Collections
  import opened AqlQuery
  import opened QueryBuilder
  import BuilderNames

  type Expr = Env -> Value
  type Solution = map<string, Value>

  /** Where the triples are stored. */
  datatype RptClass = RptClass(
    collection: string, subjectColumn: string, predicateColumn: string,
    objectUriColumn: string, objectValueColumn: string)

  datatype Predicate = PredVar(name: string) | PredIri(iri: string) | OtherPredicate
  datatype Object = ObjVar(name: string) | Constant
  datatype Pattern = Pattern(subject: string, pred: Predicate, obj: Object)

  // ---- the emitted expressions ----

  /** Attribute access: null through anything but an object that has the attribute. */
  function Attr(v: Value, name: string): Value {
    if v.Obj? && name in v.fields then v.fields[name] else Null
  }

  function NotNull(a: Value, b: Value): Value {
    if a != Null then a else b
  }

  function ObjectOf(c: RptClass, doc: Value): Value {
    NotNull(Attr(doc, c.objectUriColumn), Attr(doc, c.objectValueColumn))
  }

  function SubjectFilter(t: string, c: RptClass, subject: Expr): Clause {
    FilterBy((env: Env) => Attr(Lookup(env, t), c.subjectColumn) == subject(env))
  }

  function PredicateFilter(t: string, c: RptClass, iri: string): Clause {
    FilterBy((env: Env) => Attr(Lookup(env, t), c.predicateColumn) == Str(iri))
  }

  function Fields(c: RptClass, p: Predicate, doc: Value): Value {
    if p.PredVar? then Obj(map["f0" := Attr(doc, c.predicateColumn), "f1" := ObjectOf(c, doc)])
    else Obj(map["f0" := ObjectOf(c, doc)])
  }

  function RowReturn(t: string, c: RptClass, p: Predicate): Return {
    Return((env: Env) => Fields(c, p, Lookup(env, t)), false)
  }

  function ScanClauses(t: string, c: RptClass, p: Predicate, subject: Expr): seq<Clause> {
    [ForCollection(t, c.collection), SubjectFilter(t, c, subject)]
    + if p.PredIri? then [PredicateFilter(t, c, p.iri)] else []
  }

  function ScanQuery(t: string, c: RptClass, p: Predicate, subject: Expr): Query {
    Query(ScanClauses(t, c, p, subject), RowReturn(t, c, p).expr, false)
  }

  function OptLet(w: World, opt: string, q: Query): Clause {
    Let(opt, env => Arr(Run(w, q, env)))
  }

  function Padded(vs: seq<Value>): seq<Value> {
    if |vs| > 0 then vs else [Null]
  }

  function RowFor(row: string, opt: string): Clause {
    ForIn(row, (env: Env) => Padded(ItemsOf(Lookup(env, opt))))
  }

  function FieldRef(row: string, field: string): Expr {
    (env: Env) => Attr(Lookup(env, row), field)
  }

  function Rebound(vars: map<string, Expr>, pat: Pattern, row: string): map<string, Expr>
    requires pat.obj.ObjVar?
  {
    if pat.pred.PredVar? then
      vars[pat.pred.name := FieldRef(row, "f0")][pat.obj.name := FieldRef(row, "f1")]
    else vars[pat.obj.name := FieldRef(row, "f0")]
  }

  // ---- emission ----

  class VisitorState {
    var varToExpr: map<string, Expr>
    var maybeUnbound: set<string>
  }

  /** The aliases an emission mints: the scan's, the list's and the row's. */
  datatype Emitted = Emitted(t: string, opt: string, row: string) | Unsupported | Failed(error: Error)

  method EmitScan(child: AqlQueryBuilder, prefix: string, hint: string, c: RptClass, p: Predicate, subject: Expr)
    returns (r: Result<string>)
    requires child.Valid() && child.TheDraft() == EMPTY_DRAFT && !p.OtherPredicate?
    requires BuilderNames.Ident(prefix) && BuilderNames.Ident(hint)
    modifies child
    ensures child.Valid()
    ensures r.Ok? <==> BuilderNames.ValidCollectionName(child.printable, c.collection)
    ensures r.Ok? ==>
              && r.value == BuilderNames.AliasText(prefix, old(child.aliasCounter) + 1)
              && child.aliasCounter == old(child.aliasCounter) + 1
              && child.TheDraft()
                  == EMPTY_DRAFT.(body := ScanClauses(r.value, c, p, subject), ret := Some(RowReturn(r.value, c, p)))
  {
    r := EmitSource(child, prefix, c.collection);
    if r.Err? { return; }
    EmitFilters(child, r.value, hint, c, p, subject);
    var returned := child.Take(SetReturn(RowReturn(r.value, c, p)));
  }

  method EmitSource(child: AqlQueryBuilder, prefix: string, collection: string) returns (r: Result<string>)
    requires child.Valid() && child.TheDraft() == EMPTY_DRAFT && BuilderNames.Ident(prefix)
    modifies child
    ensures child.Valid()
    ensures r.Ok? <==> BuilderNames.ValidCollectionName(child.printable, collection)
    ensures r.Ok? ==>
              && r.value == BuilderNames.AliasText(prefix, old(child.aliasCounter) + 1)
              && child.aliasCounter == old(child.aliasCounter) + 1
              && child.TheDraft() == EMPTY_DRAFT.(body := [ForCollection(r.value, collection)])
  {
    r := child.FreshAlias(prefix);
    var t := r.value;
    AliasIsIdent(prefix, child.aliasCounter);
    var scan := child.For(t, collection);
    if scan.Err? { return Err(scan.error); }
    assert [] + [ForCollection(t, collection)] == [ForCollection(t, collection)];
  }

  method EmitFilters(child: AqlQueryBuilder, t: string, hint: string, c: RptClass, p: Predicate, subject: Expr)
    requires child.Valid() && BuilderNames.Ident(hint)
    requires child.TheDraft() == EMPTY_DRAFT.(body := [ForCollection(t, c.collection)])
    modifies child
    ensures child.Valid() && child.aliasCounter == old(child.aliasCounter)
    ensures child.TheDraft() == EMPTY_DRAFT.(body := ScanClauses(t, c, p, subject))
  {
    var first := [ForCollection(t, c.collection), SubjectFilter(t, c, subject)];
    var filtered := child.Take(AddClause(SubjectFilter(t, c, subject)));
    assert child.TheDraft().body == first;
    if p.PredIri? { EmitPredicate(child, t, hint, c, p.iri, first); } else { assert first + [] == first; }
  }

  method EmitPredicate(child: AqlQueryBuilder, t: string, hint: string, c: RptClass, iri: string,
                       ghost before: seq<Clause>)
    requires child.Valid() && BuilderNames.Ident(hint) && child.TheDraft() == EMPTY_DRAFT.(body := before)
    modifies child
    ensures child.Valid() && child.aliasCounter == old(child.aliasCounter)
    ensures child.TheDraft() == EMPTY_DRAFT.(body := before + [PredicateFilter(t, c, iri)])
  {
    var pred := child.Bind(Str(iri), hint);
    var narrowed := child.Take(AddClause(PredicateFilter(t, c, iri)));
  }

  lemma AliasIsIdent(prefix: string, n: nat)
    requires BuilderNames.Ident(prefix)
    ensures BuilderNames.MatchesIdent(BuilderNames.AliasText(prefix, n))
  {}

  /**
   The whole emission: a LET holding the scan and a FOR over it or over [null], and the new
   variables read from the row. Nothing is emitted for a pattern it refuses.
   */
  method Emit(w: World, builder: AqlQueryBuilder, state: VisitorState, c: RptClass, pat: Pattern) returns (r: Emitted)
    requires builder.Valid() && pat.subject in state.varToExpr
    modifies builder, state
    ensures builder.Valid()
    ensures r.Unsupported? <==> pat.obj.Constant? || pat.pred.OtherPredicate?
    ensures r.Failed? <==> !r.Unsupported? && !BuilderNames.ValidCollectionName(builder.printable, c.collection)
    ensures !r.Emitted? ==> builder.TheDraft() == old(builder.TheDraft()) && state.varToExpr == old(state.varToExpr)
                            && state.maybeUnbound == old(state.maybeUnbound)
    ensures r.Emitted? ==>
              && r.t == BuilderNames.AliasText("doc", old(builder.aliasCounter) + 1)
              && r.opt == BuilderNames.AliasText("optsub", old(builder.aliasCounter) + 2)
              && r.row == BuilderNames.AliasText("optrow", old(builder.aliasCounter) + 3)
              && builder.bodyClauses == old(builder.bodyClauses)
                   + [OptLet(w, r.opt, ScanQuery(r.t, c, pat.pred, old(state.varToExpr[pat.subject]))),
                      RowFor(r.row, r.opt)]
              && state.varToExpr == Rebound(old(state.varToExpr), pat, r.row)
              && state.maybeUnbound == old(state.maybeUnbound) + {pat.obj.name}
                   + (if pat.pred.PredVar? then {pat.pred.name} else {})
  {
    if pat.obj.Constant? { return Unsupported; }
    var subject := state.varToExpr[pat.subject];
    var child := builder.CreateChild();
    if pat.pred.OtherPredicate? { return Unsupported; }
    EmissionNames();
    var scan := EmitScan(child, "doc", "pred", c, pat.pred, subject);
    if scan.Err? { return Failed(scan.error); }
    assert IsFor(child.TheDraft().body[0]);
    var absorbed, minted := builder.AbsorbChild(w, child);
    FinalizedScan(w, child.TheDraft(), child.aliasCounter, scan.value, c, pat.pred, subject);
    var opt, row := EmitRow(w, builder, state, "optsub", "optrow", absorbed.value, pat);
    r := Emitted(scan.value, opt, row);
  }

  lemma EmissionNames()
    ensures BuilderNames.Ident("doc") && BuilderNames.Ident("pred") && BuilderNames.Ident("optsub")
    ensures BuilderNames.Ident("optrow")
  {}

  lemma FinalizedScan(w: World, d: Draft, n: nat, t: string, c: RptClass, p: Predicate, subject: Expr)
    requires d == EMPTY_DRAFT.(body := ScanClauses(t, c, p, subject), ret := Some(RowReturn(t, c, p)))
    ensures Finalized(w, d, n) == ScanQuery(t, c, p, subject) && Minted(d) == 0
  {
    assert Ordered(d) + LimitClauses(d) == ScanClauses(t, c, p, subject);
  }

  method EmitRow(w: World, builder: AqlQueryBuilder, state: VisitorState, optPrefix: string, rowPrefix: string,
                 q: Query, pat: Pattern)
    returns (opt: string, row: string)
    requires builder.Valid() && pat.obj.ObjVar? && BuilderNames.Ident(optPrefix) && BuilderNames.Ident(rowPrefix)
    modifies builder, state
    ensures builder.Valid()
    ensures opt == BuilderNames.AliasText(optPrefix, old(builder.aliasCounter) + 1)
    ensures row == BuilderNames.AliasText(rowPrefix, old(builder.aliasCounter) + 2)
    ensures builder.bodyClauses == old(builder.bodyClauses) + [OptLet(w, opt, q), RowFor(row, opt)]
    ensures state.varToExpr == Rebound(old(state.varToExpr), pat, row)
    ensures state.maybeUnbound
         == old(state.maybeUnbound) + {pat.obj.name} + (if pat.pred.PredVar? then {pat.pred.name} else {})
  {
    var opt1 := builder.FreshAlias(optPrefix);
    var let1 := builder.Take(AddClause(OptLet(w, opt1.value, q)));
    assert builder.TheDraft().body == old(builder.bodyClauses) + [OptLet(w, opt1.value, q)];
    var row1 := builder.FreshAlias(rowPrefix);
    var for1 := builder.Take(AddClause(RowFor(row1.value, opt1.value)));
    assert builder.TheDraft().body
      == old(builder.bodyClauses) + [OptLet(w, opt1.value, q)] + [RowFor(row1.value, opt1.value)];
    opt, row := opt1.value, row1.value;
    state.varToExpr := Rebound(state.varToExpr, pat, row);
    state.maybeUnbound := state.maybeUnbound + {pat.obj.name} + (if pat.pred.PredVar? then {pat.pred.name} else {});
  }

  // ---- the rows it produces ----

  function FilterDocs(docs: seq<Value>, test: Value -> bool): seq<Value> {
    if docs == [] then [] else (if test(docs[0]) then [docs[0]] else []) + FilterDocs(docs[1..], test)
  }

  predicate SubjectIs(c: RptClass, subject: Value, d: Value) {
    Attr(d, c.subjectColumn) == subject
  }

  predicate PredicateIs(c: RptClass, p: Predicate, d: Value) {
    p.PredIri? ==> Attr(d, c.predicateColumn) == Str(p.iri)
  }

  function SubjectTest(c: RptClass, subject: Value): Value -> bool {
    d => SubjectIs(c, subject, d)
  }

  function PredicateTest(c: RptClass, p: Predicate): Value -> bool {
    d => PredicateIs(c, p, d)
  }

  /** The documents the scan's filters keep. */
  function MatchedDocs(docs: seq<Value>, c: RptClass, p: Predicate, subject: Value): seq<Value> {
    if docs == [] then []
    else (if SubjectIs(c, subject, docs[0]) && PredicateIs(c, p, docs[0]) then [docs[0]] else [])
         + MatchedDocs(docs[1..], c, p, subject)
  }

  function FieldsOf(c: RptClass, p: Predicate, docs: seq<Value>): (r: seq<Value>)
    ensures |r| == |docs|
  {
    seq(|docs|, i requires 0 <= i < |docs| => Fields(c, p, docs[i]))
  }

  function With(env: Env, alias: string, v: Value): Env {
    env[alias := v]
  }

  /** The subject's value does not change when the scan's alias is bound. */
  ghost predicate Unaffected(e: Expr, alias: string) {
    forall env: Env, v: Value {:trigger With(env, alias, v)} :: e(With(env, alias, v)) == e(env)
  }

  lemma {:induction false} KeepBindings(env: Env, t: string, docs: seq<Value>, cond: Env -> bool, test: Value -> bool)
    requires forall d {:trigger test(d)} :: cond(With(env, t, d)) == test(d)
    ensures Keep(Bindings(env, t, docs), cond) == Bindings(env, t, FilterDocs(docs, test))
    decreases |docs|
  {
    if docs != [] {
      var first, rest := With(env, t, docs[0]), Bindings(env, t, docs[1..]);
      BindingsCons(env, t, docs[0], docs[1..]);
      assert docs == [docs[0]] + docs[1..];
      assert ([first] + rest)[1..] == rest;
      KeepBindings(env, t, docs[1..], cond, test);
      if test(docs[0]) { BindingsCons(env, t, docs[0], FilterDocs(docs[1..], test)); }
      else { assert [] + FilterDocs(docs[1..], test) == FilterDocs(docs[1..], test); }
    }
  }

  lemma BindingsCons(env: Env, t: string, d: Value, docs: seq<Value>)
    ensures Bindings(env, t, [d] + docs) == [With(env, t, d)] + Bindings(env, t, docs)
  {}

  lemma {:induction false} MatchedIsFiltered(docs: seq<Value>, c: RptClass, p: Predicate, subject: Value,
                                             s: Value -> bool, q: Value -> bool)
    requires s == SubjectTest(c, subject) && q == PredicateTest(c, p)
    ensures MatchedDocs(docs, c, p, subject) == FilterDocs(FilterDocs(docs, s), q)
    decreases |docs|
  {
    if docs != [] {
      var d, rest := docs[0], docs[1..];
      calc {
        MatchedDocs(docs, c, p, subject);
        (if s(d) && q(d) then [d] else []) + MatchedDocs(rest, c, p, subject);
        { MatchedIsFiltered(rest, c, p, subject, s, q); }
        (if s(d) && q(d) then [d] else []) + FilterDocs(FilterDocs(rest, s), q);
        { FilterStep(d, rest, s, q); }
        FilterDocs(FilterDocs([d] + rest, s), q);
        { assert docs == [d] + rest; }
        FilterDocs(FilterDocs(docs, s), q);
      }
    }
  }

  lemma FilterStep(d: Value, rest: seq<Value>, s: Value -> bool, q: Value -> bool)
    ensures FilterDocs(FilterDocs([d] + rest, s), q)
         == (if s(d) && q(d) then [d] else []) + FilterDocs(FilterDocs(rest, s), q)
  {
    assert ([d] + rest)[1..] == rest;
    var kept := FilterDocs(rest, s);
    assert ([d] + kept)[1..] == kept && [] + kept == kept;
    var twice := FilterDocs(kept, q);
    assert [] + twice == twice;
  }

  lemma {:induction false} FilterAll(docs: seq<Value>, c: RptClass, p: Predicate)
    requires !p.PredIri?
    ensures FilterDocs(docs, PredicateTest(c, p)) == docs
    decreases |docs|
  {
    if docs != [] { FilterAll(docs[1..], c, p); }
  }

  lemma SubjectFilterTests(env: Env, t: string, c: RptClass, subject: Expr, d: Value)
    requires Unaffected(subject, t)
    ensures SubjectFilter(t, c, subject).cond(With(env, t, d)) == SubjectTest(c, subject(env))(d)
  {
    assert Lookup(With(env, t, d), t) == d;
  }

  lemma PredicateFilterTests(env: Env, t: string, c: RptClass, iri: string, d: Value)
    ensures PredicateFilter(t, c, iri).cond(With(env, t, d)) == PredicateTest(c, PredIri(iri))(d)
  {
    assert Lookup(With(env, t, d), t) == d;
  }

  lemma SubjectKeeps(env: Env, t: string, docs: seq<Value>, c: RptClass, subject: Expr)
    requires Unaffected(subject, t)
    ensures Keep(Bindings(env, t, docs), SubjectFilter(t, c, subject).cond)
         == Bindings(env, t, FilterDocs(docs, SubjectTest(c, subject(env))))
  {
    forall d ensures SubjectFilter(t, c, subject).cond(With(env, t, d)) == SubjectTest(c, subject(env))(d) {
      SubjectFilterTests(env, t, c, subject, d);
    }
    KeepBindings(env, t, docs, SubjectFilter(t, c, subject).cond, SubjectTest(c, subject(env)));
  }

  lemma PredicateKeeps(env: Env, t: string, docs: seq<Value>, c: RptClass, iri: string)
    ensures Keep(Bindings(env, t, docs), PredicateFilter(t, c, iri).cond)
         == Bindings(env, t, FilterDocs(docs, PredicateTest(c, PredIri(iri))))
  {
    forall d ensures PredicateFilter(t, c, iri).cond(With(env, t, d)) == PredicateTest(c, PredIri(iri))(d) {
      PredicateFilterTests(env, t, c, iri, d);
    }
    KeepBindings(env, t, docs, PredicateFilter(t, c, iri).cond, PredicateTest(c, PredIri(iri)));
  }

  lemma ScanKeeps(env: Env, t: string, docs: seq<Value>, c: RptClass, p: Predicate, subject: Expr)
    requires Unaffected(subject, t)
    ensures
      var kept := Keep(Bindings(env, t, docs), SubjectFilter(t, c, subject).cond);
      (if p.PredIri? then Keep(kept, PredicateFilter(t, c, p.iri).cond) else kept)
      == Bindings(env, t, MatchedDocs(docs, c, p, subject(env)))
  {
    var s, q := SubjectTest(c, subject(env)), PredicateTest(c, p);
    SubjectKeeps(env, t, docs, c, subject);
    MatchedIsFiltered(docs, c, p, subject(env), s, q);
    if p.PredIri? {
      PredicateKeeps(env, t, FilterDocs(docs, s), c, p.iri);
    } else {
      FilterAll(FilterDocs(docs, s), c, p);
    }
  }

  lemma ScanRuns(w: World, env: Env, t: string, c: RptClass, p: Predicate, subject: Expr)
    requires Unaffected(subject, t)
    ensures Run(w, ScanQuery(t, c, p, subject), env)
         == FieldsOf(c, p, MatchedDocs(w.db(c.collection), c, p, subject(env)))
  {
    var q := ScanQuery(t, c, p, subject);
    var docs := w.db(c.collection);
    var c0, c1 := ForCollection(t, c.collection), SubjectFilter(t, c, subject);
    var rest := if p.PredIri? then [PredicateFilter(t, c, p.iri)] else [];
    assert q.clauses == [c0] + ([c1] + rest);
    ApplyAllAppend(w, [c0], [c1] + rest, [env]);
    ApplyOne(w, c0, [env]);
    var source: Env -> seq<Value> := e => w.db(c.collection);
    assert Loop([env], t, source) == Bindings(env, t, docs) + Loop([], t, source);
    assert Apply(w, c0, [env]) == Bindings(env, t, docs);
    ApplyAllAppend(w, [c1], rest, Bindings(env, t, docs));
    ApplyOne(w, c1, Bindings(env, t, docs));
    if p.PredIri? { ApplyOne(w, rest[0], Keep(Bindings(env, t, docs), c1.cond)); }
    ScanKeeps(env, t, docs, c, p, subject);
    var matched := MatchedDocs(docs, c, p, subject(env));
    assert Project(Bindings(env, t, matched), q.ret) == FieldsOf(c, p, matched) by {
      assert forall i :: 0 <= i < |matched| ==> Lookup(Bindings(env, t, matched)[i], t) == matched[i];
    }
  }

  /** The rows an outer row becomes: one per match, or one with a null row. */
  lemma OptionalRows(w: World, env: Env, t: string, opt: string, row: string, c: RptClass, p: Predicate, subject: Expr)
    requires Unaffected(subject, t)
    ensures
      var q := ScanQuery(t, c, p, subject);
      var vs := FieldsOf(c, p, MatchedDocs(w.db(c.collection), c, p, subject(env)));
      ApplyAll(w, [OptLet(w, opt, q), RowFor(row, opt)], [env]) == Bindings(env[opt := Arr(vs)], row, Padded(vs))
  {
    ScanRuns(w, env, t, c, p, subject);
    var q := ScanQuery(t, c, p, subject);
    var vs := FieldsOf(c, p, MatchedDocs(w.db(c.collection), c, p, subject(env)));
    var c0, c1 := OptLet(w, opt, q), RowFor(row, opt);
    assert [c0, c1] == [c0] + [c1];
    ApplyAllAppend(w, [c0], [c1], [env]);
    ApplyOne(w, c0, [env]);
    var env1 := env[opt := Arr(vs)];
    assert Apply(w, c0, [env]) == [env1];
    ApplyOne(w, c1, [env1]);
    assert c1.source(env1) == Padded(vs) by { assert Lookup(env1, opt) == Arr(vs); }
    assert Loop([env1], row, c1.source) == Bindings(env1, row, Padded(vs)) + Loop([], row, c1.source);
  }

  /** A row as a solution: null is unbound. */
  function SolutionOf(vars: map<string, Expr>, env: Env): Solution {
    map v | v in vars && vars[v](env) != Null :: vars[v](env)
  }

  function SolutionsOf(vars: map<string, Expr>, rows: seq<Env>): (r: seq<Solution>)
    ensures |r| == |rows|
  {
    seq(|rows|, i requires 0 <= i < |rows| => SolutionOf(vars, rows[i]))
  }

  // ---- SPARQL's LeftJoin of one solution ----

  datatype GraphObject = UriObject(v: Value) | ValueObject(v: Value)
  datatype Triple = Triple(s: Value, p: Value, o: GraphObject)

  function TripleOf(c: RptClass, doc: Value): Triple {
    Triple(Attr(doc, c.subjectColumn), Attr(doc, c.predicateColumn),
           if Attr(doc, c.objectUriColumn) != Null then UriObject(Attr(doc, c.objectUriColumn))
           else ValueObject(Attr(doc, c.objectValueColumn)))
  }

  ghost function GraphOf(c: RptClass, docs: seq<Value>): set<Triple> {
    set i | 0 <= i < |docs| :: TripleOf(c, docs[i])
  }

  function PatternSolution(pat: Pattern, t: Triple): Solution
    requires pat.obj.ObjVar?
  {
    map[pat.subject := t.s] + (if pat.pred.PredVar? then map[pat.pred.name := t.p] else map[])
    + map[pat.obj.name := t.o.v]
  }

  /** The triple matches the pattern: a repeated variable has one value. */
  ghost predicate Matches(pat: Pattern, t: Triple)
    requires pat.obj.ObjVar?
  {
    var sol := PatternSolution(pat, t);
    && (pat.pred.PredIri? ==> t.p == Str(pat.pred.iri))
    && sol[pat.subject] == t.s && sol[pat.obj.name] == t.o.v
    && (pat.pred.PredVar? ==> sol[pat.pred.name] == t.p)
  }

  ghost predicate Joins(pat: Pattern, t: Triple, mu: Solution)
    requires pat.obj.ObjVar?
  {
    Matches(pat, t) && forall v :: v in mu && v in PatternSolution(pat, t) ==> mu[v] == PatternSolution(pat, t)[v]
  }

  /** How often `nu` is in the LeftJoin of the solution `mu` with the pattern. */
  ghost function LeftJoinCount(graph: set<Triple>, pat: Pattern, mu: Solution, nu: Solution): nat
    requires pat.obj.ObjVar?
  {
    if exists t :: t in graph && Joins(pat, t, mu)
    then |set t | t in graph && Joins(pat, t, mu) && mu + PatternSolution(pat, t) == nu|
    else if nu == mu then 1 else 0
  }

  // ---- agreement ----

  predicate WellFormed(c: RptClass, doc: Value) {
    Attr(doc, c.subjectColumn) != Null && Attr(doc, c.predicateColumn) != Null && ObjectOf(c, doc) != Null
  }

  /** Well-formed rows, each triple stored once. */
  ghost predicate TripleTable(c: RptClass, docs: seq<Value>) {
    && (forall i :: 0 <= i < |docs| ==> WellFormed(c, docs[i]))
    && forall i, j :: 0 <= i < j < |docs| ==> TripleOf(c, docs[i]) != TripleOf(c, docs[j])
  }

  /** What the emitter takes: a variable object, and a subject already read from somewhere. */
  predicate Supported(vars: map<string, Expr>, pat: Pattern) {
    pat.obj.ObjVar? && !pat.pred.OtherPredicate? && pat.subject in vars
  }

  /** The variables the pattern gives expressions to. */
  function Written(pat: Pattern): set<string>
    requires pat.obj.ObjVar?
  {
    {pat.obj.name} + if pat.pred.PredVar? then {pat.pred.name} else {}
  }

  /** Minted aliases occur in no earlier expression. */
  ghost predicate FreshAliases(vars: map<string, Expr>, t: string, opt: string, row: string) {
    && opt != row
    && forall v :: v in vars ==> Unaffected(vars[v], t) && Unaffected(vars[v], opt) && Unaffected(vars[v], row)
  }

  predicate Selected(p: Predicate, subject: Value, t: Triple) {
    t.s == subject && (p.PredIri? ==> t.p == Str(p.iri))
  }

  lemma JoinsIsSelected(pat: Pattern, mu: Solution, t: Triple)
    requires pat.obj.ObjVar? && pat.subject in mu && Joins(pat, t, mu)
    ensures Selected(pat.pred, mu[pat.subject], t)
  {}

  /** The environment a row of the scan is read in. */
  function RowEnv(env: Env, opt: string, list: Value, row: string, v: Value): Env {
    With(With(env, opt, list), row, v)
  }

  lemma OldVariableKept(vars: map<string, Expr>, pat: Pattern, env: Env, t: string, opt: string, row: string,
                        list: Value, rv: Value, v: string)
    requires Supported(vars, pat) && FreshAliases(vars, t, opt, row) && v in vars && v !in Written(pat)
    ensures v in Rebound(vars, pat, row) && Rebound(vars, pat, row)[v](RowEnv(env, opt, list, row, rv)) == vars[v](env)
  {
    assert Unaffected(vars[v], opt) && Unaffected(vars[v], row);
    assert vars[v](With(With(env, opt, list), row, rv)) == vars[v](With(env, opt, list));
    assert vars[v](With(env, opt, list)) == vars[v](env);
  }

  lemma NewVariablesRead(vars: map<string, Expr>, pat: Pattern, env: Env, opt: string, row: string, list: Value,
                         rv: Value)
    requires Supported(vars, pat)
    ensures var after := RowEnv(env, opt, list, row, rv);
            var vars1 := Rebound(vars, pat, row);
            && vars1[pat.obj.name](after) == Attr(rv, if pat.pred.PredVar? then "f1" else "f0")
            && (pat.pred.PredVar? && pat.pred.name != pat.obj.name ==> vars1[pat.pred.name](after) == Attr(rv, "f0"))
            && vars1.Keys == vars.Keys + Written(pat)
  {
    assert Lookup(RowEnv(env, opt, list, row, rv), row) == rv;
  }

  /** Old variables keep their values and written ones get theirs: the solution is extended. */
  lemma SolutionExtends(vars: map<string, Expr>, vars1: map<string, Expr>, env: Env, after: Env, extra: Solution)
    requires vars1.Keys == vars.Keys + extra.Keys
    requires forall v :: v in vars && v !in extra ==> vars1[v](after) == vars[v](env)
    requires forall v :: v in extra ==> extra[v] != Null && vars1[v](after) == extra[v]
    ensures SolutionOf(vars1, after) == SolutionOf(vars, env) + extra
  {
    assert SolutionOf(vars1, after).Keys == (SolutionOf(vars, env) + extra).Keys;
  }

  lemma OldVariablesKept(vars: map<string, Expr>, pat: Pattern, env: Env, t: string, opt: string, row: string,
                         list: Value, rv: Value)
    requires Supported(vars, pat) && FreshAliases(vars, t, opt, row)
    ensures forall v :: v in vars && v !in Written(pat) ==>
              v in Rebound(vars, pat, row)
                && Rebound(vars, pat, row)[v](RowEnv(env, opt, list, row, rv)) == vars[v](env)
  {
    forall v | v in vars && v !in Written(pat)
      ensures v in Rebound(vars, pat, row)
      ensures Rebound(vars, pat, row)[v](RowEnv(env, opt, list, row, rv)) == vars[v](env)
    {
      OldVariableKept(vars, pat, env, t, opt, row, list, rv, v);
    }
  }

  /** The solution of a matched row is the outer one, overwritten by the triple's bindings. */
  lemma RowSolution(vars: map<string, Expr>, pat: Pattern, c: RptClass, env: Env, t: string, opt: string, row: string,
                    list: Value, doc: Value)
    requires Supported(vars, pat) && FreshAliases(vars, t, opt, row) && WellFormed(c, doc)
    requires Attr(doc, c.subjectColumn) == vars[pat.subject](env)
    ensures SolutionOf(Rebound(vars, pat, row), RowEnv(env, opt, list, row, Fields(c, pat.pred, doc)))
         == SolutionOf(vars, env) + PatternSolution(pat, TripleOf(c, doc))
  {
    var rv := Fields(c, pat.pred, doc);
    NewVariablesRead(vars, pat, env, opt, row, list, rv);
    OldVariablesKept(vars, pat, env, t, opt, row, list, rv);
    RowFields(c, pat, doc);
    WrittenValues(vars, pat, c, env, RowEnv(env, opt, list, row, rv), row, doc);
    SolutionExtends(vars, Rebound(vars, pat, row), env, RowEnv(env, opt, list, row, rv),
                    PatternSolution(pat, TripleOf(c, doc)));
  }

  lemma WrittenValues(vars: map<string, Expr>, pat: Pattern, c: RptClass, env: Env, after: Env, row: string, doc: Value)
    requires Supported(vars, pat) && WellFormed(c, doc) && Attr(doc, c.subjectColumn) == vars[pat.subject](env)
    requires pat.subject !in Written(pat) ==> Rebound(vars, pat, row)[pat.subject](after) == vars[pat.subject](env)
    requires Rebound(vars, pat, row)[pat.obj.name](after)
        == Attr(Fields(c, pat.pred, doc), if pat.pred.PredVar? then "f1" else "f0")
    requires pat.pred.PredVar? && pat.pred.name != pat.obj.name ==>
               Rebound(vars, pat, row)[pat.pred.name](after) == Attr(Fields(c, pat.pred, doc), "f0")
    ensures var sol := PatternSolution(pat, TripleOf(c, doc));
            forall v :: v in sol
              ==> sol[v] != Null && v in Rebound(vars, pat, row) && Rebound(vars, pat, row)[v](after) == sol[v]
  {
    RowFields(c, pat, doc);
  }

  lemma RowFields(c: RptClass, pat: Pattern, doc: Value)
    requires pat.obj.ObjVar? && WellFormed(c, doc)
    ensures var rv, sol := Fields(c, pat.pred, doc), PatternSolution(pat, TripleOf(c, doc));
            && sol.Keys == {pat.subject} + Written(pat)
            && (pat.subject !in Written(pat) ==> sol[pat.subject] == Attr(doc, c.subjectColumn) != Null)
            && sol[pat.obj.name] == Attr(rv, if pat.pred.PredVar? then "f1" else "f0") != Null
            && (pat.pred.PredVar? && pat.pred.name != pat.obj.name ==> sol[pat.pred.name] == Attr(rv, "f0") != Null)
  {}

  /** An unmatched row keeps the outer solution, but for the variables it writes: they are null. */
  lemma NullRowSolution(vars: map<string, Expr>, pat: Pattern, env: Env, t: string, opt: string, row: string,
                        list: Value)
    requires Supported(vars, pat) && FreshAliases(vars, t, opt, row)
    ensures SolutionOf(Rebound(vars, pat, row), RowEnv(env, opt, list, row, Null))
         == SolutionOf(vars, env) - Written(pat)
  {
    NewVariablesRead(vars, pat, env, opt, row, list, Null);
    var a := SolutionOf(Rebound(vars, pat, row), RowEnv(env, opt, list, row, Null));
    var b := SolutionOf(vars, env) - Written(pat);
    forall v | v in vars && v !in Written(pat) ensures v in a <==> v in b {
      OldVariableKept(vars, pat, env, t, opt, row, list, Null, v);
    }
    forall v | v in a && v in b ensures a[v] == b[v] {
      OldVariableKept(vars, pat, env, t, opt, row, list, Null, v);
    }
    assert a.Keys == b.Keys;
  }

  function Extended(pat: Pattern, c: RptClass, mu: Solution, docs: seq<Value>): (r: seq<Solution>)
    requires pat.obj.ObjVar?
    ensures |r| == |docs|
  {
    seq(|docs|, i requires 0 <= i < |docs| => mu + PatternSolution(pat, TripleOf(c, docs[i])))
  }

  predicate Gives(pat: Pattern, mu: Solution, subject: Value, nu: Solution, t: Triple)
    requires pat.obj.ObjVar?
  {
    Selected(pat.pred, subject, t) && mu + PatternSolution(pat, t) == nu
  }

  /** The selected triples of the graph that give the solution. */
  ghost function Contributors(pat: Pattern, mu: Solution, subject: Value, graph: set<Triple>, nu: Solution): set<Triple>
    requires pat.obj.ObjVar?
  {
    Chosen(graph, t => Gives(pat, mu, subject, nu, t))
  }

  ghost function Chosen<T>(xs: set<T>, p: T -> bool): set<T> {
    set x | x in xs && p(x)
  }

  lemma ChosenCons<T>(xs: set<T>, x: T, p: T -> bool)
    requires x !in xs
    ensures |Chosen({x} + xs, p)| == |Chosen(xs, p)| + if p(x) then 1 else 0
  {
    if p(x) { assert Chosen({x} + xs, p) == Chosen(xs, p) + {x}; }
    else { assert Chosen({x} + xs, p) == Chosen(xs, p); }
  }

  /** Each solution comes as often as triples contribute it, because each triple is stored once. */
  lemma {:induction false} MultiplicityIsTriples(pat: Pattern, c: RptClass, mu: Solution, subject: Value,
                                                 docs: seq<Value>, nu: Solution)
    requires pat.obj.ObjVar? && TripleTable(c, docs)
    ensures multiset(Extended(pat, c, mu, MatchedDocs(docs, c, pat.pred, subject)))[nu]
         == |Contributors(pat, mu, subject, GraphOf(c, docs), nu)|
    decreases |docs|
  {
    if docs == [] {
      assert Contributors(pat, mu, subject, GraphOf(c, docs), nu) == {};
    } else {
      GraphCons(c, docs);
      MultiplicityIsTriples(pat, c, mu, subject, docs[1..], nu);
      ChosenCons(GraphOf(c, docs[1..]), TripleOf(c, docs[0]), t => Gives(pat, mu, subject, nu, t));
      var matched := MatchedDocs(docs[1..], c, pat.pred, subject);
      if Selected(pat.pred, subject, TripleOf(c, docs[0])) {
        ExtendedCons(pat, c, mu, docs[0], matched);
      } else {
        assert [] + matched == matched;
      }
    }
  }

  lemma ExtendedCons(pat: Pattern, c: RptClass, mu: Solution, doc: Value, docs: seq<Value>)
    requires pat.obj.ObjVar?
    ensures Extended(pat, c, mu, [doc] + docs)
         == [mu + PatternSolution(pat, TripleOf(c, doc))] + Extended(pat, c, mu, docs)
  {}

  lemma GraphCons(c: RptClass, docs: seq<Value>)
    requires docs != [] && TripleTable(c, docs)
    ensures GraphOf(c, docs) == {TripleOf(c, docs[0])} + GraphOf(c, docs[1..])
    ensures TripleOf(c, docs[0]) !in GraphOf(c, docs[1..])
    ensures TripleTable(c, docs[1..])
  {
    assert forall i :: 1 <= i < |docs| ==> docs[i] == docs[1..][i - 1];
    forall t | t in GraphOf(c, docs) ensures t == TripleOf(c, docs[0]) || t in GraphOf(c, docs[1..]) {
      var i :| 0 <= i < |docs| && t == TripleOf(c, docs[i]);
      if i > 0 { assert t == TripleOf(c, docs[1..][i - 1]); }
    }
    forall t | t in GraphOf(c, docs[1..]) ensures t in GraphOf(c, docs) && t != TripleOf(c, docs[0]) {
      var i :| 0 <= i < |docs[1..]| && t == TripleOf(c, docs[1..][i]);
      assert t == TripleOf(c, docs[i + 1]);
    }
  }

  lemma {:induction false} MatchedExists(docs: seq<Value>, c: RptClass, p: Predicate, subject: Value)
    ensures MatchedDocs(docs, c, p, subject) == [] <==> forall t :: t in GraphOf(c, docs) ==> !Selected(p, subject, t)
    ensures forall d :: d in MatchedDocs(docs, c, p, subject) ==> d in docs && Attr(d, c.subjectColumn) == subject
    decreases |docs|
  {
    if docs != [] {
      MatchedExists(docs[1..], c, p, subject);
      var t0 := TripleOf(c, docs[0]);
      assert t0 in GraphOf(c, docs);
      forall t | t in GraphOf(c, docs[1..]) ensures t in GraphOf(c, docs) {
        var i :| 0 <= i < |docs[1..]| && t == TripleOf(c, docs[1..][i]);
        assert t == TripleOf(c, docs[i + 1]);
      }
      forall t | t in GraphOf(c, docs) ensures t == t0 || t in GraphOf(c, docs[1..]) {
        var i :| 0 <= i < |docs| && t == TripleOf(c, docs[i]);
        if i > 0 { assert t == TripleOf(c, docs[1..][i - 1]); }
      }
    }
  }

  /** The solutions of the rows one outer row becomes. */
  function OptionalSolutions(vars: map<string, Expr>, pat: Pattern, c: RptClass, docs: seq<Value>, env: Env,
                             opt: string, row: string): seq<Solution>
    requires pat.obj.ObjVar? && pat.subject in vars
  {
    var vs := FieldsOf(c, pat.pred, MatchedDocs(docs, c, pat.pred, vars[pat.subject](env)));
    SolutionsOf(Rebound(vars, pat, row), Bindings(env[opt := Arr(vs)], row, Padded(vs)))
  }

  lemma SolutionsAreExtended(vars: map<string, Expr>, pat: Pattern, c: RptClass, docs: seq<Value>, env: Env,
                             t: string, opt: string, row: string)
    requires Supported(vars, pat) && FreshAliases(vars, t, opt, row) && TripleTable(c, docs)
    ensures
      var matched := MatchedDocs(docs, c, pat.pred, vars[pat.subject](env));
      OptionalSolutions(vars, pat, c, docs, env, opt, row)
      == if matched == [] then [SolutionOf(vars, env) - Written(pat)]
        else Extended(pat, c, SolutionOf(vars, env), matched)
  {
    var subject := vars[pat.subject](env);
    var matched := MatchedDocs(docs, c, pat.pred, subject);
    var list := Arr(FieldsOf(c, pat.pred, matched));
    MatchedExists(docs, c, pat.pred, subject);
    NullRowSolution(vars, pat, env, t, opt, row, list);
    forall i | 0 <= i < |matched|
      ensures SolutionOf(Rebound(vars, pat, row), RowEnv(env, opt, list, row, Fields(c, pat.pred, matched[i])))
           == SolutionOf(vars, env) + PatternSolution(pat, TripleOf(c, matched[i]))
    {
      assert matched[i] in matched;
      RowSolution(vars, pat, c, env, t, opt, row, list, matched[i]);
    }
  }

  // ---- when it is the LeftJoin ----

  /** Every solution comes exactly as often as the LeftJoin has it. */
  ghost predicate IsLeftJoin(solutions: seq<Solution>, graph: set<Triple>, pat: Pattern, mu: Solution)
    requires pat.obj.ObjVar?
  {
    forall nu :: multiset(solutions)[nu] == LeftJoinCount(graph, pat, mu, nu)
  }

  ghost function SelectedIn(graph: set<Triple>, pat: Pattern, subject: Value): set<Triple> {
    set t | t in graph && Selected(pat.pred, subject, t)
  }

  /**
   When the emission can be the LeftJoin of a row: no triple is selected and the written variables
   are unbound, or every selected triple joins, or a single one is selected and adds nothing.
   */
  ghost predicate Agrees(graph: set<Triple>, pat: Pattern, mu: Solution)
    requires pat.obj.ObjVar? && pat.subject in mu
  {
    var selected := SelectedIn(graph, pat, mu[pat.subject]);
    if selected == {} then Written(pat) !! mu.Keys
    else
      || (forall t :: t in selected ==> Joins(pat, t, mu))
      || (|selected| == 1 && forall t :: t in selected ==> mu + PatternSolution(pat, t) == mu)
  }

  /** Where no triple is selected. */
  lemma AgreesUnmatched(graph: set<Triple>, pat: Pattern, mu: Solution)
    requires pat.obj.ObjVar? && forall t :: t in graph ==> !Joins(pat, t, mu)
    ensures IsLeftJoin([mu - Written(pat)], graph, pat, mu) <==> Written(pat) !! mu.Keys
  {
    if Written(pat) !! mu.Keys {
      assert mu - Written(pat) == mu;
    } else {
      var v :| v in Written(pat) && v in mu.Keys;
      assert v !in mu - Written(pat);
      assert multiset([mu - Written(pat)])[mu] == 0 && LeftJoinCount(graph, pat, mu, mu) == 1;
    }
  }

  /** The solutions of a matched row are counted by the selected triples. */
  ghost predicate CountedBy(solutions: seq<Solution>, graph: set<Triple>, pat: Pattern, mu: Solution, subject: Value)
    requires pat.obj.ObjVar?
  {
    forall nu :: multiset(solutions)[nu] == |Contributors(pat, mu, subject, graph, nu)|
  }

  ghost function JoiningFor(graph: set<Triple>, pat: Pattern, mu: Solution, nu: Solution): set<Triple>
    requires pat.obj.ObjVar?
  {
    set t | t in graph && Joins(pat, t, mu) && mu + PatternSolution(pat, t) == nu
  }

  lemma JoinersContribute(graph: set<Triple>, pat: Pattern, mu: Solution, nu: Solution)
    requires pat.obj.ObjVar? && pat.subject in mu
    ensures JoiningFor(graph, pat, mu, nu) <= Contributors(pat, mu, mu[pat.subject], graph, nu)
  {
    forall t | t in JoiningFor(graph, pat, mu, nu) ensures t in Contributors(pat, mu, mu[pat.subject], graph, nu) {
      JoinsIsSelected(pat, mu, t);
    }
  }

  lemma SmallerSet<T>(a: set<T>, b: set<T>, x: T)
    requires a <= b && x in b && x !in a
    ensures |a| < |b|
  {
    assert b == a + (b - a);
    assert x in b - a;
  }

  /** Every selected triple joins: the counts are the same. */
  lemma AllJoin(solutions: seq<Solution>, graph: set<Triple>, pat: Pattern, mu: Solution)
    requires pat.obj.ObjVar? && pat.subject in mu && CountedBy(solutions, graph, pat, mu, mu[pat.subject])
    requires SelectedIn(graph, pat, mu[pat.subject]) != {}
    requires forall t :: t in SelectedIn(graph, pat, mu[pat.subject]) ==> Joins(pat, t, mu)
    ensures IsLeftJoin(solutions, graph, pat, mu)
  {
    var some :| some in SelectedIn(graph, pat, mu[pat.subject]);
    assert some in graph && Joins(pat, some, mu);
    forall nu ensures multiset(solutions)[nu] == LeftJoinCount(graph, pat, mu, nu) {
      JoinersContribute(graph, pat, mu, nu);
      forall t | t in Contributors(pat, mu, mu[pat.subject], graph, nu) ensures t in JoiningFor(graph, pat, mu, nu) {
        assert t in SelectedIn(graph, pat, mu[pat.subject]);
      }
      assert JoiningFor(graph, pat, mu, nu) == Contributors(pat, mu, mu[pat.subject], graph, nu);
    }
  }

  /** A selected triple that does not join beside one that does: its solution comes too often. */
  lemma SomeJoin(solutions: seq<Solution>, graph: set<Triple>, pat: Pattern, mu: Solution, t: Triple, j: Triple)
    requires pat.obj.ObjVar? && pat.subject in mu && CountedBy(solutions, graph, pat, mu, mu[pat.subject])
    requires t in SelectedIn(graph, pat, mu[pat.subject]) && !Joins(pat, t, mu) && j in graph && Joins(pat, j, mu)
    ensures !IsLeftJoin(solutions, graph, pat, mu)
  {
    var nu := mu + PatternSolution(pat, t);
    JoinersContribute(graph, pat, mu, nu);
    SmallerSet(JoiningFor(graph, pat, mu, nu), Contributors(pat, mu, mu[pat.subject], graph, nu), t);
    assert LeftJoinCount(graph, pat, mu, nu) == |JoiningFor(graph, pat, mu, nu)|;
  }

  lemma Singleton<T>(xs: set<T>, x: T)
    requires x in xs
    ensures |xs| == 1 <==> xs == {x}
  {
    assert xs == {x} + (xs - {x});
  }

  lemma LoneContributor(graph: set<Triple>, pat: Pattern, mu: Solution, subject: Value, t: Triple, nu: Solution)
    requires pat.obj.ObjVar? && SelectedIn(graph, pat, subject) == {t} && mu + PatternSolution(pat, t) == mu
    ensures Contributors(pat, mu, subject, graph, nu) == if nu == mu then {t} else {}
  {
    assert t in SelectedIn(graph, pat, subject);
    forall x | x in Contributors(pat, mu, subject, graph, nu) ensures x == t && nu == mu {
      assert x in SelectedIn(graph, pat, subject);
    }
  }

  lemma AllContribute(solutions: seq<Solution>, graph: set<Triple>, pat: Pattern, mu: Solution, x: Triple)
    requires pat.obj.ObjVar? && pat.subject in mu && CountedBy(solutions, graph, pat, mu, mu[pat.subject])
    requires IsLeftJoin(solutions, graph, pat, mu) && forall j :: j in graph ==> !Joins(pat, j, mu)
    requires x in SelectedIn(graph, pat, mu[pat.subject])
    ensures mu + PatternSolution(pat, x) == mu
  {
    var nu := mu + PatternSolution(pat, x);
    assert x in Contributors(pat, mu, mu[pat.subject], graph, nu);
    assert LeftJoinCount(graph, pat, mu, nu) == if nu == mu then 1 else 0;
  }

  /** None joins: the LeftJoin keeps the row once, so one selected triple must give just that. */
  lemma NoneJoins(solutions: seq<Solution>, graph: set<Triple>, pat: Pattern, mu: Solution, t: Triple)
    requires pat.obj.ObjVar? && pat.subject in mu && CountedBy(solutions, graph, pat, mu, mu[pat.subject])
    requires t in SelectedIn(graph, pat, mu[pat.subject]) && forall j :: j in graph ==> !Joins(pat, j, mu)
    ensures IsLeftJoin(solutions, graph, pat, mu)
       <==> SelectedIn(graph, pat, mu[pat.subject]) == {t} && mu + PatternSolution(pat, t) == mu
  {
    var selected := SelectedIn(graph, pat, mu[pat.subject]);
    if selected == {t} && mu + PatternSolution(pat, t) == mu {
      forall nu ensures multiset(solutions)[nu] == LeftJoinCount(graph, pat, mu, nu) {
        LoneContributor(graph, pat, mu, mu[pat.subject], t, nu);
      }
    } else if IsLeftJoin(solutions, graph, pat, mu) {
      forall x | x in selected ensures mu + PatternSolution(pat, x) == mu {
        AllContribute(solutions, graph, pat, mu, x);
      }
      assert Contributors(pat, mu, mu[pat.subject], graph, mu) == selected;
      assert LeftJoinCount(graph, pat, mu, mu) == 1;
      Singleton(selected, t);
    }
  }

  lemma CountedAgrees(solutions: seq<Solution>, graph: set<Triple>, pat: Pattern, mu: Solution)
    requires pat.obj.ObjVar? && pat.subject in mu && CountedBy(solutions, graph, pat, mu, mu[pat.subject])
    requires SelectedIn(graph, pat, mu[pat.subject]) != {}
    ensures IsLeftJoin(solutions, graph, pat, mu) <==> Agrees(graph, pat, mu)
  {
    var selected := SelectedIn(graph, pat, mu[pat.subject]);
    if forall t :: t in selected ==> Joins(pat, t, mu) {
      AllJoin(solutions, graph, pat, mu);
    } else {
      var t :| t in selected && !Joins(pat, t, mu);
      Singleton(selected, t);
      if j :| j in graph && Joins(pat, j, mu) {
        JoinsIsSelected(pat, mu, j);
        assert j in selected && j != t;
        SomeJoin(solutions, graph, pat, mu, t, j);
      } else {
        NoneJoins(solutions, graph, pat, mu, t);
      }
    }
  }

  /**
   For every table and every outer row whose subject is bound: the emission is the LeftJoin exactly
   when it can be.
   */
  lemma OptionalIsLeftJoin(vars: map<string, Expr>, pat: Pattern, c: RptClass, docs: seq<Value>, env: Env,
                           t: string, opt: string, row: string)
    requires Supported(vars, pat) && FreshAliases(vars, t, opt, row) && TripleTable(c, docs)
    requires pat.subject in SolutionOf(vars, env)
    ensures IsLeftJoin(OptionalSolutions(vars, pat, c, docs, env, opt, row), GraphOf(c, docs), pat,
                       SolutionOf(vars, env))
       <==> Agrees(GraphOf(c, docs), pat, SolutionOf(vars, env))
  {
    var mu, graph := SolutionOf(vars, env), GraphOf(c, docs);
    SolutionsAreExtended(vars, pat, c, docs, env, t, opt, row);
    MatchedExists(docs, c, pat.pred, mu[pat.subject]);
    var solutions := OptionalSolutions(vars, pat, c, docs, env, opt, row);
    if MatchedDocs(docs, c, pat.pred, mu[pat.subject]) == [] {
      forall x | x in graph ensures !Joins(pat, x, mu) {
        if Joins(pat, x, mu) { JoinsIsSelected(pat, mu, x); }
      }
      assert SelectedIn(graph, pat, mu[pat.subject]) == {};
      AgreesUnmatched(graph, pat, mu);
    } else {
      var x :| x in graph && Selected(pat.pred, mu[pat.subject], x);
      assert x in SelectedIn(graph, pat, mu[pat.subject]);
      forall nu ensures multiset(solutions)[nu] == |Contributors(pat, mu, mu[pat.subject], graph, nu)| {
        MultiplicityIsTriples(pat, c, mu, mu[pat.subject], docs, nu);
      }
      CountedAgrees(solutions, graph, pat, mu);
    }
  }

  /** The written variables are unbound in the row, and no two of them are the same. */
  predicate Fresh(pat: Pattern, mu: Solution)
    requires pat.obj.ObjVar?
  {
    Written(pat) !! mu.Keys && (pat.pred.PredVar? ==> pat.pred.name != pat.obj.name)
  }

  lemma FreshJoins(pat: Pattern, mu: Solution, t: Triple)
    requires pat.obj.ObjVar? && !pat.pred.OtherPredicate? && pat.subject in mu && Fresh(pat, mu)
    requires Selected(pat.pred, mu[pat.subject], t)
    ensures Joins(pat, t, mu)
  {}

  predicate DistinctColumns(c: RptClass) {
    c.subjectColumn != c.predicateColumn && c.subjectColumn != c.objectUriColumn
      && c.predicateColumn != c.objectUriColumn
  }

  function Doc(c: RptClass, s: Value, p: Value, o: Value): Value {
    Obj(map[c.subjectColumn := s, c.predicateColumn := p, c.objectUriColumn := o])
  }

  ghost predicate LeftJoinOnEveryTable(vars: map<string, Expr>, pat: Pattern, c: RptClass, env: Env, opt: string,
                                       row: string)
    requires Supported(vars, pat)
  {
    forall docs :: TripleTable(c, docs) ==>
      IsLeftJoin(OptionalSolutions(vars, pat, c, docs, env, opt, row), GraphOf(c, docs), pat, SolutionOf(vars, env))
  }

  /** Over a table of one triple of the row's subject whose predicate and object differ. */
  lemma OneTriple(pat: Pattern, c: RptClass, mu: Solution, doc: Value)
    requires pat.obj.ObjVar? && pat.subject in mu && WellFormed(c, doc)
    requires Attr(doc, c.subjectColumn) == mu[pat.subject]
    requires (pat.pred.PredIri? ==> Attr(doc, c.predicateColumn) == Str(pat.pred.iri))
    ensures TripleTable(c, [doc]) && GraphOf(c, [doc]) == {TripleOf(c, doc)}
    ensures SelectedIn(GraphOf(c, [doc]), pat, mu[pat.subject]) == {TripleOf(c, doc)}
  {
    assert GraphOf(c, [doc]) == {TripleOf(c, doc)} by {
      assert [doc][0] == doc;
    }
  }

  /** A variable in both places, unbound in the row: a triple whose predicate and object differ shows it. */
  lemma RepeatedVariableIsNotJoined(pat: Pattern, c: RptClass, mu: Solution, doc: Value)
    requires pat.obj.ObjVar? && pat.subject in mu && pat.pred == PredVar(pat.obj.name) && pat.obj.name !in mu
    requires WellFormed(c, doc) && Attr(doc, c.subjectColumn) == mu[pat.subject]
    requires Attr(doc, c.predicateColumn) != ObjectOf(c, doc)
    ensures !Agrees(GraphOf(c, [doc]), pat, mu)
  {
    OneTriple(pat, c, mu, doc);
    assert !Joins(pat, TripleOf(c, doc), mu);
    assert pat.obj.name in mu + PatternSolution(pat, TripleOf(c, doc));
  }

  /**
   A variable the row already binds is overwritten: the row's one matching triple has another
   object, the LeftJoin keeps the row once, and the emission does not yield it.
   */
  lemma BoundVariableIsOverwritten(vars: map<string, Expr>, pat: Pattern, c: RptClass, doc: Value, env: Env,
                                   t: string, opt: string, row: string)
    requires Supported(vars, pat) && FreshAliases(vars, t, opt, row) && pat.subject in SolutionOf(vars, env)
    requires WellFormed(c, doc) && Attr(doc, c.subjectColumn) == vars[pat.subject](env)
    requires pat.pred.PredIri? && Attr(doc, c.predicateColumn) == Str(pat.pred.iri)
    requires pat.obj.name in SolutionOf(vars, env) && ObjectOf(c, doc) != vars[pat.obj.name](env)
    ensures var mu := SolutionOf(vars, env);
            && LeftJoinCount(GraphOf(c, [doc]), pat, mu, mu) == 1
            && multiset(OptionalSolutions(vars, pat, c, [doc], env, opt, row))[mu] == 0
  {
    var mu, x := SolutionOf(vars, env), TripleOf(c, doc);
    OneTriple(pat, c, mu, doc);
    SolutionsAreExtended(vars, pat, c, [doc], env, t, opt, row);
    assert MatchedDocs([doc], c, pat.pred, vars[pat.subject](env)) == [doc];
    assert PatternSolution(pat, x)[pat.obj.name] != mu[pat.obj.name];
    assert (mu + PatternSolution(pat, x))[pat.obj.name] != mu[pat.obj.name];
    assert Extended(pat, c, mu, [doc]) == [mu + PatternSolution(pat, x)];
    assert !Joins(pat, x, mu);
  }

  /**
   Over every table, then, the emission is the LeftJoin of a row exactly when the row leaves the
   variables it writes unbound and they are two.
   */
  lemma LeftJoinExactlyWhenFresh(vars: map<string, Expr>, pat: Pattern, c: RptClass, env: Env, t: string, opt: string,
                                 row: string)
    requires Supported(vars, pat) && FreshAliases(vars, t, opt, row) && DistinctColumns(c)
    requires pat.subject in SolutionOf(vars, env)
    ensures LeftJoinOnEveryTable(vars, pat, c, env, opt, row) <==> Fresh(pat, SolutionOf(vars, env))
  {
    var mu := SolutionOf(vars, env);
    if Fresh(pat, mu) {
      forall docs | TripleTable(c, docs)
        ensures IsLeftJoin(OptionalSolutions(vars, pat, c, docs, env, opt, row), GraphOf(c, docs), pat, mu)
      {
        forall x | x in SelectedIn(GraphOf(c, docs), pat, mu[pat.subject]) ensures Joins(pat, x, mu) {
          FreshJoins(pat, mu, x);
        }
        OptionalIsLeftJoin(vars, pat, c, docs, env, t, opt, row);
      }
    } else if Written(pat) !! mu.Keys {
      var p, o :| p == Str("p") && o == Str("o") && p != o;
      var doc := Doc(c, mu[pat.subject], p, o);
      RepeatedVariableIsNotJoined(pat, c, mu, doc);
      OneTriple(pat, c, mu, doc);
      OptionalIsLeftJoin(vars, pat, c, [doc], env, t, opt, row);
    } else {
      assert SelectedIn(GraphOf(c, []), pat, mu[pat.subject]) == {};
      OptionalIsLeftJoin(vars, pat, c, [], env, t, opt, row);
    }
  }

  /** The emitted clauses, evaluated on an outer row, yield the LeftJoin of its solution exactly when they can. */
  lemma EmissionIsLeftJoin(w: World, vars: map<string, Expr>, pat: Pattern, c: RptClass, env: Env,
                           t: string, opt: string, row: string)
    requires Supported(vars, pat) && FreshAliases(vars, t, opt, row) && TripleTable(c, w.db(c.collection))
    requires pat.subject in SolutionOf(vars, env)
    ensures var emitted := [OptLet(w, opt, ScanQuery(t, c, pat.pred, vars[pat.subject])), RowFor(row, opt)];
            IsLeftJoin(SolutionsOf(Rebound(vars, pat, row), ApplyAll(w, emitted, [env])),
                       GraphOf(c, w.db(c.collection)), pat, SolutionOf(vars, env))
            <==> Agrees(GraphOf(c, w.db(c.collection)), pat, SolutionOf(vars, env))
  {
    OptionalRows(w, env, t, opt, row, c, pat.pred, vars[pat.subject]);
    OptionalIsLeftJoin(vars, pat, c, w.db(c.collection), env, t, opt, row);
  }

  /** An outer row appears once for each match, and once when there is none. */
  lemma OuterRowAppears(vars: map<string, Expr>, pat: Pattern, c: RptClass, docs: seq<Value>, env: Env,
                        t: string, opt: string, row: string)
    requires Supported(vars, pat) && FreshAliases(vars, t, opt, row) && TripleTable(c, docs)
    ensures
      var matches := |MatchedDocs(docs, c, pat.pred, vars[pat.subject](env))|;
      |OptionalSolutions(vars, pat, c, docs, env, opt, row)| == if matches > 0 then matches else 1
  {
    SolutionsAreExtended(vars, pat, c, docs, env, t, opt, row);
  }

  /**
   Where the subject is unbound the scan finds nothing, while LeftJoin would bind it: the two agree
   exactly when no triple joins the row and the written variables are unbound.
   */
  lemma UnboundSubject(vars: map<string, Expr>, pat: Pattern, c: RptClass, docs: seq<Value>, env: Env,
                       t: string, opt: string, row: string)
    requires Supported(vars, pat) && FreshAliases(vars, t, opt, row) && TripleTable(c, docs)
    requires pat.subject !in SolutionOf(vars, env)
    ensures IsLeftJoin(OptionalSolutions(vars, pat, c, docs, env, opt, row), GraphOf(c, docs), pat,
                       SolutionOf(vars, env))
       <==> Written(pat) !! SolutionOf(vars, env).Keys
            && !exists x :: x in GraphOf(c, docs) && Joins(pat, x, SolutionOf(vars, env))
  {
    var mu, graph := SolutionOf(vars, env), GraphOf(c, docs);
    NothingForNull(docs, c, pat.pred);
    SolutionsAreExtended(vars, pat, c, docs, env, t, opt, row);
    if x :| x in graph && Joins(pat, x, mu) {
      UnboundJoins(graph, pat, mu, x);
    } else {
      AgreesUnmatched(graph, pat, mu);
    }
  }

  lemma UnboundJoins(graph: set<Triple>, pat: Pattern, mu: Solution, x: Triple)
    requires pat.obj.ObjVar? && pat.subject !in mu && x in graph && Joins(pat, x, mu)
    ensures !IsLeftJoin([mu - Written(pat)], graph, pat, mu)
  {
    var nu := mu - Written(pat);
    forall y | Joins(pat, y, mu) ensures mu + PatternSolution(pat, y) != nu {
      assert pat.subject in mu + PatternSolution(pat, y);
    }
    assert JoiningFor(graph, pat, mu, nu) == {};
    assert LeftJoinCount(graph, pat, mu, nu) == |JoiningFor(graph, pat, mu, nu)|;
    assert multiset([nu])[nu] == 1;
  }

  lemma {:induction false} NothingForNull(docs: seq<Value>, c: RptClass, p: Predicate)
    requires forall i :: 0 <= i < |docs| ==> WellFormed(c, docs[i])
    ensures MatchedDocs(docs, c, p, Null) == []
    decreases |docs|
  {
    if docs != [] {
      assert forall i :: 0 <= i < |docs[1..]| ==> docs[1..][i] == docs[i + 1];
      NothingForNull(docs[1..], c, p);
    }
  }
}
