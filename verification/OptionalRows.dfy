/** The OPTIONAL scan over all the rows of a query, its aliases those a builder mints. */
module OptionalRows {
  import opened Collections
  import opened AqlQuery
  import opened QueryBuilder
  import opened BuilderNames
  import opened OptionalScan

  // ---- minted aliases are fresh ----

  function TextOf(a: Alias): string {
    AliasText(a.prefix, a.n)
  }

  /** The expression reads no alias but these. */
  ghost predicate ReadsOnly(e: Expr, aliases: seq<Alias>) {
    forall env: Env, alias: string, v: Value {:trigger e(With(env, alias, v))} ::
      (forall i :: 0 <= i < |aliases| ==> alias != TextOf(aliases[i])) ==> e(With(env, alias, v)) == e(env)
  }

  ghost predicate AllReadOnly(vars: map<string, Expr>, aliases: seq<Alias>) {
    forall v :: v in vars ==> ReadsOnly(vars[v], aliases)
  }

  /** The prefix condition. */
  predicate NoClash(aliases: seq<Alias>) {
    forall i, j :: 0 <= i < |aliases| && 0 <= j < |aliases| ==> !DigitExtension(aliases[i].prefix, aliases[j].prefix)
  }

  /** The aliases after an emission that starts at this count. */
  function WithEmission(log: Log, n: nat): Log {
    log.(aliases := log.aliases + [Alias("doc", n + 1), Alias("optsub", n + 2), Alias("optrow", n + 3)])
  }

  /** The emission's aliases go on where the log's stop. */
  lemma EmissionIsLogged(log: Log, lowBind: nat, highBind: nat, lowAlias: nat, n: nat)
    requires LogWithin(log, lowBind, highBind, lowAlias, n)
    ensures LogWithin(WithEmission(log, n), lowBind, highBind, lowAlias, n + 3)
  {}

  lemma ReadsMore(e: Expr, aliases: seq<Alias>, more: seq<Alias>)
    requires ReadsOnly(e, aliases) && |aliases| <= |more| && more[..|aliases|] == aliases
    ensures ReadsOnly(e, more)
  {
    forall env: Env, alias: string, v: Value | forall i :: 0 <= i < |more| ==> alias != TextOf(more[i])
      ensures e(With(env, alias, v)) == e(env)
    {
      assert forall i :: 0 <= i < |aliases| ==> aliases[i] == more[i];
    }
  }

  lemma FieldReadsRow(row: string, field: string, aliases: seq<Alias>, k: nat)
    requires k < |aliases| && row == TextOf(aliases[k])
    ensures ReadsOnly(FieldRef(row, field), aliases)
  {}

  /** An alias that is none of those read changes nothing. */
  lemma NotRead(vars: map<string, Expr>, aliases: seq<Alias>, alias: string)
    requires AllReadOnly(vars, aliases) && forall i :: 0 <= i < |aliases| ==> alias != TextOf(aliases[i])
    ensures forall v :: v in vars ==> Unaffected(vars[v], alias)
  {}

  /**
   Under the prefix condition the three aliases of an emission are fresh for the variables there are,
   and the variables it rebinds read no alias but the minted ones: so the next emission's are too.
   */
  lemma EmittedAreFresh(log: Log, lowBind: nat, highBind: nat, lowAlias: nat, n: nat, vars: map<string, Expr>,
                        pat: Pattern)
    requires LogWithin(log, lowBind, highBind, lowAlias, n) && NoClash(WithEmission(log, n).aliases)
    requires AllReadOnly(vars, log.aliases) && pat.obj.ObjVar?
    ensures FreshAliases(vars, AliasText("doc", n + 1), AliasText("optsub", n + 2), AliasText("optrow", n + 3))
    ensures AllReadOnly(Rebound(vars, pat, AliasText("optrow", n + 3)), WithEmission(log, n).aliases)
  {
    var all, before := WithEmission(log, n).aliases, |log.aliases|;
    EmissionIsLogged(log, lowBind, highBind, lowAlias, n);
    AliasesDiffer(WithEmission(log, n), lowBind, highBind, lowAlias, n + 3);
    forall k, i | before <= k < |all| && 0 <= i < before ensures TextOf(all[k]) != TextOf(log.aliases[i]) {
      assert all[i] == log.aliases[i];
    }
    NotRead(vars, log.aliases, TextOf(all[before]));
    NotRead(vars, log.aliases, TextOf(all[before + 1]));
    NotRead(vars, log.aliases, TextOf(all[before + 2]));
    forall v | v in vars ensures ReadsOnly(vars[v], all) { ReadsMore(vars[v], log.aliases, all); }
    FieldReadsRow(TextOf(all[before + 2]), "f0", all, before + 2);
    FieldReadsRow(TextOf(all[before + 2]), "f1", all, before + 2);
  }

  // ---- all the rows ----

  function Emission(w: World, vars: map<string, Expr>, pat: Pattern, c: RptClass, t: string, opt: string,
                    row: string): seq<Clause>
    requires pat.subject in vars
  {
    [OptLet(w, opt, ScanQuery(t, c, pat.pred, vars[pat.subject])), RowFor(row, opt)]
  }

  /** How often `nu` is in the LeftJoin of all the solutions with the pattern. */
  ghost function LeftJoinTotal(graph: set<Triple>, pat: Pattern, mus: seq<Solution>, nu: Solution): nat
    requires pat.obj.ObjVar?
  {
    if mus == [] then 0 else LeftJoinCount(graph, pat, mus[0], nu) + LeftJoinTotal(graph, pat, mus[1..], nu)
  }

  // A LET and a FOR take the rows one by one.

  lemma LetByRow(w: World, c: Clause, rows: seq<Env>)
    requires c.Let? && rows != []
    ensures Apply(w, c, rows) == Apply(w, c, [rows[0]]) + Apply(w, c, rows[1..])
  {}

  lemma {:induction false} LoopAppend(a: seq<Env>, b: seq<Env>, alias: string, source: Env -> seq<Value>)
    ensures Loop(a + b, alias, source) == Loop(a, alias, source) + Loop(b, alias, source)
    decreases |a|
  {
    if a == [] {
      assert a + b == b;
    } else {
      assert (a + b)[1..] == a[1..] + b;
      LoopAppend(a[1..], b, alias, source);
    }
  }

  lemma TwoClauses(w: World, cs: seq<Clause>, rows: seq<Env>)
    requires |cs| == 2
    ensures ApplyAll(w, cs, rows) == Apply(w, cs[1], Apply(w, cs[0], rows))
  {
    assert cs == [cs[0]] + [cs[1]];
    ApplyAllAppend(w, [cs[0]], [cs[1]], rows);
    ApplyOne(w, cs[0], rows);
    ApplyOne(w, cs[1], Apply(w, cs[0], rows));
  }

  lemma RowByRow(w: World, cs: seq<Clause>, rows: seq<Env>)
    requires |cs| == 2 && cs[0].Let? && cs[1].ForIn? && rows != []
    ensures ApplyAll(w, cs, rows) == ApplyAll(w, cs, [rows[0]]) + ApplyAll(w, cs, rows[1..])
  {
    TwoClauses(w, cs, rows);
    TwoClauses(w, cs, [rows[0]]);
    TwoClauses(w, cs, rows[1..]);
    LetByRow(w, cs[0], rows);
    LoopAppend(Apply(w, cs[0], [rows[0]]), Apply(w, cs[0], rows[1..]), cs[1].alias, cs[1].source);
  }

  lemma SolutionsAppend(vars: map<string, Expr>, a: seq<Env>, b: seq<Env>)
    ensures SolutionsOf(vars, a + b) == SolutionsOf(vars, a) + SolutionsOf(vars, b)
  {}

  /** The clauses make of each row its LeftJoin. */
  ghost predicate JoinsEach(w: World, cs: seq<Clause>, vars: map<string, Expr>, next: map<string, Expr>, pat: Pattern,
                            graph: set<Triple>, rows: seq<Env>)
    requires pat.obj.ObjVar?
  {
    forall i :: 0 <= i < |rows| ==>
      IsLeftJoin(SolutionsOf(next, ApplyAll(w, cs, [rows[i]])), graph, pat, SolutionOf(vars, rows[i]))
  }

  lemma FirstJoined(solutions: seq<Solution>, rest: seq<Solution>, graph: set<Triple>, pat: Pattern, mu: Solution,
                    mus: seq<Solution>, nu: Solution)
    requires pat.obj.ObjVar? && IsLeftJoin(solutions, graph, pat, mu)
    requires multiset(rest)[nu] == LeftJoinTotal(graph, pat, mus, nu)
    ensures multiset(solutions + rest)[nu] == LeftJoinTotal(graph, pat, [mu] + mus, nu)
  {
    assert ([mu] + mus)[1..] == mus;
  }

  lemma {:induction false} JoinedRows(w: World, cs: seq<Clause>, vars: map<string, Expr>, next: map<string, Expr>,
                                      pat: Pattern, graph: set<Triple>, rows: seq<Env>, nu: Solution)
    requires pat.obj.ObjVar? && |cs| == 2 && cs[0].Let? && cs[1].ForIn?
    requires JoinsEach(w, cs, vars, next, pat, graph, rows)
    ensures multiset(SolutionsOf(next, ApplyAll(w, cs, rows)))[nu]
         == LeftJoinTotal(graph, pat, SolutionsOf(vars, rows), nu)
    decreases |rows|
  {
    if rows == [] {
      TwoClauses(w, cs, rows);
      assert Apply(w, cs[0], rows) == [] && ApplyAll(w, cs, rows) == [];
    } else {
      assert JoinsEach(w, cs, vars, next, pat, graph, rows[1..]);
      JoinedRows(w, cs, vars, next, pat, graph, rows[1..], nu);
      RowByRow(w, cs, rows);
      var first, rest := ApplyAll(w, cs, [rows[0]]), ApplyAll(w, cs, rows[1..]);
      SolutionsAppend(next, first, rest);
      FirstJoined(SolutionsOf(next, first), SolutionsOf(next, rest), graph, pat, SolutionOf(vars, rows[0]),
                  SolutionsOf(vars, rows[1..]), nu);
      assert [SolutionOf(vars, rows[0])] + SolutionsOf(vars, rows[1..]) == SolutionsOf(vars, rows);
    }
  }

  lemma EmissionJoinsEach(w: World, vars: map<string, Expr>, pat: Pattern, c: RptClass, rows: seq<Env>,
                          t: string, opt: string, row: string)
    requires Supported(vars, pat) && FreshAliases(vars, t, opt, row) && TripleTable(c, w.db(c.collection))
    requires forall i :: 0 <= i < |rows| ==> pat.subject in SolutionOf(vars, rows[i])
                                             && Agrees(GraphOf(c, w.db(c.collection)), pat, SolutionOf(vars, rows[i]))
    ensures JoinsEach(w, Emission(w, vars, pat, c, t, opt, row), vars, Rebound(vars, pat, row), pat,
                      GraphOf(c, w.db(c.collection)), rows)
  {
    forall i | 0 <= i < |rows|
      ensures IsLeftJoin(SolutionsOf(Rebound(vars, pat, row),
                                     ApplyAll(w, Emission(w, vars, pat, c, t, opt, row), [rows[i]])),
                         GraphOf(c, w.db(c.collection)), pat, SolutionOf(vars, rows[i]))
    {
      EmissionIsLeftJoin(w, vars, pat, c, rows[i], t, opt, row);
    }
  }

  /**
   In a query whose aliases its builder minted, the emission turns the solutions of all the rows into
   their LeftJoin with the pattern, each as often, if it can be that of every row.
   */
  lemma QueryIsLeftJoin(w: World, log: Log, lowBind: nat, highBind: nat, lowAlias: nat, n: nat,
                        vars: map<string, Expr>, pat: Pattern, c: RptClass, rows: seq<Env>, nu: Solution)
    requires LogWithin(log, lowBind, highBind, lowAlias, n) && NoClash(WithEmission(log, n).aliases)
    requires AllReadOnly(vars, log.aliases) && Supported(vars, pat) && TripleTable(c, w.db(c.collection))
    requires forall i :: 0 <= i < |rows| ==> pat.subject in SolutionOf(vars, rows[i])
                                             && Agrees(GraphOf(c, w.db(c.collection)), pat, SolutionOf(vars, rows[i]))
    ensures var t, opt, row := AliasText("doc", n + 1), AliasText("optsub", n + 2), AliasText("optrow", n + 3);
            multiset(SolutionsOf(Rebound(vars, pat, row),
                                 ApplyAll(w, Emission(w, vars, pat, c, t, opt, row), rows)))[nu]
            == LeftJoinTotal(GraphOf(c, w.db(c.collection)), pat, SolutionsOf(vars, rows), nu)
  {
    EmittedAreFresh(log, lowBind, highBind, lowAlias, n, vars, pat);
    var t, opt, row := AliasText("doc", n + 1), AliasText("optsub", n + 2), AliasText("optrow", n + 3);
    EmissionJoinsEach(w, vars, pat, c, rows, t, opt, row);
    JoinedRows(w, Emission(w, vars, pat, c, t, opt, row), vars, Rebound(vars, pat, row), pat,
               GraphOf(c, w.db(c.collection)), rows, nu);
  }
}
