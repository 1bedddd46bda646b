/**
 When a matched group always binds a witness: the condition is read off the group's shape, with
 conditions and expressions left open.
 */
module GraphShapeWitness {
  import opened Collections
  import opened GraphShape
  import opened GraphShapeSoundness

  /** Whatever solution `q` has, it binds a variable of `vars`. */
  predicate AlwaysBinds(q: Algebra, vars: set<string>) {
    match q
    case Bgp(triples) => exists t :: t in triples && TripleVars(t) * vars != {}
    case Join(p1, p2) => AlwaysBinds(p1, vars) || AlwaysBinds(p2, vars)
    case LeftJoin(p1, _, _) => AlwaysBinds(p1, vars)
    case Union(p1, p2) => AlwaysBinds(p1, vars) && AlwaysBinds(p2, vars)
    case Minus(p1, _) => AlwaysBinds(p1, vars)
    case Filter(p, _) => AlwaysBinds(p, vars)
    case Extend(p, _, _) => AlwaysBinds(p, vars)
    case Values(rows) => forall r :: r in rows ==> r.Keys * vars != {}
    case Graph(name, p) => TermVars(name) * vars != {} || AlwaysBinds(p, vars)
    case Project(p, kept) => AlwaysBinds(p, vars * kept)
  }

  /** No sub-SELECT hides one of the variables that its body can bind. */
  predicate Shows(q: Algebra, vars: set<string>) {
    match q
    case Bgp(_) => true
    case Join(p1, p2) => Shows(p1, vars) && Shows(p2, vars)
    case LeftJoin(p1, p2, _) => Shows(p1, vars) && Shows(p2, vars)
    case Union(p1, p2) => Shows(p1, vars) && Shows(p2, vars)
    case Minus(p1, _) => Shows(p1, vars)
    case Filter(p, _) => Shows(p, vars)
    case Extend(p, _, _) => Shows(p, vars)
    case Values(_) => true
    case Graph(_, p) => Shows(p, vars)
    case Project(p, kept) =>
      Shows(p, vars) && forall v :: v in vars && v !in kept ==> Sites(p, v) == ValueSites(p, v) == 0
  }

  ghost predicate BindsOne(mu: Solution, vars: set<string>) {
    exists v :: v in vars && v in mu
  }

  lemma MoreBinds(nu: Solution, mu: Solution, vars: set<string>)
    requires BindsOne(nu, vars) && Restricts(nu, mu)
    ensures BindsOne(mu, vars)
  {}

  lemma MergedBinds(a: Solution, b: Solution, mu: Solution, vars: set<string>)
    requires Merges(a, b, mu) && (BindsOne(a, vars) || BindsOne(b, vars))
    ensures BindsOne(mu, vars)
  {
    if BindsOne(a, vars) { MoreBinds(a, mu, vars); } else { MoreBinds(b, mu, vars); }
  }

  lemma BgpBindsOne(w: World, triples: seq<Triple>, mu: Solution, vars: set<string>)
    requires Solves(w, Bgp(triples), mu) && AlwaysBinds(Bgp(triples), vars)
    ensures BindsOne(mu, vars)
  {
    var t :| t in triples && TripleVars(t) * vars != {};
    var v :| v in TripleVars(t) * vars;
    assert v in BgpVars(triples);
  }

  lemma {:induction false} GraphAlwaysBinds(w: World, q: Algebra, mu: Solution, vars: set<string>)
    requires q.Graph? && Solves(w, q, mu) && AlwaysBinds(q, vars)
    ensures BindsOne(mu, vars)
    decreases q, 0
  {
    var Graph(name, p) := q;
    if name.Iri? {
      AlwaysBindsOne(At(w, name.iri), p, mu, vars);
    } else {
      var iri, a :| GraphBinds(w, iri, name.name, a, mu) && Solves(At(w, iri), p, a);
      if AlwaysBinds(p, vars) { AlwaysBindsOne(At(w, iri), p, a, vars); MoreBinds(a, mu, vars); }
      else { assert name.name in vars && name.name in mu; }
    }
  }

  lemma {:induction false} ProjectAlwaysBinds(w: World, q: Algebra, mu: Solution, vars: set<string>)
    requires q.Project? && Solves(w, q, mu) && AlwaysBinds(q, vars)
    ensures BindsOne(mu, vars)
    decreases q, 0
  {
    var Project(p, kept) := q;
    var a :| Solves(w, p, a) && mu == Narrowed(a, kept);
    AlwaysBindsOne(w, p, a, vars * kept);
    var v :| v in vars * kept && v in a;
    assert v in mu;
  }

  lemma {:induction false} AlwaysBindsOne(w: World, q: Algebra, mu: Solution, vars: set<string>)
    requires Solves(w, q, mu) && AlwaysBinds(q, vars)
    ensures BindsOne(mu, vars)
    decreases q, 1
  {
    match q
    case Bgp(triples) => BgpBindsOne(w, triples, mu, vars);
    case Join(p1, p2) =>
      var a, b :| Solves(w, p1, a) && Solves(w, p2, b) && Merges(a, b, mu);
      if AlwaysBinds(p1, vars) { AlwaysBindsOne(w, p1, a, vars); } else { AlwaysBindsOne(w, p2, b, vars); }
      MergedBinds(a, b, mu, vars);
    case LeftJoin(p1, p2, cond) =>
      if Solves(w, p1, mu) {
        AlwaysBindsOne(w, p1, mu, vars);
      } else {
        var a, b :| Solves(w, p1, a) && Solves(w, p2, b) && Merges(a, b, mu);
        AlwaysBindsOne(w, p1, a, vars);
        MergedBinds(a, b, mu, vars);
      }
    case Union(p1, p2) =>
      if Solves(w, p1, mu) { AlwaysBindsOne(w, p1, mu, vars); } else { AlwaysBindsOne(w, p2, mu, vars); }
    case Minus(p1, _) => AlwaysBindsOne(w, p1, mu, vars);
    case Filter(p, _) => AlwaysBindsOne(w, p, mu, vars);
    case Extend(p, bound, expr) =>
      var a :| Solves(w, p, a) && Extends(w, bound, expr, a, mu);
      AlwaysBindsOne(w, p, a, vars);
      MoreBinds(a, mu, vars);
    case Values(rows) =>
      assert mu in rows;
      var v :| v in mu.Keys * vars;
    case Graph(_, _) => GraphAlwaysBinds(w, q, mu, vars);
    case Project(_, _) => ProjectAlwaysBinds(w, q, mu, vars);
  }

  lemma {:induction false} EntersBindsOne(w: World, branch: Algebra, mu: Solution, g: Algebra, vars: set<string>)
    requires Enters(w, branch, mu, g) && Shows(branch, vars) && AlwaysBinds(g, vars)
    ensures BindsOne(mu, vars)
    decreases branch, 2
  {
    if branch == g && Solves(w, branch, mu) { AlwaysBindsOne(w, branch, mu, vars); }
    else { TookBindsOne(w, branch, mu, g, vars); }
  }

  lemma {:induction false} OptionalBindsOne(w: World, node: Algebra, mu: Solution, g: Algebra, vars: set<string>)
    requires node.LeftJoin? && Took(w, node, mu, g) && Shows(node, vars) && AlwaysBinds(g, vars)
    ensures BindsOne(mu, vars)
    decreases node, 0
  {
    var LeftJoin(p1, p2, cond) := node;
    if Took(w, p1, mu, g) {
      TookBindsOne(w, p1, mu, g, vars);
    } else {
      var a, b :| Solves(w, p1, a) && Solves(w, p2, b) && Merges(a, b, mu) && w.truth(cond, w.graph, mu)
                  && (Took(w, p1, a, g) || Enters(w, p2, b, g));
      if Took(w, p1, a, g) { TookBindsOne(w, p1, a, g, vars); } else { EntersBindsOne(w, p2, b, g, vars); }
      MergedBinds(a, b, mu, vars);
    }
  }

  lemma {:induction false} GraphBindsOne(w: World, node: Algebra, mu: Solution, g: Algebra, vars: set<string>)
    requires node.Graph? && Took(w, node, mu, g) && Shows(node, vars) && AlwaysBinds(g, vars)
    ensures BindsOne(mu, vars)
    decreases node, 0
  {
    var Graph(name, p) := node;
    if name.Iri? {
      TookBindsOne(At(w, name.iri), p, mu, g, vars);
    } else {
      var iri, a :| GraphBinds(w, iri, name.name, a, mu) && Took(At(w, iri), p, a, g);
      TookBindsOne(At(w, iri), p, a, g, vars);
      MoreBinds(a, mu, vars);
    }
  }

  lemma {:induction false} ProjectBindsOne(w: World, node: Algebra, mu: Solution, g: Algebra, vars: set<string>)
    requires node.Project? && Took(w, node, mu, g) && Shows(node, vars) && AlwaysBinds(g, vars)
    ensures BindsOne(mu, vars)
    decreases node, 0
  {
    var Project(p, kept) := node;
    var a :| Took(w, p, a, g) && mu == Narrowed(a, kept);
    TookBindsOne(w, p, a, g, vars);
    TookSolves(w, p, a, g);
    var v :| v in vars && v in a;
    BoundNeedsASite(w, p, a, v);
    assert v in mu;
  }

  /** A solution that took such a group binds one of the variables. */
  lemma {:induction false} TookBindsOne(w: World, node: Algebra, mu: Solution, g: Algebra, vars: set<string>)
    requires Took(w, node, mu, g) && Shows(node, vars) && AlwaysBinds(g, vars)
    ensures BindsOne(mu, vars)
    decreases node, 1
  {
    match node
    case Join(p1, p2) =>
      var a, b :| Solves(w, p1, a) && Solves(w, p2, b) && Merges(a, b, mu) && (Took(w, p1, a, g) || Took(w, p2, b, g));
      if Took(w, p1, a, g) { TookBindsOne(w, p1, a, g, vars); } else { TookBindsOne(w, p2, b, g, vars); }
      MergedBinds(a, b, mu, vars);
    case LeftJoin(_, _, _) => OptionalBindsOne(w, node, mu, g, vars);
    case Union(p1, p2) =>
      if Enters(w, p1, mu, g) { EntersBindsOne(w, p1, mu, g, vars); } else { EntersBindsOne(w, p2, mu, g, vars); }
    case Minus(p1, _) => TookBindsOne(w, p1, mu, g, vars);
    case Filter(p, _) => TookBindsOne(w, p, mu, g, vars);
    case Extend(p, bound, expr) =>
      var a :| Took(w, p, a, g) && Extends(w, bound, expr, a, mu);
      TookBindsOne(w, p, a, g, vars);
      MoreBinds(a, mu, vars);
    case Graph(_, _) => GraphBindsOne(w, node, mu, g, vars);
    case Project(_, _) => ProjectBindsOne(w, node, mu, g, vars);
  }

  /** No VALUES block outside the group binds a witness of it. */
  ghost predicate ValuesApart(root: Algebra, g: Algebra) {
    forall v :: v in Witness(root, g) ==> ValueSites(g, v) == ValueSites(root, v)
  }

  /** A row binds one of the group's witnesses exactly when it took the group. */
  ghost predicate WitnessIsExact(w: World, root: Algebra, g: Algebra, mu: Solution) {
    BindsOne(mu, Witness(root, g)) <==> Took(w, root, mu, g)
  }

  lemma WitnessTellsIt(w: World, root: Algebra, g: Algebra, mu: Solution)
    requires HasGroup(root, g) && ValuesApart(root, g) && Solves(w, root, mu)
    requires BindsOne(mu, Witness(root, g))
    ensures Took(w, root, mu, g)
  {
    var v :| v in Witness(root, g) && v in mu;
    SiteVarsAreSites(g, v);
    BoundWitnessTook(w, root, mu, g, v);
  }

  /**
   So it is wherever the group always binds a witness, no VALUES block outside it does, and no
   sub-SELECT hides one.
   */
  lemma MatchedExactlyWhenWitnessed(w: World, root: Algebra, g: Algebra, mu: Solution)
    requires Shows(root, Witness(root, g)) && HasGroup(root, g) && ValuesApart(root, g)
    requires AlwaysBinds(g, Witness(root, g))
    requires Solves(w, root, mu)
    ensures WitnessIsExact(w, root, g, mu)
  {
    if BindsOne(mu, Witness(root, g)) { WitnessTellsIt(w, root, g, mu); }
    if Took(w, root, mu, g) { TookBindsOne(w, root, mu, g, Witness(root, g)); }
  }
}
