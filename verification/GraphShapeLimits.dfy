/** Where the witness analysis stops short of what it says: VALUES, sub-SELECTs, and the converse. */
module GraphShapeLimits {
  import opened Collections
  import opened GraphShape
  import opened GraphShapeSoundness
  import opened GraphShapeWitness
  import opened GraphShapeConverse

  lemma SingletonVars(t: Triple)
    ensures BgpVars([t]) == SiteVars(Bgp([t])) == TripleVars(t)
    ensures forall v :: TripleSites([t], v) == if v in TripleVars(t) then 1 else 0
  {
    assert forall v | v in TripleVars(t) :: t in [t] && v in BgpVars([t]);
  }

  function World0(graph: set<Fact>): World {
    World(graph, map[], (i, g, s, o) => false, (i, g, m) => true, (i, g, m) => None)
  }

  lemma SolvesOne(w: World, t: Triple, mu: Solution)
    requires mu.Keys == TripleVars(t) && TripleHolds(w, t, mu, map[])
    ensures Solves(w, Bgp([t]), mu)
  {
    SingletonVars(t);
    var none: Solution := map[];
    assert BgpHolds(w, [t], mu, none);
  }

  lemma NoFactNoSolution(w: World, t: Triple, mu: Solution)
    requires t.p.Iri? && forall f :: f in w.graph ==> f.p != IriTerm(t.p.iri)
    ensures !Solves(w, Bgp([t]), mu)
  {
    assert t in [t];
    forall blanks: Solution ensures !BgpHolds(w, [t], mu, blanks) {
      assert !TripleHolds(w, t, mu, blanks);
    }
  }

  /**
   VALUES ?x { :a } OPTIONAL { ?x :p :o }: the VALUES block is no binding site, so ?x is the
   group's witness, and the row binds it although the group did not match.
   */
  lemma ValuesBindsAWitness(w: World, t: Triple, mu: Solution, q: Algebra)
    requires t == Triple(Var("x"), Iri("p"), Iri("o")) && mu == map["x" := IriTerm("a")]
    requires q == LeftJoin(Values([mu]), Bgp([t]), 0) && w == World0({})
    ensures Solves(w, q, mu) && !Took(w, q, mu, q.p2)
    ensures Pattern(t, [{"x"}]) in Patterns(q) && Active([{"x"}], mu) && !Drawn(w, t, mu)
  {
    forall b: Solution ensures !Solves(w, q.p2, b) { NoFactNoSolution(w, t, b); }
    LeftAlone(w, q.p1, q.p2, mu);
    LoneGroupListed(q, t);
    assert "x" in [{"x"}][0] && "x" in mu;
  }

  lemma LoneGroupListed(q: Algebra, t: Triple)
    requires q.LeftJoin? && q.p1.Values? && q.p2 == Bgp([t]) && Emittable(t) && TripleVars(t) == {"x"}
    ensures Pattern(t, [{"x"}]) in Patterns(q)
  {
    SingletonVars(t);
    assert SiteVars(q.p2) == {"x"};
    assert forall v :: Sites(q, v) == Sites(q.p2, v);
    assert Witness(q, q.p2) == {"x"};
    var x := Pattern(t, [] + [{"x"}]);
    assert t in [t];
    assert x in BgpPatterns([t], x.when);
    assert x in Group(q, q.p2, []);
    AddNewMembers([], Walk(q, q, []));
    assert [] + [{"x"}] == [{"x"}];
  }

  lemma LeftAlone(w: World, left: Algebra, group: Algebra, mu: Solution)
    requires left == Values([mu]) && forall b: Solution :: !Solves(w, group, b)
    ensures Solves(w, LeftJoin(left, group, 0), mu) && !Took(w, LeftJoin(left, group, 0), mu, group)
  {
    assert mu in [mu];
    assert Solves(w, left, mu) && Unmatched(w, group, 0, mu);
    assert !Took(w, left, mu, group);
  }

  /** A solution of `q` for which a listed pattern is active and yet is no fact. */
  ghost predicate Misread(w: World, q: Algebra, mu: Solution, x: Pattern) {
    Solves(w, q, mu) && x in Patterns(q) && Active(x.when, mu) && !Drawn(w, x.triple, mu)
  }

  /**
   ?z :r ?b . { SELECT ?a { ?a :p ?b } }: the inner ?b is another variable, but the pattern
   is listed for every row and reads the outer one.
   */
  lemma SubSelectHidesAVariable(w: World, outer: Triple, inner: Triple, mu: Solution)
    requires outer == Triple(Var("z"), Iri("r"), Var("b")) && inner == Triple(Var("a"), Iri("p"), Var("b"))
    requires w == World0({Fact(IriTerm("3"), IriTerm("r"), IriTerm("2")),
                          Fact(IriTerm("1"), IriTerm("p"), IriTerm("4"))})
    requires mu == map["z" := IriTerm("3"), "b" := IriTerm("2"), "a" := IriTerm("1")]
    ensures Misread(w, Join(Bgp([outer]), Project(Bgp([inner]), {"a"})), mu, Pattern(inner, []))
  {
    var a: Solution := map["z" := IriTerm("3"), "b" := IriTerm("2")];
    assert mu == a + map["a" := IriTerm("1")];
    SubSelectMisread(w, outer, inner, a, IriTerm("1"), IriTerm("4"));
  }

  lemma SubSelectMisread(w: World, outer: Triple, inner: Triple, a: Solution, n: RdfTerm, m: RdfTerm)
    requires Emittable(inner) && TripleVars(inner) == {"a", "b"} && "a" !in a
    requires a.Keys == TripleVars(outer) && TripleHolds(w, outer, a, map[])
    requires TripleHolds(w, inner, map["a" := n, "b" := m], map[]) && !Drawn(w, inner, a + map["a" := n])
    ensures Misread(w, Join(Bgp([outer]), Project(Bgp([inner]), {"a"})), a + map["a" := n], Pattern(inner, []))
  {
    SubSelectSolves(w, outer, inner, a, n, m);
    SubSelectListed(Join(Bgp([outer]), Project(Bgp([inner]), {"a"})), outer, inner);
  }

  lemma SubSelectListed(q: Algebra, outer: Triple, inner: Triple)
    requires q == Join(Bgp([outer]), Project(Bgp([inner]), {"a"})) && Emittable(inner)
    ensures Pattern(inner, []) in Patterns(q)
  {
    ListedForEveryRow(q, inner);
    assert Required(q.p1) == [outer] && Required(q.p2) == Required(q.p2.p) == [inner];
    assert inner in [inner] && inner in Required(q);
  }

  lemma SubSelectSolves(w: World, outer: Triple, inner: Triple, a: Solution, n: RdfTerm, m: RdfTerm)
    requires TripleVars(inner) == {"a", "b"} && "a" !in a
    requires a.Keys == TripleVars(outer) && TripleHolds(w, outer, a, map[])
    requires TripleHolds(w, inner, map["a" := n, "b" := m], map[])
    ensures Solves(w, Join(Bgp([outer]), Project(Bgp([inner]), {"a"})), a + map["a" := n])
  {
    InnerSolves(w, inner, n, m);
    SolvesOne(w, outer, a);
    JoinSolves(w, Bgp([outer]), Project(Bgp([inner]), {"a"}), a, map["a" := n]);
  }

  lemma InnerSolves(w: World, inner: Triple, n: RdfTerm, m: RdfTerm)
    requires TripleVars(inner) == {"a", "b"} && TripleHolds(w, inner, map["a" := n, "b" := m], map[])
    ensures Solves(w, Project(Bgp([inner]), {"a"}), map["a" := n])
  {
    var whole: Solution := map["a" := n, "b" := m];
    SolvesOne(w, inner, whole);
    assert map["a" := n] == Narrowed(whole, {"a"});
    ProjectSolves(w, Bgp([inner]), {"a"}, whole, map["a" := n]);
  }

  lemma ProjectSolves(w: World, p: Algebra, vars: set<string>, whole: Solution, mu: Solution)
    requires Solves(w, p, whole) && mu == Narrowed(whole, vars)
    ensures Solves(w, Project(p, vars), mu)
  {}

  lemma JoinSolves(w: World, p1: Algebra, p2: Algebra, a: Solution, b: Solution)
    requires Solves(w, p1, a) && Solves(w, p2, b) && Compatible(a, b)
    ensures Solves(w, Join(p1, p2), a + b)
  {
    assert Merges(a, b, a + b);
  }

  /** A solution that took the group, and a listed fact of the group that is not active. */
  ghost predicate Overlooked(w: World, q: Algebra, mu: Solution, g: Algebra, x: Pattern) {
    Took(w, q, mu, g) && x in Patterns(q) && x.triple in Required(g) && Drawn(w, x.triple, mu) && !Active(x.when, mu)
  }

  /**
   The converse fails: a group can match and bind none of its witnesses, when only a nested
   OPTIONAL would have bound them. Such a row is drawn without the group's patterns.
   */
  lemma MatchedGroupWithoutAWitness(w: World, c: Triple, t: Triple, body: Algebra)
    requires c == Triple(Iri("s"), Iri("p"), Iri("o")) && t == Triple(Iri("s"), Iri("q"), Var("b"))
    requires w == World0({Fact(IriTerm("s"), IriTerm("p"), IriTerm("o"))})
    requires body == LeftJoin(Bgp([c]), Bgp([t]), 0)
    ensures Overlooked(w, LeftJoin(Bgp([]), body, 0), map[], body, Pattern(c, [{"b"}]))
  {
    var q := LeftJoin(Bgp([]), body, 0);
    var mu: Solution := map[];
    NestedOptionalSolves(w, c, t, mu);
    BodyWitness(q, body, c, t);
    BodyListed(q, body, c);
    var x := Pattern(c, [{"b"}]);
    assert x.when[0] == {"b"};
    assert c in Required(body) && Drawn(w, c, mu);
  }

  lemma NestedOptionalSolves(w: World, c: Triple, t: Triple, mu: Solution)
    requires mu == map[] && TripleVars(c) == {} && TripleHolds(w, c, mu, map[]) && w.truth(0, w.graph, mu)
    requires t.p.Iri? && forall f :: f in w.graph ==> f.p != IriTerm(t.p.iri)
    ensures var body := LeftJoin(Bgp([c]), Bgp([t]), 0);
            Took(w, LeftJoin(Bgp([]), body, 0), mu, body)
  {
    var body := LeftJoin(Bgp([c]), Bgp([t]), 0);
    SolvesOne(w, c, mu);
    forall b: Solution ensures !Solves(w, Bgp([t]), b) { NoFactNoSolution(w, t, b); }
    assert Unmatched(w, Bgp([t]), 0, mu) && Solves(w, body, mu);
    assert BgpVars([]) == {} && BgpHolds(w, [], mu, mu);
    assert mu + mu == mu;
    OptionalTaken(w, Bgp([]), body, 0, mu, mu);
  }

  lemma OptionalTaken(w: World, p1: Algebra, p2: Algebra, cond: nat, a: Solution, b: Solution)
    requires Solves(w, p1, a) && Solves(w, p2, b) && Compatible(a, b) && w.truth(cond, w.graph, a + b)
    ensures Took(w, LeftJoin(p1, p2, cond), a + b, p2)
  {
    assert Merges(a, b, a + b) && Enters(w, p2, b, p2);
  }

  lemma BodyListed(q: Algebra, body: Algebra, c: Triple)
    requires q == LeftJoin(Bgp([]), body, 0) && body.LeftJoin? && body.p1 == Bgp([c])
    requires Emittable(c) && Witness(q, body) == {"b"}
    ensures Pattern(c, [{"b"}]) in Patterns(q)
  {
    var x := Pattern(c, [] + [{"b"}]);
    assert c in [c];
    assert x in BgpPatterns([c], x.when);
    assert Walk(q, body, x.when) == Walk(q, body.p1, x.when) + Group(q, body.p2, x.when);
    assert Group(q, body, []) == Walk(q, body, x.when);
    assert Walk(q, q, []) == Walk(q, q.p1, []) + Group(q, body, []);
    AddNewMembers([], Walk(q, q, []));
    assert [] + [{"b"}] == [{"b"}];
  }

  lemma BodyWitness(q: Algebra, body: Algebra, c: Triple, t: Triple)
    requires body == LeftJoin(Bgp([c]), Bgp([t]), 0) && q == LeftJoin(Bgp([]), body, 0)
    requires TripleVars(c) == {} && TripleVars(t) == {"b"}
    ensures Witness(q, body) == {"b"}
  {
    SingletonVars(t);
    SingletonVars(c);
    assert SiteVars(body) == {"b"};
    assert forall v :: Sites(q, v) == Sites(Bgp([]), v) + Sites(body, v);
    assert forall v :: Sites(Bgp([]), v) == 0;
  }

  // ---- a group that never matches ----

  ghost predicate NeverMatches(g: Algebra) {
    forall w, mu :: !Solves(w, g, mu)
  }

  lemma {:induction false} NeverEntered(w: World, branch: Algebra, mu: Solution, g: Algebra)
    requires NeverMatches(g)
    ensures !Enters(w, branch, mu, g)
    decreases branch, 1
  {
    NeverTaken(w, branch, mu, g);
    if branch == g { assert !Solves(w, g, mu); }
  }

  lemma {:induction false} NeverTaken(w: World, node: Algebra, mu: Solution, g: Algebra)
    requires NeverMatches(g)
    ensures !Took(w, node, mu, g)
    decreases node, 0
  {
    match node
    case Bgp(_) =>
    case Join(p1, p2) =>
      forall a ensures !Took(w, p1, a, g) && !Took(w, p2, a, g) { NeverTaken(w, p1, a, g); NeverTaken(w, p2, a, g); }
    case LeftJoin(p1, p2, _) =>
      forall a ensures !Took(w, p1, a, g) && !Enters(w, p2, a, g) {
        NeverTaken(w, p1, a, g); NeverEntered(w, p2, a, g);
      }
    case Union(p1, p2) => NeverEntered(w, p1, mu, g); NeverEntered(w, p2, mu, g);
    case Minus(p1, _) => NeverTaken(w, p1, mu, g);
    case Filter(p, _) => NeverTaken(w, p, mu, g);
    case Extend(p, _, _) =>
      forall a ensures !Took(w, p, a, g) { NeverTaken(w, p, a, g); }
    case Values(_) =>
    case Graph(name, p) =>
      forall iri, a ensures !Took(At(w, iri), p, a, g) { NeverTaken(At(w, iri), p, a, g); }
    case Project(p, _) =>
      forall a ensures !Took(w, p, a, g) { NeverTaken(w, p, a, g); }
  }

  /** Of a group that never matches the witnesses tell no lie. */
  lemma NeverMatchedIsExact(root: Algebra, g: Algebra)
    requires HasGroup(root, g) && ValuesApart(root, g) && NeverMatches(g)
    ensures AlwaysExact(root, g)
  {
    forall w, mu | Solves(w, root, mu) ensures WitnessIsExact(w, root, g, mu) {
      NeverTaken(w, root, mu, g);
      if BindsOne(mu, Witness(root, g)) { WitnessTellsIt(w, root, g, mu); }
    }
  }

  /**
   So where a MINUS takes everything away, a bound witness tells that the group matched, in every
   dataset, although the group need not bind one: the group never matches.
   */
  lemma MinusMatchesNothing(root: Algebra, g: Algebra, t: Triple)
    requires g == Minus(Bgp([t]), Bgp([t])) && TripleVars(t) != {} && TripleVars(t) * Witness(root, g) == {}
    requires HasGroup(root, g) && ValuesApart(root, g)
    ensures AlwaysExact(root, g) && !AlwaysBinds(g, Witness(root, g))
  {
    SingletonVars(t);
    forall w, mu ensures !Solves(w, g, mu) {
      if Solves(w, Bgp([t]), mu) {
        assert Compatible(mu, mu) && mu.Keys * mu.Keys == TripleVars(t);
        assert !Kept(w, Bgp([t]), mu);
      }
    }
    NeverMatchedIsExact(root, g);
  }
}
