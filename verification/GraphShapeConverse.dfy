/**
 The other half: where a group need not bind a witness, some dataset and some choice of the
 conditions make it match and bind none. For queries whose VALUES blocks share no variable, whose
 sub-SELECTs hide none, and whose MINUS takes nothing away.
 */
module GraphShapeConverse {
  import opened Collections
  import opened GraphShape
  import opened GraphShapeSoundness
  import opened GraphShapeWitness

  /** A triple as the grammar allows it: a path only as predicate. */
  predicate Proper(t: Triple) {
    !t.s.Path? && !t.o.Path?
  }

  /** The variables of VALUES blocks. */
  function ValueVars(q: Algebra): set<string> {
    match q
    case Bgp(_) => {}
    case Join(p1, p2) => ValueVars(p1) + ValueVars(p2)
    case LeftJoin(p1, p2, _) => ValueVars(p1) + ValueVars(p2)
    case Union(p1, p2) => ValueVars(p1) + ValueVars(p2)
    case Minus(p1, _) => ValueVars(p1)
    case Filter(p, _) => ValueVars(p)
    case Extend(p, _, _) => ValueVars(p)
    case Values(rows) => set r, v | r in rows && v in r :: v
    case Graph(_, p) => ValueVars(p)
    case Project(p, _) => ValueVars(p)
  }

  /** The variables that name a graph. */
  function GraphVars(q: Algebra): set<string> {
    match q
    case Bgp(_) => {}
    case Join(p1, p2) => GraphVars(p1) + GraphVars(p2)
    case LeftJoin(p1, p2, _) => GraphVars(p1) + GraphVars(p2)
    case Union(p1, p2) => GraphVars(p1) + GraphVars(p2)
    case Minus(p1, _) => GraphVars(p1)
    case Filter(p, _) => GraphVars(p)
    case Extend(p, _, _) => GraphVars(p)
    case Values(_) => {}
    case Graph(name, p) => TermVars(name) + GraphVars(p)
    case Project(p, _) => GraphVars(p)
  }

  function Places(q: Algebra): set<string> {
    SiteVars(q) + ValueVars(q)
  }

  /**
   No variable is of two VALUES blocks, and no block is empty; a sub-SELECT projects every variable
   of its body; a BIND's variable is new, as section 18.2.4.4 demands; a GRAPH names a variable or an
   IRI; and a MINUS shares no variable with what it is taken from.
   */
  predicate Plain(q: Algebra) {
    match q
    case Bgp(triples) => forall t :: t in triples ==> Proper(t)
    case Join(p1, p2) => Plain(p1) && Plain(p2) && ValueVars(p1) !! ValueVars(p2)
    case LeftJoin(p1, p2, _) => Plain(p1) && Plain(p2) && ValueVars(p1) !! ValueVars(p2)
    case Union(p1, p2) => Plain(p1) && Plain(p2) && ValueVars(p1) !! ValueVars(p2)
    case Minus(p1, p2) => Plain(p1) && Places(p1) !! Places(p2)
    case Filter(p, _) => Plain(p)
    case Extend(p, bound, _) => Plain(p) && bound !in Places(p)
    case Values(rows) => rows != []
    case Graph(name, p) => Plain(p) && (name.Var? || name.Iri?)
    case Project(p, kept) => Plain(p) && Places(p) <= kept
  }

  lemma {:induction false} ValueVarsAreSites(q: Algebra, v: string)
    ensures v in ValueVars(q) <==> ValueSites(q, v) > 0
    decreases q
  {
    match q
    case Bgp(_) =>
    case Join(p1, p2) => ValueVarsAreSites(p1, v); ValueVarsAreSites(p2, v);
    case LeftJoin(p1, p2, _) => ValueVarsAreSites(p1, v); ValueVarsAreSites(p2, v);
    case Union(p1, p2) => ValueVarsAreSites(p1, v); ValueVarsAreSites(p2, v);
    case Minus(p1, _) => ValueVarsAreSites(p1, v);
    case Filter(p, _) => ValueVarsAreSites(p, v);
    case Extend(p, _, _) => ValueVarsAreSites(p, v);
    case Values(_) =>
    case Graph(_, p) => ValueVarsAreSites(p, v);
    case Project(p, _) => ValueVarsAreSites(p, v);
  }

  lemma PlacesAreSites(q: Algebra, v: string)
    ensures v in Places(q) <==> Sites(q, v) + ValueSites(q, v) > 0
  {
    SiteVarsAreSites(q, v);
    ValueVarsAreSites(q, v);
  }

  lemma {:induction false} PlainShows(q: Algebra, vars: set<string>)
    requires Plain(q)
    ensures Shows(q, vars)
    decreases q
  {
    match q
    case Bgp(_) =>
    case Join(p1, p2) => PlainShows(p1, vars); PlainShows(p2, vars);
    case LeftJoin(p1, p2, _) => PlainShows(p1, vars); PlainShows(p2, vars);
    case Union(p1, p2) => PlainShows(p1, vars); PlainShows(p2, vars);
    case Minus(p1, _) => PlainShows(p1, vars);
    case Filter(p, _) => PlainShows(p, vars);
    case Extend(p, _, _) => PlainShows(p, vars);
    case Values(_) =>
    case Graph(_, p) => PlainShows(p, vars);
    case Project(p, kept) =>
      PlainShows(p, vars);
      forall v | v in vars && v !in kept ensures Sites(p, v) == ValueSites(p, v) == 0 { PlacesAreSites(p, v); }
  }

  lemma BindsPlaces(w: World, q: Algebra, mu: Solution)
    requires Solves(w, q, mu)
    ensures mu.Keys <= Places(q)
  {
    forall v | v in mu ensures v in Places(q) {
      BoundNeedsASite(w, q, mu, v);
      PlacesAreSites(q, v);
    }
  }

  /** The variables to leave unbound, and the values that VALUES blocks give to others. */
  datatype Aim = Aim(vars: set<string>, given: Solution)

  /** The value every other variable and every blank node gets. */
  const THE_NAME := "c"
  const THE_TERM := IriTerm(THE_NAME)

  function Given(aim: Aim, v: string): RdfTerm {
    if v in aim.given then aim.given[v] else THE_TERM
  }

  predicate Fits(mu: Solution, aim: Aim) {
    forall v :: v in mu ==> mu[v] == Given(aim, v)
  }

  /** Every variable has its value, and none is of those to leave unbound. */
  predicate Bare(mu: Solution, aim: Aim) {
    Fits(mu, aim) && mu.Keys !! aim.vars
  }

  /** Every VALUES block has a row that fits, and a bare one if it has any bare one. */
  predicate Chosen(q: Algebra, aim: Aim) {
    match q
    case Bgp(_) => true
    case Join(p1, p2) => Chosen(p1, aim) && Chosen(p2, aim)
    case LeftJoin(p1, p2, _) => Chosen(p1, aim) && Chosen(p2, aim)
    case Union(p1, p2) => Chosen(p1, aim) && Chosen(p2, aim)
    case Minus(p1, _) => Chosen(p1, aim)
    case Filter(p, _) => Chosen(p, aim)
    case Extend(p, _, _) => Chosen(p, aim)
    case Values(rows) => exists r :: r in rows && Fits(r, aim) && (AlwaysBinds(q, aim.vars) || r.Keys !! aim.vars)
    case Graph(_, p) => Chosen(p, aim)
    case Project(p, _) => Chosen(p, aim)
  }

  lemma {:induction false} ChosenSame(q: Algebra, a: Aim, b: Aim)
    requires Chosen(q, a) && a.vars == b.vars && forall v :: v in ValueVars(q) ==> Given(a, v) == Given(b, v)
    ensures Chosen(q, b)
    decreases q
  {
    match q
    case Bgp(_) =>
    case Join(p1, p2) => ChosenSame(p1, a, b); ChosenSame(p2, a, b);
    case LeftJoin(p1, p2, _) => ChosenSame(p1, a, b); ChosenSame(p2, a, b);
    case Union(p1, p2) => ChosenSame(p1, a, b); ChosenSame(p2, a, b);
    case Minus(p1, _) => ChosenSame(p1, a, b);
    case Filter(p, _) => ChosenSame(p, a, b);
    case Extend(p, _, _) => ChosenSame(p, a, b);
    case Values(rows) =>
      var r :| r in rows && Fits(r, a) && (AlwaysBinds(q, a.vars) || r.Keys !! a.vars);
      assert forall v :: v in r ==> v in ValueVars(q);
    case Graph(_, p) => ChosenSame(p, a, b);
    case Project(p, _) => ChosenSame(p, a, b);
  }

  lemma ChosenInBoth(p1: Algebra, p2: Algebra, vars: set<string>, one: Solution, two: Solution)
    requires Chosen(p1, Aim(vars, one)) && Chosen(p2, Aim(vars, two)) && ValueVars(p1) !! ValueVars(p2)
    requires one.Keys <= ValueVars(p1) && two.Keys <= ValueVars(p2)
    ensures Chosen(p1, Aim(vars, one + two)) && Chosen(p2, Aim(vars, one + two))
  {
    ChosenSame(p1, Aim(vars, one), Aim(vars, one + two));
    ChosenSame(p2, Aim(vars, two), Aim(vars, one + two));
  }

  lemma {:induction false} Choose(q: Algebra, vars: set<string>) returns (given: Solution)
    requires Plain(q)
    ensures Chosen(q, Aim(vars, given)) && given.Keys <= ValueVars(q)
    decreases q
  {
    given := map[];
    match q
    case Bgp(_) =>
    case Join(p1, p2) =>
      var one := Choose(p1, vars);
      var two := Choose(p2, vars);
      ChosenInBoth(p1, p2, vars, one, two);
      given := one + two;
    case LeftJoin(p1, p2, _) =>
      var one := Choose(p1, vars);
      var two := Choose(p2, vars);
      ChosenInBoth(p1, p2, vars, one, two);
      given := one + two;
    case Union(p1, p2) =>
      var one := Choose(p1, vars);
      var two := Choose(p2, vars);
      ChosenInBoth(p1, p2, vars, one, two);
      given := one + two;
    case Minus(p1, _) => given := Choose(p1, vars);
    case Filter(p, _) => given := Choose(p, vars);
    case Extend(p, _, _) => given := Choose(p, vars);
    case Values(rows) => given := ChooseRow(rows, vars);
    case Graph(_, p) => given := Choose(p, vars);
    case Project(p, _) => given := Choose(p, vars);
  }

  lemma ChooseRow(rows: seq<Solution>, vars: set<string>) returns (row: Solution)
    requires rows != []
    ensures Chosen(Values(rows), Aim(vars, row)) && row.Keys <= ValueVars(Values(rows))
  {
    row := rows[0];
    var q := Values(rows);
    if !AlwaysBinds(q, vars) {
      row :| row in rows && row.Keys * vars == {};
      forall v | v in row ensures v !in vars { NotInBoth(v, row.Keys, vars); }
    }
    var aim := Aim(vars, row);
    assert row in rows && Fits(row, aim) && (AlwaysBinds(q, aim.vars) || row.Keys !! aim.vars);
  }

  function Ground(t: Term, aim: Aim): RdfTerm {
    match t
    case Var(name) => Given(aim, name)
    case Iri(iri) => IriTerm(iri)
    case Literal(text) => LiteralTerm(text)
    case _ => THE_TERM
  }

  function GraphNames(q: Algebra): set<string> {
    match q
    case Bgp(_) => {}
    case Join(p1, p2) => GraphNames(p1) + GraphNames(p2)
    case LeftJoin(p1, p2, _) => GraphNames(p1) + GraphNames(p2)
    case Union(p1, p2) => GraphNames(p1) + GraphNames(p2)
    case Minus(p1, _) => GraphNames(p1)
    case Filter(p, _) => GraphNames(p)
    case Extend(p, _, _) => GraphNames(p)
    case Values(_) => {}
    case Graph(name, p) => GraphNames(p) + if name.Iri? then {name.iri} else {}
    case Project(p, _) => GraphNames(p)
  }

  /** Every graph holds every triple of the query; a condition holds of the bare solutions; the rows are chosen. */
  ghost predicate Bears(w: World, q: Algebra, aim: Aim) {
    && (forall t :: t in Triples(q) && !t.p.Path? ==>
          Fact(Ground(t.s, aim), Ground(t.p, aim), Ground(t.o, aim)) in w.graph)
    && (forall iri :: iri in GraphNames(q) + {THE_NAME} ==> iri in w.named && w.named[iri] == w.graph)
    && (forall i, s, o :: w.path(i, w.graph, s, o))
    && (forall i, mu :: w.truth(i, w.graph, mu) <==> Bare(mu, aim))
    && (forall i, mu :: w.value(i, w.graph, mu) == None)
    && Chosen(q, aim) && GraphVars(q) !! aim.given.Keys
  }

  function TheWorld(q: Algebra, aim: Aim): World {
    var facts := set t | t in Triples(q) :: Fact(Ground(t.s, aim), Ground(t.p, aim), Ground(t.o, aim));
    World(facts, map iri | iri in GraphNames(q) + {THE_NAME} :: facts,
          (i, g, s, o) => true, (i, g, mu) => Bare(mu, aim), (i, g, mu) => None)
  }

  lemma TheWorldBears(q: Algebra, aim: Aim)
    requires Chosen(q, aim) && GraphVars(q) !! aim.given.Keys
    ensures Bears(TheWorld(q, aim), q, aim)
  {}

  lemma BareMerges(a: Solution, b: Solution, aim: Aim)
    requires Bare(a, aim) && Bare(b, aim)
    ensures Merges(a, b, a + b) && Bare(a + b, aim)
  {}

  /** The variables and the blank nodes of the triples at their values. */
  function TheSolution(triples: seq<Triple>, aim: Aim): Solution {
    map v | v in SiteVars(Bgp(triples)) :: Given(aim, v)
  }

  function TheNodes(triples: seq<Triple>): Solution {
    map n | n in Nodes(triples) :: THE_TERM
  }

  function Nodes(triples: seq<Triple>): set<string> {
    set t, n | t in triples && n in NodeLabels(t) :: n
  }

  lemma ResolvesToGround(t: Term, mu: Solution, blanks: Solution, aim: Aim)
    requires !t.Path? && TermVars(t) <= mu.Keys && LabelsOf(t) <= blanks.Keys && Fits(mu, aim)
    requires forall n :: n in blanks ==> blanks[n] == THE_TERM
    ensures Resolve(t, mu, blanks) == Some(Ground(t, aim))
  {
    if t.Var? { assert t.name in TermVars(t); }
    if t.BlankNode? { assert t.nodeLabel in LabelsOf(t); }
  }

  lemma TheTripleHolds(w: World, triples: seq<Triple>, t: Triple, aim: Aim)
    requires Bears(w, Bgp(triples), aim) && t in triples && Proper(t)
    ensures TripleHolds(w, t, TheSolution(triples, aim), TheNodes(triples))
  {
    var mu, blanks := TheSolution(triples, aim), TheNodes(triples);
    assert t in Triples(Bgp(triples));
    assert TripleVars(t) <= SiteVars(Bgp(triples)) && NodeLabels(t) <= Nodes(triples);
    ResolvesToGround(t.s, mu, blanks, aim);
    ResolvesToGround(t.o, mu, blanks, aim);
    if !t.p.Path? { ResolvesToGround(t.p, mu, blanks, aim); }
  }

  lemma BgpBare(w: World, triples: seq<Triple>, aim: Aim) returns (mu: Solution)
    requires Bears(w, Bgp(triples), aim) && Plain(Bgp(triples)) && !AlwaysBinds(Bgp(triples), aim.vars)
    ensures Solves(w, Bgp(triples), mu) && Bare(mu, aim)
  {
    mu := TheSolution(triples, aim);
    forall t | t in triples ensures TripleHolds(w, t, mu, TheNodes(triples)) { TheTripleHolds(w, triples, t, aim); }
    BgpSolved(w, triples, mu, TheNodes(triples));
    NoneOfThem(triples, aim.vars);
  }

  lemma BgpSolved(w: World, triples: seq<Triple>, mu: Solution, blanks: Solution)
    requires mu.Keys == BgpVars(triples) && BgpHolds(w, triples, mu, blanks)
    ensures Solves(w, Bgp(triples), mu)
  {}

  lemma NoneOfThem(triples: seq<Triple>, vars: set<string>)
    requires !AlwaysBinds(Bgp(triples), vars)
    ensures BgpVars(triples) !! vars
  {}

  function LabelsOf(t: Term): set<string> {
    if t.BlankNode? then {t.nodeLabel} else {}
  }

  function NodeLabels(t: Triple): set<string> {
    LabelsOf(t.s) + LabelsOf(t.p) + LabelsOf(t.o)
  }

  lemma JoinSolved(w: World, p1: Algebra, p2: Algebra, a: Solution, b: Solution, mu: Solution)
    requires Solves(w, p1, a) && Solves(w, p2, b) && Merges(a, b, mu)
    ensures Solves(w, Join(p1, p2), mu)
  {}

  lemma LeftJoinSolved(w: World, q: Algebra, a: Solution, b: Solution, mu: Solution)
    requires q.LeftJoin? && Solves(w, q.p1, a) && Solves(w, q.p2, b) && Merges(a, b, mu) && w.truth(q.cond, w.graph, mu)
    ensures Solves(w, q, mu)
  {}

  lemma LeftJoinTaken(w: World, q: Algebra, a: Solution, b: Solution, mu: Solution, g: Algebra)
    requires q.LeftJoin? && Solves(w, q.p1, a) && Solves(w, q.p2, b) && Merges(a, b, mu) && w.truth(q.cond, w.graph, mu)
    requires Took(w, q.p1, a, g) || Enters(w, q.p2, b, g)
    ensures Took(w, q, mu, g)
  {}

  /** Where a bare solution is extended, the condition makes the extension bare. */
  lemma BareExtension(w: World, q: Algebra, a: Solution, aim: Aim) returns (b: Solution)
    requires q.LeftJoin? && Bears(w, q, aim) && !Unmatched(w, q.p2, q.cond, a)
    ensures Solves(w, q.p2, b) && Merges(a, b, a + b) && w.truth(q.cond, w.graph, a + b) && Bare(a + b, aim)
  {
    b :| Solves(w, q.p2, b) && Compatible(a, b) && w.truth(q.cond, w.graph, a + b);
  }

  lemma LeftJoinBare(w: World, q: Algebra, a: Solution, aim: Aim) returns (mu: Solution)
    requires q.LeftJoin? && Bears(w, q, aim) && Solves(w, q.p1, a) && Bare(a, aim)
    ensures Solves(w, q, mu) && Bare(mu, aim)
  {
    mu := a;
    if !Unmatched(w, q.p2, q.cond, a) {
      var b := BareExtension(w, q, a, aim);
      LeftJoinSolved(w, q, a, b, a + b);
      mu := a + b;
    }
  }

  lemma MinusKeeps(w: World, p1: Algebra, p2: Algebra, mu: Solution)
    requires Solves(w, p1, mu) && Plain(Minus(p1, p2))
    ensures Kept(w, p2, mu)
  {
    BindsPlaces(w, p1, mu);
    forall b | Solves(w, p2, b) ensures !Compatible(mu, b) || mu.Keys * b.Keys == {} { BindsPlaces(w, p2, b); }
  }

  lemma ExtendKeeps(w: World, q: Algebra, mu: Solution, aim: Aim)
    requires q.Extend? && Plain(q) && Bears(w, q, aim) && Solves(w, q.p, mu)
    ensures Extends(w, q.bound, q.expr, mu, mu)
  {
    BindsPlaces(w, q.p, mu);
  }

  /** GRAPH ?g: the name of a graph is the one value, and every graph is the same. */
  lemma NamedBare(w: World, q: Algebra, a: Solution, aim: Aim) returns (mu: Solution)
    requires q.Graph? && q.name.Var? && q.name.name !in aim.vars && Bears(w, q, aim) && Bare(a, aim)
    ensures At(w, THE_NAME) == w && GraphBinds(w, THE_NAME, q.name.name, a, mu) && Bare(mu, aim)
  {
    var here: Solution := map[q.name.name := THE_TERM];
    BareMerges(a, here, aim);
    mu := a + here;
  }

  lemma NotInBoth(v: string, a: set<string>, b: set<string>)
    requires v in a && a * b == {}
    ensures v !in b
  {
    assert v in b ==> v in a * b;
  }

  lemma GraphBare(w: World, q: Algebra, a: Solution, aim: Aim) returns (mu: Solution)
    requires q.Graph? && Plain(q) && Bears(w, q, aim) && TermVars(q.name) * aim.vars == {} && Solves(w, q.p, a)
    requires Bare(a, aim)
    ensures Solves(w, q, mu) && Bare(mu, aim)
  {
    mu := a;
    if q.name.Iri? {
      assert At(w, q.name.iri) == w;
    } else {
      NotInBoth(q.name.name, TermVars(q.name), aim.vars);
      mu := NamedBare(w, q, a, aim);
    }
  }

  lemma {:induction false} JoinBare(w: World, q: Algebra, aim: Aim) returns (mu: Solution)
    requires q.Join? && Plain(q) && Bears(w, q, aim) && !AlwaysBinds(q, aim.vars)
    ensures Solves(w, q, mu) && Bare(mu, aim)
    decreases q, 0
  {
    var a := BareSolution(w, q.p1, aim);
    var b := BareSolution(w, q.p2, aim);
    BareMerges(a, b, aim);
    JoinSolved(w, q.p1, q.p2, a, b, a + b);
    mu := a + b;
  }

  lemma {:induction false} ProjectBare(w: World, q: Algebra, aim: Aim) returns (mu: Solution)
    requires q.Project? && Plain(q) && Bears(w, q, aim) && !AlwaysBinds(q, aim.vars)
    ensures Solves(w, q, mu) && Bare(mu, aim)
    decreases q, 0
  {
    var Project(p, kept) := q;
    if AlwaysBinds(p, aim.vars) { ShownIsBound(p, aim.vars, kept); }
    mu := BareSolution(w, p, aim);
    ProjectSolved(w, p, kept, mu);
  }

  /** A pattern that need not bind the variables has a solution that binds none of them. */
  lemma {:induction false} BareSolution(w: World, q: Algebra, aim: Aim) returns (mu: Solution)
    requires Plain(q) && Bears(w, q, aim) && !AlwaysBinds(q, aim.vars)
    ensures Solves(w, q, mu) && Bare(mu, aim)
    decreases q, 1
  {
    match q
    case Bgp(triples) => mu := BgpBare(w, triples, aim);
    case Join(_, _) => mu := JoinBare(w, q, aim);
    case LeftJoin(p1, _, _) =>
      var a := BareSolution(w, p1, aim);
      mu := LeftJoinBare(w, q, a, aim);
    case Union(p1, p2) =>
      if !AlwaysBinds(p1, aim.vars) { mu := BareSolution(w, p1, aim); } else { mu := BareSolution(w, p2, aim); }
    case Minus(p1, p2) =>
      mu := BareSolution(w, p1, aim);
      MinusKeeps(w, p1, p2, mu);
    case Filter(p, _) =>
      mu := BareSolution(w, p, aim);
    case Extend(p, _, _) =>
      mu := BareSolution(w, p, aim);
      ExtendSolved(w, q, mu, aim);
    case Graph(_, p) =>
      var a := BareSolution(w, p, aim);
      mu := GraphBare(w, q, a, aim);
    case Values(rows) =>
      mu :| mu in rows && Fits(mu, aim) && mu.Keys !! aim.vars;
    case Project(_, _) => mu := ProjectBare(w, q, aim);
  }

  lemma ProjectSolved(w: World, p: Algebra, kept: set<string>, mu: Solution)
    requires Solves(w, p, mu) && Places(p) <= kept
    ensures Solves(w, Project(p, kept), mu)
  {
    AllShown(w, p, kept, mu);
  }

  lemma ProjectTaken(w: World, p: Algebra, kept: set<string>, mu: Solution, g: Algebra)
    requires Took(w, p, mu, g) && Places(p) <= kept
    ensures Took(w, Project(p, kept), mu, g)
  {
    TookSolves(w, p, mu, g);
    AllShown(w, p, kept, mu);
  }

  lemma ExtendSolved(w: World, q: Algebra, mu: Solution, aim: Aim)
    requires q.Extend? && Plain(q) && Bears(w, q, aim) && Solves(w, q.p, mu)
    ensures Solves(w, q, mu)
  {
    ExtendKeeps(w, q, mu, aim);
  }

  lemma ExtendTaken(w: World, q: Algebra, mu: Solution, aim: Aim, g: Algebra)
    requires q.Extend? && Plain(q) && Bears(w, q, aim) && Took(w, q.p, mu, g)
    ensures Took(w, q, mu, g)
  {
    TookSolves(w, q.p, mu, g);
    ExtendKeeps(w, q, mu, aim);
  }

  /** A projection that keeps every variable keeps every solution. */
  lemma AllShown(w: World, p: Algebra, kept: set<string>, mu: Solution)
    requires Solves(w, p, mu) && Places(p) <= kept
    ensures Narrowed(mu, kept) == mu
  {
    BindsPlaces(w, p, mu);
  }

  lemma {:induction false} ShownIsBound(q: Algebra, vars: set<string>, kept: set<string>)
    requires AlwaysBinds(q, vars) && Places(q) <= kept
    ensures AlwaysBinds(q, vars * kept)
    decreases q
  {
    match q
    case Bgp(triples) =>
      var t :| t in triples && TripleVars(t) * vars != {};
      var v :| v in TripleVars(t) * vars;
      assert v in SiteVars(q) && v in TripleVars(t) * (vars * kept);
    case Join(p1, p2) =>
      if AlwaysBinds(p1, vars) { ShownIsBound(p1, vars, kept); } else { ShownIsBound(p2, vars, kept); }
    case LeftJoin(p1, _, _) => ShownIsBound(p1, vars, kept);
    case Union(p1, p2) => ShownIsBound(p1, vars, kept); ShownIsBound(p2, vars, kept);
    case Minus(p1, _) => ShownIsBound(p1, vars, kept);
    case Filter(p, _) => ShownIsBound(p, vars, kept);
    case Extend(p, _, _) => ShownIsBound(p, vars, kept);
    case Values(rows) =>
      forall r | r in rows ensures r.Keys * (vars * kept) != {} {
        var v :| v in r.Keys * vars;
        assert v in ValueVars(q) && v in r.Keys * (vars * kept);
      }
    case Graph(name, p) =>
      if AlwaysBinds(p, vars) { ShownIsBound(p, vars, kept); }
      else { assert name.name in TermVars(name) * (vars * kept); }
    case Project(p, inner) =>
      ShownIsBound(p, vars * inner, kept);
      assert vars * inner * kept == vars * kept * inner;
  }

  /** A part that has no place for the variables can do without them. */
  lemma {:induction false} NoPlaceNoNeed(q: Algebra, vars: set<string>)
    requires Plain(q) && AlwaysBinds(q, vars)
    ensures exists v :: v in vars && Sites(q, v) + ValueSites(q, v) > 0
    decreases q
  {
    match q
    case Bgp(triples) =>
      var t :| t in triples && TripleVars(t) * vars != {};
      var v :| v in TripleVars(t) * vars;
      assert v in SiteVars(q);
      SiteVarsAreSites(q, v);
    case Join(p1, p2) => if AlwaysBinds(p1, vars) { NoPlaceNoNeed(p1, vars); } else { NoPlaceNoNeed(p2, vars); }
    case LeftJoin(p1, _, _) => NoPlaceNoNeed(p1, vars);
    case Union(p1, _) => NoPlaceNoNeed(p1, vars);
    case Minus(p1, _) => NoPlaceNoNeed(p1, vars);
    case Filter(p, _) => NoPlaceNoNeed(p, vars);
    case Extend(p, _, _) => NoPlaceNoNeed(p, vars);
    case Graph(name, p) =>
      if AlwaysBinds(p, vars) {
        NoPlaceNoNeed(p, vars);
      } else {
        assert name.name in vars && Sites(q, name.name) > 0;
      }
    case Values(rows) =>
      var v :| v in rows[0].Keys * vars;
      assert rows[0] in rows && ValueSites(q, v) > 0;
    case Project(p, kept) =>
      NoPlaceNoNeed(p, vars * kept);
  }

  /** Nothing of `node` but the group has a place for the variables. */
  ghost predicate OnlyInGroup(node: Algebra, g: Algebra, vars: set<string>) {
    forall v :: v in vars ==> Sites(g, v) == Sites(node, v) && ValueSites(g, v) == ValueSites(node, v)
  }

  lemma SiblingHasNoPlace(node: Algebra, part: Algebra, other: Algebra, g: Algebra, vars: set<string>)
    requires OnlyInGroup(node, g, vars) && (part == g || HasGroup(part, g))
    requires forall v :: Divides(node, part, other, v)
    ensures OnlyInGroup(part, g, vars) && forall v :: v in vars ==> Sites(other, v) == ValueSites(other, v) == 0
  {
    forall v | v in vars
      ensures Sites(g, v) == Sites(part, v) && Sites(other, v) == 0
      ensures ValueSites(g, v) == ValueSites(part, v) && ValueSites(other, v) == 0
    {
      assert Divides(node, part, other, v);
      if part != g { GroupHasFewer(part, g, v); }
    }
  }

  lemma SiblingBare(w: World, other: Algebra, aim: Aim) returns (mu: Solution)
    requires Plain(other) && Bears(w, other, aim)
    requires forall v :: v in aim.vars ==> Sites(other, v) == ValueSites(other, v) == 0
    ensures Solves(w, other, mu) && Bare(mu, aim)
  {
    if AlwaysBinds(other, aim.vars) { NoPlaceNoNeed(other, aim.vars); }
    mu := BareSolution(w, other, aim);
  }

  lemma {:induction false} BranchTakesBare(w: World, branch: Algebra, g: Algebra, aim: Aim) returns (mu: Solution)
    requires (branch == g || HasGroup(branch, g)) && Plain(branch) && Bears(w, branch, aim)
    requires !AlwaysBinds(g, aim.vars) && OnlyInGroup(branch, g, aim.vars)
    ensures Enters(w, branch, mu, g) && Bare(mu, aim)
    decreases branch, 2
  {
    if branch == g {
      mu := BareSolution(w, g, aim);
    } else {
      mu := TakesBare(w, branch, g, aim);
    }
  }

  lemma {:induction false} JoinTakesBare(w: World, node: Algebra, g: Algebra, aim: Aim) returns (mu: Solution)
    requires node.Join? && HasGroup(node, g) && Plain(node) && Bears(w, node, aim)
    requires !AlwaysBinds(g, aim.vars) && OnlyInGroup(node, g, aim.vars)
    ensures Took(w, node, mu, g) && Bare(mu, aim)
    decreases node, 0
  {
    var Join(p1, p2) := node;
    var a, b;
    if HasGroup(p1, g) {
      SiblingHasNoPlace(node, p1, p2, g, aim.vars);
      a := TakesBare(w, p1, g, aim);
      TookSolves(w, p1, a, g);
      b := SiblingBare(w, p2, aim);
    } else {
      SiblingHasNoPlace(node, p2, p1, g, aim.vars);
      b := TakesBare(w, p2, g, aim);
      TookSolves(w, p2, b, g);
      a := SiblingBare(w, p1, aim);
    }
    BareMerges(a, b, aim);
    JoinTaken(w, p1, p2, a, b, a + b, g);
    mu := a + b;
  }

  lemma {:induction false} RequiredTakesBare(w: World, node: Algebra, g: Algebra, aim: Aim) returns (mu: Solution)
    requires node.LeftJoin? && HasGroup(node.p1, g) && Plain(node) && Bears(w, node, aim)
    requires !AlwaysBinds(g, aim.vars) && OnlyInGroup(node, g, aim.vars)
    ensures Took(w, node, mu, g) && Bare(mu, aim)
    decreases node, 0
  {
    SiblingHasNoPlace(node, node.p1, node.p2, g, aim.vars);
    var a := TakesBare(w, node.p1, g, aim);
    mu := a;
    if Unmatched(w, node.p2, node.cond, a) {
      UnmatchedTaken(w, node, a, g);
    } else {
      var b := BareExtension(w, node, a, aim);
      TookSolves(w, node.p1, a, g);
      LeftJoinTaken(w, node, a, b, a + b, g);
      mu := a + b;
    }
  }

  lemma UnmatchedTaken(w: World, q: Algebra, a: Solution, g: Algebra)
    requires q.LeftJoin? && Took(w, q.p1, a, g) && Unmatched(w, q.p2, q.cond, a)
    ensures Took(w, q, a, g)
  {}

  lemma {:induction false} OptionalTakesBare(w: World, node: Algebra, g: Algebra, aim: Aim) returns (mu: Solution)
    requires node.LeftJoin? && (node.p2 == g || HasGroup(node.p2, g)) && Plain(node) && Bears(w, node, aim)
    requires !AlwaysBinds(g, aim.vars) && OnlyInGroup(node, g, aim.vars)
    ensures Took(w, node, mu, g) && Bare(mu, aim)
    decreases node, 0
  {
    SiblingHasNoPlace(node, node.p2, node.p1, g, aim.vars);
    var a := SiblingBare(w, node.p1, aim);
    var b := BranchTakesBare(w, node.p2, g, aim);
    BothBare(w, node, a, b, g, aim);
    mu := a + b;
  }

  lemma BothBare(w: World, q: Algebra, a: Solution, b: Solution, g: Algebra, aim: Aim)
    requires q.LeftJoin? && Bears(w, q, aim) && Solves(w, q.p1, a) && Enters(w, q.p2, b, g) && Bare(a, aim)
    requires Bare(b, aim)
    ensures Took(w, q, a + b, g) && Bare(a + b, aim)
  {
    EntersSolves(w, q.p2, b, g);
    BareMerges(a, b, aim);
    LeftJoinTaken(w, q, a, b, a + b, g);
  }

  lemma {:induction false} UnionTakesBare(w: World, node: Algebra, g: Algebra, aim: Aim) returns (mu: Solution)
    requires node.Union? && HasGroup(node, g) && Plain(node) && Bears(w, node, aim)
    requires !AlwaysBinds(g, aim.vars) && OnlyInGroup(node, g, aim.vars)
    ensures Took(w, node, mu, g) && Bare(mu, aim)
    decreases node, 0
  {
    var Union(p1, p2) := node;
    if p1 == g || HasGroup(p1, g) {
      SiblingHasNoPlace(node, p1, p2, g, aim.vars);
      mu := BranchTakesBare(w, p1, g, aim);
    } else {
      SiblingHasNoPlace(node, p2, p1, g, aim.vars);
      mu := BranchTakesBare(w, p2, g, aim);
    }
  }

  /** Under BIND and GRAPH the group still holds every place of the variables. */
  lemma OnlyInGroupBelow(node: Algebra, part: Algebra, g: Algebra, vars: set<string>)
    requires OnlyInGroup(node, g, vars) && HasGroup(part, g)
    requires forall v :: Sites(part, v) <= Sites(node, v) && ValueSites(part, v) == ValueSites(node, v)
    ensures OnlyInGroup(part, g, vars) && forall v :: v in vars ==> Sites(node, v) == Sites(part, v)
  {
    forall v | v in vars ensures Sites(g, v) == Sites(part, v) && ValueSites(g, v) == ValueSites(part, v) {
      GroupHasFewer(part, g, v);
    }
  }

  lemma {:induction false} GraphTakesBare(w: World, node: Algebra, g: Algebra, aim: Aim) returns (mu: Solution)
    requires node.Graph? && HasGroup(node, g) && Plain(node) && Bears(w, node, aim)
    requires !AlwaysBinds(g, aim.vars) && OnlyInGroup(node, g, aim.vars)
    ensures Took(w, node, mu, g) && Bare(mu, aim)
    decreases node, 0
  {
    OnlyInGroupBelow(node, node.p, g, aim.vars);
    var a := TakesBare(w, node.p, g, aim);
    mu := a;
    if node.name.Iri? {
      assert At(w, node.name.iri) == w;
    } else {
      assert Sites(node, node.name.name) == Sites(node.p, node.name.name) + 1;
      mu := NamedBare(w, node, a, aim);
    }
  }

  lemma {:induction false} ExtendTakesBare(w: World, node: Algebra, g: Algebra, aim: Aim) returns (mu: Solution)
    requires node.Extend? && HasGroup(node, g) && Plain(node) && Bears(w, node, aim)
    requires !AlwaysBinds(g, aim.vars) && OnlyInGroup(node, g, aim.vars)
    ensures Took(w, node, mu, g) && Bare(mu, aim)
    decreases node, 0
  {
    OnlyInGroupBelow(node, node.p, g, aim.vars);
    mu := TakesBare(w, node.p, g, aim);
    ExtendTaken(w, node, mu, aim, g);
  }

  lemma {:induction false} MinusTakesBare(w: World, node: Algebra, g: Algebra, aim: Aim) returns (mu: Solution)
    requires node.Minus? && HasGroup(node, g) && Plain(node) && Bears(w, node, aim)
    requires !AlwaysBinds(g, aim.vars) && OnlyInGroup(node, g, aim.vars)
    ensures Took(w, node, mu, g) && Bare(mu, aim)
    decreases node, 0
  {
    mu := TakesBare(w, node.p1, g, aim);
    TookSolves(w, node.p1, mu, g);
    MinusKeeps(w, node.p1, node.p2, mu);
  }

  /** The way to the group: every step has a solution beside it that binds none of the variables. */
  lemma {:induction false} TakesBare(w: World, node: Algebra, g: Algebra, aim: Aim) returns (mu: Solution)
    requires HasGroup(node, g) && Plain(node) && Bears(w, node, aim)
    requires !AlwaysBinds(g, aim.vars) && OnlyInGroup(node, g, aim.vars)
    ensures Took(w, node, mu, g) && Bare(mu, aim)
    decreases node, 1
  {
    match node
    case Join(_, _) => mu := JoinTakesBare(w, node, g, aim);
    case LeftJoin(p1, _, _) =>
      if HasGroup(p1, g) {
        mu := RequiredTakesBare(w, node, g, aim);
      } else {
        mu := OptionalTakesBare(w, node, g, aim);
      }
    case Union(_, _) => mu := UnionTakesBare(w, node, g, aim);
    case Minus(_, _) => mu := MinusTakesBare(w, node, g, aim);
    case Filter(p, _) =>
      mu := TakesBare(w, p, g, aim);
    case Extend(_, _, _) => mu := ExtendTakesBare(w, node, g, aim);
    case Graph(_, _) => mu := GraphTakesBare(w, node, g, aim);
    case Project(p, kept) =>
      mu := TakesBare(w, p, g, aim);
      ProjectTaken(w, p, kept, mu, g);
  }

  /**
   In every dataset, for every choice of conditions and expressions, a bound witness tells that a row
   took the group.
   */
  ghost predicate AlwaysExact(root: Algebra, g: Algebra) {
    forall w, mu :: Solves(w, root, mu) ==> WitnessIsExact(w, root, g, mu)
  }

  lemma AlwaysBoundIsExact(root: Algebra, g: Algebra)
    requires Plain(root) && HasGroup(root, g) && ValuesApart(root, g) && AlwaysBinds(g, Witness(root, g))
    ensures AlwaysExact(root, g)
  {
    PlainShows(root, Witness(root, g));
    forall w, mu | Solves(w, root, mu) ensures WitnessIsExact(w, root, g, mu) {
      MatchedExactlyWhenWitnessed(w, root, g, mu);
    }
  }

  lemma NotAlwaysBoundIsNot(root: Algebra, g: Algebra) returns (w: World, mu: Solution)
    requires Plain(root) && GraphVars(root) !! ValueVars(root)
    requires HasGroup(root, g) && ValuesApart(root, g) && !AlwaysBinds(g, Witness(root, g))
    ensures Took(w, root, mu, g) && !BindsOne(mu, Witness(root, g))
  {
    var given := Choose(root, Witness(root, g));
    var aim := Aim(Witness(root, g), given);
    w := TheWorld(root, aim);
    TheWorldBears(root, aim);
    mu := TakesBare(w, root, g, aim);
  }

  lemma Inexact(w: World, root: Algebra, g: Algebra, mu: Solution)
    requires Took(w, root, mu, g) && !BindsOne(mu, Witness(root, g))
    ensures !AlwaysExact(root, g)
  {
    TookSolves(w, root, mu, g);
    assert !WitnessIsExact(w, root, g, mu);
  }

  /**
   What is said of the witnesses, that a row binds one exactly when the group matched, holds of a
   group if and only if the group always binds one.
   */
  lemma ExactWhenAlwaysBound(root: Algebra, g: Algebra)
    requires Plain(root) && GraphVars(root) !! ValueVars(root) && HasGroup(root, g) && ValuesApart(root, g)
    ensures AlwaysExact(root, g) <==> AlwaysBinds(g, Witness(root, g))
  {
    if AlwaysBinds(g, Witness(root, g)) {
      AlwaysBoundIsExact(root, g);
    } else {
      var w, mu := NotAlwaysBoundIsNot(root, g);
      Inexact(w, root, g, mu);
    }
  }
}
