/**
 The graph a SELECT draws: the triple patterns of its algebra, each with the groups
 (OPTIONAL bodies, UNION branches) around it and the variables that witness that a
 group matched. The algebra is evaluated as section 18.5 of SPARQL 1.1 Query Language
 defines it.
 */
module GraphShape {
  import opened Collections

  // ---- syntax ----

  /** A term in a triple position; a property path stands in predicate position. */
  datatype Term =
    | Var(name: string)
    | Iri(iri: string)
    | Literal(text: string)
    | BlankNode(nodeLabel: string)
    | Path(id: nat)

  datatype Triple = Triple(s: Term, p: Term, o: Term)

  /** Expressions are named by a number that a World interprets. */
  datatype Algebra =
    | Bgp(triples: seq<Triple>)
    | Join(p1: Algebra, p2: Algebra)
    | LeftJoin(p1: Algebra, p2: Algebra, cond: nat)
    | Union(p1: Algebra, p2: Algebra)
    | Minus(p1: Algebra, p2: Algebra)
    | Filter(p: Algebra, cond: nat)
    | Extend(p: Algebra, bound: string, expr: nat)
    | Values(rows: seq<Solution>)
    | Graph(name: Term, p: Algebra)
    | Project(p: Algebra, vars: set<string>)

  /** A triple of the query with, for each group around it, that group's witnesses. */
  datatype Pattern = Pattern(triple: Triple, when: seq<set<string>>)

  // ---- meaning (section 18.5 of SPARQL 1.1) ----

  datatype RdfTerm = IriTerm(iri: string) | LiteralTerm(text: string) | BlankTerm(id: nat)
  datatype Fact = Fact(s: RdfTerm, p: RdfTerm, o: RdfTerm)
  type Solution = map<string, RdfTerm>

  /**
   A dataset with its active graph, and the pairs each property path relates, the truth of each
   condition and the value of each expression, over the active graph.
   */
  datatype World = World(
    graph: set<Fact>,
    named: map<string, set<Fact>>,
    path: (nat, set<Fact>, RdfTerm, RdfTerm) -> bool,
    truth: (nat, set<Fact>, Solution) -> bool,
    value: (nat, set<Fact>, Solution) -> Option<RdfTerm>)

  /** The world with a named graph active. */
  function At(w: World, iri: string): World {
    if iri in w.named then w.(graph := w.named[iri]) else w
  }

  function TermVars(t: Term): set<string> {
    if t.Var? then {t.name} else {}
  }

  function TripleVars(t: Triple): set<string> {
    TermVars(t.s) + TermVars(t.p) + TermVars(t.o)
  }

  ghost function BgpVars(triples: seq<Triple>): set<string> {
    set t, v | t in triples && v in TripleVars(t) :: v
  }

  function Resolve(t: Term, mu: Solution, blanks: Solution): Option<RdfTerm> {
    match t
    case Var(name) => if name in mu then Some(mu[name]) else None
    case Iri(iri) => Some(IriTerm(iri))
    case Literal(text) => Some(LiteralTerm(text))
    case BlankNode(l) => if l in blanks then Some(blanks[l]) else None
    case Path(_) => None
  }

  ghost predicate TripleHolds(w: World, t: Triple, mu: Solution, blanks: Solution) {
    var s, o := Resolve(t.s, mu, blanks), Resolve(t.o, mu, blanks);
    && s.Some? && o.Some?
    && if t.p.Path? then w.path(t.p.id, w.graph, s.value, o.value)
       else
         var p := Resolve(t.p, mu, blanks);
         p.Some? && Fact(s.value, p.value, o.value) in w.graph
  }

  ghost predicate BgpHolds(w: World, triples: seq<Triple>, mu: Solution, blanks: Solution) {
    forall t :: t in triples ==> TripleHolds(w, t, mu, blanks)
  }

  ghost predicate Compatible(a: Solution, b: Solution) {
    forall v :: v in a && v in b ==> a[v] == b[v]
  }

  ghost predicate Restricts(nu: Solution, mu: Solution) {
    forall v :: v in nu ==> v in mu && mu[v] == nu[v]
  }

  ghost predicate Merges(a: Solution, b: Solution, mu: Solution) {
    Compatible(a, b) && mu == a + b
  }

  /** The expression's value is bound; where it has none the variable stays unbound. */
  ghost predicate Extends(w: World, bound: string, expr: nat, a: Solution, mu: Solution) {
    bound !in a && mu == (match w.value(expr, w.graph, a) case None => a case Some(x) => a[bound := x])
  }

  ghost predicate GraphBinds(w: World, iri: string, v: string, a: Solution, mu: Solution) {
    iri in w.named && Merges(a, map[v := IriTerm(iri)], mu)
  }

  function Narrowed(a: Solution, vars: set<string>): Solution {
    map v | v in a && v in vars :: a[v]
  }

  ghost predicate Solves(w: World, q: Algebra, mu: Solution)
    decreases q, 0
  {
    match q
    case Bgp(triples) =>
      mu.Keys == BgpVars(triples)
      && exists blanks: Solution :: BgpHolds(w, triples, mu, blanks)
    case Join(p1, p2) =>
      exists a, b :: Solves(w, p1, a) && Solves(w, p2, b) && Merges(a, b, mu)
    case LeftJoin(p1, p2, cond) =>
      || (exists a, b :: Solves(w, p1, a) && Solves(w, p2, b) && Merges(a, b, mu) && w.truth(cond, w.graph, mu))
      || (Solves(w, p1, mu) && Unmatched(w, p2, cond, mu))
    case Union(p1, p2) =>
      Solves(w, p1, mu) || Solves(w, p2, mu)
    case Minus(p1, p2) =>
      Solves(w, p1, mu) && Kept(w, p2, mu)
    case Filter(p, cond) =>
      Solves(w, p, mu) && w.truth(cond, w.graph, mu)
    case Extend(p, bound, expr) =>
      exists a :: Solves(w, p, a) && Extends(w, bound, expr, a, mu)
    case Values(rows) =>
      mu in rows
    case Graph(name, p) =>
      if name.Iri? then name.iri in w.named && Solves(At(w, name.iri), p, mu)
      else name.Var? && exists iri, a :: GraphBinds(w, iri, name.name, a, mu) && Solves(At(w, iri), p, a)
    case Project(p, vars) =>
      exists a :: Solves(w, p, a) && mu == Narrowed(a, vars)
  }

  /** No solution of the OPTIONAL body extends `mu`. */
  ghost predicate Unmatched(w: World, p2: Algebra, cond: nat, mu: Solution)
    decreases p2, 1
  {
    forall b :: Solves(w, p2, b) ==> !(Compatible(mu, b) && w.truth(cond, w.graph, mu + b))
  }

  /** No solution of the MINUS body takes `mu` away. */
  ghost predicate Kept(w: World, p2: Algebra, mu: Solution)
    decreases p2, 1
  {
    forall b :: Solves(w, p2, b) ==> !Compatible(mu, b) || mu.Keys * b.Keys == {}
  }

  ghost predicate InDataset(w: World, f: Fact) {
    f in w.graph || exists iri :: iri in w.named && f in w.named[iri]
  }

  /** The triple, read with the solution's values, is a fact of the dataset. */
  ghost predicate Drawn(w: World, t: Triple, mu: Solution) {
    && TripleVars(t) <= mu.Keys
    && var s, p, o := Resolve(t.s, mu, map[]), Resolve(t.p, mu, map[]), Resolve(t.o, mu, map[]);
       s.Some? && p.Some? && o.Some? && InDataset(w, Fact(s.value, p.value, o.value))
  }

  /** The row binds one witness of each group. */
  ghost predicate Active(when: seq<set<string>>, mu: Solution) {
    forall i :: 0 <= i < |when| ==> exists v :: v in when[i] && v in mu
  }

  // ---- binding sites ----

  function TripleSites(triples: seq<Triple>, v: string): nat {
    if triples == [] then 0
    else (if v in TripleVars(triples[0]) then 1 else 0) + TripleSites(triples[1..], v)
  }

  /** How many places in `q` can bind `v`: a triple it is in, a BIND, or a GRAPH. */
  function Sites(q: Algebra, v: string): nat {
    match q
    case Bgp(triples) => TripleSites(triples, v)
    case Join(p1, p2) => Sites(p1, v) + Sites(p2, v)
    case LeftJoin(p1, p2, _) => Sites(p1, v) + Sites(p2, v)
    case Union(p1, p2) => Sites(p1, v) + Sites(p2, v)
    case Minus(p1, _) => Sites(p1, v)
    case Filter(p, _) => Sites(p, v)
    case Extend(p, bound, _) => Sites(p, v) + if v == bound then 1 else 0
    case Values(_) => 0
    case Graph(name, p) => Sites(p, v) + if v in TermVars(name) then 1 else 0
    case Project(p, _) => Sites(p, v)
  }

  function SiteVars(q: Algebra): set<string> {
    match q
    case Bgp(triples) => set t, v | t in triples && v in TripleVars(t) :: v
    case Join(p1, p2) => SiteVars(p1) + SiteVars(p2)
    case LeftJoin(p1, p2, _) => SiteVars(p1) + SiteVars(p2)
    case Union(p1, p2) => SiteVars(p1) + SiteVars(p2)
    case Minus(p1, _) => SiteVars(p1)
    case Filter(p, _) => SiteVars(p)
    case Extend(p, bound, _) => SiteVars(p) + {bound}
    case Values(_) => {}
    case Graph(name, p) => SiteVars(p) + TermVars(name)
    case Project(p, _) => SiteVars(p)
  }

  /** How many VALUES blocks can bind `v`; they are no binding sites. */
  function ValueSites(q: Algebra, v: string): nat {
    match q
    case Bgp(_) => 0
    case Join(p1, p2) => ValueSites(p1, v) + ValueSites(p2, v)
    case LeftJoin(p1, p2, _) => ValueSites(p1, v) + ValueSites(p2, v)
    case Union(p1, p2) => ValueSites(p1, v) + ValueSites(p2, v)
    case Minus(p1, _) => ValueSites(p1, v)
    case Filter(p, _) => ValueSites(p, v)
    case Extend(p, _, _) => ValueSites(p, v)
    case Values(rows) => if exists r :: r in rows && v in r then 1 else 0
    case Graph(_, p) => ValueSites(p, v)
    case Project(p, _) => ValueSites(p, v)
  }

  predicate Emittable(t: Triple) {
    && (t.s.Var? || t.s.Iri? || t.s.Literal?)
    && (t.p.Var? || t.p.Iri?)
    && (t.o.Var? || t.o.Iri? || t.o.Literal?)
  }

  /** The triples the walk comes to. */
  function Triples(q: Algebra): set<Triple> {
    match q
    case Bgp(triples) => set t | t in triples
    case Join(p1, p2) => Triples(p1) + Triples(p2)
    case LeftJoin(p1, p2, _) => Triples(p1) + Triples(p2)
    case Union(p1, p2) => Triples(p1) + Triples(p2)
    case Minus(p1, _) => Triples(p1)
    case Filter(p, _) => Triples(p)
    case Extend(p, _, _) => Triples(p)
    case Values(_) => {}
    case Graph(_, p) => Triples(p)
    case Project(p, _) => Triples(p)
  }

  /** Every sub-SELECT projects the variables of the triples listed from its body. */
  predicate ShowsTriples(q: Algebra) {
    match q
    case Bgp(_) => true
    case Join(p1, p2) => ShowsTriples(p1) && ShowsTriples(p2)
    case LeftJoin(p1, p2, _) => ShowsTriples(p1) && ShowsTriples(p2)
    case Union(p1, p2) => ShowsTriples(p1) && ShowsTriples(p2)
    case Minus(p1, _) => ShowsTriples(p1)
    case Filter(p, _) => ShowsTriples(p)
    case Extend(p, _, _) => ShowsTriples(p)
    case Values(_) => true
    case Graph(_, p) => ShowsTriples(p)
    case Project(p, vars) => ShowsTriples(p) && forall t :: t in Triples(p) && Emittable(t) ==> TripleVars(t) <= vars
  }

  lemma {:induction false} TripleSitesPositive(triples: seq<Triple>, v: string)
    ensures TripleSites(triples, v) > 0 <==> v in BgpVars(triples)
    decreases |triples|
  {
    if triples != [] {
      TripleSitesPositive(triples[1..], v);
      assert forall t :: t in triples <==> t == triples[0] || t in triples[1..];
    }
  }

  lemma {:induction false} SiteVarsAreSites(q: Algebra, v: string)
    ensures v in SiteVars(q) <==> Sites(q, v) > 0
  {
    match q
    case Bgp(triples) => TripleSitesPositive(triples, v);
    case Join(p1, p2) => SiteVarsAreSites(p1, v); SiteVarsAreSites(p2, v);
    case LeftJoin(p1, p2, _) => SiteVarsAreSites(p1, v); SiteVarsAreSites(p2, v);
    case Union(p1, p2) => SiteVarsAreSites(p1, v); SiteVarsAreSites(p2, v);
    case Minus(p1, _) => SiteVarsAreSites(p1, v);
    case Filter(p, _) => SiteVarsAreSites(p, v);
    case Extend(p, _, _) => SiteVarsAreSites(p, v);
    case Values(_) =>
    case Graph(_, p) => SiteVarsAreSites(p, v);
    case Project(p, _) => SiteVarsAreSites(p, v);
  }

  /** A solution binds only what some site or some VALUES block can bind. */
  lemma {:induction false} BoundNeedsASite(w: World, q: Algebra, mu: Solution, v: string)
    requires Solves(w, q, mu) && v in mu
    ensures Sites(q, v) + ValueSites(q, v) > 0
    decreases q
  {
    match q
    case Bgp(triples) =>
      TripleSitesPositive(triples, v);
    case Join(p1, p2) =>
      var a, b :| Solves(w, p1, a) && Solves(w, p2, b) && Merges(a, b, mu);
      if v in a { BoundNeedsASite(w, p1, a, v); } else { BoundNeedsASite(w, p2, b, v); }
    case LeftJoin(p1, p2, cond) =>
      if Solves(w, p1, mu) {
        BoundNeedsASite(w, p1, mu, v);
      } else {
        var a, b :| Solves(w, p1, a) && Solves(w, p2, b) && Merges(a, b, mu);
        if v in a { BoundNeedsASite(w, p1, a, v); } else { BoundNeedsASite(w, p2, b, v); }
      }
    case Union(p1, p2) =>
      if Solves(w, p1, mu) { BoundNeedsASite(w, p1, mu, v); } else { BoundNeedsASite(w, p2, mu, v); }
    case Minus(p1, _) =>
      BoundNeedsASite(w, p1, mu, v);
    case Filter(p, _) =>
      BoundNeedsASite(w, p, mu, v);
    case Extend(p, bound, expr) =>
      var a :| Solves(w, p, a) && Extends(w, bound, expr, a, mu);
      if v != bound { BoundNeedsASite(w, p, a, v); }
    case Values(rows) =>
      assert mu in rows;
    case Graph(name, p) =>
      if name.Iri? {
        BoundNeedsASite(At(w, name.iri), p, mu, v);
      } else {
        var iri, a :| GraphBinds(w, iri, name.name, a, mu) && Solves(At(w, iri), p, a);
        if v in a { BoundNeedsASite(At(w, iri), p, a, v); }
      }
    case Project(p, vars) =>
      var a :| Solves(w, p, a) && mu == Narrowed(a, vars);
      BoundNeedsASite(w, p, a, v);
  }

  // ---- the walk ----

  function BgpPatterns(triples: seq<Triple>, when: seq<set<string>>): (r: seq<Pattern>)
    ensures forall x :: x in r <==> x.when == when && x.triple in triples && Emittable(x.triple)
  {
    if triples == [] then []
    else (if Emittable(triples[0]) then [Pattern(triples[0], when)] else []) + BgpPatterns(triples[1..], when)
  }

  /** The variables of `node` that nothing else in `root` can bind. */
  function Witness(root: Algebra, node: Algebra): set<string> {
    set v | v in SiteVars(node) && Sites(node, v) == Sites(root, v)
  }

  function Walk(root: Algebra, node: Algebra, when: seq<set<string>>): seq<Pattern>
    decreases node, 0
  {
    match node
    case Bgp(triples) => BgpPatterns(triples, when)
    case Join(p1, p2) => Walk(root, p1, when) + Walk(root, p2, when)
    case LeftJoin(p1, p2, _) => Walk(root, p1, when) + Group(root, p2, when)
    case Union(p1, p2) => Group(root, p1, when) + Group(root, p2, when)
    case Minus(p1, _) => Walk(root, p1, when)
    case Filter(p, _) => Walk(root, p, when)
    case Extend(p, _, _) => Walk(root, p, when)
    case Values(_) => []
    case Graph(_, p) => Walk(root, p, when)
    case Project(p, _) => Walk(root, p, when)
  }

  function Group(root: Algebra, node: Algebra, when: seq<set<string>>): seq<Pattern>
    decreases node, 1
  {
    if Witness(root, node) == {} then [] else Walk(root, node, when + [Witness(root, node)])
  }

  /** What query_patterns lists for the algebra `q`. */
  function Patterns(q: Algebra): seq<Pattern> {
    AddNew([], Walk(q, q, []))
  }
}
