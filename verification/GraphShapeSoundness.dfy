/**
 When a row took a group, a listed pattern whose innermost group the row took is a fact of the
 dataset, and a bound witness shows that it took the group.
 */
module GraphShapeSoundness {
  import opened Collections
  import opened GraphShape

  // ---- which groups a solution took ----

  /** The group `g` stands in `node`: as an OPTIONAL body or UNION branch, or deeper. */
  predicate HasGroup(node: Algebra, g: Algebra) {
    match node
    case Bgp(_) => false
    case Join(p1, p2) => HasGroup(p1, g) || HasGroup(p2, g)
    case LeftJoin(p1, p2, _) => HasGroup(p1, g) || p2 == g || HasGroup(p2, g)
    case Union(p1, p2) => p1 == g || HasGroup(p1, g) || p2 == g || HasGroup(p2, g)
    case Minus(p1, _) => HasGroup(p1, g)
    case Filter(p, _) => HasGroup(p, g)
    case Extend(p, _, _) => HasGroup(p, g)
    case Values(_) => false
    case Graph(_, p) => HasGroup(p, g)
    case Project(p, _) => HasGroup(p, g)
  }

  /** The solution `mu` of `node` came about with the group `g` matched. */
  ghost predicate Took(w: World, node: Algebra, mu: Solution, g: Algebra)
    decreases node, 0
  {
    match node
    case Bgp(_) => false
    case Join(p1, p2) =>
      exists a, b :: Solves(w, p1, a) && Solves(w, p2, b) && Merges(a, b, mu)
        && (Took(w, p1, a, g) || Took(w, p2, b, g))
    case LeftJoin(p1, p2, cond) =>
      || (exists a, b :: Solves(w, p1, a) && Solves(w, p2, b) && Merges(a, b, mu) && w.truth(cond, w.graph, mu)
                         && (Took(w, p1, a, g) || Enters(w, p2, b, g)))
      || (Took(w, p1, mu, g) && Unmatched(w, p2, cond, mu))
    case Union(p1, p2) =>
      Enters(w, p1, mu, g) || Enters(w, p2, mu, g)
    case Minus(p1, p2) =>
      Took(w, p1, mu, g) && Kept(w, p2, mu)
    case Filter(p, cond) =>
      Took(w, p, mu, g) && w.truth(cond, w.graph, mu)
    case Extend(p, bound, expr) =>
      exists a :: Took(w, p, a, g) && Extends(w, bound, expr, a, mu)
    case Values(_) => false
    case Graph(name, p) =>
      if name.Iri? then name.iri in w.named && Took(At(w, name.iri), p, mu, g)
      else name.Var? && exists iri, a :: GraphBinds(w, iri, name.name, a, mu) && Took(At(w, iri), p, a, g)
    case Project(p, vars) =>
      exists a :: Took(w, p, a, g) && mu == Narrowed(a, vars)
  }

  /** The branch is the group, or it took it. */
  ghost predicate Enters(w: World, branch: Algebra, mu: Solution, g: Algebra)
    decreases branch, 1
  {
    (branch == g && Solves(w, branch, mu)) || Took(w, branch, mu, g)
  }

  lemma {:induction false} EntersSolves(w: World, branch: Algebra, mu: Solution, g: Algebra)
    requires Enters(w, branch, mu, g)
    ensures Solves(w, branch, mu)
    decreases branch, 1
  {
    if Took(w, branch, mu, g) { TookSolves(w, branch, mu, g); }
  }

  lemma {:induction false} TookSolves(w: World, node: Algebra, mu: Solution, g: Algebra)
    requires Took(w, node, mu, g)
    ensures Solves(w, node, mu)
    decreases node, 0
  {
    match node
    case Bgp(_) =>
    case Join(_, _) =>
    case LeftJoin(p1, p2, cond) =>
      if Took(w, p1, mu, g) && Unmatched(w, p2, cond, mu) { TookSolves(w, p1, mu, g); }
    case Union(p1, p2) =>
      if Enters(w, p1, mu, g) { EntersSolves(w, p1, mu, g); } else { EntersSolves(w, p2, mu, g); }
    case Minus(p1, _) => TookSolves(w, p1, mu, g);
    case Filter(p, _) => TookSolves(w, p, mu, g);
    case Extend(p, bound, expr) =>
      var a :| Took(w, p, a, g) && Extends(w, bound, expr, a, mu);
      TookSolves(w, p, a, g);
    case Values(_) =>
    case Graph(name, p) =>
      if name.Iri? {
        TookSolves(At(w, name.iri), p, mu, g);
      } else {
        var iri, a :| GraphBinds(w, iri, name.name, a, mu) && Took(At(w, iri), p, a, g);
        TookSolves(At(w, iri), p, a, g);
      }
    case Project(p, vars) =>
      var a :| Took(w, p, a, g) && mu == Narrowed(a, vars);
      TookSolves(w, p, a, g);
  }

  // ---- a bound witness shows the group was taken ----

  /** All the places that can bind `v` are in the group, VALUES blocks included. */
  predicate OwnedBy(root: Algebra, g: Algebra, v: string) {
    0 < Sites(g, v) == Sites(root, v) && ValueSites(g, v) == ValueSites(root, v)
  }

  lemma {:induction false} GroupHasFewer(node: Algebra, g: Algebra, v: string)
    requires HasGroup(node, g)
    ensures Sites(g, v) <= Sites(node, v) && ValueSites(g, v) <= ValueSites(node, v)
    decreases node
  {
    match node
    case Join(p1, p2) => if HasGroup(p1, g) { GroupHasFewer(p1, g, v); } else { GroupHasFewer(p2, g, v); }
    case LeftJoin(p1, p2, _) =>
      if HasGroup(p1, g) { GroupHasFewer(p1, g, v); } else if HasGroup(p2, g) { GroupHasFewer(p2, g, v); }
    case Union(p1, p2) =>
      if HasGroup(p1, g) { GroupHasFewer(p1, g, v); } else if HasGroup(p2, g) { GroupHasFewer(p2, g, v); }
    case Minus(p1, _) => GroupHasFewer(p1, g, v);
    case Filter(p, _) => GroupHasFewer(p, g, v);
    case Extend(p, _, _) => GroupHasFewer(p, g, v);
    case Graph(_, p) => GroupHasFewer(p, g, v);
    case Project(p, _) => GroupHasFewer(p, g, v);
  }

  /** A solution of a part without any place for `v` does not bind it. */
  lemma NoPlaceUnbound(w: World, q: Algebra, mu: Solution, v: string)
    requires Solves(w, q, mu) && Sites(q, v) == 0 && ValueSites(q, v) == 0
    ensures v !in mu
  {
    if v in mu { BoundNeedsASite(w, q, mu, v); }
  }

  /** The places a node of two parts divides. */
  predicate Divides(node: Algebra, p1: Algebra, p2: Algebra, v: string) {
    Sites(node, v) == Sites(p1, v) + Sites(p2, v) && ValueSites(node, v) == ValueSites(p1, v) + ValueSites(p2, v)
  }

  /** The part that holds the group owns the witness too, and the other has no place for it. */
  lemma OwnedPart(node: Algebra, part: Algebra, other: Algebra, g: Algebra, v: string)
    requires Divides(node, part, other, v) || Divides(node, other, part, v)
    requires OwnedBy(node, g, v) && (part == g || HasGroup(part, g))
    ensures OwnedBy(part, g, v) && Sites(other, v) == 0 && ValueSites(other, v) == 0
  {
    if part != g { GroupHasFewer(part, g, v); }
  }

  /** If a solution binds a variable only the group can bind, it took the group. */
  lemma {:induction false} BoundWitnessTook(w: World, node: Algebra, mu: Solution, g: Algebra, v: string)
    requires Solves(w, node, mu) && HasGroup(node, g) && OwnedBy(node, g, v) && v in mu
    ensures Took(w, node, mu, g)
    decreases node, 2
  {
    match node
    case Join(_, _) => JoinTook(w, node, mu, g, v);
    case LeftJoin(p1, p2, _) =>
      if HasGroup(p1, g) { RequiredTook(w, node, mu, g, v); } else { OptionalTook(w, node, mu, g, v); }
    case Union(p1, p2) =>
      if p1 == g || HasGroup(p1, g) {
        OwnedPart(node, p1, p2, g, v);
        BranchTook(w, p1, p2, mu, g, v);
      } else {
        OwnedPart(node, p2, p1, g, v);
        BranchTook(w, p2, p1, mu, g, v);
      }
    case Minus(p1, _) => BoundWitnessTook(w, p1, mu, g, v);
    case Filter(p, _) => BoundWitnessTook(w, p, mu, g, v);
    case Extend(p, bound, expr) =>
      var a :| Solves(w, p, a) && Extends(w, bound, expr, a, mu);
      GroupHasFewer(p, g, v);
      BoundWitnessTook(w, p, a, g, v);
    case Graph(_, _) => GraphTook(w, node, mu, g, v);
    case Project(p, vars) =>
      var a :| Solves(w, p, a) && mu == Narrowed(a, vars);
      BoundWitnessTook(w, p, a, g, v);
  }

  lemma {:induction false} GraphTook(w: World, node: Algebra, mu: Solution, g: Algebra, v: string)
    requires node.Graph? && Solves(w, node, mu) && HasGroup(node, g) && OwnedBy(node, g, v) && v in mu
    ensures Took(w, node, mu, g)
    decreases node, 0
  {
    var Graph(name, p) := node;
    GroupHasFewer(p, g, v);
    if name.Iri? {
      BoundWitnessTook(At(w, name.iri), p, mu, g, v);
    } else {
      var iri, a :| GraphBinds(w, iri, name.name, a, mu) && Solves(At(w, iri), p, a);
      BoundWitnessTook(At(w, iri), p, a, g, v);
    }
  }

  lemma {:induction false} BranchTook(w: World, part: Algebra, other: Algebra, mu: Solution, g: Algebra, v: string)
    requires (Solves(w, part, mu) || Solves(w, other, mu)) && (part == g || HasGroup(part, g))
    requires OwnedBy(part, g, v) && (part == other || (Sites(other, v) == 0 && ValueSites(other, v) == 0)) && v in mu
    ensures Enters(w, part, mu, g)
    decreases part, 3
  {
    if !Solves(w, part, mu) { NoPlaceUnbound(w, other, mu, v); }
    if part != g { BoundWitnessTook(w, part, mu, g, v); }
  }

  lemma {:induction false} JoinTook(w: World, node: Algebra, mu: Solution, g: Algebra, v: string)
    requires node.Join? && Solves(w, node, mu) && HasGroup(node, g) && OwnedBy(node, g, v) && v in mu
    ensures Took(w, node, mu, g)
    decreases node, 1
  {
    var Join(p1, p2) := node;
    var a, b :| Solves(w, p1, a) && Solves(w, p2, b) && Merges(a, b, mu);
    assert Divides(node, p1, p2, v);
    SidesTook(w, p1, a, p2, b, mu, g, v);
  }

  lemma {:induction false} SidesTook(w: World, p1: Algebra, a: Solution, p2: Algebra, b: Solution, mu: Solution,
                                     g: Algebra, v: string)
    requires Solves(w, p1, a) && Solves(w, p2, b) && Merges(a, b, mu) && v in mu
    requires HasGroup(Join(p1, p2), g) && OwnedBy(Join(p1, p2), g, v)
    ensures Took(w, Join(p1, p2), mu, g)
    decreases Join(p1, p2), 0
  {
    if HasGroup(p1, g) { FirstTook(w, p1, a, p2, b, mu, g, v); } else { SecondTook(w, p1, a, p2, b, mu, g, v); }
  }

  lemma {:induction false} FirstTook(w: World, p1: Algebra, a: Solution, p2: Algebra, b: Solution, mu: Solution,
                                     g: Algebra, v: string)
    requires Solves(w, p1, a) && Solves(w, p2, b) && Merges(a, b, mu) && v in mu
    requires HasGroup(p1, g) && OwnedBy(Join(p1, p2), g, v)
    ensures Took(w, Join(p1, p2), mu, g)
    decreases p1, 4
  {
    OwnedPart(Join(p1, p2), p1, p2, g, v);
    OneSideTook(w, p1, a, p2, b, mu, g, v);
    JoinTaken(w, p1, p2, a, b, mu, g);
  }

  lemma {:induction false} SecondTook(w: World, p1: Algebra, a: Solution, p2: Algebra, b: Solution, mu: Solution,
                                      g: Algebra, v: string)
    requires Solves(w, p1, a) && Solves(w, p2, b) && Merges(a, b, mu) && v in mu
    requires HasGroup(p2, g) && OwnedBy(Join(p1, p2), g, v)
    ensures Took(w, Join(p1, p2), mu, g)
    decreases p2, 4
  {
    OwnedPart(Join(p1, p2), p2, p1, g, v);
    OneSideTook(w, p2, b, p1, a, mu, g, v);
    JoinTaken(w, p1, p2, a, b, mu, g);
  }

  lemma {:induction false} OneSideTook(w: World, part: Algebra, a: Solution, other: Algebra, b: Solution,
                                       mu: Solution, g: Algebra, v: string)
    requires Solves(w, part, a) && Solves(w, other, b) && mu.Keys == a.Keys + b.Keys && v in mu
    requires HasGroup(part, g) && OwnedBy(part, g, v) && Sites(other, v) == 0 && ValueSites(other, v) == 0
    ensures Took(w, part, a, g)
    decreases part, 3
  {
    NoPlaceUnbound(w, other, b, v);
    BoundWitnessTook(w, part, a, g, v);
  }

  lemma JoinTaken(w: World, p1: Algebra, p2: Algebra, a: Solution, b: Solution, mu: Solution, g: Algebra)
    requires Solves(w, p1, a) && Solves(w, p2, b) && Merges(a, b, mu) && (Took(w, p1, a, g) || Took(w, p2, b, g))
    ensures Took(w, Join(p1, p2), mu, g)
  {}

  lemma {:induction false} RequiredTook(w: World, node: Algebra, mu: Solution, g: Algebra, v: string)
    requires node.LeftJoin? && HasGroup(node.p1, g)
    requires Solves(w, node, mu) && OwnedBy(node, g, v) && v in mu
    ensures Took(w, node, mu, g)
    decreases node, 0
  {
    var LeftJoin(p1, p2, cond) := node;
    OwnedPart(node, p1, p2, g, v);
    if Solves(w, p1, mu) && Unmatched(w, p2, cond, mu) {
      BoundWitnessTook(w, p1, mu, g, v);
    } else {
      var a, b :| Solves(w, p1, a) && Solves(w, p2, b) && Merges(a, b, mu) && w.truth(cond, w.graph, mu);
      NoPlaceUnbound(w, p2, b, v);
      BoundWitnessTook(w, p1, a, g, v);
    }
  }

  lemma {:induction false} OptionalTook(w: World, node: Algebra, mu: Solution, g: Algebra, v: string)
    requires node.LeftJoin? && (node.p2 == g || HasGroup(node.p2, g))
    requires Solves(w, node, mu) && OwnedBy(node, g, v) && v in mu
    ensures Took(w, node, mu, g)
    decreases node, 0
  {
    var LeftJoin(p1, p2, cond) := node;
    OwnedPart(node, p2, p1, g, v);
    if Solves(w, p1, mu) { NoPlaceUnbound(w, p1, mu, v); }
    var a, b :| Solves(w, p1, a) && Solves(w, p2, b) && Merges(a, b, mu) && w.truth(cond, w.graph, mu);
    NoPlaceUnbound(w, p1, a, v);
    BranchTook(w, p2, p2, b, g, v);
  }

  // ---- what a taken group draws ----

  /** The triples outside every OPTIONAL body, UNION branch and MINUS right side. */
  function Required(q: Algebra): seq<Triple> {
    match q
    case Bgp(triples) => triples
    case Join(p1, p2) => Required(p1) + Required(p2)
    case LeftJoin(p1, _, _) => Required(p1)
    case Union(_, _) => []
    case Minus(p1, _) => Required(p1)
    case Filter(p, _) => Required(p)
    case Extend(p, _, _) => Required(p)
    case Values(_) => []
    case Graph(_, p) => Required(p)
    case Project(p, _) => Required(p)
  }

  lemma BgpDraws(w: World, triples: seq<Triple>, mu: Solution, t: Triple)
    requires Solves(w, Bgp(triples), mu) && t in triples && Emittable(t)
    ensures Drawn(w, t, mu)
  {
    var blanks: Solution :| BgpHolds(w, triples, mu, blanks);
    assert TripleHolds(w, t, mu, blanks);
    assert TripleVars(t) <= BgpVars(triples);
  }

  /** What a larger solution of a larger dataset draws. */
  lemma DrawnByMore(w: World, u: World, t: Triple, nu: Solution, mu: Solution)
    requires Drawn(w, t, nu) && Restricts(nu, mu) && u.named == w.named
    requires w.graph == u.graph || exists iri :: iri in u.named && w.graph == u.named[iri]
    ensures Drawn(u, t, mu)
  {}

  /** A solution merged from two draws what either draws. */
  lemma DrawnByMerged(w: World, t: Triple, a: Solution, b: Solution, mu: Solution)
    requires Merges(a, b, mu) && (Drawn(w, t, a) || Drawn(w, t, b))
    ensures Drawn(w, t, mu)
  {
    if Drawn(w, t, a) { DrawnByMore(w, w, t, a, mu); } else { DrawnByMore(w, w, t, b, mu); }
  }

  /** What the solution of a GRAPH pattern draws inside, it draws outside. */
  lemma DrawnInGraph(w: World, iri: string, t: Triple, a: Solution, mu: Solution)
    requires iri in w.named && Drawn(At(w, iri), t, a) && Restricts(a, mu)
    ensures Drawn(w, t, mu)
  {
    DrawnByMore(At(w, iri), w, t, a, mu);
  }

  lemma {:induction false} RequiredIsWalked(q: Algebra, t: Triple)
    requires t in Required(q)
    ensures t in Triples(q)
    decreases q
  {
    match q
    case Bgp(_) =>
    case Join(p1, p2) => if t in Required(p1) { RequiredIsWalked(p1, t); } else { RequiredIsWalked(p2, t); }
    case LeftJoin(p1, _, _) => RequiredIsWalked(p1, t);
    case Minus(p1, _) => RequiredIsWalked(p1, t);
    case Filter(p, _) => RequiredIsWalked(p, t);
    case Extend(p, _, _) => RequiredIsWalked(p, t);
    case Graph(_, p) => RequiredIsWalked(p, t);
    case Project(p, _) => RequiredIsWalked(p, t);
  }

  lemma {:induction false} GroupIsWalked(node: Algebra, g: Algebra)
    requires HasGroup(node, g)
    ensures Triples(g) <= Triples(node)
    decreases node
  {
    match node
    case Join(p1, p2) => if HasGroup(p1, g) { GroupIsWalked(p1, g); } else { GroupIsWalked(p2, g); }
    case LeftJoin(p1, p2, _) =>
      if HasGroup(p1, g) { GroupIsWalked(p1, g); } else if HasGroup(p2, g) { GroupIsWalked(p2, g); }
    case Union(p1, p2) => if HasGroup(p1, g) { GroupIsWalked(p1, g); } else if HasGroup(p2, g) { GroupIsWalked(p2, g); }
    case Minus(p1, _) => GroupIsWalked(p1, g);
    case Filter(p, _) => GroupIsWalked(p, g);
    case Extend(p, _, _) => GroupIsWalked(p, g);
    case Graph(_, p) => GroupIsWalked(p, g);
    case Project(p, _) => GroupIsWalked(p, g);
  }

  lemma {:induction false} OptionalHasGroup(w: World, node: Algebra, mu: Solution, g: Algebra)
    requires node.LeftJoin? && Took(w, node, mu, g)
    ensures HasGroup(node, g)
    decreases node, 0
  {
    var LeftJoin(p1, p2, cond) := node;
    if Took(w, p1, mu, g) {
      TookHasGroup(w, p1, mu, g);
    } else {
      var a, b :| Solves(w, p1, a) && Solves(w, p2, b) && Merges(a, b, mu) && w.truth(cond, w.graph, mu)
                  && (Took(w, p1, a, g) || Enters(w, p2, b, g));
      if Took(w, p1, a, g) { TookHasGroup(w, p1, a, g); }
      if Took(w, p2, b, g) { TookHasGroup(w, p2, b, g); }
    }
  }

  /** A solution takes only groups that stand in the pattern. */
  lemma {:induction false} TookHasGroup(w: World, node: Algebra, mu: Solution, g: Algebra)
    requires Took(w, node, mu, g)
    ensures HasGroup(node, g)
    decreases node, 1
  {
    match node
    case Join(p1, p2) =>
      var a, b :| Solves(w, p1, a) && Solves(w, p2, b) && Merges(a, b, mu) && (Took(w, p1, a, g) || Took(w, p2, b, g));
      if Took(w, p1, a, g) { TookHasGroup(w, p1, a, g); } else { TookHasGroup(w, p2, b, g); }
    case LeftJoin(_, _, _) => OptionalHasGroup(w, node, mu, g);
    case Union(p1, p2) =>
      if Enters(w, p1, mu, g) { if p1 != g { TookHasGroup(w, p1, mu, g); } }
      else if p2 != g { TookHasGroup(w, p2, mu, g); }
    case Minus(p1, _) => TookHasGroup(w, p1, mu, g);
    case Filter(p, _) => TookHasGroup(w, p, mu, g);
    case Extend(p, bound, expr) =>
      var a :| Took(w, p, a, g) && Extends(w, bound, expr, a, mu);
      TookHasGroup(w, p, a, g);
    case Graph(name, p) =>
      if name.Iri? {
        TookHasGroup(At(w, name.iri), p, mu, g);
      } else {
        var iri, a :| GraphBinds(w, iri, name.name, a, mu) && Took(At(w, iri), p, a, g);
        TookHasGroup(At(w, iri), p, a, g);
      }
    case Project(p, vars) =>
      var a :| Took(w, p, a, g) && mu == Narrowed(a, vars);
      TookHasGroup(w, p, a, g);
  }

  /** A projection draws what it does not hide a variable of. */
  lemma DrawnNarrowed(w: World, t: Triple, a: Solution, vars: set<string>)
    requires Drawn(w, t, a) && Emittable(t)
    ensures Drawn(w, t, Narrowed(a, vars)) <==> TripleVars(t) <= vars
  {}

  /** Every solution draws the triples its pattern requires. */
  lemma {:induction false} RequiredDrawn(w: World, q: Algebra, mu: Solution, t: Triple)
    requires Solves(w, q, mu) && ShowsTriples(q) && t in Required(q) && Emittable(t)
    ensures Drawn(w, t, mu)
    decreases q, 1
  {
    match q
    case Bgp(triples) => BgpDraws(w, triples, mu, t);
    case Join(p1, p2) =>
      var a, b :| Solves(w, p1, a) && Solves(w, p2, b) && Merges(a, b, mu);
      if t in Required(p1) { RequiredDrawn(w, p1, a, t); } else { RequiredDrawn(w, p2, b, t); }
      DrawnByMerged(w, t, a, b, mu);
    case LeftJoin(p1, p2, cond) =>
      if Solves(w, p1, mu) {
        RequiredDrawn(w, p1, mu, t);
      } else {
        var a, b :| Solves(w, p1, a) && Solves(w, p2, b) && Merges(a, b, mu);
        RequiredDrawn(w, p1, a, t);
        DrawnByMerged(w, t, a, b, mu);
      }
    case Minus(p1, _) => RequiredDrawn(w, p1, mu, t);
    case Filter(p, _) => RequiredDrawn(w, p, mu, t);
    case Extend(p, bound, expr) =>
      var a :| Solves(w, p, a) && Extends(w, bound, expr, a, mu);
      RequiredDrawn(w, p, a, t);
      DrawnByMore(w, w, t, a, mu);
    case Graph(name, p) => GraphRequiredDrawn(w, q, mu, t);
    case Project(p, vars) =>
      var a :| Solves(w, p, a) && mu == Narrowed(a, vars);
      RequiredDrawn(w, p, a, t);
      RequiredIsWalked(p, t);
      DrawnNarrowed(w, t, a, vars);
  }

  lemma {:induction false} GraphRequiredDrawn(w: World, q: Algebra, mu: Solution, t: Triple)
    requires q.Graph? && Solves(w, q, mu) && ShowsTriples(q) && t in Required(q) && Emittable(t)
    ensures Drawn(w, t, mu)
    decreases q, 0
  {
    var Graph(name, p) := q;
    if name.Iri? {
      RequiredDrawn(At(w, name.iri), p, mu, t);
      DrawnInGraph(w, name.iri, t, mu, mu);
    } else {
      var iri, a :| GraphBinds(w, iri, name.name, a, mu) && Solves(At(w, iri), p, a);
      RequiredDrawn(At(w, iri), p, a, t);
      DrawnInGraph(w, iri, t, a, mu);
    }
  }

  lemma {:induction false} EntersDraws(w: World, branch: Algebra, mu: Solution, g: Algebra, t: Triple)
    requires Enters(w, branch, mu, g) && ShowsTriples(branch) && t in Required(g) && Emittable(t)
    ensures Drawn(w, t, mu)
    decreases branch, 2
  {
    if branch == g && Solves(w, branch, mu) { RequiredDrawn(w, branch, mu, t); }
    else { TookDraws(w, branch, mu, g, t); }
  }

  lemma {:induction false} OptionalDraws(w: World, node: Algebra, mu: Solution, g: Algebra, t: Triple)
    requires node.LeftJoin? && Took(w, node, mu, g) && ShowsTriples(node) && t in Required(g) && Emittable(t)
    ensures Drawn(w, t, mu)
    decreases node, 0
  {
    var LeftJoin(p1, p2, cond) := node;
    if Took(w, p1, mu, g) {
      TookDraws(w, p1, mu, g, t);
    } else {
      var a, b :| Solves(w, p1, a) && Solves(w, p2, b) && Merges(a, b, mu) && w.truth(cond, w.graph, mu)
                  && (Took(w, p1, a, g) || Enters(w, p2, b, g));
      if Took(w, p1, a, g) { TookDraws(w, p1, a, g, t); } else { EntersDraws(w, p2, b, g, t); }
      DrawnByMerged(w, t, a, b, mu);
    }
  }

  lemma {:induction false} GraphDraws(w: World, node: Algebra, mu: Solution, g: Algebra, t: Triple)
    requires node.Graph? && Took(w, node, mu, g) && ShowsTriples(node) && t in Required(g) && Emittable(t)
    ensures Drawn(w, t, mu)
    decreases node, 0
  {
    var Graph(name, p) := node;
    if name.Iri? {
      TookDraws(At(w, name.iri), p, mu, g, t);
      DrawnInGraph(w, name.iri, t, mu, mu);
    } else {
      var iri, a :| GraphBinds(w, iri, name.name, a, mu) && Took(At(w, iri), p, a, g);
      TookDraws(At(w, iri), p, a, g, t);
      DrawnInGraph(w, iri, t, a, mu);
    }
  }

  /** A solution that took the group draws the triples the group requires. */
  lemma {:induction false} TookDraws(w: World, node: Algebra, mu: Solution, g: Algebra, t: Triple)
    requires Took(w, node, mu, g) && ShowsTriples(node) && t in Required(g) && Emittable(t)
    ensures Drawn(w, t, mu)
    decreases node, 1
  {
    match node
    case Join(p1, p2) =>
      var a, b :| Solves(w, p1, a) && Solves(w, p2, b) && Merges(a, b, mu) && (Took(w, p1, a, g) || Took(w, p2, b, g));
      if Took(w, p1, a, g) { TookDraws(w, p1, a, g, t); } else { TookDraws(w, p2, b, g, t); }
      DrawnByMerged(w, t, a, b, mu);
    case LeftJoin(_, _, _) => OptionalDraws(w, node, mu, g, t);
    case Union(p1, p2) =>
      if Enters(w, p1, mu, g) { EntersDraws(w, p1, mu, g, t); } else { EntersDraws(w, p2, mu, g, t); }
    case Minus(p1, _) => TookDraws(w, p1, mu, g, t);
    case Filter(p, _) => TookDraws(w, p, mu, g, t);
    case Extend(p, bound, expr) =>
      var a :| Took(w, p, a, g) && Extends(w, bound, expr, a, mu);
      TookDraws(w, p, a, g, t);
      DrawnByMore(w, w, t, a, mu);
    case Graph(_, _) => GraphDraws(w, node, mu, g, t);
    case Project(p, vars) =>
      var a :| Took(w, p, a, g) && mu == Narrowed(a, vars);
      TookDraws(w, p, a, g, t);
      TookHasGroup(w, p, a, g);
      GroupIsWalked(p, g);
      RequiredIsWalked(g, t);
      DrawnNarrowed(w, t, a, vars);
  }

  // ---- listed patterns ----

  /** A listed triple with the groups around it, the innermost last. */
  datatype Spot = Spot(triple: Triple, groups: seq<Algebra>)

  /** The witness sets of the groups. */
  function Witnesses(root: Algebra, groups: seq<Algebra>): (r: seq<set<string>>)
    ensures |r| == |groups|
  {
    seq(|groups|, i requires 0 <= i < |groups| => Witness(root, groups[i]))
  }

  /** The pattern is listed for the triple at that spot of the query. */
  ghost predicate ListedAt(root: Algebra, x: Pattern, spot: Spot) {
    && x == Pattern(spot.triple, Witnesses(root, spot.groups)) && Emittable(spot.triple)
    && (forall g :: g in spot.groups ==> HasGroup(root, g))
    && spot.triple in Required(if spot.groups == [] then root else spot.groups[|spot.groups| - 1])
  }

  /** `node` is required where it stands: by the whole query, or by the innermost group. */
  ghost predicate StandsIn(root: Algebra, node: Algebra, groups: seq<Algebra>) {
    && (forall g :: HasGroup(node, g) ==> HasGroup(root, g))
    && (forall g :: g in groups ==> HasGroup(root, g))
    && forall t :: t in Required(node) ==> t in Required(if groups == [] then root else groups[|groups| - 1])
  }

  /** A part that the walk goes into without entering a group. */
  predicate WalkedPart(node: Algebra, part: Algebra) {
    match node
    case Join(p1, p2) => part == p1 || part == p2
    case LeftJoin(p1, _, _) => part == p1
    case Minus(p1, _) => part == p1
    case Filter(p, _) => part == p
    case Extend(p, _, _) => part == p
    case Graph(_, p) => part == p
    case Project(p, _) => part == p
    case _ => false
  }

  lemma WalkedPartStands(root: Algebra, node: Algebra, part: Algebra, groups: seq<Algebra>)
    requires StandsIn(root, node, groups) && WalkedPart(node, part)
    ensures StandsIn(root, part, groups)
  {
    forall g | HasGroup(part, g) ensures HasGroup(root, g) { assert HasGroup(node, g); }
    forall t | t in Required(part) ensures t in Required(if groups == [] then root else groups[|groups| - 1]) {
      assert t in Required(node);
    }
  }

  lemma {:induction false} PartIsListed(root: Algebra, node: Algebra, part: Algebra, groups: seq<Algebra>, x: Pattern)
    requires StandsIn(root, node, groups) && WalkedPart(node, part) && part < node
    requires x in Walk(root, part, Witnesses(root, groups))
    ensures exists spot :: ListedAt(root, x, spot) && groups <= spot.groups
    decreases part, 2
  {
    WalkedPartStands(root, node, part, groups);
    WalkIsListed(root, part, groups, x);
  }

  lemma {:induction false} WalkIsListed(root: Algebra, node: Algebra, groups: seq<Algebra>, x: Pattern)
    requires StandsIn(root, node, groups) && x in Walk(root, node, Witnesses(root, groups))
    ensures exists spot :: ListedAt(root, x, spot) && groups <= spot.groups
    decreases node, 0
  {
    var when := Witnesses(root, groups);
    match node {
      case Bgp(triples) =>
        assert x.triple in Required(node);
        assert ListedAt(root, x, Spot(x.triple, groups)) && groups <= groups;
      case Join(p1, p2) =>
        if x in Walk(root, p1, when) {
          PartIsListed(root, node, p1, groups, x);
        } else {
          PartIsListed(root, node, p2, groups, x);
        }
      case LeftJoin(p1, p2, _) =>
        if x in Walk(root, p1, when) {
          PartIsListed(root, node, p1, groups, x);
        } else {
          GroupIsListed(root, p2, groups, x);
        }
      case Union(p1, p2) =>
        if x in Group(root, p1, when) {
          GroupIsListed(root, p1, groups, x);
        } else {
          GroupIsListed(root, p2, groups, x);
        }
      case Minus(p1, _) => PartIsListed(root, node, p1, groups, x);
      case Filter(p, _) => PartIsListed(root, node, p, groups, x);
      case Extend(p, _, _) => PartIsListed(root, node, p, groups, x);
      case Values(_) =>
      case Graph(_, p) => PartIsListed(root, node, p, groups, x);
      case Project(p, _) => PartIsListed(root, node, p, groups, x);
    }
  }

  lemma {:induction false} GroupIsListed(root: Algebra, g: Algebra, groups: seq<Algebra>, x: Pattern)
    requires HasGroup(root, g) && (forall h :: HasGroup(g, h) ==> HasGroup(root, h))
    requires (forall h :: h in groups ==> HasGroup(root, h))
    requires x in Group(root, g, Witnesses(root, groups))
    ensures exists spot :: ListedAt(root, x, spot) && groups <= spot.groups
    decreases g, 1
  {
    assert Witnesses(root, groups + [g]) == Witnesses(root, groups) + [Witness(root, g)];
    WalkIsListed(root, g, groups + [g], x);
    var spot :| ListedAt(root, x, spot) && groups + [g] <= spot.groups;
    assert groups <= spot.groups;
  }

  /** Some variable that only the innermost group can bind is bound. */
  ghost predicate SpotTaken(root: Algebra, spot: Spot, mu: Solution) {
    spot.groups == [] || exists v :: v in mu && OwnedBy(root, spot.groups[|spot.groups| - 1], v)
  }

  /** The row witnesses the pattern at one of its spots. */
  ghost predicate Witnessed(q: Algebra, x: Pattern, mu: Solution) {
    exists spot :: ListedAt(q, x, spot) && SpotTaken(q, spot, mu)
  }

  /**
   Soundness. In every dataset, for every solution of a query whose sub-SELECTs hide no variable of
   a listed triple, a listed pattern is a fact, all its variables bound, as soon as the row binds a
   witness of the innermost group around it that no VALUES block outside the group can bind.
   */
  lemma ListedPatternIsAFact(w: World, q: Algebra, mu: Solution, x: Pattern)
    requires ShowsTriples(q) && Solves(w, q, mu) && Witnessed(q, x, mu)
    ensures Drawn(w, x.triple, mu)
  {
    var spot :| ListedAt(q, x, spot) && SpotTaken(q, spot, mu);
    if spot.groups == [] {
      RequiredDrawn(w, q, mu, x.triple);
    } else {
      var g := spot.groups[|spot.groups| - 1];
      var v :| v in mu && OwnedBy(q, g, v);
      BoundWitnessTook(w, q, mu, g, v);
      TookDraws(w, q, mu, g, x.triple);
    }
  }

  /** And exactly those sub-SELECTs: where one hides a variable of a triple it requires, no row draws the triple. */
  lemma HiddenIsNotDrawn(w: World, p: Algebra, vars: set<string>, mu: Solution, t: Triple)
    requires ShowsTriples(p) && Solves(w, Project(p, vars), mu) && t in Required(p) && Emittable(t)
    ensures Drawn(w, t, mu) <==> TripleVars(t) <= vars
  {
    var a :| Solves(w, p, a) && mu == Narrowed(a, vars);
    RequiredDrawn(w, p, a, t);
    DrawnNarrowed(w, t, a, vars);
  }

  /** Every listed pattern has its spot, and its last witness set is the innermost group's. */
  lemma ListedHasASpot(q: Algebra, x: Pattern)
    requires x in Patterns(q)
    ensures exists spot :: ListedAt(q, x, spot)
  {
    AddNewMembers([], Walk(q, q, []));
    assert Witnesses(q, []) == [];
    WalkIsListed(q, q, [], x);
  }

  /** A row that is active in the reader's sense, by a witness no VALUES block binds, witnesses the pattern. */
  lemma ActiveIsWitnessed(q: Algebra, x: Pattern, mu: Solution)
    requires x in Patterns(q)
    requires x.when == [] || exists v :: v in x.when[|x.when| - 1] && v in mu && ValueSites(q, v) == 0
    ensures Witnessed(q, x, mu)
  {
    ListedHasASpot(q, x);
    var spot :| ListedAt(q, x, spot);
    if spot.groups != [] {
      var g := spot.groups[|spot.groups| - 1];
      assert x.when[|x.when| - 1] == Witness(q, g);
      var v :| v in x.when[|x.when| - 1] && v in mu && ValueSites(q, v) == 0;
      assert g in spot.groups;
      GroupHasFewer(q, g, v);
      SiteVarsAreSites(g, v);
      assert OwnedBy(q, g, v);
    }
  }

  /** The SELECT around a query changes nothing in what is listed. */
  lemma ProjectionListsTheSame(q: Algebra, vars: set<string>)
    ensures Patterns(Project(q, vars)) == Patterns(q)
  {
    WalkSameRoot(q, vars, q, []);
  }

  lemma SameWitness(q: Algebra, vars: set<string>, node: Algebra)
    ensures Witness(Project(q, vars), node) == Witness(q, node)
  {
    assert forall v :: Sites(Project(q, vars), v) == Sites(q, v);
  }

  lemma {:induction false} GroupSameRoot(q: Algebra, vars: set<string>, node: Algebra, when: seq<set<string>>)
    ensures Group(Project(q, vars), node, when) == Group(q, node, when)
    decreases node, 1
  {
    SameWitness(q, vars, node);
    WalkSameRoot(q, vars, node, when + [Witness(q, node)]);
  }

  lemma {:induction false} WalkSameRoot(q: Algebra, vars: set<string>, node: Algebra, when: seq<set<string>>)
    ensures Walk(Project(q, vars), node, when) == Walk(q, node, when)
    decreases node, 0
  {
    match node
    case Bgp(_) =>
    case Join(p1, p2) => WalkSameRoot(q, vars, p1, when); WalkSameRoot(q, vars, p2, when);
    case LeftJoin(p1, p2, _) => WalkSameRoot(q, vars, p1, when); GroupSameRoot(q, vars, p2, when);
    case Union(p1, p2) => GroupSameRoot(q, vars, p1, when); GroupSameRoot(q, vars, p2, when);
    case Minus(p1, _) => WalkSameRoot(q, vars, p1, when);
    case Filter(p, _) => WalkSameRoot(q, vars, p, when);
    case Extend(p, _, _) => WalkSameRoot(q, vars, p, when);
    case Values(_) =>
    case Graph(_, p) => WalkSameRoot(q, vars, p, when);
    case Project(p, _) => WalkSameRoot(q, vars, p, when);
  }

  // ---- completeness for the required part ----

  /** A triple is listed for every row exactly when the query requires it. */
  lemma ListedForEveryRow(q: Algebra, t: Triple)
    ensures Pattern(t, []) in Patterns(q) <==> Emittable(t) && t in Required(q)
  {
    AddNewMembers([], Walk(q, q, []));
    if Pattern(t, []) in Patterns(q) {
      ListedHasASpot(q, Pattern(t, []));
    } else if Emittable(t) && t in Required(q) {
      RequiredWalked(q, q, t);
    }
  }

  lemma {:induction false} RequiredWalked(root: Algebra, node: Algebra, t: Triple)
    requires Emittable(t) && t in Required(node)
    ensures Pattern(t, []) in Walk(root, node, [])
    decreases node
  {
    match node
    case Bgp(_) =>
    case Join(p1, p2) => if t in Required(p1) { RequiredWalked(root, p1, t); } else { RequiredWalked(root, p2, t); }
    case LeftJoin(p1, _, _) => RequiredWalked(root, p1, t);
    case Minus(p1, _) => RequiredWalked(root, p1, t);
    case Filter(p, _) => RequiredWalked(root, p, t);
    case Extend(p, _, _) => RequiredWalked(root, p, t);
    case Graph(_, p) => RequiredWalked(root, p, t);
    case Project(p, _) => RequiredWalked(root, p, t);
  }
}
