/** The witness analysis as the code runs it: an explicit stack, and lists that grow as the walk goes. */
module GraphShapeLoops {
  import opened Collections
  import opened GraphShape
  import opened GraphShapeSoundness
  import Listing = GraphShapeListing

  function Count(counts: map<string, nat>, v: string): nat {
    if v in counts then counts[v] else 0
  }

  ghost function StackSites(stack: seq<Algebra>, v: string): nat {
    if stack == [] then 0 else StackSites(stack[..|stack| - 1], v) + Sites(stack[|stack| - 1], v)
  }

  ghost function Weight(q: Algebra): nat {
    1 + match q
    case Bgp(_) => 0
    case Join(p1, p2) => Weight(p1) + Weight(p2)
    case LeftJoin(p1, p2, _) => Weight(p1) + Weight(p2)
    case Union(p1, p2) => Weight(p1) + Weight(p2)
    case Minus(p1, p2) => Weight(p1) + Weight(p2)
    case Filter(p, _) => Weight(p)
    case Extend(p, _, _) => Weight(p)
    case Values(_) => 0
    case Graph(_, p) => Weight(p)
    case Project(p, _) => Weight(p)
  }

  ghost function StackWeight(stack: seq<Algebra>): nat {
    if stack == [] then 0 else StackWeight(stack[..|stack| - 1]) + Weight(stack[|stack| - 1])
  }

  /** The sub-patterns a node is walked through, in the order they are pushed. */
  function Children(q: Algebra): seq<Algebra> {
    match q
    case Bgp(_) => []
    case Join(p1, p2) => [p1, p2]
    case LeftJoin(p1, p2, _) => [p1, p2]
    case Union(p1, p2) => [p1, p2]
    case Minus(p1, _) => [p1]
    case Filter(p, _) => [p]
    case Extend(p, _, _) => [p]
    case Values(_) => []
    case Graph(_, p) => [p]
    case Project(p, _) => [p]
  }

  lemma PushOne(rest: seq<Algebra>, a: Algebra)
    ensures StackWeight(rest + [a]) == StackWeight(rest) + Weight(a)
    ensures forall v :: StackSites(rest + [a], v) == StackSites(rest, v) + Sites(a, v)
  {
    assert (rest + [a])[..|rest + [a]| - 1] == rest;
  }

  lemma PushTwo(rest: seq<Algebra>, a: Algebra, b: Algebra)
    ensures StackWeight(rest + [a, b]) == StackWeight(rest) + Weight(a) + Weight(b)
    ensures forall v :: StackSites(rest + [a, b], v) == StackSites(rest, v) + Sites(a, v) + Sites(b, v)
  {
    PushOne(rest, a);
    PushOne(rest + [a], b);
    assert rest + [a] + [b] == rest + [a, b];
  }

  method AddTriples(counts: map<string, nat>, triples: seq<Triple>) returns (r: map<string, nat>)
    ensures forall v :: Count(r, v) == Count(counts, v) + TripleSites(triples, v)
    ensures forall v :: v in r ==> v in counts || Count(r, v) > 0
  {
    r := counts;
    for k := 0 to |triples|
      invariant forall v :: Count(r, v) + TripleSites(triples[k..], v) == Count(counts, v) + TripleSites(triples, v)
      invariant forall v :: v in r ==> v in counts || Count(r, v) > 0
    {
      var vars := TripleVars(triples[k]);  // each variable once, however often the triple has it
      assert triples[k..][1..] == triples[k + 1..];
      var before := r;
      r := before + (map v | v in vars :: Count(before, v) + 1);
    }
  }

  /** What a node itself binds: the variables of its triples, of its BIND, or of its GRAPH. */
  function OwnSites(q: Algebra, v: string): nat {
    match q
    case Bgp(triples) => TripleSites(triples, v)
    case Extend(_, bound, _) => if v == bound then 1 else 0
    case Graph(name, _) => if v in TermVars(name) then 1 else 0
    case _ => 0
  }

  lemma ChildrenSplit(q: Algebra)
    ensures |Children(q)| <= 2
    ensures |Children(q)| == 0 ==> Weight(q) == 1 && forall v :: Sites(q, v) == OwnSites(q, v)
    ensures |Children(q)| == 1 ==>
              Weight(q) > Weight(Children(q)[0]) && forall v :: Sites(q, v) == Sites(Children(q)[0], v) + OwnSites(q, v)
    ensures |Children(q)| == 2 ==>
              && Weight(q) > Weight(Children(q)[0]) + Weight(Children(q)[1])
              && forall v :: Sites(q, v) == Sites(Children(q)[0], v) + Sites(Children(q)[1], v) + OwnSites(q, v)
  {}

  lemma PushChildren(rest: seq<Algebra>, q: Algebra)
    ensures StackWeight(rest + Children(q)) < StackWeight(rest) + Weight(q)
    ensures forall v :: StackSites(rest + Children(q), v) + OwnSites(q, v) == StackSites(rest, v) + Sites(q, v)
  {
    var cs := Children(q);
    ChildrenSplit(q);
    if |cs| == 0 {
      assert rest + cs == rest;
    } else if |cs| == 1 {
      PushOne(rest, cs[0]);
      assert cs == [cs[0]];
    } else {
      PushTwo(rest, cs[0], cs[1]);
      assert cs == [cs[0], cs[1]];
    }
  }

  method AddNode(counts: map<string, nat>, current: Algebra) returns (r: map<string, nat>)
    ensures forall v :: Count(r, v) == Count(counts, v) + OwnSites(current, v)
    ensures forall v :: v in r ==> v in counts || Count(r, v) > 0
  {
    r := counts;
    if current.Bgp? {
      r := AddTriples(counts, current.triples);
    } else if current.Extend? {
      r := counts[current.bound := Count(counts, current.bound) + 1];
    } else if current.Graph? && current.name.Var? {
      r := counts[current.name.name := Count(counts, current.name.name) + 1];
    }
  }

  /** `_binding_sites`: the sites of every variable, counted with an explicit stack. */
  method BindingSites(node: Algebra) returns (counts: map<string, nat>)
    ensures forall v :: Count(counts, v) == Sites(node, v)
    ensures forall v :: v in counts <==> v in SiteVars(node)
  {
    counts := map[];
    var stack := [node];
    while stack != []
      invariant forall v :: Count(counts, v) + StackSites(stack, v) == Sites(node, v)
      invariant forall v :: v in counts ==> Count(counts, v) > 0
      decreases StackWeight(stack)
    {
      var current := stack[|stack| - 1];
      var rest := stack[..|stack| - 1];
      PushChildren(rest, current);
      counts := AddNode(counts, current);
      stack := rest + Children(current);
    }
    forall v ensures v in counts <==> v in SiteVars(node) { SiteVarsAreSites(node, v); }
  }

  /** The closure state of `query_patterns`: the list built so far and the keys already in it. */
  class PatternWalk {
    const root: Algebra
    const total: map<string, nat>
    var found: seq<Pattern>
    var seen: set<Pattern>

    ghost predicate Valid()
      reads this
    {
      && (forall v :: Count(total, v) == Sites(root, v))
      && seen == (set x | x in found)
    }

    constructor (root: Algebra, total: map<string, nat>)
      requires forall v :: Count(total, v) == Sites(root, v)
      ensures Valid() && this.root == root && found == []
    {
      this.root, this.total := root, total;
      found, seen := [], {};
    }

    method Emit(t: Triple, when: seq<set<string>>)
      requires Valid()
      modifies this
      ensures Valid()
      ensures found == AddNew(old(found), if Emittable(t) then [Pattern(t, when)] else [])
    {
      if !Emittable(t) { return; }
      var key := Pattern(t, when);
      assert AddNew(found, [key]) == AddNew(if key in found then found else found + [key], []);
      if key in seen { return; }
      seen := seen + {key};
      found := found + [key];
    }

    method VisitGroup(node: Algebra, when: seq<set<string>>)
      requires Valid()
      modifies this
      ensures Valid()
      ensures found == AddNew(old(found), Group(root, node, when))
      decreases node, 1
    {
      var own := BindingSites(node);
      var binders := set v | v in own && v in total && own[v] == total[v];
      forall v ensures v in binders <==> v in Witness(root, node) {
        SiteVarsAreSites(node, v);
        assert Count(own, v) == Sites(node, v) && Count(total, v) == Sites(root, v);
      }
      assert binders == Witness(root, node);
      if binders != {} {
        Visit(node, when + [binders]);
      }
    }

    method EmitAll(triples: seq<Triple>, when: seq<set<string>>)
      requires Valid()
      modifies this
      ensures Valid()
      ensures found == AddNew(old(found), BgpPatterns(triples, when))
    {
      for k := 0 to |triples|
        invariant Valid()
        invariant found == AddNew(old(found), BgpPatterns(triples[..k], when))
      {
        ghost var before := found;
        Emit(triples[k], when);
        EmittedSoFar(old(found), triples, k, when, before, found);
      }
      assert triples[..|triples|] == triples;
    }

    method Visit(node: Algebra, when: seq<set<string>>)
      requires Valid()
      modifies this
      ensures Valid()
      ensures found == AddNew(old(found), Walk(root, node, when))
      decreases node, 0
    {
      match node
      case Bgp(triples) =>
        EmitAll(triples, when);
      case Minus(p1, _) =>
        Visit(p1, when);
      case LeftJoin(p1, p2, _) =>
        Visit(p1, when);
        VisitGroup(p2, when);
        AddNewAppend(old(found), Walk(root, p1, when), Group(root, p2, when));
      case Union(p1, p2) =>
        VisitGroup(p1, when);
        VisitGroup(p2, when);
        AddNewAppend(old(found), Group(root, p1, when), Group(root, p2, when));
      case Join(p1, p2) =>
        Visit(p1, when);
        Visit(p2, when);
        AddNewAppend(old(found), Walk(root, p1, when), Walk(root, p2, when));
      case Filter(p, _) =>
        Visit(p, when);
      case Extend(p, _, _) =>
        Visit(p, when);
      case Values(_) =>
      case Graph(_, p) =>
        Visit(p, when);
      case Project(p, _) =>
        Visit(p, when);
    }
  }

  lemma EmittedSoFar(start: seq<Pattern>, triples: seq<Triple>, k: nat, when: seq<set<string>>, before: seq<Pattern>,
                     after: seq<Pattern>)
    requires k < |triples| && before == AddNew(start, BgpPatterns(triples[..k], when))
    requires after == AddNew(before, if Emittable(triples[k]) then [Pattern(triples[k], when)] else [])
    ensures after == AddNew(start, BgpPatterns(triples[..k + 1], when))
  {
    assert triples[..k + 1] == triples[..k] + [triples[k]];
    BgpPatternsSnoc(triples[..k], triples[k], when);
    AddNewAppend(start, BgpPatterns(triples[..k], when),
                 if Emittable(triples[k]) then [Pattern(triples[k], when)] else []);
  }

  lemma {:induction false} BgpPatternsSnoc(triples: seq<Triple>, t: Triple, when: seq<set<string>>)
    ensures BgpPatterns(triples + [t], when)
         == BgpPatterns(triples, when) + if Emittable(t) then [Pattern(t, when)] else []
    decreases |triples|
  {
    if triples == [] {
      assert triples + [t] == [t];
    } else {
      assert (triples + [t])[1..] == triples[1..] + [t];
      BgpPatternsSnoc(triples[1..], t, when);
    }
  }

  lemma AllListed(q: Algebra)
    ensures forall x :: x in Patterns(q) <==> exists p :: Listing.ListedFor(q, p, x)
  {
    forall x ensures x in Patterns(q) <==> exists p :: Listing.ListedFor(q, p, x) { Listing.ListedExactly(q, x); }
  }

  lemma ListedAreFacts(q: Algebra)
    ensures forall w, mu, x | ShowsTriples(q) && Solves(w, q, mu) && x in Patterns(q) && Witnessed(q, x, mu) ::
              Drawn(w, x.triple, mu)
  {
    forall w, mu, x | ShowsTriples(q) && Solves(w, q, mu) && x in Patterns(q) && Witnessed(q, x, mu)
      ensures Drawn(w, x.triple, mu)
    {
      ListedPatternIsAFact(w, q, mu, x);
    }
  }

  /**
   `query_patterns`: the patterns of the places, each once, and each listed pattern a fact of every
   row that witnesses it.
   */
  method QueryPatterns(q: Algebra) returns (found: seq<Pattern>)
    ensures found == Patterns(q)
    ensures Distinct(found)
    ensures forall x :: x in found <==> exists p :: Listing.ListedFor(q, p, x)
    ensures forall w, mu, x | ShowsTriples(q) && Solves(w, q, mu) && x in found && Witnessed(q, x, mu) ::
              Drawn(w, x.triple, mu)
  {
    var total := BindingSites(q);
    var walk := new PatternWalk(q, total);
    walk.Visit(q, []);
    found := walk.found;
    AddNewMembers([], Walk(q, q, []));
    AllListed(q);
    ListedAreFacts(q);
  }
}
