/**
 Which patterns are listed, in which order, and with which witnesses: read off the places in the
 algebra where the triples stand and where the variables are bound, not off the walk.
 */
module GraphShapeListing {
  import opened Collections
  import opened GraphShape
  import opened GraphShapeSoundness

  // ---- places in the algebra ----

  /** The parts of a node that hold facts: of a MINUS only what it is taken from. */
  function Children(q: Algebra): seq<Algebra> {
    match q
    case Bgp(_) => []
    case Join(p1, p2) => [p1, p2]
    case LeftJoin(p1, p2, _) => [p1, p2]
    case Union(p1, p2) => [p1, p2]
    case Minus(p1, _) => [p1]
    case Filter(p, _) => [p]
    case Extend(p, _, _) => [p]
    case Values(_) => []
    case Graph(_, p) => [p]
    case Project(p, _) => [p]
  }

  /** Which child to go to, step by step. */
  type Path = seq<nat>

  predicate IsPath(q: Algebra, path: Path)
    decreases |path|
  {
    path == [] || (path[0] < |Children(q)| && IsPath(Children(q)[path[0]], path[1..]))
  }

  function NodeAt(q: Algebra, path: Path): Algebra
    requires IsPath(q, path)
    decreases |path|
  {
    if path == [] then q else NodeAt(Children(q)[path[0]], path[1..])
  }

  /** The step goes into an OPTIONAL body or a UNION branch. */
  predicate Opens(q: Algebra, step: nat) {
    (q.LeftJoin? && step == 1) || q.Union?
  }

  /** The OPTIONAL bodies and UNION branches on the way, the outermost first. */
  function GroupsOn(q: Algebra, path: Path): seq<Algebra>
    requires IsPath(q, path)
    decreases |path|
  {
    if path == [] then []
    else
      var child := Children(q)[path[0]];
      (if Opens(q, path[0]) then [child] else []) + GroupsOn(child, path[1..])
  }

  /** Each of them stands on the way. */
  lemma {:induction false} GroupsAreOnTheWay(q: Algebra, path: Path, i: nat) returns (n: nat)
    requires IsPath(q, path) && i < |GroupsOn(q, path)|
    ensures 0 < n <= |path| && IsPath(q, path[..n]) && GroupsOn(q, path)[i] == NodeAt(q, path[..n])
    decreases |path|
  {
    var child := Children(q)[path[0]];
    if Opens(q, path[0]) && i == 0 {
      n := 1;
      assert path[..1][1..] == [];
    } else {
      var m := GroupsAreOnTheWay(child, path[1..], if Opens(q, path[0]) then i - 1 else i);
      n := m + 1;
      assert path[..n][1..] == path[1..][..m];
    }
  }

  // ---- where the triples stand ----

  /** A triple of a basic pattern: the way to the pattern, and the triple's number there. */
  datatype Place = Place(path: Path, k: nat)

  predicate IsPlace(q: Algebra, p: Place) {
    IsPath(q, p.path) && NodeAt(q, p.path).Bgp? && p.k < |NodeAt(q, p.path).triples|
  }

  function TripleAt(q: Algebra, p: Place): Triple
    requires IsPlace(q, p)
  {
    NodeAt(q, p.path).triples[p.k]
  }

  /** Document order: the first step where two ways part, or the number in one pattern. */
  predicate Before(a: Place, b: Place) {
    if a.path == b.path then a.k < b.k
    else
      exists n: nat :: n < |a.path| && n < |b.path| && a.path[..n] == b.path[..n] && a.path[n] < b.path[n]
  }

  function Under(step: nat, ps: seq<Place>): seq<Place> {
    seq(|ps|, j requires 0 <= j < |ps| => Place([step] + ps[j].path, ps[j].k))
  }

  /** All of them. */
  function Places(q: Algebra): seq<Place> {
    match q
    case Bgp(triples) => seq(|triples|, k requires 0 <= k < |triples| => Place([], k))
    case Join(p1, p2) => Under(0, Places(p1)) + Under(1, Places(p2))
    case LeftJoin(p1, p2, _) => Under(0, Places(p1)) + Under(1, Places(p2))
    case Union(p1, p2) => Under(0, Places(p1)) + Under(1, Places(p2))
    case Minus(p1, _) => Under(0, Places(p1))
    case Filter(p, _) => Under(0, Places(p))
    case Extend(p, _, _) => Under(0, Places(p))
    case Values(_) => []
    case Graph(_, p) => Under(0, Places(p))
    case Project(p, _) => Under(0, Places(p))
  }

  lemma UnderHas(step: nat, ps: seq<Place>, p: Place)
    ensures p in Under(step, ps) <==> p.path != [] && p.path[0] == step && Place(p.path[1..], p.k) in ps
  {
    if p in Under(step, ps) {
      var j :| 0 <= j < |ps| && Under(step, ps)[j] == p;
      assert Place(p.path[1..], p.k) == ps[j];
    }
    if p.path != [] && p.path[0] == step && Place(p.path[1..], p.k) in ps {
      var j :| 0 <= j < |ps| && ps[j] == Place(p.path[1..], p.k);
      assert [step] + p.path[1..] == p.path;
      assert Under(step, ps)[j] == p;
    }
  }

  lemma {:induction false} ChildPlaces(q: Algebra, p: Place, step: nat)
    requires step < |Children(q)| && p.path != [] && p.path[0] == step
    requires Place(p.path[1..], p.k) in Places(Children(q)[step])
        <==> IsPlace(Children(q)[step], Place(p.path[1..], p.k))
    ensures p in Under(step, Places(Children(q)[step])) <==> IsPlace(q, p)
  {
    UnderHas(step, Places(Children(q)[step]), p);
  }

  lemma {:induction false} PlacesAreAll(q: Algebra, p: Place)
    ensures p in Places(q) <==> IsPlace(q, p)
    decreases q
  {
    if q.Bgp? {
      if p in Places(q) { assert p.path == []; }
      if IsPlace(q, p) { assert Places(q)[p.k] == p; }
    } else if p.path != [] && p.path[0] < |Children(q)| {
      var step := p.path[0];
      PlacesAreAll(Children(q)[step], Place(p.path[1..], p.k));
      ChildPlaces(q, p, step);
      OtherStep(q, p);
    } else {
      OtherStep(q, p);
    }
  }

  /** A place is listed with the child its way begins with. */
  lemma OtherStep(q: Algebra, p: Place)
    requires !q.Bgp?
    ensures p in Places(q) <==>
              p.path != [] && p.path[0] < |Children(q)| && p in Under(p.path[0], Places(Children(q)[p.path[0]]))
  {
    if |Children(q)| >= 1 { UnderHas(0, Places(Children(q)[0]), p); }
    if |Children(q)| == 2 { UnderHas(1, Places(Children(q)[1]), p); }
  }

  ghost predicate Sorted(ps: seq<Place>) {
    forall i, j :: 0 <= i < j < |ps| ==> Before(ps[i], ps[j])
  }

  lemma BeforeUnder(step: nat, a: Place, b: Place)
    requires Before(a, b)
    ensures Before(Place([step] + a.path, a.k), Place([step] + b.path, b.k))
  {
    if a.path != b.path {
      var n: nat :| n < |a.path| && n < |b.path| && a.path[..n] == b.path[..n] && a.path[n] < b.path[n];
      var c, d := [step] + a.path, [step] + b.path;
      assert c[..n + 1] == [step] + a.path[..n] && d[..n + 1] == [step] + b.path[..n];
      assert c[n + 1] < d[n + 1];
    }
  }

  lemma SortedUnder(step: nat, ps: seq<Place>)
    requires Sorted(ps)
    ensures Sorted(Under(step, ps))
  {
    forall i, j | 0 <= i < j < |ps| ensures Before(Under(step, ps)[i], Under(step, ps)[j]) {
      BeforeUnder(step, ps[i], ps[j]);
    }
  }

  lemma SortedBoth(a: seq<Place>, b: seq<Place>)
    requires Sorted(a) && Sorted(b)
    ensures Sorted(Under(0, a) + Under(1, b))
  {
    SortedUnder(0, a);
    SortedUnder(1, b);
    forall i, j | 0 <= i < |a| && 0 <= j < |b| ensures Before(Under(0, a)[i], Under(1, b)[j]) {
      var c, d := Under(0, a)[i].path, Under(1, b)[j].path;
      assert c[..0] == d[..0] && c[0] < d[0];
    }
  }

  /** They are in document order. */
  lemma {:induction false} PlacesAreSorted(q: Algebra)
    ensures Sorted(Places(q))
    decreases q
  {
    match q
    case Bgp(_) =>
    case Join(p1, p2) => PlacesAreSorted(p1); PlacesAreSorted(p2); SortedBoth(Places(p1), Places(p2));
    case LeftJoin(p1, p2, _) => PlacesAreSorted(p1); PlacesAreSorted(p2); SortedBoth(Places(p1), Places(p2));
    case Union(p1, p2) => PlacesAreSorted(p1); PlacesAreSorted(p2); SortedBoth(Places(p1), Places(p2));
    case Minus(p1, _) => PlacesAreSorted(p1); SortedUnder(0, Places(p1));
    case Filter(p, _) => PlacesAreSorted(p); SortedUnder(0, Places(p));
    case Extend(p, _, _) => PlacesAreSorted(p); SortedUnder(0, Places(p));
    case Values(_) =>
    case Graph(_, p) => PlacesAreSorted(p); SortedUnder(0, Places(p));
    case Project(p, _) => PlacesAreSorted(p); SortedUnder(0, Places(p));
  }

  // ---- what is listed for a place ----

  /** A triple with a node or a path in it is not listed, nor one in a group without a witness. */
  predicate Lists(root: Algebra, node: Algebra, p: Place)
    requires IsPlace(node, p)
  {
    Emittable(TripleAt(node, p)) && forall g :: g in GroupsOn(node, p.path) ==> Witness(root, g) != {}
  }

  function PatternAt(root: Algebra, node: Algebra, when: seq<set<string>>, p: Place): seq<Pattern> {
    if IsPlace(node, p) && Lists(root, node, p)
    then [Pattern(TripleAt(node, p), when + Witnesses(root, GroupsOn(node, p.path)))] else []
  }

  function PatternsAt(root: Algebra, node: Algebra, when: seq<set<string>>, ps: seq<Place>): seq<Pattern> {
    if ps == [] then [] else PatternAt(root, node, when, ps[0]) + PatternsAt(root, node, when, ps[1..])
  }

  lemma {:induction false} PatternsAppend(root: Algebra, node: Algebra, when: seq<set<string>>, a: seq<Place>,
                                          b: seq<Place>)
    ensures PatternsAt(root, node, when, a + b) == PatternsAt(root, node, when, a) + PatternsAt(root, node, when, b)
    decreases |a|
  {
    if a == [] {
      assert a + b == b;
    } else {
      assert (a + b)[1..] == a[1..] + b;
      PatternsAppend(root, node, when, a[1..], b);
    }
  }

  /** What stands under a child is listed as in the child, within the group the step opens. */
  lemma PatternUnder(root: Algebra, node: Algebra, when: seq<set<string>>, step: nat, p: Place)
    requires step < |Children(node)|
    ensures
      var child := Children(node)[step];
      PatternAt(root, node, when, Place([step] + p.path, p.k))
      == if !Opens(node, step) then PatternAt(root, child, when, p)
         else if Witness(root, child) == {} then []
         else PatternAt(root, child, when + [Witness(root, child)], p)
  {
    var child, here := Children(node)[step], Place([step] + p.path, p.k);
    StepDown(node, step, p);
    if !IsPlace(child, p) {
      assert !IsPlace(node, here);
    } else if Opens(node, step) {
      InGroup(root, node, when, child, p, here);
    } else {
      assert [] + GroupsOn(child, p.path) == GroupsOn(child, p.path);
    }
  }

  lemma StepDown(node: Algebra, step: nat, p: Place)
    requires step < |Children(node)|
    ensures
      var child, here := Children(node)[step], Place([step] + p.path, p.k);
      && (IsPlace(node, here) <==> IsPlace(child, p))
      && (IsPlace(child, p) ==>
            TripleAt(node, here) == TripleAt(child, p)
            && GroupsOn(node, here.path) == (if Opens(node, step) then [child] else []) + GroupsOn(child, p.path))
  {
    assert ([step] + p.path)[1..] == p.path;
  }

  lemma InGroup(root: Algebra, node: Algebra, when: seq<set<string>>, child: Algebra, p: Place, here: Place)
    requires IsPlace(child, p) && IsPlace(node, here) && TripleAt(node, here) == TripleAt(child, p)
    requires GroupsOn(node, here.path) == [child] + GroupsOn(child, p.path)
    ensures PatternAt(root, node, when, here)
         == if Witness(root, child) == {} then [] else PatternAt(root, child, when + [Witness(root, child)], p)
  {
    ListsInGroup(root, node, child, p, here);
    WhenInGroup(root, when, child, GroupsOn(child, p.path));
  }

  lemma ListsInGroup(root: Algebra, node: Algebra, child: Algebra, p: Place, here: Place)
    requires IsPlace(child, p) && IsPlace(node, here) && TripleAt(node, here) == TripleAt(child, p)
    requires GroupsOn(node, here.path) == [child] + GroupsOn(child, p.path)
    ensures Lists(root, node, here) <==> Witness(root, child) != {} && Lists(root, child, p)
  {
    var inner := GroupsOn(child, p.path);
    assert forall g :: g in [child] + inner <==> g == child || g in inner;
  }

  lemma WhenInGroup(root: Algebra, when: seq<set<string>>, child: Algebra, inner: seq<Algebra>)
    ensures when + Witnesses(root, [child] + inner) == when + [Witness(root, child)] + Witnesses(root, inner)
  {}

  lemma {:induction false} PatternsUnder(root: Algebra, node: Algebra, when: seq<set<string>>, step: nat,
                                         ps: seq<Place>)
    requires step < |Children(node)|
    ensures
      var child := Children(node)[step];
      PatternsAt(root, node, when, Under(step, ps))
      == if !Opens(node, step) then PatternsAt(root, child, when, ps)
         else if Witness(root, child) == {} then []
         else PatternsAt(root, child, when + [Witness(root, child)], ps)
    decreases |ps|
  {
    if ps != [] {
      assert Under(step, ps)[1..] == Under(step, ps[1..]);
      PatternUnder(root, node, when, step, ps[0]);
      PatternsUnder(root, node, when, step, ps[1..]);
    }
  }

  lemma {:induction false} BgpListed(root: Algebra, node: Algebra, when: seq<set<string>>, n: nat)
    requires node.Bgp? && n <= |node.triples|
    ensures PatternsAt(root, node, when, Places(node)[n..]) == BgpPatterns(node.triples[n..], when)
    decreases |node.triples| - n
  {
    if n < |node.triples| {
      BgpListed(root, node, when, n + 1);
      assert Places(node)[n..][1..] == Places(node)[n + 1..] && node.triples[n..][1..] == node.triples[n + 1..];
      assert Places(node)[n..][0] == Place([], n) && GroupsOn(node, []) == [];
      assert when + Witnesses(root, []) == when;
    }
  }

  lemma {:induction false} GroupLists(root: Algebra, g: Algebra, when: seq<set<string>>)
    ensures Group(root, g, when)
         == if Witness(root, g) == {} then [] else PatternsAt(root, g, when + [Witness(root, g)], Places(g))
    decreases g, 1
  {
    WalkLists(root, g, when + [Witness(root, g)]);
  }

  /** A node of one part. */
  lemma OnePart(root: Algebra, node: Algebra, part: Algebra, when: seq<set<string>>)
    requires Children(node) == [part] && !node.Union? && !node.LeftJoin? && Places(node) == Under(0, Places(part))
    ensures PatternsAt(root, node, when, Places(node)) == PatternsAt(root, part, when, Places(part))
  {
    PatternsUnder(root, node, when, 0, Places(part));
  }

  /** A node of two parts. */
  lemma TwoParts(root: Algebra, node: Algebra, when: seq<set<string>>)
    requires |Children(node)| == 2
    requires Places(node) == Under(0, Places(Children(node)[0])) + Under(1, Places(Children(node)[1]))
    ensures PatternsAt(root, node, when, Places(node))
         == PatternsAt(root, node, when, Under(0, Places(Children(node)[0])))
            + PatternsAt(root, node, when, Under(1, Places(Children(node)[1])))
  {
    PatternsAppend(root, node, when, Under(0, Places(Children(node)[0])), Under(1, Places(Children(node)[1])));
  }

  /** The walk lists the places in order. */
  lemma {:induction false} WalkLists(root: Algebra, node: Algebra, when: seq<set<string>>)
    ensures Walk(root, node, when) == PatternsAt(root, node, when, Places(node))
    decreases node, 0
  {
    match node
    case Bgp(triples) =>
      BgpListed(root, node, when, 0);
      assert Places(node)[0..] == Places(node) && triples[0..] == triples;
    case Join(p1, p2) =>
      WalkLists(root, p1, when);
      WalkLists(root, p2, when);
      TwoParts(root, node, when);
      PatternsUnder(root, node, when, 0, Places(p1));
      PatternsUnder(root, node, when, 1, Places(p2));
    case LeftJoin(p1, p2, _) =>
      WalkLists(root, p1, when);
      GroupLists(root, p2, when);
      TwoParts(root, node, when);
      PatternsUnder(root, node, when, 0, Places(p1));
      PatternsUnder(root, node, when, 1, Places(p2));
    case Union(p1, p2) =>
      GroupLists(root, p1, when);
      GroupLists(root, p2, when);
      TwoParts(root, node, when);
      PatternsUnder(root, node, when, 0, Places(p1));
      PatternsUnder(root, node, when, 1, Places(p2));
    case Minus(p1, _) => WalkLists(root, p1, when); OnePart(root, node, p1, when);
    case Filter(p, _) => WalkLists(root, p, when); OnePart(root, node, p, when);
    case Extend(p, _, _) => WalkLists(root, p, when); OnePart(root, node, p, when);
    case Values(_) =>
    case Graph(_, p) => WalkLists(root, p, when); OnePart(root, node, p, when);
    case Project(p, _) => WalkLists(root, p, when); OnePart(root, node, p, when);
  }

  // ---- the list ----

  lemma {:induction false} PatternsHas(root: Algebra, node: Algebra, when: seq<set<string>>, ps: seq<Place>, x: Pattern)
    ensures x in PatternsAt(root, node, when, ps) <==> exists p :: p in ps && x in PatternAt(root, node, when, p)
    decreases |ps|
  {
    if ps != [] {
      PatternsHas(root, node, when, ps[1..], x);
      if p :| p in ps && x in PatternAt(root, node, when, p) {
        assert p == ps[0] || p in ps[1..];
      }
      if p :| p in ps[1..] && x in PatternAt(root, node, when, p) { assert p in ps; }
    }
  }

  /** No blank node and no property path in the triple, and no literal as its predicate. */
  predicate Drawable(t: Triple) {
    && !t.s.BlankNode? && !t.s.Path? && !t.o.BlankNode? && !t.o.Path?
    && !t.p.BlankNode? && !t.p.Path? && !t.p.Literal?
  }

  /** The pattern of a place: its triple, with the witnesses of the groups on the way, none of them empty. */
  ghost predicate ListedFor(q: Algebra, p: Place, x: Pattern) {
    && IsPlace(q, p) && x.triple == TripleAt(q, p) && Drawable(x.triple)
    && |x.when| == |GroupsOn(q, p.path)|
    && forall i :: 0 <= i < |x.when| ==> x.when[i] == Witness(q, GroupsOn(q, p.path)[i]) && x.when[i] != {}
  }

  lemma DrawableIsEmittable(t: Triple)
    ensures Emittable(t) <==> Drawable(t)
  {}

  lemma AllWitnessed(q: Algebra, groups: seq<Algebra>, when: seq<set<string>>)
    ensures when == Witnesses(q, groups) && (forall g :: g in groups ==> Witness(q, g) != {})
       <==> |when| == |groups| && forall i :: 0 <= i < |when| ==> when[i] == Witness(q, groups[i]) && when[i] != {}
  {
    if forall g :: g in groups ==> Witness(q, g) != {} {
      assert forall i :: 0 <= i < |groups| ==> groups[i] in groups;
    }
  }

  lemma PatternAtIs(q: Algebra, p: Place, x: Pattern)
    ensures x in PatternAt(q, q, [], p) <==> ListedFor(q, p, x)
  {
    if IsPlace(q, p) {
      var groups := GroupsOn(q, p.path);
      DrawableIsEmittable(TripleAt(q, p));
      assert [] + Witnesses(q, groups) == Witnesses(q, groups);
      AllWitnessed(q, groups, x.when);
    }
  }

  /**
   What `query_patterns` lists, and nothing else: a triple that can be drawn, wherever it stands outside
   the right side of a MINUS, with the witnesses of each OPTIONAL body and UNION branch around it, when
   none of these is without one.
   */
  lemma ListedExactly(q: Algebra, x: Pattern)
    ensures x in Patterns(q) <==> exists p :: ListedFor(q, p, x)
  {
    AddNewHas([], Walk(q, q, []), x);
    WalkLists(q, q, []);
    PatternsHas(q, q, [], Places(q), x);
    if p :| p in Places(q) && x in PatternAt(q, q, [], p) { PatternAtIs(q, p, x); }
    if p :| ListedFor(q, p, x) {
      PlacesAreAll(q, p);
      PatternAtIs(q, p, x);
    }
  }

  // ---- the order of the list ----

  /** The places that list a pattern, in order. */
  function Kept(q: Algebra, ps: seq<Place>): seq<Place> {
    if ps == [] then [] else (if PatternAt(q, q, [], ps[0]) == [] then [] else [ps[0]]) + Kept(q, ps[1..])
  }

  lemma {:induction false} KeptHas(q: Algebra, ps: seq<Place>, p: Place)
    ensures p in Kept(q, ps) <==> p in ps && PatternAt(q, q, [], p) != []
    decreases |ps|
  {
    if ps != [] {
      KeptHas(q, ps[1..], p);
      assert p in ps <==> p == ps[0] || p in ps[1..];
    }
  }

  lemma SortedCons(p: Place, rest: seq<Place>)
    requires Sorted(rest) && forall x :: x in rest ==> Before(p, x)
    ensures Sorted([p] + rest)
  {}

  lemma SortedRest(ps: seq<Place>)
    requires Sorted(ps) && ps != []
    ensures Sorted(ps[1..])
  {}

  lemma {:induction false} KeptSorted(q: Algebra, ps: seq<Place>)
    requires Sorted(ps)
    ensures Sorted(Kept(q, ps))
    decreases |ps|
  {
    if ps != [] {
      var rest := Kept(q, ps[1..]);
      SortedRest(ps);
      KeptSorted(q, ps[1..]);
      if PatternAt(q, q, [], ps[0]) == [] {
        assert [] + rest == rest;
      } else {
        forall x | x in rest ensures Before(ps[0], x) {
          KeptHas(q, ps[1..], x);
          BeforeRest(ps, x);
        }
        SortedCons(ps[0], rest);
      }
    }
  }

  lemma BeforeRest(ps: seq<Place>, p: Place)
    requires Sorted(ps) && ps != [] && p in ps[1..]
    ensures Before(ps[0], p)
  {
    var j :| 0 <= j < |ps[1..]| && ps[1..][j] == p;
    assert ps[j + 1] == p;
  }

  lemma {:induction false} KeptPatterns(q: Algebra, ps: seq<Place>)
    ensures |Kept(q, ps)| == |PatternsAt(q, q, [], ps)|
    ensures forall m :: 0 <= m < |Kept(q, ps)| ==> PatternAt(q, q, [], Kept(q, ps)[m]) == [PatternsAt(q, q, [], ps)[m]]
    decreases |ps|
  {
    if ps != [] {
      KeptPatterns(q, ps[1..]);
      var rest, all := Kept(q, ps[1..]), PatternsAt(q, q, [], ps[1..]);
      if PatternAt(q, q, [], ps[0]) == [] { assert [] + rest == rest && [] + all == all; }
    }
  }

  lemma OnlyAfter(q: Algebra, ls: seq<Place>, walk: seq<Pattern>, at: seq<nat>, i: nat, j: nat, b: Place)
    requires Sorted(ls) && |ls| == |walk| && (forall m :: 0 <= m < |ls| ==> PatternAt(q, q, [], ls[m]) == [walk[m]])
    requires FirstPlaces(walk, AddNew([], walk), at) && i < j < |at|
    requires b in ls && PatternAt(q, q, [], b) == [AddNew([], walk)[j]]
    ensures Before(ls[at[i]], b)
  {
    var m :| 0 <= m < |ls| && ls[m] == b;
    assert walk[m] == AddNew([], walk)[j];
    assert at[j] <= m;
  }

  /**
   The list is in document order: of two patterns the one before stands somewhere before every place
   of the one behind.
   */
  lemma ListedInOrder(q: Algebra, i: nat, j: nat) returns (a: Place)
    requires i < j < |Patterns(q)|
    ensures ListedFor(q, a, Patterns(q)[i])
    ensures forall b :: ListedFor(q, b, Patterns(q)[j]) ==> Before(a, b)
  {
    var walk := Walk(q, q, []);
    WalkLists(q, q, []);
    PlacesAreSorted(q);
    var ls := Kept(q, Places(q));
    KeptSorted(q, Places(q));
    KeptPatterns(q, Places(q));
    var at := FirstsInOrder(walk);
    a := ls[at[i]];
    PatternAtIs(q, a, Patterns(q)[i]);
    forall b | ListedFor(q, b, Patterns(q)[j]) ensures Before(a, b) {
      PlacesAreAll(q, b);
      PatternAtIs(q, b, Patterns(q)[j]);
      KeptHas(q, Places(q), b);
      OnlyAfter(q, ls, walk, at, i, j, b);
    }
  }

  // ---- the witnesses of a group ----

  /** The node binds the variable itself: in a triple, as a BIND, or as the name of a graph. */
  predicate BindsHere(q: Algebra, v: string) {
    match q
    case Bgp(triples) => exists k :: 0 <= k < |triples| && v in TripleVars(triples[k])
    case Extend(_, bound, _) => v == bound
    case Graph(name, _) => name == Var(v)
    case _ => false
  }

  predicate BindsAt(q: Algebra, path: Path, v: string) {
    IsPath(q, path) && BindsHere(NodeAt(q, path), v)
  }

  lemma BindsUnder(q: Algebra, path: Path, v: string)
    requires path != [] && path[0] < |Children(q)|
    ensures BindsAt(q, path, v) <==> BindsAt(Children(q)[path[0]], path[1..], v)
  {}

  /** How many places the node itself is. */
  function OwnSites(q: Algebra, v: string): nat {
    match q
    case Bgp(triples) => TripleSites(triples, v)
    case Extend(_, bound, _) => if v == bound then 1 else 0
    case Graph(name, _) => if v in TermVars(name) then 1 else 0
    case _ => 0
  }

  function ChildSites(qs: seq<Algebra>, v: string): nat {
    if qs == [] then 0 else Sites(qs[0], v) + ChildSites(qs[1..], v)
  }

  lemma SitesAdd(q: Algebra, v: string)
    ensures Sites(q, v) == OwnSites(q, v) + ChildSites(Children(q), v)
  {
    match q
    case Bgp(_) =>
    case Join(p1, p2) => TwoChildren(p1, p2, v);
    case LeftJoin(p1, p2, _) => TwoChildren(p1, p2, v);
    case Union(p1, p2) => TwoChildren(p1, p2, v);
    case Minus(p1, _) => OneChild(p1, v);
    case Filter(p, _) => OneChild(p, v);
    case Extend(p, _, _) => OneChild(p, v);
    case Values(_) =>
    case Graph(_, p) => OneChild(p, v);
    case Project(p, _) => OneChild(p, v);
  }

  lemma OneChild(p: Algebra, v: string)
    ensures ChildSites([p], v) == Sites(p, v)
  {
    assert [p][1..] == [];
  }

  lemma TwoChildren(p1: Algebra, p2: Algebra, v: string)
    ensures ChildSites([p1, p2], v) == Sites(p1, v) + Sites(p2, v)
  {
    assert [p1, p2][1..] == [p2];
    OneChild(p2, v);
  }

  lemma OwnSitesBind(q: Algebra, v: string)
    ensures OwnSites(q, v) > 0 <==> BindsHere(q, v)
  {
    if q.Bgp? {
      TripleSitesPositive(q.triples, v);
      if t :| t in q.triples && v in TripleVars(t) { var k :| 0 <= k < |q.triples| && q.triples[k] == t; }
    }
  }

  lemma {:induction false} SomeChild(qs: seq<Algebra>, v: string)
    ensures ChildSites(qs, v) > 0 <==> exists i :: 0 <= i < |qs| && Sites(qs[i], v) > 0
    decreases |qs|
  {
    if qs != [] {
      SomeChild(qs[1..], v);
      if i :| 0 <= i < |qs[1..]| && Sites(qs[1..][i], v) > 0 { assert qs[i + 1] == qs[1..][i]; }
      if i :| 0 <= i < |qs| && Sites(qs[i], v) > 0 { assert i == 0 || qs[1..][i - 1] == qs[i]; }
    }
  }

  /** There is a site exactly where some place binds the variable. */
  lemma {:induction false} SitesArePlaces(q: Algebra, v: string)
    ensures Sites(q, v) > 0 <==> exists path :: BindsAt(q, path, v)
    decreases q
  {
    SitesAdd(q, v);
    OwnSitesBind(q, v);
    SomeChild(Children(q), v);
    forall c | c in Children(q) ensures Sites(c, v) > 0 <==> exists path :: BindsAt(c, path, v) {
      SitesArePlaces(c, v);
    }
    if BindsHere(q, v) { assert BindsAt(q, [], v); }
    if i :| 0 <= i < |Children(q)| && Sites(Children(q)[i], v) > 0 {
      var c := Children(q)[i];
      assert c in Children(q);
      var path :| BindsAt(c, path, v);
      assert ([i] + path)[1..] == path;
      BindsUnder(q, [i] + path, v);
    }
    if path :| BindsAt(q, path, v) {
      if path != [] {
        BindsUnder(q, path, v);
        assert Children(q)[path[0]] in Children(q);
      }
    }
  }

  /** The variable is bound somewhere, and nowhere but under this way. */
  ghost predicate OwnedAt(q: Algebra, way: Path, v: string) {
    (exists path :: BindsAt(q, path, v)) && forall path :: BindsAt(q, path, v) ==> way <= path
  }

  lemma {:induction false} ChildCount(qs: seq<Algebra>, v: string, i: nat)
    requires i < |qs|
    ensures Sites(qs[i], v) <= ChildSites(qs, v)
    ensures Sites(qs[i], v) == ChildSites(qs, v) <==> forall j :: 0 <= j < |qs| && j != i ==> Sites(qs[j], v) == 0
    decreases |qs|
  {
    SomeChild(qs[1..], v);
    if i > 0 {
      ChildCount(qs[1..], v, i - 1);
      assert qs[1..][i - 1] == qs[i];
      assert forall j :: 0 <= j < |qs[1..]| ==> qs[1..][j] == qs[j + 1];
    } else {
      assert forall j :: 0 <= j < |qs[1..]| ==> qs[1..][j] == qs[j + 1];
    }
  }

  lemma {:induction false} SitesOnTheWay(q: Algebra, way: Path, v: string)
    requires IsPath(q, way)
    ensures Sites(NodeAt(q, way), v) <= Sites(q, v)
    ensures Sites(NodeAt(q, way), v) == Sites(q, v) <==> forall path :: BindsAt(q, path, v) ==> way <= path
    decreases |way|
  {
    if way != [] {
      var i, cs := way[0], Children(q);
      SitesOnTheWay(cs[i], way[1..], v);
      SitesAdd(q, v);
      ChildCount(cs, v, i);
      OwnSitesBind(q, v);
      forall j | 0 <= j < |cs| ensures Sites(cs[j], v) > 0 <==> exists path :: BindsAt(cs[j], path, v) {
        SitesArePlaces(cs[j], v);
      }
      WayThrough(q, way, v);
    }
  }

  /**
   All places are under the way exactly when none is here or under another child, and all there are
   under the rest.
   */
  lemma WayThrough(q: Algebra, way: Path, v: string)
    requires IsPath(q, way) && way != []
    ensures (forall path :: BindsAt(q, path, v) ==> way <= path)
       <==> && !BindsHere(q, v)
            && (forall j, path :: 0 <= j < |Children(q)| && j != way[0] ==> !BindsAt(Children(q)[j], path, v))
            && forall path :: BindsAt(Children(q)[way[0]], path, v) ==> way[1..] <= path
  {
    var cs := Children(q);
    if forall path :: BindsAt(q, path, v) ==> way <= path {
      assert BindsHere(q, v) ==> BindsAt(q, [], v);
      forall j, path | 0 <= j < |cs| && BindsAt(cs[j], path, v) ensures j == way[0] && way[1..] <= path {
        assert ([j] + path)[1..] == path;
        BindsUnder(q, [j] + path, v);
        assert way <= [j] + path;
      }
    } else {
      var path :| BindsAt(q, path, v) && !(way <= path);
      if path != [] {
        BindsUnder(q, path, v);
        NotUnder(way, path);
      }
    }
  }

  lemma NotUnder(way: Path, path: Path)
    requires way != [] && path != [] && !(way <= path)
    ensures path[0] != way[0] || !(way[1..] <= path[1..])
  {}

  /** A group's witnesses are the variables that nothing outside the group can bind, and something in it can. */
  lemma WitnessIsOwn(q: Algebra, way: Path, v: string)
    requires IsPath(q, way)
    ensures v in Witness(q, NodeAt(q, way)) <==> OwnedAt(q, way, v)
  {
    SitesOnTheWay(q, way, v);
    SiteVarsAreSites(NodeAt(q, way), v);
    SitesArePlaces(q, v);
  }
}
