/**
 The token bucket under threads. A call has no lock: it reads the clock, looks up the key's last
 refill, looks up its tokens, writes the one and writes the other, and the calls of any number of
 threads can come between.
 */
module RateThreads {
  import opened RateLimit

  /** The capacity and what it earns. */
  datatype Rate = Rate(capacity: int, earn: Earnings)

  /** Where a call is; `current` is what it found the key to have. */
  datatype Phase =
    | Begun
    | KnowsLast(last: real)
    | Knows(current: real)
    | Dated(current: real)
    | Answered(granted: bool)

  datatype Thread = Thread(key: string, at: real, phase: Phase)

  datatype Server = Server(book: Book, threads: seq<Thread>, now: real)

  function Start(now: real): Server {
    Server(EMPTY, [], now)
  }

  datatype Step =
    | Begin(key: string, at: real)
    | GetLast(t: nat)
    | GetTokens(t: nat)
    | SetLast(t: nat)
    | SetTokens(t: nat)

  predicate Known(s: Server, t: nat) {
    t < |s.threads|
  }

  /** The clock does not go back. */
  predicate Enabled(s: Server, step: Step) {
    match step
    case Begin(_, at) => s.now <= at
    case GetLast(t) => Known(s, t) && s.threads[t].phase.Begun?
    case GetTokens(t) => Known(s, t) && s.threads[t].phase.KnowsLast?
    case SetLast(t) => Known(s, t) && s.threads[t].phase.Knows?
    case SetTokens(t) => Known(s, t) && s.threads[t].phase.Dated?
  }

  function LastOf(book: Book, key: string, at: real): real {
    if key in book.lastRefill then book.lastRefill[key] else at
  }

  function TokensOf(r: Rate, book: Book, key: string): real {
    if key in book.tokens then book.tokens[key] else r.capacity as real
  }

  function Filled(r: Rate, tokens: real, last: real, at: real): real {
    Min(r.capacity as real, tokens + r.earn(last, at))
  }

  /** What the key has at an instant, if one call reads it undisturbed. */
  function Holds(r: Rate, book: Book, key: string, at: real): real {
    Filled(r, TokensOf(r, book, key), LastOf(book, key, at), at)
  }

  function Spent(current: real): real {
    if current >= 1.0 then current - 1.0 else current
  }

  function Moved(s: Server, t: nat, phase: Phase): Server
    requires Known(s, t)
  {
    s.(threads := s.threads[t := s.threads[t].(phase := phase)])
  }

  function Next(r: Rate, s: Server, step: Step): Server
    requires Enabled(s, step)
  {
    match step
    case Begin(key, at) => s.(threads := s.threads + [Thread(key, at, Begun)], now := at)
    case GetLast(t) => Moved(s, t, KnowsLast(LastOf(s.book, s.threads[t].key, s.threads[t].at)))
    case GetTokens(t) =>
      var tokens := TokensOf(r, s.book, s.threads[t].key);
      Moved(s, t, Knows(Filled(r, tokens, s.threads[t].phase.last, s.threads[t].at)))
    case SetLast(t) =>
      var book := s.book.(lastRefill := s.book.lastRefill[s.threads[t].key := s.threads[t].at]);
      Moved(s.(book := book), t, Dated(s.threads[t].phase.current))
    case SetTokens(t) =>
      var current := s.threads[t].phase.current;
      var book := s.book.(tokens := s.book.tokens[s.threads[t].key := Spent(current)]);
      Moved(s.(book := book), t, Answered(current >= 1.0))
  }

  predicate Legal(r: Rate, s: Server, steps: seq<Step>)
    decreases |steps|
  {
    steps == [] || (Enabled(s, steps[0]) && Legal(r, Next(r, s, steps[0]), steps[1..]))
  }

  function After(r: Rate, s: Server, steps: seq<Step>): Server
    requires Legal(r, s, steps)
    decreases |steps|
  {
    if steps == [] then s else After(r, Next(r, s, steps[0]), steps[1..])
  }

  predicate ActiveAt(s: Server, key: string, t: nat) {
    Known(s, t) && s.threads[t].key == key && !s.threads[t].phase.Answered?
  }

  predicate Quiet(s: Server, key: string) {
    forall t :: 0 <= t < |s.threads| ==> !ActiveAt(s, key, t)
  }

  /** A call of the key begins while another one of it is under way. */
  predicate Overlaps(s: Server, step: Step, key: string) {
    step.Begin? && step.key == key && !Quiet(s, key)
  }

  predicate NeverOverlaps(r: Rate, s: Server, steps: seq<Step>, key: string)
    requires Legal(r, s, steps)
    decreases |steps|
  {
    steps == [] || (!Overlaps(s, steps[0], key) && NeverOverlaps(r, Next(r, s, steps[0]), steps[1..], key))
  }

  // ---- one call, undisturbed ----

  /** Five steps without any other between them are the call of the sequential bucket. */
  lemma UndisturbedIsCalled(r: Rate, s: Server, key: string, at: real)
    requires s.now <= at
    ensures var t := |s.threads|;
            var run := [Begin(key, at), GetLast(t), GetTokens(t), SetLast(t), SetTokens(t)];
            && Legal(r, s, run)
            && After(r, s, run) == AfterCall(r, s, key, at)
  {
    var t := |s.threads|;
    var s1 := Next(r, s, Begin(key, at));
    var s2 := Next(r, s1, GetLast(t));
    var s3 := Next(r, s2, GetTokens(t));
    var s4 := Next(r, s3, SetLast(t));
    CallSteps(r, s, key, at);
    var run := [Begin(key, at), GetLast(t), GetTokens(t), SetLast(t), SetTokens(t)];
    FiveSteps(r, s, s1, s2, s3, s4, run);
  }

  /** What the sequential bucket makes of the call. */
  function AfterCall(r: Rate, s: Server, key: string, at: real): Server {
    Server(Called(r.capacity, r.earn, s.book, key, at),
           s.threads + [Thread(key, at, Answered(IsAllowed(r.capacity, r.earn, s.book, key, at)))], at)
  }

  lemma CallSteps(r: Rate, s: Server, key: string, at: real)
    requires s.now <= at
    ensures var t := |s.threads|;
            var s1 := Next(r, s, Begin(key, at));
            Enabled(s1, GetLast(t)) &&
            var s2 := Next(r, s1, GetLast(t));
            Enabled(s2, GetTokens(t)) &&
            var s3 := Next(r, s2, GetTokens(t));
            Enabled(s3, SetLast(t)) &&
            var s4 := Next(r, s3, SetLast(t));
            Enabled(s4, SetTokens(t)) && Next(r, s4, SetTokens(t)) == AfterCall(r, s, key, at)
  {
    var t := |s.threads|;
    var s1 := Next(r, s, Begin(key, at));
    var s2 := Next(r, s1, GetLast(t));
    var s3 := Next(r, s2, GetTokens(t));
    var s4 := Next(r, s3, SetLast(t));
    assert s3.threads[t].phase == Knows(Level(r.capacity, r.earn, s.book, key, at));
    assert Next(r, s4, SetTokens(t)).threads == AfterCall(r, s, key, at).threads;
  }

  lemma FiveSteps(r: Rate, s: Server, s1: Server, s2: Server, s3: Server, s4: Server, run: seq<Step>)
    requires |run| == 5
    requires Enabled(s, run[0]) && s1 == Next(r, s, run[0]) && Enabled(s1, run[1]) && s2 == Next(r, s1, run[1])
    requires Enabled(s2, run[2]) && s3 == Next(r, s2, run[2]) && Enabled(s3, run[3]) && s4 == Next(r, s3, run[3])
    requires Enabled(s4, run[4])
    ensures Legal(r, s, run) && After(r, s, run) == Next(r, s4, run[4])
  {
    assert run[1..][1..] == run[2..] && run[2..][1..] == run[3..] && run[3..][1..] == run[4..] && run[4..][1..] == [];
    assert Legal(r, Next(r, s4, run[4]), []);
    assert Legal(r, s4, run[4..]) && Legal(r, s3, run[3..]) && Legal(r, s2, run[2..]) && Legal(r, s1, run[1..]);
    assert After(r, s4, run[4..]) == Next(r, s4, run[4]) && After(r, s3, run[3..]) == After(r, s4, run[4..]);
    assert After(r, s2, run[2..]) == After(r, s3, run[3..]) && After(r, s1, run[1..]) == After(r, s2, run[2..]);
  }

  // ---- counting the grants of a window ----

  /** Whether a call counts: the key's, granted, its clock reading in the window. */
  function One(x: Thread, key: string, a: real, b: real): nat {
    if x.key == key && x.phase == Answered(true) && a <= x.at <= b then 1 else 0
  }

  function Grants(threads: seq<Thread>, key: string, a: real, b: real): nat {
    if threads == [] then 0 else One(threads[0], key, a, b) + Grants(threads[1..], key, a, b)
  }

  lemma {:induction false} GrantsAppend(threads: seq<Thread>, x: Thread, key: string, a: real, b: real)
    ensures Grants(threads + [x], key, a, b) == Grants(threads, key, a, b) + One(x, key, a, b)
  {
    if threads == [] {
      assert threads + [x] == [x];
    } else {
      assert (threads + [x])[1..] == threads[1..] + [x];
      GrantsAppend(threads[1..], x, key, a, b);
    }
  }

  lemma {:induction false} GrantsUpdate(threads: seq<Thread>, t: nat, x: Thread, key: string, a: real, b: real)
    requires t < |threads|
    ensures Grants(threads[t := x], key, a, b) + One(threads[t], key, a, b)
         == Grants(threads, key, a, b) + One(x, key, a, b)
  {
    if t == 0 {
      assert threads[t := x][1..] == threads[1..];
    } else {
      assert threads[t := x][1..] == threads[1..][t - 1 := x];
      GrantsUpdate(threads[1..], t - 1, x, key, a, b);
    }
  }

  /** Every granted call of the key read the clock no later than `upto`. */
  predicate GrantedBy(threads: seq<Thread>, key: string, upto: real) {
    forall t :: 0 <= t < |threads| && threads[t].key == key && threads[t].phase == Answered(true)
      ==> threads[t].at <= upto
  }

  /** Then only the part of a window up to there counts. */
  lemma {:induction false} GrantsEnd(threads: seq<Thread>, key: string, a: real, b: real, upto: real)
    requires GrantedBy(threads, key, upto) && upto <= b
    ensures Grants(threads, key, a, b) == Grants(threads, key, a, upto)
    ensures upto < a ==> Grants(threads, key, a, b) == 0
  {
    if threads != [] {
      assert forall t :: 0 <= t < |threads[1..]| ==> threads[1..][t] == threads[t + 1];
      GrantsEnd(threads[1..], key, a, b, upto);
    }
  }

  lemma {:induction false} GrantsMonotone(threads: seq<Thread>, key: string, a: real, b: real, a': real, b': real)
    requires a' <= a && b <= b'
    ensures Grants(threads, key, a, b) <= Grants(threads, key, a', b')
  {
    if threads != [] { GrantsMonotone(threads[1..], key, a, b, a', b'); }
  }

  /** The window bound: no window grants more than the capacity and what it earns. */
  ghost predicate Within(r: Rate, threads: seq<Thread>, key: string) {
    forall a, b :: a <= b ==> Grants(threads, key, a, b) as real <= r.capacity as real + r.earn(a, b)
  }

  /** What every window up to `upto` has granted leaves room for `level` more. */
  ghost predicate Leaves(r: Rate, threads: seq<Thread>, key: string, upto: real, level: real) {
    forall a :: a <= upto ==> Grants(threads, key, a, upto) as real + level <= r.capacity as real + r.earn(a, upto)
  }

  /** And some window has no room for more. */
  ghost predicate Tight(r: Rate, threads: seq<Thread>, key: string, upto: real, level: real) {
    exists a :: a <= upto && Grants(threads, key, a, upto) as real + level == r.capacity as real + r.earn(a, upto)
  }

  ghost predicate Room(r: Rate, threads: seq<Thread>, key: string, upto: real, level: real, exact: bool) {
    Leaves(r, threads, key, upto, level) && (exact ==> Tight(r, threads, key, upto, level))
  }

  ghost predicate Proper(r: Rate) {
    r.capacity >= 1 && Steady(r.earn)
  }

  ghost predicate SameGrants(a: seq<Thread>, b: seq<Thread>, key: string) {
    forall from, to :: Grants(a, key, from, to) == Grants(b, key, from, to)
  }

  lemma SameRoom(r: Rate, a: seq<Thread>, b: seq<Thread>, key: string, upto: real, level: real, exact: bool)
    requires SameGrants(a, b, key) && Room(r, a, key, upto, level, exact)
    ensures Room(r, b, key, upto, level, exact)
  {
    if exact {
      var from :| from <= upto && Grants(a, key, from, upto) as real + level == r.capacity as real + r.earn(from, upto);
      assert Grants(b, key, from, upto) as real + level == r.capacity as real + r.earn(from, upto);
    }
  }

  lemma SameWithin(r: Rate, a: seq<Thread>, b: seq<Thread>, key: string)
    requires SameGrants(a, b, key) && Within(r, a, key)
    ensures Within(r, b, key)
  {}

  lemma NothingEarnedAtOnce(r: Rate, at: real)
    requires Steady(r.earn)
    ensures r.earn(at, at) == 0.0
  {
    assert r.earn(at, at) == r.earn(at, at) + r.earn(at, at);
  }

  /** With time the room grows as the level does, up to the capacity. */
  lemma RoomLater(r: Rate, threads: seq<Thread>, key: string, upto: real, level: real, later: real, exact: bool)
    requires Proper(r) && upto <= later && GrantedBy(threads, key, upto) && level <= r.capacity as real
    requires Room(r, threads, key, upto, level, exact)
    ensures Room(r, threads, key, later, Filled(r, level, upto, later), exact)
  {
    LeavesLater(r, threads, key, upto, level, later);
    if exact { TightLater(r, threads, key, upto, level, later); }
  }

  lemma LeavesLater(r: Rate, threads: seq<Thread>, key: string, upto: real, level: real, later: real)
    requires Proper(r) && upto <= later && GrantedBy(threads, key, upto) && Leaves(r, threads, key, upto, level)
    ensures Leaves(r, threads, key, later, Filled(r, level, upto, later))
  {
    forall a | a <= later
      ensures Grants(threads, key, a, later) as real + Filled(r, level, upto, later)
           <= r.capacity as real + r.earn(a, later)
    {
      GrantsEnd(threads, key, a, later, upto);
      if a <= upto {
        assert r.earn(a, later) == r.earn(a, upto) + r.earn(upto, later);
      } else {
        assert r.earn(a, later) >= 0.0;
      }
    }
  }

  lemma TightLater(r: Rate, threads: seq<Thread>, key: string, upto: real, level: real, later: real)
    requires Proper(r) && upto <= later && GrantedBy(threads, key, upto) && Tight(r, threads, key, upto, level)
    requires level <= r.capacity as real
    ensures Tight(r, threads, key, later, Filled(r, level, upto, later))
  {
    NothingEarnedAtOnce(r, later);
    if level + r.earn(upto, later) <= r.capacity as real {
      var a :| a <= upto && Grants(threads, key, a, upto) as real + level == r.capacity as real + r.earn(a, upto);
      GrantsEnd(threads, key, a, later, upto);
      assert r.earn(a, later) == r.earn(a, upto) + r.earn(upto, later);
      assert Grants(threads, key, a, later) as real + Filled(r, level, upto, later)
        == r.capacity as real + r.earn(a, later);
    } else {
      assert upto < later;
      GrantsEnd(threads, key, later, later, upto);
      assert Grants(threads, key, later, later) as real + Filled(r, level, upto, later)
          == r.capacity as real + r.earn(later, later);
    }
  }

  // ---- the order of calls that do not overlap ----

  /** The key's entry is whole, dated no later than `upto` and within the capacity. */
  predicate EntrySound(r: Rate, book: Book, key: string, upto: real) {
    && (key in book.tokens <==> key in book.lastRefill)
    && (key in book.tokens ==> book.lastRefill[key] <= upto && 0.0 <= book.tokens[key] <= r.capacity as real)
  }

  lemma HoldsBounds(r: Rate, book: Book, key: string, upto: real)
    requires Proper(r) && EntrySound(r, book, key, upto)
    ensures 0.0 <= Holds(r, book, key, upto) <= r.capacity as real
  {
    NothingEarnedAtOnce(r, upto);
  }

  lemma HoldsLater(r: Rate, book: Book, key: string, upto: real, later: real)
    requires Proper(r) && EntrySound(r, book, key, upto) && upto <= later
    ensures Holds(r, book, key, later) == Filled(r, Holds(r, book, key, upto), upto, later)
  {
    NothingEarnedAtOnce(r, upto);
    NothingEarnedAtOnce(r, later);
    assert r.earn(upto, later) >= 0.0;
    if key in book.lastRefill {
      assert r.earn(book.lastRefill[key], later) == r.earn(book.lastRefill[key], upto) + r.earn(upto, later);
    }
  }

  /** Call `t` is the one of the key under way, and the last that began. */
  predicate Lone(s: Server, key: string, t: nat) {
    && ActiveAt(s, key, t)
    && forall v :: 0 <= v < |s.threads| && s.threads[v].key == key ==>
         s.threads[v].at <= s.threads[t].at && (v != t ==> s.threads[v].phase.Answered?)
  }

  /** What the call under way knows, and what it leaves room for. */
  ghost predicate OnItsWay(r: Rate, s: Server, key: string, t: nat, exact: bool)
    requires Known(s, t)
  {
    var at := s.threads[t].at;
    match s.threads[t].phase
    case Begun =>
      EntrySound(r, s.book, key, at) && Room(r, s.threads, key, at, Holds(r, s.book, key, at), exact)
    case KnowsLast(last) =>
      && EntrySound(r, s.book, key, at) && Room(r, s.threads, key, at, Holds(r, s.book, key, at), exact)
      && last == LastOf(s.book, key, at)
    case Knows(current) =>
      && 0.0 <= current <= r.capacity as real && Room(r, s.threads, key, at, current, exact)
      && (exact ==> EntrySound(r, s.book, key, at) && current == Holds(r, s.book, key, at))
    case Dated(current) =>
      && 0.0 <= current <= r.capacity as real && Room(r, s.threads, key, at, current, exact)
      && key in s.book.lastRefill && s.book.lastRefill[key] == at
      && (exact ==> 0.0 <= TokensOf(r, s.book, key) <= r.capacity as real)
    case Answered(_) => true
  }

  predicate Dates(s: Server) {
    forall t :: 0 <= t < |s.threads| ==> s.threads[t].at <= s.now
  }

  ghost predicate Resting(r: Rate, s: Server, key: string, exact: bool) {
    && Quiet(s, key) && EntrySound(r, s.book, key, s.now)
    && Room(r, s.threads, key, s.now, Holds(r, s.book, key, s.now), exact)
  }

  /** The calls of the key come one after the other, and what they granted leaves room for what it has. */
  ghost predicate Orderly(r: Rate, s: Server, key: string, exact: bool) {
    && Dates(s)
    && (Resting(r, s, key, exact)
        || exists t :: 0 <= t < |s.threads| && Lone(s, key, t) && OnItsWay(r, s, key, t, exact))
  }

  function KeyOf(s: Server, step: Step): string
    requires Enabled(s, step)
  {
    match step
    case Begin(key, _) => key
    case GetLast(t) => s.threads[t].key
    case GetTokens(t) => s.threads[t].key
    case SetLast(t) => s.threads[t].key
    case SetTokens(t) => s.threads[t].key
  }

  // ---- a step of another key ----

  /** The key's entry and its calls are as they were. */
  predicate SameView(s: Server, u: Server, key: string) {
    && (key in u.book.tokens <==> key in s.book.tokens)
    && (key in s.book.tokens ==> u.book.tokens[key] == s.book.tokens[key])
    && (key in u.book.lastRefill <==> key in s.book.lastRefill)
    && (key in s.book.lastRefill ==> u.book.lastRefill[key] == s.book.lastRefill[key])
    && s.now <= u.now && |s.threads| <= |u.threads|
    && (forall t :: 0 <= t < |s.threads| && s.threads[t].key == key ==> u.threads[t] == s.threads[t])
    && (forall t :: 0 <= t < |u.threads| && u.threads[t].key == key ==> t < |s.threads| && s.threads[t].key == key)
  }

  lemma OtherKeyView(r: Rate, s: Server, step: Step, key: string)
    requires Enabled(s, step) && KeyOf(s, step) != key
    ensures SameView(s, Next(r, s, step), key) && SameGrants(s.threads, Next(r, s, step).threads, key)
  {
    var u := Next(r, s, step);
    forall a, b ensures Grants(u.threads, key, a, b) == Grants(s.threads, key, a, b) {
      if step.Begin? {
        GrantsAppend(s.threads, u.threads[|s.threads|], key, a, b);
      } else {
        GrantsUpdate(s.threads, step.t, u.threads[step.t], key, a, b);
      }
    }
  }

  lemma StepKeepsDates(r: Rate, s: Server, step: Step)
    requires Enabled(s, step) && Dates(s)
    ensures Dates(Next(r, s, step))
  {
    var u := Next(r, s, step);
    forall t | 0 <= t < |u.threads| ensures u.threads[t].at <= u.now {
      if t < |s.threads| { assert u.threads[t].at == s.threads[t].at; }
    }
  }

  lemma DatesGrantedBy(s: Server, key: string)
    requires Dates(s)
    ensures GrantedBy(s.threads, key, s.now)
  {}

  lemma RestingLater(r: Rate, s: Server, u: Server, key: string, exact: bool)
    requires Proper(r) && Resting(r, s, key, exact) && SameView(s, u, key) && SameGrants(s.threads, u.threads, key)
    requires Dates(s)
    ensures Resting(r, u, key, exact)
  {
    DatesGrantedBy(s, key);
    HoldsBounds(r, s.book, key, s.now);
    HoldsLater(r, s.book, key, s.now, u.now);
    RoomLater(r, s.threads, key, s.now, Holds(r, s.book, key, s.now), u.now, exact);
    SameRoom(r, s.threads, u.threads, key, u.now, Holds(r, s.book, key, u.now), exact);
    forall t | 0 <= t < |u.threads| ensures !ActiveAt(u, key, t) {
      if u.threads[t].key == key { assert !ActiveAt(s, key, t); }
    }
  }

  lemma OnItsWaySame(r: Rate, s: Server, u: Server, key: string, t: nat, exact: bool)
    requires Known(s, t) && s.threads[t].key == key && OnItsWay(r, s, key, t, exact) && SameView(s, u, key)
    requires SameGrants(s.threads, u.threads, key)
    ensures OnItsWay(r, u, key, t, exact)
  {
    var at := s.threads[t].at;
    match s.threads[t].phase {
      case Begun => SameRoom(r, s.threads, u.threads, key, at, Holds(r, s.book, key, at), exact);
      case KnowsLast(_) => SameRoom(r, s.threads, u.threads, key, at, Holds(r, s.book, key, at), exact);
      case Knows(current) => SameRoom(r, s.threads, u.threads, key, at, current, exact);
      case Dated(current) => SameRoom(r, s.threads, u.threads, key, at, current, exact);
      case Answered(_) =>
    }
  }

  lemma OtherKeyKeeps(r: Rate, s: Server, step: Step, key: string, exact: bool)
    requires Proper(r) && Enabled(s, step) && KeyOf(s, step) != key && Orderly(r, s, key, exact)
    ensures Orderly(r, Next(r, s, step), key, exact)
  {
    var u := Next(r, s, step);
    OtherKeyView(r, s, step, key);
    StepKeepsDates(r, s, step);
    if Resting(r, s, key, exact) {
      RestingLater(r, s, u, key, exact);
    } else {
      var t :| 0 <= t < |s.threads| && Lone(s, key, t) && OnItsWay(r, s, key, t, exact);
      OnItsWaySame(r, s, u, key, t, exact);
      assert Lone(u, key, t);
    }
  }

  // ---- a step of the key ----

  lemma BeginKeeps(r: Rate, s: Server, key: string, at: real, exact: bool)
    requires Proper(r) && Resting(r, s, key, exact) && Dates(s) && s.now <= at
    ensures Orderly(r, Next(r, s, Begin(key, at)), key, exact)
    ensures SameGrants(s.threads, Next(r, s, Begin(key, at)).threads, key)
  {
    var u, t := Next(r, s, Begin(key, at)), |s.threads|;
    forall a, b ensures Grants(u.threads, key, a, b) == Grants(s.threads, key, a, b) {
      GrantsAppend(s.threads, u.threads[t], key, a, b);
    }
    StepKeepsDates(r, s, Begin(key, at));
    DatesGrantedBy(s, key);
    HoldsBounds(r, s.book, key, s.now);
    HoldsLater(r, s.book, key, s.now, at);
    RoomLater(r, s.threads, key, s.now, Holds(r, s.book, key, s.now), at, exact);
    SameRoom(r, s.threads, u.threads, key, at, Holds(r, s.book, key, at), exact);
    assert Lone(u, key, t) by {
      forall v | 0 <= v < |u.threads| && u.threads[v].key == key
        ensures u.threads[v].at <= at && (v != t ==> u.threads[v].phase.Answered?)
      {
        if v < |s.threads| { assert !ActiveAt(s, key, v); }
      }
    }
    assert OnItsWay(r, u, key, t, exact);
  }

  /** A call that goes on without an answer has granted nothing yet. */
  lemma UnansweredSame(r: Rate, s: Server, t: nat, phase: Phase, key: string)
    requires Known(s, t) && !s.threads[t].phase.Answered? && !phase.Answered?
    ensures SameGrants(s.threads, Moved(s, t, phase).threads, key)
  {
    forall a, b ensures Grants(Moved(s, t, phase).threads, key, a, b) == Grants(s.threads, key, a, b) {
      GrantsUpdate(s.threads, t, s.threads[t].(phase := phase), key, a, b);
    }
  }

  lemma LoneGoesOn(s: Server, key: string, t: nat, phase: Phase, book: Book)
    requires Lone(s, key, t) && !phase.Answered?
    ensures Lone(Moved(s.(book := book), t, phase), key, t)
  {}

  lemma ReadKeeps(r: Rate, s: Server, step: Step, key: string, t: nat, exact: bool)
    requires Proper(r) && Lone(s, key, t) && OnItsWay(r, s, key, t, exact)
    requires (step == GetLast(t) || step == GetTokens(t)) && Enabled(s, step)
    ensures Lone(Next(r, s, step), key, t) && OnItsWay(r, Next(r, s, step), key, t, exact)
    ensures SameGrants(s.threads, Next(r, s, step).threads, key)
  {
    var u, at := Next(r, s, step), s.threads[t].at;
    UnansweredSame(r, s, t, u.threads[t].phase, key);
    LoneGoesOn(s, key, t, u.threads[t].phase, s.book);
    HoldsBounds(r, s.book, key, at);
    SameRoom(r, s.threads, u.threads, key, at, Holds(r, s.book, key, at), exact);
  }

  lemma SetLastKeeps(r: Rate, s: Server, key: string, t: nat, exact: bool)
    requires Proper(r) && Lone(s, key, t) && OnItsWay(r, s, key, t, exact) && Enabled(s, SetLast(t))
    ensures Lone(Next(r, s, SetLast(t)), key, t) && OnItsWay(r, Next(r, s, SetLast(t)), key, t, exact)
    ensures SameGrants(s.threads, Next(r, s, SetLast(t)).threads, key)
  {
    var u, current := Next(r, s, SetLast(t)), s.threads[t].phase.current;
    UnansweredSame(r, s, t, Dated(current), key);
    LoneGoesOn(s, key, t, Dated(current), u.book);
    SameRoom(r, s.threads, u.threads, key, s.threads[t].at, current, exact);
  }

  /** The windows that the answer of call `t` counts in. */
  lemma AnsweredGrants(s: Server, t: nat, granted: bool, key: string, a: real, b: real)
    requires Known(s, t) && s.threads[t].key == key && !s.threads[t].phase.Answered?
    ensures Grants(Moved(s, t, Answered(granted)).threads, key, a, b)
         == Grants(s.threads, key, a, b) + if granted && a <= s.threads[t].at <= b then 1 else 0
  {
    GrantsUpdate(s.threads, t, s.threads[t].(phase := Answered(granted)), key, a, b);
  }

  /** The answer takes from the room what it grants. */
  lemma AnswerRoom(r: Rate, s: Server, t: nat, current: real, key: string, exact: bool)
    requires Known(s, t) && s.threads[t].key == key && !s.threads[t].phase.Answered?
    requires Room(r, s.threads, key, s.threads[t].at, current, exact)
    ensures Room(r, Moved(s, t, Answered(current >= 1.0)).threads, key, s.threads[t].at, Spent(current), exact)
  {
    var u, at := Moved(s, t, Answered(current >= 1.0)), s.threads[t].at;
    forall a | a <= at
      ensures Grants(u.threads, key, a, at) as real + Spent(current) == Grants(s.threads, key, a, at) as real + current
    {
      AnsweredGrants(s, t, current >= 1.0, key, a, at);
    }
    if exact {
      var a :| a <= at && Grants(s.threads, key, a, at) as real + current == r.capacity as real + r.earn(a, at);
      assert Grants(u.threads, key, a, at) as real + Spent(current) == r.capacity as real + r.earn(a, at);
    }
  }

  /** A call is granted only where every window has room for it. */
  lemma AnswerWithin(r: Rate, s: Server, t: nat, current: real, key: string)
    requires Proper(r) && Known(s, t) && s.threads[t].key == key && !s.threads[t].phase.Answered?
    requires Leaves(r, s.threads, key, s.threads[t].at, current) && Within(r, s.threads, key)
    requires GrantedBy(s.threads, key, s.threads[t].at)
    ensures Within(r, Moved(s, t, Answered(current >= 1.0)).threads, key)
  {
    var u, at := Moved(s, t, Answered(current >= 1.0)), s.threads[t].at;
    forall a, b | a <= b ensures Grants(u.threads, key, a, b) as real <= r.capacity as real + r.earn(a, b) {
      AnsweredGrants(s, t, current >= 1.0, key, a, b);
      if a <= at <= b {
        GrantsEnd(s.threads, key, a, b, at);
        assert r.earn(a, b) == r.earn(a, at) + r.earn(at, b) && r.earn(at, b) >= 0.0;
      }
    }
  }

  lemma LoneGrantedBy(s: Server, key: string, t: nat)
    requires Lone(s, key, t)
    ensures GrantedBy(s.threads, key, s.threads[t].at)
  {}

  /** The entry the answer leaves: the tokens not spent, dated by the call. */
  lemma SetTokensRests(r: Rate, s: Server, key: string, t: nat, exact: bool)
    requires Proper(r) && Dates(s) && Lone(s, key, t) && OnItsWay(r, s, key, t, exact) && Enabled(s, SetTokens(t))
    ensures Resting(r, Next(r, s, SetTokens(t)), key, exact)
  {
    var u, at, current := Next(r, s, SetTokens(t)), s.threads[t].at, s.threads[t].phase.current;
    AnswerRoom(r, s, t, current, key, exact);
    assert u.threads == Moved(s, t, Answered(current >= 1.0)).threads;
    assert Quiet(u, key);
    NothingEarnedAtOnce(r, at);
    assert EntrySound(r, u.book, key, at) && Holds(r, u.book, key, at) == Spent(current);
    assert GrantedBy(u.threads, key, at);
    RoomLater(r, u.threads, key, at, Spent(current), s.now, exact);
    HoldsLater(r, u.book, key, at, s.now);
  }

  lemma SetTokensWithin(r: Rate, s: Server, key: string, t: nat, exact: bool)
    requires Proper(r) && Lone(s, key, t) && OnItsWay(r, s, key, t, exact) && Enabled(s, SetTokens(t))
    requires Within(r, s.threads, key)
    ensures Within(r, Next(r, s, SetTokens(t)).threads, key)
  {
    LoneGrantedBy(s, key, t);
    AnswerWithin(r, s, t, s.threads[t].phase.current, key);
  }

  lemma OwnStepKeeps(r: Rate, s: Server, step: Step, key: string, t: nat, exact: bool)
    requires Proper(r) && Dates(s) && Lone(s, key, t) && OnItsWay(r, s, key, t, exact) && Within(r, s.threads, key)
    requires Enabled(s, step) && !step.Begin? && step.t == t
    ensures Orderly(r, Next(r, s, step), key, exact) && Within(r, Next(r, s, step).threads, key)
  {
    var u := Next(r, s, step);
    StepKeepsDates(r, s, step);
    match step {
      case SetTokens(_) =>
        SetTokensRests(r, s, key, t, exact);
        SetTokensWithin(r, s, key, t, exact);
      case SetLast(_) =>
        SetLastKeeps(r, s, key, t, exact);
        SameWithin(r, s.threads, u.threads, key);
      case _ =>
        ReadKeeps(r, s, step, key, t, exact);
        SameWithin(r, s.threads, u.threads, key);
    }
  }

  /** A step that begins no overlap keeps the order and the bound. */
  lemma StepKeepsOrder(r: Rate, s: Server, step: Step, key: string, exact: bool)
    requires Proper(r) && Orderly(r, s, key, exact) && Within(r, s.threads, key) && Enabled(s, step)
    requires !Overlaps(s, step, key)
    ensures Orderly(r, Next(r, s, step), key, exact) && Within(r, Next(r, s, step).threads, key)
  {
    var u := Next(r, s, step);
    if KeyOf(s, step) != key {
      OtherKeyKeeps(r, s, step, key, exact);
      OtherKeyView(r, s, step, key);
      SameWithin(r, s.threads, u.threads, key);
    } else if step.Begin? {
      QuietRests(r, s, key, exact);
      BeginKeeps(r, s, key, step.at, exact);
      SameWithin(r, s.threads, u.threads, key);
    } else {
      assert ActiveAt(s, key, step.t);
      var t :| 0 <= t < |s.threads| && Lone(s, key, t) && OnItsWay(r, s, key, t, exact);
      assert t == step.t;
      OwnStepKeeps(r, s, step, key, t, exact);
    }
  }

  lemma QuietRests(r: Rate, s: Server, key: string, exact: bool)
    requires Orderly(r, s, key, exact) && Quiet(s, key)
    ensures Resting(r, s, key, exact)
  {}

  lemma {:induction false} RunKeepsOrder(r: Rate, s: Server, steps: seq<Step>, key: string, exact: bool)
    requires Proper(r) && Orderly(r, s, key, exact) && Within(r, s.threads, key)
    requires Legal(r, s, steps) && NeverOverlaps(r, s, steps, key)
    ensures Orderly(r, After(r, s, steps), key, exact) && Within(r, After(r, s, steps).threads, key)
    decreases |steps|
  {
    if steps != [] {
      StepKeepsOrder(r, s, steps[0], key, exact);
      RunKeepsOrder(r, Next(r, s, steps[0]), steps[1..], key, exact);
    }
  }

  lemma StartsOrderly(r: Rate, now: real, key: string)
    requires Proper(r)
    ensures Orderly(r, Start(now), key, true) && Within(r, Start(now).threads, key)
  {
    NothingEarnedAtOnce(r, now);
    var s := Start(now);
    assert Holds(r, s.book, key, now) == r.capacity as real;
    forall a | a <= now
      ensures Grants(s.threads, key, a, now) as real + r.capacity as real <= r.capacity as real + r.earn(a, now)
    {
      assert r.earn(a, now) >= 0.0;
    }
    assert Grants(s.threads, key, now, now) as real + r.capacity as real == r.capacity as real + r.earn(now, now);
    assert Resting(r, s, key, true);
  }

  // ---- without capacity nothing is ever granted ----

  predicate NothingGranted(s: Server, capacity: int) {
    forall t :: 0 <= t < |s.threads| ==>
      match s.threads[t].phase
      case Knows(current) => current <= capacity as real
      case Dated(current) => current <= capacity as real
      case Answered(granted) => !granted
      case _ => true
  }

  lemma {:induction false} NoCapacityNoGrant(r: Rate, s: Server, steps: seq<Step>)
    requires r.capacity <= 0 && NothingGranted(s, r.capacity) && Legal(r, s, steps)
    ensures NothingGranted(After(r, s, steps), r.capacity)
    decreases |steps|
  {
    if steps != [] {
      var u := Next(r, s, steps[0]);
      forall t | 0 <= t < |u.threads| && t < |s.threads| && (steps[0].Begin? || t != steps[0].t)
        ensures u.threads[t] == s.threads[t] {}
      NoCapacityNoGrant(r, u, steps[1..]);
    }
  }

  lemma {:induction false} NothingToCount(threads: seq<Thread>, key: string, a: real, b: real)
    requires forall t :: 0 <= t < |threads| ==> threads[t].phase != Answered(true)
    ensures Grants(threads, key, a, b) == 0
  {
    if threads != [] {
      assert forall t :: 0 <= t < |threads[1..]| ==> threads[1..][t] == threads[t + 1];
      NothingToCount(threads[1..], key, a, b);
    }
  }

  lemma WindowEarnsInterleaved(capacity: int, start: real, steps: seq<Step>, key: string, a: real, b: real)
    requires Legal(Rate(capacity, PerMinute(capacity)), Start(start), steps) && a <= b
    requires NeverOverlaps(Rate(capacity, PerMinute(capacity)), Start(start), steps, key)
    ensures Grants(After(Rate(capacity, PerMinute(capacity)), Start(start), steps).threads, key, a, b) as real
         <= if capacity > 0 then capacity as real + PerMinute(capacity)(a, b) else 0.0
  {
    var r := Rate(capacity, PerMinute(capacity));
    if capacity > 0 {
      PerMinuteIsSteady(capacity);
      StartsOrderly(r, start, key);
      RunKeepsOrder(r, Start(start), steps, key, true);
    } else {
      NoCapacityNoGrant(r, Start(start), steps);
      NothingToCount(After(r, Start(start), steps).threads, key, a, b);
    }
  }

  /**
   In every interleaving of the calls of any keys in which no two calls of the key overlap, a window
   from a to b grants the key at most capacity + (b - a) * capacity / 60 calls, and none if the
   capacity is not positive.
   */
  lemma WindowBoundInterleaved(capacity: int, start: real, steps: seq<Step>, key: string, a: real, b: real, grants: nat)
    requires Legal(Rate(capacity, PerMinute(capacity)), Start(start), steps) && a <= b
    requires NeverOverlaps(Rate(capacity, PerMinute(capacity)), Start(start), steps, key)
    requires grants == Grants(After(Rate(capacity, PerMinute(capacity)), Start(start), steps).threads, key, a, b)
    ensures grants as real <= if capacity > 0 then capacity as real + (b - a) * (capacity as real / 60.0) else 0.0
  {
    WindowEarnsInterleaved(capacity, start, steps, key, a, b);
    MinuteBound(grants, capacity, a, b);
  }
}
