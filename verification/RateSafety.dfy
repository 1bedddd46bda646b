/** The overlaps that gain nothing keep the bound, so that gaining is the exact condition. */
module RateSafety {
  import opened RateThreads
  import opened RateOverlap
  import RateLimit

  // ---- two refused calls of one instant ----

  /** Every call of the key under way read the clock at `at` and knows the entry, which has no token. */
  ghost predicate Twin(r: Rate, s: Server, key: string, at: real, tokens: real) {
    && key in s.book.tokens && s.book.tokens[key] == tokens && 0.0 <= tokens < 1.0
    && key in s.book.lastRefill && s.book.lastRefill[key] == at && at <= s.now
    && Leaves(r, s.threads, key, at, tokens)
    && forall v :: 0 <= v < |s.threads| && s.threads[v].key == key ==>
         s.threads[v].at <= at && KnowsTwin(s.threads[v], at, tokens)
  }

  predicate KnowsTwin(x: Thread, at: real, tokens: real) {
    match x.phase
    case Begun => x.at == at
    case KnowsLast(last) => x.at == at && last == at
    case Knows(current) => x.at == at && current == tokens
    case Dated(current) => x.at == at && current == tokens
    case Answered(_) => true
  }

  lemma TwinRests(r: Rate, s: Server, key: string, at: real, tokens: real)
    requires Proper(r) && Twin(r, s, key, at, tokens) && Quiet(s, key)
    ensures Resting(r, s, key, false)
  {
    NothingEarnedAtOnce(r, at);
    assert Holds(r, s.book, key, at) == tokens;
    LeavesLater(r, s.threads, key, at, tokens, s.now);
    HoldsLater(r, s.book, key, at, s.now);
  }

  lemma TwinSame(r: Rate, s: Server, n: Server, key: string, at: real, tokens: real)
    requires Twin(r, s, key, at, tokens) && SameView(s, n, key) && SameGrants(s.threads, n.threads, key)
    ensures Twin(r, n, key, at, tokens)
  {
    SameRoom(r, s.threads, n.threads, key, at, tokens, false);
  }

  lemma RefusedSame(r: Rate, s: Server, step: Step, key: string)
    requires Enabled(s, step) && !step.Begin? && (step.SetTokens? ==> s.threads[step.t].phase.current < 1.0)
    ensures SameGrants(s.threads, Next(r, s, step).threads, key)
  {
    var n := Next(r, s, step);
    forall a, b ensures Grants(n.threads, key, a, b) == Grants(s.threads, key, a, b) {
      GrantsUpdate(s.threads, step.t, n.threads[step.t], key, a, b);
    }
  }

  lemma TwinMoves(r: Rate, s: Server, step: Step, key: string, at: real, tokens: real)
    requires Proper(r) && Twin(r, s, key, at, tokens) && Within(r, s.threads, key)
    requires Enabled(s, step) && !step.Begin? && s.threads[step.t].key == key
    ensures Twin(r, Next(r, s, step), key, at, tokens) && Within(r, Next(r, s, step).threads, key)
  {
    var n := Next(r, s, step);
    NothingEarnedAtOnce(r, at);
    assert KnowsTwin(s.threads[step.t], at, tokens);
    RefusedSame(r, s, step, key);
    SameRoom(r, s.threads, n.threads, key, at, tokens, false);
    SameWithin(r, s.threads, n.threads, key);
  }

  // ---- a second call between the date and the tokens of the first ----

  predicate IsDated(s: Server, key: string, t: nat) {
    Known(s, t) && s.threads[t].key == key && s.threads[t].phase.Dated?
  }

  /** The calls as they will be once call `t` is answered. */
  function Settled(s: Server, t: nat): Server
    requires Known(s, t) && s.threads[t].phase.Dated?
  {
    Moved(s, t, Answered(s.threads[t].phase.current >= 1.0))
  }

  predicate Meek(r: Rate, found: real, left: real, spent: real) {
    found <= left && (found >= 1.0 ==> spent + 1.0 <= left)
  }

  /** What the second call knows is no more than the first leaves it. */
  predicate KnowsLess(r: Rate, s: Server, key: string, t: nat, u: nat)
    requires IsDated(s, key, t) && Known(s, u)
  {
    var first, second, spent := s.threads[t].at, s.threads[u].at, Spent(s.threads[t].phase.current);
    var left := Filled(r, spent, first, second);
    && key in s.book.lastRefill && 0.0 <= TokensOf(r, s.book, key) <= r.capacity as real
    && match s.threads[u].phase
       case Begun =>
         s.book.lastRefill[key] == first && Meek(r, Filled(r, TokensOf(r, s.book, key), first, second), left, spent)
       case KnowsLast(last) =>
         && last == first && s.book.lastRefill[key] == first
         && Meek(r, Filled(r, TokensOf(r, s.book, key), first, second), left, spent)
       case Knows(current) =>
         s.book.lastRefill[key] == first && 0.0 <= current && Meek(r, current, left, spent)
       case Dated(current) =>
         s.book.lastRefill[key] == second && 0.0 <= current && Meek(r, current, left, spent)
       case Answered(_) => false
  }

  /** The first call is still to write its tokens, and the second one is under way. */
  ghost predicate Crossed(r: Rate, s: Server, key: string, t: nat, u: nat) {
    && IsDated(s, key, t) && t != u && Lone(Settled(s, t), key, u) && KnowsLess(r, s, key, t, u)
    && 0.0 <= s.threads[t].phase.current <= r.capacity as real
    && Within(r, Settled(s, t).threads, key)
    && Leaves(r, Settled(s, t).threads, key, s.threads[u].at,
              Filled(r, Spent(s.threads[t].phase.current), s.threads[t].at, s.threads[u].at))
  }

  /** The first call is still to write its tokens, and the second one, of the instant `upto`, is answered. */
  ghost predicate Trailing(r: Rate, s: Server, key: string, t: nat, upto: real) {
    && IsDated(s, key, t) && upto <= s.now && Quiet(Settled(s, t), key)
    && (forall v :: 0 <= v < |s.threads| && s.threads[v].key == key ==> s.threads[v].at <= upto)
    && key in s.book.lastRefill && s.book.lastRefill[key] == upto
    && 0.0 <= s.threads[t].phase.current <= r.capacity as real
    && Within(r, Settled(s, t).threads, key)
    && Leaves(r, Settled(s, t).threads, key, upto, Spent(s.threads[t].phase.current))
  }

  /** What holds of the settled calls holds of the calls. */
  lemma SettledBounds(r: Rate, s: Server, key: string, t: nat)
    requires IsDated(s, key, t) && Within(r, Settled(s, t).threads, key)
    ensures Within(r, s.threads, key)
  {
    forall a, b | a <= b ensures Grants(s.threads, key, a, b) as real <= r.capacity as real + r.earn(a, b) {
      AnsweredGrants(s, t, s.threads[t].phase.current >= 1.0, key, a, b);
    }
  }

  /** Settling commutes with the steps of other keys. */
  lemma SettledSame(s: Server, n: Server, key: string, t: nat)
    requires IsDated(s, key, t) && SameView(s, n, key) && SameGrants(s.threads, n.threads, key)
    ensures IsDated(n, key, t) && SameView(Settled(s, t), Settled(n, t), key)
    ensures SameGrants(Settled(s, t).threads, Settled(n, t).threads, key)
  {
    var granted := s.threads[t].phase.current >= 1.0;
    forall a, b ensures Grants(Settled(n, t).threads, key, a, b) == Grants(Settled(s, t).threads, key, a, b) {
      AnsweredGrants(s, t, granted, key, a, b);
      AnsweredGrants(n, t, granted, key, a, b);
    }
  }

  lemma LoneSame(s: Server, n: Server, key: string, u: nat)
    requires Lone(s, key, u) && SameView(s, n, key)
    ensures Lone(n, key, u)
  {}

  lemma QuietSame(s: Server, n: Server, key: string)
    requires Quiet(s, key) && SameView(s, n, key)
    ensures Quiet(n, key)
  {
    forall t | 0 <= t < |n.threads| ensures !ActiveAt(n, key, t) {
      if n.threads[t].key == key { assert !ActiveAt(s, key, t); }
    }
  }

  lemma CrossedSame(r: Rate, s: Server, n: Server, key: string, t: nat, u: nat)
    requires Crossed(r, s, key, t, u) && SameView(s, n, key) && SameGrants(s.threads, n.threads, key)
    ensures Crossed(r, n, key, t, u)
  {
    SettledSame(s, n, key, t);
    LoneSame(Settled(s, t), Settled(n, t), key, u);
    assert n.threads[u] == s.threads[u];
    SameWithin(r, Settled(s, t).threads, Settled(n, t).threads, key);
    SameRoom(r, Settled(s, t).threads, Settled(n, t).threads, key, s.threads[u].at,
             Filled(r, Spent(s.threads[t].phase.current), s.threads[t].at, s.threads[u].at), false);
  }

  lemma TrailingSame(r: Rate, s: Server, n: Server, key: string, t: nat, upto: real)
    requires Trailing(r, s, key, t, upto) && SameView(s, n, key) && SameGrants(s.threads, n.threads, key)
    ensures Trailing(r, n, key, t, upto)
  {
    SettledSame(s, n, key, t);
    QuietSame(Settled(s, t), Settled(n, t), key);
    SameWithin(r, Settled(s, t).threads, Settled(n, t).threads, key);
    SameRoom(r, Settled(s, t).threads, Settled(n, t).threads, key, upto, Spent(s.threads[t].phase.current), false);
  }

  /** The first call writes its tokens before the second: then the calls came one after the other. */
  lemma FirstSettles(r: Rate, s: Server, key: string, t: nat, u: nat)
    requires Proper(r) && Crossed(r, s, key, t, u) && Dates(s)
    ensures Orderly(r, Next(r, s, SetTokens(t)), key, false) && Within(r, Next(r, s, SetTokens(t)).threads, key)
  {
    var n, at := Next(r, s, SetTokens(t)), s.threads[u].at;
    var spent := Spent(s.threads[t].phase.current);
    assert n.threads == Settled(s, t).threads && n.threads[u] == s.threads[u];
    assert Lone(n, key, u);
    StepKeepsDates(r, s, SetTokens(t));
    assert s.threads[t].at <= at by { assert n.threads[t].at == s.threads[t].at; }
    assert r.earn(s.threads[t].at, at) >= 0.0;
    if s.threads[u].phase.Knows? || s.threads[u].phase.Dated? {
      LeavesLess(r, n.threads, key, at, Filled(r, spent, s.threads[t].at, at), s.threads[u].phase.current);
    } else {
      assert Holds(r, n.book, key, at) == Filled(r, spent, s.threads[t].at, at);
    }
    assert OnItsWay(r, n, key, u, false);
  }

  lemma LeavesLess(r: Rate, threads: seq<Thread>, key: string, upto: real, level: real, less: real)
    requires Leaves(r, threads, key, upto, level) && less <= level
    ensures Leaves(r, threads, key, upto, less)
  {}

  /** The second call goes on, and settling the first commutes with it. */
  lemma SettledMoves(r: Rate, s: Server, key: string, t: nat, step: Step)
    requires IsDated(s, key, t) && Enabled(s, step) && !step.Begin? && step.t != t
    ensures IsDated(Next(r, s, step), key, t) && Next(r, s, step).threads[t] == s.threads[t]
    ensures Settled(Next(r, s, step), t).threads
         == Moved(Settled(s, t), step.t, Next(r, s, step).threads[step.t].phase).threads
  {}

  /** The second call is the last that began. */
  lemma SecondIsLast(s: Server, key: string, t: nat, u: nat)
    requires IsDated(s, key, t) && Lone(Settled(s, t), key, u)
    ensures forall v :: 0 <= v < |s.threads| && s.threads[v].key == key ==> s.threads[v].at <= s.threads[u].at
  {
    var settled := Settled(s, t);
    forall v | 0 <= v < |s.threads| && s.threads[v].key == key ensures s.threads[v].at <= s.threads[u].at {
      assert settled.threads[v].key == key && settled.threads[v].at == s.threads[v].at;
    }
  }

  lemma SecondGoesOn(r: Rate, s: Server, key: string, t: nat, u: nat, step: Step)
    requires Proper(r) && Crossed(r, s, key, t, u) && Enabled(s, step)
    requires step == GetLast(u) || step == GetTokens(u) || step == SetLast(u)
    ensures Crossed(r, Next(r, s, step), key, t, u)
  {
    var n, at := Next(r, s, step), s.threads[u].at;
    var phase := n.threads[u].phase;
    SettledMoves(r, s, key, t, step);
    UnansweredSame(r, Settled(s, t), u, phase, key);
    LoneGoesOn(Settled(s, t), key, u, phase, n.book);
    assert Lone(Settled(n, t), key, u);
    SameWithin(r, Settled(s, t).threads, Settled(n, t).threads, key);
    SameRoom(r, Settled(s, t).threads, Settled(n, t).threads, key, at,
             Filled(r, Spent(s.threads[t].phase.current), s.threads[t].at, at), false);
    SecondIsLast(s, key, t, u);
    SecondKnowsLess(r, s, key, t, u, step);
  }

  lemma SecondKnowsLess(r: Rate, s: Server, key: string, t: nat, u: nat, step: Step)
    requires Proper(r) && IsDated(s, key, t) && Known(s, u) && t != u && s.threads[u].key == key
    requires KnowsLess(r, s, key, t, u)
    requires s.threads[t].at <= s.threads[u].at
    requires Enabled(s, step) && (step == GetLast(u) || step == GetTokens(u) || step == SetLast(u))
    ensures IsDated(Next(r, s, step), key, t) && KnowsLess(r, Next(r, s, step), key, t, u)
  {
    assert r.earn(s.threads[t].at, s.threads[u].at) >= 0.0;
  }

  /** The second call is answered first: its grant leaves what the first is still to write. */
  lemma SecondAnswers(r: Rate, s: Server, key: string, t: nat, u: nat)
    requires Proper(r) && Dates(s) && Crossed(r, s, key, t, u) && Enabled(s, SetTokens(u))
    ensures Trailing(r, Next(r, s, SetTokens(u)), key, t, s.threads[u].at)
  {
    var n, at, found := Next(r, s, SetTokens(u)), s.threads[u].at, s.threads[u].phase.current;
    var spent := Spent(s.threads[t].phase.current);
    var left := Filled(r, spent, s.threads[t].at, at);
    var settled := Settled(s, t);
    SettledMoves(r, s, key, t, SetTokens(u));
    SecondIsLast(s, key, t, u);
    assert settled.threads[u] == s.threads[u] && settled.threads[t].at == s.threads[t].at;
    LeavesLess(r, settled.threads, key, at, left, found);
    LoneGrantedBy(settled, key, u);
    AnswerWithin(r, settled, u, found, key);
    assert spent <= left by { assert r.earn(s.threads[t].at, at) >= 0.0; }
    assert Settled(n, t).threads == Moved(settled, u, Answered(found >= 1.0)).threads;
    forall a | a <= at
      ensures Grants(Settled(n, t).threads, key, a, at) as real + spent <= r.capacity as real + r.earn(a, at)
    {
      AnsweredGrants(settled, u, found >= 1.0, key, a, at);
    }
    assert Quiet(Settled(n, t), key);
  }

  lemma QuietThreads(s: Server, n: Server, key: string)
    requires Quiet(s, key) && n.threads == s.threads
    ensures Quiet(n, key)
  {
    forall t | 0 <= t < |n.threads| ensures !ActiveAt(n, key, t) { assert !ActiveAt(s, key, t); }
  }

  lemma TrailingSettles(r: Rate, s: Server, key: string, t: nat, upto: real)
    requires Proper(r) && Trailing(r, s, key, t, upto)
    ensures Resting(r, Next(r, s, SetTokens(t)), key, false) && Within(r, Next(r, s, SetTokens(t)).threads, key)
  {
    var n, spent := Next(r, s, SetTokens(t)), Spent(s.threads[t].phase.current);
    assert n.threads == Settled(s, t).threads;
    QuietThreads(Settled(s, t), n, key);
    NothingEarnedAtOnce(r, upto);
    assert EntrySound(r, n.book, key, upto) && Holds(r, n.book, key, upto) == spent;
    assert GrantedBy(n.threads, key, upto);
    LeavesLater(r, n.threads, key, upto, spent, s.now);
    HoldsLater(r, n.book, key, upto, s.now);
  }

  // ---- every run ----

  ghost predicate AnyTwin(r: Rate, s: Server, key: string) {
    exists at, tokens :: Twin(r, s, key, at, tokens)
  }

  ghost predicate AnyCrossed(r: Rate, s: Server, key: string) {
    exists t, u :: Crossed(r, s, key, t, u)
  }

  ghost predicate AnyTrailing(r: Rate, s: Server, key: string) {
    exists t, upto :: Trailing(r, s, key, t, upto)
  }

  ghost predicate Safe(r: Rate, s: Server, key: string) {
    && Dates(s) && Within(r, s.threads, key)
    && (Orderly(r, s, key, false) || AnyTwin(r, s, key) || AnyCrossed(r, s, key) || AnyTrailing(r, s, key))
  }

  lemma OtherKeyKeepsSafe(r: Rate, s: Server, step: Step, key: string)
    requires Proper(r) && Safe(r, s, key) && Enabled(s, step) && KeyOf(s, step) != key
    ensures Safe(r, Next(r, s, step), key)
  {
    var n := Next(r, s, step);
    OtherKeyView(r, s, step, key);
    StepKeepsDates(r, s, step);
    SameWithin(r, s.threads, n.threads, key);
    if Orderly(r, s, key, false) {
      OtherKeyKeeps(r, s, step, key, false);
    } else if AnyTwin(r, s, key) {
      var at, tokens :| Twin(r, s, key, at, tokens);
      TwinSame(r, s, n, key, at, tokens);
    } else if AnyCrossed(r, s, key) {
      var t, u :| Crossed(r, s, key, t, u);
      CrossedSame(r, s, n, key, t, u);
    } else {
      var t, upto :| Trailing(r, s, key, t, upto);
      TrailingSame(r, s, n, key, t, upto);
    }
  }

  lemma OwnKeyKeepsSafe(r: Rate, s: Server, step: Step, key: string)
    requires Proper(r) && Safe(r, s, key) && Enabled(s, step) && !step.Begin? && KeyOf(s, step) == key
    ensures Safe(r, Next(r, s, step), key)
  {
    var n := Next(r, s, step);
    StepKeepsDates(r, s, step);
    if Orderly(r, s, key, false) {
      StepKeepsOrder(r, s, step, key, false);
    } else if AnyTwin(r, s, key) {
      var at, tokens :| Twin(r, s, key, at, tokens);
      TwinMoves(r, s, step, key, at, tokens);
    } else if AnyCrossed(r, s, key) {
      var t, u :| Crossed(r, s, key, t, u);
      CrossedKeepsSafe(r, s, step, key, t, u);
    } else {
      var t, upto :| Trailing(r, s, key, t, upto);
      OnlyTrailing(s, key, t, step);
      TrailingSettles(r, s, key, t, upto);
    }
  }

  /** Only the call that is to be settled can step. */
  lemma OnlyTrailing(s: Server, key: string, t: nat, step: Step)
    requires IsDated(s, key, t) && Quiet(Settled(s, t), key) && Enabled(s, step) && !step.Begin?
    requires KeyOf(s, step) == key
    ensures step == SetTokens(t)
  {
    assert ActiveAt(s, key, step.t);
    if step.t != t { assert ActiveAt(Settled(s, t), key, step.t); }
  }

  lemma CrossedKeepsSafe(r: Rate, s: Server, step: Step, key: string, t: nat, u: nat)
    requires Proper(r) && Dates(s) && Crossed(r, s, key, t, u) && Enabled(s, step) && !step.Begin?
    requires KeyOf(s, step) == key
    ensures Safe(r, Next(r, s, step), key)
  {
    var n := Next(r, s, step);
    StepKeepsDates(r, s, step);
    if step.t == t {
      FirstSettles(r, s, key, t, u);
    } else {
      assert ActiveAt(Settled(s, t), key, step.t);
      assert step.t == u;
      if step.SetTokens? {
        SecondAnswers(r, s, key, t, u);
        SettledBounds(r, n, key, t);
      } else {
        SecondGoesOn(r, s, key, t, u, step);
        SettledBounds(r, n, key, t);
      }
    }
  }

  lemma QuietIsOrderly(r: Rate, s: Server, key: string)
    requires Proper(r) && Safe(r, s, key) && Quiet(s, key)
    ensures Orderly(r, s, key, false)
  {
    if AnyTwin(r, s, key) {
      var at, tokens :| Twin(r, s, key, at, tokens);
      TwinRests(r, s, key, at, tokens);
    } else if AnyCrossed(r, s, key) {
      var t, u :| Crossed(r, s, key, t, u);
      assert ActiveAt(s, key, t);
    } else if AnyTrailing(r, s, key) {
      var t, upto :| Trailing(r, s, key, t, upto);
      assert ActiveAt(s, key, t);
    }
  }

  lemma StepKeepsSafe(r: Rate, s: Server, step: Step, key: string)
    requires Proper(r) && Safe(r, s, key) && Enabled(s, step) && !Overlaps(s, step, key)
    ensures Safe(r, Next(r, s, step), key)
  {
    if KeyOf(s, step) != key {
      OtherKeyKeepsSafe(r, s, step, key);
    } else if step.Begin? {
      QuietIsOrderly(r, s, key);
      StepKeepsOrder(r, s, step, key, false);
    } else {
      OwnKeyKeepsSafe(r, s, step, key);
    }
  }

  lemma {:induction false} RunKeepsSafe(r: Rate, s: Server, steps: seq<Step>, key: string)
    requires Proper(r) && Safe(r, s, key) && Legal(r, s, steps) && NeverOverlaps(r, s, steps, key)
    ensures Within(r, After(r, s, steps).threads, key)
    decreases |steps|
  {
    if steps != [] {
      StepKeepsSafe(r, s, steps[0], key);
      RunKeepsSafe(r, Next(r, s, steps[0]), steps[1..], key);
    }
  }

  lemma SafeNeverExceeds(r: Rate, s: Server, key: string)
    requires Proper(r) && Safe(r, s, key)
    ensures !CanExceed(r, s, key)
  {
    forall rest | Legal(r, s, rest) && NeverOverlaps(r, s, rest, key)
      ensures Within(r, After(r, s, rest).threads, key)
    {
      RunKeepsSafe(r, s, rest, key);
    }
  }

  // ---- the exact condition ----

  lemma OrderlyEnough(r: Rate, s: Server, key: string)
    requires Orderly(r, s, key, true)
    ensures Orderly(r, s, key, false)
  {
    if !Resting(r, s, key, true) {
      var t :| 0 <= t < |s.threads| && Lone(s, key, t) && OnItsWay(r, s, key, t, true);
      assert OnItsWay(r, s, key, t, false);
    }
  }

  /** An overlap with a call that has not dated the key, without a gain: both are of one instant and refused. */
  lemma NoGainIsTwin(r: Rate, s: Server, key: string, at: real, t: nat)
    requires Proper(r) && Dates(s) && Lone(s, key, t) && OnItsWay(r, s, key, t, true) && s.now <= at
    requires !s.threads[t].phase.Dated? && !GainsFrom(r, s, key, t, at)
    ensures AnyTwin(r, Next(r, s, Begin(key, at)), key)
  {
    var n := Next(r, s, Begin(key, at));
    OverlapPairs(r, s, key, at, t);
    NothingEarnedAtOnce(r, at);
    var tokens := s.book.tokens[key];
    assert s.threads[t].at == at && s.book.lastRefill[key] == at && Holds(r, s.book, key, at) == tokens;
    SameRoom(r, s.threads, n.threads, key, at, tokens, false);
    assert Twin(r, n, key, at, tokens);
  }

  /** An overlap with a call that has dated the key, without a gain. */
  lemma NoGainIsCrossed(r: Rate, s: Server, key: string, at: real, t: nat)
    requires Proper(r) && Dates(s) && Lone(s, key, t) && OnItsWay(r, s, key, t, true) && s.now <= at
    requires Within(r, s.threads, key)
    requires s.threads[t].phase.Dated? && !GainsFrom(r, s, key, t, at)
    ensures AnyCrossed(r, Next(r, s, Begin(key, at)), key)
  {
    var n, u, first, current := Next(r, s, Begin(key, at)), |s.threads|, s.threads[t].at, s.threads[t].phase.current;
    OverlapPairs(r, s, key, at, t);
    SameWithin(r, s.threads, n.threads, key);
    SameRoom(r, s.threads, n.threads, key, first, current, false);
    AnswerWithin(r, n, t, current, key);
    AnswerRoom(r, n, t, current, key, false);
    assert GrantedBy(Settled(n, t).threads, key, first);
    LeavesLater(r, Settled(n, t).threads, key, first, Spent(current), at);
    assert Lone(Settled(n, t), key, u);
    assert Crossed(r, n, key, t, u);
  }

  lemma NoGainIsSafe(r: Rate, s: Server, key: string, at: real)
    requires Proper(r) && Orderly(r, s, key, true) && Within(r, s.threads, key) && s.now <= at
    requires !Quiet(s, key) && !Gains(r, s, key, at)
    ensures Safe(r, Next(r, s, Begin(key, at)), key)
  {
    var t :| 0 <= t < |s.threads| && Lone(s, key, t) && OnItsWay(r, s, key, t, true);
    StepKeepsDates(r, s, Begin(key, at));
    OverlapPairs(r, s, key, at, t);
    SameWithin(r, s.threads, Next(r, s, Begin(key, at)).threads, key);
    if s.threads[t].phase.Dated? {
      NoGainIsCrossed(r, s, key, at, t);
    } else {
      NoGainIsTwin(r, s, key, at, t);
    }
  }

  /** Whatever the earnings, so long as they flow. */
  lemma GainIsTheCondition(r: Rate, s: Server, step: Step, key: string)
    requires Proper(r) && Flows(r) && Orderly(r, s, key, true) && Within(r, s.threads, key) && Enabled(s, step)
    ensures CanExceed(r, Next(r, s, step), key) <==> Overlaps(s, step, key) && Gains(r, s, key, step.at)
  {
    var n := Next(r, s, step);
    if !Overlaps(s, step, key) {
      StepKeepsOrder(r, s, step, key, true);
      OrderlyEnough(r, n, key);
      SafeNeverExceeds(r, n, key);
    } else if Gains(r, s, key, step.at) {
      GainExceeds(r, s, key, step.at);
    } else {
      NoGainIsSafe(r, s, key, step.at);
      SafeNeverExceeds(r, n, key);
    }
  }

  /**
   After any run whose calls of the key came one after the other, a step makes it possible that a
   window grants too much, without any further overlap, if and only if it begins a call of the key
   while another one is under way and gains by it.
   */
  lemma OverlapIsTheCondition(capacity: int, start: real, before: seq<Step>, step: Step, key: string)
    requires capacity >= 1
    requires var r := Rate(capacity, RateLimit.PerMinute(capacity));
             && Legal(r, Start(start), before) && NeverOverlaps(r, Start(start), before, key)
             && Enabled(After(r, Start(start), before), step)
    ensures var r := Rate(capacity, RateLimit.PerMinute(capacity));
            var s := After(r, Start(start), before);
            CanExceed(r, Next(r, s, step), key) <==> Overlaps(s, step, key) && Gains(r, s, key, step.at)
  {
    var r := Rate(capacity, RateLimit.PerMinute(capacity));
    RateLimit.PerMinuteIsSteady(capacity);
    PerMinuteFlows(capacity);
    StartsOrderly(r, start, key);
    RunKeepsOrder(r, Start(start), before, key, true);
    GainIsTheCondition(r, After(r, Start(start), before), step, key);
  }
}
