/**
 Two calls of one key under way together: exactly which of them make it possible that a window
 grants more than the capacity and what it earns.
 */
module RateOverlap {
  import opened RateThreads
  import RateLimit

  ghost predicate Earns(r: Rate, from: real, amount: real) {
    exists b :: from <= b && r.earn(from, b) == amount
  }

  /** Every wait earns something, and every amount is earned after some wait. */
  ghost predicate Flows(r: Rate) {
    && (forall a, b :: a < b ==> r.earn(a, b) > 0.0)
    && (forall a, x :: x >= 0.0 ==> Earns(r, a, x))
  }

  lemma PerMinuteFlows(capacity: int)
    requires capacity >= 1
    ensures Flows(Rate(capacity, RateLimit.PerMinute(capacity)))
  {
    var r, rate := Rate(capacity, RateLimit.PerMinute(capacity)), capacity as real / 60.0;
    forall a: real, b: real | a < b ensures r.earn(a, b) > 0.0 {
      assert r.earn(a, b) == (b - a) * rate;
    }
    forall a: real, x: real | x >= 0.0 ensures Earns(r, a, x) {
      var b := a + x / rate;
      assert x / rate * rate == x;
      assert r.earn(a, b) == (b - a) * rate == x / rate * rate;
    }
  }

  /** Some run without any further overlap grants too much. */
  ghost predicate CanExceed(r: Rate, s: Server, key: string) {
    exists rest :: Legal(r, s, rest) && NeverOverlaps(r, s, rest, key) && !Within(r, After(r, s, rest).threads, key)
  }

  lemma ExceedsLater(r: Rate, s: Server, step: Step, key: string)
    requires Enabled(s, step) && !Overlaps(s, step, key) && CanExceed(r, Next(r, s, step), key)
    ensures CanExceed(r, s, key)
  {
    var n := Next(r, s, step);
    var rest :| Legal(r, n, rest) && NeverOverlaps(r, n, rest, key) && !Within(r, After(r, n, rest).threads, key);
    var run := [step] + rest;
    assert run[1..] == rest;
    assert Legal(r, s, run) && NeverOverlaps(r, s, run, key) && After(r, s, run) == After(r, n, rest);
  }

  // ---- which overlaps gain ----

  /**
   What a second call that reads the clock at `at` gains by the one under way. If that one has not
   yet written its date: there is a token left for both to take, or an earning for both to count. If
   it has: its tokens are still to be written, and the second one finds more by the old tokens than
   by the new ones, or its own grant is written over.
   */
  predicate GainsFrom(r: Rate, s: Server, key: string, t: nat, at: real)
    requires Known(s, t)
  {
    match s.threads[t].phase
    case Dated(current) =>
      var found := Filled(r, TokensOf(r, s.book, key), s.threads[t].at, at);
      var left := Filled(r, Spent(current), s.threads[t].at, at);
      found > left || (found >= 1.0 && Spent(current) + 1.0 > left)
    case _ => Holds(r, s.book, key, at) >= 1.0 || LastOf(s.book, key, at) < at
  }

  predicate Gains(r: Rate, s: Server, key: string, at: real) {
    exists t :: 0 <= t < |s.threads| && ActiveAt(s, key, t) && GainsFrom(r, s, key, t, at)
  }

  // ---- a server whose key has too much ----

  /** A window up to now, with what the key has, is past its bound. */
  predicate Over(r: Rate, s: Server, key: string, a: real) {
    && Quiet(s, key) && EntrySound(r, s.book, key, s.now) && a <= s.now
    && Grants(s.threads, key, a, s.now) as real + Holds(r, s.book, key, s.now) > r.capacity as real + r.earn(a, s.now)
  }

  /** A whole call goes by without an overlap. */
  lemma WholeCall(r: Rate, s: Server, key: string, at: real)
    requires s.now <= at && Quiet(s, key) && CanExceed(r, AfterCall(r, s, key, at), key)
    ensures CanExceed(r, s, key)
  {
    var t := |s.threads|;
    var s1 := Next(r, s, Begin(key, at));
    var s2 := Next(r, s1, GetLast(t));
    var s3 := Next(r, s2, GetTokens(t));
    var s4 := Next(r, s3, SetLast(t));
    CallSteps(r, s, key, at);
    ExceedsLater(r, s4, SetTokens(t), key);
    ExceedsLater(r, s3, SetLast(t), key);
    ExceedsLater(r, s2, GetTokens(t), key);
    ExceedsLater(r, s1, GetLast(t), key);
    ExceedsLater(r, s, Begin(key, at), key);
  }

  lemma AfterCallGrants(r: Rate, s: Server, key: string, at: real, a: real)
    requires Proper(r) && Quiet(s, key) && EntrySound(r, s.book, key, s.now) && s.now <= at && a <= at
    ensures var n, held := AfterCall(r, s, key, at), Holds(r, s.book, key, at);
            && Grants(n.threads, key, a, at) == Grants(s.threads, key, a, at) + (if held >= 1.0 then 1 else 0)
            && Quiet(n, key) && EntrySound(r, n.book, key, at) && n.now == at
            && Holds(r, n.book, key, at) == Spent(held)
  {
    var n := AfterCall(r, s, key, at);
    GrantsAppend(s.threads, n.threads[|s.threads|], key, a, at);
    HoldsBounds(r, s.book, key, s.now);
    HoldsLater(r, s.book, key, s.now, at);
    NothingEarnedAtOnce(r, at);
    forall t | 0 <= t < |n.threads| ensures !ActiveAt(n, key, t) {
      if t < |s.threads| { assert !ActiveAt(s, key, t); }
    }
  }

  /** Spending what it has takes the window past its bound. */
  lemma {:induction false} OverExceeds(r: Rate, s: Server, key: string, a: real)
    requires Proper(r) && Flows(r) && Over(r, s, key, a) && Dates(s)
    ensures CanExceed(r, s, key)
    decreases Holds(r, s.book, key, s.now).Floor + 1
  {
    var held := Holds(r, s.book, key, s.now);
    HoldsBounds(r, s.book, key, s.now);
    if held >= 1.0 {
      var n := AfterCall(r, s, key, s.now);
      AfterCallGrants(r, s, key, s.now, a);
      OverExceeds(r, n, key, a);
      WholeCall(r, s, key, s.now);
    } else {
      LastGrantExceeds(r, s, key, a);
    }
  }

  /** With less than one token left, the one more that comes is granted at the moment it is full. */
  lemma LastGrantExceeds(r: Rate, s: Server, key: string, a: real)
    requires Proper(r) && Flows(r) && Over(r, s, key, a) && Dates(s) && Holds(r, s.book, key, s.now) < 1.0
    ensures CanExceed(r, s, key)
  {
    var held := Holds(r, s.book, key, s.now);
    assert Earns(r, s.now, 1.0 - held);
    var b :| s.now <= b && r.earn(s.now, b) == 1.0 - held;
    HoldsLater(r, s.book, key, s.now, b);
    AfterCallGrants(r, s, key, b, a);
    DatesGrantedBy(s, key);
    GrantsEnd(s.threads, key, a, b, s.now);
    assert r.earn(a, b) == r.earn(a, s.now) + r.earn(s.now, b);
    var n := AfterCall(r, s, key, b);
    assert !Within(r, n.threads, key);
    assert Legal(r, n, []) && NeverOverlaps(r, n, [], key) && After(r, n, []) == n;
    WholeCall(r, s, key, b);
  }

  // ---- two calls ----

  /** Of the key's calls only `t` and `u` can be under way. */
  predicate Pair(s: Server, key: string, t: nat, u: nat) {
    && Known(s, t) && Known(s, u) && t != u && s.threads[t].key == key && s.threads[u].key == key && Dates(s)
    && forall v :: 0 <= v < |s.threads| && s.threads[v].key == key && v != t && v != u ==> s.threads[v].phase.Answered?
  }

  function GrantOf(s: Server, step: Step, a: real, b: real): nat
    requires Enabled(s, step)
  {
    if step.SetTokens? && s.threads[step.t].phase.current >= 1.0 && a <= s.threads[step.t].at <= b then 1 else 0
  }

  lemma PairMoves(r: Rate, s: Server, key: string, t: nat, u: nat, step: Step, a: real, b: real)
    requires Pair(s, key, t, u) && Enabled(s, step) && !step.Begin? && (step.t == t || step.t == u)
    ensures var n := Next(r, s, step);
            && Pair(n, key, t, u) && n.now == s.now && n.threads[t].at == s.threads[t].at
            && n.threads[u].at == s.threads[u].at
            && (step.t != t ==> n.threads[t] == s.threads[t]) && (step.t != u ==> n.threads[u] == s.threads[u])
            && Grants(n.threads, key, a, b) == Grants(s.threads, key, a, b) + GrantOf(s, step, a, b)
            && (CanExceed(r, n, key) ==> CanExceed(r, s, key))
  {
    var n := Next(r, s, step);
    GrantsUpdate(s.threads, step.t, n.threads[step.t], key, a, b);
    if CanExceed(r, n, key) { ExceedsLater(r, s, step, key); }
  }

  /** Call `u` has read what the key has. */
  lemma PairReads(r: Rate, s: Server, key: string, t: nat, u: nat, a: real, b: real) returns (n: Server)
    requires Pair(s, key, t, u) && s.threads[u].phase == Begun
    ensures Pair(n, key, t, u) && n.now == s.now && n.book == s.book && n.threads[t] == s.threads[t]
    ensures n.threads[u] == Thread(key, s.threads[u].at, Knows(Holds(r, s.book, key, s.threads[u].at)))
    ensures Grants(n.threads, key, a, b) == Grants(s.threads, key, a, b)
    ensures CanExceed(r, n, key) ==> CanExceed(r, s, key)
  {
    n := Next(r, s, GetLast(u));
    PairMoves(r, s, key, t, u, GetLast(u), a, b);
    PairMoves(r, n, key, t, u, GetTokens(u), a, b);
    n := Next(r, n, GetTokens(u));
  }

  /** Call `u` has written the key's date and tokens. */
  lemma PairWrites(r: Rate, s: Server, key: string, t: nat, u: nat, current: real, a: real, b: real) returns (n: Server)
    requires Pair(s, key, t, u) && s.threads[u].phase == Knows(current)
    ensures Pair(n, key, t, u) && n.now == s.now && n.threads[t] == s.threads[t]
    ensures n.threads[u] == Thread(key, s.threads[u].at, Answered(current >= 1.0))
    ensures n.book.lastRefill == s.book.lastRefill[key := s.threads[u].at]
    ensures n.book.tokens == s.book.tokens[key := Spent(current)]
    ensures Grants(n.threads, key, a, b)
         == Grants(s.threads, key, a, b) + if current >= 1.0 && a <= s.threads[u].at <= b then 1 else 0
    ensures CanExceed(r, n, key) ==> CanExceed(r, s, key)
  {
    n := Next(r, s, SetLast(u));
    PairMoves(r, s, key, t, u, SetLast(u), a, b);
    PairMoves(r, n, key, t, u, SetTokens(u), a, b);
    n := Next(r, n, SetTokens(u));
  }

  lemma PairOver(r: Rate, s: Server, key: string, t: nat, u: nat, a: real)
    requires Proper(r) && Flows(r) && Pair(s, key, t, u) && s.threads[t].phase.Answered? && s.threads[u].phase.Answered?
    requires EntrySound(r, s.book, key, s.now) && a <= s.now
    requires Grants(s.threads, key, a, s.now) as real + Holds(r, s.book, key, s.now)
           > r.capacity as real + r.earn(a, s.now)
    ensures CanExceed(r, s, key)
  {
    assert Quiet(s, key);
    OverExceeds(r, s, key, a);
  }

  /** What the key is to have now by the answer of call `t`, and a window with no room for more. */
  predicate FullWindow(r: Rate, s: Server, key: string, t: nat, current: real, a: real)
    requires Known(s, t)
  {
    var at := s.threads[t].at;
    && a <= s.now
    && Grants(s.threads, key, a, s.now) as real + (if current >= 1.0 && a <= at then 1.0 else 0.0)
       + Filled(r, Spent(current), at, s.now) == r.capacity as real + r.earn(a, s.now)
  }

  lemma WindowIsFull(r: Rate, s: Server, key: string, t: nat, current: real) returns (a: real)
    requires Proper(r) && ActiveAt(s, key, t) && Dates(s) && GrantedBy(s.threads, key, s.threads[t].at)
    requires 0.0 <= current <= r.capacity as real && Room(r, s.threads, key, s.threads[t].at, current, true)
    ensures FullWindow(r, s, key, t, current, a)
  {
    var at, n := s.threads[t].at, Moved(s, t, Answered(current >= 1.0));
    AnswerRoom(r, s, t, current, key, true);
    TightLater(r, n.threads, key, at, Spent(current), s.now);
    a :| a <= s.now && Grants(n.threads, key, a, s.now) as real + Filled(r, Spent(current), at, s.now)
                       == r.capacity as real + r.earn(a, s.now);
    AnsweredGrants(s, t, current >= 1.0, key, a, s.now);
  }

  // ---- the second call before the first has written its date ----

  /** The first call has read, the second one begins. */
  ghost predicate BothToWrite(r: Rate, s: Server, key: string, t: nat, u: nat, current: real) {
    && Pair(s, key, t, u) && s.threads[t].phase == Knows(current) && s.threads[u].phase == Begun
    && s.threads[u].at == s.now
    && EntrySound(r, s.book, key, s.threads[t].at) && current == Holds(r, s.book, key, s.threads[t].at)
    && GrantedBy(s.threads, key, s.threads[t].at) && Room(r, s.threads, key, s.threads[t].at, current, true)
  }

  /** The second call runs whole before the first writes: its grant is forgotten. */
  lemma ForgottenGrant(r: Rate, s: Server, key: string, t: nat, u: nat, current: real)
    requires Proper(r) && Flows(r) && BothToWrite(r, s, key, t, u, current) && Holds(r, s.book, key, s.now) >= 1.0
    ensures CanExceed(r, s, key)
  {
    var at, now := s.threads[t].at, s.now;
    HoldsBounds(r, s.book, key, at);
    var a := WindowIsFull(r, s, key, t, current);
    var s2 := PairReads(r, s, key, t, u, a, now);
    var s4 := PairWrites(r, s2, key, t, u, Holds(r, s.book, key, now), a, now);
    var s6 := PairWrites(r, s4, key, u, t, current, a, now);
    assert Holds(r, s6.book, key, now) == Filled(r, Spent(current), at, now);
    PairOver(r, s6, key, u, t, a);
  }

  /** The first call dates the key back after the second has counted the time between: it is counted again. */
  lemma DatedBack(r: Rate, s: Server, key: string, t: nat, u: nat, current: real)
    requires Proper(r) && Flows(r) && BothToWrite(r, s, key, t, u, current)
    requires Holds(r, s.book, key, s.now) < 1.0 && s.threads[t].at < s.now
    ensures CanExceed(r, s, key)
  {
    var at, now := s.threads[t].at, s.now;
    var held := Holds(r, s.book, key, now);
    HoldsBounds(r, s.book, key, at);
    HoldsLater(r, s.book, key, at, now);
    var a := WindowIsFull(r, s, key, t, current);
    var s2 := PairReads(r, s, key, t, u, a, now);
    var s3 := Next(r, s2, SetLast(u));
    PairMoves(r, s2, key, t, u, SetLast(u), a, now);
    var s5 := PairWrites(r, s3, key, u, t, current, a, now);
    var s6 := Next(r, s5, SetTokens(u));
    PairMoves(r, s5, key, t, u, SetTokens(u), a, now);
    assert Holds(r, s6.book, key, now) == Filled(r, held, at, now);
    PairOver(r, s6, key, t, u, a);
  }

  /** The second call takes the old date and the new tokens: the time before is counted again. */
  lemma CountedTwice(r: Rate, s: Server, key: string, t: nat, u: nat, current: real)
    requires Proper(r) && Flows(r) && BothToWrite(r, s, key, t, u, current)
    requires Holds(r, s.book, key, s.now) < 1.0 && s.threads[t].at == s.now && LastOf(s.book, key, s.now) < s.now
    ensures CanExceed(r, s, key)
  {
    var now := s.now;
    var last := LastOf(s.book, key, now);
    HoldsBounds(r, s.book, key, now);
    NothingEarnedAtOnce(r, now);
    var a := WindowIsFull(r, s, key, t, current);
    var s1 := Next(r, s, GetLast(u));
    PairMoves(r, s, key, t, u, GetLast(u), a, now);
    var s3 := PairWrites(r, s1, key, u, t, current, a, now);
    var s4 := Next(r, s3, GetTokens(u));
    PairMoves(r, s3, key, t, u, GetTokens(u), a, now);
    var s6 := PairWrites(r, s4, key, t, u, Filled(r, current, last, now), a, now);
    assert Holds(r, s6.book, key, now) == Spent(Filled(r, current, last, now));
    PairOver(r, s6, key, t, u, a);
  }

  // ---- the second call after the first has written its date ----

  ghost predicate TokensToWrite(r: Rate, s: Server, key: string, t: nat, u: nat, current: real) {
    && Pair(s, key, t, u) && s.threads[t].phase == Dated(current) && s.threads[u].phase == Begun
    && s.threads[u].at == s.now
    && key in s.book.lastRefill && s.book.lastRefill[key] == s.threads[t].at
    && 0.0 <= TokensOf(r, s.book, key) <= r.capacity as real && 0.0 <= current <= r.capacity as real
    && GrantedBy(s.threads, key, s.threads[t].at) && Room(r, s.threads, key, s.threads[t].at, current, true)
  }

  /** The second call reads the old tokens under the new date. */
  lemma OldTokens(r: Rate, s: Server, key: string, t: nat, u: nat, current: real)
    requires Proper(r) && Flows(r) && TokensToWrite(r, s, key, t, u, current)
    requires Filled(r, TokensOf(r, s.book, key), s.threads[t].at, s.now)
           > Filled(r, Spent(current), s.threads[t].at, s.now)
    ensures CanExceed(r, s, key)
  {
    var at, now := s.threads[t].at, s.now;
    var found := Filled(r, TokensOf(r, s.book, key), at, now);
    NothingEarnedAtOnce(r, now);
    var a := WindowIsFull(r, s, key, t, current);
    var s2 := PairReads(r, s, key, t, u, a, now);
    var s3 := Next(r, s2, SetTokens(t));
    PairMoves(r, s2, key, t, u, SetTokens(t), a, now);
    var s5 := PairWrites(r, s3, key, t, u, found, a, now);
    assert Holds(r, s5.book, key, now) == Spent(found);
    PairOver(r, s5, key, t, u, a);
  }

  /** The first call writes its tokens over those the second one left. */
  lemma WrittenOver(r: Rate, s: Server, key: string, t: nat, u: nat, current: real)
    requires Proper(r) && Flows(r) && TokensToWrite(r, s, key, t, u, current)
    requires Filled(r, TokensOf(r, s.book, key), s.threads[t].at, s.now) >= 1.0
    requires Spent(current) + 1.0 > Filled(r, Spent(current), s.threads[t].at, s.now)
    ensures CanExceed(r, s, key)
  {
    var at, now := s.threads[t].at, s.now;
    NothingEarnedAtOnce(r, now);
    var a := WindowIsFull(r, s, key, t, current);
    var s2 := PairReads(r, s, key, t, u, a, now);
    var s4 := PairWrites(r, s2, key, t, u, Holds(r, s.book, key, now), a, now);
    var s5 := Next(r, s4, SetTokens(t));
    PairMoves(r, s4, key, t, u, SetTokens(t), a, now);
    assert Holds(r, s5.book, key, now) == Spent(current);
    PairOver(r, s5, key, t, u, a);
  }

  // ---- a gain is enough ----

  /** The first call has not written, and what it knows is so; the second one begins. */
  ghost predicate FirstReads(r: Rate, s: Server, key: string, t: nat, u: nat) {
    && Pair(s, key, t, u) && s.threads[u].phase == Begun && s.threads[u].at == s.now
    && EntrySound(r, s.book, key, s.threads[t].at) && GrantedBy(s.threads, key, s.threads[t].at)
    && Room(r, s.threads, key, s.threads[t].at, Holds(r, s.book, key, s.threads[t].at), true)
    && match s.threads[t].phase
       case Begun => true
       case KnowsLast(last) => last == LastOf(s.book, key, s.threads[t].at)
       case Knows(current) => current == Holds(r, s.book, key, s.threads[t].at)
       case _ => false
  }

  lemma FirstReadsOn(r: Rate, s: Server, key: string, t: nat, u: nat, step: Step)
    requires FirstReads(r, s, key, t, u) && Enabled(s, step) && (step == GetLast(t) || step == GetTokens(t))
    ensures FirstReads(r, Next(r, s, step), key, t, u) && Next(r, s, step).book == s.book
    ensures Next(r, s, step).now == s.now
    ensures Next(r, s, step).threads[t].at == s.threads[t].at
    ensures CanExceed(r, Next(r, s, step), key) ==> CanExceed(r, s, key)
  {
    var n, at := Next(r, s, step), s.threads[t].at;
    PairMoves(r, s, key, t, u, step, at, at);
    UnansweredSame(r, s, t, n.threads[t].phase, key);
    SameRoom(r, s.threads, n.threads, key, at, Holds(r, s.book, key, at), true);
  }

  lemma FirstToWrite(r: Rate, s: Server, key: string, t: nat, u: nat)
    requires Proper(r) && Flows(r) && FirstReads(r, s, key, t, u) && s.threads[t].phase.Knows?
    requires Holds(r, s.book, key, s.now) >= 1.0 || LastOf(s.book, key, s.now) < s.now
    ensures CanExceed(r, s, key)
  {
    var current := s.threads[t].phase.current;
    if Holds(r, s.book, key, s.now) >= 1.0 {
      ForgottenGrant(r, s, key, t, u, current);
    } else if s.threads[t].at < s.now {
      DatedBack(r, s, key, t, u, current);
    } else {
      CountedTwice(r, s, key, t, u, current);
    }
  }

  lemma FirstGains(r: Rate, s: Server, key: string, t: nat, u: nat)
    requires Proper(r) && Flows(r) && FirstReads(r, s, key, t, u)
    requires Holds(r, s.book, key, s.now) >= 1.0 || LastOf(s.book, key, s.now) < s.now
    ensures CanExceed(r, s, key)
  {
    if s.threads[t].phase.Knows? {
      FirstToWrite(r, s, key, t, u);
    } else if s.threads[t].phase.KnowsLast? {
      FirstReadsOn(r, s, key, t, u, GetTokens(t));
      FirstToWrite(r, Next(r, s, GetTokens(t)), key, t, u);
    } else {
      var n := Next(r, s, GetLast(t));
      FirstReadsOn(r, s, key, t, u, GetLast(t));
      FirstReadsOn(r, n, key, t, u, GetTokens(t));
      FirstToWrite(r, Next(r, n, GetTokens(t)), key, t, u);
    }
  }

  /** The overlapping call has begun. */
  lemma OverlapPairs(r: Rate, s: Server, key: string, at: real, t: nat)
    requires Dates(s) && Lone(s, key, t) && s.now <= at
    ensures var n := Next(r, s, Begin(key, at));
            && Pair(n, key, t, |s.threads|) && n.threads[t] == s.threads[t] && SameGrants(s.threads, n.threads, key)
            && n.threads[|s.threads|] == Thread(key, at, Begun) && GrantedBy(n.threads, key, s.threads[t].at)
  {
    var n := Next(r, s, Begin(key, at));
    forall a, b ensures Grants(n.threads, key, a, b) == Grants(s.threads, key, a, b) {
      GrantsAppend(s.threads, n.threads[|s.threads|], key, a, b);
    }
  }

  lemma GainExceeds(r: Rate, s: Server, key: string, at: real)
    requires Proper(r) && Flows(r) && Orderly(r, s, key, true) && s.now <= at && Gains(r, s, key, at)
    ensures CanExceed(r, Next(r, s, Begin(key, at)), key)
  {
    var t :| 0 <= t < |s.threads| && ActiveAt(s, key, t) && GainsFrom(r, s, key, t, at);
    var v :| 0 <= v < |s.threads| && Lone(s, key, v) && OnItsWay(r, s, key, v, true);
    assert v == t;
    var n, u, first := Next(r, s, Begin(key, at)), |s.threads|, s.threads[t].at;
    OverlapPairs(r, s, key, at, t);
    if s.threads[t].phase.Dated? {
      var current := s.threads[t].phase.current;
      SameRoom(r, s.threads, n.threads, key, first, current, true);
      if Filled(r, TokensOf(r, s.book, key), first, at) > Filled(r, Spent(current), first, at) {
        OldTokens(r, n, key, t, u, current);
      } else {
        WrittenOver(r, n, key, t, u, current);
      }
    } else {
      SameRoom(r, s.threads, n.threads, key, first, Holds(r, s.book, key, first), true);
      FirstGains(r, n, key, t, u);
    }
  }

  // ---- without the condition there is no bound ----

  /** Some run grants the key `n` calls of one instant. */
  ghost predicate CanGrant(r: Rate, s: Server, key: string, at: real, n: nat) {
    exists rest :: Legal(r, s, rest) && Grants(After(r, s, rest).threads, key, at, at) == n
  }

  lemma GrantLater(r: Rate, s: Server, step: Step, key: string, at: real, n: nat)
    requires Enabled(s, step) && CanGrant(r, Next(r, s, step), key, at, n)
    ensures CanGrant(r, s, key, at, n)
  {
    var rest :| Legal(r, Next(r, s, step), rest) && Grants(After(r, Next(r, s, step), rest).threads, key, at, at) == n;
    var run := [step] + rest;
    assert run[1..] == rest;
    assert Legal(r, s, run) && After(r, s, run) == After(r, Next(r, s, step), rest);
  }

  /** The first `m` calls are granted, the others have found the capacity. */
  predicate AllFound(r: Rate, s: Server, key: string, at: real, m: nat) {
    && m <= |s.threads|
    && (forall t :: 0 <= t < m ==> s.threads[t] == Thread(key, at, Answered(true)))
    && (forall t :: m <= t < |s.threads| ==> s.threads[t] == Thread(key, at, Knows(r.capacity as real)))
  }

  lemma {:induction false} AllCounted(threads: seq<Thread>, key: string, at: real)
    requires forall t :: 0 <= t < |threads| ==> threads[t] == Thread(key, at, Answered(true))
    ensures Grants(threads, key, at, at) == |threads|
  {
    if threads != [] { AllCounted(threads[1..], key, at); }
  }

  lemma {:induction false} AllWrite(r: Rate, s: Server, key: string, at: real, m: nat)
    requires r.capacity >= 1 && AllFound(r, s, key, at, m)
    ensures CanGrant(r, s, key, at, |s.threads|)
    decreases |s.threads| - m
  {
    if m == |s.threads| {
      AllCounted(s.threads, key, at);
      assert Legal(r, s, []) && After(r, s, []) == s;
    } else {
      var dated := Next(r, s, SetLast(m));
      var n := Next(r, dated, SetTokens(m));
      AllWrite(r, n, key, at, m + 1);
      GrantLater(r, dated, SetTokens(m), key, at, |s.threads|);
      GrantLater(r, s, SetLast(m), key, at, |s.threads|);
    }
  }

  lemma {:induction false} AllRead(r: Rate, s: Server, key: string, at: real, n: nat)
    requires Proper(r) && AllFound(r, s, key, at, 0) && s.now == at && s.book == RateLimit.EMPTY && |s.threads| <= n
    ensures CanGrant(r, s, key, at, n)
    decreases n - |s.threads|
  {
    var t := |s.threads|;
    if t == n {
      AllWrite(r, s, key, at, 0);
    } else {
      var s1 := Next(r, s, Begin(key, at));
      var s2 := Next(r, s1, GetLast(t));
      var s3 := Next(r, s2, GetTokens(t));
      NothingEarnedAtOnce(r, at);
      AllRead(r, s3, key, at, n);
      GrantLater(r, s2, GetTokens(t), key, at, n);
      GrantLater(r, s1, GetLast(t), key, at, n);
      GrantLater(r, s, Begin(key, at), key, at, n);
    }
  }

  /** Any number of calls of one instant can be granted, whatever the capacity: all read before any writes. */
  lemma OverlapsHaveNoBound(capacity: int, key: string, start: real, n: nat)
    requires capacity >= 1
    ensures CanGrant(Rate(capacity, RateLimit.PerMinute(capacity)), Start(start), key, start, n)
  {
    RateLimit.PerMinuteIsSteady(capacity);
    AllRead(Rate(capacity, RateLimit.PerMinute(capacity)), Start(start), key, start, n);
  }
}
