/** The client that waits for its next token, under threads. */
module RatePatient {
  import opened RateThreads
  import RateLimit

  /** The key's calls begin at least `gap` apart, the first one that long after `last`. */
  predicate Patient(steps: seq<Step>, key: string, gap: real, last: real)
    decreases |steps|
  {
    if steps == [] then true
    else if steps[0].Begin? && steps[0].key == key then
      steps[0].at - last >= gap && Patient(steps[1..], key, gap, steps[0].at)
    else Patient(steps[1..], key, gap, last)
  }

  predicate AllGranted(s: Server, key: string) {
    forall t :: 0 <= t < |s.threads| && s.threads[t].key == key && s.threads[t].phase.Answered? ==>
      s.threads[t].phase.granted
  }

  /** The call under way has, or will find, a token. */
  predicate WillPass(r: Rate, s: Server, key: string, t: nat)
    requires Known(s, t)
  {
    var at := s.threads[t].at;
    match s.threads[t].phase
    case Begun => EntrySound(r, s.book, key, at) && Holds(r, s.book, key, at) >= 1.0
    case KnowsLast(last) =>
      EntrySound(r, s.book, key, at) && Holds(r, s.book, key, at) >= 1.0 && last == LastOf(s.book, key, at)
    case Knows(current) => 1.0 <= current <= r.capacity as real
    case Dated(current) =>
      1.0 <= current <= r.capacity as real && key in s.book.lastRefill && s.book.lastRefill[key] == at
    case Answered(_) => true
  }

  /** Only call `t` of the key is under way, it is the last that began, and it will pass. */
  predicate Passing(r: Rate, s: Server, key: string, t: nat, last: real) {
    && ActiveAt(s, key, t) && WillPass(r, s, key, t) && s.threads[t].at == last && last <= s.now
    && forall v :: 0 <= v < |s.threads| && v != t ==> !ActiveAt(s, key, v)
  }

  predicate Idle(r: Rate, s: Server, key: string, last: real) {
    Quiet(s, key) && EntrySound(r, s.book, key, s.now) && (key in s.book.lastRefill ==> s.book.lastRefill[key] <= last)
  }

  predicate Served(r: Rate, s: Server, key: string, last: real) {
    AllGranted(s, key) && (Idle(r, s, key, last) || exists t :: 0 <= t < |s.threads| && Passing(r, s, key, t, last))
  }

  lemma OtherKeyKeepsServed(r: Rate, s: Server, step: Step, key: string, last: real)
    requires Served(r, s, key, last) && Enabled(s, step) && KeyOf(s, step) != key
    ensures Served(r, Next(r, s, step), key, last)
  {
    var n := Next(r, s, step);
    OtherKeyView(r, s, step, key);
    forall t | 0 <= t < |n.threads| ensures ActiveAt(n, key, t) ==> ActiveAt(s, key, t) {}
    if Idle(r, s, key, last) {
      assert Idle(r, n, key, last);
    } else {
      var t :| 0 <= t < |s.threads| && Passing(r, s, key, t, last);
      assert Passing(r, n, key, t, last);
    }
  }

  lemma BeginKeepsServed(r: Rate, s: Server, key: string, gap: real, last: real, at: real)
    requires Proper(r) && RateLimit.EarnsOne(r.earn, gap) && Served(r, s, key, last) && Quiet(s, key) && s.now <= at
    requires at - last >= gap
    ensures Served(r, Next(r, s, Begin(key, at)), key, at)
  {
    var n, t := Next(r, s, Begin(key, at)), |s.threads|;
    NothingEarnedAtOnce(r, at);
    if key in s.book.lastRefill {
      assert r.earn(s.book.lastRefill[key], at) >= 1.0;
    }
    forall v | 0 <= v < |n.threads| && v != t ensures !ActiveAt(n, key, v) { assert !ActiveAt(s, key, v); }
    assert Passing(r, n, key, t, at);
  }

  lemma OwnStepKeepsServed(r: Rate, s: Server, step: Step, key: string, t: nat, last: real)
    requires Proper(r) && AllGranted(s, key) && Passing(r, s, key, t, last) && Enabled(s, step)
    requires !step.Begin? && step.t == t
    ensures Served(r, Next(r, s, step), key, last)
  {
    var n := Next(r, s, step);
    forall v | 0 <= v < |n.threads| && v != t ensures !ActiveAt(n, key, v) { assert !ActiveAt(s, key, v); }
    if step.SetTokens? {
      assert Idle(r, n, key, last);
    } else {
      assert Passing(r, n, key, t, last);
    }
  }

  lemma {:induction false} PatientIsServed(r: Rate, s: Server, steps: seq<Step>, key: string, gap: real, last: real)
    requires Proper(r) && RateLimit.EarnsOne(r.earn, gap) && Served(r, s, key, last)
    requires Legal(r, s, steps) && NeverOverlaps(r, s, steps, key) && Patient(steps, key, gap, last)
    ensures AllGranted(After(r, s, steps), key)
    decreases |steps|
  {
    if steps != [] {
      var step := steps[0];
      if KeyOf(s, step) != key {
        OtherKeyKeepsServed(r, s, step, key, last);
        PatientIsServed(r, Next(r, s, step), steps[1..], key, gap, last);
      } else if step.Begin? {
        BeginKeepsServed(r, s, key, gap, last, step.at);
        PatientIsServed(r, Next(r, s, step), steps[1..], key, gap, step.at);
      } else {
        assert ActiveAt(s, key, step.t);
        var t :| 0 <= t < |s.threads| && Passing(r, s, key, t, last);
        OwnStepKeepsServed(r, s, step, key, t, last);
        PatientIsServed(r, Next(r, s, step), steps[1..], key, gap, last);
      }
    }
  }

  /**
   In every interleaving in which no two calls of the key overlap, a client that waits 60 / capacity
   seconds between its calls is never refused, whatever other keys do.
   */
  lemma PatientIsNeverRefused(capacity: int, steps: seq<Step>, key: string, start: real, last: real)
    requires capacity >= 1
    requires var r := Rate(capacity, RateLimit.PerMinute(capacity));
             Legal(r, Start(start), steps) && NeverOverlaps(r, Start(start), steps, key)
    requires Patient(steps, key, 60.0 / capacity as real, last)
    ensures AllGranted(After(Rate(capacity, RateLimit.PerMinute(capacity)), Start(start), steps), key)
  {
    var r := Rate(capacity, RateLimit.PerMinute(capacity));
    RateLimit.PerMinuteIsSteady(capacity);
    RateLimit.MinuteEarnsCapacity(capacity);
    assert Idle(r, Start(start), key, last);
    PatientIsServed(r, Start(start), steps, key, 60.0 / capacity as real, last);
  }

  // ---- calls that overlap ----

  /** Some run of a client that patient refuses it a call. */
  ghost predicate CanRefuse(r: Rate, s: Server, key: string, gap: real, last: real) {
    exists rest :: Legal(r, s, rest) && Patient(rest, key, gap, last) && !AllGranted(After(r, s, rest), key)
  }

  lemma RefusedLater(r: Rate, s: Server, step: Step, key: string, gap: real, last: real, later: real)
    requires Enabled(s, step) && CanRefuse(r, Next(r, s, step), key, gap, later)
    requires if step.Begin? && step.key == key then step.at - last >= gap && later == step.at else later == last
    ensures CanRefuse(r, s, key, gap, last)
  {
    var n := Next(r, s, step);
    var rest :| Legal(r, n, rest) && Patient(rest, key, gap, later) && !AllGranted(After(r, n, rest), key);
    var run := [step] + rest;
    assert run[1..] == rest;
    assert Legal(r, s, run) && Patient(run, key, gap, last) && After(r, s, run) == After(r, n, rest);
  }

  /** The calls from `m` on have looked up the last refill, and the key had none. */
  predicate Looked(s: Server, key: string, m: nat) {
    forall t :: m <= t < |s.threads| ==> s.threads[t] == Thread(key, s.threads[t].at, KnowsLast(s.threads[t].at))
  }

  /** One after the other they take the tokens there were, and none counts the time between. */
  lemma {:induction false} TokensRunOut(r: Rate, s: Server, key: string, gap: real, last: real, m: nat)
    requires Proper(r) && m <= r.capacity && r.capacity < |s.threads| && Looked(s, key, m)
    requires TokensOf(r, s.book, key) == (r.capacity - m) as real
    ensures CanRefuse(r, s, key, gap, last)
    decreases r.capacity - m
  {
    NothingEarnedAtOnce(r, s.threads[m].at);
    var s1 := Next(r, s, GetTokens(m));
    var s2 := Next(r, s1, SetLast(m));
    var s3 := Next(r, s2, SetTokens(m));
    assert s1.threads[m].phase == Knows((r.capacity - m) as real);
    if m == r.capacity {
      assert s3.threads[m] == Thread(key, s.threads[m].at, Answered(false)) && !AllGranted(s3, key);
      assert Legal(r, s3, []) && Patient([], key, gap, last) && After(r, s3, []) == s3;
    } else {
      TokensRunOut(r, s3, key, gap, last, m + 1);
    }
    RefusedLater(r, s2, SetTokens(m), key, gap, last, last);
    RefusedLater(r, s1, SetLast(m), key, gap, last, last);
    RefusedLater(r, s, GetTokens(m), key, gap, last, last);
  }

  lemma {:induction false} AllLook(r: Rate, s: Server, key: string, gap: real)
    requires Proper(r) && gap >= 0.0 && Looked(s, key, 0) && s.book == RateLimit.EMPTY && |s.threads| <= r.capacity + 1
    ensures CanRefuse(r, s, key, gap, s.now)
    decreases r.capacity + 1 - |s.threads|
  {
    var t, at := |s.threads|, s.now + gap;
    if t > r.capacity {
      TokensRunOut(r, s, key, gap, s.now, 0);
    } else {
      var s1 := Next(r, s, Begin(key, at));
      var s2 := Next(r, s1, GetLast(t));
      AllLook(r, s2, key, gap);
      RefusedLater(r, s1, GetLast(t), key, gap, at, at);
      RefusedLater(r, s, Begin(key, at), key, gap, s.now, at);
    }
  }

  /** Where its calls overlap, the patient client can be refused, whatever the capacity and however long it waits. */
  lemma PatientCanBeRefused(capacity: int, key: string, gap: real, start: real)
    requires capacity >= 1 && gap >= 0.0
    ensures CanRefuse(Rate(capacity, RateLimit.PerMinute(capacity)), Start(start), key, gap, start)
  {
    RateLimit.PerMinuteIsSteady(capacity);
    AllLook(Rate(capacity, RateLimit.PerMinute(capacity)), Start(start), key, gap);
  }
}
