/** The per-client token bucket, its clock a parameter and its arithmetic over the reals. */
module RateLimit {

  datatype Book = Book(tokens: map<string, real>, lastRefill: map<string, real>)

  const EMPTY := Book(map[], map[])

  /** The tokens earned between two instants. */
  type Earnings = (real, real) -> real

  function PerMinute(capacity: int): Earnings {
    (start: real, end: real) => (end - start) * (capacity as real / 60.0)
  }

  function Min(a: real, b: real): real {
    if a <= b then a else b
  }

  /** The tokens a key has at an instant; a key not seen before has them all. */
  function Level(capacity: int, earn: Earnings, book: Book, key: string, now: real): real {
    var last := if key in book.lastRefill then book.lastRefill[key] else now;
    var current := if key in book.tokens then book.tokens[key] else capacity as real;
    Min(capacity as real, current + earn(last, now))
  }

  /** Whether a call is allowed. */
  predicate IsAllowed(capacity: int, earn: Earnings, book: Book, key: string, now: real) {
    Level(capacity, earn, book, key, now) >= 1.0
  }

  /** The book after a call. */
  function Called(capacity: int, earn: Earnings, book: Book, key: string, now: real): Book {
    var current := Level(capacity, earn, book, key, now);
    var left := if IsAllowed(capacity, earn, book, key, now) then current - 1.0 else current;
    Book(book.tokens[key := left], book.lastRefill[key := now])
  }

  class TokenBucket {
    const capacity: int
    var tokens: map<string, real>
    var lastRefill: map<string, real>

    ghost function Contents(): Book
      reads this
    {
      Book(tokens, lastRefill)
    }

    constructor (capacity: int)
      ensures this.capacity == capacity && Contents() == EMPTY
    {
      this.capacity := capacity;
      tokens, lastRefill := map[], map[];
    }

    method Allow(key: string, now: real) returns (ok: bool)
      modifies this
      ensures ok == IsAllowed(capacity, PerMinute(capacity), old(Contents()), key, now)
      ensures Contents() == Called(capacity, PerMinute(capacity), old(Contents()), key, now)
    {
      var last := if key in lastRefill then lastRefill[key] else now;
      var elapsed := now - last;
      var current := if key in tokens then tokens[key] else capacity as real;
      current := Min(capacity as real, current + elapsed * (capacity as real / 60.0));
      assert current == Level(capacity, PerMinute(capacity), Contents(), key, now);
      lastRefill := lastRefill[key := now];
      if current >= 1.0 {
        tokens := tokens[key := current - 1.0];
        return true;
      }
      tokens := tokens[key := current];
      return false;
    }

    method Reset()
      modifies this
      ensures Contents() == EMPTY
    {
      tokens, lastRefill := map[], map[];
    }
  }

  // ---- runs ----

  datatype Call = Call(key: string, at: real)

  function After(capacity: int, earn: Earnings, book: Book, calls: seq<Call>): Book
    decreases |calls|
  {
    if calls == [] then book
    else After(capacity, earn, Called(capacity, earn, book, calls[0].key, calls[0].at), calls[1..])
  }

  /** Whether a call counts for the key: it is the key's and is allowed. */
  predicate Granted(capacity: int, earn: Earnings, book: Book, call: Call, key: string) {
    call.key == key && IsAllowed(capacity, earn, book, key, call.at)
  }

  /** How many calls of the key are allowed. */
  function Grants(capacity: int, earn: Earnings, book: Book, calls: seq<Call>, key: string): nat
    decreases |calls|
  {
    if calls == [] then 0
    else
      (if Granted(capacity, earn, book, calls[0], key) then 1 else 0)
      + Grants(capacity, earn, Called(capacity, earn, book, calls[0].key, calls[0].at), calls[1..], key)
  }

  /** The clock never goes back, from `start` on. */
  predicate Monotone(calls: seq<Call>, start: real) {
    calls == [] || (start <= calls[0].at && Monotone(calls[1..], calls[0].at))
  }

  function End(calls: seq<Call>, start: real): real {
    if calls == [] then start else calls[|calls| - 1].at
  }

  /** Each key's entry is dated no later than `now` and within the capacity. */
  ghost predicate Sound(capacity: int, book: Book, now: real) {
    && book.tokens.Keys == book.lastRefill.Keys
    && forall k :: k in book.tokens ==>
         book.lastRefill[k] <= now && book.tokens[k] <= capacity as real && (capacity >= 0 ==> book.tokens[k] >= 0.0)
  }

  /** Earnings add up, and are none of the negative. */
  ghost predicate Steady(earn: Earnings) {
    && (forall a, b, c {:trigger earn(a, b), earn(b, c)} :: earn(a, c) == earn(a, b) + earn(b, c))
    && (forall a, b :: a <= b ==> earn(a, b) >= 0.0)
  }

  lemma Product(a: real, b: real)
    requires a >= 0.0 && b >= 0.0
    ensures a * b >= 0.0
  {}

  lemma PerMinuteIsSteady(capacity: int)
    requires capacity >= 0
    ensures Steady(PerMinute(capacity))
  {
    var earn, rate := PerMinute(capacity), capacity as real / 60.0;
    forall a, b, c ensures earn(a, c) == earn(a, b) + earn(b, c) {
      assert (c - a) * rate == (b - a) * rate + (c - b) * rate;
    }
    forall a: real, b: real | a <= b ensures earn(a, b) >= 0.0 { Product(b - a, rate); }
  }

  lemma LevelBounds(capacity: int, earn: Earnings, book: Book, key: string, now: real)
    requires Sound(capacity, book, now)
    ensures Level(capacity, earn, book, key, now) <= capacity as real
    ensures capacity >= 0 && Steady(earn) ==> Level(capacity, earn, book, key, now) >= 0.0
  {}

  /** Waiting earns no more than the earnings. */
  lemma LevelEarns(capacity: int, earn: Earnings, book: Book, key: string, now: real, later: real)
    requires Steady(earn) && Sound(capacity, book, now) && now <= later
    ensures Level(capacity, earn, book, key, later) <= Level(capacity, earn, book, key, now) + earn(now, later)
  {}

  lemma CallKeepsSound(capacity: int, earn: Earnings, book: Book, call: Call, start: real)
    requires (capacity >= 0 ==> Steady(earn)) && Sound(capacity, book, start) && start <= call.at
    ensures Sound(capacity, Called(capacity, earn, book, call.key, call.at), call.at)
  {
    assert Sound(capacity, book, call.at);
    LevelBounds(capacity, earn, book, call.key, call.at);
  }

  /** A call costs its own key one token if it is allowed, and no other key anything. */
  lemma CallCosts(capacity: int, earn: Earnings, book: Book, call: Call, key: string)
    requires Steady(earn)
    ensures Level(capacity, earn, Called(capacity, earn, book, call.key, call.at), key, call.at)
         == Level(capacity, earn, book, key, call.at) - if Granted(capacity, earn, book, call, key) then 1.0 else 0.0
  {
    assert earn(call.at, call.at) == earn(call.at, call.at) + earn(call.at, call.at);
  }

  lemma {:induction false} RunKeepsSound(capacity: int, earn: Earnings, book: Book, calls: seq<Call>, start: real)
    requires (capacity >= 0 ==> Steady(earn)) && Sound(capacity, book, start) && Monotone(calls, start)
    ensures Sound(capacity, After(capacity, earn, book, calls), End(calls, start))
    decreases |calls|
  {
    if calls != [] {
      CallKeepsSound(capacity, earn, book, calls[0], start);
      RunKeepsSound(capacity, earn, Called(capacity, earn, book, calls[0].key, calls[0].at), calls[1..], calls[0].at);
    }
  }

  /** What a key is granted and what it has left never exceed what it had and what it earned. */
  lemma {:induction false} Conserved(capacity: int, earn: Earnings, book: Book, calls: seq<Call>, key: string,
                                     start: real)
    requires capacity >= 0 && Steady(earn) && Sound(capacity, book, start) && Monotone(calls, start)
    ensures Grants(capacity, earn, book, calls, key) as real
              + Level(capacity, earn, After(capacity, earn, book, calls), key, End(calls, start))
         <= Level(capacity, earn, book, key, start) + earn(start, End(calls, start))
    decreases |calls|
  {
    if calls != [] {
      var call := calls[0];
      CallKeepsSound(capacity, earn, book, call, start);
      Conserved(capacity, earn, Called(capacity, earn, book, call.key, call.at), calls[1..], key, call.at);
      LevelEarns(capacity, earn, book, key, start, call.at);
      CallCosts(capacity, earn, book, call, key);
      assert earn(start, End(calls, start)) == earn(start, call.at) + earn(call.at, End(calls, start));
    }
  }

  lemma {:induction false} NothingWithoutCapacity(capacity: int, earn: Earnings, book: Book, calls: seq<Call>,
                                                  key: string, start: real)
    requires capacity <= 0 && (capacity >= 0 ==> Steady(earn)) && Sound(capacity, book, start) && Monotone(calls, start)
    ensures Grants(capacity, earn, book, calls, key) == 0
    decreases |calls|
  {
    if calls != [] {
      CallKeepsSound(capacity, earn, book, calls[0], start);
      LevelBounds(capacity, earn, book, calls[0].key, calls[0].at);
      NothingWithoutCapacity(capacity, earn, Called(capacity, earn, book, calls[0].key, calls[0].at), calls[1..], key,
                             calls[0].at);
    }
  }

  lemma PerMinuteIs(capacity: int, a: real, b: real)
    ensures PerMinute(capacity)(a, b) == (b - a) * (capacity as real / 60.0)
  {}

  lemma WindowEarns(capacity: int, before: seq<Call>, window: seq<Call>, key: string, start: real)
    requires Monotone(before, start) && window != [] && Monotone(window, End(before, start))
    ensures Grants(capacity, PerMinute(capacity), After(capacity, PerMinute(capacity), EMPTY, before), window,
                   key) as real
         <= if capacity > 0 then
              capacity as real + PerMinute(capacity)(window[0].at, window[|window| - 1].at)
            else 0.0
  {
    var earn, first := PerMinute(capacity), window[0].at;
    var book := After(capacity, earn, EMPTY, before);
    if capacity >= 0 { PerMinuteIsSteady(capacity); }
    RunKeepsSound(capacity, earn, EMPTY, before, start);
    assert Sound(capacity, book, first);
    if capacity > 0 {
      Conserved(capacity, earn, book, window, key, first);
      RunKeepsSound(capacity, earn, book, window, first);
      LevelBounds(capacity, earn, book, key, first);
      LevelBounds(capacity, earn, After(capacity, earn, book, window), key, End(window, first));
    } else {
      NothingWithoutCapacity(capacity, earn, book, window, key, first);
    }
  }

  /**
   In every run, whatever came before, a window of calls that lasts T seconds grants one key at most
   capacity + T * capacity / 60 of them, and none if the capacity is not positive.
   */
  lemma WindowBound(capacity: int, before: seq<Call>, window: seq<Call>, key: string, start: real,
                    a: real, b: real, grants: nat)
    requires Monotone(before, start) && window != [] && Monotone(window, End(before, start))
    requires a == window[0].at && b == window[|window| - 1].at
    requires grants
          == Grants(capacity, PerMinute(capacity), After(capacity, PerMinute(capacity), EMPTY, before), window, key)
    ensures grants as real <= if capacity > 0 then capacity as real + (b - a) * (capacity as real / 60.0) else 0.0
  {
    WindowEarns(capacity, before, window, key, start);
    MinuteBound(grants, capacity, a, b);
  }

  lemma MinuteBound(grants: nat, capacity: int, a: real, b: real)
    requires grants as real <= if capacity > 0 then capacity as real + PerMinute(capacity)(a, b) else 0.0
    ensures grants as real <= if capacity > 0 then capacity as real + (b - a) * (capacity as real / 60.0) else 0.0
  {
    PerMinuteIs(capacity, a, b);
  }

  /** The bound is met: of calls at one instant, a key is granted as many as it has tokens. */
  lemma {:induction false} BurstMeetsTheBound(capacity: int, earn: Earnings, book: Book, calls: seq<Call>,
                                              key: string, now: real, left: nat)
    requires capacity >= 1 && Steady(earn) && Sound(capacity, book, now)
    requires Level(capacity, earn, book, key, now) == left as real
    requires forall k :: 0 <= k < |calls| ==> calls[k] == Call(key, now)
    ensures Grants(capacity, earn, book, calls, key) == if |calls| <= left then |calls| else left
    decreases |calls|
  {
    if calls != [] {
      CallKeepsSound(capacity, earn, book, calls[0], now);
      CallCosts(capacity, earn, book, calls[0], key);
      BurstMeetsTheBound(capacity, earn, Called(capacity, earn, book, key, now), calls[1..], key, now,
                         if left == 0 then 0 else left - 1);
    }
  }

  /** A key not seen before has the whole capacity. */
  lemma NewKeyIsFull(capacity: int, book: Book, key: string, now: real)
    requires key !in book.tokens && key !in book.lastRefill
    ensures Level(capacity, PerMinute(capacity), book, key, now) == capacity as real
  {
    assert PerMinute(capacity)(now, now) == 0.0;
  }

  /**
   After a call the key has what it had, less a token if that call was granted, and a capacity each
   minute since, up to the capacity.
   */
  lemma RefillIsExact(capacity: int, book: Book, key: string, at: real, later: real)
    ensures
      var had := Level(capacity, PerMinute(capacity), book, key, at);
      var left := if had >= 1.0 then had - 1.0 else had;
      Level(capacity, PerMinute(capacity), Called(capacity, PerMinute(capacity), book, key, at), key, later)
      == Min(capacity as real, left + (later - at) * (capacity as real / 60.0))
  {}

  /** So of calls of a new key at one instant the first `capacity` are granted, and no more. */
  lemma NewKeyBurst(capacity: int, calls: seq<Call>, key: string, now: real)
    requires capacity >= 1 && forall k :: 0 <= k < |calls| ==> calls[k] == Call(key, now)
    ensures Grants(capacity, PerMinute(capacity), EMPTY, calls, key)
            == if |calls| <= capacity then |calls| else capacity
  {
    PerMinuteIsSteady(capacity);
    NewKeyIsFull(capacity, EMPTY, key, now);
    BurstMeetsTheBound(capacity, PerMinute(capacity), EMPTY, calls, key, now, capacity);
  }

  // ---- a patient client ----

  /** The key's calls come at least `gap` apart, the first one that long after `last`. */
  predicate Patient(calls: seq<Call>, key: string, gap: real, last: real) {
    if calls == [] then true
    else if calls[0].key != key then Patient(calls[1..], key, gap, last)
    else calls[0].at - last >= gap && Patient(calls[1..], key, gap, calls[0].at)
  }

  function CallsOf(calls: seq<Call>, key: string): nat {
    if calls == [] then 0 else (if calls[0].key == key then 1 else 0) + CallsOf(calls[1..], key)
  }

  /** The key was last called no later than `last`, if at all. */
  predicate CalledBy(book: Book, key: string, last: real) {
    key in book.lastRefill ==> book.lastRefill[key] <= last
  }

  /** A gap that earns a token. */
  ghost predicate EarnsOne(earn: Earnings, gap: real) {
    forall a, b :: b - a >= gap ==> earn(a, b) >= 1.0
  }

  lemma {:induction false} SpacedIsGranted(capacity: int, earn: Earnings, book: Book, calls: seq<Call>,
                                           key: string, gap: real, start: real, last: real)
    requires capacity >= 1 && Steady(earn) && EarnsOne(earn, gap) && Sound(capacity, book, start)
    requires Monotone(calls, start)
    requires gap >= 0.0 && CalledBy(book, key, last) && Patient(calls, key, gap, last)
    ensures Grants(capacity, earn, book, calls, key) == CallsOf(calls, key)
    decreases |calls|
  {
    if calls != [] {
      var call := calls[0];
      var next := Called(capacity, earn, book, call.key, call.at);
      CallKeepsSound(capacity, earn, book, call, start);
      if call.key == key {
        assert key in book.tokens ==> earn(book.lastRefill[key], call.at) >= 1.0;
        assert earn(call.at, call.at) >= 0.0;
        assert IsAllowed(capacity, earn, book, key, call.at);
        SpacedIsGranted(capacity, earn, next, calls[1..], key, gap, call.at, call.at);
      } else {
        SpacedIsGranted(capacity, earn, next, calls[1..], key, gap, call.at, last);
      }
    }
  }

  lemma MinuteEarnsCapacity(capacity: int)
    requires capacity >= 1
    ensures EarnsOne(PerMinute(capacity), 60.0 / capacity as real) && 60.0 / capacity as real >= 0.0
  {
    var c, gap := capacity as real, 60.0 / capacity as real;
    assert gap * (c / 60.0) == 1.0;
    forall a: real, b: real | b - a >= gap ensures PerMinute(capacity)(a, b) >= 1.0 {
      Product(b - a - gap, c / 60.0);
      assert (b - a) * (c / 60.0) == (b - a - gap) * (c / 60.0) + gap * (c / 60.0);
    }
  }

  /** A client that waits 60 / capacity seconds between its calls is never refused, whatever other keys do. */
  lemma PatientIsNeverRefused(capacity: int, calls: seq<Call>, key: string, start: real, last: real)
    requires capacity >= 1 && Monotone(calls, start) && Patient(calls, key, 60.0 / capacity as real, last)
    ensures Grants(capacity, PerMinute(capacity), EMPTY, calls, key) == CallsOf(calls, key)
  {
    PerMinuteIsSteady(capacity);
    MinuteEarnsCapacity(capacity);
    SpacedIsGranted(capacity, PerMinute(capacity), EMPTY, calls, key, 60.0 / capacity as real, start, last);
  }
}
