/**
 The two-tier schema cache under concurrent calls: the in-process map and the hydration locks,
 the stored copies, and every interleaving of the lock-guarded blocks of the calls.
 */
module SchemaCache {
  import opened Collections

  /** An immutable cache entry; `stamp` numbers the analyses in the order they were put. */
  datatype Entry = Entry(stamp: nat, acquiredAt: real)

  /** Entries are objects: a reference is a place in the heap, and `is` compares references. */
  type Ref = nat

  /**
   Where a call is. A lookup that missed waits for its database's hydration lock, holds it, reads the
   stored copy, installs it, and gives the lock back; a get then judges what it found.
   */
  datatype Pc =
    | Waiting
    | Holding
    | Reading
    | Installing(read: Ref)
    | Releasing(found: Option<Ref>)
    | Judging(found: Option<Ref>)
    | Evicting(expired: Ref)
    | Persisting(entry: Ref)
    | Touching(entry: Ref)
    | Returned(result: Option<Ref>)

  /** `evicts` tells a get from a peek. */
  datatype Call = Call(db: string, evicts: bool, now: real, hydrationLock: nat, pc: Pc)

  datatype State = State(
    ttl: real,
    heap: seq<Entry>,
    l1: map<string, Ref>,
    stored: map<string, Entry>,
    locks: map<string, nat>,
    held: map<nat, nat>,
    calls: seq<Call>,
    nextLock: nat,
    nextStamp: nat)

  function Initial(ttl: real, stored: map<string, Entry>, nextStamp: nat): State {
    State(ttl, [], map[], stored, map[], map[], [], 0, nextStamp)
  }

  datatype Step =
    | Look(db: string, handle: bool, evicts: bool, now: real)
    | Acquire(t: nat)
    | Recheck(t: nat)
    | Read(t: nat)
    | Install(t: nat)
    | Release(t: nat)
    | Judge(t: nat)
    | Evict(t: nat)
    | Put(db: string, handle: bool, now: real)
    | Persist(t: nat, succeeds: bool)
    | Revalidate(db: string, handle: bool, now: real)
    | Touch(t: nat)
    | Invalidate(db: string)
    | Clear
    | DropStored(db: string)
    | StoreElsewhere(db: string, now: real)

  predicate IsExpired(e: Entry, now: real, ttl: real) {
    ttl > 0.0 && now - e.acquiredAt >= ttl
  }

  predicate Known(s: State, t: nat) {
    t < |s.calls|
  }

  predicate Enabled(s: State, step: Step) {
    match step
    case Acquire(t) => Known(s, t) && s.calls[t].pc.Waiting? && s.calls[t].hydrationLock !in s.held
    case Recheck(t) => Known(s, t) && s.calls[t].pc.Holding?
    case Read(t) => Known(s, t) && s.calls[t].pc.Reading?
    case Install(t) => Known(s, t) && s.calls[t].pc.Installing?
    case Release(t) => Known(s, t) && s.calls[t].pc.Releasing? && s.calls[t].hydrationLock in s.held
    case Judge(t) => Known(s, t) && s.calls[t].pc.Judging?
    case Evict(t) => Known(s, t) && s.calls[t].pc.Evicting?
    case Persist(t, _) => Known(s, t) && s.calls[t].pc.Persisting?
    case Touch(t) => Known(s, t) && s.calls[t].pc.Touching?
    case _ => true
  }

  function At(s: State, db: string): Option<Ref> {
    if db in s.l1 then Some(s.l1[db]) else None
  }

  function Moved(s: State, t: nat, pc: Pc): State
    requires Known(s, t)
  {
    s.(calls := s.calls[t := s.calls[t].(pc := pc)])
  }

  function Begun(s: State, call: Call): State {
    s.(calls := s.calls + [call])
  }

  function Looked(s: State, db: string, handle: bool, evicts: bool, now: real): State {
    if db in s.l1 || !handle then Begun(s, Call(db, evicts, now, 0, Judging(At(s, db))))
    else if db in s.locks then Begun(s, Call(db, evicts, now, s.locks[db], Waiting))
    else Begun(s.(locks := s.locks[db := s.nextLock], nextLock := s.nextLock + 1),
               Call(db, evicts, now, s.nextLock, Waiting))
  }

  function Entered(s: State, r: Ref): Entry {
    if r < |s.heap| then s.heap[r] else Entry(0, 0.0)
  }

  /** What a get does with what its lookup found; a peek returns it as it is. */
  function Verdict(s: State, call: Call, found: Option<Ref>): Pc {
    if found.Some? && call.evicts && IsExpired(Entered(s, found.value), call.now, s.ttl) then Evicting(found.value)
    else Returned(found)
  }

  /** A new entry in the map: its stamp is new for a put, and the old entry's for a revalidation. */
  function Replaced(s: State, db: string, e: Entry): State {
    s.(heap := s.heap + [e], l1 := s.l1[db := |s.heap|],
       nextStamp := if e.stamp >= s.nextStamp then e.stamp + 1 else s.nextStamp)
  }

  function Next(s: State, step: Step): State
    requires Enabled(s, step)
  {
    match step
    case Look(db, handle, evicts, now) => Looked(s, db, handle, evicts, now)
    case Acquire(t) => Moved(s.(held := s.held[s.calls[t].hydrationLock := t]), t, Holding)
    case Recheck(t) => Moved(s, t, if s.calls[t].db in s.l1 then Releasing(Some(s.l1[s.calls[t].db])) else Reading)
    case Read(t) =>
      if s.calls[t].db in s.stored then Moved(s.(heap := s.heap + [s.stored[s.calls[t].db]]), t, Installing(|s.heap|))
      else Moved(s, t, Releasing(None))
    case Install(t) =>
      var db, read := s.calls[t].db, s.calls[t].pc.read;
      if db in s.l1 then Moved(s, t, Releasing(Some(s.l1[db])))
      else Moved(s.(l1 := s.l1[db := read]), t, Releasing(Some(read)))
    case Release(t) => Moved(s.(held := s.held - {s.calls[t].hydrationLock}), t, Judging(s.calls[t].pc.found))
    case Judge(t) => Moved(s, t, Verdict(s, s.calls[t], s.calls[t].pc.found))
    case Evict(t) =>
      var db := s.calls[t].db;
      var kept := if db in s.l1 && s.l1[db] == s.calls[t].pc.expired then s.l1 - {db} else s.l1;
      Moved(s.(l1 := kept), t, Returned(None))
    case Put(db, handle, now) =>
      var done := Replaced(s, db, Entry(s.nextStamp, now));
      Begun(done, Call(db, false, now, 0, if handle then Persisting(|s.heap|) else Returned(Some(|s.heap|))))
    case Persist(t, succeeds) =>
      var entry := s.calls[t].pc.entry;
      var kept := if succeeds then s.stored[s.calls[t].db := Entered(s, entry)] else s.stored;
      Moved(s.(stored := kept), t, Returned(Some(entry)))
    case Revalidate(db, handle, now) =>
      if db !in s.l1 then Begun(s, Call(db, false, now, 0, Returned(None)))
      else
        var done := Replaced(s, db, Entered(s, s.l1[db]).(acquiredAt := now));
        Begun(done, Call(db, false, now, 0, if handle then Touching(|s.heap|) else Returned(Some(|s.heap|))))
    case Touch(t) =>
      var db, entry := s.calls[t].db, s.calls[t].pc.entry;
      var kept :=
        if db in s.stored then s.stored[db := s.stored[db].(acquiredAt := Entered(s, entry).acquiredAt)] else s.stored;
      Moved(s.(stored := kept), t, Returned(Some(entry)))
    case Invalidate(db) => s.(l1 := s.l1 - {db})
    case Clear => s.(l1 := map[])
    case DropStored(db) => s.(stored := s.stored - {db})
    case StoreElsewhere(db, now) => s.(stored := s.stored[db := Entry(s.nextStamp, now)], nextStamp := s.nextStamp + 1)
  }

  // ---- the invariant ----

  predicate Holds(pc: Pc) {
    pc.Holding? || pc.Reading? || pc.Installing? || pc.Releasing?
  }

  predicate Queued(pc: Pc) {
    pc.Waiting? || Holds(pc)
  }

  /** Each lock that is held is held by the call that is inside it, and each call inside holds it. */
  predicate HeldByThoseInside(s: State) {
    && (forall t :: 0 <= t < |s.calls| && Holds(s.calls[t].pc) ==>
          s.calls[t].hydrationLock in s.held && s.held[s.calls[t].hydrationLock] == t)
    && (forall l :: l in s.held ==>
          Known(s, s.held[l]) && Holds(s.calls[s.held[l]].pc) && s.calls[s.held[l]].hydrationLock == l)
  }

  /** Every call at a hydration lock is at its database's one. */
  predicate OneLockEach(s: State) {
    && (forall t :: 0 <= t < |s.calls| && Queued(s.calls[t].pc) ==>
          s.calls[t].db in s.locks && s.locks[s.calls[t].db] == s.calls[t].hydrationLock)
    && (forall db :: db in s.locks ==> s.locks[db] < s.nextLock)
    && (forall a, b :: a in s.locks && b in s.locks && s.locks[a] == s.locks[b] ==> a == b)
  }

  function RefOf(pc: Pc): Option<Ref> {
    match pc
    case Installing(r) => Some(r)
    case Releasing(o) => o
    case Judging(o) => o
    case Evicting(r) => Some(r)
    case Persisting(r) => Some(r)
    case Touching(r) => Some(r)
    case Returned(o) => o
    case _ => None
  }

  /** No reference dangles, and every stamp has been given out. */
  predicate Referenced(s: State) {
    && (forall db :: db in s.l1 ==> s.l1[db] < |s.heap|)
    && (forall t :: 0 <= t < |s.calls| && RefOf(s.calls[t].pc).Some? ==> RefOf(s.calls[t].pc).value < |s.heap|)
    && 0 < s.nextStamp && (forall r :: 0 <= r < |s.heap| ==> s.heap[r].stamp < s.nextStamp)
    && (forall db :: db in s.stored ==> s.stored[db].stamp < s.nextStamp)
  }

  predicate CallJudged(s: State, call: Call) {
    && (call.pc.Persisting? || call.pc.Touching? ==> !call.evicts)
    && (call.pc.Evicting?
        ==> call.evicts && call.pc.expired < |s.heap| && IsExpired(s.heap[call.pc.expired], call.now, s.ttl))
    && (call.evicts && call.pc.Returned? && call.pc.result.Some? ==>
          call.pc.result.value < |s.heap| && !IsExpired(s.heap[call.pc.result.value], call.now, s.ttl))
  }

  /** A get evicts only what is expired, and returns only what is not. */
  predicate RightlyJudged(s: State) {
    forall t :: 0 <= t < |s.calls| ==> CallJudged(s, s.calls[t])
  }

  predicate Valid(s: State) {
    HeldByThoseInside(s) && OneLockEach(s) && Referenced(s) && RightlyJudged(s)
  }

  function CallOf(step: Step): int {
    match step
    case Acquire(t) => t case Recheck(t) => t case Read(t) => t case Install(t) => t case Release(t) => t
    case Judge(t) => t case Evict(t) => t case Persist(t, _) => t case Touch(t) => t
    case _ => -1
  }

  /** Only the step's own call moves, and no call is anything but where it is; at most one begins. */
  predicate SameCalls(s: State, u: State, mover: int) {
    && |s.calls| <= |u.calls| <= |s.calls| + 1
    && forall t :: 0 <= t < |s.calls| ==>
         if t == mover then u.calls[t] == s.calls[t].(pc := u.calls[t].pc) else u.calls[t] == s.calls[t]
  }

  lemma StepFrame(s: State, step: Step)
    requires Enabled(s, step)
    ensures SameCalls(s, Next(s, step), CallOf(step))
  {}

  /** Which steps change the locks. */
  lemma StepLocks(s: State, step: Step)
    requires Enabled(s, step)
    ensures !step.Acquire? && !step.Release? ==> Next(s, step).held == s.held
    ensures !step.Look? ==> Next(s, step).locks == s.locks && Next(s, step).nextLock == s.nextLock
  {}

  /** The heap and the stamps only grow. */
  lemma StepGrows(s: State, step: Step)
    requires Enabled(s, step)
    ensures Next(s, step).ttl == s.ttl && s.heap <= Next(s, step).heap && s.nextStamp <= Next(s, step).nextStamp
  {
    HeapGrows(s, step);
    StampsGrow(s, step);
  }

  lemma HeapGrows(s: State, step: Step)
    requires Enabled(s, step)
    ensures s.heap <= Next(s, step).heap
  {}

  lemma StampsGrow(s: State, step: Step)
    requires Enabled(s, step)
    ensures Next(s, step).ttl == s.ttl && s.nextStamp <= Next(s, step).nextStamp
  {}

  lemma StepInside(s: State, step: Step)
    requires Enabled(s, step)
    ensures 0 <= CallOf(step) && !step.Acquire? && !step.Release? ==>
              (Holds(s.calls[CallOf(step)].pc) <==> Holds(Next(s, step).calls[CallOf(step)].pc))
    ensures |Next(s, step).calls| > |s.calls| ==> !Holds(Next(s, step).calls[|s.calls|].pc)
  {}

  lemma InsideKeepsHeld(s: State, u: State, mover: int)
    requires HeldByThoseInside(s) && SameCalls(s, u, mover) && u.held == s.held && mover < |s.calls|
    requires 0 <= mover ==> (Holds(s.calls[mover].pc) <==> Holds(u.calls[mover].pc))
    requires |u.calls| > |s.calls| ==> !Holds(u.calls[|s.calls|].pc)
    ensures HeldByThoseInside(u)
  {
    forall t | 0 <= t < |u.calls| && Holds(u.calls[t].pc)
      ensures u.calls[t].hydrationLock in u.held && u.held[u.calls[t].hydrationLock] == t
    {
      assert t < |s.calls| && Holds(s.calls[t].pc);
    }
    forall l | l in u.held
      ensures Known(u, u.held[l]) && Holds(u.calls[u.held[l]].pc) && u.calls[u.held[l]].hydrationLock == l
    {
      assert Known(s, s.held[l]) && Holds(s.calls[s.held[l]].pc);
    }
  }

  lemma AcquireKeepsHeld(s: State, t: nat)
    requires HeldByThoseInside(s) && Enabled(s, Acquire(t))
    ensures HeldByThoseInside(Next(s, Acquire(t)))
  {
    var u := Next(s, Acquire(t));
    forall v | 0 <= v < |u.calls| && Holds(u.calls[v].pc)
      ensures u.calls[v].hydrationLock in u.held && u.held[u.calls[v].hydrationLock] == v
    {
      if v != t { assert Holds(s.calls[v].pc); }
    }
  }

  lemma ReleaseKeepsHeld(s: State, t: nat)
    requires HeldByThoseInside(s) && Enabled(s, Release(t))
    ensures HeldByThoseInside(Next(s, Release(t)))
  {
    var u := Next(s, Release(t));
    assert Holds(s.calls[t].pc);
    forall v | 0 <= v < |u.calls| && Holds(u.calls[v].pc)
      ensures u.calls[v].hydrationLock in u.held && u.held[u.calls[v].hydrationLock] == v
    {
      assert v != t && Holds(s.calls[v].pc);
    }
  }

  lemma StepKeepsHeld(s: State, step: Step)
    requires HeldByThoseInside(s) && Enabled(s, step)
    ensures HeldByThoseInside(Next(s, step))
  {
    if step.Acquire? { AcquireKeepsHeld(s, step.t); }
    else if step.Release? { ReleaseKeepsHeld(s, step.t); }
    else {
      StepFrame(s, step);
      StepLocks(s, step);
      StepInside(s, step);
      MoverIsKnown(s, step);
      InsideKeepsHeld(s, Next(s, step), CallOf(step));
    }
  }

  lemma MoverIsKnown(s: State, step: Step)
    requires Enabled(s, step)
    ensures CallOf(step) < |s.calls|
  {}

  lemma StepQueues(s: State, step: Step)
    requires Enabled(s, step) && !step.Look?
    ensures 0 <= CallOf(step) && Queued(Next(s, step).calls[CallOf(step)].pc) ==> Queued(s.calls[CallOf(step)].pc)
    ensures |Next(s, step).calls| > |s.calls| ==> !Queued(Next(s, step).calls[|s.calls|].pc)
  {}

  lemma LookKeepsLocks(s: State, db: string, handle: bool, evicts: bool, now: real)
    requires OneLockEach(s)
    ensures OneLockEach(Looked(s, db, handle, evicts, now))
  {
    var u := Looked(s, db, handle, evicts, now);
    forall t | 0 <= t < |u.calls| && Queued(u.calls[t].pc)
      ensures u.calls[t].db in u.locks && u.locks[u.calls[t].db] == u.calls[t].hydrationLock
    {
      if t < |s.calls| { assert u.calls[t] == s.calls[t]; }
    }
  }

  lemma QueuesKeepLocks(s: State, u: State, mover: int)
    requires OneLockEach(s) && SameCalls(s, u, mover) && u.locks == s.locks && u.nextLock == s.nextLock
    requires mover < |s.calls|
    requires 0 <= mover && Queued(u.calls[mover].pc) ==> Queued(s.calls[mover].pc)
    requires |u.calls| > |s.calls| ==> !Queued(u.calls[|s.calls|].pc)
    ensures OneLockEach(u)
  {
    forall t | 0 <= t < |u.calls| && Queued(u.calls[t].pc)
      ensures u.calls[t].db in u.locks && u.locks[u.calls[t].db] == u.calls[t].hydrationLock
    {
      assert t < |s.calls| && Queued(s.calls[t].pc);
    }
  }

  lemma StepKeepsLocks(s: State, step: Step)
    requires OneLockEach(s) && Enabled(s, step)
    ensures OneLockEach(Next(s, step))
  {
    if step.Look? {
      LookKeepsLocks(s, step.db, step.handle, step.evicts, step.now);
    } else {
      StepFrame(s, step);
      StepLocks(s, step);
      StepQueues(s, step);
      MoverIsKnown(s, step);
      QueuesKeepLocks(s, Next(s, step), CallOf(step));
    }
  }

  /** The reference a call ends up with is one it had, one in the map, or a new one. */
  lemma StepRefers(s: State, step: Step)
    requires Referenced(s) && Enabled(s, step)
    ensures 0 <= CallOf(step) && RefOf(Next(s, step).calls[CallOf(step)].pc).Some? ==>
              RefOf(Next(s, step).calls[CallOf(step)].pc).value < |Next(s, step).heap|
    ensures |Next(s, step).calls| > |s.calls| && RefOf(Next(s, step).calls[|s.calls|].pc).Some? ==>
              RefOf(Next(s, step).calls[|s.calls|].pc).value < |Next(s, step).heap|
  {
    if 0 <= CallOf(step) && RefOf(s.calls[CallOf(step)].pc).Some? {
      assert RefOf(s.calls[CallOf(step)].pc).value < |s.heap|;
    }
  }

  lemma StepKeepsMap(s: State, step: Step)
    requires Referenced(s) && Enabled(s, step)
    ensures forall db :: db in Next(s, step).l1 ==> Next(s, step).l1[db] < |Next(s, step).heap|
  {
    if step.Install? { assert RefOf(s.calls[step.t].pc).value < |s.heap|; }
  }

  lemma StepHeap(s: State, step: Step)
    requires Referenced(s) && Enabled(s, step)
    ensures 0 < s.nextStamp <= Next(s, step).nextStamp
    ensures Next(s, step).heap == s.heap
         || (|Next(s, step).heap| == |s.heap| + 1 && s.heap <= Next(s, step).heap
             && Next(s, step).heap[|s.heap|].stamp < Next(s, step).nextStamp)
  {}

  lemma StepKeepsStamps(s: State, step: Step)
    requires Referenced(s) && Enabled(s, step)
    ensures 0 < Next(s, step).nextStamp
    ensures forall r :: 0 <= r < |Next(s, step).heap| ==> Next(s, step).heap[r].stamp < Next(s, step).nextStamp
  {
    StepHeap(s, step);
    var u := Next(s, step);
    forall r | 0 <= r < |u.heap| ensures u.heap[r].stamp < u.nextStamp {
      if r < |s.heap| { assert u.heap[r] == s.heap[r]; }
    }
  }

  lemma StepKeepsStored(s: State, step: Step)
    requires Referenced(s) && Enabled(s, step)
    ensures forall db :: db in Next(s, step).stored ==> Next(s, step).stored[db].stamp < Next(s, step).nextStamp
  {}

  lemma StepKeepsReferenced(s: State, step: Step)
    requires Referenced(s) && Enabled(s, step)
    ensures Referenced(Next(s, step))
  {
    var u := Next(s, step);
    StepFrame(s, step);
    StepGrows(s, step);
    StepRefers(s, step);
    StepKeepsMap(s, step);
    StepKeepsStamps(s, step);
    StepKeepsStored(s, step);
    forall t | 0 <= t < |u.calls| && RefOf(u.calls[t].pc).Some? ensures RefOf(u.calls[t].pc).value < |u.heap| {
      if t < |s.calls| && t != CallOf(step) { assert u.calls[t] == s.calls[t]; }
    }
  }

  lemma JudgedStays(s: State, u: State, call: Call)
    requires CallJudged(s, call) && u.ttl == s.ttl && s.heap <= u.heap
    ensures CallJudged(u, call)
  {}

  lemma StepJudges(s: State, step: Step)
    requires Referenced(s) && Enabled(s, step)
    requires 0 <= CallOf(step) ==> CallJudged(s, s.calls[CallOf(step)])
    ensures 0 <= CallOf(step) ==> CallJudged(Next(s, step), Next(s, step).calls[CallOf(step)])
    ensures |Next(s, step).calls| > |s.calls| ==> CallJudged(Next(s, step), Next(s, step).calls[|s.calls|])
  {
    if 0 <= CallOf(step) && RefOf(s.calls[CallOf(step)].pc).Some? {
      assert RefOf(s.calls[CallOf(step)].pc).value < |s.heap|;
    }
  }

  lemma StepKeepsJudged(s: State, step: Step)
    requires Referenced(s) && RightlyJudged(s) && Enabled(s, step)
    ensures RightlyJudged(Next(s, step))
  {
    var u := Next(s, step);
    StepFrame(s, step);
    StepGrows(s, step);
    MoverIsKnown(s, step);
    StepJudges(s, step);
    forall t | 0 <= t < |u.calls| ensures CallJudged(u, u.calls[t]) {
      if t < |s.calls| && t != CallOf(step) { JudgedStays(s, u, s.calls[t]); }
    }
  }

  /** Every step keeps the invariant. */
  lemma StepKeeps(s: State, step: Step)
    requires Valid(s) && Enabled(s, step)
    ensures Valid(Next(s, step))
  {
    StepKeepsHeld(s, step);
    StepKeepsLocks(s, step);
    StepKeepsReferenced(s, step);
    StepKeepsJudged(s, step);
  }

  // ---- runs ----

  predicate Legal(s: State, steps: seq<Step>)
    decreases |steps|
  {
    steps == [] || (Enabled(s, steps[0]) && Legal(Next(s, steps[0]), steps[1..]))
  }

  function After(s: State, steps: seq<Step>): State
    requires Legal(s, steps)
    decreases |steps|
  {
    if steps == [] then s else After(Next(s, steps[0]), steps[1..])
  }

  lemma {:induction false} RunKeeps(s: State, steps: seq<Step>)
    requires Valid(s) && Legal(s, steps)
    ensures Valid(After(s, steps))
    decreases |steps|
  {
    if steps != [] {
      StepKeeps(s, steps[0]);
      RunKeeps(Next(s, steps[0]), steps[1..]);
    }
  }

  predicate Sane(stored: map<string, Entry>, nextStamp: nat) {
    0 < nextStamp && forall db :: db in stored ==> stored[db].stamp < nextStamp
  }

  /** In every interleaving at most one call per database is inside its hydration lock, reading or installing. */
  lemma OneReaderPerDatabase(ttl: real, stored: map<string, Entry>, nextStamp: nat, steps: seq<Step>, a: nat, b: nat)
    requires Sane(stored, nextStamp) && Legal(Initial(ttl, stored, nextStamp), steps)
    requires var u := After(Initial(ttl, stored, nextStamp), steps);
             Known(u, a) && Known(u, b) && Holds(u.calls[a].pc) && Holds(u.calls[b].pc)
               && u.calls[a].db == u.calls[b].db
    ensures a == b
  {
    RunKeeps(Initial(ttl, stored, nextStamp), steps);
  }

  /** A call that waits is never stuck: it can take the lock, or the call inside can go on. */
  lemma WaitersGetTheLock(s: State, t: nat)
    requires Valid(s) && Known(s, t) && s.calls[t].pc.Waiting?
    ensures Enabled(s, Acquire(t))
         || exists h: nat :: Known(s, h) && s.calls[h].db == s.calls[t].db
                             && (Enabled(s, Recheck(h)) || Enabled(s, Read(h)) || Enabled(s, Install(h))
                                 || Enabled(s, Release(h)))
  {
    if s.calls[t].hydrationLock in s.held {
      var h := s.held[s.calls[t].hydrationLock];
      assert s.calls[h].db == s.calls[t].db;
      assert Enabled(s, Recheck(h)) || Enabled(s, Read(h)) || Enabled(s, Install(h)) || Enabled(s, Release(h));
    }
  }

  /** In every interleaving a get returns no entry that has reached its time to live. */
  lemma GetsReturnUnexpired(ttl: real, stored: map<string, Entry>, nextStamp: nat, steps: seq<Step>, t: nat, r: Ref)
    requires Sane(stored, nextStamp) && Legal(Initial(ttl, stored, nextStamp), steps)
    requires var u := After(Initial(ttl, stored, nextStamp), steps);
             Known(u, t) && u.calls[t].evicts && u.calls[t].pc == Returned(Some(r))
    ensures var u := After(Initial(ttl, stored, nextStamp), steps);
            r < |u.heap| && (u.ttl <= 0.0 || u.calls[t].now < u.heap[r].acquiredAt + u.ttl)
  {
    RunKeeps(Initial(ttl, stored, nextStamp), steps);
    var u := After(Initial(ttl, stored, nextStamp), steps);
    assert CallJudged(u, u.calls[t]);
  }

  /** A get gives up an entry from its time to live on, and not before; a peek and a zero time to live never do. */
  lemma ExpiredExactly(s: State, t: nat, r: Ref)
    requires Valid(s) && Known(s, t) && s.calls[t].pc == Judging(Some(r))
    ensures r < |s.heap|
    ensures Next(s, Judge(t)).calls[t].pc
            == if s.calls[t].evicts && s.ttl > 0.0 && s.heap[r].acquiredAt + s.ttl <= s.calls[t].now then Evicting(r)
               else Returned(Some(r))
  {
    assert RefOf(s.calls[t].pc) == Some(r);
  }

  /** A put that no other call interrupts: the newest analysis, dated now, in the map and, if that works, stored. */
  lemma PutReachesBothTiers(s: State, db: string, now: real, succeeds: bool)
    requires Valid(s)
    ensures var t, put := |s.calls|, Next(s, Put(db, true, now));
            Enabled(put, Persist(t, succeeds))
    ensures var u := Next(Next(s, Put(db, true, now)), Persist(|s.calls|, succeeds));
            && db in u.l1 && u.l1[db] == |s.heap| && u.heap == s.heap + [Entry(s.nextStamp, now)]
            && (forall d :: d != db ==> At(u, d) == At(s, d))
            && u.stored == (if succeeds then s.stored[db := Entry(s.nextStamp, now)] else s.stored)
            && u.calls[|s.calls|].pc == Returned(Some(u.l1[db]))
  {}

  /** A revalidation that no other call interrupts: the analysis of the map, dated now, and the stored copy's date. */
  lemma RevalidationReachesBothTiers(s: State, db: string, now: real)
    requires Valid(s) && db in s.l1
    ensures var t, again := |s.calls|, Next(s, Revalidate(db, true, now));
            Enabled(again, Touch(t))
    ensures var u := Next(Next(s, Revalidate(db, true, now)), Touch(|s.calls|));
            && db in u.l1 && u.l1[db] == |s.heap| && u.heap == s.heap + [Entry(s.heap[s.l1[db]].stamp, now)]
            && (forall d :: d != db ==> At(u, d) == At(s, d))
            && u.stored == (if db in s.stored then s.stored[db := Entry(s.stored[db].stamp, now)] else s.stored)
            && u.calls[|s.calls|].pc == Returned(Some(u.l1[db]))
  {}

  // ---- what a step can do to the map ----

  /** The step takes the database's entry out of the map. */
  predicate Removes(s: State, step: Step, db: string)
    requires Enabled(s, step)
  {
    db in s.l1 && db !in Next(s, step).l1
  }

  /** Only invalidation, clearing, or a get that judged that very entry expired takes an entry out. */
  lemma OnlyExpiredIsEvicted(s: State, step: Step, db: string)
    requires Valid(s) && Enabled(s, step) && Removes(s, step, db)
    ensures step == Invalidate(db) || step == Clear
         || (step.Evict? && s.calls[step.t].db == db && s.calls[step.t].pc == Evicting(s.l1[db])
             && s.calls[step.t].evicts
             && s.ttl > 0.0 && s.heap[s.l1[db]].acquiredAt + s.ttl <= s.calls[step.t].now)
  {
    if step.Evict? { assert CallJudged(s, s.calls[step.t]); }
  }

  /** A stored copy is installed only where the map has no entry, and no step makes an entry older. */
  lemma StepNeverOlder(s: State, step: Step, db: string)
    requires Valid(s) && Enabled(s, step) && db in s.l1 && !Removes(s, step, db)
    ensures step.Install? ==> Next(s, step).l1[db] == s.l1[db]
    ensures Next(s, step).l1[db] < |Next(s, step).heap|
    ensures s.heap[s.l1[db]].stamp <= Next(s, step).heap[Next(s, step).l1[db]].stamp
  {}

  predicate NeverRemoves(s: State, steps: seq<Step>, db: string)
    requires Legal(s, steps)
    decreases |steps|
  {
    steps == [] || (!Removes(s, steps[0], db) && NeverRemoves(Next(s, steps[0]), steps[1..], db))
  }

  /** Over every run that does not take it out, an entry is never replaced by an older one. */
  lemma {:induction false} NeverOlder(s: State, steps: seq<Step>, db: string)
    requires Valid(s) && Legal(s, steps) && NeverRemoves(s, steps, db) && db in s.l1
    ensures db in After(s, steps).l1 && After(s, steps).l1[db] < |After(s, steps).heap|
    ensures s.heap[s.l1[db]].stamp <= After(s, steps).heap[After(s, steps).l1[db]].stamp
    decreases |steps|
  {
    if steps != [] {
      StepKeeps(s, steps[0]);
      StepNeverOlder(s, steps[0], db);
      NeverOlder(Next(s, steps[0]), steps[1..], db);
    }
  }

  /** What was put stays, or makes way only for what was put later. */
  lemma PutIsNeverReplacedByOlder(s: State, db: string, handle: bool, now: real, rest: seq<Step>)
    requires Valid(s) && Legal(Next(s, Put(db, handle, now)), rest)
    requires NeverRemoves(Next(s, Put(db, handle, now)), rest, db)
    ensures var u := After(Next(s, Put(db, handle, now)), rest);
            db in u.l1 && u.l1[db] < |u.heap| && u.heap[u.l1[db]].stamp >= s.nextStamp
  {
    StepKeeps(s, Put(db, handle, now));
    NeverOlder(Next(s, Put(db, handle, now)), rest, db);
  }

  /** No step of the run invalidates the database or clears the map. */
  predicate Undisturbed(steps: seq<Step>, db: string) {
    Invalidate(db) !in steps && Clear !in steps
  }

  /** Without a time to live nothing else takes an entry out, whatever the interleaving. */
  lemma {:induction false} UndisturbedNeverRemoves(s: State, steps: seq<Step>, db: string)
    requires Valid(s) && Legal(s, steps) && s.ttl <= 0.0 && Undisturbed(steps, db)
    ensures NeverRemoves(s, steps, db)
    decreases |steps|
  {
    if steps != [] {
      if Removes(s, steps[0], db) { OnlyExpiredIsEvicted(s, steps[0], db); }
      StepKeeps(s, steps[0]);
      StepGrows(s, steps[0]);
      UndisturbedNeverRemoves(Next(s, steps[0]), steps[1..], db);
    }
  }

  /** So with no time to live a put stays, or makes way for a later put, until an invalidation. */
  lemma PutStaysWithoutExpiry(s: State, db: string, handle: bool, now: real, rest: seq<Step>)
    requires Valid(s) && s.ttl <= 0.0 && Legal(Next(s, Put(db, handle, now)), rest) && Undisturbed(rest, db)
    ensures var u := After(Next(s, Put(db, handle, now)), rest);
            db in u.l1 && u.l1[db] < |u.heap| && u.heap[u.l1[db]].stamp >= s.nextStamp
  {
    StepKeeps(s, Put(db, handle, now));
    UndisturbedNeverRemoves(Next(s, Put(db, handle, now)), rest, db);
    PutIsNeverReplacedByOlder(s, db, handle, now, rest);
  }

  // ---- the stored copy ----

  predicate PersistingAt(s: State, db: string, t: nat) {
    Known(s, t) && s.calls[t].db == db && s.calls[t].pc.Persisting?
  }

  /** The step gives out a new analysis of the database for the stored copy. */
  predicate Supplies(step: Step, db: string) {
    (step.Put? && step.db == db && step.handle) || (step.StoreElsewhere? && step.db == db)
  }

  /** It does so while a call is still about to store an earlier one. */
  predicate Overlaps(s: State, step: Step, db: string) {
    Supplies(step, db) && exists t :: 0 <= t < |s.calls| && PersistingAt(s, db, t)
  }

  /** The step replaces the stored copy by an older analysis. */
  predicate Lowers(s: State, step: Step, db: string)
    requires Enabled(s, step)
  {
    db in s.stored && db in Next(s, step).stored && Next(s, step).stored[db].stamp < s.stored[db].stamp
  }

  predicate NeverOverlaps(s: State, steps: seq<Step>, db: string)
    requires Legal(s, steps)
    decreases |steps|
  {
    steps == [] || (!Overlaps(s, steps[0], db) && NeverOverlaps(Next(s, steps[0]), steps[1..], db))
  }

  predicate NeverLowers(s: State, steps: seq<Step>, db: string)
    requires Legal(s, steps)
    decreases |steps|
  {
    steps == [] || (!Lowers(s, steps[0], db) && NeverLowers(Next(s, steps[0]), steps[1..], db))
  }

  predicate AheadOfStored(s: State, db: string, t: nat)
    requires PersistingAt(s, db, t)
  {
    db in s.stored ==> s.stored[db].stamp < Entered(s, s.calls[t].pc.entry).stamp
  }

  /** At most one call is about to store the database's analysis, and it is newer than the stored copy. */
  predicate OneAhead(s: State, db: string) {
    && (forall t :: 0 <= t < |s.calls| && PersistingAt(s, db, t) ==> AheadOfStored(s, db, t))
    && (forall t, v :: 0 <= t < |s.calls| && 0 <= v < |s.calls| && PersistingAt(s, db, t) && PersistingAt(s, db, v) ==>
          t == v)
  }

  /** A call that is about to store was so before the step, unless the step began it. */
  lemma PersistingIsOld(s: State, step: Step, db: string, t: nat)
    requires Valid(s) && Enabled(s, step) && PersistingAt(Next(s, step), db, t)
    ensures (PersistingAt(s, db, t) && step != Persist(t, true) && step != Persist(t, false)
             && Next(s, step).calls[t] == s.calls[t]
             && Entered(Next(s, step), s.calls[t].pc.entry) == Entered(s, s.calls[t].pc.entry))
         || (t == |s.calls| && step.Put? && Supplies(step, db))
  {
    StepFrame(s, step);
    StepGrows(s, step);
    if t < |s.calls| {
      if t == CallOf(step) { NoneBecomesPersisting(s, step); }
      assert RefOf(s.calls[t].pc).value < |s.heap|;
    } else {
      BegunPersisting(s, step, db);
    }
  }

  lemma BegunPersisting(s: State, step: Step, db: string)
    requires Enabled(s, step) && PersistingAt(Next(s, step), db, |s.calls|)
    ensures step.Put? && Supplies(step, db)
  {}

  lemma NoneBecomesPersisting(s: State, step: Step)
    requires Enabled(s, step) && 0 <= CallOf(step)
    ensures !Next(s, step).calls[CallOf(step)].pc.Persisting?
  {}

  lemma PutIsAhead(s: State, db: string, now: real)
    requires Valid(s)
    ensures PersistingAt(Next(s, Put(db, true, now)), db, |s.calls|)
    ensures AheadOfStored(Next(s, Put(db, true, now)), db, |s.calls|)
  {}

  /** What a step does to the stored copy of the database. */
  lemma StoredAfter(s: State, step: Step, db: string)
    requires Enabled(s, step) && db in Next(s, step).stored
    ensures (db in s.stored && Next(s, step).stored[db].stamp == s.stored[db].stamp)
         || (step.StoreElsewhere? && Supplies(step, db) && Next(s, step).stored[db].stamp == s.nextStamp)
         || (step.Persist? && step.succeeds && PersistingAt(s, db, step.t)
             && Next(s, step).stored[db] == Entered(s, s.calls[step.t].pc.entry))
  {}

  lemma StepKeepsOneAhead(s: State, step: Step, db: string)
    requires Valid(s) && OneAhead(s, db) && Enabled(s, step) && !Overlaps(s, step, db)
    ensures OneAhead(Next(s, step), db) && !Lowers(s, step, db)
  {
    var u := Next(s, step);
    if db in u.stored { StoredAfter(s, step, db); }
    forall t | 0 <= t < |u.calls| && PersistingAt(u, db, t) ensures AheadOfStored(u, db, t) {
      PersistingIsOld(s, step, db, t);
      if t == |s.calls| {
        PutIsAhead(s, db, step.now);
      } else {
        assert AheadOfStored(s, db, t);
        if step.Persist? && PersistingAt(s, db, step.t) { assert t == step.t; }
      }
    }
    forall t, v | 0 <= t < |u.calls| && 0 <= v < |u.calls| && PersistingAt(u, db, t) && PersistingAt(u, db, v)
      ensures t == v
    {
      PersistingIsOld(s, step, db, t);
      PersistingIsOld(s, step, db, v);
    }
  }

  /** Over every run whose puts do not overlap, the stored copy never becomes older. */
  lemma {:induction false} StoredStaysNewest(s: State, steps: seq<Step>, db: string)
    requires Valid(s) && OneAhead(s, db) && Legal(s, steps) && NeverOverlaps(s, steps, db)
    ensures NeverLowers(s, steps, db)
    decreases |steps|
  {
    if steps != [] {
      StepKeepsOneAhead(s, steps[0], db);
      StepKeeps(s, steps[0]);
      StoredStaysNewest(Next(s, steps[0]), steps[1..], db);
    }
  }

  /** From the start, so over every interleaving whose puts do not overlap. */
  lemma StoredNeverOlder(ttl: real, stored: map<string, Entry>, nextStamp: nat, steps: seq<Step>, db: string)
    requires Sane(stored, nextStamp) && Legal(Initial(ttl, stored, nextStamp), steps)
    requires NeverOverlaps(Initial(ttl, stored, nextStamp), steps, db)
    ensures NeverLowers(Initial(ttl, stored, nextStamp), steps, db)
  {
    StoredStaysNewest(Initial(ttl, stored, nextStamp), steps, db);
  }

  /** The run that makes an overlap a loss: the new analysis is stored first, then the one of call `t`. */
  function Crossing(s: State, step: Step, t: nat): seq<Step> {
    if step.Put? then [Persist(|s.calls|, true), Persist(t, true)] else [Persist(t, true)]
  }

  lemma OverlapLowers(s: State, step: Step, db: string, t: nat)
    requires Valid(s) && OneAhead(s, db) && Supplies(step, db) && PersistingAt(s, db, t)
    ensures Legal(Next(s, step), Crossing(s, step, t))
    ensures NeverOverlaps(Next(s, step), Crossing(s, step, t), db)
    ensures !NeverLowers(Next(s, step), Crossing(s, step, t), db)
  {
    assert RefOf(s.calls[t].pc).value < |s.heap|;
    if step.Put? { PutCrosses(s, step, db, t); } else { StoreCrosses(s, step, db, t); }
  }

  lemma StoreCrosses(s: State, step: Step, db: string, t: nat)
    requires Valid(s) && Supplies(step, db) && step.StoreElsewhere? && PersistingAt(s, db, t)
    requires s.calls[t].pc.entry < |s.heap|
    ensures Enabled(Next(s, step), Persist(t, true)) && Lowers(Next(s, step), Persist(t, true), db)
  {}

  lemma PutCrosses(s: State, step: Step, db: string, t: nat)
    requires Valid(s) && Supplies(step, db) && step.Put? && PersistingAt(s, db, t) && s.calls[t].pc.entry < |s.heap|
    ensures Enabled(Next(s, step), Persist(|s.calls|, true))
    ensures var first := Next(Next(s, step), Persist(|s.calls|, true));
            Enabled(first, Persist(t, true)) && Lowers(first, Persist(t, true), db)
  {
    var u := Next(s, step);
    assert u.calls[t] == s.calls[t] && u.calls[|s.calls|].pc == Persisting(|s.heap|);
    var first := Next(u, Persist(|s.calls|, true));
    assert first.calls[t] == s.calls[t] && first.stored[db] == u.heap[|s.heap|];
  }

  ghost predicate CanLower(s: State, db: string) {
    exists rest :: Legal(s, rest) && NeverOverlaps(s, rest, db) && !NeverLowers(s, rest, db)
  }

  /**
   And exactly then: from a state of such a run, a step makes it possible that the stored copy
   becomes older, without any further overlap, if and only if it gives out a new analysis while
   a call is about to store an earlier one.
   */
  lemma OverlapIsTheCondition(s: State, step: Step, db: string)
    requires Valid(s) && OneAhead(s, db) && Enabled(s, step)
    ensures CanLower(Next(s, step), db) <==> Overlaps(s, step, db)
  {
    StepKeeps(s, step);
    if Overlaps(s, step, db) {
      var t :| 0 <= t < |s.calls| && PersistingAt(s, db, t);
      OverlapLowers(s, step, db, t);
    } else {
      StepKeepsOneAhead(s, step, db);
      forall rest | Legal(Next(s, step), rest) && NeverOverlaps(Next(s, step), rest, db)
        ensures NeverLowers(Next(s, step), rest, db)
      {
        StoredStaysNewest(Next(s, step), rest, db);
      }
    }
  }

  /** The entry of the database outlasts every get that is not past the deadline. */
  predicate LastsUntil(s: State, db: string, deadline: real) {
    && db in s.l1 && s.l1[db] < |s.heap| && deadline <= s.heap[s.l1[db]].acquiredAt + s.ttl
    && forall t :: 0 <= t < |s.calls| && s.calls[t].db == db && s.calls[t].evicts ==> s.calls[t].now < deadline
  }

  /** The step is no get of the database at or past the deadline, and no entry dated too early for it. */
  predicate Timely(ttl: real, step: Step, db: string, deadline: real) {
    match step
    case Look(d, _, evicts, now) => d == db && evicts ==> now < deadline
    case Put(d, _, now) => d == db ==> deadline <= now + ttl
    case Revalidate(d, _, now) => d == db ==> deadline <= now + ttl
    case Invalidate(d) => d != db
    case Clear => false
    case _ => true
  }

  lemma TimelyKeepsCalls(s: State, step: Step, db: string, deadline: real)
    requires Enabled(s, step) && LastsUntil(s, db, deadline) && Timely(s.ttl, step, db, deadline)
    ensures var u := Next(s, step);
            forall t :: 0 <= t < |u.calls| && u.calls[t].db == db && u.calls[t].evicts ==> u.calls[t].now < deadline
  {
    StepFrame(s, step);
    var u := Next(s, step);
    forall t | 0 <= t < |u.calls| && u.calls[t].db == db && u.calls[t].evicts ensures u.calls[t].now < deadline {
      if t < |s.calls| { assert s.calls[t].db == db && s.calls[t].evicts && u.calls[t].now == s.calls[t].now; }
    }
  }

  /** No call can evict the entry: it would have judged it expired, before the deadline. */
  lemma TimelyNeverRemoves(s: State, step: Step, db: string, deadline: real)
    requires Valid(s) && Enabled(s, step) && LastsUntil(s, db, deadline) && Timely(s.ttl, step, db, deadline)
    ensures !Removes(s, step, db)
  {
    if Removes(s, step, db) { OnlyExpiredIsEvicted(s, step, db); }
  }

  /** Where an entry of the map comes from that was there before. */
  lemma EntryAfter(s: State, step: Step, db: string)
    requires Enabled(s, step) && db in s.l1 && db in Next(s, step).l1 && s.l1[db] < |s.heap|
    ensures Next(s, step).l1[db] == s.l1[db]
         || (Next(s, step).l1[db] == |s.heap| < |Next(s, step).heap|
             && ((step.Put? && step.db == db && Next(s, step).heap[|s.heap|].acquiredAt == step.now)
                 || (step.Revalidate? && step.db == db && Next(s, step).heap[|s.heap|].acquiredAt == step.now)))
  {}

  lemma TimelyKeepsEntry(s: State, step: Step, db: string, deadline: real)
    requires Enabled(s, step) && LastsUntil(s, db, deadline) && Timely(s.ttl, step, db, deadline)
    requires db in Next(s, step).l1
    ensures Next(s, step).ttl == s.ttl && Next(s, step).l1[db] < |Next(s, step).heap|
    ensures deadline <= Next(s, step).heap[Next(s, step).l1[db]].acquiredAt + s.ttl
  {
    StepGrows(s, step);
    EntryAfter(s, step, db);
  }

  lemma {:induction false} TimelyRun(s: State, steps: seq<Step>, db: string, deadline: real)
    requires Valid(s) && Legal(s, steps) && LastsUntil(s, db, deadline)
    requires forall k :: 0 <= k < |steps| ==> Timely(s.ttl, steps[k], db, deadline)
    ensures NeverRemoves(s, steps, db)
    decreases |steps|
  {
    if steps != [] {
      TimelyNeverRemoves(s, steps[0], db, deadline);
      TimelyKeepsCalls(s, steps[0], db, deadline);
      TimelyKeepsEntry(s, steps[0], db, deadline);
      StepKeeps(s, steps[0]);
      TimelyRun(Next(s, steps[0]), steps[1..], db, deadline);
    }
  }

  /**
   With a time to live a put stays, or makes way for a later put, as long as no get of the database
   is at or past the time its entry expires and nothing invalidates it; a revalidation moves that
   time on.
   */
  lemma PutStaysUntilExpiry(s: State, db: string, handle: bool, now: real, rest: seq<Step>, deadline: real)
    requires Valid(s) && Legal(Next(s, Put(db, handle, now)), rest) && deadline <= now + s.ttl
    requires forall t :: 0 <= t < |s.calls| && s.calls[t].db == db && s.calls[t].evicts ==> s.calls[t].now < deadline
    requires forall k :: 0 <= k < |rest| ==> Timely(s.ttl, rest[k], db, deadline)
    ensures var u := After(Next(s, Put(db, handle, now)), rest);
            db in u.l1 && u.l1[db] < |u.heap| && u.heap[u.l1[db]].stamp >= s.nextStamp
  {
    StepKeeps(s, Put(db, handle, now));
    assert LastsUntil(Next(s, Put(db, handle, now)), db, deadline);
    TimelyRun(Next(s, Put(db, handle, now)), rest, db, deadline);
    PutIsNeverReplacedByOlder(s, db, handle, now, rest);
  }

  // ---- misses share one read ----

  predicate IsHit(s: State, step: Step, db: string)
    requires Enabled(s, step)
  {
    step.Read? && s.calls[step.t].db == db && db in s.stored
  }

  /** How many reads of the database's stored copy find one. */
  function Hits(s: State, steps: seq<Step>, db: string): nat
    requires Legal(s, steps)
    decreases |steps|
  {
    if steps == [] then 0 else (if IsHit(s, steps[0], db) then 1 else 0) + Hits(Next(s, steps[0]), steps[1..], db)
  }

  predicate SomeReading(s: State, db: string) {
    exists t :: 0 <= t < |s.calls| && s.calls[t].db == db && s.calls[t].pc.Reading?
  }

  predicate SomeInstalling(s: State, db: string) {
    exists t :: 0 <= t < |s.calls| && s.calls[t].db == db && s.calls[t].pc.Installing?
  }

  /** A read that finds something may still come: one is under way, or the map is empty and none is about to fill it. */
  predicate MayHit(s: State, db: string) {
    SomeReading(s, db) || (db !in s.l1 && !SomeInstalling(s, db))
  }

  lemma HitEndsReading(s: State, t: nat, db: string)
    requires Valid(s) && Enabled(s, Read(t)) && s.calls[t].db == db && db in s.stored
    ensures MayHit(s, db) && !MayHit(Next(s, Read(t)), db)
  {
    var u := Next(s, Read(t));
    assert s.calls[t].pc.Reading? && Holds(s.calls[t].pc);
    assert u.calls[t].pc.Installing? && u.calls[t].db == db;
    forall v | 0 <= v < |u.calls| ensures !(u.calls[v].db == db && u.calls[v].pc.Reading?) {
      if v != t && s.calls[v].db == db { assert !Holds(s.calls[v].pc); }
    }
    assert SomeInstalling(u, db);
  }

  /** A call that begins to read has the lock, and has seen the map empty. */
  lemma ReadingBegins(s: State, t: nat, db: string)
    requires Valid(s) && Enabled(s, Recheck(t)) && s.calls[t].db == db && db !in s.l1
    ensures MayHit(s, db)
  {
    assert Holds(s.calls[t].pc);
    forall v | 0 <= v < |s.calls| ensures !(s.calls[v].db == db && s.calls[v].pc.Installing?) {
      if s.calls[v].db == db && Holds(s.calls[v].pc) { assert v == t; }
    }
  }

  lemma NewReader(s: State, step: Step)
    requires Enabled(s, step)
    ensures 0 <= CallOf(step) < |s.calls| && Next(s, step).calls[CallOf(step)].pc.Reading? ==>
              step.Recheck? && s.calls[CallOf(step)].db !in s.l1
    ensures |Next(s, step).calls| > |s.calls| ==> !Next(s, step).calls[|s.calls|].pc.Reading?
  {}

  /** From states alone: a call other than the mover was as it is. */
  lemma OthersAreOld(s: State, u: State, mover: int, db: string, t: nat)
    requires SameCalls(s, u, mover) && t != mover && Known(u, t) && u.calls[t].db == db && u.calls[t].pc.Reading?
    requires |u.calls| > |s.calls| ==> !u.calls[|s.calls|].pc.Reading?
    ensures SomeReading(s, db)
  {
    assert Known(s, t) && s.calls[t] == u.calls[t];
  }

  lemma ReadingIsOld(s: State, step: Step, db: string, t: nat)
    requires Enabled(s, step) && Known(Next(s, step), t)
    requires Next(s, step).calls[t].db == db && Next(s, step).calls[t].pc.Reading?
    ensures SomeReading(s, db) || (step == Recheck(t) && Known(s, t) && s.calls[t].db == db && db !in s.l1)
  {
    StepFrame(s, step);
    MoverIsKnown(s, step);
    NewReader(s, step);
    if t != CallOf(step) { OthersAreOld(s, Next(s, step), CallOf(step), db, t); }
  }

  /** Where the map stays empty, a call that was installing is still. */
  lemma InstallingStays(s: State, step: Step, db: string)
    requires Enabled(s, step) && db !in Next(s, step).l1 && SomeInstalling(s, db)
    ensures SomeInstalling(Next(s, step), db)
  {
    var v :| 0 <= v < |s.calls| && s.calls[v].db == db && s.calls[v].pc.Installing?;
    StepFrame(s, step);
    assert step != Install(v);
    assert CallOf(step) != v;
  }

  /** A hit is the last: it uses up the chance, and no other step brings one. */
  lemma HitIsTheLast(s: State, step: Step, db: string)
    requires Valid(s) && Enabled(s, step) && !Removes(s, step, db)
    ensures IsHit(s, step, db) ==> MayHit(s, db) && !MayHit(Next(s, step), db)
    ensures MayHit(Next(s, step), db) ==> MayHit(s, db)
  {
    var u := Next(s, step);
    if IsHit(s, step, db) {
      HitEndsReading(s, step.t, db);
    } else if SomeReading(u, db) {
      var t: nat :| 0 <= t < |u.calls| && u.calls[t].db == db && u.calls[t].pc.Reading?;
      ReadingIsOld(s, step, db, t);
      if !SomeReading(s, db) { ReadingBegins(s, t, db); }
    } else if MayHit(u, db) && SomeInstalling(s, db) {
      InstallingStays(s, step, db);
    }
  }

  lemma {:induction false} HitsBounded(s: State, steps: seq<Step>, db: string)
    requires Valid(s) && Legal(s, steps) && NeverRemoves(s, steps, db)
    ensures Hits(s, steps, db) <= if MayHit(s, db) then 1 else 0
    decreases |steps|
  {
    if steps != [] {
      StepKeeps(s, steps[0]);
      HitIsTheLast(s, steps[0], db);
      HitsBounded(Next(s, steps[0]), steps[1..], db);
    }
  }

  /** While the entry is not taken out, all the calls that miss share one successful read of the stored copy. */
  lemma MissesShareOneRead(ttl: real, stored: map<string, Entry>, nextStamp: nat, steps: seq<Step>, db: string)
    requires Sane(stored, nextStamp) && Legal(Initial(ttl, stored, nextStamp), steps)
    requires NeverRemoves(Initial(ttl, stored, nextStamp), steps, db)
    ensures Hits(Initial(ttl, stored, nextStamp), steps, db) <= 1
  {
    HitsBounded(Initial(ttl, stored, nextStamp), steps, db);
  }

  // ---- what does not hold ----

  /**
   Once an entry has been taken out, an older one can come back: a lookup that read the stored copy
   before the put installs it after the invalidation.
   */
  lemma OlderAfterInvalidation(s: State, db: string, t: nat, put: State, gone: State)
    requires Valid(s) && Enabled(s, Install(t)) && s.calls[t].db == db && db !in s.l1
    requires put == Next(s, Put(db, false, 0.0)) && gone == Next(put, Invalidate(db))
    ensures Enabled(gone, Install(t)) && db in put.l1 && db in Next(gone, Install(t)).l1
    ensures Entered(gone, Next(gone, Install(t)).l1[db]).stamp < Entered(put, put.l1[db]).stamp
  {
    assert RefOf(s.calls[t].pc).value < |s.heap|;
  }

  /** Two puts can reach the stored copy in the other order: it then holds the older analysis. */
  lemma PersistsCanCross(s: State, db: string, now: real, later: real, both: State)
    requires Valid(s) && both == Next(Next(s, Put(db, true, now)), Put(db, true, later))
    ensures Enabled(both, Persist(|s.calls| + 1, true))
    ensures Enabled(Next(both, Persist(|s.calls| + 1, true)), Persist(|s.calls|, true))
    ensures var end := Next(Next(both, Persist(|s.calls| + 1, true)), Persist(|s.calls|, true));
            db in end.stored && db in end.l1 && end.stored[db].stamp < Entered(end, end.l1[db]).stamp
  {
    var first := Next(s, Put(db, true, now));
    assert first.calls[|s.calls|].pc == Persisting(|s.heap|) && both.calls[|s.calls|] == first.calls[|s.calls|];
    assert both.calls[|s.calls| + 1].pc == Persisting(|s.heap| + 1);
  }

  // ---- the cache object ----

  class SchemaCache {
    const ttl: real
    var heap: seq<Entry>
    var l1: map<string, Ref>
    var stored: map<string, Entry>
    var locks: map<string, nat>
    var held: map<nat, nat>
    var calls: seq<Call>
    var nextLock: nat
    var nextStamp: nat

    function Contents(): State
      reads this
    {
      State(ttl, heap, l1, stored, locks, held, calls, nextLock, nextStamp)
    }

    constructor (ttl: real, stored: map<string, Entry>, nextStamp: nat)
      ensures Contents() == Initial(ttl, stored, nextStamp)
    {
      this.ttl := ttl;
      heap, l1, this.stored, locks, held, calls := [], map[], stored, map[], map[], [];
      nextLock, this.nextStamp := 0, nextStamp;
    }

    /** The first block of a lookup, under the map's lock. */
    method LookBlock(db: string, handle: bool, evicts: bool, now: real) returns (t: nat)
      modifies this
      ensures t == |old(calls)| && Contents() == Next(old(Contents()), Look(db, handle, evicts, now))
      ensures db in old(l1) || !handle ==>
                && calls[t] == Call(db, evicts, now, 0, Judging(if db in l1 then Some(l1[db]) else None))
                && locks == old(locks) && l1 == old(l1)
      ensures db !in old(l1) && handle ==>
                && db in locks && calls[t] == Call(db, evicts, now, locks[db], Waiting)
                && (db in old(locks) ==> locks == old(locks))
    {
      t := |calls|;
      if db in l1 || !handle {
        calls := calls + [Call(db, evicts, now, 0, Judging(if db in l1 then Some(l1[db]) else None))];
        return;
      }
      if db !in locks {
        locks := locks[db := nextLock];
        nextLock := nextLock + 1;
      }
      calls := calls + [Call(db, evicts, now, locks[db], Waiting)];
    }

    method MoveTo(t: nat, pc: Pc)
      requires t < |calls|
      modifies this`calls
      ensures calls == old(calls)[t := old(calls[t]).(pc := pc)]
    {
      calls := calls[t := calls[t].(pc := pc)];
    }

    method AcquireHydration(t: nat)
      requires Enabled(Contents(), Acquire(t))
      modifies this
      ensures Contents() == Next(old(Contents()), Acquire(t))
    {
      held := held[calls[t].hydrationLock := t];
      MoveTo(t, Holding);
    }

    method RecheckBlock(t: nat)
      requires Enabled(Contents(), Recheck(t))
      modifies this
      ensures Contents() == Next(old(Contents()), Recheck(t))
    {
      var db := calls[t].db;
      if db in l1 { MoveTo(t, Releasing(Some(l1[db]))); } else { MoveTo(t, Reading); }
    }

    method ReadStored(t: nat)
      requires Enabled(Contents(), Read(t))
      modifies this
      ensures Contents() == Next(old(Contents()), Read(t))
    {
      var db := calls[t].db;
      if db in stored {
        MoveTo(t, Installing(|heap|));
        heap := heap + [stored[db]];
      } else {
        MoveTo(t, Releasing(None));
      }
    }

    method InstallBlock(t: nat)
      requires Enabled(Contents(), Install(t))
      modifies this
      ensures Contents() == Next(old(Contents()), Install(t))
    {
      var db, hydrated := calls[t].db, calls[t].pc.read;
      if db !in l1 { l1 := l1[db := hydrated]; }
      MoveTo(t, Releasing(Some(l1[db])));
    }

    method ReleaseHydration(t: nat)
      requires Enabled(Contents(), Release(t))
      modifies this
      ensures Contents() == Next(old(Contents()), Release(t))
    {
      held := held - {calls[t].hydrationLock};
      MoveTo(t, Judging(calls[t].pc.found));
    }

    method JudgeFound(t: nat)
      requires Enabled(Contents(), Judge(t))
      modifies this
      ensures Contents() == Next(old(Contents()), Judge(t))
    {
      var found := calls[t].pc.found;
      if found.Some? && calls[t].evicts && IsExpired(Entered(Contents(), found.value), calls[t].now, ttl) {
        MoveTo(t, Evicting(found.value));
      } else {
        MoveTo(t, Returned(found));
      }
    }

    method EvictBlock(t: nat)
      requires Enabled(Contents(), Evict(t))
      modifies this
      ensures Contents() == Next(old(Contents()), Evict(t))
    {
      var db := calls[t].db;
      if db in l1 && l1[db] == calls[t].pc.expired { l1 := l1 - {db}; }
      MoveTo(t, Returned(None));
    }

    method PutBlock(db: string, handle: bool, now: real)
      modifies this
      ensures Contents() == Next(old(Contents()), Put(db, handle, now))
    {
      var entry := |heap|;
      heap, l1 := heap + [Entry(nextStamp, now)], l1[db := entry];
      nextStamp := nextStamp + 1;
      calls := calls + [Call(db, false, now, 0, if handle then Persisting(entry) else Returned(Some(entry)))];
    }

    method RevalidateBlock(db: string, handle: bool, now: real)
      requires Valid(Contents())
      modifies this
      ensures Contents() == Next(old(Contents()), Revalidate(db, handle, now))
    {
      if db !in l1 {
        calls := calls + [Call(db, false, now, 0, Returned(None))];
        return;
      }
      var entry := |heap|;
      heap, l1 := heap + [heap[l1[db]].(acquiredAt := now)], l1[db := entry];
      calls := calls + [Call(db, false, now, 0, if handle then Touching(entry) else Returned(Some(entry)))];
    }

    method Invalidate(db: string) returns (removed: bool)
      modifies this
      ensures Contents() == Next(old(Contents()), Step.Invalidate(db)) && removed == (db in old(l1))
    {
      removed := db in l1;
      l1 := l1 - {db};
    }

    /** A whole lookup that no other call interrupts; `t` is its call, about to judge what it found. */
    method Lookup(db: string, handle: bool, evicts: bool, now: real) returns (t: nat, found: Option<Ref>)
      requires db in locks ==> locks[db] !in held
      requires forall l :: l in held ==> l < nextLock
      modifies this
      ensures t < |calls| && calls[t].(hydrationLock := 0) == Call(db, evicts, now, 0, Judging(found))
      ensures stored == old(stored)
      ensures db in old(l1) ==> found == Some(old(l1)[db]) && l1 == old(l1) && heap == old(heap)
      ensures db !in old(l1) && !(handle && db in stored) ==> found == None && l1 == old(l1) && heap == old(heap)
      ensures db !in old(l1) && handle && db in stored ==>
                found == Some(|old(heap)|) && heap == old(heap) + [stored[db]] && l1 == old(l1)[db := |old(heap)|]
    {
      t := LookBlock(db, handle, evicts, now);
      if calls[t].pc.Waiting? {
        AcquireHydration(t);
        RecheckBlock(t);
        ReadStored(t);
        if calls[t].pc.Installing? { InstallBlock(t); }
        ReleaseHydration(t);
      }
      found := calls[t].pc.found;
    }

    /** A whole `get` that no other call interrupts. */
    method Get(db: string, handle: bool, now: real) returns (result: Option<Ref>)
      requires db in locks ==> locks[db] !in held
      requires forall l :: l in held ==> l < nextLock
      requires db in l1 ==> l1[db] < |heap|
      modifies this
      ensures db in old(l1) ==>
                if ttl > 0.0 && old(heap)[old(l1)[db]].acquiredAt + ttl <= now then
                  result == None && l1 == old(l1) - {db}
                else result == Some(old(l1)[db]) && l1 == old(l1)
      ensures db !in old(l1) && !(handle && db in stored) ==> result == None && l1 == old(l1)
      ensures db !in old(l1) && handle && db in stored ==>
                if ttl > 0.0 && stored[db].acquiredAt + ttl <= now then result == None && l1 == old(l1)
                else result == Some(|old(heap)|) && heap == old(heap) + [stored[db]] && l1 == old(l1)[db := |old(heap)|]
    {
      var t, found := Lookup(db, handle, true, now);
      JudgeFound(t);
      if calls[t].pc.Evicting? { EvictBlock(t); }
      result := calls[t].pc.result;
    }
  }
}
