/** When an older analysis can come back into the cache: exactly when one is stored or on its way. */
module SchemaCacheReturn {
  import opened Collections
  import opened SchemaCache

  /** A call of the database that holds an analysis it is about to install or to store. */
  predicate Carries(s: State, db: string, t: nat, k: nat) {
    && Known(s, t) && s.calls[t].db == db && (s.calls[t].pc.Installing? || s.calls[t].pc.Persisting?)
    && Entered(s, RefOf(s.calls[t].pc).value).stamp < k
  }

  predicate OlderInMap(s: State, db: string, k: nat) {
    db in s.l1 && Entered(s, s.l1[db]).stamp < k
  }

  predicate OlderStored(s: State, db: string, k: nat) {
    db in s.stored && s.stored[db].stamp < k
  }

  /** Somewhere there is an analysis of the database older than the `k`-th that can still reach the map. */
  predicate Older(s: State, db: string, k: nat) {
    OlderInMap(s, db, k) || OlderStored(s, db, k) || exists t :: 0 <= t < |s.calls| && Carries(s, db, t, k)
  }

  /** What a step leaves in the map was there, or was carried, or is a new entry. */
  lemma InMapAfter(s: State, step: Step, db: string)
    requires Enabled(s, step) && db in Next(s, step).l1
    ensures (db in s.l1 && Next(s, step).l1[db] == s.l1[db])
         || (step.Install? && s.calls[step.t].db == db && Next(s, step).l1[db] == s.calls[step.t].pc.read)
         || (Next(s, step).l1[db] == |s.heap| < |Next(s, step).heap|
             && (Next(s, step).heap[|s.heap|].stamp == s.nextStamp
                 || (db in s.l1 && Next(s, step).heap[|s.heap|].stamp == Entered(s, s.l1[db]).stamp)))
  {}

  /** What a step puts into the map was there, or carried, or is newer than all. */
  lemma OlderInMapIsOld(s: State, step: Step, db: string, k: nat)
    requires Valid(s) && Enabled(s, step) && k <= s.nextStamp && OlderInMap(Next(s, step), db, k)
    ensures Older(s, db, k)
  {
    InMapAfter(s, step, db);
    StepGrows(s, step);
    var u := Next(s, step);
    if step.Install? && s.calls[step.t].db == db && u.l1[db] == s.calls[step.t].pc.read {
      assert RefOf(s.calls[step.t].pc).value < |s.heap|;
      assert Carries(s, db, step.t, k);
    } else {
      assert OlderInMap(s, db, k);
    }
  }

  lemma OlderStoredIsOld(s: State, step: Step, db: string, k: nat)
    requires Valid(s) && Enabled(s, step) && k <= s.nextStamp && OlderStored(Next(s, step), db, k)
    ensures Older(s, db, k)
  {
    if step.Persist? && s.calls[step.t].db == db && step.succeeds {
      assert RefOf(s.calls[step.t].pc).value < |s.heap|;
      assert Carries(s, db, step.t, k);
    }
  }

  /** Only reading the stored copy makes a call carry an analysis it did not. */
  lemma MoverCarries(s: State, step: Step)
    requires Enabled(s, step) && 0 <= CallOf(step)
    ensures var pc := Next(s, step).calls[CallOf(step)].pc;
            pc.Installing? || pc.Persisting? ==> step.Read? && s.calls[step.t].db in s.stored
  {}

  lemma ReaderCarries(s: State, t: nat)
    requires Enabled(s, Read(t)) && s.calls[t].db in s.stored
    ensures Entered(Next(s, Read(t)), RefOf(Next(s, Read(t)).calls[t].pc).value) == s.stored[s.calls[t].db]
  {}

  lemma WhoBegins(s: State, step: Step)
    requires Enabled(s, step)
    ensures |Next(s, step).calls| > |s.calls| ==> step.Look? || step.Put? || step.Revalidate?
  {}

  lemma LookCarriesNothing(s: State, db: string, handle: bool, evicts: bool, now: real)
    ensures var pc := Looked(s, db, handle, evicts, now).calls[|s.calls|].pc; !pc.Installing? && !pc.Persisting?
  {}

  lemma RevalidateCarriesNothing(s: State, db: string, handle: bool, now: real)
    ensures var pc := Next(s, Revalidate(db, handle, now)).calls[|s.calls|].pc; !pc.Installing? && !pc.Persisting?
  {}

  lemma PutCarries(s: State, db: string, handle: bool, now: real)
    ensures var pc := Next(s, Put(db, handle, now)).calls[|s.calls|].pc;
            !pc.Installing? && (pc.Persisting? ==> pc.entry == |s.heap|)
  {}

  lemma PutIsNewest(s: State, db: string, handle: bool, now: real)
    ensures Entered(Next(s, Put(db, handle, now)), |s.heap|).stamp == s.nextStamp
  {}

  /** And only a put begins a call that carries one, newer than all before. */
  lemma BegunCarries(s: State, step: Step)
    requires Enabled(s, step) && |Next(s, step).calls| > |s.calls|
    ensures var pc := Next(s, step).calls[|s.calls|].pc;
            pc.Installing? || pc.Persisting? ==> Entered(Next(s, step), RefOf(pc).value).stamp == s.nextStamp
  {
    WhoBegins(s, step);
    match step {
      case Look(db, handle, evicts, now) => LookCarriesNothing(s, db, handle, evicts, now);
      case Revalidate(db, handle, now) => RevalidateCarriesNothing(s, db, handle, now);
      case Put(db, handle, now) =>
        PutCarries(s, db, handle, now);
        PutIsNewest(s, db, handle, now);
      case _ =>
    }
  }

  lemma OtherCarries(s: State, step: Step, db: string, t: nat, k: nat)
    requires Valid(s) && Enabled(s, step) && Carries(Next(s, step), db, t, k) && t < |s.calls| && t != CallOf(step)
    ensures Carries(s, db, t, k)
  {
    StepFrame(s, step);
    StepGrows(s, step);
    assert RefOf(s.calls[t].pc).value < |s.heap|;
  }

  /** A call comes to carry an analysis by reading the stored copy, or by a put, whose stamp is new. */
  lemma CarriedIsOld(s: State, step: Step, db: string, t: nat, k: nat)
    requires Valid(s) && Enabled(s, step) && k <= s.nextStamp && Carries(Next(s, step), db, t, k)
    ensures Older(s, db, k)
  {
    StepFrame(s, step);
    if t == |s.calls| {
      BegunCarries(s, step);
    } else if t == CallOf(step) {
      MoverCarries(s, step);
      ReaderCarries(s, t);
    } else {
      OtherCarries(s, step, db, t, k);
    }
  }

  /** No step makes an analysis older than one already given out appear. */
  lemma OlderIsOld(s: State, step: Step, db: string, k: nat)
    requires Valid(s) && Enabled(s, step) && k <= s.nextStamp && Older(Next(s, step), db, k)
    ensures Older(s, db, k)
  {
    var u := Next(s, step);
    if OlderInMap(u, db, k) {
      OlderInMapIsOld(s, step, db, k);
    } else if OlderStored(u, db, k) {
      OlderStoredIsOld(s, step, db, k);
    } else {
      var t :| 0 <= t < |u.calls| && Carries(u, db, t, k);
      CarriedIsOld(s, step, db, t, k);
    }
  }

  lemma {:induction false} OlderStaysAway(s: State, steps: seq<Step>, db: string, k: nat)
    requires Valid(s) && Legal(s, steps) && k <= s.nextStamp && Older(After(s, steps), db, k)
    ensures Older(s, db, k)
    decreases |steps|
  {
    if steps != [] {
      StepKeeps(s, steps[0]);
      StepGrows(s, steps[0]);
      OlderStaysAway(Next(s, steps[0]), steps[1..], db, k);
      OlderIsOld(s, steps[0], db, k);
    }
  }

  /** Some run ends with an older analysis in the map. */
  ghost predicate CanComeBack(s: State, db: string, k: nat) {
    exists steps :: Legal(s, steps) && OlderInMap(After(s, steps), db, k)
  }

  lemma ComesBackNow(s: State, db: string, k: nat)
    requires OlderInMap(s, db, k)
    ensures CanComeBack(s, db, k)
  {
    assert Legal(s, []) && After(s, []) == s;
  }

  lemma ComesBackLater(s: State, step: Step, db: string, k: nat)
    requires Enabled(s, step) && CanComeBack(Next(s, step), db, k)
    ensures CanComeBack(s, db, k)
  {
    var rest :| Legal(Next(s, step), rest) && OlderInMap(After(Next(s, step), rest), db, k);
    var steps := [step] + rest;
    assert steps[0] == step && steps[1..] == rest;
    assert Legal(s, steps) && After(s, steps) == After(Next(s, step), rest);
  }

  /** An older stored copy and an empty slot. */
  predicate Retrievable(s: State, db: string, k: nat) {
    OlderStored(s, db, k) && db !in s.l1
  }

  lemma ReadComesBack(s: State, t: nat, db: string, k: nat)
    requires Retrievable(s, db, k) && Enabled(s, Read(t)) && s.calls[t].db == db
    ensures CanComeBack(s, db, k)
  {
    var u := Next(s, Read(t));
    ComesBackNow(Next(u, Install(t)), db, k);
    ComesBackLater(u, Install(t), db, k);
    ComesBackLater(s, Read(t), db, k);
  }

  lemma HolderComesBack(s: State, t: nat, db: string, k: nat)
    requires Retrievable(s, db, k) && Enabled(s, Recheck(t)) && s.calls[t].db == db
    ensures CanComeBack(s, db, k)
  {
    ReadComesBack(Next(s, Recheck(t)), t, db, k);
    ComesBackLater(s, Recheck(t), db, k);
  }

  lemma WaiterComesBack(s: State, t: nat, db: string, k: nat)
    requires Retrievable(s, db, k) && Enabled(s, Acquire(t)) && s.calls[t].db == db
    ensures CanComeBack(s, db, k)
  {
    HolderComesBack(Next(s, Acquire(t)), t, db, k);
    ComesBackLater(s, Acquire(t), db, k);
  }

  /** With the database's lock free, a get that misses reads the stored copy and installs it. */
  lemma GetComesBack(s: State, db: string, k: nat)
    requires Valid(s) && Retrievable(s, db, k) && (db in s.locks ==> s.locks[db] !in s.held)
    ensures CanComeBack(s, db, k)
  {
    var look := Look(db, true, true, 0.0);
    var u, t := Next(s, look), |s.calls|;
    if s.nextLock in s.held { HeldIsOld(s, s.nextLock); }
    assert u.calls[t].pc == Waiting && u.calls[t].hydrationLock !in u.held;
    WaiterComesBack(u, t, db, k);
    ComesBackLater(s, look, db, k);
  }

  lemma HeldIsOld(s: State, lock: nat)
    requires Valid(s) && lock in s.held
    ensures lock < s.nextLock
  {
    var t := s.held[lock];
    assert Holds(s.calls[t].pc) && s.locks[s.calls[t].db] == lock;
  }

  /** A holder about to give the lock back does so first. */
  lemma ReleaserComesBack(s: State, t: nat, db: string, k: nat)
    requires Valid(s) && Retrievable(s, db, k) && Enabled(s, Release(t)) && s.calls[t].db == db
    ensures CanComeBack(s, db, k)
  {
    assert Holds(s.calls[t].pc);
    var u := Next(s, Release(t));
    StepKeeps(s, Release(t));
    GetComesBack(u, db, k);
    ComesBackLater(s, Release(t), db, k);
  }

  /** A holder about to install a copy installs it, and an invalidation takes it out again. */
  lemma InstallerComesBack(s: State, t: nat, db: string, k: nat)
    requires Valid(s) && Retrievable(s, db, k) && Enabled(s, Install(t)) && s.calls[t].db == db
    ensures CanComeBack(s, db, k)
  {
    assert Holds(s.calls[t].pc);
    var u := Next(s, Install(t));
    var v := Next(u, Invalidate(db));
    StepKeeps(s, Install(t));
    StepKeeps(u, Invalidate(db));
    ReleaserComesBack(v, t, db, k);
    ComesBackLater(u, Invalidate(db), db, k);
    ComesBackLater(s, Install(t), db, k);
  }

  /** Wherever the holder of the lock is, an older stored copy can come back. */
  lemma StoredComesBack(s: State, db: string, k: nat)
    requires Valid(s) && Retrievable(s, db, k)
    ensures CanComeBack(s, db, k)
  {
    if db in s.locks && s.locks[db] in s.held {
      var h := s.held[s.locks[db]];
      assert Holds(s.calls[h].pc) && s.calls[h].hydrationLock == s.locks[db];
      assert s.calls[h].db == db;
      match s.calls[h].pc {
        case Holding => HolderComesBack(s, h, db, k);
        case Reading => ReadComesBack(s, h, db, k);
        case Installing(_) => InstallerComesBack(s, h, db, k);
        case Releasing(_) => ReleaserComesBack(s, h, db, k);
      }
    } else {
      GetComesBack(s, db, k);
    }
  }

  lemma CarriedComesBack(s: State, db: string, t: nat, k: nat)
    requires Valid(s) && db !in s.l1 && Carries(s, db, t, k)
    ensures CanComeBack(s, db, k)
  {
    assert RefOf(s.calls[t].pc).value < |s.heap|;
    if s.calls[t].pc.Installing? {
      ComesBackNow(Next(s, Install(t)), db, k);
      ComesBackLater(s, Install(t), db, k);
    } else {
      StepKeeps(s, Persist(t, true));
      StoredComesBack(Next(s, Persist(t, true)), db, k);
      ComesBackLater(s, Persist(t, true), db, k);
    }
  }

  /**
   Once the map has no entry, an analysis older than the `k`-th can come back in some run if and only
   if one is stored, or is carried by a call that is about to install or to store it.
   */
  lemma OlderComesBackExactly(s: State, db: string, k: nat)
    requires Valid(s) && k <= s.nextStamp && db !in s.l1
    ensures CanComeBack(s, db, k) <==> Older(s, db, k)
  {
    if CanComeBack(s, db, k) {
      var steps :| Legal(s, steps) && OlderInMap(After(s, steps), db, k);
      OlderStaysAway(s, steps, db, k);
    } else if OlderStored(s, db, k) {
      StoredComesBack(s, db, k);
    } else if Older(s, db, k) {
      var t :| 0 <= t < |s.calls| && Carries(s, db, t, k);
      CarriedComesBack(s, db, t, k);
    }
  }

  /** A stored copy of the database, or a call that is about to install or to store one. */
  predicate Pending(s: State, db: string) {
    || db in s.stored
    || exists t :: 0 <= t < |s.calls| && s.calls[t].db == db && (s.calls[t].pc.Installing? || s.calls[t].pc.Persisting?)
  }

  /**
   So after a put and an invalidation an analysis older than the one put can come back if and only
   if before the put a copy was stored, or a call was about to install or to store one.
   */
  lemma OlderAfterPut(s: State, db: string, handle: bool, now: real, gone: State)
    requires Valid(s) && gone == Next(Next(s, Put(db, handle, now)), Invalidate(db))
    ensures CanComeBack(gone, db, s.nextStamp) <==> Pending(s, db)
  {
    var put := Next(s, Put(db, handle, now));
    StepKeeps(s, Put(db, handle, now));
    StepKeeps(put, Invalidate(db));
    OlderComesBackExactly(gone, db, s.nextStamp);
    PendingIsOlder(s, db, handle, now, gone);
  }

  lemma PendingIsOlder(s: State, db: string, handle: bool, now: real, gone: State)
    requires Valid(s) && gone == Next(Next(s, Put(db, handle, now)), Invalidate(db))
    ensures Older(gone, db, s.nextStamp) <==> Pending(s, db)
  {
    assert gone.stored == s.stored && s.heap <= gone.heap && db !in gone.l1;
    if t :| 0 <= t < |s.calls| && s.calls[t].db == db && (s.calls[t].pc.Installing? || s.calls[t].pc.Persisting?) {
      assert RefOf(s.calls[t].pc).value < |s.heap| && gone.calls[t] == s.calls[t];
      assert Carries(gone, db, t, s.nextStamp);
    }
    if t :| 0 <= t < |gone.calls| && Carries(gone, db, t, s.nextStamp) {
      NewestIsNotOlder(s, db, handle, now, gone, t);
      assert s.calls[t] == gone.calls[t];
    }
  }

  lemma NewestIsNotOlder(s: State, db: string, handle: bool, now: real, gone: State, t: nat)
    requires Valid(s) && gone == Next(Next(s, Put(db, handle, now)), Invalidate(db))
    requires Carries(gone, db, t, s.nextStamp)
    ensures t < |s.calls|
  {
    assert Entered(gone, |s.heap|).stamp == s.nextStamp;
  }
}
