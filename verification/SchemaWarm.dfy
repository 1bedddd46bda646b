/**
 Background schema warming: the dictionaries a lock guards, the worker threads that change them,
 and every interleaving of the workers with the requests.
 */
module SchemaWarm {
  import opened Collections

  datatype Mode = Rebuild | Revalidate

  /** How a piece of analysis ends: normally, with an exception, or with one that no handler catches. */
  datatype Outcome = Done | Raised(message: string) | Aborted

  /**
   Where a worker is: in its first analysis, before the check for a queued rebuild, in that
   rebuild, about to record a failure, about to leave, or gone.
   */
  datatype Pc = First | Checking | Rebuilding | Failing(message: string) | Leaving | Gone

  datatype Worker = Worker(db: string, mode: Mode, pc: Pc)

  /** A failure, by the worker that raised it. */
  datatype Failure = Failure(worker: nat, message: string)

  datatype State = State(
    inflight: map<string, Mode>,
    rebuildAfter: set<string>,
    errors: map<string, Failure>,
    workers: seq<Worker>)

  const INITIAL := State(map[], {}, map[], [])

  /** One lock-guarded block, or one analysis of a worker coming to its end. */
  datatype Step =
    | Schedule(name: Option<string>, revalidate: bool)
    | Request(db: string)
    | Take(db: string)
    | FirstEnds(w: nat, outcome: Outcome)
    | Check(w: nat)
    | RebuildEnds(w: nat, outcome: Outcome)
    | Record(w: nat)
    | Leave(w: nat)

  predicate At(s: State, w: nat, pc: Pc) {
    w < |s.workers| && s.workers[w].pc == pc
  }

  predicate Enabled(s: State, step: Step) {
    match step
    case FirstEnds(w, _) => At(s, w, First)
    case Check(w) => At(s, w, Checking)
    case RebuildEnds(w, _) => At(s, w, Rebuilding)
    case Record(w) => w < |s.workers| && s.workers[w].pc.Failing?
    case Leave(w) => At(s, w, Leaving)
    case _ => true
  }

  /** Whether a schedule starts a warm: the database has a name and none is in flight for it. */
  predicate Starts(s: State, name: Option<string>) {
    name.Some? && name.value != "" && name.value !in s.inflight
  }

  function Ended(outcome: Outcome, next: Pc): Pc {
    match outcome case Done => next case Raised(m) => Failing(m) case Aborted => Leaving
  }

  function Moved(s: State, w: nat, mode: Mode, pc: Pc): State
    requires w < |s.workers|
  {
    s.(workers := s.workers[w := Worker(s.workers[w].db, mode, pc)])
  }

  function ModeOf(revalidate: bool): Mode {
    if revalidate then Revalidate else Rebuild
  }

  function Next(s: State, step: Step): State
    requires Enabled(s, step)
  {
    match step
    case Schedule(name, revalidate) =>
      if !Starts(s, name) then s
      else
        var mode := ModeOf(revalidate);
        State(s.inflight[name.value := mode], s.rebuildAfter, s.errors - {name.value},
              s.workers + [Worker(name.value, mode, First)])
    case Request(db) =>
      if db in s.inflight && s.inflight[db] == Revalidate then s.(rebuildAfter := s.rebuildAfter + {db}) else s
    case Take(db) => s.(errors := s.errors - {db})
    case FirstEnds(w, outcome) => Moved(s, w, s.workers[w].mode, Ended(outcome, Checking))
    case Check(w) =>
      var db := s.workers[w].db;
      if db in s.rebuildAfter then
        Moved(s.(rebuildAfter := s.rebuildAfter - {db}, inflight := s.inflight[db := Rebuild]), w, Rebuild, Rebuilding)
      else Moved(s, w, s.workers[w].mode, Leaving)
    case RebuildEnds(w, outcome) => Moved(s, w, s.workers[w].mode, Ended(outcome, Leaving))
    case Record(w) =>
      var failed := s.(errors := s.errors[s.workers[w].db := Failure(w, s.workers[w].pc.message)]);
      Moved(failed, w, s.workers[w].mode, Leaving)
    case Leave(w) =>
      var db := s.workers[w].db;
      Moved(s.(inflight := s.inflight - {db}, rebuildAfter := s.rebuildAfter - {db}), w, s.workers[w].mode, Gone)
  }

  // ---- the invariant ----

  predicate Live(s: State, w: nat) {
    w < |s.workers| && s.workers[w].pc != Gone
  }

  /** Each worker at work is the one of its database in flight, in the mode recorded for it. */
  ghost predicate WorkersInFlight(s: State) {
    && (forall w: nat :: Live(s, w) ==>
          s.workers[w].db in s.inflight && s.inflight[s.workers[w].db] == s.workers[w].mode)
    && (forall w: nat :: At(s, w, Rebuilding) ==> s.workers[w].mode == Rebuild)
  }

  ghost predicate OneWorkerEach(s: State) {
    forall v: nat, w: nat :: Live(s, v) && Live(s, w) && s.workers[v].db == s.workers[w].db ==> v == w
  }

  ghost predicate InFlightHasWorker(s: State) {
    forall db :: db in s.inflight ==> exists w: nat :: Live(s, w) && s.workers[w].db == db
  }

  /** A rebuild is queued only behind a revalidation in flight. */
  predicate QueuedBehindRevalidation(s: State) {
    forall db :: db in s.rebuildAfter ==> db in s.inflight && s.inflight[db] == Revalidate
  }

  predicate PastRecording(s: State, w: nat) {
    w < |s.workers| && (s.workers[w].pc == Leaving || s.workers[w].pc == Gone)
  }

  predicate ErrorsAreTheirs(s: State) {
    forall db :: db in s.errors ==> PastRecording(s, s.errors[db].worker) && s.workers[s.errors[db].worker].db == db
  }

  /** A worker for each database in flight, and no other. */
  ghost predicate Matched(s: State) {
    WorkersInFlight(s) && OneWorkerEach(s) && InFlightHasWorker(s)
  }

  ghost predicate Valid(s: State) {
    Matched(s) && QueuedBehindRevalidation(s) && ErrorsAreTheirs(s)
  }

  lemma Theirs(s: State, v: nat, db: string)
    requires Live(s, v) && s.workers[v].db == db
    ensures exists w: nat :: Live(s, w) && s.workers[w].db == db
  {}

  /** The same worker as far as the bookkeeping goes; a rebuilding one is known as such. */
  predicate SameWorker(a: Worker, b: Worker) {
    && b.db == a.db && b.mode == a.mode && (b.pc == Gone <==> a.pc == Gone)
    && (b.pc == Rebuilding ==> b.mode == Rebuild)
  }

  /** As many workers, for the same databases in the same modes, and the same of them at work. */
  predicate SameWork(s: State, t: State) {
    && t.inflight == s.inflight && |t.workers| == |s.workers|
    && forall v :: 0 <= v < |s.workers| ==> SameWorker(s.workers[v], t.workers[v])
  }

  lemma SameLive(s: State, t: State, v: nat)
    requires SameWork(s, t) && v < |s.workers|
    ensures Live(t, v) == Live(s, v) && SameWorker(s.workers[v], t.workers[v])
  {}

  lemma SameInFlight(s: State, t: State)
    requires WorkersInFlight(s) && SameWork(s, t)
    ensures WorkersInFlight(t)
  {
    forall w: nat | Live(t, w)
      ensures t.workers[w].db in t.inflight && t.inflight[t.workers[w].db] == t.workers[w].mode
    {
      SameLive(s, t, w);
    }
    forall w: nat | At(t, w, Rebuilding) ensures t.workers[w].mode == Rebuild {
      SameLive(s, t, w);
    }
  }

  lemma SameOneEach(s: State, t: State)
    requires OneWorkerEach(s) && SameWork(s, t)
    ensures OneWorkerEach(t)
  {
    forall v: nat, w: nat | Live(t, v) && Live(t, w) && t.workers[v].db == t.workers[w].db ensures v == w {
      SameLive(s, t, v);
      SameLive(s, t, w);
    }
  }

  lemma SameHasWorker(s: State, t: State)
    requires InFlightHasWorker(s) && SameWork(s, t)
    ensures InFlightHasWorker(t)
  {
    forall db | db in t.inflight ensures exists v: nat :: Live(t, v) && t.workers[v].db == db {
      var v: nat :| Live(s, v) && s.workers[v].db == db;
      SameLive(s, t, v);
      Theirs(t, v, db);
    }
  }

  lemma SameWorkMatched(s: State, t: State)
    requires Matched(s) && SameWork(s, t)
    ensures Matched(t)
  {
    SameInFlight(s, t);
    SameOneEach(s, t);
    SameHasWorker(s, t);
  }

  /** A worker going on to a place where it is still at work, or to the door. */
  lemma MoveKeeps(s: State, w: nat, pc: Pc)
    requires Valid(s) && Live(s, w) && pc != Gone && !PastRecording(s, w)
    requires pc == Rebuilding ==> s.workers[w].mode == Rebuild
    ensures Valid(Moved(s, w, s.workers[w].mode, pc))
  {
    var t := Moved(s, w, s.workers[w].mode, pc);
    forall v | 0 <= v < |s.workers| ensures SameWorker(s.workers[v], t.workers[v]) {
      if v != w { assert At(s, v, s.workers[v].pc); }
    }
    SameWorkMatched(s, t);
    ErrorsStay(s, t);
  }

  /** Errors that were there stay their workers', if no worker goes back. */
  lemma ErrorsStay(s: State, t: State)
    requires ErrorsAreTheirs(s) && |s.workers| <= |t.workers|
    requires forall db :: db in t.errors ==> db in s.errors && t.errors[db] == s.errors[db]
    requires forall v: nat :: PastRecording(s, v) ==> PastRecording(t, v) && t.workers[v].db == s.workers[v].db
    ensures ErrorsAreTheirs(t)
  {}

  lemma ScheduleMatched(s: State, db: string, mode: Mode, t: State)
    requires Matched(s) && db !in s.inflight
    requires t.inflight == s.inflight[db := mode] && t.workers == s.workers + [Worker(db, mode, First)]
    ensures Matched(t)
  {
    forall v: nat ensures Live(t, v) <==> Live(s, v) || v == |s.workers| {}
    forall v: nat ensures At(t, v, Rebuilding) <==> At(s, v, Rebuilding) {}
    forall d | d in t.inflight ensures exists v: nat :: Live(t, v) && t.workers[v].db == d {
      if d == db {
        Theirs(t, |s.workers|, d);
      } else {
        var v: nat :| Live(s, v) && s.workers[v].db == d;
        Theirs(t, v, d);
      }
    }
  }

  lemma ScheduleKeeps(s: State, name: Option<string>, revalidate: bool)
    requires Valid(s)
    ensures Valid(Next(s, Schedule(name, revalidate)))
  {
    if Starts(s, name) {
      var t := Next(s, Schedule(name, revalidate));
      ScheduleMatched(s, name.value, ModeOf(revalidate), t);
      ErrorsStay(s, t);
    }
  }

  lemma SameWorkersMatched(s: State, t: State)
    requires Matched(s) && t.inflight == s.inflight && t.workers == s.workers
    ensures Matched(t)
  {
    forall v | 0 <= v < |s.workers| ensures SameWorker(s.workers[v], t.workers[v]) {
      assert At(s, v, s.workers[v].pc);
    }
    SameWorkMatched(s, t);
  }

  lemma RequestKeeps(s: State, db: string)
    requires Valid(s)
    ensures Valid(Next(s, Request(db)))
  {
    SameWorkersMatched(s, Next(s, Request(db)));
    ErrorsStay(s, Next(s, Request(db)));
  }

  lemma TakeKeeps(s: State, db: string)
    requires Valid(s)
    ensures Valid(Next(s, Take(db)))
  {
    SameWorkersMatched(s, Next(s, Take(db)));
    ErrorsStay(s, Next(s, Take(db)));
  }

  lemma CheckHasWorkers(s: State, w: nat, t: State)
    requires InFlightHasWorker(s) && At(s, w, Checking)
    requires t.inflight == s.inflight[s.workers[w].db := Rebuild]
    requires t.workers == s.workers[w := Worker(s.workers[w].db, Rebuild, Rebuilding)]
    ensures InFlightHasWorker(t)
  {
    forall d | d in t.inflight ensures exists v: nat :: Live(t, v) && t.workers[v].db == d {
      if d == s.workers[w].db {
        Theirs(t, w, d);
      } else {
        var v: nat :| Live(s, v) && s.workers[v].db == d;
        Theirs(t, v, d);
      }
    }
  }

  lemma CheckInFlight(s: State, w: nat, t: State)
    requires WorkersInFlight(s) && OneWorkerEach(s) && At(s, w, Checking)
    requires t.inflight == s.inflight[s.workers[w].db := Rebuild]
    requires t.workers == s.workers[w := Worker(s.workers[w].db, Rebuild, Rebuilding)]
    ensures WorkersInFlight(t)
  {
    assert Live(s, w);
    forall v: nat | Live(t, v)
      ensures t.workers[v].db in t.inflight && t.inflight[t.workers[v].db] == t.workers[v].mode
    {
      assert Live(s, v);
    }
    forall v: nat | At(t, v, Rebuilding) ensures t.workers[v].mode == Rebuild {
      if v != w { assert At(s, v, Rebuilding); }
    }
  }

  lemma CheckMatched(s: State, w: nat, t: State)
    requires Matched(s) && At(s, w, Checking)
    requires t.inflight == s.inflight[s.workers[w].db := Rebuild]
    requires t.workers == s.workers[w := Worker(s.workers[w].db, Rebuild, Rebuilding)]
    ensures Matched(t)
  {
    CheckHasWorkers(s, w, t);
    CheckInFlight(s, w, t);
    forall v: nat ensures Live(t, v) ==> Live(s, v) && t.workers[v].db == s.workers[v].db {}
  }

  lemma CheckKeeps(s: State, w: nat)
    requires Valid(s) && At(s, w, Checking)
    ensures Valid(Next(s, Check(w)))
  {
    if s.workers[w].db in s.rebuildAfter {
      var t := Next(s, Check(w));
      CheckMatched(s, w, t);
      ErrorsStay(s, t);
    } else {
      MoveKeeps(s, w, Leaving);
    }
  }

  lemma RecordKeeps(s: State, w: nat)
    requires Valid(s) && w < |s.workers| && s.workers[w].pc.Failing?
    ensures Valid(Next(s, Record(w)))
  {
    MoveKeeps(s, w, Leaving);
    SameWorkersMatched(Moved(s, w, s.workers[w].mode, Leaving), Next(s, Record(w)));
  }

  predicate LeftBy(s: State, w: nat, t: State) {
    && At(s, w, Leaving)
    && t == Moved(s.(inflight := s.inflight - {s.workers[w].db}, rebuildAfter := s.rebuildAfter - {s.workers[w].db}),
                  w, s.workers[w].mode, Gone)
  }

  lemma LeaveLive(s: State, w: nat, t: State, v: nat)
    requires LeftBy(s, w, t)
    ensures Live(t, v) <==> Live(s, v) && v != w
    ensures Live(t, v) ==> t.workers[v] == s.workers[v]
  {}

  lemma LeaveInFlight(s: State, w: nat, t: State)
    requires WorkersInFlight(s) && OneWorkerEach(s) && LeftBy(s, w, t)
    ensures WorkersInFlight(t)
  {
    assert Live(s, w);
    forall v: nat | Live(t, v)
      ensures t.workers[v].db in t.inflight && t.inflight[t.workers[v].db] == t.workers[v].mode
    {
      LeaveLive(s, w, t, v);
    }
    forall v: nat | At(t, v, Rebuilding) ensures t.workers[v].mode == Rebuild {
      LeaveLive(s, w, t, v);
      assert At(s, v, Rebuilding);
    }
  }

  lemma LeaveOneEach(s: State, w: nat, t: State)
    requires OneWorkerEach(s) && LeftBy(s, w, t)
    ensures OneWorkerEach(t)
  {
    forall v: nat, u: nat | Live(t, v) && Live(t, u) && t.workers[v].db == t.workers[u].db ensures v == u {
      LeaveLive(s, w, t, v);
      LeaveLive(s, w, t, u);
    }
  }

  lemma LeaveHasWorker(s: State, w: nat, t: State)
    requires InFlightHasWorker(s) && LeftBy(s, w, t)
    ensures InFlightHasWorker(t)
  {
    forall d | d in t.inflight ensures exists v: nat :: Live(t, v) && t.workers[v].db == d {
      var v: nat :| Live(s, v) && s.workers[v].db == d;
      LeaveLive(s, w, t, v);
      Theirs(t, v, d);
    }
  }

  lemma LeaveKeeps(s: State, w: nat)
    requires Valid(s) && At(s, w, Leaving)
    ensures Valid(Next(s, Leave(w)))
  {
    var t := Next(s, Leave(w));
    LeaveInFlight(s, w, t);
    LeaveOneEach(s, w, t);
    LeaveHasWorker(s, w, t);
    ErrorsStay(s, t);
  }

  /** Every step keeps the invariant. */
  lemma StepKeeps(s: State, step: Step)
    requires Valid(s) && Enabled(s, step)
    ensures Valid(Next(s, step))
  {
    match step {
      case Schedule(name, revalidate) => ScheduleKeeps(s, name, revalidate);
      case Request(db) => RequestKeeps(s, db);
      case Take(db) => TakeKeeps(s, db);
      case FirstEnds(w, outcome) => MoveKeeps(s, w, Ended(outcome, Checking));
      case Check(w) => CheckKeeps(s, w);
      case RebuildEnds(w, outcome) => MoveKeeps(s, w, Ended(outcome, Leaving));
      case Record(w) => RecordKeeps(s, w);
      case Leave(w) => LeaveKeeps(s, w);
    }
  }

  // ---- runs ----

  predicate Legal(s: State, steps: seq<Step>)
    decreases |steps|
  {
    steps == [] || (Enabled(s, steps[0]) && Legal(Next(s, steps[0]), steps[1..]))
  }

  function After(s: State, steps: seq<Step>): State
    requires Legal(s, steps)
    decreases |steps|
  {
    if steps == [] then s else After(Next(s, steps[0]), steps[1..])
  }

  lemma {:induction false} RunKeeps(s: State, steps: seq<Step>)
    requires Valid(s) && Legal(s, steps)
    ensures Valid(After(s, steps))
    decreases |steps|
  {
    if steps != [] {
      StepKeeps(s, steps[0]);
      RunKeeps(Next(s, steps[0]), steps[1..]);
    }
  }

  /** In every interleaving a database has at most one worker, and rebuilds are queued only behind revalidations. */
  lemma OneWarmPerDatabase(steps: seq<Step>)
    requires Legal(INITIAL, steps)
    ensures OneWorkerEach(After(INITIAL, steps)) && QueuedBehindRevalidation(After(INITIAL, steps))
    ensures forall db :: db in After(INITIAL, steps).inflight
                    <==> exists w: nat :: Live(After(INITIAL, steps), w) && After(INITIAL, steps).workers[w].db == db
  {
    RunKeeps(INITIAL, steps);
  }

  // ---- workers move only forward ----

  function Rank(pc: Pc): nat {
    match pc
    case First => 5
    case Checking => 4
    case Rebuilding => 3
    case Failing(_) => 2
    case Leaving => 1
    case Gone => 0
  }

  function WorkerOf(step: Step): int {
    match step
    case FirstEnds(w, _) => w case Check(w) => w case RebuildEnds(w, _) => w case Record(w) => w case Leave(w) => w
    case _ => -1
  }

  /** A worker's own step brings it nearer its end; no other step moves it. One at work can always step. */
  lemma WorkersFinish(s: State, step: Step, w: nat)
    requires Enabled(s, step) && w < |s.workers|
    ensures w < |Next(s, step).workers| && Next(s, step).workers[w].db == s.workers[w].db
    ensures WorkerOf(step) == w ==> Rank(Next(s, step).workers[w].pc) < Rank(s.workers[w].pc)
    ensures WorkerOf(step) != w ==> Next(s, step).workers[w] == s.workers[w]
    ensures s.workers[w].pc != Gone ==> exists own :: WorkerOf(own) == w && Enabled(s, own)
  {
    match s.workers[w].pc {
      case First => assert WorkerOf(FirstEnds(w, Done)) == w && Enabled(s, FirstEnds(w, Done));
      case Checking => assert WorkerOf(Check(w)) == w && Enabled(s, Check(w));
      case Rebuilding => assert WorkerOf(RebuildEnds(w, Done)) == w && Enabled(s, RebuildEnds(w, Done));
      case Failing(_) => assert WorkerOf(Record(w)) == w && Enabled(s, Record(w));
      case Leaving => assert WorkerOf(Leave(w)) == w && Enabled(s, Leave(w));
      case Gone =>
    }
  }

  // ---- a queued rebuild ----

  predicate Rebuilds(steps: seq<Step>, w: nat) {
    exists i :: 0 <= i < |steps| && steps[i].RebuildEnds? && steps[i].w == w
  }

  predicate FirstFails(steps: seq<Step>, w: nat) {
    exists i :: 0 <= i < |steps| && steps[i].FirstEnds? && steps[i].w == w && steps[i].outcome != Done
  }

  lemma RebuildsStep(steps: seq<Step>, w: nat)
    requires steps != []
    ensures Rebuilds(steps, w) <==> (steps[0].RebuildEnds? && steps[0].w == w) || Rebuilds(steps[1..], w)
    ensures FirstFails(steps, w)
       <==> (steps[0].FirstEnds? && steps[0].w == w && steps[0].outcome != Done) || FirstFails(steps[1..], w)
  {
    assert forall i :: 0 <= i < |steps[1..]| ==> steps[1..][i] == steps[i + 1];
  }

  /** The worker still owes the queued rebuild: it is queued, or under way. */
  predicate Owes(s: State, w: nat) {
    || ((At(s, w, First) || At(s, w, Checking)) && s.workers[w].db in s.rebuildAfter)
    || At(s, w, Rebuilding)
  }

  lemma OwesStep(s: State, step: Step, w: nat)
    requires Valid(s) && Enabled(s, step) && Owes(s, w)
    ensures Owes(Next(s, step), w) || (step.RebuildEnds? && step.w == w)
         || (step.FirstEnds? && step.w == w && step.outcome != Done)
  {
    WorkersFinish(s, step, w);
    if WorkerOf(step) >= 0 && WorkerOf(step) != w {
      assert Live(s, w) && Live(s, WorkerOf(step));
      assert s.workers[w].db != s.workers[WorkerOf(step)].db;
    }
  }

  lemma {:induction false} OwedIsPaid(s: State, steps: seq<Step>, w: nat)
    requires Valid(s) && Legal(s, steps) && Owes(s, w)
    ensures Owes(After(s, steps), w) || Rebuilds(steps, w) || FirstFails(steps, w)
    decreases |steps|
  {
    if steps != [] {
      RebuildsStep(steps, w);
      OwesStep(s, steps[0], w);
      StepKeeps(s, steps[0]);
      if Owes(Next(s, steps[0]), w) { OwedIsPaid(Next(s, steps[0]), steps[1..], w); }
    }
  }

  /** The worker is past its check, or its first analysis failed: it will not rebuild. */
  predicate Past(s: State, w: nat) {
    w < |s.workers| && (s.workers[w].pc.Failing? || s.workers[w].pc.Leaving? || s.workers[w].pc.Gone?)
  }

  lemma {:induction false} PastNeverRebuilds(s: State, steps: seq<Step>, w: nat)
    requires Legal(s, steps) && Past(s, w)
    ensures !Rebuilds(steps, w)
    decreases |steps|
  {
    if steps != [] {
      RebuildsStep(steps, w);
      WorkersFinish(s, steps[0], w);
      PastNeverRebuilds(Next(s, steps[0]), steps[1..], w);
    }
  }

  lemma {:induction false} FirstEndsOnce(s: State, steps: seq<Step>, w: nat)
    requires Legal(s, steps) && w < |s.workers| && s.workers[w].pc != First
    ensures !FirstFails(steps, w)
    decreases |steps|
  {
    if steps != [] {
      RebuildsStep(steps, w);
      WorkersFinish(s, steps[0], w);
      FirstEndsOnce(Next(s, steps[0]), steps[1..], w);
    }
  }

  lemma {:induction false} FailedNeverRebuilds(s: State, steps: seq<Step>, w: nat)
    requires Legal(s, steps) && w < |s.workers| && FirstFails(steps, w)
    ensures !Rebuilds(steps, w)
    decreases |steps|
  {
    RebuildsStep(steps, w);
    var next := Next(s, steps[0]);
    WorkersFinish(s, steps[0], w);
    if s.workers[w].pc != First {
      FirstEndsOnce(s, steps, w);
    } else if FirstFails(steps[1..], w) {
      FailedNeverRebuilds(next, steps[1..], w);
    } else {
      PastNeverRebuilds(next, steps[1..], w);
    }
  }

  /**
   A rebuild asked for while a revalidation is in flight, in every interleaving that follows until
   that worker is gone: it is done if and only if the worker had not reached its check when it was
   asked for, and the revalidation does not fail.
   */
  lemma RequestedRebuild(s: State, w: nat, rest: seq<Step>)
    requires Valid(s) && Live(s, w) && s.workers[w].mode == Revalidate
    requires Legal(Next(s, Request(s.workers[w].db)), rest)
    requires At(After(Next(s, Request(s.workers[w].db)), rest), w, Gone)
    ensures Rebuilds(rest, w) <==> (At(s, w, First) || At(s, w, Checking)) && !FirstFails(rest, w)
  {
    var t := Next(s, Request(s.workers[w].db));
    StepKeeps(s, Request(s.workers[w].db));
    if FirstFails(rest, w) {
      FailedNeverRebuilds(t, rest, w);
    } else if At(s, w, First) || At(s, w, Checking) {
      OwedIsPaid(t, rest, w);
    } else {
      PastNeverRebuilds(t, rest, w);
    }
  }

  /** The window: a request between the check and the worker's leaving is accepted, then forgotten. */
  lemma LateRequestIsDropped(s: State, w: nat)
    requires Valid(s) && At(s, w, Leaving) && s.workers[w].mode == Revalidate
    ensures var db := s.workers[w].db;
            && db in Next(s, Request(db)).rebuildAfter
            && db !in Next(Next(s, Request(db)), Leave(w)).rebuildAfter
            && db !in Next(Next(s, Request(db)), Leave(w)).inflight
  {
    assert Live(s, w);
  }

  // ---- failures ----

  /** The failures handed out along a run. */
  function Taken(s: State, steps: seq<Step>): seq<Failure>
    requires Legal(s, steps)
    decreases |steps|
  {
    if steps == [] then []
    else
      (if steps[0].Take? && steps[0].db in s.errors then [s.errors[steps[0].db]] else [])
        + Taken(Next(s, steps[0]), steps[1..])
  }

  /** Failures already handed out: their workers will record no more, and no entry holds them. */
  predicate Spent(s: State, gone: set<nat>) {
    && (forall w :: w in gone ==> PastRecording(s, w))
    && (forall db :: db in s.errors ==> s.errors[db].worker !in gone)
  }

  lemma SpentStep(s: State, step: Step, gone: set<nat>)
    requires Valid(s) && Enabled(s, step) && Spent(s, gone)
    ensures Spent(Next(s, step), if step.Take? && step.db in s.errors then gone + {s.errors[step.db].worker} else gone)
  {
    var t := Next(s, step);
    forall w: nat | PastRecording(s, w) ensures PastRecording(t, w) { WorkersFinish(s, step, w); }
  }

  lemma {:induction false} TakenAreFresh(s: State, steps: seq<Step>, gone: set<nat>)
    requires Valid(s) && Legal(s, steps) && Spent(s, gone)
    ensures forall i :: 0 <= i < |Taken(s, steps)| ==> Taken(s, steps)[i].worker !in gone
    ensures forall i, j :: 0 <= i < j < |Taken(s, steps)| ==> Taken(s, steps)[i].worker != Taken(s, steps)[j].worker
    decreases |steps|
  {
    if steps != [] {
      SpentStep(s, steps[0], gone);
      StepKeeps(s, steps[0]);
      var took := steps[0].Take? && steps[0].db in s.errors;
      TakenAreFresh(Next(s, steps[0]), steps[1..], if took then gone + {s.errors[steps[0].db].worker} else gone);
    }
  }

  /** Each worker's failure is handed out at most once, over every run. */
  lemma FailureTakenOnce(steps: seq<Step>)
    requires Legal(INITIAL, steps)
    ensures forall i, j :: 0 <= i < j < |Taken(INITIAL, steps)| ==>
              Taken(INITIAL, steps)[i].worker != Taken(INITIAL, steps)[j].worker
  {
    TakenAreFresh(INITIAL, steps, {});
  }

  lemma OneTaken(s: State, db: string)
    ensures Legal(s, [Take(db)])
    ensures Taken(s, [Take(db)]) == if db in s.errors then [s.errors[db]] else []
  {
    assert [Take(db)][1..] == [];
  }

  /** What waits is what is handed out, by the first request for it and by no second one. */
  lemma FailureIsTaken(s: State, db: string)
    requires db in s.errors
    ensures Legal(s, [Take(db)]) && Legal(Next(s, Take(db)), [Take(db)])
    ensures Taken(s, [Take(db)]) == [s.errors[db]] && Taken(Next(s, Take(db)), [Take(db)]) == []
  {
    OneTaken(s, db);
    OneTaken(Next(s, Take(db)), db);
  }

  /** A recorded failure waits for the next request: only taking it or a new warm of the database ends it. */
  lemma {:induction false} FailureWaits(s: State, steps: seq<Step>, db: string)
    requires Valid(s) && Legal(s, steps) && db in s.errors
    requires forall i :: 0 <= i < |steps| ==> steps[i] != Take(db) && !(steps[i].Schedule? && steps[i].name == Some(db))
    requires db in s.inflight ==> exists w: nat :: At(s, w, Leaving) && s.workers[w].db == db
    ensures db in After(s, steps).errors && After(s, steps).errors[db] == s.errors[db]
    decreases |steps|
  {
    if steps != [] {
      StepKeeps(s, steps[0]);
      WaitsStep(s, steps[0], db);
      assert forall i :: 0 <= i < |steps[1..]| ==> steps[1..][i] == steps[i + 1];
      FailureWaits(Next(s, steps[0]), steps[1..], db);
    }
  }

  lemma WaitsStep(s: State, step: Step, db: string)
    requires Valid(s) && Enabled(s, step) && db in s.errors
    requires step != Take(db) && !(step.Schedule? && step.name == Some(db))
    requires db in s.inflight ==> exists w: nat :: At(s, w, Leaving) && s.workers[w].db == db
    ensures db in Next(s, step).errors && Next(s, step).errors[db] == s.errors[db]
    ensures db in Next(s, step).inflight
         ==> exists w: nat :: At(Next(s, step), w, Leaving) && Next(s, step).workers[w].db == db
  {
    var t := Next(s, step);
    if db in s.inflight {
      var w: nat :| At(s, w, Leaving) && s.workers[w].db == db;
      assert Live(s, w);
      WorkersFinish(s, step, w);
      if WorkerOf(step) >= 0 && WorkerOf(step) != w {
        assert Live(s, WorkerOf(step));
        assert s.workers[WorkerOf(step)].db != db;
      }
      if WorkerOf(step) != w { assert At(t, w, Leaving) && t.workers[w].db == db; }
    } else if WorkerOf(step) >= 0 {
      assert Live(s, WorkerOf(step));
    }
  }

  // ---- the module's dictionaries ----

  class WarmService {
    var inflight: map<string, Mode>
    var rebuildAfter: set<string>
    var errors: map<string, Failure>
    var workers: seq<Worker>

    ghost function Contents(): State
      reads this
    {
      State(inflight, rebuildAfter, errors, workers)
    }

    constructor ()
      ensures Contents() == INITIAL
    {
      inflight, rebuildAfter, errors, workers := map[], {}, map[], [];
    }

    method IsWarming(db: string) returns (warming: bool)
      requires Valid(Contents())
      ensures warming <==> exists w: nat :: Live(Contents(), w) && workers[w].db == db
    {
      warming := db in inflight;
    }

    method TakeError(db: string) returns (failure: Option<Failure>)
      modifies this
      ensures Contents() == Next(old(Contents()), Take(db))
      ensures failure == if db in old(errors) then Some(old(errors)[db]) else None
    {
      failure := if db in errors then Some(errors[db]) else None;
      errors := errors - {db};
    }

    method RequestRebuild(db: string)
      modifies this
      ensures Contents() == Next(old(Contents()), Request(db))
    {
      if db in inflight && inflight[db] == Revalidate {
        rebuildAfter := rebuildAfter + {db};
      }
    }

    /** `schedule_warm`: no name stands for a handle whose name cannot be read. */
    method ScheduleWarm(name: Option<string>, revalidate: bool) returns (started: bool)
      modifies this
      ensures Contents() == Next(old(Contents()), Schedule(name, revalidate))
      ensures started <==> name.Some? && name.value != "" && name.value !in old(inflight)
      ensures started ==>
                var mode := if revalidate then Revalidate else Rebuild;
                && inflight == old(inflight)[name.value := mode] && errors == old(errors) - {name.value}
                && workers == old(workers) + [Worker(name.value, mode, First)] && rebuildAfter == old(rebuildAfter)
      ensures !started ==> Contents() == old(Contents())
    {
      if name.None? || name.value == "" { return false; }
      var db := name.value;
      if db in inflight { return false; }
      inflight := inflight[db := if revalidate then Revalidate else Rebuild];
      errors := errors - {db};
      workers := workers + [Worker(db, ModeOf(revalidate), First)];
      return true;
    }

    /** The end of an analysis: no lock is held, and only the worker moves. */
    method EndAnalysis(w: nat, outcome: Outcome)
      requires At(Contents(), w, First) || At(Contents(), w, Rebuilding)
      modifies this`workers
      ensures At(old(Contents()), w, First) ==> Contents() == Next(old(Contents()), FirstEnds(w, outcome))
      ensures At(old(Contents()), w, Rebuilding) ==> Contents() == Next(old(Contents()), RebuildEnds(w, outcome))
    {
      var worker := workers[w];
      workers := workers[w := worker.(pc := Ended(outcome, if worker.pc == First then Checking else Leaving))];
    }

    method CheckQueue(w: nat)
      requires At(Contents(), w, Checking)
      modifies this
      ensures Contents() == Next(old(Contents()), Check(w))
    {
      var worker := workers[w];
      var rebuild := worker.db in rebuildAfter;
      rebuildAfter := rebuildAfter - {worker.db};
      if rebuild {
        inflight := inflight[worker.db := Rebuild];
        workers := workers[w := worker.(mode := Rebuild, pc := Rebuilding)];
      } else {
        workers := workers[w := worker.(pc := Leaving)];
      }
    }

    method RecordFailure(w: nat)
      requires w < |workers| && workers[w].pc.Failing?
      modifies this
      ensures Contents() == Next(old(Contents()), Record(w))
    {
      var worker := workers[w];
      errors := errors[worker.db := Failure(w, worker.pc.message)];
      workers := workers[w := worker.(pc := Leaving)];
    }

    method LeaveInFlight(w: nat)
      requires At(Contents(), w, Leaving)
      modifies this
      ensures Contents() == Next(old(Contents()), Leave(w))
    {
      var worker := workers[w];
      inflight := inflight - {worker.db};
      rebuildAfter := rebuildAfter - {worker.db};
      workers := workers[w := worker.(pc := Gone)];
    }

    /** Any interleaving of the blocks above. */
    method Interleave(steps: seq<Step>)
      requires Valid(Contents()) && Legal(Contents(), steps)
      modifies this
      ensures Contents() == After(old(Contents()), steps) && Valid(Contents())
    {
      assert steps[0..] == steps;
      for i := 0 to |steps|
        invariant Legal(Contents(), steps[i..]) && After(Contents(), steps[i..]) == After(old(Contents()), steps)
        invariant Valid(Contents())
      {
        assert steps[i..][0] == steps[i] && steps[i..][1..] == steps[i + 1..];
        StepKeeps(Contents(), steps[i]);
        match steps[i] {
          case Schedule(name, revalidate) => var _ := ScheduleWarm(name, revalidate);
          case Request(db) => RequestRebuild(db);
          case Take(db) => var _ := TakeError(db);
          case FirstEnds(w, outcome) => EndAnalysis(w, outcome);
          case Check(w) => CheckQueue(w);
          case RebuildEnds(w, outcome) => EndAnalysis(w, outcome);
          case Record(w) => RecordFailure(w);
          case Leave(w) => LeaveInFlight(w);
        }
      }
    }
  }
}
