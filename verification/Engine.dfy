/** The process-wide database engine (`app/cluster/db.py`, `Database.engine` and `aclose`): built on
    first use under double-checked locking, by threads whose steps interleave in any way. */
module Engine {
  import opened Texts

  datatype Backend = NoBackend | AlloyDb | Url

  /** An engine, and the connector its connections go through. */
  datatype DbEngine = DbEngine(serial: nat, connector: Option<nat>)

  /** Where a thread stands in `engine()`; from Rechecking to Leaving it is inside the lock. */
  datatype Pc =
    | Looking
    | Taking
    | Waiting
    | Rechecking
    | Connecting
    | Creating
    | Assigning(made: DbEngine)
    | Leaving
    | Got(engine: Option<DbEngine>)
    | Refused
    | Raised

  datatype Event = Built(t: nat, engine: DbEngine) | Returned(t: nat, engine: DbEngine)

  /** `epoch` is what happened since the last `aclose`, `past` the epochs before; `open` holds the
      connectors made and not closed, `live` the engines made and not disposed of. These four are
      history, kept for the proofs. */
  datatype State = State(
    backend: Backend, engine: Option<DbEngine>, connector: Option<nat>, lock: Option<nat>,
    threads: map<nat, Pc>, serial: nat, epoch: seq<Event>, past: seq<seq<Event>>, open: set<nat>,
    live: set<nat>)

  function Initial(backend: Backend): State {
    State(backend, None, None, None, map[], 0, [], [], {}, {})
  }

  datatype Step =
    | Enter(t: nat)
    | Look(t: nat)
    | Take(t: nat)
    | Acquire(t: nat)
    | Recheck(t: nat)
    | Connect(t: nat)
    | Create(t: nat)
    | Assign(t: nat)
    | Leave(t: nat)
    | Fail(t: nat)
    | Close

  predicate Finished(pc: Pc) {
    pc.Got? || pc.Refused? || pc.Raised?
  }

  predicate Inside(pc: Pc) {
    pc.Rechecking? || pc.Connecting? || pc.Creating? || pc.Assigning? || pc.Leaving?
  }

  predicate Standing(s: State, t: nat, pc: Pc) {
    t in s.threads && s.threads[t] == pc
  }

  /** When a step can be next. `aclose` waits until no call is under way. */
  predicate Enabled(s: State, step: Step) {
    match step
    case Enter(t) => t !in s.threads
    case Look(t) => Standing(s, t, Looking)
    case Take(t) => Standing(s, t, Taking)
    case Acquire(t) => Standing(s, t, Waiting) && s.lock == None
    case Recheck(t) => Standing(s, t, Rechecking)
    case Connect(t) => Standing(s, t, Connecting)
    case Create(t) => Standing(s, t, Creating)
    case Assign(t) => t in s.threads && s.threads[t].Assigning?
    case Leave(t) => Standing(s, t, Leaving)
    case Fail(t) => Standing(s, t, Connecting) || Standing(s, t, Creating)
    case Close => forall t :: t in s.threads ==> Finished(s.threads[t])
  }

  function Go(s: State, t: nat, pc: Pc): State {
    s.(threads := s.threads[t := pc])
  }

  function Apply(s: State, step: Step): State
    requires Enabled(s, step)
  {
    match step
    case Enter(t) => Go(s, t, if s.backend == NoBackend then Refused else Looking)
    case Look(t) => Go(s, t, if s.engine.Some? then Taking else Waiting)
    case Take(t) =>
      var s' := Go(s, t, Got(s.engine));
      if s.engine.Some? then s'.(epoch := s.epoch + [Returned(t, s.engine.value)]) else s'
    case Acquire(t) => Go(s, t, Rechecking).(lock := Some(t))
    case Recheck(t) =>
      Go(s, t, if s.engine.Some? then Leaving else if s.backend == AlloyDb then Connecting else Creating)
    case Connect(t) => Go(s, t, Creating).(connector := Some(s.serial), serial := s.serial + 1, open := s.open + {s.serial})
    case Create(t) =>
      var made := DbEngine(s.serial, if s.backend == AlloyDb then s.connector else None);
      Go(s, t, Assigning(made)).(serial := s.serial + 1, epoch := s.epoch + [Built(t, made)], live := s.live + {made.serial})
    case Assign(t) => Go(s, t, Leaving).(engine := Some(s.threads[t].made))
    case Leave(t) =>
      var s' := Go(s, t, Got(s.engine)).(lock := None);
      if s.engine.Some? then s'.(epoch := s.epoch + [Returned(t, s.engine.value)]) else s'
    case Fail(t) => Go(s, t, Raised).(lock := None)
    case Close =>
      s.(engine := None, connector := None, past := s.past + [s.epoch], epoch := [],
         open := if s.connector.Some? then s.open - {s.connector.value} else s.open,
         live := if s.engine.Some? then s.live - {s.engine.value.serial} else s.live)
  }

  predicate IsRun(s: State, steps: seq<Step>)
    decreases |steps|
  {
    steps == [] || (Enabled(s, steps[0]) && IsRun(Apply(s, steps[0]), steps[1..]))
  }

  function Final(s: State, steps: seq<Step>): State
    requires IsRun(s, steps)
    decreases |steps|
  {
    if steps == [] then s else Final(Apply(s, steps[0]), steps[1..])
  }

  // --- The invariant --------------------------------------------------------------------------------

  /** Everything that happened concerns one engine, built at most once. */
  ghost predicate OneEngine(epoch: seq<Event>) {
    && (forall i, j :: 0 <= i < |epoch| && 0 <= j < |epoch| ==> epoch[i].engine == epoch[j].engine)
    && (forall i, j :: 0 <= i < |epoch| && 0 <= j < |epoch| && epoch[i].Built? && epoch[j].Built? ==> i == j)
  }

  ghost predicate Concerns(epoch: seq<Event>, e: DbEngine) {
    forall i :: 0 <= i < |epoch| ==> epoch[i].engine == e
  }

  /** Exactly the thread that holds the lock is inside it. */
  ghost predicate Exclusive(s: State) {
    && (s.lock.Some? ==> s.lock.value in s.threads && Inside(s.threads[s.lock.value]))
    && (forall t :: t in s.threads && Inside(s.threads[t]) ==> s.lock == Some(t))
  }

  ghost predicate ThreadOk(s: State, t: nat) {
    t in s.threads
    && match s.threads[t]
       case Looking => s.backend != NoBackend
       case Taking => s.engine.Some?
       case Waiting => s.backend != NoBackend
       case Rechecking => s.backend != NoBackend
       case Connecting => s.engine == None && s.backend == AlloyDb
       case Creating => s.engine == None && (s.backend == AlloyDb <==> s.connector.Some?) && s.backend != NoBackend
       case Assigning(made) => s.engine == None && s.backend != NoBackend && ConnectorOk(s, made)
       case Leaving => s.engine.Some?
       case Got(engine) => engine.Some?
       case Refused => s.backend == NoBackend
       case Raised => true
  }

  /** An AlloyDB engine's connector is the one recorded. */
  predicate ConnectorOk(s: State, e: DbEngine) {
    e.connector == s.connector && (s.backend == AlloyDb <==> e.connector.Some?)
  }

  /** What has been built and returned is the engine in place, or the one about to be. */
  ghost predicate EpochOk(s: State) {
    && OneEngine(s.epoch)
    && (s.engine.Some? ==> Concerns(s.epoch, s.engine.value) && ConnectorOk(s, s.engine.value))
    && (s.engine == None ==>
          if s.lock.Some? && s.lock.value in s.threads && s.threads[s.lock.value].Assigning?
          then s.epoch == [Built(s.lock.value, s.threads[s.lock.value].made)] else s.epoch == [])
  }

  ghost predicate Inv(s: State) {
    && Exclusive(s)
    && (forall t :: t in s.threads ==> ThreadOk(s, t))
    && EpochOk(s)
    && (forall k :: 0 <= k < |s.past| ==> OneEngine(s.past[k]))
    && (s.backend != AlloyDb ==> s.connector == None)
  }

  lemma ReturnedOne(epoch: seq<Event>, t: nat, e: DbEngine)
    requires OneEngine(epoch) && Concerns(epoch, e)
    ensures OneEngine(epoch + [Returned(t, e)]) && Concerns(epoch + [Returned(t, e)], e)
  {
  }

  lemma StepKeeps(s: State, step: Step)
    requires Inv(s) && Enabled(s, step)
    ensures Inv(Apply(s, step))
  {
    match step
    case Enter(t) => EntersKeep(s, t);
    case Look(t) => LooksKeep(s, t);
    case Take(t) => assert ThreadOk(s, t); ReturnedOne(s.epoch, t, s.engine.value); TakesKeep(s, t);
    case Acquire(t) => AcquiresKeep(s, t);
    case Recheck(t) => RechecksKeep(s, t);
    case Connect(t) => ConnectsKeep(s, t);
    case Create(t) => CreatesKeep(s, t);
    case Assign(t) => AssignsKeep(s, t);
    case Leave(t) => assert ThreadOk(s, t); ReturnedOne(s.epoch, t, s.engine.value); LeavesKeep(s, t);
    case Fail(t) => FailsKeep(s, t);
    case Close => ClosesKeep(s);
  }

  lemma EntersKeep(s: State, t: nat)
    requires Inv(s) && Enabled(s, Enter(t))
    ensures Inv(Apply(s, Enter(t)))
  {
    hide OneEngine, Concerns;
    assert forall u :: u in s.threads ==> ThreadOk(s, u);
  }

  lemma LooksKeep(s: State, t: nat)
    requires Inv(s) && Enabled(s, Look(t))
    ensures Inv(Apply(s, Look(t)))
  {
    hide OneEngine, Concerns;
    assert ThreadOk(s, t);
  }

  lemma TakesKeep(s: State, t: nat)
    requires Inv(s) && Enabled(s, Take(t)) && s.engine.Some?
    requires OneEngine(s.epoch + [Returned(t, s.engine.value)]) && Concerns(s.epoch + [Returned(t, s.engine.value)], s.engine.value)
    ensures Inv(Apply(s, Take(t)))
  {
    hide OneEngine, Concerns;
    assert ThreadOk(s, t);
  }

  lemma AcquiresKeep(s: State, t: nat)
    requires Inv(s) && Enabled(s, Acquire(t))
    ensures Inv(Apply(s, Acquire(t)))
  {
    hide OneEngine, Concerns;
    assert ThreadOk(s, t);
  }

  lemma RechecksKeep(s: State, t: nat)
    requires Inv(s) && Enabled(s, Recheck(t))
    ensures Inv(Apply(s, Recheck(t)))
  {
    hide OneEngine, Concerns;
    assert ThreadOk(s, t);
  }

  lemma ConnectsKeep(s: State, t: nat)
    requires Inv(s) && Enabled(s, Connect(t))
    ensures Inv(Apply(s, Connect(t)))
  {
    hide OneEngine, Concerns;
    assert ThreadOk(s, t);
  }

  lemma CreatesKeep(s: State, t: nat)
    requires Inv(s) && Enabled(s, Create(t))
    ensures Inv(Apply(s, Create(t)))
  {
    hide Concerns;
    assert ThreadOk(s, t);
  }

  lemma AssignsKeep(s: State, t: nat)
    requires Inv(s) && Enabled(s, Assign(t))
    ensures Inv(Apply(s, Assign(t)))
  {
    assert ThreadOk(s, t);
  }

  lemma LeavesKeep(s: State, t: nat)
    requires Inv(s) && Enabled(s, Leave(t)) && s.engine.Some?
    requires OneEngine(s.epoch + [Returned(t, s.engine.value)]) && Concerns(s.epoch + [Returned(t, s.engine.value)], s.engine.value)
    ensures Inv(Apply(s, Leave(t)))
  {
    hide OneEngine, Concerns;
    assert ThreadOk(s, t);
  }

  lemma FailsKeep(s: State, t: nat)
    requires Inv(s) && Enabled(s, Fail(t))
    ensures Inv(Apply(s, Fail(t)))
  {
    hide OneEngine, Concerns;
    assert ThreadOk(s, t);
  }

  lemma ClosesKeep(s: State)
    requires Inv(s) && Enabled(s, Close)
    ensures Inv(Apply(s, Close))
  {
    hide Concerns;
  }

  lemma {:induction false} RunKeeps(s: State, steps: seq<Step>)
    requires Inv(s) && IsRun(s, steps)
    ensures Inv(Final(s, steps)) && Final(s, steps).backend == s.backend
    decreases |steps|
  {
    hide Inv, Enabled, Apply;
    if steps != [] {
      StepKeeps(s, steps[0]);
      BackendKept(s, steps[0]);
      RunKeeps(Apply(s, steps[0]), steps[1..]);
    }
  }

  lemma BackendKept(s: State, step: Step)
    requires Enabled(s, step)
    ensures Apply(s, step).backend == s.backend
  {
  }

  // --- What every run guarantees ----------------------------------------------------------------------

  /** However the threads of a run interleave: between one `aclose` and the next at most one engine
      is built and every call that returns returns that engine; and a call returns an engine. */
  lemma OneEngineForAll(backend: Backend, steps: seq<Step>)
    requires IsRun(Initial(backend), steps)
    ensures var s := Final(Initial(backend), steps);
            && OneEngine(s.epoch) && (forall k :: 0 <= k < |s.past| ==> OneEngine(s.past[k]))
            && (s.engine.Some? ==> Concerns(s.epoch, s.engine.value))
            && forall t :: t in s.threads && s.threads[t].Got? ==> s.threads[t].engine.Some?
  {
    hide IsRun, Final, OneEngine, Concerns;
    InitialOk(backend);
    RunKeeps(Initial(backend), steps);
    var s := Final(Initial(backend), steps);
    forall t | t in s.threads && s.threads[t].Got? ensures s.threads[t].engine.Some? { assert ThreadOk(s, t); }
  }

  lemma InitialOk(backend: Backend)
    ensures Inv(Initial(backend))
  {
  }

  /** Whoever builds holds the lock, finds no engine in place, and is alone inside. */
  lemma OnlyHolderBuilds(backend: Backend, steps: seq<Step>, t: nat)
    requires IsRun(Initial(backend), steps)
    requires var s := Final(Initial(backend), steps); Enabled(s, Connect(t)) || Enabled(s, Create(t)) || Enabled(s, Assign(t))
    ensures var s := Final(Initial(backend), steps);
            && s.lock == Some(t) && s.engine == None
            && forall u :: u in s.threads && Inside(s.threads[u]) ==> u == t
  {
    hide IsRun, Final, OneEngine, Concerns;
    InitialOk(backend);
    RunKeeps(Initial(backend), steps);
    assert ThreadOk(Final(Initial(backend), steps), t);
  }

  /** An AlloyDB engine is in place only while the connector it goes through is the one recorded,
      which is the one `aclose` closes. */
  lemma ConnectorRecorded(backend: Backend, steps: seq<Step>)
    requires IsRun(Initial(backend), steps)
    ensures var s := Final(Initial(backend), steps);
            s.engine.Some? ==> s.engine.value.connector == s.connector && (backend == AlloyDb <==> s.connector.Some?)
  {
    hide IsRun, Final, OneEngine, Concerns;
    InitialOk(backend);
    RunKeeps(Initial(backend), steps);
  }

  // --- What `aclose` leaves open ---------------------------------------------------------------------------

  /** An engine that is in place or about to be. */
  predicate Owned(s: State, e: nat) {
    (s.engine.Some? && s.engine.value.serial == e)
    || (s.lock.Some? && s.lock.value in s.threads && s.threads[s.lock.value].Assigning?
        && s.threads[s.lock.value].made.serial == e)
  }

  ghost predicate LiveOwned(s: State) {
    forall e :: e in s.live <==> Owned(s, e)
  }

  lemma StepLive(s: State, step: Step)
    requires Inv(s) && LiveOwned(s) && Enabled(s, step)
    ensures LiveOwned(Apply(s, step))
  {
    hide EpochOk;
    match step
    case Close => NoneInside(s);
    case Enter(_) =>
    case Take(t) => assert ThreadOk(s, t);
    case Look(t) => assert ThreadOk(s, t);
    case Acquire(t) => assert ThreadOk(s, t);
    case Recheck(t) => assert ThreadOk(s, t);
    case Connect(t) => assert ThreadOk(s, t);
    case Create(t) => assert ThreadOk(s, t);
    case Assign(t) => assert ThreadOk(s, t);
    case Leave(t) => assert ThreadOk(s, t);
    case Fail(t) => assert ThreadOk(s, t);
  }

  lemma NoneInside(s: State)
    requires Exclusive(s) && Enabled(s, Close)
    ensures s.lock == None
  {
  }

  lemma {:induction false} RunLive(s: State, steps: seq<Step>)
    requires Inv(s) && LiveOwned(s) && IsRun(s, steps)
    ensures LiveOwned(Final(s, steps))
    decreases |steps|
  {
    hide Inv, LiveOwned, Enabled, Apply;
    if steps != [] {
      StepKeeps(s, steps[0]);
      StepLive(s, steps[0]);
      RunLive(Apply(s, steps[0]), steps[1..]);
    }
  }

  /** Whatever happened, builds that failed included, `aclose` leaves no engine undisposed. */
  lemma CloseDisposesAll(backend: Backend, steps: seq<Step>)
    requires IsRun(Initial(backend), steps) && Enabled(Final(Initial(backend), steps), Close)
    ensures Apply(Final(Initial(backend), steps), Close).live == {}
  {
    hide IsRun, Final, OneEngine, Concerns;
    InitialOk(backend);
    RunKeeps(Initial(backend), steps);
    RunLive(Initial(backend), steps);
    NoneInside(Final(Initial(backend), steps));
  }

  /** A connector is recorded over one that is still recorded. */
  predicate Overwrites(s: State, step: Step) {
    step.Connect? && s.connector.Some?
  }

  predicate OverwritesNone(s: State, steps: seq<Step>)
    requires IsRun(s, steps)
    decreases |steps|
  {
    steps == [] || (!Overwrites(s, steps[0]) && OverwritesNone(Apply(s, steps[0]), steps[1..]))
  }

  predicate Forgotten(s: State, c: nat) {
    c in s.open && s.connector != Some(c)
  }

  /** Connectors are numbered in turn, the one recorded is open, and one is open without being
      recorded exactly when another was recorded over it. */
  ghost predicate Tracked(s: State, lost: bool) {
    && (forall c :: c in s.open ==> c < s.serial)
    && (s.connector.Some? ==> s.connector.value in s.open)
    && ((exists c :: Forgotten(s, c)) <==> lost)
  }

  lemma StepTracked(s: State, step: Step, lost: bool)
    requires Tracked(s, lost) && Enabled(s, step)
    ensures Tracked(Apply(s, step), lost || Overwrites(s, step))
  {
    var s' := Apply(s, step);
    if step.Connect? && s.connector.Some? { assert Forgotten(s', s.connector.value); }
    if c :| Forgotten(s, c) { assert Forgotten(s', c); }
    if c :| Forgotten(s', c) && !Overwrites(s, step) { assert Forgotten(s, c); }
  }

  lemma {:induction false} RunTracked(s: State, steps: seq<Step>, lost: bool)
    requires Tracked(s, lost) && IsRun(s, steps)
    ensures Tracked(Final(s, steps), lost || !OverwritesNone(s, steps))
    decreases |steps|
  {
    hide Tracked, Enabled, Apply, Overwrites;
    if steps != [] {
      StepTracked(s, steps[0], lost);
      RunTracked(Apply(s, steps[0]), steps[1..], lost || Overwrites(s, steps[0]));
    }
  }

  /** `aclose` leaves no connector open exactly when none was ever recorded over another that was
      still recorded. */
  lemma CloseClosesAll(backend: Backend, steps: seq<Step>)
    requires IsRun(Initial(backend), steps) && Enabled(Final(Initial(backend), steps), Close)
    ensures Apply(Final(Initial(backend), steps), Close).open == {} <==> OverwritesNone(Initial(backend), steps)
  {
    hide IsRun, Final, OverwritesNone, Enabled;
    RunTracked(Initial(backend), steps, false);
    var s := Final(Initial(backend), steps);
    var left := Apply(s, Close).open;
    forall c ensures c in left <==> Forgotten(s, c) {}
    if c :| Forgotten(s, c) { assert c in left; }
    if left != {} {
      var c :| c in left;
      assert Forgotten(s, c);
    }
  }

  // --- What makes one be recorded over another ---------------------------------------------------------------

  /** Building failed after its connector was recorded. */
  predicate LosesConnector(s: State, step: Step) {
    step.Fail? && Standing(s, step.t, Creating) && s.connector.Some?
  }

  /** A recorded connector is an engine's or about to be. */
  ghost predicate Tidy(s: State) {
    s.connector.Some? ==>
      s.engine.Some?
      || (s.lock.Some? && s.lock.value in s.threads
          && (s.threads[s.lock.value].Creating? || s.threads[s.lock.value].Assigning?))
  }

  lemma StepTidy(s: State, step: Step)
    requires Inv(s) && Tidy(s) && Enabled(s, step) && !LosesConnector(s, step)
    ensures Tidy(Apply(s, step)) && !Overwrites(s, step)
  {
    hide EpochOk;
    match step
    case Close => NoneInside(s);
    case Enter(_) =>
    case Take(t) => assert ThreadOk(s, t);
    case Look(t) => assert ThreadOk(s, t);
    case Acquire(t) => assert ThreadOk(s, t);
    case Recheck(t) => assert ThreadOk(s, t);
    case Connect(t) => assert ThreadOk(s, t);
    case Create(t) => assert ThreadOk(s, t);
    case Assign(t) => assert ThreadOk(s, t);
    case Leave(t) => assert ThreadOk(s, t);
    case Fail(t) => assert ThreadOk(s, t);
  }

  predicate LosesNone(s: State, steps: seq<Step>)
    requires IsRun(s, steps)
    decreases |steps|
  {
    steps == [] || (!LosesConnector(s, steps[0]) && LosesNone(Apply(s, steps[0]), steps[1..]))
  }

  lemma {:induction false} RunTidy(s: State, steps: seq<Step>)
    requires Inv(s) && Tidy(s) && IsRun(s, steps) && LosesNone(s, steps)
    ensures Tidy(Final(s, steps)) && OverwritesNone(s, steps)
    decreases |steps|
  {
    hide Inv, Tidy, Enabled, Apply, Overwrites, LosesConnector;
    if steps != [] {
      StepKeeps(s, steps[0]);
      StepTidy(s, steps[0]);
      RunTidy(Apply(s, steps[0]), steps[1..]);
    }
  }

  /** Only a build that failed between its connector and its engine brings that about: without one,
      `aclose` leaves nothing open. */
  lemma NoFailureClosesAll(backend: Backend, steps: seq<Step>)
    requires IsRun(Initial(backend), steps) && LosesNone(Initial(backend), steps)
    requires Enabled(Final(Initial(backend), steps), Close)
    ensures Apply(Final(Initial(backend), steps), Close).open == {}
  {
    hide IsRun, Final, LosesNone, OverwritesNone, Inv;
    InitialOk(backend);
    RunTidy(Initial(backend), steps);
    CloseClosesAll(backend, steps);
  }

  /** It does happen: a build that fails there and is tried again records a second connector over the
      first, which `aclose` leaves open. */
  lemma FailedBuildLeaks()
    ensures IsRun(Initial(AlloyDb), Retried()) && !OverwritesNone(Initial(AlloyDb), Retried())
    ensures var s := Final(Initial(AlloyDb), Retried());
            s.connector == Some(1) && s.open == {0, 1} && Enabled(s, Close) && Apply(s, Close).open == {0}
  {
    hide Reaches, IsRun, Final, OverwritesNone;
    var s4 := State(AlloyDb, None, None, Some(0), map[0 := Connecting], 0, [], [], {}, {});
    var s6 := State(AlloyDb, None, Some(0), None, map[0 := Raised], 1, [], [], {0}, {});
    var s10 := State(AlloyDb, None, Some(0), Some(1), map[0 := Raised, 1 := Connecting], 1, [], [], {0}, {});
    var s11 := State(AlloyDb, None, Some(1), Some(1), map[0 := Raised, 1 := Creating], 2, [], [], {0, 1}, {});
    var e := DbEngine(2, Some(1));
    var s14 := State(AlloyDb, Some(e), Some(1), None, map[0 := Raised, 1 := Got(Some(e))], 3,
                     [Built(1, e), Returned(1, e)], [], {0, 1}, {2});
    LeakBegins(s4, s6);
    LeakRetries(s6, s10, s11);
    LeakEnds(s11, s14);
    ReachesOn(Initial(AlloyDb), [Enter(0), Look(0), Acquire(0), Recheck(0)] + [Connect(0), Fail(0)], s6,
              [Enter(1), Look(1), Acquire(1), Recheck(1)] + [Connect(1)], s11);
    ReachesOn(Initial(AlloyDb), [Enter(0), Look(0), Acquire(0), Recheck(0)] + [Connect(0), Fail(0)]
              + ([Enter(1), Look(1), Acquire(1), Recheck(1)] + [Connect(1)]), s11, [Create(1), Assign(1), Leave(1)], s14);
    ReachesRuns(Initial(AlloyDb), Retried(), s14);
    CloseClosesAll(AlloyDb, Retried());
    assert Apply(s14, Close).open == {0} && 0 in Apply(s14, Close).open;
  }

  lemma {:induction false} ReachesRuns(s: State, steps: seq<Step>, end: State)
    requires Reaches(s, steps, end)
    ensures IsRun(s, steps) && Final(s, steps) == end
    decreases |steps|
  {
    hide Enabled, Apply;
    if steps != [] { ReachesRuns(Apply(s, steps[0]), steps[1..], end); }
  }

  function Retried(): seq<Step> {
    [Enter(0), Look(0), Acquire(0), Recheck(0)] + [Connect(0), Fail(0)]
    + ([Enter(1), Look(1), Acquire(1), Recheck(1)] + [Connect(1)]) + [Create(1), Assign(1), Leave(1)]
  }

  predicate Reaches(s: State, steps: seq<Step>, end: State)
    decreases |steps|
  {
    if steps == [] then s == end else Enabled(s, steps[0]) && Reaches(Apply(s, steps[0]), steps[1..], end)
  }

  lemma {:induction false} ReachesOn(s: State, a: seq<Step>, mid: State, b: seq<Step>, end: State)
    requires Reaches(s, a, mid) && Reaches(mid, b, end)
    ensures Reaches(s, a + b, end)
    decreases |a|
  {
    hide Enabled, Apply;
    if a == [] {
      assert a + b == b;
    } else {
      assert (a + b)[1..] == a[1..] + b;
      ReachesOn(Apply(s, a[0]), a[1..], mid, b, end);
    }
  }

  lemma Steps2(s: State, a: Step, t: State, b: Step, u: State)
    requires Enabled(s, a) && Apply(s, a) == t && Enabled(t, b) && Apply(t, b) == u
    ensures Reaches(s, [a, b], u)
  {
    hide Enabled, Apply;
    assert [a, b][1..] == [b] && [b][1..] == [];
    assert Reaches(u, [], u);
  }

  /** A thread that finds no engine goes through the lock. */
  lemma GoesInside(s: State, t: nat)
    requires s.backend != NoBackend && s.engine == None && s.lock == None && t !in s.threads
    ensures Reaches(s, [Enter(t), Look(t), Acquire(t), Recheck(t)],
                    Go(s, t, if s.backend == AlloyDb then Connecting else Creating).(lock := Some(t)))
  {
    hide Reaches;
    var s1, s2 := Go(s, t, Looking), Go(s, t, Waiting);
    var s3, s4 := Go(s, t, Rechecking).(lock := Some(t)),
                  Go(s, t, if s.backend == AlloyDb then Connecting else Creating).(lock := Some(t));
    Steps2(s, Enter(t), s1, Look(t), s2);
    Steps2(s2, Acquire(t), s3, Recheck(t), s4);
    ReachesOn(s, [Enter(t), Look(t)], s2, [Acquire(t), Recheck(t)], s4);
    assert [Enter(t), Look(t)] + [Acquire(t), Recheck(t)] == [Enter(t), Look(t), Acquire(t), Recheck(t)];
  }

  lemma LeakBegins(s4: State, s6: State)
    requires s4 == State(AlloyDb, None, None, Some(0), map[0 := Connecting], 0, [], [], {}, {})
    requires s6 == State(AlloyDb, None, Some(0), None, map[0 := Raised], 1, [], [], {0}, {})
    ensures Reaches(Initial(AlloyDb), [Enter(0), Look(0), Acquire(0), Recheck(0)] + [Connect(0), Fail(0)], s6)
  {
    hide Reaches;
    GoesInside(Initial(AlloyDb), 0);
    Steps2(s4, Connect(0), State(AlloyDb, None, Some(0), Some(0), map[0 := Creating], 1, [], [], {0}, {}), Fail(0), s6);
    ReachesOn(Initial(AlloyDb), [Enter(0), Look(0), Acquire(0), Recheck(0)], s4, [Connect(0), Fail(0)], s6);
  }

  lemma LeakRetries(s6: State, s10: State, s11: State)
    requires s6 == State(AlloyDb, None, Some(0), None, map[0 := Raised], 1, [], [], {0}, {})
    requires s10 == State(AlloyDb, None, Some(0), Some(1), map[0 := Raised, 1 := Connecting], 1, [], [], {0}, {})
    requires s11 == State(AlloyDb, None, Some(1), Some(1), map[0 := Raised, 1 := Creating], 2, [], [], {0, 1}, {})
    ensures Reaches(s6, [Enter(1), Look(1), Acquire(1), Recheck(1)] + [Connect(1)], s11)
  {
    hide Reaches;
    GoesInside(s6, 1);
    assert Go(s6, 1, Connecting).(lock := Some(1)) == s10;
    Steps1(s10, Connect(1), s11);
    ReachesOn(s6, [Enter(1), Look(1), Acquire(1), Recheck(1)], s10, [Connect(1)], s11);
  }

  lemma LeakEnds(s11: State, s14: State)
    requires s11 == State(AlloyDb, None, Some(1), Some(1), map[0 := Raised, 1 := Creating], 2, [], [], {0, 1}, {})
    requires var e := DbEngine(2, Some(1));
             s14 == State(AlloyDb, Some(e), Some(1), None, map[0 := Raised, 1 := Got(Some(e))], 3,
                          [Built(1, e), Returned(1, e)], [], {0, 1}, {2})
    ensures Reaches(s11, [Create(1), Assign(1), Leave(1)], s14)
  {
    hide Reaches;
    var e := DbEngine(2, Some(1));
    var s12 := s11.(threads := map[0 := Raised, 1 := Assigning(e)], serial := 3, epoch := [Built(1, e)], live := {2});
    var s13 := s12.(threads := map[0 := Raised, 1 := Leaving], engine := Some(e));
    Steps2(s11, Create(1), s12, Assign(1), s13);
    assert Reaches(s13, [Leave(1)], s14) by { Steps1(s13, Leave(1), s14); }
    ReachesOn(s11, [Create(1), Assign(1)], s13, [Leave(1)], s14);
    assert [Create(1), Assign(1)] + [Leave(1)] == [Create(1), Assign(1), Leave(1)];
  }

  lemma Steps1(s: State, a: Step, t: State)
    requires Enabled(s, a) && Apply(s, a) == t
    ensures Reaches(s, [a], t)
  {
    hide Enabled, Apply;
    assert [a][1..] == [];
    assert Reaches(t, [], t);
  }

  // --- One call by itself -----------------------------------------------------------------------------------

  /** What a call and `aclose` change: the object's fields, and what stands open behind them. */
  datatype Held = Held(engine: Option<DbEngine>, connector: Option<nat>, serial: nat, open: set<nat>, live: set<nat>)

  function HeldBy(s: State): Held {
    Held(s.engine, s.connector, s.serial, s.open, s.live)
  }

  /** What a call leaves that nothing comes between and no build fails in. */
  function CallAlone(backend: Backend, h: Held): Held {
    if backend == NoBackend || h.engine.Some? then h
    else if backend == AlloyDb then
      Held(Some(DbEngine(h.serial + 1, Some(h.serial))), Some(h.serial), h.serial + 2, h.open + {h.serial},
           h.live + {h.serial + 1})
    else Held(Some(DbEngine(h.serial, None)), h.connector, h.serial + 1, h.open, h.live + {h.serial})
  }

  class Database {
    const backend: Backend
    var engine: Option<DbEngine>
    var connector: Option<nat>
    var locked: bool
    var serial: nat
    var open: set<nat>
    var live: set<nat>

    function Now(): Held
      reads this
    {
      Held(engine, connector, serial, open, live)
    }

    constructor (backend: Backend)
      ensures this.backend == backend && !locked && Now() == HeldBy(Initial(backend))
    {
      this.backend, engine, connector, locked, serial, open, live := backend, None, None, false, 0, {}, {};
    }

    /** The engine, created on first use; None where the source raises for want of a backend. With the
        lock free the call gets it, looks again, and gives it back. */
    method GetEngine() returns (r: Option<DbEngine>)
      requires !locked
      modifies this
      ensures !locked && Now() == CallAlone(backend, old(Now()))
      ensures r == if backend == NoBackend then None else engine
    {
      if backend == NoBackend { return None; }
      if engine.Some? { return engine; }
      locked := true;
      if engine.None? {
        if backend == AlloyDb { BuildAlloyDbEngine(); } else { BuildUrlEngine(); }
      }
      r := engine;
      locked := false;
    }

    method BuildAlloyDbEngine()
      requires locked && backend == AlloyDb && engine.None?
      modifies this
      ensures locked && Now() == CallAlone(backend, old(Now()))
    {
      connector, serial, open := Some(serial), serial + 1, open + {serial};
      engine, serial, live := Some(DbEngine(serial, connector)), serial + 1, live + {serial};
    }

    method BuildUrlEngine()
      requires locked && backend == Url && engine.None?
      modifies this
      ensures locked && Now() == CallAlone(backend, old(Now()))
    {
      engine, serial, live := Some(DbEngine(serial, None)), serial + 1, live + {serial};
    }

    /** Disposes of the engine in place and closes the connector recorded, if there are any. */
    method Aclose()
      modifies this
      ensures engine == None && connector == None && serial == old(serial) && locked == old(locked)
      ensures live == if old(engine).Some? then old(live) - {old(engine).value.serial} else old(live)
      ensures open == if old(connector).Some? then old(open) - {old(connector).value} else old(open)
    {
      if engine.Some? {
        live := live - {engine.value.serial};
        engine := None;
      }
      if connector.Some? {
        open := open - {connector.value};
        connector := None;
      }
    }
  }

  /** The steps of a call that nothing comes between. */
  function Lone(s: State, t: nat): seq<Step> {
    if s.backend == NoBackend then [Enter(t)]
    else if s.engine.Some? then [Enter(t), Look(t)] + [Take(t)]
    else
      [Enter(t), Look(t), Acquire(t), Recheck(t)]
      + if s.backend == AlloyDb then [Connect(t), Create(t)] + [Assign(t), Leave(t)] else [Create(t), Assign(t)] + [Leave(t)]
  }

  ghost predicate Ends(s: State, t: nat, steps: seq<Step>, computed: Held) {
    exists end :: Reaches(s, steps, end) && HeldBy(end) == computed && Standing(end, t, Got(end.engine))
  }

  lemma EndsOn(s: State, t: nat, a: seq<Step>, mid: State, b: seq<Step>, computed: Held)
    requires Reaches(s, a, mid) && Ends(mid, t, b, computed)
    ensures Ends(s, t, a + b, computed)
  {
    hide Reaches;
    var end :| Reaches(mid, b, end) && HeldBy(end) == computed && Standing(end, t, Got(end.engine));
    ReachesOn(s, a, mid, b, end);
  }

  lemma LoneAlloy(s: State, t: nat)
    requires s.backend == AlloyDb && s.engine == None && s.lock == Some(t) && Standing(s, t, Connecting)
    ensures Ends(s, t, [Connect(t), Create(t)] + [Assign(t), Leave(t)], CallAlone(s.backend, HeldBy(s)))
  {
    hide Reaches;
    var s1 := Apply(s, Connect(t));
    var s2 := Apply(s1, Create(t));
    var s3 := Apply(s2, Assign(t));
    var s4 := Apply(s3, Leave(t));
    Steps2(s, Connect(t), s1, Create(t), s2);
    Steps2(s2, Assign(t), s3, Leave(t), s4);
    ReachesOn(s, [Connect(t), Create(t)], s2, [Assign(t), Leave(t)], s4);
  }

  lemma LoneUrl(s: State, t: nat)
    requires s.backend == Url && s.engine == None && s.lock == Some(t) && Standing(s, t, Creating)
    ensures Ends(s, t, [Create(t), Assign(t)] + [Leave(t)], CallAlone(s.backend, HeldBy(s)))
  {
    hide Reaches;
    var s1 := Apply(s, Create(t));
    var s2 := Apply(s1, Assign(t));
    var s3 := Apply(s2, Leave(t));
    Steps2(s, Create(t), s1, Assign(t), s2);
    Steps1(s2, Leave(t), s3);
    ReachesOn(s, [Create(t), Assign(t)], s2, [Leave(t)], s3);
  }

  lemma LoneTakes(s: State, t: nat)
    requires s.backend != NoBackend && s.engine.Some? && t !in s.threads
    ensures Ends(s, t, [Enter(t), Look(t)] + [Take(t)], CallAlone(s.backend, HeldBy(s)))
  {
    hide Reaches;
    var s2 := Go(s, t, Taking);
    Steps2(s, Enter(t), Go(s, t, Looking), Look(t), s2);
    Steps1(s2, Take(t), Apply(s2, Take(t)));
    ReachesOn(s, [Enter(t), Look(t)], s2, [Take(t)], Apply(s2, Take(t)));
  }

  /** From any state with the lock free, a call's steps with nothing between them are enabled one
      after the other and leave what the call by itself computes. */
  lemma LoneCall(s: State, t: nat)
    requires t !in s.threads && s.lock == None
    ensures if s.backend == NoBackend then Reaches(s, Lone(s, t), Go(s, t, Refused))
            else Ends(s, t, Lone(s, t), CallAlone(s.backend, HeldBy(s)))
  {
    hide Reaches, Ends, CallAlone;
    if s.backend == NoBackend {
      Steps1(s, Enter(t), Go(s, t, Refused));
    } else if s.engine.Some? {
      LoneTakes(s, t);
    } else {
      GoesInside(s, t);
      var inside := Go(s, t, if s.backend == AlloyDb then Connecting else Creating).(lock := Some(t));
      if s.backend == AlloyDb { LoneAlloy(inside, t); } else { LoneUrl(inside, t); }
      EndsOn(s, t, [Enter(t), Look(t), Acquire(t), Recheck(t)], inside,
             if s.backend == AlloyDb then [Connect(t), Create(t)] + [Assign(t), Leave(t)] else [Create(t), Assign(t)] + [Leave(t)],
             CallAlone(s.backend, HeldBy(s)));
    }
  }
}
