/** What every run of overlapping `POST /cases/{id}` handlers guarantees. */
module Lifecycle {
  import opened Texts
  import opened Json
  import opened Contracts
  import opened Replies
  import opened Cases
  import opened Protocol

  lemma Reached(steps: seq<Step>)
    requires IsRun(INITIAL, steps)
    ensures Inv(Final(INITIAL, steps))
  {
    hide IsRun, Final;
    RunKeeps(INITIAL, steps);
  }

  /** An executed case was approved, and its result says "published" and agrees with the stored
      proposal on every scalar field, although recording an execution checks nothing. */
  lemma ExecutedWasApproved(steps: seq<Step>, id: Text)
    requires IsRun(INITIAL, steps)
    requires id in Final(INITIAL, steps).table && Final(INITIAL, steps).table[id].status == Executed
    ensures var s := Final(INITIAL, steps); var c := s.table[id];
            && id in s.verdicts && s.verdicts[id].approved
            && c.decidedBy == s.verdicts[id].who && c.note == s.verdicts[id].note
            && c.result.Some? && c.result.value.JObject? && c.proposal.JObject?
            && HasStatus(c.result.value, PUBLISHED)
            && forall key :: key in c.proposal.fields && IsScalar(c.proposal.fields[key])
                 ==> Equals(Get(c.result.value, key), c.proposal.fields[key])
  {
    Reached(steps);
    var s := Final(INITIAL, steps);
    assert CaseOk(s, id);
  }

  /** No run ever reaches FAILED, only an executed case has a result and a time of execution, and a case
      has a time of decision exactly when it is decided. */
  lemma OnlyExecutedHasResult(steps: seq<Step>, id: Text)
    requires IsRun(INITIAL, steps) && id in Final(INITIAL, steps).table
    ensures var c := Final(INITIAL, steps).table[id];
            c.status != Failed && (c.result.Some? <==> c.status == Executed) && (c.executedAt.Some? <==> c.status == Executed)
            && (c.decidedAt.Some? <==> c.status != Pending)
  {
    hide Confirms;
    Reached(steps);
    assert CaseOk(Final(INITIAL, steps), id);
  }

  // --- Lifecycle ---------------------------------------------------------------------------------

  /** Every field of a case that may not move again once the case is in this state. */
  ghost predicate Advances(before: Case, after: Case) {
    && StatusLeq(before.status, after.status) && SameOrigin(before, after)
    && (before.status != Pending ==>
          before.decidedBy == after.decidedBy && before.note == after.note && before.decidedAt == after.decidedAt)
    && (before.status == Rejected ==> after == before)
  }

  lemma UpdateAdvances(s: State, h: nat, id: Text)
    requires Inv(s) && Possible(s, Update(h)) && id in s.table
    ensures id in AfterUpdate(s, h).table && Advances(s.table[id], AfterUpdate(s, h).table[id])
  {
    hide HandlerOk, EventOk, Confirms, Carries;
    assert CaseOk(s, id);
  }

  lemma RecordAdvances(s: State, h: nat, now: int, id: Text)
    requires Inv(s) && Possible(s, Record(h, now)) && id in s.table
    ensures id in AfterRecord(s, h, now).table && Advances(s.table[id], AfterRecord(s, h, now).table[id])
  {
    hide EventOk, Confirms, CaseOk, ReadApproved, SeenOk;
    assert HandlerOk(s, h);
    SeenInTable(s, s.handlers[h].id, s.handlers[h].phase.seen);
  }

  lemma StepAdvances(s: State, step: Step, id: Text)
    requires Inv(s) && Enabled(s, step) && id in s.table
    ensures id in Apply(s, step).table && Advances(s.table[id], Apply(s, step).table[id])
  {
    hide Core, ReadingOk, FindExecution, AfterUpdate, AfterRecord, FreshId;
    match step
    case Record(h, now) => RecordAdvances(s, h, now, id);
    case Update(h) => UpdateAdvances(s, h, id);
    case _ =>
  }

  /** A status moves only pending to approved to executed or pending to rejected; a terminal one
      never moves; a rejected case never changes at all; the proposal and all else a case was opened with
      never do; and who decided, why and when are fixed with the decision. */
  lemma {:induction false} RunAdvances(s: State, steps: seq<Step>, id: Text)
    requires Inv(s) && IsRun(s, steps) && id in s.table
    ensures id in Final(s, steps).table && Advances(s.table[id], Final(s, steps).table[id])
    decreases |steps|
  {
    hide Core, ReadingOk, Possible, Apply;
    if steps != [] {
      StepAdvances(s, steps[0], id);
      StepKeeps(s, steps[0]);
      RunAdvances(Apply(s, steps[0]), steps[1..], id);
    }
  }

  // --- Answers ------------------------------------------------------------------------------------

  /** A caller is told there is no such case only when its own read-back found none, and then no one had
      been answered about that case before. */
  lemma UnknownWasMissing(steps: seq<Step>, h: nat) returns (k: nat)
    requires IsRun(INITIAL, steps)
    requires var s := Final(INITIAL, steps); h in s.handlers && s.handlers[h].phase == Done(UnknownCase)
    ensures var s := Final(INITIAL, steps); var id := s.handlers[h].id;
            && k < |s.log| && s.log[k] == Missing(h, id)
            && forall j :: 0 <= j < k && s.log[j].id == id ==> s.log[j].Missing?
  {
    hide IsRun, Final, CaseOk;
    Reached(steps);
    var s := Final(INITIAL, steps);
    assert HandlerOk(s, h);
    k :| 0 <= k < |s.log| && s.log[k] == Missing(h, s.handlers[h].id);
    assert EventOk(s, k);
  }

  /** The UPDATE is the stores' `decide` as far as it writes: it logs a recorded answer exactly when that
      call is answered "recorded", with the row it wrote, and changes nothing otherwise. */
  lemma UpdateDecides(s: State, h: nat)
    requires Possible(s, Update(h))
    ensures var id := s.handlers[h].id; var v := s.handlers[h].verdict; var s' := AfterUpdate(s, h);
            var (table, outcome, shown) := Decide(s.table, id, v.approved, v.who, v.note, v.at);
            && s'.table == table
            && (outcome == Recorded ==>
                  s'.log == s.log + [Answered(h, id, true, shown.value)] && s'.handlers[h].phase == AtGate(shown.value))
            && (outcome != Recorded ==> s'.log == s.log && s'.handlers[h].phase == Reading)
  {
    var v := s.handlers[h].verdict;
    DecideIs(s.table, s.handlers[h].id, v.approved, v.who, v.note, v.at);
  }

  /** And the read-back gives the stores' other two answers, as long as it does not find the case pending:
      "already decided" with the row as it stands, or "not found". */
  lemma SelectDecides(s: State, h: nat)
    requires Possible(s, Select(h)) && !StaleRead(s, Select(h))
    ensures var id := s.handlers[h].id; var v := s.handlers[h].verdict; var s' := AfterSelect(s, h);
            var (table, outcome, shown) := Decide(s.table, id, v.approved, v.who, v.note, v.at);
            && s'.table == table && outcome != Recorded
            && (outcome == AlreadyDecided ==>
                  s'.log == s.log + [Answered(h, id, false, shown.value)] && s'.handlers[h].phase == AtGate(shown.value))
            && (outcome == NotFound ==>
                  s'.log == s.log + [Missing(h, id)] && s'.handlers[h].phase == Done(UnknownCase))
  {
    var v := s.handlers[h].verdict;
    DecideIs(s.table, s.handlers[h].id, v.approved, v.who, v.note, v.at);
  }

  // --- Counting what was logged ----------------------------------------------------------------------

  datatype Kind = Recordings | ApprovedReads | Turns | Confirmations

  predicate Counts(kind: Kind, id: Text, e: Event) {
    match kind
    case Recordings => e.Answered? && e.id == id && e.recorded
    case ApprovedReads => e.Answered? && e.id == id && e.seen.status == Approved
    case Turns => e.TurnStarted? && e.id == id
    case Confirmations => e.Confirmed? && e.id == id
  }

  function Count(log: seq<Event>, kind: Kind, id: Text): nat {
    if log == [] then 0
    else Count(log[..|log| - 1], kind, id) + if Counts(kind, id, log[|log| - 1]) then 1 else 0
  }

  lemma CountSnoc(log: seq<Event>, e: Event, kind: Kind, id: Text)
    ensures Count(log + [e], kind, id) == Count(log, kind, id) + if Counts(kind, id, e) then 1 else 0
  {
    assert (log + [e])[..|log|] == log;
  }

  /** Handlers that read the case as approved and have not branched yet. */
  function Waiting(s: State, id: Text): set<nat> {
    set h | h in s.handlers && AtApprovedGate(s, h, id)
  }

  ghost predicate Tallied(s: State, id: Text) {
    && Count(s.log, Recordings, id) == (if id in s.verdicts then 1 else 0)
    && Count(s.log, Turns, id) + |Waiting(s, id)| <= Count(s.log, ApprovedReads, id)
  }

  lemma OneMember(a: set<nat>, b: set<nat>, h: nat)
    requires forall other :: other != h ==> (other in a <==> other in b)
    ensures |b| + (if h in a then 1 else 0) == |a| + (if h in b then 1 else 0)
  {
    assert a - {h} == b - {h};
    assert h in a ==> |a| == |a - {h}| + 1;
    assert h in b ==> |b| == |b - {h}| + 1;
    assert h !in a ==> a - {h} == a;
    assert h !in b ==> b - {h} == b;
  }

  predicate AtApprovedGate(s: State, h: nat, id: Text) {
    h in s.handlers && s.handlers[h].id == id && s.handlers[h].phase.AtGate?
    && s.handlers[h].phase.seen.status == Approved
  }

  /** One handler moved and at most one event was logged; the rest is arithmetic. */
  lemma TallyMoves(s: State, s': State, h: nat, id: Text)
    requires Tallied(s, id)
    requires forall other :: other != h ==> (AtApprovedGate(s, other, id) <==> AtApprovedGate(s', other, id))
    requires s'.log == s.log || (|s'.log| == |s.log| + 1 && s'.log[..|s.log|] == s.log)
    requires var e := if s'.log == s.log then [] else [s'.log[|s.log|]];
             && Count(e, Recordings, id) + (if id in s.verdicts then 1 else 0) == (if id in s'.verdicts then 1 else 0)
             && Count(e, Turns, id) + (if AtApprovedGate(s', h, id) then 1 else 0)
                <= Count(e, ApprovedReads, id) + if AtApprovedGate(s, h, id) then 1 else 0
    ensures Tallied(s', id)
  {
    hide AtApprovedGate;
    forall other ensures (other in Waiting(s, id) <==> AtApprovedGate(s, other, id))
                      && (other in Waiting(s', id) <==> AtApprovedGate(s', other, id)) {
      WaitingIs(s, other, id);
      WaitingIs(s', other, id);
    }
    OneMember(Waiting(s, id), Waiting(s', id), h);
    if s'.log != s.log {
      var e := s'.log[|s.log|];
      assert s'.log == s.log + [e];
      CountOne(e, Recordings, id);
      CountOne(e, Turns, id);
      CountOne(e, ApprovedReads, id);
      CountSnoc(s.log, e, Recordings, id);
      CountSnoc(s.log, e, Turns, id);
      CountSnoc(s.log, e, ApprovedReads, id);
    }
  }

  lemma CountOne(e: Event, kind: Kind, id: Text)
    ensures Count([e], kind, id) == if Counts(kind, id, e) then 1 else 0
  {
    CountSnoc([], e, kind, id);
    assert [] + [e] == [e];
  }

  lemma UpdateTallies(s: State, h: nat, id: Text)
    requires Inv(s) && Possible(s, Update(h)) && Tallied(s, id)
    ensures Tallied(AfterUpdate(s, h), id)
  {
    hide HandlerOk, EventOk, Count, Waiting, Tallied, Confirms;
    var s' := AfterUpdate(s, h);
    var own := s.handlers[h].id;
    NothingCounted(id);
    if own in s.table && s.table[own].status == Pending {
      assert CaseOk(s, own);
      var e := s'.log[|s.log|];
      CountOne(e, Recordings, id);
      CountOne(e, Turns, id);
      CountOne(e, ApprovedReads, id);
    }
    TallyMoves(s, s', h, id);
  }

  lemma SelectTallies(s: State, h: nat, id: Text)
    requires Inv(s) && Possible(s, Select(h)) && Tallied(s, id)
    ensures Tallied(AfterSelect(s, h), id)
  {
    hide Core, ReadingOk, Count, Waiting, Tallied;
    var s' := AfterSelect(s, h);
    var e := s'.log[|s.log|];
    CountOne(e, Recordings, id);
    CountOne(e, Turns, id);
    CountOne(e, ApprovedReads, id);
    TallyMoves(s, s', h, id);
  }

  lemma BranchTallies(s: State, h: nat, id: Text)
    requires Inv(s) && Possible(s, Branch(h)) && Tallied(s, id)
    ensures Tallied(AfterBranch(s, h), id)
  {
    hide EventOk, CaseOk, Confirms, ReadApproved, Count, Waiting, Tallied;
    assert HandlerOk(s, h);
    var s' := AfterBranch(s, h);
    NothingCounted(id);
    if s'.log != s.log {
      var e := s'.log[|s.log|];
      CountOne(e, Recordings, id);
      CountOne(e, Turns, id);
      CountOne(e, ApprovedReads, id);
    }
    TallyMoves(s, s', h, id);
  }

  lemma RecordTallies(s: State, h: nat, now: int, id: Text)
    requires Inv(s) && Possible(s, Record(h, now)) && Tallied(s, id)
    ensures Tallied(AfterRecord(s, h, now), id)
  {
    hide Core, ReadingOk, Count, Waiting, Tallied;
    var s' := AfterRecord(s, h, now);
    NothingCounted(id);
    if s'.log != s.log {
      var e := s'.log[|s.log|];
      CountOne(e, Recordings, id);
      CountOne(e, Turns, id);
      CountOne(e, ApprovedReads, id);
    }
    TallyMoves(s, s', h, id);
  }

  lemma StepTallies(s: State, step: Step, id: Text)
    requires Inv(s) && Enabled(s, step) && Tallied(s, id)
    ensures Tallied(Apply(s, step), id)
  {
    hide FindExecution, Core, ReadingOk, Count, Waiting, Tallied, FreshId, AfterUpdate, AfterSelect, AfterBranch, AfterRecord;
    NothingCounted(id);
    NextHandlerNew(s);
    match step
    case Update(h) => UpdateTallies(s, h, id);
    case Select(h) => SelectTallies(s, h, id);
    case Branch(h) => BranchTallies(s, h, id);
    case Record(h, now) => RecordTallies(s, h, now, id);
    case Reply(h, _) => TallyMoves(s, Apply(s, step), h, id);
    case Reread(h) => TallyMoves(s, Apply(s, step), h, id);
    case Crash(h) => TallyMoves(s, Apply(s, step), h, id);
    case OpenCase(_) => TallyMoves(s, Apply(s, step), s.arrived, id);
    case Arrive(_, _) =>
      TallyMoves(s, Apply(s, step), s.arrived, id);
  }

  lemma NothingCounted(id: Text)
    ensures forall kind :: Count([], kind, id) == 0
  {
  }

  lemma WaitingIs(s: State, h: nat, id: Text)
    ensures h in Waiting(s, id) <==> AtApprovedGate(s, h, id)
  {
  }

  lemma {:induction false} RunTallies(s: State, steps: seq<Step>, id: Text)
    requires Inv(s) && IsRun(s, steps) && Tallied(s, id)
    ensures Tallied(Final(s, steps), id)
    decreases |steps|
  {
    hide Core, ReadingOk, Possible, Apply, Tallied;
    if steps != [] {
      StepTallies(s, steps[0], id);
      StepKeeps(s, steps[0]);
      RunTallies(Apply(s, steps[0]), steps[1..], id);
    }
  }

  // --- One decision -------------------------------------------------------------------------------

  /** However many handlers decide a case at once, exactly one answer says it recorded the decision,
      and every answer shows that decision: its decider, its note, and a status it allows. */
  lemma DecidedOnce(steps: seq<Step>, id: Text)
    requires IsRun(INITIAL, steps) && id in Final(INITIAL, steps).table
    ensures var s := Final(INITIAL, steps);
            && Count(s.log, Recordings, id) == (if s.table[id].status == Pending then 0 else 1)
            && (s.table[id].status != Pending ==> id in s.verdicts && Carries(s.table[id], s.verdicts[id]))
            && forall k :: 0 <= k < |s.log| && s.log[k].Answered? && s.log[k].id == id
                 ==> id in s.verdicts && Carries(s.log[k].seen, s.verdicts[id])
  {
    hide IsRun, Final, Waiting, Confirms, ReadApproved;
    var s := Final(INITIAL, steps);
    Reached(steps);
    NothingCounted(id);
    assert Tallied(INITIAL, id) by { NoneWaiting(id); }
    RunTallies(INITIAL, steps, id);
    assert CaseOk(s, id);
    forall k | 0 <= k < |s.log| && s.log[k].Answered? && s.log[k].id == id
      ensures id in s.verdicts && Carries(s.log[k].seen, s.verdicts[id])
    {
      assert EventOk(s, k);
    }
  }

  lemma NoneWaiting(id: Text)
    ensures Waiting(INITIAL, id) == {}
  {
  }

  /** The decision outlives everything: what one state shows, every later state shows. */
  lemma {:induction false} VerdictKept(s: State, steps: seq<Step>, id: Text)
    requires Inv(s) && IsRun(s, steps) && id in s.verdicts
    ensures id in Final(s, steps).verdicts && Final(s, steps).verdicts[id] == s.verdicts[id]
    decreases |steps|
  {
    hide CaseOk, HandlerOk, EventOk, FindExecution;
    if steps != [] {
      assert id in s.table && CaseOk(s, id);
      assert s.table[id].status != Pending by { CasePending(s, id); }
      StepKeeps(s, steps[0]);
      VerdictKept(Apply(s, steps[0]), steps[1..], id);
    }
  }

  lemma CasePending(s: State, id: Text)
    requires CaseOk(s, id)
    ensures id in s.verdicts <==> s.table[id].status != Pending
  {
  }

  // --- Execution turns ------------------------------------------------------------------------------

  /** No more turns are started for a case than decide steps read it as approved. */
  lemma TurnsBounded(steps: seq<Step>, id: Text)
    requires IsRun(INITIAL, steps)
    ensures var log := Final(INITIAL, steps).log; Count(log, Turns, id) <= Count(log, ApprovedReads, id)
  {
    hide IsRun, Final, Waiting;
    NothingCounted(id);
    assert Tallied(INITIAL, id) by { NoneWaiting(id); }
    RunTallies(INITIAL, steps, id);
  }

  /** A turn is only ever started by a handler whose decide step read the case before the first
      confirmation: every decide step after it starts none. */
  lemma TurnsReadBeforeConfirmation(steps: seq<Step>, a: nat, c: nat)
    requires IsRun(INITIAL, steps)
    requires var log := Final(INITIAL, steps).log;
             a < |log| && c < |log| && log[a].Confirmed? && log[c].TurnStarted? && log[a].id == log[c].id
    ensures var log := Final(INITIAL, steps).log;
            exists j :: 0 <= j < a && j < c && log[j].Answered? && log[j].h == log[c].h && log[j].id == log[c].id
                        && log[j].seen.status == Approved
  {
    hide IsRun, Final, SeenOk, CaseOk;
    Reached(steps);
    var s := Final(INITIAL, steps);
    var e := s.log[c];
    assert EventOk(s, c);
    var j :| 0 <= j < c && s.log[..c][j].Answered? && s.log[..c][j].h == e.h && s.log[..c][j].id == e.id
             && s.log[..c][j].seen.status == Approved;
    assert s.log[..c][j] == s.log[j];
    assert EventOk(s, j);
  }
}
