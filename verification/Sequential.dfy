/** When calls on one case may come. The endpoint's own comment calls a retry safe because a closed
    case is not run twice: that holds of calls that arrive when no other call can still run it. */
module Sequential {
  import opened Texts
  import opened Cases
  import opened Replies
  import opened Protocol
  import opened Lifecycle

  predicate StatusIs(s: State, id: Text, status: Status) {
    id in s.table && s.table[id].status == status
  }

  predicate IsOpen(s: State, id: Text) {
    StatusIs(s, id, Pending) || StatusIs(s, id, Approved)
  }

  /** The handler goes by a row it read as approved. */
  predicate Holding(s: State, h: nat, id: Text) {
    h in s.handlers && s.handlers[h].id == id
    && match s.handlers[h].phase
       case AtGate(seen) => seen.status == Approved
       case InTurn(_) => true
       case Recording(_, _) => true
       case _ => false
  }

  /** The handler may yet come to record an execution. */
  predicate Threat(s: State, h: nat, id: Text) {
    Holding(s, h, id)
    || (h in s.handlers && s.handlers[h].id == id && (s.handlers[h].phase.Deciding? || s.handlers[h].phase.Reading?))
  }

  /** The guard on arrivals: while a case is open, a call on it waits until no other can record an
      execution, unless neither of them approves what is still pending. */
  ghost predicate Alone(s: State, step: Step) {
    step.Arrive? && IsOpen(s, step.id) ==>
      forall h :: Threat(s, h, step.id) ==>
        StatusIs(s, step.id, Pending) && !step.verdict.approved && !s.handlers[h].verdict.approved
  }

  ghost predicate IsSoloRun(s: State, steps: seq<Step>)
    decreases |steps|
  {
    steps == []
    || (Enabled(s, steps[0]) && Alone(s, steps[0]) && IsSoloRun(Apply(s, steps[0]), steps[1..]))
  }

  lemma {:induction false} SoloRunIsRun(s: State, steps: seq<Step>)
    requires IsSoloRun(s, steps)
    ensures IsRun(s, steps)
    decreases |steps|
  {
    hide Possible, Apply, FreshId, Alone;
    if steps != [] { SoloRunIsRun(Apply(s, steps[0]), steps[1..]); }
  }

  // --- The invariant of such runs -----------------------------------------------------------------

  /** While the case is open at most one handler can record an execution, or none approves. */
  ghost predicate Lone(s: State, id: Text) {
    IsOpen(s, id) ==>
      || (forall g, h :: Threat(s, g, id) && Threat(s, h, id) ==> g == h)
      || (StatusIs(s, id, Pending) && forall h :: Threat(s, h, id) ==> !s.handlers[h].verdict.approved)
  }

  /** No turn for the case starts after a confirmation. */
  ghost predicate TurnsFirst(log: seq<Event>, id: Text) {
    forall a, c :: 0 <= a < c < |log| && log[a].Confirmed? && log[a].id == id && log[c].TurnStarted? ==> log[c].id != id
  }

  ghost predicate Solo(s: State, id: Text) {
    && Lone(s, id)
    && (forall h :: Holding(s, h, id) ==> StatusIs(s, id, Approved))
    && Count(s.log, Confirmations, id) == (if StatusIs(s, id, Executed) then 1 else 0)
    && TurnsFirst(s.log, id)
  }

  /** Apart from `h` the handlers are as they were, in what they may do to this case. */
  ghost predicate OthersSame(s: State, s': State, h: nat, id: Text) {
    forall other :: other != h ==>
      && Threat(s', other, id) == Threat(s, other, id) && Holding(s', other, id) == Holding(s, other, id)
      && (Threat(s, other, id) ==> s'.handlers[other].verdict == s.handlers[other].verdict)
  }

  /** How the row may have moved: not at all, or by a handler that could move it. */
  predicate RowMovedBy(s: State, s': State, h: nat, id: Text) {
    (forall status :: StatusIs(s', id, status) == StatusIs(s, id, status))
    || (Threat(s, h, id) && StatusIs(s, id, Pending)
        && (StatusIs(s', id, Approved) ==> s.handlers[h].verdict.approved) && !StatusIs(s', id, Pending))
    || (Threat(s, h, id) && StatusIs(s, id, Approved) && !IsOpen(s', id))
  }

  lemma SoloMoves(s: State, s': State, h: nat, id: Text)
    requires Solo(s, id) && OthersSame(s, s', h, id) && RowMovedBy(s, s', h, id)
    requires Threat(s', h, id) ==> Threat(s, h, id) && s'.handlers[h].verdict == s.handlers[h].verdict
    requires Holding(s', h, id) ==> StatusIs(s', id, Approved)
    requires Count(s'.log, Confirmations, id) == (if StatusIs(s', id, Executed) then 1 else 0)
    requires TurnsFirst(s'.log, id)
    ensures Solo(s', id)
  {
    hide Count, TurnsFirst, Holding;
    assert Lone(s', id) by { LoneMoves(s, s', h, id); }
    forall g | Holding(s', g, id) ensures StatusIs(s', id, Approved) {
      if g != h {
        assert Holding(s, g, id) && Threat(s, g, id) by { HoldingThreat(s, g, id); }
      }
    }
  }

  lemma HoldingThreat(s: State, h: nat, id: Text)
    ensures Holding(s, h, id) ==> Threat(s, h, id)
    ensures Threat(s, h, id) ==> h in s.handlers
  {
  }

  lemma LoneMoves(s: State, s': State, h: nat, id: Text)
    requires Lone(s, id) && OthersSame(s, s', h, id) && RowMovedBy(s, s', h, id)
    requires Threat(s', h, id) ==> Threat(s, h, id) && s'.handlers[h].verdict == s.handlers[h].verdict
    ensures Lone(s', id)
  {
    hide Threat, Holding;
    forall g ensures Threat(s, g, id) ==> g in s.handlers { HoldingThreat(s, g, id); }
    forall g ensures Threat(s', g, id) ==> g in s'.handlers { HoldingThreat(s', g, id); }
  }

  lemma ConfirmationsSame(log: seq<Event>, e: Event, id: Text)
    requires TurnsFirst(log, id) && !(e.Confirmed? && e.id == id)
    requires e.TurnStarted? && e.id == id ==> forall a :: 0 <= a < |log| && log[a].Confirmed? ==> log[a].id != id
    ensures Count(log + [e], Confirmations, id) == Count(log, Confirmations, id)
    ensures TurnsFirst(log + [e], id)
  {
    CountSnoc(log, e, Confirmations, id);
    hide Count;
    var all := log + [e];
    forall a, c | 0 <= a < c < |all| && all[a].Confirmed? && all[a].id == id && all[c].TurnStarted?
      ensures all[c].id != id
    {
      assert all[a] == log[a];
      if c < |log| { assert all[c] == log[c]; }
    }
  }

  lemma UpdateSolo(s: State, h: nat, id: Text)
    requires Inv(s) && Possible(s, Update(h)) && Solo(s, id)
    ensures Solo(AfterUpdate(s, h), id)
  {
    hide HandlerOk, EventOk, CaseOk, Count, TurnsFirst, Lone;
    var s' := AfterUpdate(s, h);
    var own := s.handlers[h].id;
    if own in s.table && s.table[own].status == Pending {
      var row := Decision(s.table[own], s.handlers[h].verdict.approved, s.handlers[h].verdict.who,
                          s.handlers[h].verdict.note, s.handlers[h].verdict.at);
      ConfirmationsSame(s.log, Answered(h, own, true, row), id);
    }
    SoloMoves(s, s', h, id);
  }

  lemma SelectSolo(s: State, h: nat, id: Text)
    requires Inv(s) && Possible(s, Select(h)) && Solo(s, id)
    ensures Solo(AfterSelect(s, h), id)
  {
    hide Core, ReadingOk, Count, TurnsFirst, Lone;
    var s' := AfterSelect(s, h);
    var own := s.handlers[h].id;
    if own in s.table {
      ConfirmationsSame(s.log, Answered(h, own, false, s.table[own]), id);
    } else {
      ConfirmationsSame(s.log, Missing(h, own), id);
    }
    SoloMoves(s, s', h, id);
  }

  lemma GateSeen(s: State, h: nat)
    requires Inv(s) && Possible(s, Branch(h))
    ensures var seen := s.handlers[h].phase.seen; seen.status != Pending && seen.status != Failed
  {
    hide EventOk, CaseOk, ReadApproved;
    assert HandlerOk(s, h);
  }

  lemma BranchSolo(s: State, h: nat, id: Text)
    requires Inv(s) && Possible(s, Branch(h)) && Solo(s, id)
    ensures Solo(AfterBranch(s, h), id)
  {
    hide Core, ReadingOk, Count, TurnsFirst, Lone;
    var s' := AfterBranch(s, h);
    GateSeen(s, h);
    if s'.log != s.log {
      if s.handlers[h].id == id {
        assert Holding(s, h, id);
        NoneConfirmed(s, id);
      }
      ConfirmationsSame(s.log, TurnStarted(h, s.handlers[h].id), id);
    }
    SoloMoves(s, s', h, id);
  }

  lemma RecordSolo(s: State, h: nat, now: int, id: Text)
    requires Inv(s) && Possible(s, Record(h, now)) && Solo(s, id)
    ensures Solo(AfterRecord(s, h, now), id)
  {
    hide Core, ReadingOk, Count, Lone;
    var s' := AfterRecord(s, h, now);
    var own := s.handlers[h].id;
    if own == id { assert Holding(s, h, id); }
    if own in s.table { CountSnoc(s.log, Confirmed(h, own), Confirmations, id); }
    assert TurnsFirst(s'.log, id);
    hide TurnsFirst;
    SoloMoves(s, s', h, id);
  }

  lemma QuietSolo(s: State, s': State, h: nat, id: Text)
    requires Solo(s, id) && s'.table == s.table && s'.log == s.log
    requires forall other :: other != h && other in s'.handlers ==> other in s.handlers && s'.handlers[other] == s.handlers[other]
    requires forall other :: other != h && other in s.handlers ==> other in s'.handlers
    requires h in s.handlers && h in s'.handlers ==> s'.handlers[h].verdict == s.handlers[h].verdict
    requires Threat(s', h, id) ==> Threat(s, h, id)
    requires Holding(s', h, id) ==> Holding(s, h, id)
    ensures Solo(s', id)
  {
    hide Count, TurnsFirst, Lone;
    SoloMoves(s, s', h, id);
  }

  lemma OpenSolo(s: State, c: Case, id: Text)
    requires Inv(s) && Enabled(s, OpenCase(c)) && Solo(s, id)
    ensures Solo(Apply(s, OpenCase(c)), id)
  {
    hide Core, ReadingOk, Count, TurnsFirst;
    var s' := Apply(s, OpenCase(c));
    if c.proposalId == id {
      assert forall h :: !Threat(s', h, id);
    } else {
      QuietElsewhere(s, s', id);
    }
  }

  lemma QuietElsewhere(s: State, s': State, id: Text)
    requires Solo(s, id) && s'.log == s.log && s'.handlers == s.handlers
    requires forall status :: StatusIs(s', id, status) == StatusIs(s, id, status)
    ensures Solo(s', id)
  {
    hide Count, TurnsFirst;
    forall h ensures Threat(s', h, id) == Threat(s, h, id) && Holding(s', h, id) == Holding(s, h, id) {}
  }

  lemma ArriveSolo(s: State, id: Text, v: Verdict, own: Text)
    requires Inv(s) && Alone(s, Arrive(own, v)) && Solo(s, id)
    ensures Solo(Apply(s, Arrive(own, v)), id)
  {
    hide Core, ReadingOk, Count, TurnsFirst;
    NextHandlerNew(s);
    var s' := Apply(s, Arrive(own, v));
    forall h | h != s.arrived
      ensures Threat(s', h, id) == Threat(s, h, id) && Holding(s', h, id) == Holding(s, h, id)
      ensures Threat(s, h, id) ==> s'.handlers[h].verdict == s.handlers[h].verdict {}
    assert !Holding(s', s.arrived, id) && (Threat(s', s.arrived, id) ==> own == id);
    hide Threat, Holding;
    forall status ensures StatusIs(s', id, status) == StatusIs(s, id, status) {}
  }

  lemma StepSolo(s: State, step: Step, id: Text)
    requires Inv(s) && Enabled(s, step) && Alone(s, step) && Solo(s, id)
    ensures Solo(Apply(s, step), id)
  {
    hide Core, ReadingOk, FindExecution, Solo, Alone;
    match step
    case OpenCase(c) => OpenSolo(s, c, id);
    case Arrive(own, v) => ArriveSolo(s, id, v, own);
    case Update(h) => UpdateSolo(s, h, id);
    case Select(h) => SelectSolo(s, h, id);
    case Branch(h) => BranchSolo(s, h, id);
    case Record(h, now) => RecordSolo(s, h, now, id);
    case Reply(h, _) => QuietSolo(s, Apply(s, step), h, id);
    case Reread(h) => QuietSolo(s, Apply(s, step), h, id);
    case Crash(h) => QuietSolo(s, Apply(s, step), h, id);
  }

  lemma {:induction false} SoloRunKeeps(s: State, steps: seq<Step>, id: Text)
    requires Inv(s) && IsSoloRun(s, steps) && Solo(s, id)
    ensures IsRun(s, steps) && Solo(Final(s, steps), id)
    decreases |steps|
  {
    hide Core, ReadingOk, Possible, Apply, Solo, FreshId, Alone;
    SoloRunIsRun(s, steps);
    if steps != [] {
      StepSolo(s, steps[0], id);
      StepKeeps(s, steps[0]);
      SoloRunKeeps(Apply(s, steps[0]), steps[1..], id);
    }
  }

  lemma SoloAtStart(id: Text)
    ensures Solo(INITIAL, id)
  {
    NothingCounted(id);
  }

  /** When calls on a case arrive under the guard, whichever of them crash: its execution is confirmed
      at most once, exactly when it ends executed, and no turn starts after that. */
  lemma SoloConfirmsOnce(steps: seq<Step>, id: Text)
    requires IsSoloRun(INITIAL, steps)
    ensures IsRun(INITIAL, steps)
    ensures var s := Final(INITIAL, steps);
            && Count(s.log, Confirmations, id) == (if StatusIs(s, id, Executed) then 1 else 0)
            && TurnsFirst(s.log, id)
  {
    hide IsRun, Final, IsSoloRun, Lone;
    SoloAtStart(id);
    SoloRunKeeps(INITIAL, steps, id);
  }
}
