/** One call of `POST /cases/{id}` from start to finish: the endpoint as it is written, over the
    SQL store, and the same call as a stretch of an interleaved run. */
module Driving {
  import opened Texts
  import opened Json
  import opened Contracts
  import opened Replies
  import opened Cases
  import opened Stores
  import opened Protocol
  import opened Lifecycle

  ghost predicate ObjectProposals(table: Table) {
    forall id :: id in table ==> table[id].proposal.JObject?
  }

  /** What one uninterrupted call does to the table, and what it answers. */
  function Call(table: Table, id: Text, v: Verdict, texts: seq<Text>, now: int): (Table, Response)
    requires ObjectProposals(table)
  {
    var (decided, _, c) := Cases.Decide(table, id, v.approved, v.who, v.note, v.at);
    if c.None? then (decided, UnknownCase)
    else if c.value.status == Rejected then (decided, WasRejected(c.value))
    else if c.value.status == Executed || c.value.status == Failed then (decided, AlreadyExecuted(c.value))
    else
      match FindExecution(texts, c.value.proposal)
      case None => (decided, NotConfirmed(decided[id]))
      case Some(performed) =>
        var closed := Cases.RecordExecution(decided, id, true, performed, now).0;
        (closed, NowExecuted(closed[id]))
  }

  /** The endpoint: the decision is written first and apart from the execution. `texts` is what
      the execution turn emits. */
  method CaseDecide(store: DatabaseCaseStore, id: Text, v: Verdict, texts: seq<Text>, now: int) returns (response: Response)
    requires store.Valid() && ObjectProposals(store.rows)
    modifies store
    ensures store.Valid()
    ensures (store.rows, response) == Call(old(store.rows), id, v, texts, now)
  {
    hide FindExecution;
    var outcome, c := store.Decide(id, v.approved, v.who, v.note, v.at);
    if outcome == NotFound || c.None? {
      return UnknownCase;
    }
    if c.value.status == Rejected {
      return WasRejected(c.value);
    }
    if c.value.status == Executed || c.value.status == Failed {
      return AlreadyExecuted(c.value);
    }
    var performed := FindExecutionIn(texts, c.value.proposal);
    if performed.None? {
      var current := store.Get(id);
      return NotConfirmed(current.Or(c.value));
    }
    var updated := store.RecordExecution(id, true, performed.value, now);
    return NowExecuted(updated.Or(c.value));
  }

  /** The row with a decision, and with an execution, on it. */
  function DecidedRow(c: Case, v: Verdict): Case {
    Case(c.proposalId, c.caseId, c.agent, c.action, c.summary, c.proposal, if v.approved then Approved else Rejected, c.sessionId,
         v.who, v.note, c.result, c.createdAt, Some(v.at), c.executedAt)
  }

  function ExecutedRow(c: Case, performed: Json, now: int): Case {
    Case(c.proposalId, c.caseId, c.agent, c.action, c.summary, c.proposal, Executed, c.sessionId, c.decidedBy, c.note,
         Some(performed), c.createdAt, c.decidedAt, Some(now))
  }

  /** Past the gate: the first object in the replies that confirms the case's proposal executes it, and
      without one it stays as it is. */
  ghost predicate Settles(table: Table, c: Case, texts: seq<Text>, now: int, i: nat, after: Table, response: Response)
    requires c.proposal.JObject?
  {
    if exists o :: o in AllObjects(texts) && Confirms(o, c.proposal) then
      ConfirmsFirst(AllObjects(texts), c.proposal, i)
      && var row := ExecutedRow(c, AllObjects(texts)[i], now);
         after == table[c.proposalId := row] && response == NowExecuted(row)
    else after == table && response == NotConfirmed(c)
  }

  /** Every case of a call. An unknown id is refused and nothing else is. A pending case takes the verdict: a
      rejection is the whole answer, an approval goes on to the turn, as any call on an approved case does.
      A case that is rejected, executed or failed is only shown. */
  lemma CallIs(table: Table, id: Text, v: Verdict, texts: seq<Text>, now: int) returns (i: nat)
    requires ObjectProposals(table) && forall other :: other in table ==> table[other].proposalId == other
    ensures var (after, response) := Call(table, id, v, texts, now);
            && (response.UnknownCase? <==> id !in table)
            && (id !in table ==> after == table)
            && (id in table ==>
                  var c := table[id]; var row := DecidedRow(c, v);
                  match c.status
                  case Pending =>
                    if v.approved then Settles(table[id := row], row, texts, now, i, after, response)
                    else after == table[id := row] && response == WasRejected(row)
                  case Approved => Settles(table, c, texts, now, i, after, response)
                  case Rejected => after == table && response == WasRejected(c)
                  case _ => after == table && response == AlreadyExecuted(c))
  {
    hide Confirms, AllObjects, FirstConfirming, ConfirmsFirst;
    i := 0;
    if id in table && FindExecution(texts, table[id].proposal).Some? {
      i := FindExecutionIsFirst(texts, table[id].proposal);
    }
  }

  /** An approved case can always be driven again, whatever the call's own verdict says: the call
      starts a turn and executes the case exactly when the reply confirms its proposal; otherwise
      the table is left as it was. A closed case is only reported. */
  lemma CallRedrives(table: Table, id: Text, v: Verdict, texts: seq<Text>, now: int)
    requires ObjectProposals(table) && id in table && table[id].status != Pending
    ensures var (after, response) := Call(table, id, v, texts, now); var c := table[id];
            match c.status
            case Approved =>
              if exists o :: o in AllObjects(texts) && Confirms(o, c.proposal)
              then response.NowExecuted? && after[id].status == Executed && after[id].result.Some?
                   && Confirms(after[id].result.value, c.proposal) && after == table[id := after[id]]
              else after == table && response == NotConfirmed(c)
            case Rejected => after == table && response == WasRejected(c)
            case _ => after == table && response == AlreadyExecuted(c)
  {
    hide Confirms, AllObjects;
  }

  // --- The same call among the others ----------------------------------------------------------------

  function NextStep(phase: Phase, h: nat, texts: seq<Text>, now: int): Step
    requires !phase.Done?
  {
    match phase
    case Deciding => Update(h)
    case Reading => Select(h)
    case AtGate(_) => Branch(h)
    case InTurn(_) => Reply(h, texts)
    case Recording(_, _) => Record(h, now)
    case Rereading(_) => Reread(h)
  }

  function Rank(phase: Phase): nat {
    match phase
    case Deciding => 5
    case Reading => 4
    case AtGate(_) => 3
    case InTurn(_) => 2
    case Done(_) => 0
    case _ => 1
  }

  /** The remaining steps of handler `h` when nothing comes between them. */
  function Drive(s: State, h: nat, texts: seq<Text>, now: int): seq<Step>
    requires Inv(s) && h in s.handlers
    decreases Rank(s.handlers[h].phase)
  {
    if s.handlers[h].phase.Done? then []
    else
      var step := NextStep(s.handlers[h].phase, h, texts, now);
      DriveStep(s, h, texts, now);
      [step] + Drive(Apply(s, step), h, texts, now)
  }

  lemma DriveStep(s: State, h: nat, texts: seq<Text>, now: int)
    requires Inv(s) && h in s.handlers && !s.handlers[h].phase.Done?
    ensures var step := NextStep(s.handlers[h].phase, h, texts, now);
            && Enabled(s, step) && Inv(Apply(s, step))
            && h in Apply(s, step).handlers && Apply(s, step).handlers[h].id == s.handlers[h].id
            && Rank(Apply(s, step).handlers[h].phase) < Rank(s.handlers[h].phase)
  {
    hide Core, ReadingOk, Possible, Apply, Rank;
    DrivePossible(s, h, texts, now);
    RankFalls(s, h, texts, now);
    StepKeeps(s, NextStep(s.handlers[h].phase, h, texts, now));
  }

  lemma RankFalls(s: State, h: nat, texts: seq<Text>, now: int)
    requires h in s.handlers && !s.handlers[h].phase.Done?
    requires Possible(s, NextStep(s.handlers[h].phase, h, texts, now))
    ensures var s' := Apply(s, NextStep(s.handlers[h].phase, h, texts, now));
            h in s'.handlers && s'.handlers[h].id == s.handlers[h].id && s'.handlers[h].verdict == s.handlers[h].verdict
            && Rank(s'.handlers[h].phase) < Rank(s.handlers[h].phase)
  {
    hide FindExecution, Decision, Closing;
    match s.handlers[h].phase {
      case Deciding => assert Rank(AfterUpdate(s, h).handlers[h].phase) < 5;
      case Reading => assert Rank(AfterSelect(s, h).handlers[h].phase) < 4;
      case AtGate(_) => assert Rank(AfterBranch(s, h).handlers[h].phase) < 3;
      case _ =>
    }
  }

  lemma DrivePossible(s: State, h: nat, texts: seq<Text>, now: int)
    requires Inv(s) && h in s.handlers && !s.handlers[h].phase.Done?
    ensures Enabled(s, NextStep(s.handlers[h].phase, h, texts, now))
  {
    hide EventOk, Confirms, ReadApproved;
    assert HandlerOk(s, h);
  }

  lemma {:induction false} DriveRuns(s: State, h: nat, texts: seq<Text>, now: int)
    requires Inv(s) && h in s.handlers
    ensures var steps := Drive(s, h, texts, now);
            && IsRun(s, steps)
            && h in Final(s, steps).handlers && Final(s, steps).handlers[h].phase.Done?
    decreases Rank(s.handlers[h].phase)
  {
    hide Core, ReadingOk, FindExecution, Possible, Apply, FreshId;
    if !s.handlers[h].phase.Done? {
      var step := NextStep(s.handlers[h].phase, h, texts, now);
      DriveStep(s, h, texts, now);
      DriveRuns(Apply(s, step), h, texts, now);
    }
  }

  /** Where the run ends: the table and the answer. */
  ghost predicate EndsWith(s: State, h: nat, texts: seq<Text>, now: int, table: Table, response: Response)
    requires Inv(s) && h in s.handlers
  {
    var steps := Drive(s, h, texts, now);
    IsRun(s, steps)
    && var end := Final(s, steps);
       end.table == table && h in end.handlers && end.handlers[h].phase == Done(response)
       && Extends(s.log, end.log)
  }

  ghost predicate Extends(before: seq<Event>, after: seq<Event>) {
    |before| <= |after| && after[..|before|] == before
  }

  lemma StepLogs(s: State, step: Step)
    requires Possible(s, step)
    ensures Extends(s.log, Apply(s, step).log)
  {
    hide FindExecution;
  }

  /** Driving on from the next state ends where driving from this one does. */
  lemma EndsLater(s: State, h: nat, texts: seq<Text>, now: int, table: Table, response: Response)
    requires Inv(s) && h in s.handlers && !s.handlers[h].phase.Done?
    ensures var s' := Apply(s, NextStep(s.handlers[h].phase, h, texts, now));
            && Inv(s') && h in s'.handlers
            && (EndsWith(s', h, texts, now, table, response) ==> EndsWith(s, h, texts, now, table, response))
  {
    hide Core, ReadingOk, Possible, Apply, Rank, FreshId;
    DriveStep(s, h, texts, now);
    StepLogs(s, NextStep(s.handlers[h].phase, h, texts, now));
  }

  lemma EndsHere(s: State, h: nat, texts: seq<Text>, now: int)
    requires Inv(s) && h in s.handlers && s.handlers[h].phase.Done?
    ensures EndsWith(s, h, texts, now, s.table, s.handlers[h].phase.response)
  {
    hide Core, ReadingOk;
  }

  lemma RecordEnds(s: State, h: nat, texts: seq<Text>, now: int)
    requires Inv(s) && h in s.handlers && s.handlers[h].phase.Recording? && s.handlers[h].id in s.table
    ensures var id := s.handlers[h].id;
            var closed := Cases.RecordExecution(s.table, id, true, s.handlers[h].phase.performed, now).0;
            EndsWith(s, h, texts, now, closed, NowExecuted(closed[id]))
  {
    hide Core, ReadingOk, EndsWith;
    var s' := AfterRecord(s, h, now);
    EndsLater(s, h, texts, now, s'.table, s'.handlers[h].phase.response);
    EndsHere(s', h, texts, now);
  }

  lemma RereadEnds(s: State, h: nat, texts: seq<Text>, now: int)
    requires Inv(s) && h in s.handlers && s.handlers[h].phase.Rereading? && s.handlers[h].id in s.table
    ensures EndsWith(s, h, texts, now, s.table, NotConfirmed(s.table[s.handlers[h].id]))
  {
    hide Core, ReadingOk, EndsWith;
    var s' := AfterReread(s, h);
    EndsLater(s, h, texts, now, s'.table, s'.handlers[h].phase.response);
    EndsHere(s', h, texts, now);
  }

  /** What is left of a call once the gate is passed. */
  function AfterGate(table: Table, c: Case, id: Text, texts: seq<Text>, now: int): (Table, Response)
    requires id in table && c.proposal.JObject?
  {
    if c.status == Rejected then (table, WasRejected(c))
    else if c.status == Executed || c.status == Failed then (table, AlreadyExecuted(c))
    else
      match FindExecution(texts, c.proposal)
      case None => (table, NotConfirmed(table[id]))
      case Some(performed) =>
        var closed := Cases.RecordExecution(table, id, true, performed, now).0;
        (closed, NowExecuted(closed[id]))
  }

  lemma TurnEnds(s: State, h: nat, texts: seq<Text>, now: int)
    requires Inv(s) && h in s.handlers && s.handlers[h].phase.InTurn? && s.handlers[h].id in s.table
    requires var seen := s.handlers[h].phase.seen; seen.proposal.JObject? && seen.status == Approved
    ensures var (table, response) := AfterGate(s.table, s.handlers[h].phase.seen, s.handlers[h].id, texts, now);
            EndsWith(s, h, texts, now, table, response)
  {
    hide Core, ReadingOk, EndsWith, FindExecution;
    var s' := AfterReply(s, h, texts);
    var (table, response) := AfterGate(s.table, s.handlers[h].phase.seen, s.handlers[h].id, texts, now);
    EndsLater(s, h, texts, now, table, response);
    if s'.handlers[h].phase.Recording? {
      RecordEnds(s', h, texts, now);
    } else {
      RereadEnds(s', h, texts, now);
    }
  }

  lemma GateEnds(s: State, h: nat, texts: seq<Text>, now: int)
    requires Inv(s) && h in s.handlers && s.handlers[h].phase.AtGate? && s.handlers[h].id in s.table
    requires var seen := s.handlers[h].phase.seen; seen.proposal.JObject? && seen.status != Pending
    ensures var (table, response) := AfterGate(s.table, s.handlers[h].phase.seen, s.handlers[h].id, texts, now);
            EndsWith(s, h, texts, now, table, response)
  {
    hide Core, ReadingOk, EndsWith, FindExecution;
    var s' := AfterBranch(s, h);
    var (table, response) := AfterGate(s.table, s.handlers[h].phase.seen, s.handlers[h].id, texts, now);
    EndsLater(s, h, texts, now, table, response);
    if s'.handlers[h].phase.Done? {
      EndsHere(s', h, texts, now);
    } else {
      TurnEnds(s', h, texts, now);
    }
  }

  lemma ReadingEnds(s: State, h: nat, texts: seq<Text>, now: int)
    requires Inv(s) && h in s.handlers && s.handlers[h].phase.Reading?
    requires var id := s.handlers[h].id; id in s.table ==> s.table[id].proposal.JObject? && s.table[id].status != Pending
    ensures var id := s.handlers[h].id;
            var (table, response) :=
              if id in s.table then AfterGate(s.table, s.table[id], id, texts, now) else (s.table, UnknownCase);
            EndsWith(s, h, texts, now, table, response)
  {
    hide Core, ReadingOk, EndsWith, AfterGate;
    var id := s.handlers[h].id;
    var s' := AfterSelect(s, h);
    var (table, response) :=
      if id in s.table then AfterGate(s.table, s.table[id], id, texts, now) else (s.table, UnknownCase);
    EndsLater(s, h, texts, now, table, response);
    if id in s.table {
      GateEnds(s', h, texts, now);
    } else {
      EndsHere(s', h, texts, now);
    }
  }

  lemma DecidingEnds(s: State, h: nat, texts: seq<Text>, now: int)
    requires Inv(s) && h in s.handlers && s.handlers[h].phase.Deciding? && ObjectProposals(s.table)
    ensures var (table, response) := Call(s.table, s.handlers[h].id, s.handlers[h].verdict, texts, now);
            EndsWith(s, h, texts, now, table, response)
  {
    hide Core, ReadingOk, EndsWith, FindExecution;
    var s' := AfterUpdate(s, h);
    var (table, response) := Call(s.table, s.handlers[h].id, s.handlers[h].verdict, texts, now);
    EndsLater(s, h, texts, now, table, response);
    if s'.handlers[h].phase.AtGate? {
      GateEnds(s', h, texts, now);
    } else {
      ReadingEnds(s', h, texts, now);
    }
  }

  lemma ProposalsAreObjects(s: State)
    requires Inv(s)
    ensures ObjectProposals(s.table)
  {
    forall id | id in s.table ensures s.table[id].proposal.JObject? {
      assert CaseOk(s, id);
    }
  }

  /** From every reachable state, whoever else is under way or has crashed: one more call that is
      not interrupted is a stretch of a run, and ends with exactly what the endpoint computes. */
  lemma CallAmongOthers(steps: seq<Step>, id: Text, v: Verdict, texts: seq<Text>, now: int)
    requires IsRun(INITIAL, steps)
    ensures var s := Final(INITIAL, steps);
            var s1 := Apply(s, Arrive(id, v));
            && Inv(s1) && s.arrived in s1.handlers && ObjectProposals(s.table)
            && var (table, response) := Call(s.table, id, v, texts, now);
               EndsWith(s1, s.arrived, texts, now, table, response)
  {
    hide IsRun, Final, Core, ReadingOk, EndsWith, Call;
    Reached(steps);
    var s := Final(INITIAL, steps);
    ProposalsAreObjects(s);
    StepKeeps(s, Arrive(id, v));
    DecidingEnds(Apply(s, Arrive(id, v)), s.arrived, texts, now);
  }

  /** And when the case stands approved, that call starts a turn. */
  lemma RedriveStartsTurn(s: State, h: nat, texts: seq<Text>, now: int)
    requires Inv(s) && h in s.handlers && s.handlers[h].phase.Deciding?
    requires s.handlers[h].id in s.table && s.table[s.handlers[h].id].status == Approved
    ensures IsRun(s, Drive(s, h, texts, now))
    ensures TurnStarted(h, s.handlers[h].id) in Final(s, Drive(s, h, texts, now)).log
  {
    hide Core, ReadingOk, FindExecution, Rank;
    var s1 := AfterUpdate(s, h);
    DriveStep(s, h, texts, now);
    var s2 := AfterSelect(s1, h);
    DriveStep(s1, h, texts, now);
    var s3 := AfterBranch(s2, h);
    DriveStep(s2, h, texts, now);
    assert s3.log[|s3.log| - 1] == TurnStarted(h, s.handlers[h].id);
    DriveLogs(s3, h, texts, now);
    DriveRuns(s, h, texts, now);
    DriveRuns(s1, h, texts, now);
    DriveRuns(s2, h, texts, now);
    Unfolded(s, h, texts, now);
    Unfolded(s1, h, texts, now);
    Unfolded(s2, h, texts, now);
  }

  lemma Unfolded(s: State, h: nat, texts: seq<Text>, now: int)
    requires Inv(s) && h in s.handlers && !s.handlers[h].phase.Done?
    ensures var s' := Apply(s, NextStep(s.handlers[h].phase, h, texts, now));
            && Inv(s') && h in s'.handlers
            && IsRun(s, Drive(s, h, texts, now)) && IsRun(s', Drive(s', h, texts, now))
            && Final(s, Drive(s, h, texts, now)) == Final(s', Drive(s', h, texts, now))
  {
    hide Core, ReadingOk, Apply, Rank;
    DriveStep(s, h, texts, now);
    DriveRuns(Apply(s, NextStep(s.handlers[h].phase, h, texts, now)), h, texts, now);
  }

  lemma {:induction false} DriveLogs(s: State, h: nat, texts: seq<Text>, now: int)
    requires Inv(s) && h in s.handlers
    ensures IsRun(s, Drive(s, h, texts, now))
    ensures forall e :: e in s.log ==> e in Final(s, Drive(s, h, texts, now)).log
    decreases Rank(s.handlers[h].phase)
  {
    hide Core, ReadingOk, Apply, Possible;
    DriveRuns(s, h, texts, now);
    if !s.handlers[h].phase.Done? {
      var step := NextStep(s.handlers[h].phase, h, texts, now);
      var s' := Apply(s, step);
      DriveStep(s, h, texts, now);
      StepLogs(s, step);
      assert s'.log == s.log + s'.log[|s.log|..];
      DriveLogs(s', h, texts, now);
      Unfolded(s, h, texts, now);
    }
  }
}
