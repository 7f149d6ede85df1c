/** Deciding an id before its case is stored: the one way past the approval, and what keeps it shut. */
module Early {
  import opened Texts
  import opened Json
  import opened Contracts
  import opened Replies
  import opened Cases
  import opened Protocol

  /** A run that keeps to the code alone, whenever ids became known. */
  predicate Happens(s: State, steps: seq<Step>, end: State)
    decreases |steps|
  {
    if steps == [] then s == end else Possible(s, steps[0]) && Happens(Apply(s, steps[0]), steps[1..], end)
  }

  /** No read-back in it finds its case still pending. */
  predicate NoStaleRead(s: State, steps: seq<Step>)
    decreases |steps|
  {
    steps == []
    || (Possible(s, steps[0]) && !StaleRead(s, steps[0]) && NoStaleRead(Apply(s, steps[0]), steps[1..]))
  }

  lemma {:induction false} FreshKeeps(s: State, steps: seq<Step>, end: State)
    requires Core(s) && Happens(s, steps, end) && NoStaleRead(s, steps)
    ensures Core(end)
    decreases |steps|
  {
    hide Core, Possible, Apply, StaleRead;
    if steps != [] {
      StepKeepsCore(s, steps[0]);
      FreshKeeps(Apply(s, steps[0]), steps[1..], end);
    }
  }

  /** While no read-back finds its case pending, and whenever ids became known, what is executed was
      approved, and its result matches the proposal. */
  lemma FreshReadsExecuteApproved(steps: seq<Step>, end: State, id: Text)
    requires Happens(INITIAL, steps, end) && NoStaleRead(INITIAL, steps)
    requires id in end.table && end.table[id].status == Executed
    ensures id in end.verdicts && end.verdicts[id].approved && Carries(end.table[id], end.verdicts[id])
    ensures end.table[id].proposal.JObject? && end.table[id].result.Some?
    ensures Confirms(end.table[id].result.value, end.table[id].proposal)
  {
    hide Happens, NoStaleRead, Confirms;
    FreshKeeps(INITIAL, steps, end);
    assert CaseOk(end, id);
  }

  lemma Happening(s: State, step: Step, rest: seq<Step>, end: State)
    requires Possible(s, step) && Happens(Apply(s, step), rest, end)
    ensures Happens(s, [step] + rest, end)
  {
    hide Possible, Apply;
    assert ([step] + rest)[1..] == rest;
  }

  lemma Stops(s: State)
    ensures Happens(s, [], s)
  {
  }

  /** What is left of a call from its read-back on. */
  function FromReadBack(h: nat, texts: seq<Text>, now: int): seq<Step> {
    [Select(h)] + ([Branch(h)] + ([Reply(h, texts)] + ([Record(h, now)] + [])))
  }

  /** The case is executed with no decision on record: none in the history, and none on its row, which
      still has the decider, note and decision time of a pending one. */
  predicate ExecutedUndecided(s: State, id: Text, before: Case, performed: Json, now: int) {
    && id !in s.verdicts && id in s.table && s.table[id] == Closing(before, true, performed, now)
    && s.table[id].status == Executed && s.table[id].decidedAt == None
    && s.table[id].decidedBy == before.decidedBy && s.table[id].note == before.note
  }

  lemma StaleTurn(s: State, h: nat, texts: seq<Text>)
    requires Possible(s, Select(h)) && StaleRead(s, Select(h))
    requires var c := s.table[s.handlers[h].id]; c.proposal.JObject? && FindExecution(texts, c.proposal).Some?
    ensures var s1 := Apply(s, Select(h));
            && Possible(s1, Branch(h)) && Possible(Apply(s1, Branch(h)), Reply(h, texts))
            && var s3 := Apply(Apply(s1, Branch(h)), Reply(h, texts));
               && s3.table == s.table && s3.verdicts == s.verdicts && h in s3.handlers && s3.handlers[h].id == s.handlers[h].id
               && var c := s.table[s.handlers[h].id];
                  s3.handlers[h].phase == Recording(c, FindExecution(texts, c.proposal).value)
  {
    hide FindExecution, Logged;
    var c := s.table[s.handlers[h].id];
    var s1 := Apply(s, Select(h));
    assert s1 == Logged(Moved(s, h, AtGate(c)), Answered(h, s.handlers[h].id, false, c));
    LoggedKeeps(Moved(s, h, AtGate(c)), Answered(h, s.handlers[h].id, false, c));
    var s2 := Apply(s1, Branch(h));
    LoggedKeeps(Moved(s1, h, InTurn(c)), TurnStarted(h, s.handlers[h].id));
  }

  lemma LoggedKeeps(s: State, e: Event)
    ensures Logged(s, e).table == s.table && Logged(s, e).verdicts == s.verdicts && Logged(s, e).handlers == s.handlers
  {
  }

  lemma ThenRecords(s: State, h: nat, now: int)
    requires h in s.handlers && s.handlers[h].phase.Recording? && s.handlers[h].id in s.table
    ensures var id := s.handlers[h].id; var s' := Apply(s, Record(h, now));
            && Possible(s, Record(h, now)) && s'.verdicts == s.verdicts && id in s'.table
            && s'.table[id] == Closing(s.table[id], true, s.handlers[h].phase.performed, now)
  {
  }

  lemma PendingUndecided(s: State, id: Text)
    requires Core(s) && id in s.table && s.table[id].status == Pending
    ensures id !in s.verdicts && s.table[id].decidedAt == None
  {
    hide HandlerOk, EventOk, Confirms, Carries;
    assert CaseOk(s, id);
  }

  /** One such read-back is all it takes: in every state reached without one, the handler that makes
      it can run a turn and, on a reply that confirms, execute the case, whatever its own verdict. */
  lemma StaleReadExecutes(s: State, h: nat, texts: seq<Text>, now: int)
    requires Core(s) && Possible(s, Select(h)) && StaleRead(s, Select(h))
    requires var c := s.table[s.handlers[h].id]; c.proposal.JObject? && FindExecution(texts, c.proposal).Some?
    ensures var id := s.handlers[h].id; var c := s.table[id];
            exists end :: Happens(s, FromReadBack(h, texts, now), end)
                          && ExecutedUndecided(end, id, c, FindExecution(texts, c.proposal).value, now)
  {
    hide FindExecution, Happens, Apply, Possible, Core;
    var id := s.handlers[h].id;
    PendingUndecided(s, id);
    StaleTurn(s, h, texts);
    var s1 := Apply(s, Select(h));
    var s2 := Apply(s1, Branch(h));
    var s3 := Apply(s2, Reply(h, texts));
    ThenRecords(s3, h, now);
    var end := Apply(s3, Record(h, now));
    Stops(end);
    Happening(s3, Record(h, now), [], end);
    Happening(s2, Reply(h, texts), [Record(h, now)] + [], end);
    Happening(s1, Branch(h), [Reply(h, texts)] + ([Record(h, now)] + []), end);
    Happening(s, Select(h), [Branch(h)] + ([Reply(h, texts)] + ([Record(h, now)] + [])), end);
    assert Happens(s, FromReadBack(h, texts, now), end);
    assert ExecutedUndecided(end, id, s.table[id], FindExecution(texts, s.table[id].proposal).value, now);
  }

  ghost predicate CanExecuteUndecided(s: State, h: nat, texts: seq<Text>, now: int)
    requires h in s.handlers
  {
    var id := s.handlers[h].id;
    exists end :: Happens(s, FromReadBack(h, texts, now), end) && id !in end.verdicts && id in end.table
                  && end.table[id].status == Executed
  }

  /** It is exact: in every state reached without one, the handler's way on from a read-back can
      execute the case undecided if and only if the read-back finds it pending. */
  lemma ReadBackDecides(s: State, h: nat, texts: seq<Text>, now: int)
    requires Core(s) && Possible(s, Select(h)) && s.handlers[h].id in s.table
    requires var c := s.table[s.handlers[h].id]; c.proposal.JObject? && FindExecution(texts, c.proposal).Some?
    ensures CanExecuteUndecided(s, h, texts, now) <==> s.table[s.handlers[h].id].status == Pending
  {
    hide FindExecution, Happens;
    var id := s.handlers[h].id;
    if s.table[id].status == Pending {
      StaleReadExecutes(s, h, texts, now);
    } else {
      VerdictThere(s, id);
      forall end | Happens(s, FromReadBack(h, texts, now), end) ensures id in end.verdicts {
        VerdictStays(s, FromReadBack(h, texts, now), end, id);
      }
    }
  }

  lemma VerdictThere(s: State, id: Text)
    requires Core(s) && id in s.table && s.table[id].status != Pending
    ensures id in s.verdicts
  {
    hide HandlerOk, EventOk, Confirms, Carries;
    assert CaseOk(s, id);
  }

  lemma {:induction false} VerdictStays(s: State, steps: seq<Step>, end: State, id: Text)
    requires Happens(s, steps, end) && id in s.verdicts
    ensures id in end.verdicts
    decreases |steps|
  {
    hide FindExecution, Possible, Apply;
    if steps != [] {
      VerdictStep(s, steps[0], id);
      VerdictStays(Apply(s, steps[0]), steps[1..], end, id);
    }
  }

  lemma VerdictStep(s: State, step: Step, id: Text)
    requires Possible(s, step) && id in s.verdicts
    ensures id in Apply(s, step).verdicts
  {
    hide FindExecution;
  }

  /** The call's UPDATE finds nothing, then the case is stored, then the read-back finds it pending. */
  function Beforehand(c: Case, v: Verdict, texts: seq<Text>, now: int): seq<Step> {
    [Arrive(c.proposalId, v)] + ([Update(0)] + ([OpenCase(c)] + FromReadBack(0, texts, now)))
  }

  /** It does happen when an id is decided before its case is stored: the case is executed with no
      decision on record, even by a call that rejects it. */
  lemma EarlyDecisionExecutes(c: Case, v: Verdict, texts: seq<Text>, now: int)
    requires IsNew(c) && c.proposal.JObject? && FindExecution(texts, c.proposal).Some?
    ensures exists end :: Happens(INITIAL, Beforehand(c, v, texts, now), end)
                          && ExecutedUndecided(end, c.proposalId, c, FindExecution(texts, c.proposal).value, now)
  {
    hide FindExecution, Happens, Core, FromReadBack, ExecutedUndecided;
    var id := c.proposalId;
    var s1 := Apply(INITIAL, Arrive(id, v));
    var s2 := Apply(s1, Update(0));
    var s3 := Apply(s2, OpenCase(c));
    StartsOk();
    StepKeepsCore(INITIAL, Arrive(id, v));
    StepKeepsCore(s1, Update(0));
    StepKeepsCore(s2, OpenCase(c));
    StaleReadExecutes(s3, 0, texts, now);
    var end :| Happens(s3, FromReadBack(0, texts, now), end)
               && ExecutedUndecided(end, id, c, FindExecution(texts, c.proposal).value, now);
    Happening(s2, OpenCase(c), FromReadBack(0, texts, now), end);
    Happening(s1, Update(0), [OpenCase(c)] + FromReadBack(0, texts, now), end);
    Happening(INITIAL, Arrive(id, v), [Update(0)] + ([OpenCase(c)] + FromReadBack(0, texts, now)), end);
  }

  lemma StartsOk()
    ensures Core(INITIAL)
  {
  }

  /** Ids handed out only once their cases are stored keep every run from it. */
  lemma {:induction false} StoredFirstReadsFresh(s: State, steps: seq<Step>)
    requires Inv(s) && IsRun(s, steps)
    ensures Happens(s, steps, Final(s, steps)) && NoStaleRead(s, steps)
    decreases |steps|
  {
    hide Core, ReadingOk, Possible, Apply, FreshId, StaleRead;
    if steps != [] {
      StepKeepsReading(s, steps[0]);
      StepKeeps(s, steps[0]);
      StoredFirstReadsFresh(Apply(s, steps[0]), steps[1..]);
    }
  }
}
