/** `POST /cases/{id}` as interleaved steps (`app/fast_api_app.py`, `case_decide`): any number of
    overlapping handlers over one shared case table, each UPDATE and SELECT a step of its own,
    each execution turn replying with any texts at all, any handler crashing anywhere. */
module Protocol {
  import opened Texts
  import opened Json
  import opened Contracts
  import opened Replies
  import opened Cases

  datatype Verdict = Verdict(approved: bool, who: Text, note: Text, at: int)

  /** What a handler answers its caller. */
  datatype Response =
    | UnknownCase
    | WasRejected(shown: Case)
    | AlreadyExecuted(shown: Case)
    | NotConfirmed(shown: Case)
    | NowExecuted(shown: Case)

  /** Where a handler stands. `seen` is the row its `decide` came back with. */
  datatype Phase =
    | Deciding
    | Reading
    | AtGate(seen: Case)
    | InTurn(seen: Case)
    | Recording(seen: Case, performed: Json)
    | Rereading(seen: Case)
    | Done(response: Response)

  datatype Handler = Handler(id: Text, verdict: Verdict, phase: Phase)

  /** What happened, in order: answers of `decide`, execution turns started, executions recorded. */
  datatype Event =
    | Answered(h: nat, id: Text, recorded: bool, seen: Case)
    | Missing(h: nat, id: Text)
    | TurnStarted(h: nat, id: Text)
    | Confirmed(h: nat, id: Text)

  /** The table is all the program keeps; verdicts and log are history kept for the proofs. */
  datatype State = State(table: Table, verdicts: map<Text, Verdict>, handlers: map<nat, Handler>,
                         arrived: nat, log: seq<Event>)

  const INITIAL: State := State(map[], map[], map[], 0, [])

  datatype Step =
    | OpenCase(c: Case)
    | Arrive(id: Text, verdict: Verdict)
    | Update(h: nat)
    | Select(h: nat)
    | Branch(h: nat)
    | Reply(h: nat, texts: seq<Text>)
    | Record(h: nat, now: int)
    | Reread(h: nat)
    | Crash(h: nat)

  /** What the code needs for a step to be its next one. */
  predicate Possible(s: State, step: Step) {
    match step
    case OpenCase(c) => IsNew(c) && c.proposal.JObject? && c.proposalId !in s.table
    case Arrive(_, _) => true
    case Update(h) => h in s.handlers && s.handlers[h].phase.Deciding?
    case Select(h) => h in s.handlers && s.handlers[h].phase.Reading?
    case Branch(h) => h in s.handlers && s.handlers[h].phase.AtGate?
    case Reply(h, _) => h in s.handlers && s.handlers[h].phase.InTurn? && s.handlers[h].phase.seen.proposal.JObject?
    case Record(h, _) => h in s.handlers && s.handlers[h].phase.Recording?
    case Reread(h) => h in s.handlers && s.handlers[h].phase.Rereading?
    case Crash(h) => h in s.handlers
  }

  /** An id is handed out only after its case is stored, so none is stored while someone is
      already deciding it. */
  predicate FreshId(s: State, step: Step) {
    step.OpenCase? ==> forall h :: h in s.handlers ==> s.handlers[h].id != step.c.proposalId
  }

  predicate Enabled(s: State, step: Step) {
    Possible(s, step) && FreshId(s, step)
  }

  function Moved(s: State, h: nat, phase: Phase): State
    requires h in s.handlers
  {
    s.(handlers := s.handlers[h := s.handlers[h].(phase := phase)])
  }

  function Logged(s: State, e: Event): State {
    s.(log := s.log + [e])
  }

  /** The conditional UPDATE, with its returned row. */
  function AfterUpdate(s: State, h: nat): State
    requires h in s.handlers
  {
    var handler := s.handlers[h];
    var v := handler.verdict;
    if handler.id in s.table && s.table[handler.id].status == Pending then
      var row := Decision(s.table[handler.id], v.approved, v.who, v.note, v.at);
      Logged(Moved(s, h, AtGate(row)), Answered(h, handler.id, true, row))
      .(table := s.table[handler.id := row], verdicts := s.verdicts[handler.id := v])
    else Moved(s, h, Reading)
  }

  /** The read-back. */
  function AfterSelect(s: State, h: nat): State
    requires h in s.handlers
  {
    var id := s.handlers[h].id;
    if id !in s.table then Logged(Moved(s, h, Done(UnknownCase)), Missing(h, id))
    else Logged(Moved(s, h, AtGate(s.table[id])), Answered(h, id, false, s.table[id]))
  }

  /** The branch on the status that was read: only a case not yet closed starts a turn. */
  function AfterBranch(s: State, h: nat): State
    requires h in s.handlers && s.handlers[h].phase.AtGate?
  {
    var seen := s.handlers[h].phase.seen;
    if seen.status == Rejected then Moved(s, h, Done(WasRejected(seen)))
    else if seen.status == Executed || seen.status == Failed then Moved(s, h, Done(AlreadyExecuted(seen)))
    else Logged(Moved(s, h, InTurn(seen)), TurnStarted(h, s.handlers[h].id))
  }

  function AfterReply(s: State, h: nat, texts: seq<Text>): State
    requires h in s.handlers && s.handlers[h].phase.InTurn? && s.handlers[h].phase.seen.proposal.JObject?
  {
    var seen := s.handlers[h].phase.seen;
    match FindExecution(texts, seen.proposal)
    case None => Moved(s, h, Rereading(seen))
    case Some(performed) => Moved(s, h, Recording(seen, performed))
  }

  /** The unconditional UPDATE: it looks at no status. */
  function AfterRecord(s: State, h: nat, now: int): State
    requires h in s.handlers && s.handlers[h].phase.Recording?
  {
    var id := s.handlers[h].id;
    var phase := s.handlers[h].phase;
    if id !in s.table then Moved(s, h, Done(NowExecuted(phase.seen)))
    else
      var row := Closing(s.table[id], true, phase.performed, now);
      Logged(Moved(s, h, Done(NowExecuted(row))), Confirmed(h, id)).(table := s.table[id := row])
  }

  function AfterReread(s: State, h: nat): State
    requires h in s.handlers && s.handlers[h].phase.Rereading?
  {
    var id := s.handlers[h].id;
    Moved(s, h, Done(NotConfirmed(if id in s.table then s.table[id] else s.handlers[h].phase.seen)))
  }

  function Apply(s: State, step: Step): State
    requires Possible(s, step)
  {
    match step
    case OpenCase(c) => s.(table := s.table[c.proposalId := c])
    case Arrive(id, v) => s.(handlers := s.handlers[s.arrived := Handler(id, v, Deciding)], arrived := s.arrived + 1)
    case Update(h) => AfterUpdate(s, h)
    case Select(h) => AfterSelect(s, h)
    case Branch(h) => AfterBranch(s, h)
    case Reply(h, texts) => AfterReply(s, h, texts)
    case Record(h, now) => AfterRecord(s, h, now)
    case Reread(h) => AfterReread(s, h)
    case Crash(h) => s.(handlers := s.handlers - {h})
  }

  /** A run: steps, each enabled where it happens. */
  predicate IsRun(s: State, steps: seq<Step>)
    decreases |steps|
  {
    steps == [] || (Enabled(s, steps[0]) && IsRun(Apply(s, steps[0]), steps[1..]))
  }

  function Final(s: State, steps: seq<Step>): State
    requires IsRun(s, steps)
    decreases |steps|
  {
    if steps == [] then s else Final(Apply(s, steps[0]), steps[1..])
  }

  // --- The invariant ------------------------------------------------------------------------------

  /** The only ways a status moves. */
  predicate StatusLeq(a: Status, b: Status) {
    a == b || (a == Pending && b != Failed) || (a == Approved && b == Executed)
  }

  /** The row carries this decision: who, why and when, under a status the decision allows. */
  predicate Carries(c: Case, v: Verdict) {
    && c.decidedBy == v.who && c.note == v.note && c.decidedAt == Some(v.at)
    && (if v.approved then c.status == Approved || c.status == Executed else c.status == Rejected)
  }

  ghost predicate CaseOk(s: State, id: Text) {
    id in s.table
    && var c := s.table[id];
       && c.proposalId == id && c.proposal.JObject?
       && (c.status == Pending <==> id !in s.verdicts) && (c.status == Pending ==> c.decidedAt == None)
       && (id in s.verdicts ==> Carries(c, s.verdicts[id]))
       && (c.status == Executed ==> c.result.Some? && Confirms(c.result.value, c.proposal) && c.executedAt.Some?)
       && (c.status != Executed ==> c.result == None && c.executedAt == None)
       && c.status != Failed
  }

  /** A row some handler still holds: an earlier state of the same decided case. */
  ghost predicate SeenOk(s: State, id: Text, seen: Case) {
    && id in s.table && CaseOk(s, id) && id in s.verdicts
    && seen.proposal == s.table[id].proposal
    && Carries(seen, s.verdicts[id]) && StatusLeq(seen.status, s.table[id].status)
  }

  ghost predicate HandlerOk(s: State, h: nat) {
    h in s.handlers && h < s.arrived
    && var id := s.handlers[h].id;
       match s.handlers[h].phase
       case Deciding => true
       case Reading => true
       case AtGate(seen) => SeenOk(s, id, seen) && (seen.status == Approved ==> ReadApproved(s.log, h, id))
       case InTurn(seen) => SeenOk(s, id, seen) && seen.status == Approved
       case Recording(seen, performed) =>
         SeenOk(s, id, seen) && seen.status == Approved && Confirms(performed, s.table[id].proposal)
       case Rereading(seen) => SeenOk(s, id, seen) && seen.status == Approved
       case Done(response) => ResponseOk(s, id, response) && (response.UnknownCase? ==> Missing(h, id) in s.log)
  }

  /** What an answer tells its caller is true of the case. */
  ghost predicate ResponseOk(s: State, id: Text, response: Response) {
    match response
    case UnknownCase => true
    case WasRejected(shown) => SeenOk(s, id, shown) && shown.status == Rejected
    case AlreadyExecuted(shown) => SeenOk(s, id, shown) && shown.status == Executed
    case NotConfirmed(shown) => SeenOk(s, id, shown) && shown.status != Rejected
    case NowExecuted(shown) => SeenOk(s, id, shown) && shown.status == Executed
  }

  /** A case is only missing before anyone was answered about it. Every answer logged carries the one
      decision; every turn follows an answer that read the case as approved; after a confirmation every
      answer reads the case as executed. */
  ghost predicate EventOk(s: State, k: nat)
    requires k < |s.log|
  {
    match s.log[k]
    case Answered(h, id, _, seen) =>
      h < s.arrived && SeenOk(s, id, seen)
      && forall j :: 0 <= j < k && s.log[j].Confirmed? && s.log[j].id == id ==> seen.status == Executed
    case Missing(h, id) => h < s.arrived && forall j :: 0 <= j < k && s.log[j].id == id ==> s.log[j].Missing?
    case TurnStarted(h, id) => h < s.arrived && ReadApproved(s.log[..k], h, id)
    case Confirmed(h, id) => CaseOk(s, id) && s.table[id].status == Executed
  }

  ghost predicate ReadApproved(log: seq<Event>, h: nat, id: Text) {
    exists j :: 0 <= j < |log| && log[j].Answered? && log[j].h == h && log[j].id == id && log[j].seen.status == Approved
  }

  ghost predicate Core(s: State) {
    && (forall id :: id in s.table ==> CaseOk(s, id))
    && (forall id :: id in s.verdicts ==> id in s.table)
    && (forall h :: h in s.handlers ==> HandlerOk(s, h))
    && (forall k :: 0 <= k < |s.log| ==> EventOk(s, k))
  }

  /** A handler on its way to the read-back will not find its case pending. */
  ghost predicate ReadingOk(s: State) {
    forall h :: h in s.handlers && s.handlers[h].phase.Reading? && s.handlers[h].id in s.table
      ==> s.table[s.handlers[h].id].status != Pending
  }

  ghost predicate Inv(s: State) {
    Core(s) && ReadingOk(s)
  }

  /** A read-back finds its case still pending: the UPDATE before it missed a case stored since. */
  predicate StaleRead(s: State, step: Step) {
    step.Select? && step.h in s.handlers && s.handlers[step.h].id in s.table
    && s.table[s.handlers[step.h].id].status == Pending
  }

  // --- Every step keeps it ------------------------------------------------------------------------

  /** What a step may do to what others rely on. */
  ghost predicate Grows(s: State, s': State) {
    && s.arrived <= s'.arrived
    && (forall id :: id in s.verdicts ==> id in s'.verdicts && s'.verdicts[id] == s.verdicts[id])
    && (forall id :: id in s.table ==>
          id in s'.table && s'.table[id].proposal == s.table[id].proposal
          && StatusLeq(s.table[id].status, s'.table[id].status))
    && (forall id :: id in s'.table ==> CaseOk(s', id))
  }

  lemma SeenKept(s: State, s': State, id: Text, seen: Case)
    requires Grows(s, s') && SeenOk(s, id, seen)
    ensures SeenOk(s', id, seen)
  {
    hide CaseOk, Carries;
    assert CaseOk(s', id);
  }

  lemma SeenInTable(s: State, id: Text, seen: Case)
    requires SeenOk(s, id, seen)
    ensures id in s.table && id in s.verdicts && seen.proposal == s.table[id].proposal
    ensures StatusLeq(seen.status, s.table[id].status) && seen.status != Pending && seen.status != Failed
  {
  }

  lemma ResponseKept(s: State, s': State, id: Text, response: Response)
    requires Grows(s, s') && ResponseOk(s, id, response)
    ensures ResponseOk(s', id, response)
  {
    hide SeenOk, CaseOk;
    match response
    case UnknownCase =>
    case WasRejected(shown) => SeenKept(s, s', id, shown);
    case AlreadyExecuted(shown) => SeenKept(s, s', id, shown);
    case NotConfirmed(shown) => SeenKept(s, s', id, shown);
    case NowExecuted(shown) => SeenKept(s, s', id, shown);
  }

  lemma EventKept(s: State, s': State, k: nat)
    requires Grows(s, s') && k < |s.log| <= |s'.log| && s'.log[..|s.log|] == s.log && EventOk(s, k)
    ensures EventOk(s', k)
  {
    hide SeenOk, CaseOk, ReadApproved;
    assert s'.log[k] == s.log[k];
    assert s'.log[..k] == s.log[..k];
    match s.log[k]
    case Answered(_, id, _, seen) =>
      SeenKept(s, s', id, seen);
      assert forall j :: 0 <= j < k ==> s'.log[j] == s.log[j];
    case Missing(_, id) => assert forall j :: 0 <= j < k ==> s'.log[j] == s.log[j];
    case Confirmed(_, id) => CaseInTable(s, id);
    case _ =>
  }

  lemma CaseInTable(s: State, id: Text)
    requires CaseOk(s, id)
    ensures id in s.table
  {
  }

  lemma ReadKept(log: seq<Event>, log': seq<Event>, h: nat, id: Text)
    requires |log| <= |log'| && log'[..|log|] == log && ReadApproved(log, h, id)
    ensures ReadApproved(log', h, id)
  {
    var j :| 0 <= j < |log| && log[j].Answered? && log[j].h == h && log[j].id == id && log[j].seen.status == Approved;
    assert log'[j] == log[j];
  }

  lemma HandlerKept(s: State, s': State, h: nat)
    requires Grows(s, s') && HandlerOk(s, h) && |s.log| <= |s'.log| && s'.log[..|s.log|] == s.log
    requires h in s'.handlers && s'.handlers[h] == s.handlers[h]
    ensures HandlerOk(s', h)
  {
    hide SeenOk, Confirms, CaseOk, Carries, ReadApproved;
    var id := s.handlers[h].id;
    match s.handlers[h].phase
    case Deciding =>
    case Reading =>
    case AtGate(seen) =>
      SeenKept(s, s', id, seen);
      if seen.status == Approved { ReadKept(s.log, s'.log, h, id); }
    case InTurn(seen) => SeenKept(s, s', id, seen);
    case Recording(seen, _) =>
      SeenKept(s, s', id, seen);
      SeenInTable(s, id, seen);
    case Rereading(seen) => SeenKept(s, s', id, seen);
    case Done(response) =>
      ResponseKept(s, s', id, response);
      if response.UnknownCase? {
        var k :| 0 <= k < |s.log| && s.log[k] == Missing(h, id);
        assert s'.log[k] == s.log[k];
      }
  }

  /** A step that moves handler `h` (or none), adds at most one event, and only grows the rest. */
  ghost predicate Local(s: State, s': State, h: nat) {
    && Grows(s, s')
    && (forall other :: other in s'.handlers && other != h ==> other in s.handlers && s'.handlers[other] == s.handlers[other])
    && (forall id :: id in s'.verdicts ==> id in s'.table)
    && |s.log| <= |s'.log| <= |s.log| + 1 && s'.log[..|s.log|] == s.log
  }

  lemma LocalKeeps(s: State, s': State, h: nat)
    requires Core(s) && Local(s, s', h)
    requires h in s'.handlers ==> HandlerOk(s', h)
    requires |s'.log| == |s.log| + 1 ==> EventOk(s', |s.log|)
    ensures Core(s')
  {
    hide HandlerOk, CaseOk, EventOk;
    forall other | other in s'.handlers && other != h ensures HandlerOk(s', other) {
      HandlerKept(s, s', other);
    }
    forall k | 0 <= k < |s.log| ensures EventOk(s', k) {
      EventKept(s, s', k);
    }
  }

  /** A case whose row and verdict did not change is as it was. */
  lemma CaseKept(s: State, s': State, id: Text)
    requires CaseOk(s, id) && id in s'.table && s'.table[id] == s.table[id]
    requires (id in s'.verdicts <==> id in s.verdicts) && (id in s.verdicts ==> s'.verdicts[id] == s.verdicts[id])
    ensures CaseOk(s', id)
  {
    hide Confirms, Carries;
  }

  lemma NextHandlerNew(s: State)
    requires Core(s)
    ensures s.arrived !in s.handlers
  {
    hide EventOk, CaseOk, SeenOk, ResponseOk, ReadApproved;
    assert s.arrived in s.handlers ==> HandlerOk(s, s.arrived);
  }

  lemma OpenGrows(s: State, c: Case)
    requires Core(s) && Possible(s, OpenCase(c))
    ensures Grows(s, Apply(s, OpenCase(c)))
  {
    hide HandlerOk, EventOk, CaseOk;
    var s' := Apply(s, OpenCase(c));
    NewCaseOk(s', c.proposalId);
    forall id | id in s'.table ensures CaseOk(s', id) {
      if id in s.table { CaseKept(s, s', id); }
    }
  }

  lemma NewCaseOk(s: State, id: Text)
    requires id in s.table && id !in s.verdicts && IsNew(s.table[id]) && s.table[id].proposal.JObject?
    requires s.table[id].proposalId == id
    ensures CaseOk(s, id)
  {
    hide Confirms, Carries;
  }

  lemma OpenKeeps(s: State, c: Case)
    requires Core(s) && Possible(s, OpenCase(c))
    ensures Core(Apply(s, OpenCase(c)))
  {
    hide EventOk, ReadApproved, HandlerOk, CaseOk, Grows;
    NextHandlerNew(s);
    OpenGrows(s, c);
    LocalKeeps(s, Apply(s, OpenCase(c)), s.arrived);
  }

  lemma SameTableGrows(s: State, s': State)
    requires Core(s) && s'.table == s.table && s'.verdicts == s.verdicts && s'.arrived >= s.arrived
    ensures Grows(s, s')
  {
    hide HandlerOk, EventOk, Confirms;
  }

  lemma ArriveKeeps(s: State, id: Text, v: Verdict)
    requires Core(s)
    ensures Core(Apply(s, Arrive(id, v)))
  {
    hide EventOk, CaseOk, Grows, SeenOk, ResponseOk, ReadApproved;
    NextHandlerNew(s);
    SameTableGrows(s, Apply(s, Arrive(id, v)));
    LocalKeeps(s, Apply(s, Arrive(id, v)), s.arrived);
  }

  lemma AnsweredNow(s: State, h: nat, id: Text, recorded: bool, seen: Case, s': State)
    requires s'.log == s.log + [Answered(h, id, recorded, seen)] && h < s'.arrived && SeenOk(s', id, seen)
    requires forall j :: 0 <= j < |s.log| && s.log[j].Confirmed? && s.log[j].id == id ==> seen.status == Executed
    requires h in s'.handlers && s'.handlers[h].id == id && s'.handlers[h].phase == AtGate(seen)
    ensures EventOk(s', |s.log|) && HandlerOk(s', h)
  {
    hide SeenOk;
    assert s'.log[|s.log|] == Answered(h, id, recorded, seen);
  }

  /** One row moved on, the rest is as it was. */
  lemma RowMoved(s: State, id: Text, s': State)
    requires Core(s) && id in s.table && s'.arrived == s.arrived
    requires s'.table.Keys == s.table.Keys && forall x :: x in s.table && x != id ==> s'.table[x] == s.table[x]
    requires forall x :: x in s.verdicts ==> x in s'.verdicts && s'.verdicts[x] == s.verdicts[x]
    requires forall x :: x in s'.verdicts && x != id ==> x in s.verdicts
    requires CaseOk(s', id) && s'.table[id].proposal == s.table[id].proposal
    requires StatusLeq(s.table[id].status, s'.table[id].status)
    ensures Grows(s, s')
  {
    hide HandlerOk, EventOk, CaseOk;
    forall x | x in s'.table ensures CaseOk(s', x) {
      if x != id { CaseKept(s, s', x); }
    }
  }

  lemma RowDecided(s: State, id: Text, v: Verdict, s': State)
    requires Core(s) && id in s.table && s.table[id].status == Pending
    requires s'.table == s.table[id := Decision(s.table[id], v.approved, v.who, v.note, v.at)]
    requires s'.verdicts == s.verdicts[id := v] && s'.arrived == s.arrived
    ensures Grows(s, s') && SeenOk(s', id, s'.table[id])
  {
    hide HandlerOk, EventOk, Confirms, Grows;
    assert CaseOk(s, id);
    assert CaseOk(s', id);
    hide CaseOk;
    RowMoved(s, id, s');
  }

  lemma UpdateKeeps(s: State, h: nat)
    requires Core(s) && Possible(s, Update(h))
    ensures Core(AfterUpdate(s, h))
  {
    hide ReadApproved, EventOk, SeenOk, CaseOk, Confirms, Carries, Grows;
    assert HandlerOk(s, h);
    var id := s.handlers[h].id;
    var s' := AfterUpdate(s, h);
    if id in s.table && s.table[id].status == Pending {
      RowDecided(s, id, s.handlers[h].verdict, s');
      NoneConfirmed(s, id);
      AnsweredNow(s, h, id, true, s'.table[id], s');
    } else {
      SameTableGrows(s, s');
    }
    LocalKeeps(s, s', h);
  }

  lemma NoneConfirmed(s: State, id: Text)
    requires Core(s) && id in s.table && s.table[id].status != Executed
    ensures forall j :: 0 <= j < |s.log| && s.log[j].Confirmed? ==> s.log[j].id != id
  {
    forall j | 0 <= j < |s.log| && s.log[j].Confirmed? ensures s.log[j].id != id {
      assert EventOk(s, j);
    }
  }

  lemma CurrentSeen(s: State, id: Text)
    requires Core(s) && id in s.table && s.table[id].status != Pending
    ensures SeenOk(s, id, s.table[id])
  {
    hide HandlerOk, EventOk, Confirms;
  }

  lemma SelectKeeps(s: State, h: nat)
    requires Core(s) && Possible(s, Select(h)) && !StaleRead(s, Select(h))
    ensures Core(AfterSelect(s, h))
  {
    hide ReadApproved, EventOk, SeenOk, CaseOk, Confirms, Grows;
    assert HandlerOk(s, h);
    var id := s.handlers[h].id;
    var s' := AfterSelect(s, h);
    SameTableGrows(s, s');
    if id in s.table {
      CurrentSeen(s, id);
      SeenKept(s, s', id, s.table[id]);
      if s.table[id].status != Executed { NoneConfirmed(s, id); }
      AnsweredNow(s, h, id, false, s.table[id], s');
    } else {
      assert s'.log[|s.log|] == Missing(h, id);
      NoneAnswered(s, id);
      assert EventOk(s', |s.log|) by { MissingOk(s', |s.log|); }
    }
    LocalKeeps(s, s', h);
  }

  lemma MissingOk(s: State, k: nat)
    requires k < |s.log| && s.log[k].Missing? && s.log[k].h < s.arrived
    requires forall j :: 0 <= j < k && s.log[j].id == s.log[k].id ==> s.log[j].Missing?
    ensures EventOk(s, k)
  {
  }

  /** No one was answered about a case that is not there. */
  lemma NoneAnswered(s: State, id: Text)
    requires Core(s) && id !in s.table
    ensures forall j :: 0 <= j < |s.log| && s.log[j].id == id ==> s.log[j].Missing?
  {
    hide CaseOk, SeenOk, HandlerOk;
    forall j | 0 <= j < |s.log| && s.log[j].id == id ensures s.log[j].Missing? {
      assert EventOk(s, j);
      match s.log[j]
      case Answered(_, _, _, seen) => SeenInTable(s, id, seen);
      case TurnStarted(h, _) =>
        var i :| 0 <= i < j && s.log[..j][i].Answered? && s.log[..j][i].id == id;
        assert EventOk(s, i) && s.log[..j][i] == s.log[i];
        SeenInTable(s, id, s.log[i].seen);
      case Confirmed(_, _) => CaseInTable(s, id);
      case Missing(_, _) =>
    }
  }

  lemma BranchKeeps(s: State, h: nat)
    requires Core(s) && Possible(s, Branch(h))
    ensures Core(AfterBranch(s, h))
  {
    hide ReadApproved, SeenOk, CaseOk, Confirms, Grows;
    assert HandlerOk(s, h);
    var id := s.handlers[h].id;
    var seen := s.handlers[h].phase.seen;
    var s' := AfterBranch(s, h);
    SameTableGrows(s, s');
    SeenKept(s, s', id, seen);
    SeenInTable(s, id, seen);
    if s'.log != s.log {
      assert s'.log[|s.log|] == TurnStarted(h, id) && s'.log[..|s.log|] == s.log;
    }
    LocalKeeps(s, s', h);
  }

  lemma ReplyKeeps(s: State, h: nat, texts: seq<Text>)
    requires Core(s) && Possible(s, Reply(h, texts))
    ensures Core(AfterReply(s, h, texts))
  {
    hide EventOk, FindExecution, Confirms, SeenOk, CaseOk, Grows;
    assert HandlerOk(s, h);
    var id := s.handlers[h].id;
    var s' := AfterReply(s, h, texts);
    SameTableGrows(s, s');
    SeenKept(s, s', id, s.handlers[h].phase.seen);
    SeenInTable(s, id, s.handlers[h].phase.seen);
    LocalKeeps(s, s', h);
  }

  lemma RowClosed(s: State, id: Text, performed: Json, now: int, s': State)
    requires Core(s) && id in s.verdicts && s.verdicts[id].approved && Confirms(performed, s.table[id].proposal)
    requires s'.table == s.table[id := Closing(s.table[id], true, performed, now)]
    requires s'.verdicts == s.verdicts && s'.arrived == s.arrived
    ensures Grows(s, s') && SeenOk(s', id, s'.table[id]) && s'.table[id].status == Executed
  {
    hide HandlerOk, EventOk, Confirms, Grows;
    assert CaseOk(s, id);
    assert CaseOk(s', id);
    hide CaseOk;
    RowMoved(s, id, s');
  }

  lemma SeenApproved(s: State, id: Text, seen: Case)
    requires SeenOk(s, id, seen) && seen.status == Approved
    ensures s.verdicts[id].approved
  {
  }

  lemma RecordKeeps(s: State, h: nat, now: int)
    requires Core(s) && Possible(s, Record(h, now))
    ensures Core(AfterRecord(s, h, now))
  {
    hide ReadApproved, SeenOk, CaseOk, Confirms, Grows;
    assert HandlerOk(s, h);
    var id := s.handlers[h].id;
    var phase := s.handlers[h].phase;
    var s' := AfterRecord(s, h, now);
    SeenInTable(s, id, phase.seen);
    SeenApproved(s, id, phase.seen);
    RowClosed(s, id, phase.performed, now, s');
    assert s'.log[|s.log|] == Confirmed(h, id);
    assert CaseOk(s', id) by { CaseOfSeen(s', id, s'.table[id]); }
    LocalKeeps(s, s', h);
  }

  lemma CaseOfSeen(s: State, id: Text, seen: Case)
    requires SeenOk(s, id, seen)
    ensures CaseOk(s, id)
  {
  }

  lemma RereadKeeps(s: State, h: nat)
    requires Core(s) && Possible(s, Reread(h))
    ensures Core(AfterReread(s, h))
  {
    hide EventOk, Confirms, CaseOk, SeenOk, Grows;
    assert HandlerOk(s, h);
    var id := s.handlers[h].id;
    var seen := s.handlers[h].phase.seen;
    var s' := AfterReread(s, h);
    SameTableGrows(s, s');
    SeenInTable(s, id, seen);
    CurrentSeen(s, id);
    SeenKept(s, s', id, s.table[id]);
    LocalKeeps(s, s', h);
  }

  lemma CrashKeeps(s: State, h: nat)
    requires Core(s) && Possible(s, Crash(h))
    ensures Core(Apply(s, Crash(h)))
  {
    hide EventOk, HandlerOk, Grows;
    SameTableGrows(s, Apply(s, Crash(h)));
    LocalKeeps(s, Apply(s, Crash(h)), h);
  }

  /** As long as no read-back finds its case pending, every step keeps the core of the invariant. */
  lemma StepKeepsCore(s: State, step: Step)
    requires Core(s) && Possible(s, step) && !StaleRead(s, step)
    ensures Core(Apply(s, step))
  {
    hide Core;
    match step
    case OpenCase(c) => OpenKeeps(s, c);
    case Arrive(id, v) => ArriveKeeps(s, id, v);
    case Update(h) => UpdateKeeps(s, h);
    case Select(h) => SelectKeeps(s, h);
    case Branch(h) => BranchKeeps(s, h);
    case Reply(h, texts) => ReplyKeeps(s, h, texts);
    case Record(h, now) => RecordKeeps(s, h, now);
    case Reread(h) => RereadKeeps(s, h);
    case Crash(h) => CrashKeeps(s, h);
  }

  /** And none does while ids are handed out only once stored. */
  lemma StepKeepsReading(s: State, step: Step)
    requires Inv(s) && Enabled(s, step)
    ensures ReadingOk(Apply(s, step)) && !StaleRead(s, step)
  {
    hide Core, FindExecution;
  }

  lemma StepKeeps(s: State, step: Step)
    requires Inv(s) && Enabled(s, step)
    ensures Inv(Apply(s, step))
  {
    hide Core, ReadingOk, Possible, Apply, FreshId, StaleRead;
    StepKeepsReading(s, step);
    StepKeepsCore(s, step);
  }

  /** Every state of every run satisfies the invariant. */
  lemma {:induction false} RunKeeps(s: State, steps: seq<Step>)
    requires Inv(s) && IsRun(s, steps)
    ensures Inv(Final(s, steps))
    decreases |steps|
  {
    hide Inv, Possible, Apply;
    if steps != [] {
      StepKeeps(s, steps[0]);
      RunKeeps(Apply(s, steps[0]), steps[1..]);
    }
  }
}
