/** What goes wrong without the guard on arrivals: from any reachable state, a call it would hold back
    can record a second execution. */
module Overlapping {
  import opened Texts
  import opened Json
  import opened JsonDecode
  import opened Printing
  import opened RoundTrip
  import opened Scanner
  import opened Contracts
  import opened Replies
  import opened Publishing
  import opened Cases
  import opened Protocol
  import opened Lifecycle
  import opened Driving
  import opened Sequential

  predicate NoArrivals(steps: seq<Step>) {
    forall i :: 0 <= i < |steps| ==> !steps[i].Arrive?
  }

  /** The run leads here, and nobody arrives in it. */
  ghost predicate Leads(s: State, steps: seq<Step>, end: State) {
    IsRun(s, steps) && Final(s, steps) == end && NoArrivals(steps)
  }

  lemma Here(s: State)
    ensures Leads(s, [], s)
  {
  }

  lemma Stepping(s: State, step: Step, rest: seq<Step>, end: State)
    requires Enabled(s, step) && !step.Arrive? && Leads(Apply(s, step), rest, end)
    ensures Leads(s, [step] + rest, end)
  {
    hide Possible, Apply, FreshId;
    assert ([step] + rest)[1..] == rest;
  }

  lemma {:induction false} LeadsOn(s: State, a: seq<Step>, mid: State, b: seq<Step>, end: State)
    requires Leads(s, a, mid) && Leads(mid, b, end)
    ensures Leads(s, a + b, end)
    decreases |a|
  {
    hide Possible, Apply, FreshId;
    if a == [] {
      assert a + b == b;
    } else {
      assert NoArrivals(a[1..]);
      LeadsOn(Apply(s, a[0]), a[1..], mid, b, end);
      Stepping(s, a[0], a[1..] + b, end);
      assert [a[0]] + (a[1..] + b) == a + b;
    }
  }

  /** A run in which nobody arrives meets the guard. */
  lemma {:induction false} NobodyArrives(s: State, steps: seq<Step>)
    requires IsRun(s, steps) && NoArrivals(steps)
    ensures IsSoloRun(s, steps)
    decreases |steps|
  {
    hide Possible, Apply, FreshId;
    if steps != [] {
      assert NoArrivals(steps[1..]);
      NobodyArrives(Apply(s, steps[0]), steps[1..]);
    }
  }

  // --- Up to the recording ----------------------------------------------------------------------------

  /** How many turns the handler has yet to start before it records. */
  function TurnsLeft(s: State, h: nat): nat
    requires h in s.handlers
  {
    if s.handlers[h].phase.InTurn? || s.handlers[h].phase.Recording? then 0 else 1
  }

  /** An approved case, and a handler on it that can still record an execution given this reply. */
  ghost predicate Armed(s: State, h: nat, id: Text, texts: seq<Text>) {
    Inv(s) && Threat(s, h, id) && StatusIs(s, id, Approved) && s.table[id].proposal.JObject?
    && FindExecution(texts, s.table[id].proposal).Some?
  }

  /** Only the handler, and the log by no confirmation, differ. */
  ghost predicate OnlyAdvances(s: State, s': State, h: nat, id: Text) {
    && s'.table == s.table && s'.arrived == s.arrived && h in s.handlers && h in s'.handlers
    && s'.handlers == s.handlers[h := s'.handlers[h]]
    && Count(s'.log, Confirmations, id) == Count(s.log, Confirmations, id)
    && Count(s'.log, Turns, id) + TurnsLeft(s', h) == Count(s.log, Turns, id) + TurnsLeft(s, h)
  }

  lemma ArmedSees(s: State, h: nat, id: Text, texts: seq<Text>)
    requires Armed(s, h, id, texts)
    ensures h in s.handlers && s.handlers[h].id == id
    ensures match s.handlers[h].phase
            case AtGate(seen) => seen.status == Approved
            case InTurn(seen) => seen.proposal == s.table[id].proposal
            case Done(_) => false
            case Rereading(_) => false
            case _ => true
  {
    hide EventOk, CaseOk, ReadApproved, FindExecution, Confirms;
    assert HandlerOk(s, h);
  }

  lemma CountsLogged(log: seq<Event>, e: Event, id: Text)
    ensures Count(log + [e], Confirmations, id) == Count(log, Confirmations, id) + if e.Confirmed? && e.id == id then 1 else 0
    ensures Count(log + [e], Turns, id) == Count(log, Turns, id) + if e.TurnStarted? && e.id == id then 1 else 0
  {
    CountSnoc(log, e, Confirmations, id);
    CountSnoc(log, e, Turns, id);
  }

  /** One step nearer. */
  lemma Advance(s: State, h: nat, id: Text, texts: seq<Text>)
    requires Armed(s, h, id, texts) && !s.handlers[h].phase.Recording?
    ensures !s.handlers[h].phase.Done?
    ensures var step := NextStep(s.handlers[h].phase, h, texts, 0);
            && !step.Arrive? && Enabled(s, step) && Armed(Apply(s, step), h, id, texts)
            && OnlyAdvances(s, Apply(s, step), h, id)
            && Rank(Apply(s, step).handlers[h].phase) < Rank(s.handlers[h].phase)
  {
    hide Core, ReadingOk, FindExecution, Count, Rank;
    ArmedSees(s, h, id, texts);
    var step := NextStep(s.handlers[h].phase, h, texts, 0);
    DriveStep(s, h, texts, 0);
    match s.handlers[h].phase {
      case Deciding =>
      case Reading => CountsLogged(s.log, Answered(h, id, false, s.table[id]), id);
      case AtGate(_) => CountsLogged(s.log, TurnStarted(h, id), id);
      case InTurn(_) =>
    }
  }

  lemma AdvancesOn(s: State, mid: State, end: State, h: nat, id: Text)
    requires OnlyAdvances(s, mid, h, id) && OnlyAdvances(mid, end, h, id)
    ensures OnlyAdvances(s, end, h, id)
  {
    hide Count;
  }

  /** Such a handler can go on by itself until it is about to record. */
  lemma {:induction false} ToRecording(s: State, h: nat, id: Text, texts: seq<Text>) returns (steps: seq<Step>, end: State)
    requires Armed(s, h, id, texts)
    ensures Leads(s, steps, end) && Armed(end, h, id, texts) && OnlyAdvances(s, end, h, id) && end.handlers[h].phase.Recording?
    decreases Rank(s.handlers[h].phase)
  {
    hide Armed, Leads, Possible, Apply, Rank, FreshId, Count;
    assert h in s.handlers by { ArmedSees(s, h, id, texts); }
    if s.handlers[h].phase.Recording? {
      steps, end := [], s;
      Here(s);
    } else {
      Advance(s, h, id, texts);
      var step := NextStep(s.handlers[h].phase, h, texts, 0);
      var rest, e := ToRecording(Apply(s, step), h, id, texts);
      steps, end := [step] + rest, e;
      Stepping(s, step, rest, end);
      AdvancesOn(s, Apply(s, step), end, h, id);
    }
  }

  lemma StaysArmed(s: State, s': State, h: nat, other: nat, id: Text, texts: seq<Text>)
    requires Armed(s, other, id, texts) && Armed(s', h, id, texts) && OnlyAdvances(s, s', h, id) && h != other
    ensures Armed(s', other, id, texts)
  {
    hide Inv, FindExecution, Count;
  }

  lemma RecordNow(s: State, h: nat, id: Text)
    requires Inv(s) && h in s.handlers && s.handlers[h].id == id && s.handlers[h].phase.Recording? && id in s.table
    ensures var s' := Apply(s, Record(h, 0));
            && Enabled(s, Record(h, 0)) && Inv(s') && id in s'.table
            && (forall other :: other != h && other in s.handlers ==> other in s'.handlers && s'.handlers[other] == s.handlers[other])
            && Count(s'.log, Confirmations, id) == Count(s.log, Confirmations, id) + 1
            && Count(s'.log, Turns, id) == Count(s.log, Turns, id)
  {
    hide Core, ReadingOk, Count;
    StepKeeps(s, Record(h, 0));
    CountsLogged(s.log, Confirmed(h, id), id);
  }

  /** Two of them can both record. */
  lemma BothRecord(s: State, a: nat, b: nat, id: Text, texts: seq<Text>) returns (steps: seq<Step>, end: State)
    requires Armed(s, a, id, texts) && Armed(s, b, id, texts) && a != b
    ensures a in s.handlers && b in s.handlers
    ensures Leads(s, steps, end) && Count(end.log, Confirmations, id) == Count(s.log, Confirmations, id) + 2
    ensures Count(end.log, Turns, id) == Count(s.log, Turns, id) + TurnsLeft(s, a) + TurnsLeft(s, b)
  {
    hide Leads, Possible, Apply, FreshId, Count, Inv, FindExecution;
    ArmedSees(s, a, id, texts);
    ArmedSees(s, b, id, texts);
    var first, s1 := ToRecording(s, a, id, texts);
    StaysArmed(s, s1, a, b, id, texts);
    var second, s2 := ToRecording(s1, b, id, texts);
    RecordNow(s2, a, id);
    var s3 := Apply(s2, Record(a, 0));
    RecordNow(s3, b, id);
    end := Apply(s3, Record(b, 0));
    Here(end);
    Stepping(s3, Record(b, 0), [], end);
    Stepping(s2, Record(a, 0), [Record(b, 0)] + [], end);
    var last := [Record(a, 0)] + ([Record(b, 0)] + []);
    LeadsOn(s1, second, s2, last, end);
    LeadsOn(s, first, s1, second + last, end);
    steps := first + (second + last);
  }

  // --- From the arrival ---------------------------------------------------------------------------------

  lemma PendingThreat(s: State, h: nat, id: Text)
    requires Inv(s) && Threat(s, h, id) && StatusIs(s, id, Pending)
    ensures s.handlers[h].phase.Deciding?
  {
    hide EventOk, ReadApproved, Confirms, Carries;
    assert HandlerOk(s, h) && CaseOk(s, id);
  }

  lemma NothingRecorded(s: State, id: Text)
    requires Inv(s) && id in s.table && s.table[id].status != Executed
    ensures Count(s.log, Confirmations, id) == 0
  {
    hide Core, ReadingOk, Count;
    NoneConfirmed(s, id);
    CountNone(s.log, id);
  }

  lemma {:induction false} CountNone(log: seq<Event>, id: Text)
    requires forall j :: 0 <= j < |log| && log[j].Confirmed? ==> log[j].id != id
    ensures Count(log, Confirmations, id) == 0
    decreases |log|
  {
    if log != [] { CountNone(log[..|log| - 1], id); }
  }

  /** An approving decision on a pending case arms its handler and any other about to decide. */
  lemma DecideArms(s: State, a: nat, b: nat, id: Text, texts: seq<Text>)
    requires Inv(s) && StatusIs(s, id, Pending) && s.table[id].proposal.JObject?
    requires FindExecution(texts, s.table[id].proposal).Some? && a != b
    requires a in s.handlers && s.handlers[a].id == id && s.handlers[a].phase.Deciding? && s.handlers[a].verdict.approved
    requires b in s.handlers && s.handlers[b].id == id && s.handlers[b].phase.Deciding?
    ensures var s' := Apply(s, Update(a));
            && Enabled(s, Update(a)) && Armed(s', a, id, texts) && Armed(s', b, id, texts)
            && TurnsLeft(s', a) == 1 && TurnsLeft(s', b) == 1
            && Count(s'.log, Confirmations, id) == Count(s.log, Confirmations, id)
            && Count(s'.log, Turns, id) == Count(s.log, Turns, id)
  {
    hide Core, ReadingOk, FindExecution, Count;
    StepKeeps(s, Update(a));
    var v := s.handlers[a].verdict;
    CountsLogged(s.log, Answered(a, id, true, Decision(s.table[id], v.approved, v.who, v.note, v.at)), id);
  }

  /** Whatever the state: while a case is open and a handler on it can still record an execution, one
      of the two approving what is pending, a call that arrives all the same can make two
      executions of a reply that confirms. */
  lemma ArrivalThenTwice(s: State, id: Text, v: Verdict, h: nat, texts: seq<Text>) returns (rest: seq<Step>, end: State)
    requires Inv(s) && IsOpen(s, id) && Threat(s, h, id)
    requires StatusIs(s, id, Pending) ==> v.approved || s.handlers[h].verdict.approved
    requires s.table[id].proposal.JObject? && FindExecution(texts, s.table[id].proposal).Some?
    ensures h in s.handlers && Leads(Apply(s, Arrive(id, v)), rest, end) && Count(end.log, Confirmations, id) == 2
    ensures Count(end.log, Turns, id) == Count(s.log, Turns, id) + TurnsLeft(s, h) + 1
  {
    hide Leads, FindExecution, Count, Core, ReadingOk;
    var n := s.arrived;
    NextHandlerNew(s);
    NothingRecorded(s, id);
    var s1 := Apply(s, Arrive(id, v));
    StepKeeps(s, Arrive(id, v));
    assert s1.handlers[h] == s.handlers[h] && s1.handlers[n] == Handler(id, v, Deciding);
    if StatusIs(s, id, Approved) {
      rest, end := BothRecord(s1, n, h, id, texts);
    } else {
      PendingThreat(s, h, id);
      var a, b := if v.approved then n else h, if v.approved then h else n;
      DecideArms(s1, a, b, id, texts);
      var steps, e := BothRecord(Apply(s1, Update(a)), a, b, id, texts);
      end := e;
      Stepping(s1, Update(a), steps, end);
      rest := [Update(a)] + steps;
    }
  }

  /** The guard is exact. From a state reached under it, and given a reply that confirms the proposal: a
      call may arrive on an open case if and only if nothing that can follow, itself under the guard,
      records a second execution. */
  lemma ArrivalGuardExact(steps: seq<Step>, id: Text, v: Verdict, texts: seq<Text>)
    requires IsSoloRun(INITIAL, steps) && IsRun(INITIAL, steps)
    requires var s := Final(INITIAL, steps);
             id in s.table && s.table[id].proposal.JObject? && FindExecution(texts, s.table[id].proposal).Some?
    ensures var s := Final(INITIAL, steps); var s1 := Apply(s, Arrive(id, v));
            Alone(s, Arrive(id, v)) <==> forall rest :: AtMostOnce(s1, rest, id)
  {
    hide IsRun, Final, IsSoloRun, FindExecution, Count, Solo, Alone, Leads, Apply, AtMostOnce;
    SoloAtStart(id);
    SoloRunKeeps(INITIAL, steps, id);
    Reached(steps);
    var s := Final(INITIAL, steps);
    var s1 := Apply(s, Arrive(id, v));
    if Alone(s, Arrive(id, v)) {
      StepKeeps(s, Arrive(id, v));
      StepSolo(s, Arrive(id, v), id);
      forall rest ensures AtMostOnce(s1, rest, id) { SoloAtMostOnce(s1, rest, id); }
    } else {
      var h := HeldBack(s, id, v);
      var rest, end := ArrivalThenTwice(s, id, v, h, texts);
      TwiceIsNotOnce(s1, rest, end, id);
    }
  }

  /** If this is a run under the guard, it records the case's execution at most once. */
  ghost predicate AtMostOnce(s: State, rest: seq<Step>, id: Text) {
    IsRun(s, rest) && IsSoloRun(s, rest) ==> Count(Final(s, rest).log, Confirmations, id) <= 1
  }

  lemma SoloAtMostOnce(s: State, rest: seq<Step>, id: Text)
    requires Inv(s) && Solo(s, id)
    ensures AtMostOnce(s, rest, id)
  {
    hide IsRun, Final, IsSoloRun, Inv, Lone, Count;
    if IsRun(s, rest) && IsSoloRun(s, rest) { SoloRunKeeps(s, rest, id); }
  }

  lemma TwiceIsNotOnce(s: State, rest: seq<Step>, end: State, id: Text)
    requires Leads(s, rest, end) && Count(end.log, Confirmations, id) == 2
    ensures !AtMostOnce(s, rest, id)
  {
    hide IsRun, Final, IsSoloRun, Count;
    NobodyArrives(s, rest);
  }

  lemma HeldBack(s: State, id: Text, v: Verdict) returns (h: nat)
    requires !Alone(s, Arrive(id, v))
    ensures IsOpen(s, id) && Threat(s, h, id) && h in s.handlers
    ensures StatusIs(s, id, Pending) ==> v.approved || s.handlers[h].verdict.approved
  {
    h :| Threat(s, h, id) && !(StatusIs(s, id, Pending) && !v.approved && !s.handlers[h].verdict.approved);
  }

  /** Of calls that overlap, then, a retry is not safe: for every new case, every approval and every
      reply that confirms the proposal there is a run in which two turns are started and both
      executions recorded. */
  lemma OverlapConfirmsTwice(c: Case, v: Verdict, texts: seq<Text>) returns (steps: seq<Step>)
    requires IsNew(c) && c.proposal.JObject? && v.approved && FindExecution(texts, c.proposal).Some?
    ensures IsRun(INITIAL, steps)
    ensures var log := Final(INITIAL, steps).log;
            Count(log, Confirmations, c.proposalId) == 2 && Count(log, Turns, c.proposalId) == 2
  {
    hide IsRun, Final, FindExecution, Count;
    var id := c.proposalId;
    var s1 := Apply(INITIAL, OpenCase(c));
    StepKeeps(INITIAL, OpenCase(c));
    var s2 := Apply(s1, Arrive(id, v));
    StepKeeps(s1, Arrive(id, v));
    assert s2.handlers == map[0 := Handler(id, v, Deciding)] && s2.log == [];
    NothingCounted(id);
    var rest, end := ArrivalThenTwice(s2, id, v, 0, texts);
    Arriving(s2, id, v, rest, end);
    Arriving(s1, id, v, [Arrive(id, v)] + rest, end);
    steps := [OpenCase(c)] + ([Arrive(id, v)] + ([Arrive(id, v)] + rest));
    Opening(c, [Arrive(id, v)] + ([Arrive(id, v)] + rest), end);
  }

  lemma Arriving(s: State, id: Text, v: Verdict, rest: seq<Step>, end: State)
    requires IsRun(Apply(s, Arrive(id, v)), rest) && Final(Apply(s, Arrive(id, v)), rest) == end
    ensures IsRun(s, [Arrive(id, v)] + rest) && Final(s, [Arrive(id, v)] + rest) == end
  {
    hide Apply;
    assert ([Arrive(id, v)] + rest)[1..] == rest;
  }

  lemma Opening(c: Case, rest: seq<Step>, end: State)
    requires IsNew(c) && c.proposal.JObject?
    requires IsRun(Apply(INITIAL, OpenCase(c)), rest) && Final(Apply(INITIAL, OpenCase(c)), rest) == end
    ensures IsRun(INITIAL, [OpenCase(c)] + rest) && Final(INITIAL, [OpenCase(c)] + rest) == end
  {
    hide Apply;
    assert ([OpenCase(c)] + rest)[1..] == rest;
  }

  /** Such cases and replies exist: the smallest of each. */
  lemma ConfirmingReplyExists()
    ensures FindExecution([Encode(JObject(map[STATUS := JString(PUBLISHED)]))], JObject(map[])).Some?
  {
    var reply := JObject(map[STATUS := JString(PUBLISHED)]);
    assert NoSplitPair(STATUS) && NoSplitPair(PUBLISHED);
    assert Printable(reply);
    DecodeEncode(reply);
    OneSpan(Encode(reply), reply);
    assert AllObjects([Encode(reply)]) == [reply] by {
      hide ObjectsIn, Encode;
      assert [Encode(reply)][..0] == [];
    }
    hide ObjectsIn, Encode, AllObjects;
    assert Confirms(reply, JObject(map[]));
  }
}
