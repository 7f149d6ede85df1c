/** Approval cases as values, and the abstract case table that every store stands for
    (`app/cluster/cases.py`). Clocks are parameters. */
module Cases {
  import opened Texts
  import opened Json

  datatype Status = Pending | Approved | Rejected | Executed | Failed

  datatype DecisionOutcome = Recorded | NotFound | AlreadyDecided

  datatype Case = Case(
    proposalId: Text, caseId: Text, agent: Text, action: Text, summary: Text, proposal: Json,
    status: Status, sessionId: Text, decidedBy: Text, note: Text, result: Option<Json>,
    createdAt: int, decidedAt: Option<int>, executedAt: Option<int>)

  type Table = map<Text, Case>

  /** As `case_from_proposal` builds it: nothing decided, nothing run. */
  predicate IsNew(c: Case) {
    c.status == Pending && c.result == None && c.decidedAt == None && c.executedAt == None
  }

  // --- The operations on the table -----------------------------------------------------

  function Open(table: Table, c: Case): (Table, bool) {
    if c.proposalId in table then (table, false) else (table[c.proposalId := c], true)
  }

  function Lookup(table: Table, id: Text): Option<Case> {
    if id in table then Some(table[id]) else None
  }

  /** A decision written on a case. */
  function Decision(c: Case, approved: bool, who: Text, note: Text, now: int): Case {
    c.(status := if approved then Approved else Rejected, decidedBy := who, note := note, decidedAt := Some(now))
  }

  function Decide(table: Table, id: Text, approved: bool, who: Text, note: Text, now: int)
    : (Table, DecisionOutcome, Option<Case>)
  {
    if id !in table then (table, NotFound, None)
    else if table[id].status != Pending then (table, AlreadyDecided, Some(table[id]))
    else
      var decided := Decision(table[id], approved, who, note, now);
      (table[id := decided], Recorded, Some(decided))
  }

  /** An outcome written on a case: whatever its status was. */
  function Closing(c: Case, succeeded: bool, result: Json, now: int): Case {
    c.(status := if succeeded then Executed else Failed, result := Some(result), executedAt := Some(now))
  }

  function RecordExecution(table: Table, id: Text, succeeded: bool, result: Json, now: int): (Table, Option<Case>) {
    if id !in table then (table, None)
    else
      var closed := Closing(table[id], succeeded, result, now);
      (table[id := closed], Some(closed))
  }

  /** What a decision may not touch: everything a case was opened with. */
  predicate SameOrigin(a: Case, b: Case) {
    && a.proposalId == b.proposalId && a.caseId == b.caseId && a.agent == b.agent && a.action == b.action
    && a.summary == b.summary && a.proposal == b.proposal && a.sessionId == b.sessionId && a.createdAt == b.createdAt
  }

  /** Only the row under this id differs. */
  predicate OnlyRow(before: Table, after: Table, id: Text) {
    after.Keys == before.Keys && forall other :: other in before && other != id ==> after[other] == before[other]
  }

  /** A decision is recorded exactly on a case that is there and pending. The row then says what was decided,
      by whom, why and when, and nothing else moves. Otherwise nothing is written: an id not in the table is not
      found, and a case decided before is shown as it stands. */
  lemma DecideIs(table: Table, id: Text, approved: bool, who: Text, note: Text, now: int)
    ensures var (after, outcome, shown) := Decide(table, id, approved, who, note, now);
            && (outcome == Recorded <==> id in table && table[id].status == Pending)
            && (outcome == NotFound <==> id !in table)
            && (outcome == AlreadyDecided <==> id in table && table[id].status != Pending)
            && (outcome == Recorded ==>
                  && OnlyRow(table, after, id) && SameOrigin(after[id], table[id]) && shown == Some(after[id])
                  && after[id].status == (if approved then Approved else Rejected)
                  && after[id].decidedBy == who && after[id].note == note && after[id].decidedAt == Some(now)
                  && after[id].result == table[id].result && after[id].executedAt == table[id].executedAt)
            && (outcome != Recorded ==> after == table && shown == Lookup(table, id))
  {
    hide SameOrigin, OnlyRow;
    if id in table {
      DecisionKeeps(table[id], approved, who, note, now);
      RowReplaced(table, id, Decision(table[id], approved, who, note, now));
    }
  }

  lemma DecisionKeeps(c: Case, approved: bool, who: Text, note: Text, now: int)
    ensures SameOrigin(Decision(c, approved, who, note, now), c)
  {
  }

  lemma RowReplaced(table: Table, id: Text, row: Case)
    requires id in table
    ensures OnlyRow(table, table[id := row], id)
  {
  }

  /** An outcome is recorded on any case that is there, whatever its status: executed or failed, with the
      result and the time of the recording; who decided and why stay. */
  lemma RecordExecutionIs(table: Table, id: Text, succeeded: bool, result: Json, now: int)
    ensures var (after, shown) := RecordExecution(table, id, succeeded, result, now);
            if id in table then
              && OnlyRow(table, after, id) && SameOrigin(after[id], table[id]) && shown == Some(after[id])
              && after[id].status == (if succeeded then Executed else Failed)
              && after[id].result == Some(result) && after[id].executedAt == Some(now)
              && after[id].decidedBy == table[id].decidedBy && after[id].note == table[id].note
              && after[id].decidedAt == table[id].decidedAt
            else after == table && shown == None
  {
    hide OnlyRow;
    if id in table { RowReplaced(table, id, Closing(table[id], succeeded, result, now)); }
  }

  // --- Listing ------------------------------------------------------------------------------

  ghost predicate DistinctTimes(table: Table) {
    forall i, j :: i in table && j in table && i != j ==> table[i].createdAt != table[j].createdAt
  }

  function WithStatus(table: Table, status: Status): (ids: set<Text>)
    ensures ids <= table.Keys
  {
    set id | id in table && table[id].status == status
  }

  ghost predicate OldestFirst(cs: seq<Case>) {
    forall i, j :: 0 <= i < j < |cs| ==> cs[i].createdAt < cs[j].createdAt
  }

  ghost predicate Under(table: Table, ids: set<Text>, c: Case)
    requires ids <= table.Keys
  {
    exists id :: id in ids && table[id] == c
  }

  /** Exactly the cases under these ids, oldest first. */
  ghost predicate Lists(table: Table, ids: set<Text>, cs: seq<Case>)
    requires ids <= table.Keys
  {
    OldestFirst(cs) && forall c :: c in cs <==> Under(table, ids, c)
  }

  ghost predicate IsListing(table: Table, status: Status, cs: seq<Case>) {
    Lists(table, WithStatus(table, status), cs)
  }

  /** There is only one such list. */
  lemma {:induction false} ListsUnique(table: Table, ids: set<Text>, a: seq<Case>, b: seq<Case>)
    requires ids <= table.Keys && DistinctTimes(table)
    requires Lists(table, ids, a) && Lists(table, ids, b)
    ensures a == b
    decreases |ids|
  {
    if a == [] && b == [] {
    } else {
      FirstAgree(table, ids, a, b);
      assert Under(table, ids, a[0]);
      var id :| id in ids && table[id] == a[0];
      TailLists(table, ids, id, a);
      TailLists(table, ids, id, b);
      ListsUnique(table, ids - {id}, a[1..], b[1..]);
      assert a == [a[0]] + a[1..] && b == [b[0]] + b[1..];
    }
  }

  lemma FirstAgree(table: Table, ids: set<Text>, a: seq<Case>, b: seq<Case>)
    requires ids <= table.Keys && (a != [] || b != [])
    requires Lists(table, ids, a) && Lists(table, ids, b)
    ensures a != [] && b != [] && a[0] == b[0]
  {
    hide Under;
    if a != [] { assert a[0] in b; }
    if b != [] { assert b[0] in a; }
  }

  lemma TailLists(table: Table, ids: set<Text>, id: Text, cs: seq<Case>)
    requires ids <= table.Keys && DistinctTimes(table) && Lists(table, ids, cs)
    requires id in ids && cs != [] && cs[0] == table[id]
    ensures Lists(table, ids - {id}, cs[1..])
  {
    var rest := cs[1..];
    assert cs == [cs[0]] + rest;
    forall c ensures c in rest <==> Under(table, ids - {id}, c) {
      if c in rest {
        var i :| 0 <= i < |rest| && rest[i] == c;
        assert cs[i + 1] == c && cs[0].createdAt < c.createdAt;
        assert Under(table, ids, c);
      }
      if Under(table, ids - {id}, c) {
        assert Under(table, ids, c) && c != cs[0];
      }
    }
    assert forall i :: 0 <= i < |rest| ==> rest[i] == cs[i + 1];
  }

  /** Every case is in the list of its own status and in no other. */
  lemma ListsPartition(table: Table, id: Text, status: Status, cs: seq<Case>)
    requires id in table && DistinctTimes(table) && IsListing(table, status, cs)
    ensures table[id] in cs <==> status == table[id].status
  {
    if status == table[id].status { assert Under(table, WithStatus(table, status), table[id]); }
  }

  // --- Runs of calls --------------------------------------------------------------------------

  datatype Call =
    | OpenCall(c: Case)
    | GetCall(id: Text)
    | ListCall(status: Status)
    | DecideCall(id: Text, approved: bool, who: Text, note: Text, now: int)
    | RecordCall(id: Text, succeeded: bool, result: Json, now: int)

  datatype Answer =
    | Opened(ok: bool)
    | Found(found: Option<Case>)
    | Listed(cases: seq<Case>)
    | Decided(outcome: DecisionOutcome, decided: Option<Case>)

  function After(table: Table, call: Call): Table {
    match call
    case OpenCall(c) => Open(table, c).0
    case DecideCall(id, approved, who, note, now) => Decide(table, id, approved, who, note, now).0
    case RecordCall(id, succeeded, result, now) => RecordExecution(table, id, succeeded, result, now).0
    case _ => table
  }

  ghost predicate Answers(table: Table, call: Call, answer: Answer) {
    match call
    case OpenCall(c) => answer == Opened(Open(table, c).1)
    case GetCall(id) => answer == Found(Lookup(table, id))
    case ListCall(status) => answer.Listed? && IsListing(table, status, answer.cases)
    case DecideCall(id, approved, who, note, now) =>
      var d := Decide(table, id, approved, who, note, now);
      answer == Decided(d.1, d.2)
    case RecordCall(id, succeeded, result, now) =>
      answer == Found(RecordExecution(table, id, succeeded, result, now).1)
  }

  /** A case is opened new, and no two cases were created at the same time. */
  ghost predicate Admissible(table: Table, call: Call) {
    call.OpenCall? ==>
      IsNew(call.c)
      && forall id :: id in table && id != call.c.proposalId ==> table[id].createdAt != call.c.createdAt
  }

  ghost predicate AdmissibleRun(table: Table, calls: seq<Call>)
    decreases |calls|
  {
    calls == [] || (Admissible(table, calls[0]) && AdmissibleRun(After(table, calls[0]), calls[1..]))
  }

  function AfterRun(table: Table, calls: seq<Call>): Table
    decreases |calls|
  {
    if calls == [] then table else AfterRun(After(table, calls[0]), calls[1..])
  }

  ghost predicate AnswersRun(table: Table, calls: seq<Call>, answers: seq<Answer>)
    decreases |calls|
  {
    if calls == [] then answers == []
    else answers != [] && Answers(table, calls[0], answers[0]) && AnswersRun(After(table, calls[0]), calls[1..], answers[1..])
  }

  lemma TimesKept(table: Table, call: Call)
    requires DistinctTimes(table) && Admissible(table, call)
    ensures DistinctTimes(After(table, call))
  {
  }

  /** The table determines every answer, so any two stores that answer by it answer alike. */
  lemma {:induction false} AnswersDetermined(table: Table, calls: seq<Call>, a: seq<Answer>, b: seq<Answer>)
    requires DistinctTimes(table) && AdmissibleRun(table, calls)
    requires AnswersRun(table, calls, a) && AnswersRun(table, calls, b)
    ensures a == b
    decreases |calls|
  {
    hide Lists;
    if calls != [] {
      var call := calls[0];
      if call.ListCall? {
        ListsUnique(table, WithStatus(table, call.status), a[0].cases, b[0].cases);
      }
      TimesKept(table, call);
      AnswersDetermined(After(table, call), calls[1..], a[1..], b[1..]);
      assert a == [a[0]] + a[1..] && b == [b[0]] + b[1..];
    }
  }

  // --- One decision in a run of calls -------------------------------------------------------------

  /** The call decides or closes this case. */
  predicate Touches(call: Call, id: Text) {
    (call.DecideCall? && call.id == id) || (call.RecordCall? && call.id == id)
  }

  predicate Decides(call: Call, id: Text) {
    call.DecideCall? && call.id == id
  }

  lemma CallMoves(table: Table, call: Call, id: Text)
    requires id in table
    ensures id in After(table, call)
    ensures After(table, call)[id].status == Pending <==> table[id].status == Pending && !Touches(call, id)
  {
  }

  /** In any run of calls, a call that decides a case that is there is answered "recorded" exactly when the
      case was pending and no call before this one decided or closed it; else "already decided". */
  lemma {:induction false} RecordedExactly(table: Table, calls: seq<Call>, answers: seq<Answer>, id: Text, k: nat)
    requires AnswersRun(table, calls, answers) && id in table && k < |calls| && Decides(calls[k], id)
    ensures |answers| == |calls| && answers[k].Decided? && answers[k].decided.Some?
    ensures answers[k].outcome == if table[id].status == Pending && (forall i :: 0 <= i < k ==> !Touches(calls[i], id))
                                  then Recorded else AlreadyDecided
    decreases |calls|
  {
    hide IsListing, Admissible;
    AnswersLength(table, calls, answers);
    var call := calls[0];
    if k == 0 {
      DecideIs(table, id, call.approved, call.who, call.note, call.now);
    } else {
      CallMoves(table, call, id);
      RecordedExactly(After(table, call), calls[1..], answers[1..], id, k - 1);
      assert forall i :: 1 <= i < k ==> calls[1..][i - 1] == calls[i];
      assert forall i :: 0 <= i < k - 1 ==> calls[1..][i] == calls[i + 1];
    }
  }

  lemma {:induction false} AnswersLength(table: Table, calls: seq<Call>, answers: seq<Answer>)
    requires AnswersRun(table, calls, answers)
    ensures |answers| == |calls|
    decreases |calls|
  {
    hide Answers, After;
    if calls != [] { AnswersLength(After(table, calls[0]), calls[1..], answers[1..]); }
  }

  /** Of any number of calls that decide one pending case, when none closes it unasked, the first alone is
      answered "recorded". */
  lemma FirstIsRecorded(table: Table, calls: seq<Call>, answers: seq<Answer>, id: Text) returns (k: nat)
    requires AnswersRun(table, calls, answers) && id in table && table[id].status == Pending
    requires (exists i :: 0 <= i < |calls| && Decides(calls[i], id))
    requires forall i :: 0 <= i < |calls| && Touches(calls[i], id) ==> Decides(calls[i], id)
    ensures |answers| == |calls| && k < |calls| && Decides(calls[k], id)
    ensures forall i :: 0 <= i < |calls| && Decides(calls[i], id)
              ==> answers[i].Decided? && answers[i].outcome == if i == k then Recorded else AlreadyDecided
  {
    hide AnswersRun, Touches;
    k := FirstDecision(calls, id);
    assert forall i :: 0 <= i < k ==> !Touches(calls[i], id);
    forall i | 0 <= i < |calls| && Decides(calls[i], id)
      ensures |answers| == |calls| && answers[i].Decided? && answers[i].outcome == if i == k then Recorded else AlreadyDecided
    {
      RecordedExactly(table, calls, answers, id, i);
      if i > k { assert Touches(calls[k], id) by { DecidingTouches(calls[k], id); } }
    }
  }

  lemma DecidingTouches(call: Call, id: Text)
    requires Decides(call, id)
    ensures Touches(call, id)
  {
  }

  lemma {:induction false} FirstDecision(calls: seq<Call>, id: Text) returns (k: nat)
    requires exists i :: 0 <= i < |calls| && Decides(calls[i], id)
    ensures k < |calls| && Decides(calls[k], id) && forall i :: 0 <= i < k ==> !Decides(calls[i], id)
    decreases |calls|
  {
    hide Decides;
    k := 0;
    if !Decides(calls[0], id) {
      var i :| 0 <= i < |calls| && Decides(calls[i], id);
      assert Decides(calls[1..][i - 1], id);
      var n := FirstDecision(calls[1..], id);
      k := n + 1;
      forall i | 0 <= i < k ensures !Decides(calls[i], id) {
        if i > 0 { assert calls[i] == calls[1..][i - 1]; }
      }
    }
  }

  /** Opening adds a case under an id that is not known yet, pending when it is new, and touches no other;
      until then deciding the id finds nothing. */
  lemma OpenIs(table: Table, c: Case, approved: bool, who: Text, note: Text, now: int)
    ensures var (after, ok) := Open(table, c);
            && (ok <==> c.proposalId !in table) && (!ok ==> after == table)
            && (ok ==> after.Keys == table.Keys + {c.proposalId} && after[c.proposalId] == c
                       && forall other :: other in table ==> after[other] == table[other])
            && (ok ==> Decide(table, c.proposalId, approved, who, note, now).1 == NotFound)
            && (ok && IsNew(c) ==> Decide(after, c.proposalId, approved, who, note, now).1 == Recorded)
  {
    DecideIs(table, c.proposalId, approved, who, note, now);
    DecideIs(Open(table, c).0, c.proposalId, approved, who, note, now);
  }
}
