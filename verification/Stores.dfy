/** The two case stores: one mutates shared case objects in place, one issues SQL statements
    against a keyed table. Each is proved against the abstract table of `Cases`. */
module Stores {
  import opened Texts
  import opened Json
  import opened Cases

  /** A case object as the in-memory store shares it with its callers. */
  class CaseRecord {
    const proposalId: Text
    const caseId: Text
    const agent: Text
    const action: Text
    const summary: Text
    const proposal: Json
    const sessionId: Text
    const createdAt: int
    var status: Status
    var decidedBy: Text
    var note: Text
    var result: Option<Json>
    var decidedAt: Option<int>
    var executedAt: Option<int>

    constructor (c: Case)
      ensures View() == c
    {
      proposalId, caseId, agent, action, summary := c.proposalId, c.caseId, c.agent, c.action, c.summary;
      proposal, sessionId, createdAt := c.proposal, c.sessionId, c.createdAt;
      status, decidedBy, note, result := c.status, c.decidedBy, c.note, c.result;
      decidedAt, executedAt := c.decidedAt, c.executedAt;
    }

    /** The case this object stands for right now. */
    function View(): (c: Case)
      reads this
    {
      Case(proposalId, caseId, agent, action, summary, proposal, status, sessionId, decidedBy, note,
           result, createdAt, decidedAt, executedAt)
    }
  }

  ghost function Views(rs: seq<CaseRecord>): seq<Case>
    reads rs
  {
    seq(|rs|, i requires 0 <= i < |rs| reads rs => rs[i].View())
  }

  class InMemoryCaseStore {
    var cases: map<Text, CaseRecord>
    /** The dict's keys in insertion order. */
    var order: seq<Text>

    ghost predicate Valid()
      reads this, cases.Values
    {
      && (forall id :: id in order <==> id in cases)
      && (forall i, j :: 0 <= i < j < |order| ==> order[i] != order[j])
      && (forall id :: id in cases ==> cases[id].proposalId == id)
    }

    ghost function Table(): (t: Table)
      reads this, cases.Values
    {
      map id | id in cases :: cases[id].View()
    }

    constructor ()
      ensures Valid() && Table() == map[] && cases == map[]
    {
      cases, order := map[], [];
    }

    method Open(c: CaseRecord) returns (ok: bool)
      requires Valid()
      modifies this
      ensures Valid()
      ensures (Table(), ok) == Cases.Open(old(Table()), c.View())
      ensures cases == if ok then old(cases)[c.proposalId := c] else old(cases)
    {
      if c.proposalId in cases {
        return false;
      }
      cases := cases[c.proposalId := c];
      order := order + [c.proposalId];
      assert Table() == old(Table())[c.proposalId := c.View()];
      return true;
    }

    method Get(id: Text) returns (c: CaseRecord?)
      requires Valid()
      ensures if c == null then Lookup(Table(), id) == None else c in cases.Values && Lookup(Table(), id) == Some(c.View())
    {
      c := if id in cases then cases[id] else null;
    }

    method Decide(id: Text, approved: bool, who: Text, note: Text, now: int)
      returns (outcome: DecisionOutcome, c: CaseRecord?)
      requires Valid()
      modifies cases.Values
      ensures Valid() && unchanged(this)
      ensures var d := Cases.Decide(old(Table()), id, approved, who, note, now);
              && Table() == d.0 && outcome == d.1
              && (if c == null then d.2 == None else c in cases.Values && d.2 == Some(c.View()))
    {
      if id !in cases {
        return NotFound, null;
      }
      c := cases[id];
      assert forall other :: other in cases && other != id ==> cases[other] != c;
      if c.status != Pending {
        return AlreadyDecided, c;
      }
      c.status := if approved then Approved else Rejected;
      c.decidedBy := who;
      c.note := note;
      c.decidedAt := Some(now);
      assert Table() == old(Table())[id := c.View()];
      return Recorded, c;
    }

    method RecordExecution(id: Text, succeeded: bool, result: Json, now: int) returns (c: CaseRecord?)
      requires Valid()
      modifies cases.Values
      ensures Valid() && unchanged(this)
      ensures var d := Cases.RecordExecution(old(Table()), id, succeeded, result, now);
              && Table() == d.0
              && (if c == null then d.1 == None else c in cases.Values && d.1 == Some(c.View()))
    {
      if id !in cases {
        return null;
      }
      c := cases[id];
      assert forall other :: other in cases && other != id ==> cases[other] != c;
      c.status := if succeeded then Executed else Failed;
      c.result := Some(result);
      c.executedAt := Some(now);
      assert Table() == old(Table())[id := c.View()];
    }

    /** The generator inside `sorted(...)`: a pass over the dict. */
    method Matching(status: Status) returns (matching: set<Text>)
      requires Valid()
      ensures matching == WithStatus(Table(), status)
    {
      matching := {};
      for n := 0 to |order|
        invariant forall id :: id in matching <==> id in order[..n] && cases[id].status == status
      {
        assert order[..n + 1] == order[..n] + [order[n]];
        if cases[order[n]].status == status {
          matching := matching + {order[n]};
        }
      }
      assert order[..|order|] == order;
    }

    method ListByStatus(status: Status) returns (rs: seq<CaseRecord>)
      requires Valid() && DistinctTimes(Table())
      ensures forall r :: r in rs ==> r in cases.Values
      ensures IsListing(Table(), status, Views(rs))
    {
      var matching := Matching(status);
      var ids := OldestIds(map id | id in cases :: cases[id].createdAt, matching);
      var held := cases;
      assert forall i :: 0 <= i < |ids| ==> ids[i] in held;
      rs := seq(|ids|, i requires 0 <= i < |ids| && ids[i] in held => held[ids[i]]);
      RecordsListed(status, ids, rs);
    }

    lemma RecordsListed(status: Status, ids: seq<Text>, rs: seq<CaseRecord>)
      requires Valid() && |rs| == |ids|
      requires forall id :: id in ids <==> id in WithStatus(Table(), status)
      requires forall i :: 0 <= i < |ids| ==> ids[i] in cases && rs[i] == cases[ids[i]]
      requires forall i, j :: 0 <= i < j < |rs| ==> rs[i].createdAt < rs[j].createdAt
      ensures IsListing(Table(), status, Views(rs))
    {
      hide Lists;
      assert Views(rs) == InOrder(Table(), ids);
      InOrderLists(Table(), WithStatus(Table(), status), ids);
    }
  }

  ghost predicate OldestIdsFirst(times: map<Text, int>, ids: seq<Text>) {
    (forall i :: 0 <= i < |ids| ==> ids[i] in times)
    && forall i, j :: 0 <= i < j < |ids| ==> times[ids[i]] < times[ids[j]]
  }

  /** What sorting on the creation time gives: these ids, oldest first. */
  method OldestIds(times: map<Text, int>, ids: set<Text>) returns (sorted: seq<Text>)
    requires ids <= times.Keys
    requires forall i, j :: i in ids && j in ids && i != j ==> times[i] != times[j]
    ensures OldestIdsFirst(times, sorted)
    ensures forall id :: id in sorted <==> id in ids
  {
    var left := ids;
    sorted := [];
    while left != {}
      invariant left <= ids && OldestIdsFirst(times, sorted)
      invariant forall id :: id in sorted <==> id in ids - left
      invariant forall i, id :: 0 <= i < |sorted| && id in left ==> times[sorted[i]] < times[id]
      decreases |left|
    {
      var id := Earliest(times, left);
      sorted := sorted + [id];
      left := left - {id};
    }
  }

  method Earliest(times: map<Text, int>, ids: set<Text>) returns (first: Text)
    requires ids != {} && ids <= times.Keys
    ensures first in ids && forall other :: other in ids ==> times[first] <= times[other]
  {
    first :| first in ids;
    var left := ids - {first};
    while left != {}
      invariant first in ids && left <= ids
      invariant forall other :: other in ids - left ==> times[first] <= times[other]
      decreases |left|
    {
      var next :| next in left;
      if times[next] < times[first] {
        first := next;
      }
      left := left - {next};
    }
  }

  ghost function InOrder(table: Table, ids: seq<Text>): seq<Case>
    requires forall id :: id in ids ==> id in table
  {
    seq(|ids|, i requires 0 <= i < |ids| => table[ids[i]])
  }

  lemma InOrderLists(table: Table, ids: set<Text>, sorted: seq<Text>)
    requires ids <= table.Keys && (forall id :: id in sorted <==> id in ids)
    requires forall i, j :: 0 <= i < j < |sorted| ==> table[sorted[i]].createdAt < table[sorted[j]].createdAt
    ensures Lists(table, ids, InOrder(table, sorted))
  {
    var cs := InOrder(table, sorted);
    forall c ensures c in cs <==> Under(table, ids, c) {
      if c in cs {
        var i :| 0 <= i < |cs| && cs[i] == c;
        assert sorted[i] in ids && table[sorted[i]] == c;
      }
      if Under(table, ids, c) {
        var id :| id in ids && table[id] == c;
        var i :| 0 <= i < |sorted| && sorted[i] == id;
        assert cs[i] == c;
      }
    }
  }

  /** The SQL store: each statement is one atomic step on the rows. */
  class DatabaseCaseStore {
    var rows: Table

    ghost predicate Valid()
      reads this
    {
      forall id :: id in rows ==> rows[id].proposalId == id
    }

    constructor ()
      ensures Valid() && rows == map[]
    {
      rows := map[];
    }

    /** INSERT names every column but the three outcome columns, which start out null. */
    static function Row(c: Case): Case {
      c.(result := None, decidedAt := None, executedAt := None)
    }

    method Open(c: Case) returns (ok: bool)
      requires Valid()
      modifies this
      ensures Valid()
      ensures (rows, ok) == Cases.Open(old(rows), Row(c))
    {
      if c.proposalId in rows {
        return false;
      }
      rows := rows[c.proposalId := Row(c)];
      return true;
    }

    method Get(id: Text) returns (c: Option<Case>)
      ensures c == Lookup(rows, id)
    {
      c := if id in rows then Some(rows[id]) else None;
    }

    /** UPDATE ... WHERE proposal_id = id AND status = 'pending' ... RETURNING. */
    method UpdatePending(id: Text, approved: bool, who: Text, note: Text, now: int) returns (row: Option<Case>)
      requires Valid()
      modifies this
      ensures Valid()
      ensures if id in old(rows) && old(rows)[id].status == Pending
              then rows == old(rows)[id := Decision(old(rows)[id], approved, who, note, now)] && row == Some(rows[id])
              else rows == old(rows) && row == None
    {
      if id in rows && rows[id].status == Pending {
        rows := rows[id := Decision(rows[id], approved, who, note, now)];
        return Some(rows[id]);
      }
      return None;
    }

    method Decide(id: Text, approved: bool, who: Text, note: Text, now: int)
      returns (outcome: DecisionOutcome, c: Option<Case>)
      requires Valid()
      modifies this
      ensures Valid()
      ensures (rows, outcome, c) == Cases.Decide(old(rows), id, approved, who, note, now)
    {
      var row := UpdatePending(id, approved, who, note, now);
      if row.Some? {
        return Recorded, row;
      }
      var existing := Get(id);
      if existing.None? {
        return NotFound, None;
      }
      return AlreadyDecided, existing;
    }

    method RecordExecution(id: Text, succeeded: bool, result: Json, now: int) returns (c: Option<Case>)
      requires Valid()
      modifies this
      ensures Valid()
      ensures (rows, c) == Cases.RecordExecution(old(rows), id, succeeded, result, now)
    {
      if id !in rows {
        return None;
      }
      rows := rows[id := Closing(rows[id], succeeded, result, now)];
      return Some(rows[id]);
    }

    /** SELECT ... WHERE status = s ORDER BY created_at. */
    method ListByStatus(status: Status) returns (cs: seq<Case>)
      requires Valid() && DistinctTimes(rows)
      ensures IsListing(rows, status, cs)
    {
      var ids := OldestIds(map id | id in rows :: rows[id].createdAt, WithStatus(rows, status));
      cs := seq(|ids|, i requires 0 <= i < |ids| && ids[i] in rows reads this => rows[ids[i]]);
      assert cs == InOrder(rows, ids);
      InOrderLists(rows, WithStatus(rows, status), ids);
    }
  }

  // --- Both stores, call by call -------------------------------------------------------------

  method RunMemory(store: InMemoryCaseStore, calls: seq<Call>) returns (answers: seq<Answer>)
    requires store.Valid() && DistinctTimes(store.Table()) && AdmissibleRun(store.Table(), calls)
    modifies store, store.cases.Values
    ensures store.Valid() && store.Table() == AfterRun(old(store.Table()), calls)
    ensures AnswersRun(old(store.Table()), calls, answers)
    decreases |calls|
  {
    if calls == [] {
      return [];
    }
    var answer := StepMemory(store, calls[0]);
    TimesKept(old(store.Table()), calls[0]);
    var rest := RunMemory(store, calls[1..]);
    answers := [answer] + rest;
  }

  method StepMemory(store: InMemoryCaseStore, call: Call) returns (answer: Answer)
    requires store.Valid() && DistinctTimes(store.Table())
    modifies store, store.cases.Values
    ensures store.Valid() && store.Table() == After(old(store.Table()), call)
    ensures fresh(store.cases.Values - old(store.cases.Values))
    ensures Answers(old(store.Table()), call, answer)
  {
    hide IsListing, DistinctTimes, Cases.Open, Cases.Decide, Cases.RecordExecution, Lookup;
    match call {
      case OpenCall(c) =>
        var record := new CaseRecord(c);
        var ok := store.Open(record);
        answer := Opened(ok);
      case GetCall(id) =>
        var c := store.Get(id);
        answer := Found(if c == null then None else Some(c.View()));
      case ListCall(status) =>
        var rs := store.ListByStatus(status);
        answer := Listed(seq(|rs|, i requires 0 <= i < |rs| reads rs => rs[i].View()));
      case DecideCall(id, approved, who, note, now) =>
        var outcome, c := store.Decide(id, approved, who, note, now);
        answer := Decided(outcome, if c == null then None else Some(c.View()));
      case RecordCall(id, succeeded, result, now) =>
        var c := store.RecordExecution(id, succeeded, result, now);
        answer := Found(if c == null then None else Some(c.View()));
    }
  }

  method RunDatabase(store: DatabaseCaseStore, calls: seq<Call>) returns (answers: seq<Answer>)
    requires store.Valid() && DistinctTimes(store.rows) && AdmissibleRun(store.rows, calls)
    modifies store
    ensures store.Valid() && store.rows == AfterRun(old(store.rows), calls)
    ensures AnswersRun(old(store.rows), calls, answers)
    decreases |calls|
  {
    if calls == [] {
      return [];
    }
    var answer := StepDatabase(store, calls[0]);
    TimesKept(old(store.rows), calls[0]);
    var rest := RunDatabase(store, calls[1..]);
    answers := [answer] + rest;
  }

  method StepDatabase(store: DatabaseCaseStore, call: Call) returns (answer: Answer)
    requires store.Valid() && DistinctTimes(store.rows) && Admissible(store.rows, call)
    modifies store
    ensures store.Valid() && store.rows == After(old(store.rows), call)
    ensures Answers(old(store.rows), call, answer)
  {
    match call {
      case OpenCall(c) =>
        RowOfNew(c);
        var ok := store.Open(c);
        answer := Opened(ok);
      case GetCall(id) =>
        var c := store.Get(id);
        answer := Found(c);
      case ListCall(status) =>
        var cs := store.ListByStatus(status);
        answer := Listed(cs);
      case DecideCall(id, approved, who, note, now) =>
        var outcome, c := store.Decide(id, approved, who, note, now);
        answer := Decided(outcome, c);
      case RecordCall(id, succeeded, result, now) =>
        var c := store.RecordExecution(id, succeeded, result, now);
        answer := Found(c);
    }
  }

  /** The row keeps the whole case exactly when the case has no outcome yet. */
  lemma RowOfNew(c: Case)
    ensures DatabaseCaseStore.Row(c) == c <==> c.result == None && c.decidedAt == None && c.executedAt == None
  {
  }

  /** From empty, any admissible run of calls is answered the same by both, and leaves both
      standing for the same table. */
  method BothAgree(calls: seq<Call>)
    returns (memory: InMemoryCaseStore, database: DatabaseCaseStore, fromMemory: seq<Answer>, fromDatabase: seq<Answer>)
    requires AdmissibleRun(map[], calls)
    ensures fromMemory == fromDatabase
    ensures memory.Table() == database.rows == AfterRun(map[], calls)
  {
    hide AdmissibleRun, AnswersRun, AfterRun;
    memory := new InMemoryCaseStore();
    database := new DatabaseCaseStore();
    fromMemory := RunMemory(memory, calls);
    fromDatabase := RunDatabase(database, calls);
    AnswersDetermined(map[], calls, fromMemory, fromDatabase);
  }
}
