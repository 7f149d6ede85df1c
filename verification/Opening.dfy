/** From a turn's replies to stored cases, and from there to an executed one
    (`app/fast_api_app.py`, `cases_run`; `case_from_proposal` and `execution_instruction` in
    `app/cluster/cases.py`). */
module Opening {
  import opened Texts
  import opened Json
  import opened JsonDecode
  import opened RoundTrip
  import opened Printing
  import opened Reading
  import opened Scanner
  import opened Contracts
  import opened Firsts
  import opened Reporting
  import opened Replies
  import opened Publishing
  import opened Cases
  import opened Stores
  import opened Protocol
  import opened Driving

  // --- A case for a proposal --------------------------------------------------------------------

  /** `not v`. */
  predicate IsFalsy(v: Json) {
    match v
    case JNull => true
    case JBool(b) => !b
    case JInt(n) => n == 0
    case JFloat(lexeme) => FloatNumber(lexeme) == Finite(0.0)
    case JString(s) => s == []
    case JArray(items) => items == []
    case JObject(fields) => fields == map[]
  }

  /** `obj.get(key, "")`. */
  function GetOrBlank(obj: Json, key: Text): Json
    requires obj.JObject?
  {
    if key in obj.fields then obj.fields[key] else JString([])
  }

  /** `str(v)`: a string is itself; the rest is the interpreter's. */
  function Spelled(v: Json, str: Json -> Text): Text {
    if v.JString? then v.s else str(v)
  }

  function CaseFromProposal(found: Json, sessionId: Text, id: Text, now: int, str: Json -> Text): Case
    requires ReportsProposal(found)
  {
    var proposal := Get(found, PROPOSAL);
    var action := if IsFalsy(Get(found, ACTION)) then GetOrBlank(proposal, ACTION) else Get(found, ACTION);
    Case(id, sessionId, Spelled(GetOrBlank(found, AGENT), str), Spelled(action, str), Spelled(GetOrBlank(found, SUMMARY), str),
         proposal, Pending, sessionId, [], [], None, now, None, None)
  }

  lemma FoundReport(texts: seq<Text>)
    ensures forall r :: r in FindProposals(texts) ==> ReportsProposal(r)
  {
    hide ReportsProposal, AllObjects;
    forall r | r in FindProposals(texts) ensures ReportsProposal(r) {
      FirstByMember(Reports(AllObjects(texts)), ProposalKey, r);
    }
  }

  /** The cases a turn raises, each with an id and a time of its own. */
  function Raised(texts: seq<Text>, sessionId: Text, newId: nat -> Text, clock: nat -> int, str: Json -> Text): (cases: seq<Case>)
    ensures |cases| == |FindProposals(texts)|
  {
    FoundReport(texts);
    var found := FindProposals(texts);
    seq(|found|, i requires 0 <= i < |found| => CaseFromProposal(found[i], sessionId, newId(i), clock(i), str))
  }

  // --- Opening them -------------------------------------------------------------------------------

  function OpenAll(table: Table, cases: seq<Case>): (Table, seq<Case>) {
    if cases == [] then (table, [])
    else
      var (before, added) := OpenAll(table, cases[..|cases| - 1]);
      var last := cases[|cases| - 1];
      var (after, ok) := Cases.Open(before, last);
      (after, if ok then added + [last] else added)
  }

  /** `cases_run` after its turn: opens a case for every proposal in the replies and reports those
      it added. */
  method CasesRun(store: DatabaseCaseStore, texts: seq<Text>, sessionId: Text, newId: nat -> Text, clock: nat -> int,
                  str: Json -> Text) returns (added: seq<Case>)
    requires store.Valid()
    modifies store
    ensures store.Valid()
    ensures (store.rows, added) == OpenAll(old(store.rows), Raised(texts, sessionId, newId, clock, str))
  {
    hide ReportsProposal, FindProposals, CaseFromProposal;
    var found := FindProposalsIn(texts);
    FoundReport(texts);
    ghost var cases := Raised(texts, sessionId, newId, clock, str);
    added := [];
    for n := 0 to |found|
      invariant store.Valid() && (store.rows, added) == OpenAll(old(store.rows), cases[..n])
    {
      var c := CaseFromProposal(found[n], sessionId, newId(n), clock(n), str);
      assert cases[..n + 1][..n] == cases[..n] && cases[n] == c;
      NewCase(found[n], sessionId, newId(n), clock(n), str);
      var ok := store.Open(c);
      if ok { added := added + [c]; }
    }
    assert cases[..|cases|] == cases;
  }

  /** A case starts out pending, undecided and not run, and keeps the proposal as reported. */
  lemma NewCase(found: Json, sessionId: Text, id: Text, now: int, str: Json -> Text)
    requires ReportsProposal(found)
    ensures var c := CaseFromProposal(found, sessionId, id, now, str);
            IsNew(c) && c.proposal == Get(found, PROPOSAL) && c.proposal.JObject? && c.proposalId == id
            && DatabaseCaseStore.Row(c) == c
  {
  }

  /** `str(obj.get(key, ""))`: blank when it is missing, itself when it is a string. */
  ghost predicate IsSpelled(obj: Json, key: string, t: Text, str: Json -> Text) {
    obj.JObject?
    && t == if Ascii(key) !in obj.fields then []
            else if obj.fields[Ascii(key)].JString? then obj.fields[Ascii(key)].s
            else str(obj.fields[Ascii(key)])
  }

  /** The case's other fields: the agent and the summary the report names; the action it names, or where that
      is missing, null, false, zero or empty, the one its proposal names; the session for its wider unit of
      work; and no decider or note yet. */
  lemma CaseFields(found: Json, sessionId: Text, id: Text, now: int, str: Json -> Text)
    requires ReportsProposal(found)
    ensures var c := CaseFromProposal(found, sessionId, id, now, str);
            && IsSpelled(found, "agent", c.agent, str) && IsSpelled(found, "summary", c.summary, str)
            && (if Ascii("action") in found.fields && !IsFalsy(found.fields[Ascii("action")])
                then IsSpelled(found, "action", c.action, str)
                else IsSpelled(found.fields[Ascii("proposal")], "action", c.action, str))
            && c.proposalId == id && c.sessionId == sessionId && c.caseId == sessionId && c.createdAt == now
            && c.decidedBy == [] && c.note == []
  {
    hide Ascii, IsFalsy;
    assert IsFalsy(JNull) by { NullFalsy(); }
  }

  lemma NullFalsy()
    ensures IsFalsy(JNull)
  {
  }

  /** The case of a call of the gated action: its action, and the summary its answer gave. */
  lemma CaseOfReply(call: PublishCall, spelling: Spelling, sessionId: Text, id: Text, now: int, str: Json -> Text)
    requires !HasApprover(call)
    ensures ReportsProposal(ReplyTo(call, spelling))
    ensures var c := CaseFromProposal(ReplyTo(call, spelling), sessionId, id, now, str);
            && c.proposal == ProposalOf(call, spelling) && c.action == Ascii("publish_result") && c.agent == []
            && c.summary == Summary(CanonicalValue(call.value, spelling.float), call.tag, spelling.repr)
  {
    hide Ascii, CanonicalValue, Summary, Strip;
    var value := CanonicalValue(call.value, spelling.float);
    KeysDiffer();
    AgentDiffers();
    ProposedReplyFields(value, call.tag, Summary(value, call.tag, spelling.repr));
    ProposedFields(value, call.tag, Summary(value, call.tag, spelling.repr));
    ActionNotBlank();
  }

  lemma AgentDiffers()
    ensures AGENT !in {STATUS, ACTION, PROPOSAL, SUMMARY}
  {
    assert AGENT[0] != STATUS[0] && AGENT[1] != ACTION[1] && AGENT[0] != PROPOSAL[0] && AGENT[0] != SUMMARY[0];
  }

  lemma ActionNotBlank()
    ensures PUBLISH_ACTION != []
  {
  }

  /** Python's false values: null, False, every spelling of zero, and what is empty. */
  lemma FalsyIs(v: Json)
    requires IsGoodScalar(v)
    ensures IsFalsy(v) <==> v == JNull || Amounts(v, 0.0) || v == JString([]) || v == JArray([]) || v == JObject(map[])
  {
    hide FloatNumber, Amounts;
    AmountIs(v, 0.0);
  }

  predicate DistinctIds(cases: seq<Case>) {
    forall i, j :: 0 <= i < j < |cases| ==> cases[i].proposalId != cases[j].proposalId
  }

  predicate HasId(cases: seq<Case>, id: Text) {
    exists i :: 0 <= i < |cases| && cases[i].proposalId == id
  }

  lemma HasIdSnoc(cases: seq<Case>, c: Case, id: Text)
    ensures HasId(cases + [c], id) <==> HasId(cases, id) || c.proposalId == id
  {
    var all := cases + [c];
    if i :| 0 <= i < |cases| && cases[i].proposalId == id { assert all[i].proposalId == id; }
    if c.proposalId == id { assert all[|cases|].proposalId == id; }
  }

  /** Ids that are new open every case, under the id it was given, and touch no other row. */
  lemma {:induction false} FreshIdsOpenAll(table: Table, cases: seq<Case>)
    requires DistinctIds(cases) && forall i :: 0 <= i < |cases| ==> cases[i].proposalId !in table
    ensures var (after, added) := OpenAll(table, cases);
            && added == cases
            && (forall i :: 0 <= i < |cases| ==> cases[i].proposalId in after && after[cases[i].proposalId] == cases[i])
            && (forall id :: id in after <==> id in table || HasId(cases, id))
            && (forall id :: id in table ==> after[id] == table[id])
    decreases |cases|
  {
    hide HasId;
    if cases == [] {
      forall id ensures !HasId(cases, id) { NoIds(id); }
    } else {
      var n := |cases| - 1;
      var before, last := cases[..n], cases[n];
      FreshIdsOpenAll(table, before);
      assert cases == before + [last];
      forall id ensures HasId(cases, id) <==> HasId(before, id) || last.proposalId == id { HasIdSnoc(before, last, id); }
      assert !HasId(before, last.proposalId) by { IdsApart(cases); }
    }
  }

  lemma NoIds(id: Text)
    ensures !HasId([], id)
  {
  }

  lemma IdsApart(cases: seq<Case>)
    requires DistinctIds(cases) && cases != []
    ensures !HasId(cases[..|cases| - 1], cases[|cases| - 1].proposalId)
  {
  }

  lemma LastOpened(table: Table, cases: seq<Case>, c: Case)
    ensures var (before, added) := OpenAll(table, cases);
            OpenAll(table, cases + [c])
            == if c.proposalId in before then (before, added) else (before[c.proposalId := c], added + [c])
    ensures OpenAll(table, []) == (table, [])
  {
    assert (cases + [c])[..|cases|] == cases;
  }

  /** Two lists are opened one after the other, and one case exactly when its id is not known yet. */
  lemma {:induction false} OpenedInOrder(table: Table, a: seq<Case>, b: seq<Case>, c: Case)
    ensures var (middle, before) := OpenAll(table, a); var (after, added) := OpenAll(middle, b);
            OpenAll(table, a + b) == (after, before + added)
    ensures OpenAll(table, [c]) == if c.proposalId in table then (table, []) else (table[c.proposalId := c], [c])
    decreases |b|
  {
    hide OpenAll;
    var (middle, before) := OpenAll(table, a);
    LastOpened(table, [], c);
    assert [] + [c] == [c];
    LastOpened(middle, [], c);
    if b == [] {
      assert a + b == a && before + [] == before;
    } else {
      var rest, last := b[..|b| - 1], b[|b| - 1];
      OpenedInOrder(table, a, rest, c);
      LastOpened(middle, rest, last);
      LastOpened(table, a + rest, last);
      assert b == rest + [last] && a + b == (a + rest) + [last];
      assert before + (OpenAll(middle, rest).1 + [last]) == (before + OpenAll(middle, rest).1) + [last];
    }
  }

  /** Proposals read from replies that are whole text print as they are. */
  lemma RaisedPrintable(texts: seq<Text>, sessionId: Text, newId: nat -> Text, clock: nat -> int, str: Json -> Text)
    requires forall t :: t in texts ==> IsWhole(t)
    ensures forall c :: c in Raised(texts, sessionId, newId, clock, str) ==> Printable(c.proposal)
  {
    hide IsWhole, Printable, AllObjects, FindProposals, ReportsProposal, CaseFromProposal;
    var cases := Raised(texts, sessionId, newId, clock, str);
    var found := FindProposals(texts);
    FoundReport(texts);
    forall i | 0 <= i < |cases| ensures Printable(cases[i].proposal) {
      FoundPrintable(texts, found[i]);
      NewCase(found[i], sessionId, newId(i), clock(i), str);
    }
  }

  lemma FoundPrintable(texts: seq<Text>, r: Json)
    requires (forall t :: t in texts ==> IsWhole(t)) && r in FindProposals(texts) && ReportsProposal(r)
    ensures Printable(Get(r, PROPOSAL))
  {
    hide IsWhole, AllObjects, ObjectsIn, Ascii, NoSplitPair;
    FirstByMember(Reports(AllObjects(texts)), ProposalKey, r);
    var t := TextOf(texts, r);
    FoundReprints(t, r);
  }

  // --- From a proposal to its execution ---------------------------------------------------------------

  /** The whole way of a proposal. A call of the gated action without an approver proposes. Whatever reply
      its answer can be read from, and however the reply is wrapped, what it proposes, its value in
      canonical spelling, is stored as a pending case. Approving the case then executes it exactly when
      the publications in the execution turn's replies are of a call that carries it out: one with an
      approver, the same canonical value and the same label. Otherwise the case stands approved, and no
      other row changes either way. Where the words may hold publications of their own, it is enough that
      the answer of such a call can be read. */
  lemma ProposedThenExecuted(
      table: Table, proposed: PublishCall, spelling: Spelling, body: Text, responses: seq<Payload>, response: Payload,
      parts: seq<Text>, dumps: Payload -> Text, sessionId: Text, newId: nat -> Text, clock: nat -> int,
      str: Json -> Text)
    returns (id: Text)
    requires ObjectProposals(table)
    requires !HasApprover(proposed) && Printable(ProposalOf(proposed, spelling))
    requires ReplyTo(proposed, spelling) in ObjectsIn(body)
    requires response in responses && Holds(response, body)
    requires var cases := Raised(ReplyTexts(responses, parts, dumps), sessionId, newId, clock, str);
             DistinctIds(cases) && (forall i :: 0 <= i < |cases| ==> cases[i].proposalId !in table && Printable(cases[i].proposal))
    ensures var after := OpenAll(table, Raised(ReplyTexts(responses, parts, dumps), sessionId, newId, clock, str)).0;
            && ObjectProposals(after) && (forall other :: other in table ==> other in after && after[other] == table[other])
            && id !in table && id in after && after[id].status == Pending && after[id].proposal == ProposalOf(proposed, spelling)
            && after[id].proposalId == id && after[id].sessionId == sessionId
            && (exists n: nat :: n < |FindProposals(ReplyTexts(responses, parts, dumps))| && id == newId(n)
                                 && after[id].createdAt == clock(n))
            && (forall texts, calls, v: Verdict, now :: ReportsCalls(texts, calls, spelling) && v.approved
                  ==> if Carried(calls, proposed, spelling) then ExecutedBy(after, id, v, texts, now)
                      else UnconfirmedBy(after, id, v, texts, now))
            && (forall texts, call, v: Verdict, now ::
                  ReplyTo(call, spelling) in AllObjects(texts) && CarriesOut(call, proposed, spelling) && v.approved
                  ==> ExecutedBy(after, id, v, texts, now))
  {
    hide ProposalKey, Printable, FindProposals, ReplyTexts, Holds, Driving.Call, Encode, AllObjects, ObjectsIn,
      ExecutedBy, UnconfirmedBy, Carried, CarriesOut, ReportsCalls, ProposalOf, ReplyTo, OpenAll, CaseFromProposal,
      ReportsProposal, Get, HasApprover;
    var texts := ReplyTexts(responses, parts, dumps);
    var cases := Raised(texts, sessionId, newId, clock, str);
    var n := ProposalRaised(proposed, spelling, body, responses, response, parts, dumps);
    var obj := FindProposals(texts)[n];
    FoundReport(texts);
    NewCase(obj, sessionId, newId(n), clock(n), str);
    assert cases[n].proposal == Get(obj, PROPOSAL) && Printable(Get(obj, PROPOSAL));
    assert cases[n].sessionId == sessionId && cases[n].createdAt == clock(n)
      by { CaseFields(obj, sessionId, newId(n), clock(n), str); }
    id := cases[n].proposalId;
    FreshIdsOpenAll(table, cases);
    var after := OpenAll(table, cases).0;
    OpenedProposals(table, texts, sessionId, newId, clock, str);
    forall texts, calls, v: Verdict, now | ReportsCalls(texts, calls, spelling) && v.approved
      ensures if Carried(calls, proposed, spelling) then ExecutedBy(after, id, v, texts, now)
              else UnconfirmedBy(after, id, v, texts, now)
    {
      ApprovalSettles(after, id, proposed, spelling, texts, calls, v, now);
    }
    forall texts, call, v: Verdict, now |
      ReplyTo(call, spelling) in AllObjects(texts) && CarriesOut(call, proposed, spelling) && v.approved
      ensures ExecutedBy(after, id, v, texts, now)
    {
      ApprovalExecutes(after, id, proposed, spelling, texts, call, v, now);
    }
  }

  /** The proposal is among those found, as it was proposed. */
  lemma ProposalRaised(proposed: PublishCall, spelling: Spelling, body: Text, responses: seq<Payload>, response: Payload,
                       parts: seq<Text>, dumps: Payload -> Text) returns (n: nat)
    requires !HasApprover(proposed) && Printable(ProposalOf(proposed, spelling))
    requires ReplyTo(proposed, spelling) in ObjectsIn(body)
    requires response in responses && Holds(response, body)
    ensures var found := FindProposals(ReplyTexts(responses, parts, dumps));
            n < |found| && found[n].JObject?
            && (Printable(Get(found[n], PROPOSAL)) ==> Get(found[n], PROPOSAL) == ProposalOf(proposed, spelling))
  {
    hide ProposalKey, Printable, FindProposals, ReplyTexts, Holds, Encode, ReplyTo, ProposalOf, Get, ObjectsIn,
      HasApprover, CanonicalValue, Summary, ProposedReply, Proposal;
    var value := CanonicalValue(proposed.value, spelling.float);
    var texts := ReplyTexts(responses, parts, dumps);
    ReplyProposes(proposed, spelling);
    ProposalFoundIn(body, value, proposed.tag, Summary(value, proposed.tag, spelling.repr), responses, response, parts, dumps);
    FoundReport(texts);
    var found := FindProposals(texts);
    n :| 0 <= n < |found| && ProposalKey(found[n]) == Encode(Proposal(value, proposed.tag)) && ReportsProposal(found[n])
         && (Printable(Get(found[n], PROPOSAL)) ==> Get(found[n], PROPOSAL) == Proposal(value, proposed.tag));
  }

  lemma ReplyProposes(call: PublishCall, spelling: Spelling)
    requires !HasApprover(call)
    ensures var value := CanonicalValue(call.value, spelling.float);
            && ReplyTo(call, spelling) == ProposedReply(value, call.tag, Summary(value, call.tag, spelling.repr))
            && ProposalOf(call, spelling) == Proposal(value, call.tag)
  {
    hide CanonicalValue, ProposedReply, Proposal, Summary, HasApprover;
  }

  lemma OpenedProposals(table: Table, texts: seq<Text>, sessionId: Text, newId: nat -> Text, clock: nat -> int, str: Json -> Text)
    requires ObjectProposals(table)
    requires var cases := Raised(texts, sessionId, newId, clock, str);
             DistinctIds(cases) && forall i :: 0 <= i < |cases| ==> cases[i].proposalId !in table
    ensures ObjectProposals(OpenAll(table, Raised(texts, sessionId, newId, clock, str)).0)
  {
    hide FindProposals, ReportsProposal, CaseFromProposal, OpenAll;
    var cases := Raised(texts, sessionId, newId, clock, str);
    FreshIdsOpenAll(table, cases);
    FoundReport(texts);
    forall i | 0 <= i < |cases| ensures cases[i].proposal.JObject? {
      NewCase(FindProposals(texts)[i], sessionId, newId(i), clock(i), str);
    }
  }

  /** One of the calls carries the proposal out. */
  predicate Carried(calls: seq<PublishCall>, proposed: PublishCall, spelling: Spelling) {
    exists k :: 0 <= k < |calls| && CarriesOut(calls[k], proposed, spelling)
  }

  /** One call that decides the case so, with this reply, executes it. */
  ghost predicate ExecutedBy(table: Table, id: Text, v: Verdict, texts: seq<Text>, now: int)
    requires ObjectProposals(table)
  {
    var (after, response) := Driving.Call(table, id, v, texts, now);
    && response.NowExecuted? && id in after && after[id].status == Executed && after[id].decidedBy == v.who
    && after[id].result.Some? && after[id].proposal.JObject? && Confirms(after[id].result.value, after[id].proposal)
    && after == table[id := after[id]]
  }

  /** The call leaves it approved, with the decision on its row, and answers that nothing was confirmed. */
  ghost predicate UnconfirmedBy(table: Table, id: Text, v: Verdict, texts: seq<Text>, now: int)
    requires ObjectProposals(table)
  {
    var (after, response) := Driving.Call(table, id, v, texts, now);
    && id in table && after == table[id := Decision(table[id], true, v.who, v.note, v.at)]
    && after[id].status == Approved && after[id].result == table[id].result && response == NotConfirmed(after[id])
  }

  lemma CallSettles(table: Table, id: Text, v: Verdict, texts: seq<Text>, now: int)
    requires ObjectProposals(table) && id in table && table[id].status == Pending && v.approved
    ensures if FindExecution(texts, table[id].proposal).Some? then ExecutedBy(table, id, v, texts, now)
            else UnconfirmedBy(table, id, v, texts, now)
  {
    hide FindExecution, Confirms;
  }

  lemma ApprovalSettles(table: Table, id: Text, proposed: PublishCall, spelling: Spelling, texts: seq<Text>,
                        calls: seq<PublishCall>, v: Verdict, now: int)
    requires ObjectProposals(table) && id in table && table[id].status == Pending && v.approved
    requires table[id].proposal == ProposalOf(proposed, spelling) && ReportsCalls(texts, calls, spelling)
    ensures if Carried(calls, proposed, spelling) then ExecutedBy(table, id, v, texts, now)
            else UnconfirmedBy(table, id, v, texts, now)
  {
    hide ReportsCalls, ProposalOf, FindExecution, CarriesOut, ExecutedBy, UnconfirmedBy;
    OnlyTheApprovedConfirms(texts, calls, proposed, spelling);
    CallSettles(table, id, v, texts, now);
  }

  lemma ApprovalExecutes(table: Table, id: Text, proposed: PublishCall, spelling: Spelling, texts: seq<Text>,
                         call: PublishCall, v: Verdict, now: int)
    requires ObjectProposals(table) && id in table && table[id].status == Pending && v.approved
    requires table[id].proposal == ProposalOf(proposed, spelling)
    requires ReplyTo(call, spelling) in AllObjects(texts) && CarriesOut(call, proposed, spelling)
    ensures ExecutedBy(table, id, v, texts, now)
  {
    hide ProposalOf, Confirms, CarriesOut, ReplyTo, AllObjects, FirstConfirming, ExecutedBy, UnconfirmedBy;
    ReplyConfirms(call, proposed, spelling);
    CallSettles(table, id, v, texts, now);
  }

  // --- The instruction for the execution turn ----------------------------------------------------------------

  const APPROVED_TEXT: Text := Ascii("A human has APPROVED ") + Ascii("this proposal from ") + Ascii("the '")
  const SPECIALIST_TEXT: Text := Ascii("' specialist:") + [NEWLINE]
  const BY_TEXT: Text := [NEWLINE] + Ascii("Approved by: ")
  const UNKNOWN: Text := Ascii("unknown")
  const NOTED_TEXT: Text := [NEWLINE] + Ascii("The approver noted: ")
  const REQUEST_LINE: Text := Ascii("Send the specialist the SAME request that produced this proposal, ")
    + Ascii("with `approved_by` set to the approver above and `decision_note` set to their note. ")
    + Ascii("Do not change any other field. Then report what the specialist returned.")

  const REQUEST_TEXT: Text := [NEWLINE, NEWLINE] + REQUEST_LINE

  function ExecutionInstruction(c: Case): Text {
    (APPROVED_TEXT + c.agent + SPECIALIST_TEXT)
    + (Encode(c.proposal)
       + (BY_TEXT + (if c.decidedBy == [] then UNKNOWN else c.decidedBy)
          + (if c.note == [] then [] else NOTED_TEXT + c.note) + REQUEST_TEXT))
  }

  /** The proposal stands in the instruction to the letter: read as the program reads replies, it is
      the first object there, whatever the approver's name and note hold. */
  lemma InstructionCarriesProposal(c: Case)
    requires c.proposal.JObject? && Printable(c.proposal) && LBRACE !in c.agent
    ensures ObjectsIn(ExecutionInstruction(c)) != [] && ObjectsIn(ExecutionInstruction(c))[0] == c.proposal
  {
    hide Encode, Printable;
    FramesHaveNoBrace();
    FirstObject(APPROVED_TEXT + c.agent + SPECIALIST_TEXT, c.proposal,
                BY_TEXT + (if c.decidedBy == [] then UNKNOWN else c.decidedBy)
                + (if c.note == [] then [] else NOTED_TEXT + c.note) + REQUEST_TEXT);
  }

  lemma FramesHaveNoBrace()
    ensures LBRACE !in APPROVED_TEXT && LBRACE !in SPECIALIST_TEXT
  {
    NoBrace("A human has APPROVED ");
    NoBrace("this proposal from ");
    NoBrace("the '");
    NoBrace("' specialist:");
  }

  lemma NoBrace(s: string)
    requires '{' !in s
    ensures LBRACE !in Ascii(s)
  {
  }

  /** The lines of the instruction: who proposed, the proposal alone on its line, who approved, their note when
      there is one, and after a blank line what is asked. */
  lemma InstructionLines(c: Case)
    requires HasFloats(c.proposal) && NEWLINE !in c.agent && NEWLINE !in c.decidedBy && NEWLINE !in c.note
    ensures Split(ExecutionInstruction(c), NEWLINE)
         == [APPROVED_TEXT + c.agent + Ascii("' specialist:"), Encode(c.proposal),
             Ascii("Approved by: ") + (if c.decidedBy == [] then Ascii("unknown") else c.decidedBy)]
            + (if c.note == [] then [] else [Ascii("The approver noted: ") + c.note])
            + ([[]] + Split(REQUEST_LINE, NEWLINE))
  {
    hide Encode, Ascii, Split, HasFloats;
    var head := APPROVED_TEXT + c.agent + Ascii("' specialist:");
    var who := Ascii("Approved by: ") + (if c.decidedBy == [] then Ascii("unknown") else c.decidedBy);
    var noted := if c.note == [] then [] else Ascii("The approver noted: ") + c.note;
    FramesHaveNoBreak();
    EncodePlain(c.proposal);
    PlainLine(Encode(c.proposal));
    InstructionFramed(c, head, who, noted);
    SplitLines(head, Encode(c.proposal), who, noted, REQUEST_LINE);
    assert c.note != [] ==> noted[|noted| - 1] == c.note[|c.note| - 1];
  }

  function Asked(noted: Text, request: Text): Text {
    if noted == [] then [NEWLINE] + request else noted + [NEWLINE] + ([NEWLINE] + request)
  }

  function Framed(head: Text, printed: Text, who: Text, noted: Text, request: Text): Text {
    head + [NEWLINE] + (printed + [NEWLINE] + (who + [NEWLINE] + Asked(noted, request)))
  }

  lemma InstructionFramed(c: Case, head: Text, who: Text, noted: Text)
    requires head == APPROVED_TEXT + c.agent + Ascii("' specialist:")
    requires who == Ascii("Approved by: ") + (if c.decidedBy == [] then Ascii("unknown") else c.decidedBy)
    requires noted == if c.note == [] then [] else Ascii("The approver noted: ") + c.note
    ensures ExecutionInstruction(c) == Framed(head, Encode(c.proposal), who, noted, REQUEST_LINE)
  {
    hide Encode, Ascii;
    if c.note != [] {
      assert |noted| > 0;
      assert NOTED_TEXT + c.note == [NEWLINE] + noted;
    }
    var name := if c.decidedBy == [] then UNKNOWN else c.decidedBy;
    assert BY_TEXT + name == [NEWLINE] + who;
    assert APPROVED_TEXT + c.agent + SPECIALIST_TEXT == head + [NEWLINE];
    FramesMeet(head, Encode(c.proposal), who, noted, REQUEST_LINE);
  }

  lemma FramesMeet(head: Text, printed: Text, who: Text, noted: Text, request: Text)
    ensures (head + [NEWLINE])
            + (printed + ([NEWLINE] + who + (if noted == [] then [] else [NEWLINE] + noted) + ([NEWLINE, NEWLINE] + request)))
         == Framed(head, printed, who, noted, request)
  {
  }

  lemma SplitLines(head: Text, printed: Text, who: Text, noted: Text, request: Text)
    requires NEWLINE !in head && NEWLINE !in printed && NEWLINE !in who && NEWLINE !in noted
    ensures Split(Framed(head, printed, who, noted, request), NEWLINE)
         == [head, printed, who] + (if noted == [] then [] else [noted]) + ([[]] + Split(request, NEWLINE))
  {
    hide Split, Asked;
    var last := Asked(noted, request);
    var end := Split(last, NEWLINE);
    AskedLines(noted, request);
    SplitPrefix(who, last, NEWLINE);
    SplitPrefix(printed, who + [NEWLINE] + last, NEWLINE);
    SplitPrefix(head, printed + [NEWLINE] + (who + [NEWLINE] + last), NEWLINE);
    assert [head] + ([printed] + ([who] + end)) == [head, printed, who] + end;
    assert [head, printed, who] + ((if noted == [] then [] else [noted]) + ([[]] + Split(request, NEWLINE)))
        == [head, printed, who] + (if noted == [] then [] else [noted]) + ([[]] + Split(request, NEWLINE));
  }

  lemma AskedLines(noted: Text, request: Text)
    requires NEWLINE !in noted
    ensures Split(Asked(noted, request), NEWLINE) == (if noted == [] then [] else [noted]) + ([[]] + Split(request, NEWLINE))
  {
    hide Split;
    SplitPrefix([], request, NEWLINE);
    assert [] + [NEWLINE] + request == [NEWLINE] + request;
    SplitPrefix(noted, [NEWLINE] + request, NEWLINE);
    assert [] + ([[]] + Split(request, NEWLINE)) == [[]] + Split(request, NEWLINE);
  }

  lemma PlainLine(t: Text)
    requires IsPlainText(t)
    ensures NEWLINE !in t
  {
  }

  lemma NoBreak(s: string)
    requires '\n' !in s
    ensures NEWLINE !in Ascii(s)
  {
  }

  lemma FramesHaveNoBreak()
    ensures NEWLINE !in APPROVED_TEXT && NEWLINE !in Ascii("' specialist:") && NEWLINE !in Ascii("Approved by: ")
    ensures NEWLINE !in Ascii("unknown") && NEWLINE !in Ascii("The approver noted: ")
  {
    NoBreak("A human has APPROVED ");
    NoBreak("this proposal from ");
    NoBreak("the '");
    NoBreak("' specialist:");
    NoBreak("Approved by: ");
    NoBreak("unknown");
    NoBreak("The approver noted: ");
  }

  lemma FirstObject(before: Text, v: Json, after: Text)
    requires LBRACE !in before && v.JObject? && Printable(v)
    ensures var t := before + (Encode(v) + after); ObjectsIn(t) != [] && ObjectsIn(t)[0] == v
  {
    hide ParseValue, Encode, Printable, Scan, At;
    var printed := Encode(v);
    var t := before + (printed + after);
    var n := |before|;
    AtSlice(t, n, printed);
    assert t[n..n + |printed|] == printed;
    ObjectRead(t, n, v);
    BlockStart(t, n, v, n + |printed|);
    forall p | 0 <= p < n ensures t[p] != LBRACE { assert t[p] in before; }
    ScanSkip(t, 0, n);
  }
}
