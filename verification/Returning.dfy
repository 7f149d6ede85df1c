/** From the tool results of one turn to the case of another: what the gated action answers, the restating
    callback carries to the caller, who finds it there and acts on it. */
module Returning {
  import opened Texts
  import opened Json
  import opened JsonDecode
  import opened Printing
  import opened RoundTrip
  import opened Scanner
  import opened Contracts
  import opened Firsts
  import opened Reporting
  import opened Restating
  import opened Replies
  import opened Publishing
  import opened Cases
  import opened Stores
  import opened Protocol
  import opened Driving
  import opened Opening

  /** The call's answer is a tool response of the invocation, bare or under "result". */
  ghost predicate Answered(events: seq<Reporting.Event>, invocation: Text, call: PublishCall, spelling: Spelling) {
    exists n, k :: 0 <= n < |events| && 0 <= k < |events[n].responses| && events[n].invocation == invocation
                   && IsAnswer(events[n].responses[k], call, spelling)
  }

  predicate IsAnswer(response: Json, call: PublishCall, spelling: Spelling) {
    response == ReplyTo(call, spelling) || response == JObject(map[Ascii("result") := ReplyTo(call, spelling)])
  }

  /** No tool response of the invocation makes the callback raise, and the floats in what it prints are floats. */
  ghost predicate NoneRaises(events: seq<Reporting.Event>, invocation: Text) {
    forall p :: Borne(events, invocation, p) ==> !Raises(p) && (IsReported(p) ==> HasFloats(p))
  }

  /** The reply holds, however deep, what the callback made of the turn. */
  ghost predicate Returns(response: Payload, events: seq<Reporting.Event>, invocation: Text, agent: Text) {
    match Restatement(events, invocation, agent)
    case Replaced(body) => Holds(response, body)
    case _ => false
  }

  /** The texts of a call have no split pair, nor has what `float` and `repr` make of them. */
  predicate IsClean(call: PublishCall, spelling: Spelling) {
    var canonical := CanonicalValue(call.value, spelling.float);
    && NoSplitPair(canonical) && NoSplitPair(call.tag)
    && if HasApprover(call) then NoSplitPair(call.approvedBy) && NoSplitPair(call.note)
       else NoSplitPair(Summary(canonical, call.tag, spelling.repr))
  }

  lemma ReplyReports(call: PublishCall, spelling: Spelling)
    ensures HasStatusText(ReplyTo(call, spelling), if HasApprover(call) then "published" else "approval_required")
    ensures IsReported(ReplyTo(call, spelling))
    ensures forall response :: IsAnswer(response, call, spelling) ==> Bears(response, ReplyTo(call, spelling))
  {
    hide CanonicalValue, Strip, Ascii, Summary;
    KeysDiffer();
  }

  lemma KeysClean()
    ensures NoSplitPair(STATUS) && NoSplitPair(ACTION) && NoSplitPair(NOTE) && NoSplitPair(VALUE) && NoSplitPair(LABEL)
    ensures NoSplitPair(APPROVED_BY) && NoSplitPair(PROPOSAL) && NoSplitPair(SUMMARY)
    ensures NoSplitPair(PUBLISHED) && NoSplitPair(PUBLISH_ACTION) && NoSplitPair(APPROVAL_REQUIRED)
  {
  }

  /** The answer prints exactly when its texts do. */
  lemma ReplyPrintable(call: PublishCall, spelling: Spelling)
    ensures IsClean(call, spelling) <==> Printable(ReplyTo(call, spelling))
    ensures IsClean(call, spelling) ==> Printable(ProposalOf(call, spelling))
  {
    hide CanonicalValue, Strip, NoSplitPair, Summary, HasApprover, PublishedReply, ProposedReply, Proposal, Printable;
    var value := CanonicalValue(call.value, spelling.float);
    PublishedPrintable(Publication(value, call.tag, call.approvedBy), call.note);
    ProposedPrintable(value, call.tag, Summary(value, call.tag, spelling.repr));
  }

  lemma PublishedPrintable(p: Publication, note: Text)
    ensures Printable(PublishedReply(p, note))
       <==> NoSplitPair(p.value) && NoSplitPair(p.tag) && NoSplitPair(p.approvedBy) && NoSplitPair(note)
  {
    hide NoSplitPair, PublishedReply, Ascii;
    KeysClean();
    PublishedFields(p, note);
    var fields := PublishedReply(p, note).fields;
    if Printable(PublishedReply(p, note)) {
      assert NOTE in fields && VALUE in fields && LABEL in fields && APPROVED_BY in fields;
    }
  }

  lemma ProposedPrintable(value: Text, tag: Text, summary: Text)
    ensures Printable(ProposedReply(value, tag, summary)) <==> NoSplitPair(value) && NoSplitPair(tag) && NoSplitPair(summary)
    ensures Printable(Proposal(value, tag)) <==> NoSplitPair(value) && NoSplitPair(tag)
  {
    hide NoSplitPair, ProposedReply, Proposal, Ascii;
    KeysClean();
    ProposedReplyFields(value, tag, summary);
    var fields := Proposal(value, tag).fields;
    if Printable(Proposal(value, tag)) { assert VALUE in fields && LABEL in fields; }
    var r := ProposedReply(value, tag, summary);
    if NoSplitPair(value) && NoSplitPair(tag) && NoSplitPair(summary) {
      assert Printable(Proposal(value, tag));
      forall k | k in r.fields ensures NoSplitPair(k) && Printable(r.fields[k]) {}
    }
    if Printable(r) {
      assert PROPOSAL in r.fields && SUMMARY in r.fields;
      assert Printable(Proposal(value, tag)) && Printable(JString(summary));
    }
  }

  /** The answer to a call reaches the caller: whatever else the turn did, said or reported, the callback
      replaces the reply and the answer can be read from it. */
  lemma AnswerRestated(events: seq<Reporting.Event>, invocation: Text, agent: Text, call: PublishCall, spelling: Spelling)
    requires Answered(events, invocation, call, spelling) && NoneRaises(events, invocation) && IsClean(call, spelling)
    ensures Restatement(events, invocation, agent).Replaced?
    ensures ReplyTo(call, spelling) in ObjectsIn(Restatement(events, invocation, agent).body)
  {
    hide Bears, Raises, IsReported, HasFloats, ReplyTo, Restatement, ObjectsIn, Printable, IsClean, IsAnswer, RestatedFrom,
      FoundFor, Strip, Body;
    var reply := ReplyTo(call, spelling);
    ReplyReports(call, spelling);
    assert Borne(events, invocation, reply) by { AnswerBorne(events, invocation, call, spelling); }
    ReplyPrintable(call, spelling);
    var _, _ := RestatementRead(events, invocation, agent, reply);
  }

  lemma AnswerBorne(events: seq<Reporting.Event>, invocation: Text, call: PublishCall, spelling: Spelling)
    requires Answered(events, invocation, call, spelling)
    ensures Borne(events, invocation, ReplyTo(call, spelling))
  {
    hide Bears, ReplyTo, IsAnswer;
    ReplyReports(call, spelling);
    var n, k :| 0 <= n < |events| && 0 <= k < |events[n].responses| && events[n].invocation == invocation
                && IsAnswer(events[n].responses[k], call, spelling);
    assert Bears(events[n].responses[k], ReplyTo(call, spelling));
  }

  /** And from there, however the reply is wrapped and whatever else the caller's turn holds: a publication
      confirms every proposal it carries out. */
  lemma AnswerConfirms(events: seq<Reporting.Event>, invocation: Text, agent: Text, call: PublishCall, proposed: PublishCall,
                       spelling: Spelling, responses: seq<Payload>, response: Payload, parts: seq<Text>, dumps: Payload -> Text)
    requires Answered(events, invocation, call, spelling) && NoneRaises(events, invocation) && IsClean(call, spelling)
    requires response in responses && Returns(response, events, invocation, agent)
    requires CarriesOut(call, proposed, spelling)
    ensures ReplyTo(call, spelling) in AllObjects(ReplyTexts(responses, parts, dumps))
    ensures FindExecution(ReplyTexts(responses, parts, dumps), ProposalOf(proposed, spelling)).Some?
  {
    hide Answered, NoneRaises, IsClean, Restatement, Holds, ObjectsIn, ReplyTexts, ReplyTo, ProposalOf, CarriesOut, AllObjects,
      Confirms, FirstConfirming;
    AnswerRestated(events, invocation, agent, call, spelling);
    RepliesReach(responses, parts, dumps, response, Restatement(events, invocation, agent).body);
    InAllObjects(ReplyTexts(responses, parts, dumps), Restatement(events, invocation, agent).body, ReplyTo(call, spelling));
    ReplyConfirms(call, proposed, spelling);
  }

  /** Nothing the turn did not do is restated: when the agent's last words hold no publication of their own
      and each publication among the tool results is the answer to one of the calls, the reply is faithful. */
  lemma RestatesOnlyAnswers(events: seq<Reporting.Event>, invocation: Text, agent: Text, calls: seq<PublishCall>,
                            spelling: Spelling)
    requires Restatement(events, invocation, agent).Replaced? && IsQuiet(LastSpoken(events, invocation, agent))
    requires forall p :: Borne(events, invocation, p) && IsReported(p) ==> Printable(p)
    requires forall p :: Borne(events, invocation, p) && HasStatusText(p, "published")
               ==> exists k :: 0 <= k < |calls| && HasApprover(calls[k]) && p == ReplyTo(calls[k], spelling)
    ensures IsFaithful(Restatement(events, invocation, agent).body, calls, spelling)
  {
    hide Borne, IsReported, Printable, Encode, FirstBy, AuditedOnly, ReplyTo, HasApprover, IsQuiet, LastSpoken, Body, Faulty,
      TurnPayloads, Distinct;
    var results := Distinct(TurnPayloads(events, invocation));
    var spoken := LastSpoken(events, invocation, agent);
    RestatedOnce(events, invocation);
    assert Restatement(events, invocation, agent).body == Body(spoken, results);
    forall r | r in results ensures r.JObject? && Printable(r) { ReportedObject(r); }
    forall r | r in results && IsPublished(r)
      ensures exists k :: 0 <= k < |calls| && HasApprover(calls[k]) && r == ReplyTo(calls[k], spelling)
    {
      assert HasStatusText(r, "published");
    }
    assert Restates(Restatement(events, invocation, agent).body, spoken, results, calls, spelling);
  }

  lemma ReportedObject(r: Json)
    requires IsReported(r)
    ensures r.JObject?
  {
  }

  /** From one turn's tool results to another's: a call without an approver in the first turn, answered there
      however the model words it, is stored as a pending case under an id of its own. Any turn in which a
      call that carries it out is answered then executes that case on approval. */
  lemma ProposedToExecuted(
      table: Table, events: seq<Reporting.Event>, invocation: Text, agent: Text, proposed: PublishCall, spelling: Spelling,
      responses: seq<Payload>, response: Payload, parts: seq<Text>, dumps: Payload -> Text, sessionId: Text, newId: nat -> Text,
      clock: nat -> int, str: Json -> Text)
    returns (id: Text)
    requires ObjectProposals(table) && !HasApprover(proposed)
    requires Answered(events, invocation, proposed, spelling) && NoneRaises(events, invocation) && IsClean(proposed, spelling)
    requires response in responses && Returns(response, events, invocation, agent)
    requires var cases := Opening.Raised(ReplyTexts(responses, parts, dumps), sessionId, newId, clock, str);
             DistinctIds(cases) && (forall i :: 0 <= i < |cases| ==> cases[i].proposalId !in table && Printable(cases[i].proposal))
    ensures var after := OpenAll(table, Opening.Raised(ReplyTexts(responses, parts, dumps), sessionId, newId, clock, str)).0;
            && ObjectProposals(after) && id !in table && id in after && after[id].status == Pending
            && after[id].proposal == ProposalOf(proposed, spelling)
            && (forall other :: other in table ==> other in after && after[other] == table[other])
            && (forall later, invocation2, agent2, call, replies, reply, parts2, v: Verdict, now ::
                  Answered(later, invocation2, call, spelling) && NoneRaises(later, invocation2) && IsClean(call, spelling)
                  && CarriesOut(call, proposed, spelling) && v.approved && reply in replies
                  && Returns(reply, later, invocation2, agent2)
                  ==> ExecutedBy(after, id, v, ReplyTexts(replies, parts2, dumps), now))
  {
    hide Answered, NoneRaises, IsClean, Restatement, Holds, ObjectsIn, ReplyTexts, ReplyTo, ProposalOf, CarriesOut, AllObjects,
      Opening.Raised, OpenAll, ObjectProposals, ExecutedBy, UnconfirmedBy, Printable, DistinctIds, HasApprover, FindExecution,
      ReportsCalls, Carried;
    AnswerRestated(events, invocation, agent, proposed, spelling);
    ReplyPrintable(proposed, spelling);
    id := ProposedThenExecuted(table, proposed, spelling, Restatement(events, invocation, agent).body, responses, response, parts,
                               dumps, sessionId, newId, clock, str);
    var after := OpenAll(table, Opening.Raised(ReplyTexts(responses, parts, dumps), sessionId, newId, clock, str)).0;
    forall later, invocation2, agent2, call, replies, reply, parts2, v: Verdict, now |
      Answered(later, invocation2, call, spelling) && NoneRaises(later, invocation2) && IsClean(call, spelling)
      && CarriesOut(call, proposed, spelling) && v.approved && reply in replies
      && Returns(reply, later, invocation2, agent2)
      ensures ExecutedBy(after, id, v, ReplyTexts(replies, parts2, dumps), now)
    {
      AnswerConfirms(later, invocation2, agent2, call, proposed, spelling, replies, reply, parts2, dumps);
    }
  }
}
