/** The callback that restates a turn's audited tool results as JSON under the model's own
    words (`app/agents/reporting.py`), and what the scanner on the other side makes of it. */
module Reporting {
  import opened Texts
  import opened Json
  import opened JsonDecode
  import opened Printing
  import opened RoundTrip
  import opened Barrier
  import opened Scanner
  import opened Contracts
  import opened Firsts

  /** An event: its tool responses' payloads and the texts of its content's parts. */
  datatype Event = Event(invocation: Text, author: Text, responses: seq<Json>, parts: seq<Text>)

  /** What the callback does: raise, leave the reply alone, or replace it. */
  datatype Restated = Raised | Unchanged | Replaced(body: Text)

  const HEADER: Text := [NEWLINE, NEWLINE] + (Ascii("Structured result(s):") + [NEWLINE])

  // --- The payloads of an event ----------------------------------------------------------

  /** The dict a response carries, with ADK's `{"result": ...}` wrapper taken off. */
  function Unwrapped(response: Json): Json
    requires response.JObject?
  {
    if Get(response, RESULT).JObject? then Get(response, RESULT) else response
  }

  function Payloads(responses: seq<Json>): (found: seq<Json>)
    ensures forall p :: p in found ==> p.JObject?
  {
    if responses == [] then []
    else (if responses[0].JObject? then [Unwrapped(responses[0])] else []) + Payloads(responses[1..])
  }

  /** Every payload of one invocation, in order. */
  function TurnPayloads(events: seq<Event>, invocation: Text): (found: seq<Json>)
    ensures forall p :: p in found ==> p.JObject?
  {
    if events == [] then []
    else
      TurnPayloads(events[..|events| - 1], invocation)
      + (if events[|events| - 1].invocation == invocation then Payloads(events[|events| - 1].responses) else [])
  }

  predicate Audited(payload: Json)
    requires payload.JObject?
  {
    HasStatus(payload, APPROVAL_REQUIRED) || HasStatus(payload, PUBLISHED)
  }

  /** Looking a status up in a set hashes it, which a list or a dict refuses; and an
      audited payload has to be printed. */
  predicate Faulty(payload: Json)
    requires payload.JObject?
  {
    Get(payload, STATUS).JArray? || Get(payload, STATUS).JObject? || (Audited(payload) && !Dumpable(payload))
  }

  function AuditedOnly(payloads: seq<Json>): (audited: seq<Json>)
    requires forall p :: p in payloads ==> p.JObject?
    ensures forall r :: r in audited <==> r in payloads && Audited(r)
  {
    if payloads == [] then []
    else
      var last := payloads[|payloads| - 1];
      AuditedOnly(payloads[..|payloads| - 1]) + (if Audited(last) then [last] else [])
  }

  /** The audited payloads, each once: the first of those that print the same. */
  function Distinct(payloads: seq<Json>): seq<Json>
    requires forall p :: p in payloads ==> p.JObject?
  {
    FirstBy(AuditedOnly(payloads), Encode)
  }

  function Concat(parts: seq<Text>): Text {
    if parts == [] then [] else parts[0] + Concat(parts[1..])
  }

  /** The agent's last non-blank words in the invocation, stripped. */
  function LastSpoken(events: seq<Event>, invocation: Text, agent: Text): Text {
    if events == [] then []
    else
      var last := events[|events| - 1];
      var text := Strip(Concat(last.parts));
      if last.invocation == invocation && last.author == agent && text != [] then text
      else LastSpoken(events[..|events| - 1], invocation, agent)
  }

  /** The printed results, one a line. */
  function Blocks(results: seq<Json>): Text {
    if results == [] then []
    else if |results| == 1 then Encode(results[0])
    else Encode(results[0]) + ([NEWLINE] + Blocks(results[1..]))
  }

  function Body(spoken: Text, results: seq<Json>): Text {
    if spoken == [] then Blocks(results) else spoken + (HEADER + Blocks(results))
  }

  /** What the turn's events make the callback do. */
  function Restatement(events: seq<Event>, invocation: Text, agent: Text): Restated {
    var payloads := TurnPayloads(events, invocation);
    if exists p :: p in payloads && Faulty(p) then Raised
    else if Distinct(payloads) == [] then Unchanged
    else Replaced(Body(LastSpoken(events, invocation, agent), Distinct(payloads)))
  }

  // --- The callback -------------------------------------------------------------------------

  lemma PayloadsUnfold(responses: seq<Json>, i: nat)
    requires i <= |responses|
    ensures Payloads(responses[i..]) ==
            if i == |responses| then []
            else (if responses[i].JObject? then [Unwrapped(responses[i])] else []) + Payloads(responses[i + 1..])
  {
    hide Unwrapped;
    if i < |responses| { assert responses[i..][1..] == responses[i + 1..]; }
  }

  lemma UnwrappedIs(payload: Json)
    requires payload.JObject?
    ensures Unwrapped(payload) == if Get(payload, RESULT).JObject? then Get(payload, RESULT) else payload
  {
  }

  method PayloadsOf(event: Event) returns (found: seq<Json>)
    ensures found == Payloads(event.responses)
  {
    hide Get, Payloads, Unwrapped;
    found := [];
    for i := 0 to |event.responses|
      invariant found + Payloads(event.responses[i..]) == Payloads(event.responses)
    {
      var payload := event.responses[i];
      PayloadsUnfold(event.responses, i);
      if payload.JObject? {
        UnwrappedIs(payload);
        var inner := Get(payload, RESULT);
        found := found + [if inner.JObject? then inner else payload];
      }
    }
    PayloadsUnfold(event.responses, |event.responses|);
  }

  lemma DistinctStep(done: seq<Json>, payload: Json)
    requires payload.JObject? && forall p :: p in done ==> p.JObject?
    ensures Distinct(done + [payload]) ==
            if !Audited(payload) || Encode(payload) in KeysOf(Distinct(done), Encode) then Distinct(done)
            else Distinct(done) + [payload]
  {
    hide Encode, Audited, KeysOf, FirstBy;
    assert (done + [payload])[..|done|] == done;
    FirstBySnoc(AuditedOnly(done), Encode, payload);
    assert AuditedOnly(done) + [] == AuditedOnly(done);
  }

  lemma TurnStep(events: seq<Event>, n: nat, invocation: Text, agent: Text)
    requires n < |events|
    ensures TurnPayloads(events[..n + 1], invocation) == TurnPayloads(events[..n], invocation)
              + if events[n].invocation == invocation then Payloads(events[n].responses) else []
    ensures LastSpoken(events[..n + 1], invocation, agent) ==
            var text := Strip(Concat(events[n].parts));
            if events[n].invocation == invocation && events[n].author == agent && text != [] then text
            else LastSpoken(events[..n], invocation, agent)
  {
    assert events[..n + 1][..n] == events[..n] && events[..n + 1][n] == events[n];
  }

  method RestateStructuredResults(events: seq<Event>, invocation: Text, agent: Text) returns (r: Restated)
    ensures r == Restatement(events, invocation, agent)
  {
    hide Faulty, Audited, Distinct, KeysOf, FirstBy, Payloads, Encode, TurnPayloads, LastSpoken, Strip, Concat, Blocks;
    var results: seq<Json> := [];
    var seen: set<Text> := {};
    var spoken: Text := [];
    ghost var done: seq<Json> := [];
    Empty(events, invocation, agent);
    for n := 0 to |events|
      invariant done == TurnPayloads(events[..n], invocation)
      invariant forall p :: p in done ==> !Faulty(p)
      invariant results == Distinct(done) && seen == KeysOf(results, Encode)
      invariant spoken == LastSpoken(events[..n], invocation, agent)
    {
      var event := events[n];
      TurnStep(events, n, invocation, agent);
      if event.invocation == invocation {
        var payloads := PayloadsOf(event);
        for i := 0 to |payloads|
          invariant done == TurnPayloads(events[..n], invocation) + payloads[..i]
          invariant forall p :: p in done ==> !Faulty(p)
          invariant results == Distinct(done) && seen == KeysOf(results, Encode)
        {
          var payload := payloads[i];
          if Faulty(payload) {
            FaultyStays(events, n, invocation, agent, payload);
            return Raised;
          }
          DistinctStep(done, payload);
          if Audited(payload) {
            var key := Encode(payload);
            if key !in seen {
              KeysOfSnoc(results, Encode, payload);
              seen := seen + {key};
              results := results + [payload];
            }
          }
          assert payloads[..i + 1] == payloads[..i] + [payload];
          done := done + [payload];
        }
        assert payloads[..|payloads|] == payloads;
        var text := Strip(Concat(event.parts));
        if event.author == agent && text != [] {
          spoken := text;
        }
      }
    }
    assert events[..|events|] == events;
    if results == [] {
      return Unchanged;
    }
    var blocks := Blocks(results);
    r := Replaced(if spoken != [] then spoken + (HEADER + blocks) else blocks);
  }

  lemma Empty(events: seq<Event>, invocation: Text, agent: Text)
    ensures TurnPayloads(events[..0], invocation) == [] && LastSpoken(events[..0], invocation, agent) == []
    ensures Distinct([]) == [] && KeysOf([], Encode) == {}
  {
  }

  lemma {:induction false} PayloadsKept(events: seq<Event>, n: nat, invocation: Text, p: Json)
    requires n <= |events| && p in TurnPayloads(events[..n], invocation)
    ensures p in TurnPayloads(events, invocation)
    decreases |events| - n
  {
    if n == |events| {
      assert events[..n] == events;
    } else {
      assert events[..n + 1][..n] == events[..n];
      PayloadsKept(events, n + 1, invocation, p);
    }
  }

  /** A payload that raises in the middle of the events raises for the whole turn. */
  lemma FaultyStays(events: seq<Event>, n: nat, invocation: Text, agent: Text, p: Json)
    requires n < |events| && events[n].invocation == invocation
    requires p in Payloads(events[n].responses) && Faulty(p)
    ensures Restatement(events, invocation, agent).Raised?
  {
    TurnStep(events, n, invocation, agent);
    PayloadsKept(events, n + 1, invocation, p);
  }

  /** The text an event of this turn speaks in the agent's name, if it does. */
  predicate Speaks(event: Event, invocation: Text, agent: Text) {
    event.invocation == invocation && event.author == agent && Strip(Concat(event.parts)) != []
  }

  /** The words kept are those of the last event that spoke; none are when none did. */
  lemma {:induction false} LastSpokenIs(events: seq<Event>, invocation: Text, agent: Text)
    ensures var spoken := LastSpoken(events, invocation, agent);
            if spoken == [] then forall n :: 0 <= n < |events| ==> !Speaks(events[n], invocation, agent)
            else exists n :: 0 <= n < |events| && Speaks(events[n], invocation, agent) && spoken == Strip(Concat(events[n].parts))
                   && forall m :: n < m < |events| ==> !Speaks(events[m], invocation, agent)
    decreases |events|
  {
    hide Strip, Concat;
    if events != [] {
      var n := |events| - 1;
      if Speaks(events[n], invocation, agent) {
        assert LastSpoken(events, invocation, agent) == Strip(Concat(events[n].parts));
      } else {
        LastSpokenIs(events[..n], invocation, agent);
        assert forall m :: 0 <= m < n ==> events[..n][m] == events[m];
      }
    }
  }

  // --- What the scanner finds in the body -----------------------------------------------------

  lemma HeaderText(t: Text, b: nat)
    requires At(t, b, HEADER)
    ensures BarrierAt(t, b)
    ensures forall p :: b <= p < b + |HEADER| ==> t[p] != LBRACE
  {
    AtIndex(t, b, HEADER, 0);
    AtIndex(t, b, HEADER, 1);
    AtIndex(t, b, HEADER, 2);
    assert SkipSpace(t, b + 2) == b + 2;
    assert SkipSpace(t, b + 1) == b + 2;
    forall p | b <= p < b + |HEADER| ensures t[p] != LBRACE {
      AtIndex(t, b, HEADER, p - b);
    }
  }

  ghost predicate PrintableObjects(results: seq<Json>) {
    forall r :: r in results ==> r.JObject? && Printable(r)
  }

  lemma BlockStart(t: Text, i: nat, r: Json, end: nat)
    requires i <= |t| && r.JObject? && At(t, i, Encode(r)) && ParseValue(t, i) == Ok(r, end)
    ensures Scan(t, i) == [Span(i, end, r)] + Scan(t, end)
  {
    hide ParseValue;
    AtOpened(t, i, LBRACE, EncodeMembers(r, SortedKeys(r.fields.Keys), 0));
  }

  /** The printed results scan back to the results. */
  lemma {:induction false} BlocksScan(t: Text, i: nat, results: seq<Json>)
    requires PrintableObjects(results) && At(t, i, Blocks(results)) && i + |Blocks(results)| == |t|
    ensures Values(Scan(t, i)) == results
    decreases |results|
  {
    hide ParseValue, At, Encode, Printable;
    if results == [] {
      assert FindBrace(t, i) == -1;
    } else {
      var first := results[0];
      var end := i + |Encode(first)|;
      var rest := results[1..];
      assert results == [first] + rest;
      if rest == [] {
        ObjectRead(t, i, first);
        BlockStart(t, i, first, end);
        assert FindBrace(t, end) == -1;
      } else {
        AtConcat(t, i, Encode(first), [NEWLINE] + Blocks(rest));
        AtOpened(t, end, NEWLINE, Blocks(rest));
        ObjectRead(t, i, first);
        BlockStart(t, i, first, end);
        ScanSkip(t, end, end + 1);
        BlocksScan(t, end + 1, rest);
        ValuesCons(Span(i, end, first), Scan(t, end));
      }
    }
  }

  /** Whatever the model said above them, the restated results are found, all of them, in
      order, and exactly what was found in the words alone is found before them. */
  lemma BodyScan(spoken: Text, results: seq<Json>)
    requires PrintableObjects(results)
    ensures ObjectsIn(Body(spoken, results)) == ObjectsIn(spoken) + results
  {
    hide At, ParseValue, Encode, Blocks, BarrierAt, Printable;
    var t := Body(spoken, results);
    AtSlice(t, 0, t);
    assert t[0..|t|] == t;
    if spoken == [] {
      BlocksScan(t, 0, results);
      assert FindBrace(spoken, 0) == -1;
    } else {
      var b := |spoken|;
      AtConcat(t, 0, spoken, HEADER + Blocks(results));
      AtConcat(t, b, HEADER, Blocks(results));
      HeaderText(t, b);
      assert t[..b] == spoken;
      ScanBefore(t, b, 0);
      ScanSkip(t, b, b + |HEADER|);
      BlocksScan(t, b + |HEADER|, results);
      ValuesConcat(Scan(spoken, 0), Scan(t, b));
    }
  }

  lemma EncodedObjectEnds(r: Json)
    requires r.JObject?
    ensures var e := Encode(r); e != [] && e[0] == LBRACE && e[|e| - 1] == RBRACE
  {
    MembersEnd(r, SortedKeys(r.fields.Keys), 0);
  }

  lemma {:induction false} MembersEnd(v: Json, keys: seq<Text>, i: nat)
    requires v.JObject? && i <= |keys| && forall k :: k in keys ==> k in v.fields
    ensures var e := EncodeMembers(v, keys, i); e != [] && e[|e| - 1] == RBRACE
    decreases |keys| - i
  {
    hide EncodeMember;
    if i < |keys| { MembersEnd(v, keys, i + 1); }
  }

  lemma {:induction false} BlocksEnds(results: seq<Json>)
    requires results != [] && forall r :: r in results ==> r.JObject?
    ensures var t := Blocks(results); t != [] && t[0] == LBRACE && t[|t| - 1] == RBRACE
  {
    hide Encode;
    EncodedObjectEnds(results[0]);
    if |results| > 1 { BlocksEnds(results[1..]); }
  }

  /** Stripping the body, as the receiving side does, takes nothing off it. */
  lemma BodyKept(spoken: Text, results: seq<Json>)
    requires Strip(spoken) == spoken && results != [] && forall r :: r in results ==> r.JObject?
    ensures Strip(Body(spoken, results)) == Body(spoken, results)
  {
    hide Blocks, Strip;
    BlocksEnds(results);
    var t := Body(spoken, results);
    var last := Blocks(results);
    assert t[|t| - 1] == last[|last| - 1];
    StripStart(spoken);
    StripFixed(t);
  }

  lemma StripStart(s: Text)
    requires Strip(s) == s
    ensures s == [] || !IsSpace(s[0])
  {
  }

  lemma StripTwice(s: Text)
    ensures Strip(Strip(s)) == Strip(s)
  {
    StripFixed(Strip(s));
  }

  lemma {:induction false} SpokenStripped(events: seq<Event>, invocation: Text, agent: Text)
    ensures Strip(LastSpoken(events, invocation, agent)) == LastSpoken(events, invocation, agent)
  {
    hide Strip, Concat;
    StripFixed([]);
    if events != [] {
      var last := events[|events| - 1];
      StripTwice(Concat(last.parts));
      SpokenStripped(events[..|events| - 1], invocation, agent);
    }
  }

  lemma DistinctMember(payloads: seq<Json>, r: Json)
    requires forall q :: q in payloads ==> q.JObject?
    requires r in Distinct(payloads)
    ensures r in payloads && Audited(r)
  {
    FirstByMember(AuditedOnly(payloads), Encode, r);
  }

  /** Restating drops repeats and nothing else. */
  lemma AllRestated(payloads: seq<Json>, p: Json)
    requires forall q :: q in payloads ==> q.JObject?
    requires p in payloads && Audited(p) && Printable(p) && PrintableObjects(Distinct(payloads))
    ensures p in Distinct(payloads)
  {
    FirstByCovers(AuditedOnly(payloads), Encode, p);
    var r :| r in Distinct(payloads) && Encode(r) == Encode(p);
    EncodeInjective(r, p);
  }

  /** The whole callback: whatever the events and the words, a replaced reply scans to what the
      words scan to and then each audited payload of the invocation, once. */
  lemma RestatementScan(events: seq<Event>, invocation: Text, agent: Text)
    requires Restatement(events, invocation, agent).Replaced?
    requires PrintableObjects(Distinct(TurnPayloads(events, invocation)))
    ensures var body := Restatement(events, invocation, agent).body;
            && ObjectsIn(body) == ObjectsIn(LastSpoken(events, invocation, agent)) + Distinct(TurnPayloads(events, invocation))
            && Strip(body) == body
    ensures forall p :: p in TurnPayloads(events, invocation) && Audited(p) && Printable(p)
                        ==> p in ObjectsIn(Restatement(events, invocation, agent).body)
  {
    hide Encode, Printable, Audited, TurnPayloads, LastSpoken, Body, Strip, ObjectsIn, Distinct;
    var payloads := TurnPayloads(events, invocation);
    var spoken := LastSpoken(events, invocation, agent);
    BodyScan(spoken, Distinct(payloads));
    SpokenStripped(events, invocation, agent);
    forall r | r in Distinct(payloads) ensures r.JObject? { DistinctMember(payloads, r); }
    BodyKept(spoken, Distinct(payloads));
    forall p | p in payloads && Audited(p) && Printable(p) ensures p in Distinct(payloads) {
      AllRestated(payloads, p);
    }
  }
}
