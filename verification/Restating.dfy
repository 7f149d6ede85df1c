/** What the restating callback comes to, said of the events themselves: which tool results reach the
    caller, when it raises and when it leaves the reply alone. */
module Restating {
  import opened Texts
  import opened Json
  import opened JsonDecode
  import opened RoundTrip
  import opened Barrier
  import opened Scanner
  import opened Contracts
  import opened Firsts
  import opened Printing
  import opened Reporting

  // --- The results of a turn ---------------------------------------------------------------------------------

  /** The dict a tool response bears: the one under "result" when there is a dict there, else itself. */
  predicate Bears(response: Json, p: Json) {
    response.JObject? && p.JObject?
    && var wrapper := Ascii("result");
       p == if wrapper in response.fields && response.fields[wrapper].JObject? then response.fields[wrapper] else response
  }

  /** A tool response of the invocation bears it. */
  ghost predicate Borne(events: seq<Event>, invocation: Text, p: Json) {
    exists n, k :: 0 <= n < |events| && 0 <= k < |events[n].responses| && events[n].invocation == invocation
                   && Bears(events[n].responses[k], p)
  }

  predicate HasStatusText(p: Json, status: string) {
    p.JObject? && Ascii("status") in p.fields && p.fields[Ascii("status")] == JString(Ascii(status))
  }

  /** A proposal awaiting sign-off or the confirmation of an action that ran. */
  predicate IsReported(p: Json) {
    HasStatusText(p, "approval_required") || HasStatusText(p, "published")
  }

  /** Its status is a list or a dict, or it is to be printed and cannot be. */
  predicate Raises(p: Json) {
    p.JObject?
    && ((Ascii("status") in p.fields && (p.fields[Ascii("status")].JArray? || p.fields[Ascii("status")].JObject?))
        || (IsReported(p) && !Dumpable(p)))
  }

  lemma AuditedIs(p: Json)
    requires p.JObject?
    ensures Audited(p) <==> IsReported(p)
    ensures Faulty(p) <==> Raises(p)
  {
    hide Dumpable, Ascii;
  }

  lemma BearsIs(response: Json, p: Json)
    ensures response.JObject? && p == Unwrapped(response) <==> Bears(response, p)
  {
    hide Ascii;
  }

  lemma {:induction false} PayloadsAre(responses: seq<Json>, p: Json)
    ensures p in Payloads(responses) <==> exists k :: 0 <= k < |responses| && Bears(responses[k], p)
  {
    hide Bears, Unwrapped;
    if responses != [] {
      var rest := responses[1..];
      PayloadsAre(rest, p);
      BearsIs(responses[0], p);
      if k :| 0 <= k < |rest| && Bears(rest[k], p) { assert responses[k + 1] == rest[k]; }
      if k :| 0 <= k < |responses| && Bears(responses[k], p) && k > 0 { assert rest[k - 1] == responses[k]; }
    }
  }

  lemma FirstPayload(responses: seq<Json>)
    requires responses != []
    ensures Payloads(responses) == (if responses[0].JObject? then [Unwrapped(responses[0])] else []) + Payloads(responses[1..])
    ensures Payloads([]) == []
  {
    hide Unwrapped;
  }

  /** The payloads come in the order of the responses that bear them, one each. */
  lemma {:induction false} PayloadsInOrder(a: seq<Json>, b: seq<Json>, response: Json)
    ensures Payloads(a + b) == Payloads(a) + Payloads(b)
    ensures if response.JObject? then |Payloads([response])| == 1 && Bears(response, Payloads([response])[0])
            else Payloads([response]) == []
    decreases |a|
  {
    hide Bears, Unwrapped, Payloads;
    FirstPayload([response]);
    assert [response][1..] == [];
    if response.JObject? { BearsIs(response, Unwrapped(response)); }
    if a == [] {
      assert a + b == b;
    } else {
      PayloadsInOrder(a[1..], b, response);
      FirstPayload(a);
      FirstPayload(a + b);
      assert (a + b)[1..] == a[1..] + b;
    }
  }

  /** The turn's come in the order of its events; the other invocations add none. */
  lemma {:induction false} TurnPayloadsInOrder(a: seq<Event>, b: seq<Event>, event: Event, invocation: Text)
    ensures TurnPayloads(a + b, invocation) == TurnPayloads(a, invocation) + TurnPayloads(b, invocation)
    ensures TurnPayloads([event], invocation) == if event.invocation == invocation then Payloads(event.responses) else []
    decreases |b|
  {
    hide Payloads;
    assert [event][..0] == [] && TurnPayloads([], invocation) == [];
    if b == [] {
      assert a + b == a;
    } else {
      var n := |b| - 1;
      TurnPayloadsInOrder(a, b[..n], event, invocation);
      assert (a + b)[..|a| + n] == a + b[..n] && (a + b)[|a| + n] == b[n];
    }
  }

  lemma {:induction false} TurnPayloadsAre(events: seq<Event>, invocation: Text, p: Json)
    ensures p in TurnPayloads(events, invocation) <==> Borne(events, invocation, p)
    decreases |events|
  {
    hide Bears, Payloads;
    if events != [] {
      var n := |events| - 1;
      var before := events[..n];
      TurnPayloadsAre(before, invocation, p);
      PayloadsAre(events[n].responses, p);
      if Borne(before, invocation, p) {
        var m, k :| 0 <= m < |before| && 0 <= k < |before[m].responses| && before[m].invocation == invocation
                    && Bears(before[m].responses[k], p);
        assert events[m] == before[m];
      }
      if Borne(events, invocation, p) && !(p in Payloads(events[n].responses) && events[n].invocation == invocation) {
        var m, k :| 0 <= m < |events| && 0 <= k < |events[m].responses| && events[m].invocation == invocation
                    && Bears(events[m].responses[k], p);
        assert m < n && before[m] == events[m];
      }
    }
  }

  lemma LastKept(payloads: seq<Json>, p: Json)
    requires p.JObject? && forall q :: q in payloads ==> q.JObject?
    ensures AuditedOnly(payloads + [p]) == AuditedOnly(payloads) + if IsReported(p) then [p] else []
    ensures AuditedOnly([]) == []
  {
    hide Audited, IsReported;
    AuditedIs(p);
    assert (payloads + [p])[..|payloads|] == payloads;
  }

  /** The ones kept come in the order of the payloads, and are those that report. */
  lemma {:induction false} ReportedInOrder(a: seq<Json>, b: seq<Json>, p: Json)
    requires p.JObject? && (forall q :: q in a ==> q.JObject?) && forall q :: q in b ==> q.JObject?
    ensures AuditedOnly(a + b) == AuditedOnly(a) + AuditedOnly(b)
    ensures AuditedOnly([p]) == if IsReported(p) then [p] else []
    decreases |b|
  {
    hide AuditedOnly, IsReported;
    LastKept([], p);
    assert [] + [p] == [p];
    if b == [] {
      assert a + b == a;
    } else {
      var n := |b| - 1;
      ReportedInOrder(a, b[..n], p);
      LastKept(b[..n], b[n]);
      LastKept(a + b[..n], b[n]);
      assert b[..n] + [b[n]] == b && (a + b[..n]) + [b[n]] == a + b;
    }
  }

  lemma {:induction false} WordsInOrder(a: seq<Text>, b: seq<Text>, t: Text)
    ensures Concat(a + b) == Concat(a) + Concat(b) && Concat([t]) == t
    decreases |a|
  {
    assert Concat([t]) == t + Concat([]);
    if a == [] {
      assert a + b == b;
    } else {
      WordsInOrder(a[1..], b, t);
      assert (a + b)[1..] == a[1..] + b;
    }
  }

  // --- What the callback does ---------------------------------------------------------------------------------

  /** It raises exactly when a result of the invocation raises, and leaves the reply alone exactly when none
      does and none reports a proposal or a confirmation. Otherwise it replaces it. */
  lemma RestatementIs(events: seq<Event>, invocation: Text, agent: Text)
    ensures Restatement(events, invocation, agent).Raised? <==> exists p :: Borne(events, invocation, p) && Raises(p)
    ensures Restatement(events, invocation, agent).Unchanged?
       <==> forall p :: Borne(events, invocation, p) ==> !Raises(p) && !IsReported(p)
  {
    hide Bears, Borne, Raises, IsReported, Faulty, Audited, Body, LastSpoken, FirstBy;
    var payloads := TurnPayloads(events, invocation);
    forall p ensures p in payloads <==> Borne(events, invocation, p) { TurnPayloadsAre(events, invocation, p); }
    forall p | p in payloads ensures (Audited(p) <==> IsReported(p)) && (Faulty(p) <==> Raises(p)) { AuditedIs(p); }
    forall p | Borne(events, invocation, p) && Raises(p) ensures p in payloads && Faulty(p) {}
    if Distinct(payloads) == [] {
      forall p | p in payloads ensures !Audited(p) { if Audited(p) { KeptWithKey(payloads, p); } }
    } else {
      DistinctMember(payloads, Distinct(payloads)[0]);
    }
  }

  lemma KeptWithKey(payloads: seq<Json>, p: Json)
    requires forall q :: q in payloads ==> q.JObject?
    requires p in payloads && Audited(p)
    ensures exists r :: r in Distinct(payloads) && Encode(r) == Encode(p)
  {
    hide Encode, Audited;
    FirstByCovers(AuditedOnly(payloads), Encode, p);
  }

  /** The lines of the printed results. */
  function Lines(results: seq<Json>): seq<Text> {
    if results == [] then [] else [Encode(results[0])] + Lines(results[1..])
  }

  /** Each result is one line of the block, whatever it holds. */
  lemma {:induction false} BlocksAreLines(results: seq<Json>)
    requires results != [] && forall r :: r in results ==> HasFloats(r)
    ensures |Lines(results)| == |results| && forall k :: 0 <= k < |results| ==> Lines(results)[k] == Encode(results[k])
    ensures Split(Blocks(results), NEWLINE) == Lines(results)
  {
    hide Encode, HasFloats, IsPlainText;
    LinesAre(results);
    forall t | t in Lines(results) ensures NEWLINE !in t {
      var k :| 0 <= k < |results| && t == Encode(results[k]);
      EncodePlain(results[k]);
      NoLineBreak(t);
    }
    BlocksJoined(results);
    SplitJoin(Lines(results), NEWLINE);
  }

  lemma NoLineBreak(t: Text)
    requires IsPlainText(t)
    ensures NEWLINE !in t
  {
  }

  lemma {:induction false} LinesAre(results: seq<Json>)
    ensures |Lines(results)| == |results| && forall k :: 0 <= k < |results| ==> Lines(results)[k] == Encode(results[k])
  {
    hide Encode;
    if results != [] { LinesAre(results[1..]); }
  }

  lemma {:induction false} BlocksJoined(results: seq<Json>)
    ensures Blocks(results) == Join(Lines(results), NEWLINE)
  {
    hide Encode;
    if results != [] {
      BlocksJoined(results[1..]);
      LinesAre(results);
      LinesAre(results[1..]);
      assert Lines(results)[1..] == Lines(results[1..]);
    }
  }

  // --- What is read from its reply ------------------------------------------------------------------------------

  ghost predicate AreDumpable(results: seq<Json>) {
    forall r :: r in results ==> r.JObject? && Dumpable(r) && HasFloats(r)
  }

  /** One object is found for each result: what its line alone reads as. */
  ghost predicate FoundFor(found: seq<Json>, results: seq<Json>) {
    |found| == |results| && forall k :: 0 <= k < |found| ==> ReadAs(results[k], found[k])
  }

  ghost predicate ReadAs(r: Json, w: Json) {
    w.JObject? && ParseValue(Encode(r), 0) == Ok(w, |Encode(r)|) && (Printable(r) ==> w == r)
  }

  lemma ReadAlone(r: Json, w: Json)
    requires w.JObject? && ParseValue(Encode(r), 0) == Ok(w, |Encode(r)|)
    ensures ReadAs(r, w)
  {
    hide ParseValue, Encode, Printable;
    if Printable(r) {
      JoinedIs(r);
      DecodeEncode(r);
    }
  }

  lemma {:induction false} BlocksReread(t: Text, i: nat, results: seq<Json>) returns (found: seq<Json>)
    requires AreDumpable(results) && At(t, i, Blocks(results)) && i + |Blocks(results)| == |t|
    ensures Values(Scan(t, i)) == found && FoundFor(found, results)
    decreases |results|
  {
    hide ParseValue, At, Encode, Printable, Dumpable, HasFloats, Scan;
    if results == [] {
      found := [];
      ScanUnfolds(t, i);
      NoValues(Scan(t, i));
    } else {
      var first := results[0];
      var end := i + |Encode(first)|;
      var rest := results[1..];
      if rest == [] {
        var w := PrintedRead(t, i, first);
        ReadAlone(first, w);
        BlockOpens(t, i, first, w, end);
        found := [w];
        ScanUnfolds(t, end);
        NoValues(Scan(t, end));
        ValuesCons(Span(i, end, w), Scan(t, end));
      } else {
        AtConcat(t, i, Encode(first), [NEWLINE] + Blocks(rest));
        AtOpened(t, end, NEWLINE, Blocks(rest));
        var w := PrintedRead(t, i, first);
        ReadAlone(first, w);
        BlockOpens(t, i, first, w, end);
        ScanSkip(t, end, end + 1);
        var others := BlocksReread(t, end + 1, rest);
        ValuesCons(Span(i, end, w), Scan(t, end));
        found := [w] + others;
        forall k | 0 <= k < |found| ensures ReadAs(results[k], found[k]) {
          if k > 0 { assert found[k] == others[k - 1] && results[k] == rest[k - 1]; }
        }
      }
    }
  }

  lemma BlockOpens(t: Text, i: nat, r: Json, w: Json, end: nat)
    requires i <= |t| && r.JObject? && At(t, i, Encode(r)) && ParseValue(t, i) == Ok(w, end)
    ensures Scan(t, i) == [Span(i, end, w)] + Scan(t, end)
  {
    hide ParseValue;
    AtOpened(t, i, LBRACE, EncodeMembers(r, SortedKeys(r.fields.Keys), 0));
  }

  lemma BodyReread(spoken: Text, results: seq<Json>) returns (found: seq<Json>)
    requires AreDumpable(results)
    ensures ObjectsIn(Body(spoken, results)) == ObjectsIn(spoken) + found && FoundFor(found, results)
  {
    hide At, ParseValue, Encode, Blocks, BarrierAt, Printable, AreDumpable, FoundFor, Scan;
    var t := Body(spoken, results);
    AtSlice(t, 0, t);
    assert t[0..|t|] == t;
    if spoken == [] {
      found := BlocksReread(t, 0, results);
      ScanUnfolds(spoken, 0);
      NoValues(Scan(spoken, 0));
    } else {
      var b := |spoken|;
      AtConcat(t, 0, spoken, HEADER + Blocks(results));
      AtConcat(t, b, HEADER, Blocks(results));
      HeaderText(t, b);
      assert t[..b] == spoken;
      ScanBefore(t, b, 0);
      ScanSkip(t, b, b + |HEADER|);
      found := BlocksReread(t, b + |HEADER|, results);
      ValuesConcat(Scan(spoken, 0), Scan(t, b));
    }
  }

  /** One of the results prints the same. */
  ghost predicate PrintedIn(results: seq<Json>, p: Json) {
    exists k :: 0 <= k < |results| && Encode(results[k]) == Encode(p)
  }

  /** The results restated: each once, by its spelling, in the order the turn first bore them, and no other. */
  ghost predicate RestatedFrom(results: seq<Json>, events: seq<Event>, invocation: Text) {
    && results == FirstBy(AuditedOnly(TurnPayloads(events, invocation)), Encode)
    && (forall r :: r in results ==> Borne(events, invocation, r) && IsReported(r))
    && (forall p :: Borne(events, invocation, p) && IsReported(p) ==> PrintedIn(results, p))
    && (forall j, k :: 0 <= j < k < |results| ==> Encode(results[j]) != Encode(results[k]))
  }

  /** Whatever the events: as soon as one result of the invocation reports and none raises, the reply is
      replaced; what is read from it is what is read from the agent's last words and then one object for each
      result restated. A reported result that prints is one of them. */
  lemma RestatementRead(events: seq<Event>, invocation: Text, agent: Text, p: Json)
    returns (results: seq<Json>, found: seq<Json>)
    requires forall q :: Borne(events, invocation, q) ==> !Raises(q) && (IsReported(q) ==> HasFloats(q))
    requires Borne(events, invocation, p) && IsReported(p)
    ensures Restatement(events, invocation, agent).Replaced? && RestatedFrom(results, events, invocation)
    ensures var body := Restatement(events, invocation, agent).body; var spoken := LastSpoken(events, invocation, agent);
            && body == Body(spoken, results) && Strip(body) == body
            && ObjectsIn(body) == ObjectsIn(spoken) + found && FoundFor(found, results)
            && (forall q :: Borne(events, invocation, q) && IsReported(q) && Printable(q) ==> q in ObjectsIn(body))
  {
    hide Bears, Borne, Raises, IsReported, Faulty, Audited, Body, LastSpoken, FirstBy, Dumpable, HasFloats, Encode, ObjectsIn,
      Printable, Strip, FoundFor, AreDumpable, RestatedFrom, Distinct;
    RestatementIs(events, invocation, agent);
    var payloads := TurnPayloads(events, invocation);
    results := Distinct(payloads);
    RestatedOnce(events, invocation);
    DistinctDumpable(events, invocation);
    var spoken := LastSpoken(events, invocation, agent);
    found := BodyReread(spoken, results);
    BodyTrimmed(events, invocation, agent);
    forall q | Borne(events, invocation, q) && IsReported(q) && Printable(q)
      ensures q in ObjectsIn(Body(spoken, results))
    {
      ReportedRead(events, invocation, results, found, q);
    }
  }

  lemma RestatedOnce(events: seq<Event>, invocation: Text)
    ensures RestatedFrom(Distinct(TurnPayloads(events, invocation)), events, invocation)
  {
    hide Bears, Borne, Raises, IsReported, Audited, FirstBy, Encode;
    var payloads := TurnPayloads(events, invocation);
    var results := Distinct(payloads);
    forall r | r in results ensures Borne(events, invocation, r) && IsReported(r) {
      DistinctMember(payloads, r);
      TurnPayloadsAre(events, invocation, r);
      AuditedIs(r);
    }
    forall p | Borne(events, invocation, p) && IsReported(p) ensures PrintedIn(results, p) {
      TurnPayloadsAre(events, invocation, p);
      AuditedIs(p);
      KeptWithKey(payloads, p);
      PrintedAmong(results, p);
    }
    forall j, k | 0 <= j < k < |results| ensures Encode(results[j]) != Encode(results[k]) {
      FirstByDistinct(AuditedOnly(payloads), Encode, j, k);
    }
  }

  lemma PrintedAmong(results: seq<Json>, p: Json)
    requires exists r :: r in results && Encode(r) == Encode(p)
    ensures PrintedIn(results, p)
  {
    hide Encode;
    var r :| r in results && Encode(r) == Encode(p);
    var k :| 0 <= k < |results| && results[k] == r;
  }

  lemma DistinctDumpable(events: seq<Event>, invocation: Text)
    requires forall q :: Borne(events, invocation, q) ==> !Raises(q) && (IsReported(q) ==> HasFloats(q))
    ensures AreDumpable(Distinct(TurnPayloads(events, invocation)))
  {
    hide Bears, Borne, Audited, FirstBy, Encode, Dumpable, HasFloats, HasStatusText;
    var payloads := TurnPayloads(events, invocation);
    forall r | r in Distinct(payloads) ensures r.JObject? && Dumpable(r) && HasFloats(r) {
      DistinctMember(payloads, r);
      TurnPayloadsAre(events, invocation, r);
      AuditedIs(r);
    }
  }

  lemma BodyTrimmed(events: seq<Event>, invocation: Text, agent: Text)
    requires Restatement(events, invocation, agent).Replaced?
    ensures Strip(Restatement(events, invocation, agent).body) == Restatement(events, invocation, agent).body
  {
    hide Encode, Audited, TurnPayloads, LastSpoken, Body, Strip, Distinct, Faulty;
    var payloads := TurnPayloads(events, invocation);
    SpokenStripped(events, invocation, agent);
    forall r | r in Distinct(payloads) ensures r.JObject? { DistinctMember(payloads, r); }
    BodyKept(LastSpoken(events, invocation, agent), Distinct(payloads));
  }

  lemma ReportedRead(events: seq<Event>, invocation: Text, results: seq<Json>, found: seq<Json>, q: Json)
    requires RestatedFrom(results, events, invocation) && FoundFor(found, results)
    requires Borne(events, invocation, q) && IsReported(q) && Printable(q)
    ensures q in found
  {
    hide RestatedFrom, FoundFor, Borne, IsReported, Printable;
    var k := KeptLike(events, invocation, results, q);
    LikeRead(results, found, k, q);
  }

  lemma KeptLike(events: seq<Event>, invocation: Text, results: seq<Json>, q: Json) returns (k: nat)
    requires RestatedFrom(results, events, invocation) && Borne(events, invocation, q) && IsReported(q)
    ensures k < |results| && Encode(results[k]) == Encode(q)
  {
    hide Borne, IsReported, FirstBy, Encode, AuditedOnly, TurnPayloads, PrintedIn;
    assert PrintedIn(results, q);
    k := PrintedAt(results, q);
  }

  lemma PrintedAt(results: seq<Json>, q: Json) returns (k: nat)
    requires PrintedIn(results, q)
    ensures k < |results| && Encode(results[k]) == Encode(q)
  {
    hide Encode;
    k :| 0 <= k < |results| && Encode(results[k]) == Encode(q);
  }

  lemma LikeRead(results: seq<Json>, found: seq<Json>, k: nat, q: Json)
    requires FoundFor(found, results) && k < |results| && Encode(results[k]) == Encode(q) && Printable(q)
    ensures q in found
  {
    hide Encode, Printable, ParseValue;
    assert ReadAs(results[k], found[k]);
    JoinedIs(q);
    DecodeEncode(q);
    assert found[k] in found;
  }
}
