/** Reading proposals and confirmations back out of a turn's replies
    (`app/cluster/cases.py`, the helpers below the stores). */
module Replies {
  import opened Texts
  import opened Json
  import opened JsonDecode
  import opened Numerals
  import opened Printing
  import opened RoundTrip
  import opened Scanner
  import opened Contracts
  import opened Firsts
  import opened Reporting

  // --- Proposals -------------------------------------------------------------------------

  /** An object that reports a proposal awaiting sign-off. */
  predicate ReportsProposal(obj: Json) {
    obj.JObject? && HasStatus(obj, APPROVAL_REQUIRED) && Get(obj, PROPOSAL).JObject?
  }

  /** The canonical spelling of a reported proposal. */
  function ProposalKey(obj: Json): Text {
    if obj.JObject? then Encode(Get(obj, PROPOSAL)) else []
  }

  function Reports(objects: seq<Json>): (reports: seq<Json>)
    ensures forall r :: r in reports <==> r in objects && ReportsProposal(r)
  {
    if objects == [] then []
    else
      var last := objects[|objects| - 1];
      Reports(objects[..|objects| - 1]) + (if ReportsProposal(last) then [last] else [])
  }

  /** Every object in every reply, in order. */
  function AllObjects(texts: seq<Text>): seq<Json> {
    if texts == [] then [] else AllObjects(texts[..|texts| - 1]) + ObjectsIn(texts[|texts| - 1])
  }

  function FindProposals(texts: seq<Text>): seq<Json> {
    FirstBy(Reports(AllObjects(texts)), ProposalKey)
  }

  method FindProposalsIn(texts: seq<Text>) returns (found: seq<Json>)
    ensures found == FindProposals(texts)
  {
    hide Encode, ObjectsIn, AllObjects, ReportsProposal, Reports, ProposalKey, FirstBy, KeysOf, HasStatus, Get;
    found := [];
    var seen: set<Text> := {};
    ghost var done: seq<Json> := [];
    EmptyFind(texts);
    for n := 0 to |texts|
      invariant done == AllObjects(texts[..n])
      invariant found == FirstBy(Reports(done), ProposalKey) && seen == KeysOf(found, ProposalKey)
    {
      AllObjectsStep(texts, n);
      var objects := JsonObjectsIn(texts[n]);
      for i := 0 to |objects|
        invariant done == AllObjects(texts[..n]) + objects[..i]
        invariant found == FirstBy(Reports(done), ProposalKey) && seen == KeysOf(found, ProposalKey)
      {
        var obj := objects[i];
        FindStep(done, obj);
        if ReportsProposal(obj) {
          var key := ProposalKey(obj);
          if key !in seen {
            KeysOfSnoc(found, ProposalKey, obj);
            seen := seen + {key};
            found := found + [obj];
          }
        }
        assert objects[..i + 1] == objects[..i] + [obj];
        done := done + [obj];
      }
      assert objects[..|objects|] == objects;
    }
    assert texts[..|texts|] == texts;
  }

  lemma EmptyFind(texts: seq<Text>)
    ensures AllObjects(texts[..0]) == []
    ensures FirstBy(Reports([]), ProposalKey) == [] && KeysOf([], ProposalKey) == {}
  {
  }

  lemma AllObjectsStep(texts: seq<Text>, n: nat)
    requires n < |texts|
    ensures AllObjects(texts[..n + 1]) == AllObjects(texts[..n]) + ObjectsIn(texts[n])
  {
    assert texts[..n + 1][..n] == texts[..n] && texts[..n + 1][n] == texts[n];
  }

  lemma FindStep(done: seq<Json>, obj: Json)
    ensures FirstBy(Reports(done + [obj]), ProposalKey) ==
            var found := FirstBy(Reports(done), ProposalKey);
            if ReportsProposal(obj) && ProposalKey(obj) !in KeysOf(found, ProposalKey) then found + [obj] else found
  {
    hide ReportsProposal, ProposalKey, KeysOf, FirstBy;
    assert (done + [obj])[..|done|] == done;
    FirstBySnoc(Reports(done), ProposalKey, obj);
    assert Reports(done) + [] == Reports(done);
  }

  lemma {:induction false} AllObjectsConcat(a: seq<Text>, b: seq<Text>)
    ensures AllObjects(a + b) == AllObjects(a) + AllObjects(b)
  {
    hide ObjectsIn;
    if b == [] {
      assert a + b == a;
    } else {
      var n := |b| - 1;
      AllObjectsConcat(a, b[..n]);
      assert (a + b)[..|a| + n] == a + b[..n];
      assert AllObjects(b) == AllObjects(b[..n]) + ObjectsIn(b[n]);
    }
  }

  lemma ReportsSnoc(objects: seq<Json>, obj: Json)
    ensures Reports(objects + [obj]) == Reports(objects) + if ReportsProposal(obj) then [obj] else []
  {
    hide ReportsProposal;
    assert (objects + [obj])[..|objects|] == objects;
  }

  lemma {:induction false} ReportsConcat(a: seq<Json>, b: seq<Json>)
    ensures Reports(a + b) == Reports(a) + Reports(b)
  {
    hide ReportsProposal, Reports;
    if b == [] {
      assert a + b == a && Reports(b) == [] by { NoReports(b); }
    } else {
      var init := b[..|b| - 1];
      var last := b[|b| - 1];
      assert b == init + [last] && a + b == (a + init) + [last];
      ReportsConcat(a, init);
      ReportsSnoc(init, last);
      ReportsSnoc(a + init, last);
    }
  }

  /** What is scanned comes in the order of the texts, and what of it reports in that order. */
  lemma ReportsInOrder(a: seq<Text>, b: seq<Text>, t: Text, obj: Json)
    ensures AllObjects(a + b) == AllObjects(a) + AllObjects(b) && AllObjects([t]) == ObjectsIn(t)
    ensures Reports([obj]) == if ReportsProposal(obj) then [obj] else []
    ensures Reports(AllObjects(a + b)) == Reports(AllObjects(a)) + Reports(AllObjects(b))
  {
    hide ReportsProposal, ObjectsIn, Reports;
    AllObjectsConcat(a, b);
    AllObjectsCons([t], 0);
    NoObjects([t][1..]);
    assert [t][0..] == [t];
    ReportsSnoc([], obj);
    NoReports([]);
    assert [] + [obj] == [obj];
    ReportsConcat(AllObjects(a), AllObjects(b));
  }

  /** A report is a dict that says "approval_required" and holds the proposal as a dict. */
  lemma ReportsProposalIs(obj: Json)
    ensures ReportsProposal(obj)
       <==> obj.JObject? && Ascii("status") in obj.fields && obj.fields[Ascii("status")] == JString(Ascii("approval_required"))
            && Ascii("proposal") in obj.fields && obj.fields[Ascii("proposal")].JObject?
    ensures ReportsProposal(obj) ==> ProposalKey(obj) == Encode(obj.fields[Ascii("proposal")])
  {
    hide Ascii, Encode;
  }

  lemma NoReports(objects: seq<Json>)
    requires objects == []
    ensures Reports(objects) == []
  {
  }

  lemma InAllObjects(texts: seq<Text>, text: Text, obj: Json)
    requires text in texts && obj in ObjectsIn(text)
    ensures obj in AllObjects(texts)
  {
    hide ObjectsIn;
    var n := |texts| - 1;
    assert texts == texts[..n] + [texts[n]];
    if text != texts[n] { InAllObjects(texts[..n], text, obj); }
  }

  /** Saying everything twice, as a tool result and its narration do, finds nothing more. */
  lemma FindDoubled(texts: seq<Text>)
    ensures FindProposals(texts + texts) == FindProposals(texts)
  {
    AllObjectsConcat(texts, texts);
    var reports := Reports(AllObjects(texts));
    ReportsConcat(AllObjects(texts), AllObjects(texts));
    FirstBySeen(reports, reports, ProposalKey);
  }

  /** One entry per canonical proposal: each reported proposal has an entry, no two entries
      share one, and entries come in the order their proposals were first reported. */
  lemma FindOnePerProposal(texts: seq<Text>) returns (at: seq<nat>)
    ensures var found := FindProposals(texts); var reports := Reports(AllObjects(texts));
            && |at| == |found|
            && (forall k :: 0 <= k < |at| ==> at[k] < |reports| && reports[at[k]] == found[k])
            && (forall k, j :: 0 <= k < |at| && 0 <= j < at[k] ==> ProposalKey(reports[j]) != ProposalKey(found[k]))
            && (forall j, k :: 0 <= j < k < |at| ==> at[j] < at[k])
            && (forall j, k :: 0 <= j < k < |found| ==> ProposalKey(found[j]) != ProposalKey(found[k]))
            && (forall r :: r in reports ==> exists k :: 0 <= k < |found| && ProposalKey(found[k]) == ProposalKey(r))
  {
    hide ProposalKey, Reports, AllObjects, FirstBy;
    var reports := Reports(AllObjects(texts));
    var found := FindProposals(texts);
    at := FirstByPositions(reports, ProposalKey);
    forall j, k | 0 <= j < k < |found| ensures ProposalKey(found[j]) != ProposalKey(found[k]) {
      FirstByDistinct(reports, ProposalKey, j, k);
    }
    forall r | r in reports ensures exists k :: 0 <= k < |found| && ProposalKey(found[k]) == ProposalKey(r) {
      FirstByCovers(reports, ProposalKey, r);
      var y :| y in found && ProposalKey(y) == ProposalKey(r);
      var k :| 0 <= k < |found| && found[k] == y;
    }
  }

  // --- Confirmations ------------------------------------------------------------------------

  /** Does this object confirm that this proposal ran: it says so, and every scalar it was
      approved with is the one it reports. */
  predicate Confirms(obj: Json, proposal: Json)
    requires proposal.JObject?
  {
    obj.JObject? && HasStatus(obj, PUBLISHED)
    && forall key :: key in proposal.fields && IsScalar(proposal.fields[key]) ==> Equals(Get(obj, key), proposal.fields[key])
  }

  /** The number a value counts as, if it is one. */
  ghost predicate Amounts(v: Json, x: real) {
    match v
    case JBool(b) => x == if b then 1.0 else 0.0
    case JInt(n) => x == n as real
    case JFloat(lexeme) => exists n :: IsNumber(n) && lexeme == Spell(n) && x == Worth(n)
    case _ => false
  }

  ghost predicate SameNumber(a: Json, b: Json) {
    (exists x :: Amounts(a, x) && Amounts(b, x)) || (a == b && (a == JFloat(INFINITY) || a == JFloat([MINUS] + INFINITY)))
  }

  ghost predicate IsGoodScalar(v: Json) {
    v.JFloat? ==> GoodFloat(v.lexeme)
  }

  lemma AmountIs(v: Json, x: real)
    requires IsGoodScalar(v)
    ensures Amounts(v, x) <==> NumberOf(v) == Some(Finite(x))
  {
    hide Worth, Spell, FloatNumber, IsNumber;
    if v.JFloat? {
      if n :| IsNumber(n) && v.lexeme == Spell(n) {
        FloatNumberIs(n);
        forall m | IsNumber(m) && v.lexeme == Spell(m) ensures Worth(m) == Worth(n) { FloatNumberIs(m); }
      } else {
        NamedNumbers();
      }
    }
  }

  /** Two scalars are equal when they are one string or one number, however the number is spelled. */
  lemma EqualsIs(a: Json, b: Json)
    requires IsScalar(b) && IsGoodScalar(a) && IsGoodScalar(b)
    ensures Equals(a, b) <==> if b.JString? then a == b else SameNumber(a, b)
  {
    hide Amounts, FloatNumber, GoodFloat;
    if !b.JString? {
      if Equals(a, b) && NumberOf(b).value.Finite? {
        var x := NumberOf(b).value.x;
        AmountIs(a, x);
        AmountIs(b, x);
      }
      if Equals(a, b) && NumberOf(b).value.Infinite? {
        NamedInfinite(a);
        NamedInfinite(b);
      }
      if x :| Amounts(a, x) && Amounts(b, x) {
        AmountIs(a, x);
        AmountIs(b, x);
      }
      NamedNumbers();
    }
  }

  lemma NamedInfinite(v: Json)
    requires IsGoodScalar(v) && NumberOf(v).Some? && NumberOf(v).value.Infinite?
    ensures v == JFloat(if NumberOf(v).value.negative then [MINUS] + INFINITY else INFINITY)
  {
    hide Worth, Spell, FloatNumber, IsNumber;
    NamedNumbers();
    if n :| IsNumber(n) && v.lexeme == Spell(n) { FloatNumberIs(n); }
  }

  /** The object's field matches what the proposal has there: the same string, or the same number, True and
      False being 1 and 0. Nothing is asked where the proposal has a list, a dict or a null. */
  ghost predicate Matches(obj: Json, key: Text, wanted: Json)
    requires obj.JObject?
  {
    match wanted
    case JString(_) => key in obj.fields && obj.fields[key] == wanted
    case JBool(_) => key in obj.fields && SameNumber(obj.fields[key], wanted)
    case JInt(_) => key in obj.fields && SameNumber(obj.fields[key], wanted)
    case JFloat(_) => key in obj.fields && SameNumber(obj.fields[key], wanted)
    case _ => true
  }

  /** An object confirms a proposal exactly when it says "published" and every field of the proposal is
      matched. */
  lemma ConfirmsIs(obj: Json, proposal: Json)
    requires proposal.JObject? && HasFloats(proposal) && HasFloats(obj)
    ensures Confirms(obj, proposal)
       <==> obj.JObject? && Ascii("status") in obj.fields && obj.fields[Ascii("status")] == JString(Ascii("published"))
            && forall key :: key in proposal.fields ==> Matches(obj, key, proposal.fields[key])
  {
    hide Ascii, Equals, GoodFloat, Matches;
    if obj.JObject? {
      forall key | key in proposal.fields
        ensures (IsScalar(proposal.fields[key]) ==> Equals(Get(obj, key), proposal.fields[key]))
           <==> Matches(obj, key, proposal.fields[key])
      {
        FieldEquals(obj, key, proposal.fields[key]);
      }
    }
  }

  lemma FieldEquals(obj: Json, key: Text, wanted: Json)
    requires obj.JObject? && HasFloats(obj) && HasFloats(wanted)
    ensures (IsScalar(wanted) ==> Equals(Get(obj, key), wanted)) <==> Matches(obj, key, wanted)
  {
    hide SameNumber, GoodFloat;
    if key in obj.fields && IsScalar(wanted) {
      assert HasFloats(obj.fields[key]);
      EqualsIs(obj.fields[key], wanted);
    }
  }

  function FirstConfirming(objects: seq<Json>, proposal: Json): (r: Option<Json>)
    requires proposal.JObject?
    ensures r.Some? ==> r.value in objects && Confirms(r.value, proposal)
    ensures r.None? ==> forall o :: o in objects ==> !Confirms(o, proposal)
  {
    if objects == [] then None
    else if Confirms(objects[0], proposal) then Some(objects[0])
    else FirstConfirming(objects[1..], proposal)
  }

  /** `find_execution(texts, proposal)`. */
  function FindExecution(texts: seq<Text>, proposal: Json): (r: Option<Json>)
    requires proposal.JObject?
    ensures r.Some? ==> r.value in AllObjects(texts) && Confirms(r.value, proposal)
    ensures r.None? ==> forall o :: o in AllObjects(texts) ==> !Confirms(o, proposal)
  {
    FirstConfirming(AllObjects(texts), proposal)
  }

  predicate ConfirmsFirst(objects: seq<Json>, proposal: Json, i: nat)
    requires proposal.JObject?
  {
    i < |objects| && Confirms(objects[i], proposal) && forall j :: 0 <= j < i ==> !Confirms(objects[j], proposal)
  }

  lemma {:induction false} FirstConfirmingIs(objects: seq<Json>, proposal: Json) returns (i: nat)
    requires proposal.JObject? && FirstConfirming(objects, proposal).Some?
    ensures ConfirmsFirst(objects, proposal, i) && FirstConfirming(objects, proposal) == Some(objects[i])
    decreases |objects|
  {
    hide Confirms;
    i := 0;
    if !Confirms(objects[0], proposal) {
      var n := FirstConfirmingIs(objects[1..], proposal);
      i := n + 1;
      assert objects[i] == objects[1..][n];
      forall j | 0 <= j < i ensures !Confirms(objects[j], proposal) {
        if j > 0 { assert objects[j] == objects[1..][j - 1]; }
      }
    }
  }

  /** What is returned is the first object, in reply order, that confirms the proposal. */
  lemma FindExecutionIsFirst(texts: seq<Text>, proposal: Json) returns (i: nat)
    requires proposal.JObject? && FindExecution(texts, proposal).Some?
    ensures ConfirmsFirst(AllObjects(texts), proposal, i) && FindExecution(texts, proposal) == Some(AllObjects(texts)[i])
  {
    hide Confirms, AllObjects, FirstConfirming, ConfirmsFirst;
    i := FirstConfirmingIs(AllObjects(texts), proposal);
    assert i < |AllObjects(texts)| by { ConfirmsIndex(AllObjects(texts), proposal, i); }
  }

  lemma ConfirmsIndex(objects: seq<Json>, proposal: Json, i: nat)
    requires proposal.JObject? && ConfirmsFirst(objects, proposal, i)
    ensures i < |objects|
  {
  }

  method FindExecutionIn(texts: seq<Text>, proposal: Json) returns (r: Option<Json>)
    requires proposal.JObject?
    ensures r == FindExecution(texts, proposal)
  {
    hide Confirms, ObjectsIn, AllObjects;
    assert texts[0..] == texts;
    for n := 0 to |texts|
      invariant FindExecution(texts, proposal) == FirstConfirming(AllObjects(texts[n..]), proposal)
    {
      var objects := JsonObjectsIn(texts[n]);
      ghost var rest := AllObjects(texts[n + 1..]);
      AllObjectsCons(texts, n);
      assert objects[0..] == objects;
      for i := 0 to |objects|
        invariant FindExecution(texts, proposal) == FirstConfirming(objects[i..] + rest, proposal)
      {
        assert objects[i..] + rest == [objects[i]] + (objects[i + 1..] + rest);
        if Confirms(objects[i], proposal) {
          return Some(objects[i]);
        }
      }
      assert objects[|objects|..] + rest == rest;
    }
    NoObjects(texts[|texts|..]);
    return None;
  }

  lemma AllObjectsCons(texts: seq<Text>, n: nat)
    requires n < |texts|
    ensures AllObjects(texts[n..]) == ObjectsIn(texts[n]) + AllObjects(texts[n + 1..])
  {
    hide ObjectsIn;
    assert texts[n..] == [texts[n]] + texts[n + 1..];
    AllObjectsConcat([texts[n]], texts[n + 1..]);
    var one := [texts[n]];
    assert one[..0] + one == one && AllObjects(one[..0]) == [];
    assert AllObjects([texts[n]]) == ObjectsIn(texts[n]);
  }

  lemma NoObjects(texts: seq<Text>)
    requires texts == []
    ensures AllObjects(texts) == []
  {
  }

  // --- Flattening tool results -----------------------------------------------------------------

  /** A tool result as it arrives: strings, dicts and lists of them, None, anything else. */
  datatype Payload =
    | Nothing
    | Words(text: Text)
    | Dict(entries: seq<(Text, Payload)>)
    | Items(items: seq<Payload>)
    | Other

  /** Every string worth scanning. `dumps` is `json.dumps(..., default=str)`. */
  function Unpack(payload: Payload, dumps: Payload -> Text): seq<Text>
    decreases payload, 1, 0
  {
    match payload
    case Words(text) => [text]
    case Dict(entries) => [dumps(payload)] + UnpackEntries(payload, 0, dumps)
    case Items(items) => UnpackItems(payload, 0, dumps)
    case _ => []
  }

  function UnpackEntries(payload: Payload, i: nat, dumps: Payload -> Text): seq<Text>
    requires payload.Dict? && i <= |payload.entries|
    decreases payload, 0, |payload.entries| - i
  {
    if i == |payload.entries| then []
    else Unpack(payload.entries[i].1, dumps) + UnpackEntries(payload, i + 1, dumps)
  }

  function UnpackItems(payload: Payload, i: nat, dumps: Payload -> Text): seq<Text>
    requires payload.Items? && i <= |payload.items|
    decreases payload, 0, |payload.items| - i
  {
    if i == |payload.items| then []
    else Unpack(payload.items[i], dumps) + UnpackItems(payload, i + 1, dumps)
  }

  /** A string, dict or list that is the tool result or stands somewhere inside it. */
  ghost predicate Inside(payload: Payload, p: Payload) {
    p == payload
    || (payload.Dict? && exists i :: 0 <= i < |payload.entries| && Inside(payload.entries[i].1, p))
    || (payload.Items? && exists i :: 0 <= i < |payload.items| && Inside(payload.items[i], p))
  }

  ghost predicate Holds(payload: Payload, text: Text) {
    Inside(payload, Words(text))
  }

  /** A text that the flattening owes to this part of a tool result. */
  predicate Gives(p: Payload, text: Text, dumps: Payload -> Text) {
    p == Words(text) || (p.Dict? && text == dumps(p))
  }

  ghost predicate Owed(payload: Payload, text: Text, dumps: Payload -> Text) {
    exists p :: Inside(payload, p) && Gives(p, text, dumps)
  }

  lemma {:induction false} EntriesMember(payload: Payload, i: nat, text: Text, dumps: Payload -> Text)
    requires payload.Dict? && i <= |payload.entries|
    ensures text in UnpackEntries(payload, i, dumps)
       <==> exists k :: i <= k < |payload.entries| && text in Unpack(payload.entries[k].1, dumps)
    decreases |payload.entries| - i
  {
    if i < |payload.entries| { EntriesMember(payload, i + 1, text, dumps); }
  }

  lemma {:induction false} ItemsMember(payload: Payload, i: nat, text: Text, dumps: Payload -> Text)
    requires payload.Items? && i <= |payload.items|
    ensures text in UnpackItems(payload, i, dumps)
       <==> exists k :: i <= k < |payload.items| && text in Unpack(payload.items[k], dumps)
    decreases |payload.items| - i
  {
    if i < |payload.items| { ItemsMember(payload, i + 1, text, dumps); }
  }

  lemma OwedByEntry(payload: Payload, text: Text, dumps: Payload -> Text)
    requires payload.Dict?
    ensures Owed(payload, text, dumps)
       <==> text == dumps(payload) || exists k :: 0 <= k < |payload.entries| && Owed(payload.entries[k].1, text, dumps)
  {
    if p :| Inside(payload, p) && Gives(p, text, dumps) && p != payload {
      var k :| 0 <= k < |payload.entries| && Inside(payload.entries[k].1, p);
      assert Owed(payload.entries[k].1, text, dumps);
    }
    if text == dumps(payload) { assert Inside(payload, payload) && Gives(payload, text, dumps); }
    if k :| 0 <= k < |payload.entries| && Owed(payload.entries[k].1, text, dumps) {
      var p :| Inside(payload.entries[k].1, p) && Gives(p, text, dumps);
      assert Inside(payload, p);
    }
  }

  lemma OwedByItem(payload: Payload, text: Text, dumps: Payload -> Text)
    requires payload.Items?
    ensures Owed(payload, text, dumps) <==> exists k :: 0 <= k < |payload.items| && Owed(payload.items[k], text, dumps)
  {
    if p :| Inside(payload, p) && Gives(p, text, dumps) {
      var k :| 0 <= k < |payload.items| && Inside(payload.items[k], p);
      assert Owed(payload.items[k], text, dumps);
    }
    if k :| 0 <= k < |payload.items| && Owed(payload.items[k], text, dumps) {
      var p :| Inside(payload.items[k], p) && Gives(p, text, dumps);
      assert Inside(payload, p);
    }
  }

  lemma OwedAlone(payload: Payload, text: Text, dumps: Payload -> Text)
    requires !payload.Dict? && !payload.Items?
    ensures Owed(payload, text, dumps) <==> payload == Words(text)
  {
    if payload == Words(text) { assert Inside(payload, payload) && Gives(payload, text, dumps); }
  }

  /** The texts scanned are exactly the strings inside the tool result, however deep, and the
      spellings of its dicts. */
  lemma {:induction false} UnpackIsOwed(payload: Payload, text: Text, dumps: Payload -> Text)
    ensures text in Unpack(payload, dumps) <==> Owed(payload, text, dumps)
    decreases payload
  {
    hide Owed, UnpackEntries, UnpackItems;
    match payload
    case Dict(entries) =>
      OwedByEntry(payload, text, dumps);
      EntriesMember(payload, 0, text, dumps);
      forall k | 0 <= k < |entries| ensures text in Unpack(entries[k].1, dumps) <==> Owed(entries[k].1, text, dumps) {
        UnpackIsOwed(entries[k].1, text, dumps);
      }
    case Items(items) =>
      OwedByItem(payload, text, dumps);
      ItemsMember(payload, 0, text, dumps);
      forall k | 0 <= k < |items| ensures text in Unpack(items[k], dumps) <==> Owed(items[k], text, dumps) {
        UnpackIsOwed(items[k], text, dumps);
      }
    case _ => OwedAlone(payload, text, dumps);
  }

  /** However deeply a reply is wrapped, it is scanned. */
  lemma UnpackReaches(payload: Payload, text: Text, dumps: Payload -> Text)
    requires Holds(payload, text)
    ensures text in Unpack(payload, dumps)
  {
    hide Inside;
    assert Gives(Words(text), text, dumps);
    UnpackIsOwed(payload, text, dumps);
  }

  /** `reply_texts(event)`: the strings of its tool results, then its own words if any. */
  function ReplyTexts(responses: seq<Payload>, parts: seq<Text>, dumps: Payload -> Text): seq<Text> {
    if responses == [] then
      var body := Strip(Concat(parts));
      if body == [] then [] else [body]
    else Unpack(responses[0], dumps) + ReplyTexts(responses[1..], parts, dumps)
  }

  /** Exactly what the event's tool results and its own words give is scanned. */
  lemma {:induction false} RepliesExactly(responses: seq<Payload>, parts: seq<Text>, dumps: Payload -> Text, text: Text)
    ensures text in ReplyTexts(responses, parts, dumps)
       <==> (exists i :: 0 <= i < |responses| && Owed(responses[i], text, dumps)) || (text != [] && text == Strip(Concat(parts)))
    decreases |responses|
  {
    hide Unpack, Owed, Strip, Concat;
    if responses != [] {
      var rest := responses[1..];
      RepliesExactly(rest, parts, dumps, text);
      UnpackIsOwed(responses[0], text, dumps);
      if i :| 0 <= i < |rest| && Owed(rest[i], text, dumps) { assert responses[i + 1] == rest[i]; }
      if i :| 0 <= i < |responses| && Owed(responses[i], text, dumps) && i > 0 { assert rest[i - 1] == responses[i]; }
    }
  }

  lemma {:induction false} RepliesReach(responses: seq<Payload>, parts: seq<Text>, dumps: Payload -> Text,
                                        response: Payload, text: Text)
    requires response in responses && Holds(response, text)
    ensures text in ReplyTexts(responses, parts, dumps)
  {
    hide Unpack, Holds;
    if response == responses[0] {
      UnpackReaches(response, text, dumps);
    } else {
      assert response in responses[1..];
      RepliesReach(responses[1..], parts, dumps, response, text);
    }
  }

  /** The texts of several payloads, one payload after another. */
  function Flat(payloads: seq<Payload>, dumps: Payload -> Text): seq<Text> {
    if payloads == [] then [] else Unpack(payloads[0], dumps) + Flat(payloads[1..], dumps)
  }

  function Entries(payload: Payload): (payloads: seq<Payload>)
    requires payload.Dict?
  {
    seq(|payload.entries|, i requires 0 <= i < |payload.entries| => payload.entries[i].1)
  }

  lemma {:induction false} ItemsFlat(payload: Payload, i: nat, dumps: Payload -> Text)
    requires payload.Items? && i <= |payload.items|
    ensures UnpackItems(payload, i, dumps) == Flat(payload.items[i..], dumps)
    decreases |payload.items| - i
  {
    hide Unpack;
    if i < |payload.items| {
      ItemsFlat(payload, i + 1, dumps);
      assert payload.items[i..][1..] == payload.items[i + 1..];
    }
  }

  lemma {:induction false} EntriesFlat(payload: Payload, i: nat, dumps: Payload -> Text)
    requires payload.Dict? && i <= |payload.entries|
    ensures UnpackEntries(payload, i, dumps) == Flat(Entries(payload)[i..], dumps)
    decreases |payload.entries| - i
  {
    hide Unpack;
    if i < |payload.entries| {
      EntriesFlat(payload, i + 1, dumps);
      assert Entries(payload)[i..][1..] == Entries(payload)[i + 1..];
    }
  }

  /** The texts in their order: a dict's own spelling before what its values hold, values and items as they
      come, the tool results before the event's own words, which are there when they are not blank. */
  lemma TextsInOrder(payload: Payload, responses: seq<Payload>, parts: seq<Text>, dumps: Payload -> Text)
    ensures Unpack(payload, dumps) ==
            match payload
            case Words(text) => [text]
            case Dict(_) => [dumps(payload)] + Flat(Entries(payload), dumps)
            case Items(items) => Flat(items, dumps)
            case _ => []
    ensures ReplyTexts(responses, parts, dumps)
         == Flat(responses, dumps) + if IsBlank(Concat(parts)) then [] else [Strip(Concat(parts))]
  {
    hide Strip, Concat;
    match payload {
      case Dict(_) =>
        EntriesFlat(payload, 0, dumps);
        assert Entries(payload)[0..] == Entries(payload);
      case Items(items) =>
        ItemsFlat(payload, 0, dumps);
        assert items[0..] == items;
      case _ =>
    }
    RepliesFlat(responses, parts, dumps);
    BlankStrips(Concat(parts));
  }

  lemma {:induction false} RepliesFlat(responses: seq<Payload>, parts: seq<Text>, dumps: Payload -> Text)
    ensures ReplyTexts(responses, parts, dumps)
         == Flat(responses, dumps) + if Strip(Concat(parts)) == [] then [] else [Strip(Concat(parts))]
    decreases |responses|
  {
    hide Unpack, Strip, Concat;
    if responses != [] { RepliesFlat(responses[1..], parts, dumps); }
  }
}
