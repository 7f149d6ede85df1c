/** The gated action (`app/agents/math/tools.py`), and the whole way its results travel:
    restated under arbitrary prose, wrapped, flattened, scanned and matched. */
module Publishing {
  import opened Texts
  import opened Json
  import opened JsonDecode
  import opened Numerals
  import opened Printing
  import opened RoundTrip
  import opened Scanner
  import opened Contracts
  import opened Firsts
  import opened Reporting
  import opened Replies

  // --- Canonical values --------------------------------------------------------------------

  /** What `float(value)` makes of a text: not a number, an integral number, or a number
      that is not integral, by its `repr`. */
  datatype Reading = NotNumeric | Integral(n: int) | Fractional(repr: Text)

  /** Up to here every integer is a float, so reading one is exact. */
  const EXACT: int := 0x20_0000_0000_0000

  /** An optionally signed integer numeral, with or without a fraction of zeros. */
  function PlainInteger(t: Text): Option<int> {
    var k := if t != [] && (t[0] == MINUS || t[0] == PLUS) then 1 else 0;
    if !DigitAt(t, k) then None
    else
      var j := DigitsEnd(t, k);
      if j == |t| || (t[j] == DOT && forall p :: j < p < |t| ==> t[p] == ZERO)
      then Some(if CharAt(t, 0, MINUS) then -NatOf(t[k..j]) else NatOf(t[k..j]))
      else None
  }

  predicate IsExact(n: int) {
    -EXACT <= n <= EXACT
  }

  /** `float(value)`: exact on plain integers up to 2^53; any function elsewhere. */
  function Read(value: Text, float: Text -> Reading): Reading {
    match PlainInteger(Strip(value))
    case Some(n) => if IsExact(n) then Integral(n) else float(value)
    case None => float(value)
  }

  function CanonicalValue(value: Text, float: Text -> Reading): Text {
    match Read(value, float)
    case NotNumeric => value
    case Integral(n) => IntText(n)
    case Fractional(repr) => repr
  }

  lemma IntTextDigits(n: int)
    ensures var t := IntText(n); var k := if n < 0 then 1 else 0;
            k < |t| && DigitsEnd(t, k) == |t| && (if n < 0 then -NatOf(t[k..|t|]) else NatOf(t[k..|t|])) == n
            && IsDigit(t[k]) && IsDigit(t[|t| - 1])
  {
    hide NatOf, Digits, At;
    var m: nat := if n < 0 then -n else n;
    var d := Digits(m);
    var t := IntText(n);
    var k := if n < 0 then 1 else 0;
    NatOfDigits(m);
    assert t[k..] == d && t[k..|t|] == d;
    AtSlice(t, k, d);
    DigitsRun(t, k, d);
    assert t[k] == d[0] && t[|t| - 1] == d[|d| - 1];
  }

  lemma IntTextPlain(n: int)
    ensures PlainInteger(IntText(n)) == Some(n) && Strip(IntText(n)) == IntText(n)
  {
    hide NatOf, DigitsEnd, IntText, Strip;
    var t := IntText(n);
    IntTextDigits(n);
    StripFixed(t);
  }

  /** A sign or none, digits, and perhaps a point and zeros after them. */
  datatype Plain = Plain(sign: Text, digits: Text, tail: Text)

  predicate IsPlain(p: Plain) {
    && (p.sign == [] || p.sign == [MINUS] || p.sign == [PLUS]) && p.digits != [] && AllDigits(p.digits)
    && (p.tail == [] || (p.tail[0] == DOT && forall i :: 0 < i < |p.tail| ==> p.tail[i] == ZERO))
  }

  function PlainText(p: Plain): Text {
    p.sign + p.digits + p.tail
  }

  function PlainValue(p: Plain): int {
    if p.sign == [MINUS] then -NatOf(p.digits) else NatOf(p.digits)
  }

  lemma PlainRead(p: Plain)
    requires IsPlain(p)
    ensures PlainInteger(PlainText(p)) == Some(PlainValue(p))
  {
    hide NatOf, At, DigitsEnd, AllDigits, PlainText;
    var t := PlainText(p);
    var k := |p.sign|;
    var j := k + |p.digits|;
    PlainPieces(p.sign, p.digits, p.tail);
    AtSlice(t, k, p.digits);
    assert IsDigit(p.digits[0]) by { DigitAmong(p.digits); }
    DigitsRun(t, k, p.digits);
  }

  lemma PlainPieces(sign: Text, digits: Text, tail: Text)
    ensures var t := PlainText(Plain(sign, digits, tail)); var k := |sign|; var j := k + |digits|;
            && |t| == j + |tail| && t[k..j] == digits && (forall i :: 0 <= i < k ==> t[i] == sign[i])
            && (digits != [] ==> t[k] == digits[0]) && (forall i :: j <= i < |t| ==> t[i] == tail[i - j])
  {
  }

  lemma DigitAmong(d: Text)
    requires AllDigits(d) && d != []
    ensures IsDigit(d[0])
  {
  }

  /** An integer numeral is exactly that: nothing else is taken for one. */
  lemma PlainIntegerIs(t: Text, n: int)
    ensures PlainInteger(t) == Some(n) <==> exists p :: IsPlain(p) && t == PlainText(p) && n == PlainValue(p)
  {
    hide IsPlain, PlainText, PlainValue;
    if PlainInteger(t) == Some(n) { var p := PlainFound(t, n); }
    if p :| IsPlain(p) && t == PlainText(p) && n == PlainValue(p) { PlainRead(p); }
  }

  lemma PlainFound(t: Text, n: int) returns (p: Plain)
    requires PlainInteger(t) == Some(n)
    ensures IsPlain(p) && t == PlainText(p) && n == PlainValue(p)
  {
    hide NatOf, DigitsEnd, AllDigits;
    var k := if t != [] && (t[0] == MINUS || t[0] == PLUS) then 1 else 0;
    var j := DigitsEnd(t, k);
    DigitsEndIs(t, k);
    p := Plain(t[..k], t[k..j], t[j..]);
    assert t == t[..k] + t[k..j] + t[j..];
  }

  /** The same number in two spellings is published in one; two numbers never are. */
  lemma CanonicalOnIntegers(v: Text, w: Text, m: int, n: int, float: Text -> Reading)
    requires PlainInteger(Strip(v)) == Some(m) && IsExact(m)
    requires PlainInteger(Strip(w)) == Some(n) && IsExact(n)
    ensures CanonicalValue(v, float) == CanonicalValue(w, float) <==> m == n
    ensures CanonicalValue(CanonicalValue(v, float), float) == CanonicalValue(v, float)
  {
    hide Strip, PlainInteger, IntText;
    if CanonicalValue(v, float) == CanonicalValue(w, float) { IntTextInjective(m, n); }
    IntTextPlain(m);
  }

  /** In general: what `float()` refuses is published as it is, an integral number as `str()` of the int,
      any other number as its `repr`; and of integer numerals up to 2^53 the number is the one spelled. */
  lemma CanonicalIs(value: Text, float: Text -> Reading)
    ensures (exists p :: IsPlain(p) && Strip(value) == PlainText(p) && IsExact(PlainValue(p)))
            ==> exists p :: IsPlain(p) && Strip(value) == PlainText(p) && CanonicalValue(value, float) == IntText(PlainValue(p))
    ensures !(exists p :: IsPlain(p) && Strip(value) == PlainText(p) && IsExact(PlainValue(p)))
            ==> match float(value)
                case NotNumeric => CanonicalValue(value, float) == value
                case Integral(n) => CanonicalValue(value, float) == IntText(n)
                case Fractional(repr) => CanonicalValue(value, float) == repr
  {
    hide IsPlain, PlainText, PlainValue, Strip, IntText, PlainInteger;
    var t := Strip(value);
    if p :| IsPlain(p) && t == PlainText(p) && IsExact(PlainValue(p)) {
      PlainIntegerIs(t, PlainValue(p));
    } else if PlainInteger(t).Some? {
      PlainIntegerIs(t, PlainInteger(t).value);
    }
  }

  // --- The action ----------------------------------------------------------------------------

  datatype Publication = Publication(value: Text, tag: Text, approvedBy: Text)

  /** The proposed action itself, with its value already canonical. */
  function Proposal(value: Text, tag: Text): (p: Json)
    ensures p.JObject?
  {
    JObject(map[ACTION := JString(PUBLISH_ACTION), VALUE := JString(value), LABEL := JString(tag)])
  }

  function ProposedReply(value: Text, tag: Text, summary: Text): (r: Json)
    ensures r.JObject?
  {
    JObject(map[STATUS := JString(APPROVAL_REQUIRED), ACTION := JString(PUBLISH_ACTION),
                PROPOSAL := Proposal(value, tag), SUMMARY := JString(summary)])
  }

  function PublishedReply(p: Publication, note: Text): (r: Json)
    ensures r.JObject?
  {
    JObject(map[STATUS := JString(PUBLISHED), ACTION := JString(PUBLISH_ACTION), NOTE := JString(note),
                VALUE := JString(p.value), LABEL := JString(p.tag), APPROVED_BY := JString(p.approvedBy)])
  }

  function Summary(value: Text, tag: Text, repr: Text -> Text): Text {
    Ascii("Publish ") + repr(value) + Ascii(" under label ") + repr(tag) + Ascii(".")
  }

  /** One call of the gated action. */
  datatype PublishCall = PublishCall(value: Text, tag: Text, approvedBy: Text, note: Text)

  /** What `float()` and `repr()` make of a text. */
  datatype Spelling = Spelling(float: Text -> Reading, repr: Text -> Text)

  predicate HasApprover(call: PublishCall) {
    Strip(call.approvedBy) != []
  }

  /** What a call answers. */
  function ReplyTo(call: PublishCall, spelling: Spelling): (r: Json)
    ensures r.JObject?
  {
    var canonical := CanonicalValue(call.value, spelling.float);
    if HasApprover(call) then PublishedReply(Publication(canonical, call.tag, call.approvedBy), call.note)
    else ProposedReply(canonical, call.tag, Summary(canonical, call.tag, spelling.repr))
  }

  /** What a call without an approver proposes. */
  function ProposalOf(call: PublishCall, spelling: Spelling): (p: Json)
    ensures p.JObject?
  {
    Proposal(CanonicalValue(call.value, spelling.float), call.tag)
  }

  class Publisher {
    /** Where published values land. */
    var publications: seq<Publication>

    constructor ()
      ensures publications == []
    {
      publications := [];
    }

    /** Without an approver the effect is unreachable and the call only proposes; with one it
        publishes exactly one record and says which. */
    method PublishResult(call: PublishCall, spelling: Spelling) returns (reply: Json)
      modifies this
      ensures var canonical := CanonicalValue(call.value, spelling.float);
              publications == old(publications)
                + if HasApprover(call) then [Publication(canonical, call.tag, call.approvedBy)] else []
      ensures reply == ReplyTo(call, spelling)
    {
      var canonical := CanonicalValue(call.value, spelling.float);
      if Strip(call.approvedBy) == [] {
        return ProposedReply(canonical, call.tag, Summary(canonical, call.tag, spelling.repr));
      }
      var record := Publication(canonical, call.tag, call.approvedBy);
      publications := publications + [record];
      return PublishedReply(record, call.note);
    }
  }

  /** A publication's reply has these six fields and no other. */
  lemma PublishedFields(p: Publication, note: Text)
    ensures var r := PublishedReply(p, note);
            && r.fields.Keys == {STATUS, ACTION, NOTE, VALUE, LABEL, APPROVED_BY}
            && r.fields[STATUS] == JString(PUBLISHED) && r.fields[ACTION] == JString(PUBLISH_ACTION)
            && r.fields[NOTE] == JString(note) && r.fields[VALUE] == JString(p.value)
            && r.fields[LABEL] == JString(p.tag) && r.fields[APPROVED_BY] == JString(p.approvedBy)
  {
    KeysDiffer();
  }

  /** A proposal's reply has these four, and the proposal these three. */
  lemma ProposedReplyFields(value: Text, tag: Text, summary: Text)
    ensures var r := ProposedReply(value, tag, summary); var p := Proposal(value, tag);
            && r.fields.Keys == {STATUS, ACTION, PROPOSAL, SUMMARY} && p.fields.Keys == {ACTION, VALUE, LABEL}
            && r.fields[STATUS] == JString(APPROVAL_REQUIRED) && r.fields[ACTION] == JString(PUBLISH_ACTION)
            && r.fields[PROPOSAL] == p && r.fields[SUMMARY] == JString(summary)
            && p.fields[ACTION] == JString(PUBLISH_ACTION) && p.fields[VALUE] == JString(value) && p.fields[LABEL] == JString(tag)
  {
    KeysDiffer();
  }

  lemma ReplyFields(p: Publication, note: Text)
    ensures var r := PublishedReply(p, note);
            && Get(r, STATUS) == JString(PUBLISHED) && Get(r, ACTION) == JString(PUBLISH_ACTION)
            && Get(r, VALUE) == JString(p.value) && Get(r, LABEL) == JString(p.tag)
  {
    hide Ascii;
    KeysDiffer();
  }

  lemma ProposedFields(value: Text, tag: Text, summary: Text)
    ensures var r := ProposedReply(value, tag, summary);
            && Get(r, STATUS) == JString(APPROVAL_REQUIRED) && Get(r, PROPOSAL) == Proposal(value, tag)
            && ReportsProposal(r) && Audited(r)
  {
    KeysDiffer();
  }

  lemma ProposalFields(value: Text, tag: Text)
    ensures var p := Proposal(value, tag);
            && p.fields.Keys == {ACTION, VALUE, LABEL}
            && p.fields[ACTION] == JString(PUBLISH_ACTION)
            && p.fields[VALUE] == JString(value) && p.fields[LABEL] == JString(tag)
  {
    KeysDiffer();
  }

  /** A publication confirms a proposal exactly when it is the same value under the same label. */
  lemma PublicationConfirms(p: Publication, note: Text, value: Text, tag: Text)
    ensures Confirms(PublishedReply(p, note), Proposal(value, tag)) <==> p.value == value && p.tag == tag
  {
    hide Get, PublishedReply, Proposal;
    var r := PublishedReply(p, note);
    var proposal := Proposal(value, tag);
    ReplyFields(p, note);
    ProposalFields(value, tag);
    if Confirms(r, proposal) {
      assert VALUE in proposal.fields && LABEL in proposal.fields;
    }
  }

  predicate IsPublished(obj: Json) {
    obj.JObject? && HasStatus(obj, PUBLISHED)
  }

  /** The call publishes what the proposal proposes: it has an approver, the same canonical value and
      the same label. */
  predicate CarriesOut(call: PublishCall, proposed: PublishCall, spelling: Spelling) {
    HasApprover(call) && call.tag == proposed.tag
    && CanonicalValue(call.value, spelling.float) == CanonicalValue(proposed.value, spelling.float)
  }

  /** The answer to a call confirms a proposal exactly when the call carries it out. */
  lemma ReplyConfirms(call: PublishCall, proposed: PublishCall, spelling: Spelling)
    ensures IsPublished(ReplyTo(call, spelling)) <==> HasApprover(call)
    ensures Confirms(ReplyTo(call, spelling), ProposalOf(proposed, spelling)) <==> CarriesOut(call, proposed, spelling)
  {
    hide CanonicalValue, PublishedReply, ProposedReply, Strip, Proposal;
    var value := CanonicalValue(call.value, spelling.float);
    KeysDiffer();
    if HasApprover(call) {
      ReplyFields(Publication(value, call.tag, call.approvedBy), call.note);
      PublicationConfirms(Publication(value, call.tag, call.approvedBy), call.note,
                          CanonicalValue(proposed.value, spelling.float), proposed.tag);
    } else {
      ProposedFields(value, call.tag, Summary(value, call.tag, spelling.repr));
    }
  }

  /** For integers up to 2^53, however they are spelled: a call carries a proposal out exactly when it
      has an approver, the same number and the same label. */
  lemma SameNumberCarriesOut(call: PublishCall, proposed: PublishCall, spelling: Spelling, m: int, n: int)
    requires PlainInteger(Strip(proposed.value)) == Some(m) && IsExact(m)
    requires PlainInteger(Strip(call.value)) == Some(n) && IsExact(n)
    ensures CarriesOut(call, proposed, spelling) <==> HasApprover(call) && m == n && call.tag == proposed.tag
  {
    hide CanonicalValue, PlainInteger, Strip;
    CanonicalOnIntegers(proposed.value, call.value, m, n, spelling.float);
  }

  // --- The way back through the text boundary ----------------------------------------------------

  /** A proposal that can be read from a reply is among those found, however the reply is wrapped and
      whatever else the turn said. */
  lemma ProposalFoundIn(body: Text, value: Text, tag: Text, summary: Text, responses: seq<Payload>, response: Payload,
                        parts: seq<Text>, dumps: Payload -> Text)
    requires ProposedReply(value, tag, summary) in ObjectsIn(body)
    requires response in responses && Holds(response, body)
    ensures exists obj :: obj in FindProposals(ReplyTexts(responses, parts, dumps))
                          && ProposalKey(obj) == Encode(Proposal(value, tag))
                          && (Printable(Get(obj, PROPOSAL)) && Printable(Proposal(value, tag))
                              ==> Get(obj, PROPOSAL) == Proposal(value, tag))
  {
    hide ObjectsIn, Body, Encode, Printable, ReplyTexts, Holds, FirstBy, ProposedReply, Proposal;
    var texts := ReplyTexts(responses, parts, dumps);
    var report := ProposedReply(value, tag, summary);
    RepliesReach(responses, parts, dumps, response, body);
    InAllObjects(texts, body, report);
    ProposedFields(value, tag, summary);
    var reports := Reports(AllObjects(texts));
    FirstByCovers(reports, ProposalKey, report);
    var obj :| obj in FirstBy(reports, ProposalKey) && ProposalKey(obj) == ProposalKey(report);
    FirstByMember(reports, ProposalKey, obj);
    if Printable(Get(obj, PROPOSAL)) && Printable(Proposal(value, tag)) {
      EncodeInjective(Get(obj, PROPOSAL), Proposal(value, tag));
    }
  }

  /** A proposal survives: however the model words it and whatever else is restated with it. */
  lemma ProposalFound(spoken: Text, results: seq<Json>, value: Text, tag: Text, summary: Text,
                      responses: seq<Payload>, response: Payload, parts: seq<Text>, dumps: Payload -> Text)
    requires PrintableObjects(results) && ProposedReply(value, tag, summary) in results
    requires response in responses && Holds(response, Body(spoken, results))
    ensures exists obj :: obj in FindProposals(ReplyTexts(responses, parts, dumps))
                          && ProposalKey(obj) == Encode(Proposal(value, tag))
                          && (Printable(Get(obj, PROPOSAL)) ==> Get(obj, PROPOSAL) == Proposal(value, tag))
  {
    hide ObjectsIn, Body, Encode, Printable, ReplyTexts, Holds, FindProposals, ProposedReply, Proposal, Get, ProposalKey;
    BodyScan(spoken, results);
    ProposalPrintable(value, tag, summary);
    ProposalFoundIn(Body(spoken, results), value, tag, summary, responses, response, parts, dumps);
  }

  lemma ProposalPrintable(value: Text, tag: Text, summary: Text)
    requires Printable(ProposedReply(value, tag, summary))
    ensures Printable(Proposal(value, tag))
  {
    ProposedFields(value, tag, summary);
    assert PROPOSAL in ProposedReply(value, tag, summary).fields;
  }

  /** A confirmation survives the same way. */
  lemma ConfirmationFound(spoken: Text, results: seq<Json>, p: Publication, note: Text,
                          responses: seq<Payload>, response: Payload, parts: seq<Text>, dumps: Payload -> Text)
    requires PrintableObjects(results) && PublishedReply(p, note) in results
    requires response in responses && Holds(response, Body(spoken, results))
    ensures FindExecution(ReplyTexts(responses, parts, dumps), Proposal(p.value, p.tag)).Some?
  {
    hide ObjectsIn, Body, Printable, ReplyTexts, Holds, PublishedReply, Confirms;
    var texts := ReplyTexts(responses, parts, dumps);
    var body := Body(spoken, results);
    RepliesReach(responses, parts, dumps, response, body);
    BodyScan(spoken, results);
    assert PublishedReply(p, note) in ObjectsIn(body);
    InAllObjects(texts, body, PublishedReply(p, note));
    PublicationConfirms(p, note, p.value, p.tag);
  }

  /** The wrapper a body travels in. */
  function Wrapped(body: Text): Payload {
    Dict([(RESULT, Words(body))])
  }

  function WrapperText(body: Text): Text {
    Encode(JObject(map[RESULT := JString(body)]))
  }

  /** Printing the wrapper escapes the body's own JSON inside one string: all the scanner finds in
      it is the wrapper, which reports no status. */
  lemma WrapperScan(body: Text)
    ensures ObjectsIn(WrapperText(body)) == [JObject(map[RESULT := JString(JoinPairs(body))])]
  {
    hide ParseValue, Encode, ObjectsIn, Ascii, NoSplitPair, JoinPairs;
    var v := JObject(map[RESULT := JString(body)]);
    var t := WrapperText(body);
    assert NoSplitPair(RESULT) by { ResultKeyPrintable(); }
    WrapperJoined(body);
    DecodeEncode(v);
    assert CharAt(t, 0, LBRACE) by { ObjectOpens(v); }
    OneSpan(t, Joined(v));
  }

  lemma WrapperJoined(body: Text)
    ensures Joined(JObject(map[RESULT := JString(body)])) == JObject(map[RESULT := JString(JoinPairs(body))])
  {
    hide Ascii, JoinPairs;
    var v := JObject(map[RESULT := JString(body)]);
    JoinedFields(v);
    assert Joined(v).fields == map[RESULT := JString(JoinPairs(body))];
  }

  lemma ObjectOpens(v: Json)
    requires v.JObject?
    ensures CharAt(Encode(v), 0, LBRACE)
  {
  }

  lemma ResultKeyPrintable()
    ensures NoSplitPair(RESULT)
  {
  }

  lemma OneSpan(t: Text, v: Json)
    requires CharAt(t, 0, LBRACE) && ParseValue(t, 0) == Ok(v, |t|)
    ensures ObjectsIn(t) == [v]
  {
    hide ParseValue;
    assert FindBrace(t, 0) == 0 && FindBrace(t, |t|) == -1;
    assert Scan(t, 0) == [Span(0, |t|, v)] + Scan(t, |t|);
  }

  // --- The strict half -------------------------------------------------------------------------------

  /** The "published" objects in these texts are exactly the answers to those of the calls that have
      an approver. */
  ghost predicate ReportsCalls(texts: seq<Text>, calls: seq<PublishCall>, spelling: Spelling) {
    forall o :: o in AllObjects(texts) && IsPublished(o)
                <==> exists k :: 0 <= k < |calls| && HasApprover(calls[k]) && o == ReplyTo(calls[k], spelling)
  }

  /** For any texts, however they came about: when the publications in them are those of some calls,
      a proposal is confirmed exactly when one of the calls carries it out. */
  lemma OnlyTheApprovedConfirms(texts: seq<Text>, calls: seq<PublishCall>, proposed: PublishCall, spelling: Spelling)
    requires ReportsCalls(texts, calls, spelling)
    ensures FindExecution(texts, ProposalOf(proposed, spelling)).Some?
       <==> exists k :: 0 <= k < |calls| && CarriesOut(calls[k], proposed, spelling)
  {
    hide AllObjects, ReplyTo, ProposalOf, HasApprover, CanonicalValue, HasStatus;
    var proposal := ProposalOf(proposed, spelling);
    if FindExecution(texts, proposal).Some? {
      var o := FindExecution(texts, proposal).value;
      assert IsPublished(o);
      var k :| 0 <= k < |calls| && HasApprover(calls[k]) && o == ReplyTo(calls[k], spelling);
      ReplyConfirms(calls[k], proposed, spelling);
    }
    if k :| 0 <= k < |calls| && CarriesOut(calls[k], proposed, spelling) {
      ReplyConfirms(calls[k], proposed, spelling);
      assert ReplyTo(calls[k], spelling) in AllObjects(texts);
    }
  }

  /** Nothing in the text says "published". */
  ghost predicate IsQuiet(text: Text) {
    forall o :: o in ObjectsIn(text) ==> !IsPublished(o)
  }

  /** The text restates results under words that say no "published" of their own; what the results
      publish, the calls did. */
  ghost predicate Restates(text: Text, spoken: Text, results: seq<Json>, calls: seq<PublishCall>, spelling: Spelling) {
    && text == Body(spoken, results) && PrintableObjects(results) && IsQuiet(spoken)
    && forall r :: r in results && IsPublished(r)
         ==> exists k :: 0 <= k < |calls| && HasApprover(calls[k]) && r == ReplyTo(calls[k], spelling)
  }

  ghost predicate IsFaithful(text: Text, calls: seq<PublishCall>, spelling: Spelling) {
    IsQuiet(text) || exists spoken, results :: Restates(text, spoken, results, calls, spelling)
  }

  ghost predicate IsRestated(texts: seq<Text>, call: PublishCall, spelling: Spelling) {
    exists spoken, results :: Body(spoken, results) in texts && PrintableObjects(results) && ReplyTo(call, spelling) in results
  }

  /** Which texts are like that: every text scanned is free of "published" objects or restates what
      calls answered, and each call with an approver is restated in one. */
  lemma RestatedCallsReported(texts: seq<Text>, calls: seq<PublishCall>, spelling: Spelling)
    requires forall text :: text in texts ==> IsFaithful(text, calls, spelling)
    requires forall k :: 0 <= k < |calls| && HasApprover(calls[k]) ==> IsRestated(texts, calls[k], spelling)
    ensures ReportsCalls(texts, calls, spelling)
  {
    hide AllObjects, ObjectsIn, ReplyTo, HasApprover, IsPublished, Body, PrintableObjects, IsFaithful, IsRestated;
    forall o | o in AllObjects(texts) && IsPublished(o)
      ensures exists k :: 0 <= k < |calls| && HasApprover(calls[k]) && o == ReplyTo(calls[k], spelling)
    {
      var text := TextOf(texts, o);
      FaithfulPublishes(text, calls, spelling, o);
    }
    forall k | 0 <= k < |calls| && HasApprover(calls[k])
      ensures ReplyTo(calls[k], spelling) in AllObjects(texts) && IsPublished(ReplyTo(calls[k], spelling))
    {
      RestatedFound(texts, calls[k], spelling);
      ReplyConfirms(calls[k], calls[k], spelling);
    }
  }

  lemma {:induction false} TextOf(texts: seq<Text>, o: Json) returns (text: Text)
    requires o in AllObjects(texts)
    ensures text in texts && o in ObjectsIn(text)
    decreases |texts|
  {
    hide ObjectsIn;
    var n := |texts| - 1;
    if o in ObjectsIn(texts[n]) { text := texts[n]; } else { text := TextOf(texts[..n], o); }
  }

  lemma FaithfulPublishes(text: Text, calls: seq<PublishCall>, spelling: Spelling, o: Json)
    requires IsFaithful(text, calls, spelling) && o in ObjectsIn(text) && IsPublished(o)
    ensures exists k :: 0 <= k < |calls| && HasApprover(calls[k]) && o == ReplyTo(calls[k], spelling)
  {
    hide ObjectsIn, ReplyTo, HasApprover, IsPublished, Body, PrintableObjects;
    var spoken, results :| Restates(text, spoken, results, calls, spelling);
    BodyScan(spoken, results);
  }

  lemma RestatedFound(texts: seq<Text>, call: PublishCall, spelling: Spelling)
    requires IsRestated(texts, call, spelling)
    ensures ReplyTo(call, spelling) in AllObjects(texts)
  {
    hide AllObjects, ObjectsIn, ReplyTo, Body, PrintableObjects;
    var spoken, results :| Body(spoken, results) in texts && PrintableObjects(results) && ReplyTo(call, spelling) in results;
    BodyScan(spoken, results);
    InAllObjects(texts, Body(spoken, results), ReplyTo(call, spelling));
  }

  /** The wrapper an answer travels in never says "published" itself, whatever it wraps. */
  lemma WrapperIsQuiet(body: Text)
    ensures IsQuiet(WrapperText(body))
  {
    hide ObjectsIn, WrapperText;
    WrapperScan(body);
    WrapperHasNoStatus(body);
  }

  /** Whatever the tool results of a turn are wrapped in and however many there are: it is enough that
      every string inside them, every spelling of a dict and the caller's own words are so. */
  lemma RepliesReported(responses: seq<Payload>, parts: seq<Text>, dumps: Payload -> Text, calls: seq<PublishCall>,
                        spelling: Spelling)
    requires forall i, p, text :: 0 <= i < |responses| && Inside(responses[i], p) && Gives(p, text, dumps)
               ==> IsFaithful(text, calls, spelling)
    requires IsFaithful(Strip(Concat(parts)), calls, spelling)
    requires forall k :: 0 <= k < |calls| && HasApprover(calls[k])
               ==> IsRestated(ReplyTexts(responses, parts, dumps), calls[k], spelling)
    ensures ReportsCalls(ReplyTexts(responses, parts, dumps), calls, spelling)
  {
    hide ReportsCalls, IsFaithful, IsRestated, HasApprover, ReplyTexts, Inside, Gives, Strip, Concat;
    var texts := ReplyTexts(responses, parts, dumps);
    forall text | text in texts ensures IsFaithful(text, calls, spelling) {
      RepliesExactly(responses, parts, dumps, text);
      if i :| 0 <= i < |responses| && Owed(responses[i], text, dumps) {
        var p :| Inside(responses[i], p) && Gives(p, text, dumps);
      }
    }
    RestatedCallsReported(texts, calls, spelling);
  }

  /** The usual turn: one answer in the wrapper it travels in, and the caller's own quiet words. */
  lemma WrappedReplyConfirms(spoken: Text, results: seq<Json>, parts: seq<Text>, dumps: Payload -> Text,
                             calls: seq<PublishCall>, proposed: PublishCall, spelling: Spelling)
    requires Restates(Body(spoken, results), spoken, results, calls, spelling)
    requires forall k :: 0 <= k < |calls| && HasApprover(calls[k]) ==> ReplyTo(calls[k], spelling) in results
    requires IsQuiet(Strip(Concat(parts))) && dumps(Wrapped(Body(spoken, results))) == WrapperText(Body(spoken, results))
    ensures FindExecution(ReplyTexts([Wrapped(Body(spoken, results))], parts, dumps), ProposalOf(proposed, spelling)).Some?
       <==> exists k :: 0 <= k < |calls| && CarriesOut(calls[k], proposed, spelling)
  {
    hide FindExecution, CarriesOut, ReplyTo, HasApprover, ReportsCalls, Restates, IsQuiet, WrapperText, ReplyTexts, Body,
      Strip, Concat;
    var body := Body(spoken, results);
    var responses := [Wrapped(body)];
    WrapperIsQuiet(body);
    forall i, p, text | 0 <= i < |responses| && Inside(responses[i], p) && Gives(p, text, dumps)
      ensures IsFaithful(text, calls, spelling)
    {
      InsideWrapped(body, p);
    }
    assert PrintableObjects(results) by { RestatesPrintable(body, spoken, results, calls, spelling); }
    forall k | 0 <= k < |calls| && HasApprover(calls[k])
      ensures IsRestated(ReplyTexts(responses, parts, dumps), calls[k], spelling)
    {
      InsideWrapped(body, Words(body));
      assert Holds(responses[0], body);
      RepliesReach(responses, parts, dumps, responses[0], body);
    }
    RepliesReported(responses, parts, dumps, calls, spelling);
    OnlyTheApprovedConfirms(ReplyTexts(responses, parts, dumps), calls, proposed, spelling);
  }

  lemma InsideWrapped(body: Text, p: Payload)
    ensures Inside(Wrapped(body), p) <==> p == Wrapped(body) || p == Words(body)
  {
    var w := Wrapped(body);
    assert w.entries[0].1 == Words(body);
    assert Inside(Words(body), p) <==> p == Words(body);
  }

  lemma RestatesPrintable(text: Text, spoken: Text, results: seq<Json>, calls: seq<PublishCall>, spelling: Spelling)
    requires Restates(text, spoken, results, calls, spelling)
    ensures PrintableObjects(results)
  {
  }

  lemma WrapperHasNoStatus(body: Text)
    ensures !HasStatus(JObject(map[RESULT := JString(JoinPairs(body))]), PUBLISHED)
  {
    hide JoinPairs;
    KeysDiffer();
  }
}
