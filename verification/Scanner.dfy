/** The tolerant scanner: every JSON object that can be decoded out of arbitrary text,
    leftmost first, never two that overlap. */
module Scanner {
  import opened Texts
  import opened Json
  import opened JsonDecode
  import opened Barrier

  /** A decoded object and the stretch of text it was decoded from. */
  datatype Span = Span(start: nat, end: nat, value: Json)

  /** `text.find("{", i)`. */
  function FindBrace(t: Text, i: nat): (j: int)
    ensures j == -1 || (i <= j < |t| && t[j] == LBRACE)
    ensures forall p :: i <= p < |t| && (j == -1 || p < j) ==> t[p] != LBRACE
    decreases |t| - i
  {
    if i >= |t| then -1 else if t[i] == LBRACE then i else FindBrace(t, i + 1)
  }

  /** The spans the scanner takes from `i` on. */
  function Scan(t: Text, i: nat): seq<Span>
    requires i <= |t|
    decreases |t| - i
  {
    var index := FindBrace(t, i);
    if index == -1 then []
    else
      match ParseValue(t, index)
      case Fail => Scan(t, index + 1)
      case Ok(value, end) => [Span(index, end, value)] + Scan(t, end)
  }

  function Values(spans: seq<Span>): seq<Json> {
    seq(|spans|, k requires 0 <= k < |spans| => spans[k].value)
  }

  /** `_json_objects_in(text)`. */
  function ObjectsIn(t: Text): seq<Json> {
    Values(Scan(t, 0))
  }

  method JsonObjectsIn(text: Text) returns (found: seq<Json>)
    ensures found == ObjectsIn(text)
  {
    hide ParseValue, Scan, Values;
    found := [];
    var index := FindBrace(text, 0);
    ghost var from: nat := 0;
    while index != -1
      invariant from <= |text| && index == FindBrace(text, from)
      invariant found + Values(Scan(text, from)) == ObjectsIn(text)
      decreases |text| - from
    {
      ScanUnfolds(text, from);
      match ParseValue(text, index)
      case Fail =>
        from := index + 1;
        index := FindBrace(text, index + 1);
      case Ok(value, end) =>
        BraceStartsObject(text, index);
        if value.JObject? {
          ValuesCons(Span(index, end, value), Scan(text, end));
          found := found + [value];
          from := end;
          index := FindBrace(text, end);
        } else {
          assert false;
        }
    }
    ScanUnfolds(text, from);
    NoValues(Scan(text, from));
  }

  lemma ScanUnfolds(t: Text, i: nat)
    requires i <= |t|
    ensures var index := FindBrace(t, i);
            if index == -1 then Scan(t, i) == []
            else match ParseValue(t, index)
              case Fail => Scan(t, i) == Scan(t, index + 1)
              case Ok(value, end) => Scan(t, i) == [Span(index, end, value)] + Scan(t, end)
  {
    hide ParseValue;
  }

  lemma NoValues(spans: seq<Span>)
    requires spans == []
    ensures Values(spans) == []
  {
  }

  lemma ValuesCons(span: Span, rest: seq<Span>)
    ensures Values([span] + rest) == [span.value] + Values(rest)
  {
  }

  lemma ValuesConcat(a: seq<Span>, b: seq<Span>)
    ensures Values(a + b) == Values(a) + Values(b)
  {
  }

  /** What decodes at a brace is an object, so the scanner's type test never fails. */
  lemma BraceStartsObject(t: Text, i: nat)
    requires CharAt(t, i, LBRACE) && ParseValue(t, i).Ok?
    ensures ParseValue(t, i).value.JObject?
  {
  }

  // --- What the scanner finds, said without the loop ---------------------------------------

  ghost predicate Decodable(t: Text, p: nat) {
    CharAt(t, p, LBRACE) && ParseValue(t, p).Ok?
  }

  ghost predicate Covered(spans: seq<Span>, p: nat) {
    exists k :: 0 <= k < |spans| && spans[k].start <= p < spans[k].end
  }

  ghost predicate DecodedAt(t: Text, span: Span) {
    Decodable(t, span.start) && ParseValue(t, span.start) == Ok(span.value, span.end)
  }

  ghost predicate AllDecoded(t: Text, i: nat, spans: seq<Span>) {
    forall k :: 0 <= k < |spans| ==> i <= spans[k].start && DecodedAt(t, spans[k])
  }

  ghost predicate Disjoint(spans: seq<Span>) {
    forall j, k :: 0 <= j < k < |spans| ==> spans[j].end <= spans[k].start
  }

  ghost predicate NothingMissed(t: Text, i: nat, spans: seq<Span>) {
    forall p: nat :: i <= p && Decodable(t, p) ==> Covered(spans, p)
  }

  /** Each span is a decoded object, spans are in order and do not overlap, and every
      position where an object could be decoded lies in a span: it starts one, or an
      object that started earlier already holds it. */
  ghost predicate LeftmostFrom(t: Text, i: nat, spans: seq<Span>) {
    AllDecoded(t, i, spans) && Disjoint(spans) && NothingMissed(t, i, spans)
  }

  lemma CoveredCons(first: Span, rest: seq<Span>, p: nat)
    ensures Covered([first] + rest, p) <==> first.start <= p < first.end || Covered(rest, p)
  {
    var spans := [first] + rest;
    if Covered(rest, p) {
      var k :| 0 <= k < |rest| && rest[k].start <= p < rest[k].end;
      assert spans[k + 1] == rest[k];
    }
    if first.start <= p < first.end { assert spans[0] == first; }
    if Covered(spans, p) && !(first.start <= p < first.end) {
      var k :| 0 <= k < |spans| && spans[k].start <= p < spans[k].end;
      assert rest[k - 1] == spans[k];
    }
  }

  lemma SpanFilled(t: Text, span: Span)
    requires DecodedAt(t, span)
    ensures span.start < span.end <= |t|
  {
  }

  /** A decoded first span in front of a leftmost decoding of what follows it. */
  lemma LeftmostCons(t: Text, i: nat, first: Span, rest: seq<Span>)
    requires i <= first.start && DecodedAt(t, first)
    requires forall p: nat :: i <= p < first.start ==> !Decodable(t, p)
    requires LeftmostFrom(t, first.end, rest)
    ensures LeftmostFrom(t, i, [first] + rest)
  {
    hide DecodedAt, Decodable, Covered;
    SpanFilled(t, first);
    forall p: nat | i <= p && Decodable(t, p) ensures Covered([first] + rest, p) {
      CoveredCons(first, rest, p);
    }
  }

  lemma LeftmostTail(t: Text, i: nat, first: Span, rest: seq<Span>)
    requires LeftmostFrom(t, i, [first] + rest)
    ensures i <= first.start && DecodedAt(t, first)
    ensures LeftmostFrom(t, first.end, rest)
  {
    hide DecodedAt, Decodable, Covered;
    var spans := [first] + rest;
    assert spans[0] == first;
    SpanFilled(t, first);
    forall k | 0 <= k < |rest| ensures first.end <= rest[k].start && DecodedAt(t, rest[k]) {
      assert spans[k + 1] == rest[k];
    }
    forall j, k | 0 <= j < k < |rest| ensures rest[j].end <= rest[k].start {
      assert spans[j + 1] == rest[j] && spans[k + 1] == rest[k];
    }
    forall p: nat | first.end <= p && Decodable(t, p) ensures Covered(rest, p) {
      CoveredCons(first, rest, p);
    }
  }

  lemma {:induction false} ScanLeftmost(t: Text, i: nat)
    requires i <= |t|
    ensures LeftmostFrom(t, i, Scan(t, i))
    decreases |t| - i
  {
    hide ParseValue, Covered;
    var index := FindBrace(t, i);
    if index != -1 {
      match ParseValue(t, index)
      case Fail => ScanLeftmost(t, index + 1);
      case Ok(value, end) =>
        ScanLeftmost(t, end);
        LeftmostCons(t, i, Span(index, end, value), Scan(t, end));
    }
  }

  lemma FirstSpansAgree(t: Text, i: nat, a: seq<Span>, b: seq<Span>)
    requires LeftmostFrom(t, i, a) && LeftmostFrom(t, i, b) && (a != [] || b != [])
    ensures a != [] && b != [] && a[0] == b[0]
  {
    hide ParseValue;
    if a != [] {
      SpanFilled(t, a[0]);
      assert Covered(b, a[0].start);
    }
    if b != [] {
      SpanFilled(t, b[0]);
      assert Covered(a, b[0].start);
    }
  }

  /** That description leaves no choice: only one list of spans fits it. */
  lemma {:induction false} LeftmostUnique(t: Text, i: nat, a: seq<Span>, b: seq<Span>)
    requires LeftmostFrom(t, i, a) && LeftmostFrom(t, i, b)
    ensures a == b
    decreases |a|
  {
    hide LeftmostFrom;
    if a != [] || b != [] {
      FirstSpansAgree(t, i, a, b);
      assert a == [a[0]] + a[1..] && b == [b[0]] + b[1..];
      LeftmostTail(t, i, a[0], a[1..]);
      LeftmostTail(t, i, b[0], b[1..]);
      LeftmostUnique(t, a[0].end, a[1..], b[1..]);
    }
  }

  // --- Scanning across the report header ------------------------------------------------------

  lemma {:induction false} BraceBefore(t: Text, b: nat, i: nat)
    requires i <= b <= |t|
    ensures FindBrace(t[..b], i) != -1 ==> FindBrace(t, i) == FindBrace(t[..b], i)
    ensures FindBrace(t[..b], i) == -1 ==> FindBrace(t, i) == FindBrace(t, b)
    decreases b - i
  {
    if i < b { BraceBefore(t, b, i + 1); }
  }

  /** Nothing that stands before the header changes what is found, or hides what follows. */
  lemma {:induction false} ScanBefore(t: Text, b: nat, i: nat)
    requires BarrierAt(t, b) && i <= b
    ensures Scan(t, i) == Scan(t[..b], i) + Scan(t, b)
    decreases b - i
  {
    hide ParseValue, FindBrace, BarrierAt, Scan;
    var p := t[..b];
    BraceBefore(t, b, i);
    ScanUnfolds(t, i);
    ScanUnfolds(p, i);
    ScanUnfolds(t, b);
    var index := FindBrace(p, i);
    if index != -1 {
      ValueBefore(t, b, index);
      match ParseValue(p, index)
      case Fail => ScanBefore(t, b, index + 1);
      case Ok(value, end) =>
        ScanBefore(t, b, end);
        var span := [Span(index, end, value)];
        assert span + (Scan(p, end) + Scan(t, b)) == (span + Scan(p, end)) + Scan(t, b);
    }
  }

  lemma {:induction false} ScanSkip(t: Text, i: nat, j: nat)
    requires i <= j <= |t| && forall p :: i <= p < j ==> t[p] != LBRACE
    ensures Scan(t, i) == Scan(t, j)
    decreases j - i
  {
    hide ParseValue;
    if i < j { ScanSkip(t, i + 1, j); }
  }
}
