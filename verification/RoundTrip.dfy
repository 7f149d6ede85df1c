/** Decoding inverts printing, in any surrounding text: wherever a printed value stands, the decoder reads
    exactly that value, up to the split pairs in its strings, and stops exactly at its end. */
module RoundTrip {
  import opened Texts
  import opened Json
  import opened JsonDecode
  import opened Numerals
  import opened Grammar
  import opened Printing

  // --- Strings --------------------------------------------------------------------

  /** A string with each high surrogate that is directly followed by a low one replaced,
      together with it, by the character the pair stands for. */
  function JoinPairs(s: Text): Text {
    if s == [] then []
    else if |s| >= 2 && IsHigh(s[0]) && IsLow(s[1]) then [Paired(s[0], s[1])] + JoinPairs(s[2..])
    else [s[0]] + JoinPairs(s[1..])
  }

  lemma {:induction false} JoinPairsShorter(s: Text)
    ensures |JoinPairs(s)| <= |s|
  {
    if s == [] {
    } else if |s| >= 2 && IsHigh(s[0]) && IsLow(s[1]) {
      JoinPairsShorter(s[2..]);
    } else {
      JoinPairsShorter(s[1..]);
    }
  }

  lemma {:induction false} JoinPairsFixed(s: Text)
    ensures JoinPairs(s) == s <==> NoSplitPair(s)
  {
    if s == [] {
    } else if |s| >= 2 && IsHigh(s[0]) && IsLow(s[1]) {
      JoinPairsShorter(s[2..]);
    } else {
      JoinPairsFixed(s[1..]);
      assert [s[0]] + s[1..] == s;
      if NoSplitPair(s[1..]) {
        forall i | 0 <= i < |s| - 1 ensures !(IsHigh(s[i]) && IsLow(s[i + 1])) {
          if i > 0 { assert s[1..][i - 1] == s[i] && s[1..][i] == s[i + 1]; }
        }
      }
      if JoinPairs(s) == s { assert JoinPairs(s)[1..] == s[1..]; }
    }
  }

  /** The parts of a string start with an escaped low surrogate only when the string starts with one. */
  lemma FirstPart(s: Text)
    requires s != []
    ensures StringParts(s) != [] && (IsUnit(StringParts(s)[0], true) ==> IsLow(s[0]))
    ensures s[0] <= 0xFFFF ==> |CharParts(s[0])| == 1 && (IsUnit(StringParts(s)[0], false) ==> IsHigh(s[0]))
  {
    hide Unit, UnitPart, IsPart;
    if s[0] > 0xFFFF { SurrogatesOf(s[0]); }
  }

  /** What the parts of a string stand for is the string with its split pairs joined. */
  lemma {:induction false} PartsJoined(s: Text)
    ensures Chars(StringParts(s)) == JoinPairs(s)
    decreases |s|
  {
    hide Chars, CharParts, IsUnit, CharOf;
    if s == [] {
      NoChars();
    } else if |s| >= 2 && IsHigh(s[0]) && IsLow(s[1]) {
      PartsJoined(s[2..]);
      SplitPairParts(s);
    } else {
      PartsJoined(s[1..]);
      CharAlone(s);
    }
  }

  lemma NoChars()
    ensures Chars([]) == []
  {
  }

  lemma PartsUnfold(s: Text)
    requires s != []
    ensures StringParts(s) == CharParts(s[0]) + StringParts(s[1..])
  {
    hide CharParts;
  }

  lemma HalfPart(c: CodePoint)
    requires IsHigh(c) || IsLow(c)
    ensures CharParts(c) == [UnitPart(c)]
  {
  }

  lemma SplitPairParts(s: Text)
    requires |s| >= 2 && IsHigh(s[0]) && IsLow(s[1])
    ensures Chars(StringParts(s)) == [Paired(s[0], s[1])] + Chars(StringParts(s[2..]))
  {
    hide Unit, UnitPart, IsPart, StringParts, CharParts, Chars;
    assert s[1..][1..] == s[2..];
    PartsUnfold(s);
    PartsUnfold(s[1..]);
    HalfPart(s[0]);
    HalfPart(s[1]);
    var parts := StringParts(s);
    assert parts[0] == UnitPart(s[0]) && parts[1] == UnitPart(s[1]) && parts[2..] == StringParts(s[2..]);
    HeadPaired(parts, StringParts(s[2..]));
  }

  lemma CharAlone(s: Text)
    requires s != [] && !(|s| >= 2 && IsHigh(s[0]) && IsLow(s[1]))
    ensures Chars(StringParts(s)) == [s[0]] + Chars(StringParts(s[1..]))
  {
    hide CharParts, Chars, StringParts;
    if s[0] <= 0xFFFF { NarrowAlone(s); } else { WideAlone(s); }
  }

  lemma NarrowAlone(s: Text)
    requires s != [] && !(|s| >= 2 && IsHigh(s[0]) && IsLow(s[1])) && s[0] <= 0xFFFF
    ensures Chars(StringParts(s)) == [s[0]] + Chars(StringParts(s[1..]))
  {
    hide IsPart, CharParts, Chars, StringParts, IsUnit, CharOf;
    var parts, rest := StringParts(s), StringParts(s[1..]);
    PartsUnfold(s);
    FirstPart(s);
    assert parts[1..] == rest && parts[0] == CharParts(s[0])[0] && CharParts(s[0])[1..] == [];
    if s[1..] != [] { FirstPart(s[1..]); } else { assert rest == [] by { NoParts(); } }
    HeadAlone(parts, rest);
    NoChars();
    HeadAlone(CharParts(s[0]), []);
    StandsFor(s[0]);
    assert [CharOf(parts[0])] == [s[0]];
  }

  lemma NoParts()
    ensures StringParts([]) == []
  {
  }

  lemma WideAlone(s: Text)
    requires s != [] && s[0] > 0xFFFF
    ensures Chars(StringParts(s)) == [s[0]] + Chars(StringParts(s[1..]))
  {
    hide IsPart, CharParts, Chars, StringParts, IsUnit, Unit, Paired;
    var parts, rest := StringParts(s), StringParts(s[1..]);
    PartsUnfold(s);
    PairParts(s[0]);
    assert parts[2..] == rest && parts[0] == CharParts(s[0])[0] && parts[1] == CharParts(s[0])[1] && CharParts(s[0])[2..] == [];
    HeadPaired(parts, rest);
    NoChars();
    HeadPaired(CharParts(s[0]), []);
    StandsFor(s[0]);
  }

  lemma HeadAlone(parts: seq<Part>, rest: seq<Part>)
    requires parts != [] && AreParts(parts) && parts[1..] == rest
    requires !(|parts| >= 2 && IsUnit(parts[0], false) && IsUnit(parts[1], true))
    ensures Chars(parts) == [CharOf(parts[0])] + Chars(rest)
  {
  }

  lemma HeadPaired(parts: seq<Part>, rest: seq<Part>)
    requires |parts| >= 2 && AreParts(parts) && parts[2..] == rest && IsUnit(parts[0], false) && IsUnit(parts[1], true)
    ensures Chars(parts) == [Paired(Unit(parts[0]), Unit(parts[1]))] + Chars(rest)
  {
  }

  lemma PairParts(c: CodePoint)
    requires c > 0xFFFF
    ensures |CharParts(c)| == 2 && IsUnit(CharParts(c)[0], false) && IsUnit(CharParts(c)[1], true)
  {
    hide Unit;
    SurrogatesOf(c);
  }

  // --- Values -------------------------------------------------------------------------

  /** No key in the value holds a split pair. */
  predicate WholeKeys(v: Json) {
    match v
    case JArray(items) => forall i :: 0 <= i < |items| ==> WholeKeys(items[i])
    case JObject(fields) => forall k :: k in fields ==> NoSplitPair(k) && WholeKeys(fields[k])
    case _ => true
  }

  /** The value with the split pairs in its strings joined. */
  ghost function Joined(v: Json): (w: Json)
    ensures v.JObject? ==> w.JObject?
  {
    match v
    case JString(s) => JString(JoinPairs(s))
    case JArray(items) => JArray(seq(|items|, i requires 0 <= i < |items| => Joined(items[i])))
    case JObject(fields) => JObject(map k | k in fields :: Joined(fields[k]))
    case _ => v
  }

  /** Printable values are those that joining leaves as they are. */
  lemma JoinedIs(v: Json)
    requires Printable(v)
    ensures WholeKeys(v) && Joined(v) == v && Dumpable(v) && HasFloats(v)
  {
    hide GoodFloat, NoSplitPair, Digits, JoinPairs;
    match v
    case JString(s) => JoinPairsFixed(s);
    case JArray(items) =>
      forall k | 0 <= k < |items| ensures WholeKeys(items[k]) && Joined(items[k]) == items[k] && Dumpable(items[k]) && HasFloats(items[k])
      { JoinedIs(items[k]); }
    case JObject(fields) =>
      forall k | k in fields ensures WholeKeys(fields[k]) && Joined(fields[k]) == fields[k] && Dumpable(fields[k]) && HasFloats(fields[k])
      { JoinedIs(fields[k]); }
    case _ =>
  }

  /** What a value is laid out as means that value, joined. */
  lemma MeanJoined(x: Syntax, v: Json)
    requires IsSyntax(x) && Laid(x, v) && WholeKeys(v)
    ensures Mean(x) == Joined(v)
    decreases x, 1, 0
  {
    hide Chars, JoinPairs, StringParts, Spell, NoSplitPair, MeanItems, MeanMembers;
    match x
    case Number(n) => if v.JInt? { IntNumeralIs(v.n); }
    case Str(parts) => PartsJoined(v.s);
    case Arr(_, items) => ItemsJoined(items, v);
    case Obj(_, members) => MembersJoined(members, v);
    case _ =>
  }

  lemma {:induction false} MeanItemsAre(items: seq<Item>)
    requires AreItems(items)
    ensures |MeanItems(items)| == |items| && forall k :: 0 <= k < |items| ==> MeanItems(items)[k] == Mean(items[k].value)
  {
    hide Mean;
    if items != [] { MeanItemsAre(items[1..]); }
  }

  lemma ItemsJoined(items: seq<Item>, v: Json)
    requires AreItems(items) && v.JArray? && |items| == |v.items| && WholeKeys(v)
    requires forall k :: 0 <= k < |items| ==> Laid(items[k].value, v.items[k])
    ensures JArray(MeanItems(items)) == Joined(v)
    decreases items
  {
    hide Mean, Laid;
    MeanItemsAre(items);
    forall k | 0 <= k < |items| ensures MeanItems(items)[k] == Joined(v.items[k]) {
      MeanJoined(items[k].value, v.items[k]);
    }
  }

  /** The joined fields under the keys from index `n` on. */
  ghost function Filled(v: Json, keys: seq<Text>, n: nat): map<Text, Json>
    requires v.JObject? && n <= |keys| && forall key :: key in keys ==> key in v.fields
  {
    map key | key in keys[n..] :: Joined(v.fields[key])
  }

  lemma FilledStep(v: Json, keys: seq<Text>, n: nat, before: map<Text, Json>)
    requires v.JObject? && n < |keys| && forall key :: key in keys ==> key in v.fields
    ensures before[keys[n] := Joined(v.fields[keys[n]])] + Filled(v, keys, n + 1) == before + Filled(v, keys, n)
  {
    hide Joined;
    assert keys[n..] == [keys[n]] + keys[n + 1..];
  }

  ghost predicate MemberMeans(m: Member, v: Json, key: Text)
    requires v.JObject? && IsMember(m)
  {
    key in v.fields && Chars(m.key) == key && Mean(m.value) == Joined(v.fields[key])
  }

  lemma {:induction false} MeanMembersAre(members: seq<Member>, v: Json, keys: seq<Text>, n: nat, before: map<Text, Json>)
    requires AreMembers(members) && v.JObject? && n <= |keys| && |members| == |keys| - n
    requires forall key :: key in keys ==> key in v.fields
    requires forall j :: 0 <= j < |members| ==> MemberMeans(members[j], v, keys[n + j])
    ensures MeanMembers(members, before) == before + Filled(v, keys, n)
    decreases |members|
  {
    hide Mean, Chars, Joined, IsMember, Filled;
    if members == [] {
      assert Filled(v, keys, n) == map[] by { NothingFilled(v, keys); }
      assert before + map[] == before;
    } else {
      var key := keys[n];
      assert MemberMeans(members[0], v, keys[n + 0]);
      MeanMembersAre(members[1..], v, keys, n + 1, before[key := Joined(v.fields[key])]);
      FilledStep(v, keys, n, before);
    }
  }

  lemma NothingFilled(v: Json, keys: seq<Text>)
    requires v.JObject? && forall key :: key in keys ==> key in v.fields
    ensures Filled(v, keys, |keys|) == map[]
  {
  }

  lemma MembersJoined(members: seq<Member>, v: Json)
    requires AreMembers(members) && v.JObject? && WholeKeys(v) && Laid(Obj([], members), v)
    ensures JObject(MeanMembers(members, map[])) == Joined(v)
    decreases members
  {
    hide Mean, Chars, StringParts, JoinPairs, NoSplitPair, MeanMembers, StrictlySorted, IsSyntax;
    var keys :| StrictlySorted(keys) && |keys| == |members| && (forall key :: key in v.fields <==> key in keys)
                && forall k :: 0 <= k < |members| ==> MemberLaid(members[k], v, keys, k);
    forall j | 0 <= j < |members| ensures MemberMeans(members[j], v, keys[0 + j]) {
      assert MemberLaid(members[j], v, keys, j);
      KeyMeant(keys[j]);
      MeanJoined(members[j].value, v.fields[keys[j]]);
    }
    MeanMembersAre(members, v, keys, 0, map[]);
    AllFilled(v, keys);
  }

  lemma KeyMeant(key: Text)
    requires NoSplitPair(key)
    ensures Chars(StringParts(key)) == key
  {
    PartsJoined(key);
    JoinPairsFixed(key);
  }

  lemma AllFilled(v: Json, keys: seq<Text>)
    requires v.JObject? && forall key :: key in v.fields <==> key in keys
    ensures JObject(map[] + Filled(v, keys, 0)) == Joined(v)
  {
    hide Joined;
    JoinedFields(v);
    assert keys[0..] == keys;
    var filled, joined := Filled(v, keys, 0), Joined(v).fields;
    assert filled.Keys == joined.Keys;
    assert filled == joined;
    assert map[] + filled == filled;
  }

  lemma JoinedFields(v: Json)
    requires v.JObject?
    ensures Joined(v).JObject? && Joined(v).fields.Keys == v.fields.Keys
    ensures forall key :: key in v.fields ==> Joined(v).fields[key] == Joined(v.fields[key])
  {
  }

  // --- Round trips ----------------------------------------------------------------------------

  /** Wherever a value is printed whose keys hold no split pair, decoding there gives the value, with the
      split pairs in its strings joined, and its end. */
  lemma JoinedRead(t: Text, i: nat, v: Json)
    requires Dumpable(v) && HasFloats(v) && WholeKeys(v) && At(t, i, Encode(v)) && NumberStops(t, i + |Encode(v)|)
    ensures i <= |t| && ParseValue(t, i) == Ok(Joined(v), i + |Encode(v)|)
  {
    hide At, ParseValue, Encode, Write, Mean, IsSyntax, Laid, WholeKeys, Joined, Dumpable, HasFloats, NumberStops, Ends;
    var x := Written(v);
    if x.Number? { StopsEnd(t, i + |Encode(v)|, x.n); }
    Grammar.ValueRead(t, i, x);
    MeanJoined(x, v);
  }

  /** Wherever a printed value stands, decoding there gives the value and its end. */
  lemma ValueRead(t: Text, i: nat, v: Json)
    requires Printable(v) && At(t, i, Encode(v)) && NumberStops(t, i + |Encode(v)|)
    ensures i <= |t| && ParseValue(t, i) == Ok(v, i + |Encode(v)|)
  {
    hide At, ParseValue, Encode, Printable, NumberStops, Joined, WholeKeys, Dumpable, HasFloats;
    JoinedIs(v);
    JoinedRead(t, i, v);
  }

  /** An object's text cannot go on, so what stands after it does not matter. */
  lemma ObjectRead(t: Text, i: nat, v: Json)
    requires v.JObject? && Printable(v) && At(t, i, Encode(v))
    ensures i <= |t| && ParseValue(t, i) == Ok(v, i + |Encode(v)|)
  {
    hide At, ParseValue, Encode, Write, Mean, IsSyntax, Laid, WholeKeys, Joined, Dumpable, HasFloats, Printable;
    JoinedIs(v);
    var x := Written(v);
    LaidObject(x, v);
    Grammar.ValueRead(t, i, x);
    MeanJoined(x, v);
  }

  /** `json.loads(json.dumps(v))` is `v` with the split pairs in its strings joined. */
  lemma DecodeEncode(v: Json)
    requires Dumpable(v) && HasFloats(v) && WholeKeys(v)
    ensures ParseValue(Encode(v), 0) == Ok(Joined(v), |Encode(v)|)
    ensures Printable(v) ==> ParseValue(Encode(v), 0) == Ok(v, |Encode(v)|)
  {
    hide ParseValue, Encode, Printable, WholeKeys, Dumpable, HasFloats, JoinPairs, NoSplitPair, At;
    AtSlice(Encode(v), 0, Encode(v));
    JoinedRead(Encode(v), 0, v);
    if Printable(v) { JoinedIs(v); }
  }

  /** A string survives printing and decoding exactly when it holds no split pair. */
  lemma StringRoundTrip(s: Text)
    ensures ParseValue(Encode(JString(s)), 0) == Ok(JString(JoinPairs(s)), |Encode(JString(s))|)
    ensures ParseValue(Encode(JString(s)), 0) == Ok(JString(s), |Encode(JString(s))|) <==> NoSplitPair(s)
  {
    hide ParseValue, Encode, JoinPairs, NoSplitPair;
    DecodeEncode(JString(s));
    JoinPairsFixed(s);
  }

  /** Printing with sorted keys is injective, so it can stand for the value itself. */
  lemma EncodeInjective(a: Json, b: Json)
    requires Printable(a) && Printable(b) && Encode(a) == Encode(b)
    ensures a == b
  {
    hide ParseValue, Encode, Printable, Joined, WholeKeys, Dumpable, HasFloats;
    JoinedIs(a);
    JoinedIs(b);
    DecodeEncode(a);
    DecodeEncode(b);
  }
}
