/** What the decoder reads can be printed again: its integers are within the limit and its floats are floats;
    and out of a text of whole characters, as any text that came as UTF-8 is, no string holds a split pair. */
module Reading {
  import opened Texts
  import opened Json
  import opened JsonDecode
  import opened Numerals
  import opened Grammar
  import opened Printing
  import opened Scanner

  /** No half of a surrogate pair stands in the text as a character. */
  predicate IsWhole(t: Text) {
    forall i :: 0 <= i < |t| ==> !IsHigh(t[i]) && !IsLow(t[i])
  }

  ghost predicate Reprints(whole: bool, v: Json) {
    Dumpable(v) && HasFloats(v) && (whole ==> Printable(v))
  }

  // --- Numbers -----------------------------------------------------------------------------------------

  lemma {:induction false} DigitsFit(d: Text)
    requires IsNumeral(d)
    ensures NatOf(d) >= 0 && |Digits(NatOf(d))| <= |d|
  {
    var k := |d| - 1;
    assert IsDigit(d[k]);
    if k > 0 {
      assert forall i :: 0 <= i < k ==> d[..k][i] == d[i];
      DigitsFit(d[..k]);
      assert NatOf(d) == NatOf(d[..k]) * 10 + (d[k] - ZERO);
      assert NatOf(d) / 10 == NatOf(d[..k]);
    } else {
      assert d[..k] == [];
    }
  }

  lemma NumberReprints(t: Text, i: nat, whole: bool)
    requires i <= |t| && ParseNumber(t, i).Ok?
    ensures Reprints(whole, ParseNumber(t, i).value)
  {
    hide ParseNumber, At, Ends, Spell, Digits, NatOf, IsNumeral;
    var n := NumeralFound(t, i);
    if IsIntegral(n) { DigitsFit(n.whole) by { WholeNumeral(n); } }
  }

  lemma WholeNumeral(n: Numeral)
    requires IsNumber(n)
    ensures IsNumeral(n.whole)
  {
  }

  // --- Strings ------------------------------------------------------------------------------------------

  /** What the decoder has just read, in front of what it reads next. */
  lemma CharBefore(c: CodePoint, s: Text)
    requires NoSplitPair(s) && (IsHigh(c) && s != [] ==> !IsLow(s[0]))
    ensures NoSplitPair([c] + s)
  {
    var all := [c] + s;
    forall i | 0 <= i < |all| - 1 ensures !(IsHigh(all[i]) && IsLow(all[i + 1])) {
      if i > 0 { assert all[i] == s[i - 1] && all[i + 1] == s[i]; }
    }
  }

  lemma EscapeRead(t: Text, i: nat)
    requires i <= |t| && ParseEscape(t, i).Ok?
    ensures var r := ParseEscape(t, i);
            && (IsHigh(r.value) ==> LowAt(t, r.end).None?)
            && (i > 0 && IsLow(r.value) && CharAt(t, i - 1, BACKSLASH) ==> LowAt(t, i - 1).Some?)
  {
    hide ParseHex;
    if t[i] != 0x75 { ShortIsPlain(t[i]); }
  }

  lemma ShortIsPlain(letter: CodePoint)
    ensures Unescape(letter).Some? ==> !IsHigh(Unescape(letter).value) && !IsLow(Unescape(letter).value)
  {
  }

  /** A string read from a whole text starts with the second half of a pair only when it is escaped there. */
  lemma {:induction false} StringWhole(t: Text, i: nat)
    requires IsWhole(t) && i <= |t| && ParseString(t, i).Ok?
    ensures var s := ParseString(t, i).value; NoSplitPair(s) && (s != [] && IsLow(s[0]) ==> LowAt(t, i).Some?)
    decreases |t| - i
  {
    hide ParseEscape, LowAt, NoSplitPair;
    if t[i] == QUOTE {
      assert NoSplitPair([]) by { NoneSplit(); }
    } else if t[i] == BACKSLASH {
      EscapeRead(t, i + 1);
      var j := ParseEscape(t, i + 1).end;
      StringWhole(t, j);
      CharBefore(ParseEscape(t, i + 1).value, ParseString(t, j).value);
    } else {
      StringWhole(t, i + 1);
      CharBefore(t[i], ParseString(t, i + 1).value);
    }
  }

  lemma NoneSplit()
    ensures NoSplitPair([])
  {
  }

  // --- Values -------------------------------------------------------------------------------------------

  lemma NameReprints(whole: bool)
    ensures Reprints(whole, JNull) && Reprints(whole, JBool(true)) && Reprints(whole, JBool(false))
    ensures Reprints(whole, JFloat(NAN)) && Reprints(whole, JFloat(INFINITY)) && Reprints(whole, JFloat([MINUS] + INFINITY))
  {
  }

  lemma StringReprints(t: Text, i: nat)
    requires i <= |t| && ParseString(t, i).Ok?
    ensures Reprints(IsWhole(t), JString(ParseString(t, i).value))
  {
    hide ParseString, NoSplitPair;
    if IsWhole(t) { StringWhole(t, i); }
  }

  lemma ItemsReprint(whole: bool, items: seq<Json>, v: Json)
    requires Reprints(whole, JArray(items)) && Reprints(whole, v)
    ensures Reprints(whole, JArray(items + [v]))
  {
    hide Digits, GoodFloat, NoSplitPair;
    var all := items + [v];
    forall k | 0 <= k < |all| ensures Dumpable(all[k]) && HasFloats(all[k]) && (whole ==> Printable(all[k])) {
      if k < |items| { assert all[k] == items[k]; }
    }
  }

  lemma FieldsReprint(whole: bool, fields: map<Text, Json>, key: Text, v: Json)
    requires Reprints(whole, JObject(fields)) && Reprints(whole, JString(key)) && Reprints(whole, v)
    ensures Reprints(whole, JObject(fields[key := v]))
  {
    hide Digits, GoodFloat, NoSplitPair;
  }

  lemma NothingReprints(whole: bool)
    ensures Reprints(whole, JArray([])) && Reprints(whole, JObject(map[]))
  {
  }

  /** Whatever is read can be printed. */
  lemma {:induction false} ValueReprints(t: Text, i: nat)
    requires i <= |t| && ParseValue(t, i).Ok?
    ensures Reprints(IsWhole(t), ParseValue(t, i).value)
    decreases |t| - i, 0
  {
    hide ParseNumber, ParseString, ParseObject, ParseArray, At, Reprints, IsWhole;
    NameReprints(IsWhole(t));
    if t[i] == QUOTE {
      StringReprints(t, i + 1);
    } else if t[i] == LBRACE {
      ObjectReprints(t, i + 1);
    } else if t[i] == LBRACKET {
      ArrayReprints(t, i + 1);
    } else if DigitAt(t, NumberStart(t, i)) {
      NumberFirst(t, i);
      NumberReprints(t, i, IsWhole(t));
    }
  }

  lemma ArrayReprints(t: Text, i: nat)
    requires i <= |t| && ParseArray(t, i).Ok?
    ensures Reprints(IsWhole(t), ParseArray(t, i).value)
    decreases |t| - i, 3
  {
    hide ParseItems, SkipSpace, Reprints, IsWhole;
    NothingReprints(IsWhole(t));
    if !CharAt(t, SkipSpace(t, i), RBRACKET) { ItemsReadReprint(t, SkipSpace(t, i), []); }
  }

  lemma {:induction false} ItemsReadReprint(t: Text, i: nat, before: seq<Json>)
    requires i <= |t| && ParseItems(t, i, before).Ok? && Reprints(IsWhole(t), JArray(before))
    ensures Reprints(IsWhole(t), ParseItems(t, i, before).value)
    decreases |t| - i, 2
  {
    hide ParseValue, SkipSpace, Reprints, IsWhole;
    ValueReprints(t, i);
    var v := ParseValue(t, i);
    var next := SkipSpace(t, v.end);
    ItemsReprint(IsWhole(t), before, v.value);
    if CharAt(t, next, COMMA) { ItemsReadReprint(t, SkipSpace(t, next + 1), before + [v.value]); }
  }

  lemma ObjectReprints(t: Text, i: nat)
    requires i <= |t| && ParseObject(t, i).Ok?
    ensures Reprints(IsWhole(t), ParseObject(t, i).value)
    decreases |t| - i, 3
  {
    hide ParseMembers, SkipSpace, Reprints, IsWhole;
    NothingReprints(IsWhole(t));
    if CharAt(t, SkipSpace(t, i), QUOTE) { MembersReprint(t, SkipSpace(t, i) + 1, map[]); }
  }

  lemma MemberReprints(t: Text, i: nat)
    requires i <= |t| && ParseMember(t, i).Ok?
    ensures Reprints(IsWhole(t), JString(ParseMember(t, i).value.0)) && Reprints(IsWhole(t), ParseMember(t, i).value.1)
    decreases |t| - i, 1
  {
    hide ParseString, ParseValue, SkipSpace, Reprints, IsWhole;
    StringReprints(t, i);
    ValueReprints(t, SkipSpace(t, SkipSpace(t, ParseString(t, i).end) + 1));
  }

  lemma {:induction false} MembersReprint(t: Text, i: nat, before: map<Text, Json>)
    requires i <= |t| && ParseMembers(t, i, before).Ok? && Reprints(IsWhole(t), JObject(before))
    ensures Reprints(IsWhole(t), ParseMembers(t, i, before).value)
    decreases |t| - i, 2
  {
    hide ParseMember, AfterMember, Reprints, IsWhole;
    MemberReprints(t, i);
    var m := ParseMember(t, i);
    FieldsReprint(IsWhole(t), before, m.value.0, m.value.1);
    if AfterMember(t, m.end).Another? { MembersReprint(t, AfterMember(t, m.end).key, before[m.value.0 := m.value.1]); }
  }

  /** Every object the scanner finds in any text can be dumped, and printed and read back as it is when the text
      is whole. */
  lemma FoundReprints(t: Text, obj: Json)
    requires obj in ObjectsIn(t)
    ensures Dumpable(obj) && HasFloats(obj) && (IsWhole(t) ==> Printable(obj))
  {
    hide ParseValue, Scan, IsWhole, Dumpable, HasFloats, Printable;
    ScanLeftmost(t, 0);
    var spans := Scan(t, 0);
    var k :| 0 <= k < |spans| && spans[k].value == obj;
    assert DecodedAt(t, spans[k]);
    ValueReprints(t, spans[k].start);
  }
}
