/** A decode that starts before the report header cannot see past it: a raw newline ends
    every number and literal and is illegal inside a string, and after the blank space the
    header's first letter starts no value and closes nothing. Decoding the whole text and
    decoding only what stands before the header therefore agree everywhere before it. */
module Barrier {
  import opened Texts
  import opened Json
  import opened JsonDecode

  const HEADER_LETTER: CodePoint := 0x53  // "S"

  /** A newline at `b`, then only blank space up to the header's first letter. */
  ghost predicate BarrierAt(t: Text, b: nat)
    ensures BarrierAt(t, b) ==> b < |t|
  {
    b < |t| && t[b] == NEWLINE && CharAt(t, SkipSpace(t, b), HEADER_LETTER)
  }

  lemma {:induction false} SkipSpaceBefore(t: Text, b: nat, i: nat)
    requires BarrierAt(t, b) && i <= b
    ensures var j := SkipSpace(t[..b], i);
            if j < b then SkipSpace(t, i) == j else SkipSpace(t, i) == SkipSpace(t, b)
    decreases b - i
  {
    if i < b && IsJsonSpace(t[i]) { SkipSpaceBefore(t, b, i + 1); }
  }

  /** A structural character found after blank space is found in the same place. */
  lemma SpacedCharBefore(t: Text, b: nat, i: nat, c: CodePoint)
    requires BarrierAt(t, b) && i <= b && c != HEADER_LETTER
    ensures CharAt(t, SkipSpace(t, i), c) == CharAt(t[..b], SkipSpace(t[..b], i), c)
    ensures CharAt(t[..b], SkipSpace(t[..b], i), c) ==> SkipSpace(t, i) == SkipSpace(t[..b], i) < b
  {
    SkipSpaceBefore(t, b, i);
  }

  lemma {:induction false} DigitsEndBefore(t: Text, b: nat, i: nat)
    requires BarrierAt(t, b) && i <= b
    ensures DigitsEnd(t, i) == DigitsEnd(t[..b], i)
    decreases b - i
  {
    if DigitAt(t[..b], i) { DigitsEndBefore(t, b, i + 1); }
  }

  lemma FractionBefore(t: Text, b: nat, j: nat)
    requires BarrierAt(t, b) && j <= b
    ensures FractionEnd(t, j) == FractionEnd(t[..b], j)
  {
    if j < b { DigitsEndBefore(t, b, j + 1); }
  }

  lemma ExponentBefore(t: Text, b: nat, f: nat)
    requires BarrierAt(t, b) && f <= b
    ensures ExponentEnd(t, f) == ExponentEnd(t[..b], f)
  {
    if f < b { DigitsEndBefore(t, b, f + 1); }
    if f + 1 < b { DigitsEndBefore(t, b, f + 2); }
  }

  lemma SliceBefore(t: Text, b: nat, i: nat, j: nat)
    requires i <= j <= b <= |t|
    ensures t[..b][i..j] == t[i..j]
  {
    assert forall x :: 0 <= x < j - i ==> t[..b][i..j][x] == t[i..j][x];
  }

  lemma NumberBefore(t: Text, b: nat, i: nat)
    requires BarrierAt(t, b) && i <= b
    ensures ParseNumber(t, i) == ParseNumber(t[..b], i)
  {
    var p := t[..b];
    var k := NumberStart(p, i);
    if DigitAt(p, k) {
      DigitsEndBefore(t, b, k);
      var j := IntEnd(p, k);
      FractionBefore(t, b, j);
      var f := FractionEnd(p, j);
      ExponentBefore(t, b, f);
      SliceBefore(t, b, k, j);
      SliceBefore(t, b, i, ExponentEnd(p, f));
    }
  }

  lemma {:induction false} NoHexAcross(t: Text, b: nat, i: nat, k: nat)
    requires BarrierAt(t, b) && i <= b < i + k
    ensures ParseHex(t, i, k) == None
    decreases k
  {
    if i + k <= |t| && b < i + k - 1 { NoHexAcross(t, b, i, k - 1); }
  }

  lemma {:induction false} HexBefore(t: Text, b: nat, i: nat, k: nat)
    requires BarrierAt(t, b) && i <= b
    ensures ParseHex(t, i, k) == ParseHex(t[..b], i, k)
    decreases k
  {
    if k > 0 {
      HexBefore(t, b, i, k - 1);
      if b < i + k <= |t| && ParseHex(t, i, k).Some? { NoHexAcross(t, b, i, k); }
    }
  }

  lemma LowBefore(t: Text, b: nat, i: nat)
    requires BarrierAt(t, b) && i <= b
    ensures LowAt(t, i) == LowAt(t[..b], i)
  {
    if i + 2 <= b { HexBefore(t, b, i + 2, 4); }
  }

  lemma EscapeBefore(t: Text, b: nat, i: nat)
    requires BarrierAt(t, b) && i <= b
    ensures ParseEscape(t, i) == ParseEscape(t[..b], i)
  {
    hide ParseHex, LowAt;
    if i < b {
      HexBefore(t, b, i + 1, 4);
      assert Hex4(t, i + 1) == Hex4(t[..b], i + 1);
      if i + 5 <= b { LowBefore(t, b, i + 5); }
    }
  }

  lemma {:induction false} StringBefore(t: Text, b: nat, i: nat)
    requires BarrierAt(t, b) && i <= b
    ensures ParseString(t, i) == ParseString(t[..b], i)
    decreases b - i
  {
    var p := t[..b];
    if i < b && t[i] == BACKSLASH {
      EscapeBefore(t, b, i + 1);
      match ParseEscape(p, i + 1)
      case Fail =>
      case Ok(_, j) => StringBefore(t, b, j);
    } else if i < b {
      StringBefore(t, b, i + 1);
    }
  }

  lemma PrefixSlice(t: Text, b: nat, i: nat, j: nat)
    requires i <= j <= b <= |t|
    ensures t[..b][i..j] == t[i..j]
  {
  }

  lemma LiteralBefore(t: Text, b: nat, i: nat, literal: Text)
    requires BarrierAt(t, b) && i <= b && literal != [] && NEWLINE !in literal
    ensures At(t, i, literal) == At(t[..b], i, literal)
  {
    hide At;
    AtSlice(t, i, literal);
    AtSlice(t[..b], i, literal);
    if At(t, i, literal) && i + |literal| > b {
      AtIndex(t, i, literal, b - i);
    }
    if i + |literal| <= b {
      PrefixSlice(t, b, i, i + |literal|);
    }
  }

  lemma ValueBefore(t: Text, b: nat, i: nat)
    requires BarrierAt(t, b) && i <= b
    ensures ParseValue(t, i) == ParseValue(t[..b], i)
    decreases b - i, 0
  {
    var p := t[..b];
    LiteralBefore(t, b, i, NULL);
    LiteralBefore(t, b, i, TRUE);
    LiteralBefore(t, b, i, FALSE);
    LiteralBefore(t, b, i, NAN);
    LiteralBefore(t, b, i, INFINITY);
    LiteralBefore(t, b, i, [MINUS] + INFINITY);
    NumberBefore(t, b, i);
    if i < b {
      StringBefore(t, b, i + 1);
      if t[i] == LBRACE { ObjectBefore(t, b, i + 1); }
      if t[i] == LBRACKET { ArrayBefore(t, b, i + 1); }
    }
  }

  lemma HeaderLetterStartsNoValue(t: Text, i: nat)
    requires CharAt(t, i, HEADER_LETTER)
    ensures ParseValue(t, i) == Fail
  {
  }

  /** The same for a value looked for after blank space. */
  lemma SpacedValueBefore(t: Text, b: nat, i: nat)
    requires BarrierAt(t, b) && i <= b
    ensures ParseValue(t, SkipSpace(t, i)) == ParseValue(t[..b], SkipSpace(t[..b], i))
    decreases b - i, 1
  {
    SkipSpaceBefore(t, b, i);
    var j := SkipSpace(t[..b], i);
    if j < b {
      ValueBefore(t, b, j);
    } else {
      HeaderLetterStartsNoValue(t, SkipSpace(t, b));
    }
  }

  lemma ObjectBefore(t: Text, b: nat, i: nat)
    requires BarrierAt(t, b) && i <= b
    ensures ParseObject(t, i) == ParseObject(t[..b], i)
    decreases b - i, 4
  {
    hide ParseMembers, BarrierAt, SkipSpace;
    SpacedCharBefore(t, b, i, RBRACE);
    SpacedCharBefore(t, b, i, QUOTE);
    var j := SkipSpace(t[..b], i);
    if CharAt(t[..b], j, QUOTE) { MembersBefore(t, b, j + 1, map[]); }
  }

  lemma MemberBefore(t: Text, b: nat, i: nat)
    requires BarrierAt(t, b) && i <= b
    ensures ParseMember(t, i) == ParseMember(t[..b], i)
    decreases b - i, 2
  {
    var p := t[..b];
    StringBefore(t, b, i);
    match ParseString(p, i)
    case Fail =>
    case Ok(_, keyEnd) =>
      SpacedCharBefore(t, b, keyEnd, COLON);
      var colon := SkipSpace(p, keyEnd);
      if CharAt(p, colon, COLON) { SpacedValueBefore(t, b, colon + 1); }
  }

  lemma AfterMemberBefore(t: Text, b: nat, i: nat)
    requires BarrierAt(t, b) && i <= b
    ensures AfterMember(t, i) == AfterMember(t[..b], i)
  {
    SpacedCharBefore(t, b, i, RBRACE);
    SpacedCharBefore(t, b, i, COMMA);
    var next := SkipSpace(t[..b], i);
    if CharAt(t[..b], next, COMMA) { SpacedCharBefore(t, b, next + 1, QUOTE); }
  }

  lemma MembersBefore(t: Text, b: nat, i: nat, before: map<Text, Json>)
    requires BarrierAt(t, b) && i <= b
    ensures ParseMembers(t, i, before) == ParseMembers(t[..b], i, before)
    decreases b - i, 3
  {
    var p := t[..b];
    MemberBefore(t, b, i);
    match ParseMember(p, i)
    case Fail =>
    case Ok(member, memberEnd) =>
      AfterMemberBefore(t, b, memberEnd);
      match AfterMember(p, memberEnd)
      case Another(key) => MembersBefore(t, b, key, before[member.0 := member.1]);
      case _ =>
  }

  lemma ArrayBefore(t: Text, b: nat, i: nat)
    requires BarrierAt(t, b) && i <= b
    ensures ParseArray(t, i) == ParseArray(t[..b], i)
    decreases b - i, 4
  {
    hide ParseItems, BarrierAt;
    SpacedCharBefore(t, b, i, RBRACKET);
    ItemsBefore(t, b, i, []);
  }

  lemma ItemsBefore(t: Text, b: nat, i: nat, before: seq<Json>)
    requires BarrierAt(t, b) && i <= b
    ensures ParseItems(t, SkipSpace(t, i), before) == ParseItems(t[..b], SkipSpace(t[..b], i), before)
    decreases b - i, 3
  {
    hide ParseValue, BarrierAt, SkipSpace;
    var p := t[..b];
    SpacedValueBefore(t, b, i);
    match ParseValue(p, SkipSpace(p, i))
    case Fail =>
    case Ok(value, valueEnd) =>
      SpacedCharBefore(t, b, valueEnd, RBRACKET);
      SpacedCharBefore(t, b, valueEnd, COMMA);
      var next := SkipSpace(p, valueEnd);
      if CharAt(p, next, COMMA) { ItemsBefore(t, b, next + 1, before + [value]); }
  }
}
