/** JSON texts as RFC 8259 has them, written from syntax trees and apart from any decoder, with the
    three names Python adds. The decoder reads exactly these, for exactly what they mean. */
module Grammar {
  import opened Texts
  import opened Json
  import opened JsonDecode
  import opened Numerals

  // --- Strings: section 7 -------------------------------------------------------------------------------

  datatype Hex = Hex(value: nat, upper: bool)

  /** A character as it is; the `k`-th short escape; or four hexadecimal digits after "\u". */
  datatype Part = Raw(c: CodePoint) | Short(k: nat) | Unicode(h1: Hex, h2: Hex, h3: Hex, h4: Hex)

  const LOWER: Text := Ascii("0123456789abcdef")
  const UPPER: Text := Ascii("0123456789ABCDEF")

  /** The letters of the short escapes, and the characters they stand for. */
  const ESCAPE_LETTERS: Text := [QUOTE, BACKSLASH, SLASH, 0x62, 0x66, 0x6E, 0x72, 0x74]
  const ESCAPED: Text := [QUOTE, BACKSLASH, SLASH, 0x08, 0x0C, 0x0A, 0x0D, 0x09]

  function HexLetter(h: Hex): CodePoint
    requires h.value < 16
  {
    if h.upper then UPPER[h.value] else LOWER[h.value]
  }

  predicate IsPart(p: Part) {
    match p
    case Raw(c) => c >= 0x20 && c != QUOTE && c != BACKSLASH
    case Short(k) => k < 8
    case Unicode(a, b, c, d) => a.value < 16 && b.value < 16 && c.value < 16 && d.value < 16
  }

  function WritePart(p: Part): (t: Text)
    requires IsPart(p)
    ensures |t| >= 1
  {
    match p
    case Raw(c) => [c]
    case Short(k) => [BACKSLASH, ESCAPE_LETTERS[k]]
    case Unicode(a, b, c, d) => [BACKSLASH, 0x75, HexLetter(a), HexLetter(b), HexLetter(c), HexLetter(d)]
  }

  predicate AreParts(parts: seq<Part>) {
    forall k :: 0 <= k < |parts| ==> IsPart(parts[k])
  }

  function WriteParts(parts: seq<Part>): Text
    requires AreParts(parts)
  {
    if parts == [] then [] else WritePart(parts[0]) + WriteParts(parts[1..])
  }

  /** The code unit of a "\u" escape. */
  function Unit(p: Part): nat
    requires p.Unicode? && IsPart(p)
  {
    ((p.h1.value * 16 + p.h2.value) * 16 + p.h3.value) * 16 + p.h4.value
  }

  function CharOf(p: Part): (c: CodePoint)
    requires IsPart(p)
  {
    match p
    case Raw(c) => c
    case Short(k) => ESCAPED[k]
    case Unicode(_, _, _, _) => Unit(p)
  }

  predicate IsUnit(p: Part, low: bool)
    requires IsPart(p)
  {
    p.Unicode? && if low then IsLow(Unit(p)) else IsHigh(Unit(p))
  }

  /** What the parts stand for: an escaped high surrogate directly before an escaped low one stands with
      it for one character. */
  function Chars(parts: seq<Part>): Text
    requires AreParts(parts)
  {
    if parts == [] then []
    else if |parts| >= 2 && IsUnit(parts[0], false) && IsUnit(parts[1], true) then
      [Paired(Unit(parts[0]), Unit(parts[1]))] + Chars(parts[2..])
    else [CharOf(parts[0])] + Chars(parts[1..])
  }

  // --- Reading strings ----------------------------------------------------------------------------------

  lemma HexValues(h: Hex)
    requires h.value < 16
    ensures HexValue(HexLetter(h)) == h.value
  {
  }

  lemma UnitRead(t: Text, i: nat, p: Part)
    requires IsPart(p) && p.Unicode? && At(t, i, WritePart(p))
    ensures CharAt(t, i, BACKSLASH) && CharAt(t, i + 1, 0x75) && Hex4(t, i + 2) == Some(Unit(p)) && i + 6 <= |t|
  {
    var w := WritePart(p);
    forall k | 0 <= k < 6 ensures i + k < |t| && t[i + k] == w[k] { AtIndex(t, i, w, k); }
    HexValues(p.h1);
    HexValues(p.h2);
    HexValues(p.h3);
    HexValues(p.h4);
    hide HexValue, HexLetter, At;
    assert w[2] == HexLetter(p.h1) && w[3] == HexLetter(p.h2) && w[4] == HexLetter(p.h3) && w[5] == HexLetter(p.h4);
    assert t[i + 2] == w[2] && t[i + 3] == w[3] && t[i + 4] == w[4] && t[i + 5] == w[5];
    FourHex(t, i + 2, p.h1.value, p.h2.value, p.h3.value, p.h4.value);
  }

  lemma FourHex(t: Text, i: nat, a: nat, b: nat, c: nat, d: nat)
    requires i + 4 <= |t| && HexValue(t[i]) == a && HexValue(t[i + 1]) == b && HexValue(t[i + 2]) == c && HexValue(t[i + 3]) == d
    ensures Hex4(t, i) == Some(((a * 16 + b) * 16 + c) * 16 + d)
  {
    hide HexValue;
    HexBound(t, i, 4);
    assert ParseHex(t, i, 0) == Some(0);
    assert ParseHex(t, i, 1) == Some(a);
    assert ParseHex(t, i, 2) == Some(a * 16 + b);
    assert ParseHex(t, i, 3) == Some((a * 16 + b) * 16 + c);
  }

  /** After a part that is no escaped low surrogate, or at the end, none is read. */
  lemma NoLowRead(t: Text, i: nat, parts: seq<Part>)
    requires AreParts(parts) && At(t, i, WriteParts(parts)) && CharAt(t, i + |WriteParts(parts)|, QUOTE)
    requires parts != [] ==> !IsUnit(parts[0], true)
    ensures LowAt(t, i) == None
  {
    hide Hex4;
    if parts != [] {
      AtConcat(t, i, WritePart(parts[0]), WriteParts(parts[1..]));
      var w := WritePart(parts[0]);
      AtIndex(t, i, w, 0);
      if parts[0].Short? { AtIndex(t, i, w, 1); }
      if parts[0].Unicode? { UnitRead(t, i, parts[0]); }
    }
  }

  lemma PartRead(t: Text, i: nat, p: Part)
    requires IsPart(p) && At(t, i, WritePart(p))
    requires IsUnit(p, false) ==> LowAt(t, i + 6) == None
    ensures i + |WritePart(p)| <= |t|
    ensures ParseString(t, i) ==
            match ParseString(t, i + |WritePart(p)|) case Fail => Fail case Ok(s, end) => Ok([CharOf(p)] + s, end)
  {
    hide Hex4;
    var w := WritePart(p);
    AtIndex(t, i, w, 0);
    match p {
      case Raw(_) =>
      case Short(k) =>
        AtIndex(t, i, w, 1);
        assert ParseEscape(t, i + 1) == Ok(ESCAPED[k], i + 2);
      case Unicode(_, _, _, _) =>
        UnitRead(t, i, p);
        assert ParseEscape(t, i + 1) == Ok(Unit(p), i + 6);
    }
  }

  lemma PairedRead(t: Text, i: nat, p: Part, q: Part)
    requires IsPart(p) && IsPart(q) && IsUnit(p, false) && IsUnit(q, true)
    requires At(t, i, WritePart(p)) && At(t, i + 6, WritePart(q))
    ensures i + 12 <= |t|
    ensures ParseString(t, i) ==
            match ParseString(t, i + 12) case Fail => Fail case Ok(s, end) => Ok([Paired(Unit(p), Unit(q))] + s, end)
  {
    hide Hex4;
    UnitRead(t, i, p);
    UnitRead(t, i + 6, q);
    assert ParseEscape(t, i + 1) == Ok(Paired(Unit(p), Unit(q)), i + 12);
  }

  lemma TwoParts(parts: seq<Part>)
    requires AreParts(parts) && |parts| >= 2 && parts[0].Unicode? && parts[1].Unicode?
    ensures WriteParts(parts) == WritePart(parts[0]) + (WritePart(parts[1]) + WriteParts(parts[2..]))
  {
    assert parts[1..][1..] == parts[2..];
  }

  /** A string is read to its closing quote, for what its parts stand for. */
  lemma {:induction false} PartsRead(t: Text, i: nat, parts: seq<Part>)
    requires AreParts(parts) && At(t, i, WriteParts(parts)) && CharAt(t, i + |WriteParts(parts)|, QUOTE)
    ensures ParseString(t, i) == Ok(Chars(parts), i + |WriteParts(parts)| + 1)
    decreases |parts|
  {
    hide At, ParseString, WritePart, LowAt, Paired, IsUnit, CharOf, WriteParts;
    WriteUnfolds(parts);
    if parts == [] {
      Closing(t, i);
    } else if |parts| >= 2 && IsUnit(parts[0], false) && IsUnit(parts[1], true) {
      var rest := parts[2..];
      TwoUnits(parts);
      AtConcat(t, i, WritePart(parts[0]), WritePart(parts[1]) + WriteParts(rest));
      AtConcat(t, i + 6, WritePart(parts[1]), WriteParts(rest));
      PartsRead(t, i + 12, rest);
      PairedRead(t, i, parts[0], parts[1]);
    } else {
      var rest := parts[1..];
      AtConcat(t, i, WritePart(parts[0]), WriteParts(rest));
      PartsRead(t, i + |WritePart(parts[0])|, rest);
      NoLowAfter(t, i, parts);
      PartRead(t, i, parts[0]);
    }
  }

  lemma WriteUnfolds(parts: seq<Part>)
    requires AreParts(parts)
    ensures WriteParts(parts) == if parts == [] then [] else WritePart(parts[0]) + WriteParts(parts[1..])
  {
    hide WritePart;
  }

  lemma TwoUnits(parts: seq<Part>)
    requires AreParts(parts) && |parts| >= 2 && IsUnit(parts[0], false) && IsUnit(parts[1], true)
    ensures WriteParts(parts) == WritePart(parts[0]) + (WritePart(parts[1]) + WriteParts(parts[2..]))
    ensures |WritePart(parts[0])| == 6 && |WritePart(parts[1])| == 6
  {
    TwoParts(parts);
  }

  lemma NoLowAfter(t: Text, i: nat, parts: seq<Part>)
    requires AreParts(parts) && parts != [] && CharAt(t, i + |WritePart(parts[0])| + |WriteParts(parts[1..])|, QUOTE)
    requires At(t, i + |WritePart(parts[0])|, WriteParts(parts[1..]))
    requires !(|parts| >= 2 && IsUnit(parts[0], false) && IsUnit(parts[1], true))
    ensures IsUnit(parts[0], false) ==> LowAt(t, i + 6) == None
  {
    hide At, LowAt, WritePart;
    if IsUnit(parts[0], false) {
      UnitLength(parts[0]);
      NoLowRead(t, i + 6, parts[1..]);
    }
  }

  lemma Closing(t: Text, i: nat)
    requires CharAt(t, i, QUOTE)
    ensures ParseString(t, i) == Ok([], i + 1)
  {
  }

  lemma UnitLength(p: Part)
    requires IsPart(p) && p.Unicode?
    ensures |WritePart(p)| == 6
  {
  }

  // --- No other strings are read -----------------------------------------------------------------------------

  lemma HexFound(c: int) returns (h: Hex)
    requires HexValue(c) >= 0
    ensures h.value < 16 && HexLetter(h) == c && h.value == HexValue(c)
  {
    h := Hex(HexValue(c), 0x41 <= c <= 0x46);
  }

  lemma UnitFound(t: Text, i: nat) returns (p: Part)
    requires CharAt(t, i, BACKSLASH) && CharAt(t, i + 1, 0x75) && Hex4(t, i + 2).Some?
    ensures IsPart(p) && p.Unicode? && At(t, i, WritePart(p)) && Hex4(t, i + 2) == Some(Unit(p))
  {
    hide HexValue;
    HexDigitsThere(t, i + 2);
    var a := HexFound(t[i + 2]);
    var b := HexFound(t[i + 3]);
    var c := HexFound(t[i + 4]);
    var d := HexFound(t[i + 5]);
    p := Unicode(a, b, c, d);
    assert t[i..i + 6] == [BACKSLASH, 0x75, t[i + 2], t[i + 3], t[i + 4], t[i + 5]];
    AtSlice(t, i, WritePart(p));
    FourHex(t, i + 2, a.value, b.value, c.value, d.value);
  }

  lemma HexDigitsThere(t: Text, i: nat)
    requires Hex4(t, i).Some?
    ensures i + 4 <= |t| && HexValue(t[i]) >= 0 && HexValue(t[i + 1]) >= 0 && HexValue(t[i + 2]) >= 0 && HexValue(t[i + 3]) >= 0
  {
    hide HexValue;
    HexBound(t, i, 4);
    assert ParseHex(t, i, 4).Some? && ParseHex(t, i, 3).Some? && ParseHex(t, i, 2).Some? && ParseHex(t, i, 1).Some?;
  }

  lemma ShortFound(letter: CodePoint) returns (k: nat)
    requires Unescape(letter).Some?
    ensures k < 8 && ESCAPE_LETTERS[k] == letter && Unescape(letter) == Some(ESCAPED[k])
  {
    k := if letter == QUOTE then 0 else if letter == BACKSLASH then 1 else if letter == SLASH then 2
         else if letter == 0x62 then 3 else if letter == 0x66 then 4 else if letter == 0x6E then 5
         else if letter == 0x72 then 6 else 7;
  }

  /** The parts `ParseString` takes first: two when they pair. */
  lemma FirstFound(t: Text, i: nat) returns (first: seq<Part>, next: nat)
    requires i < |t| && t[i] != QUOTE && ParseString(t, i).Ok?
    ensures AreParts(first) && first != [] && At(t, i, WriteParts(first)) && next == i + |WriteParts(first)|
    ensures if |first| == 2 then IsUnit(first[0], false) && IsUnit(first[1], true)
            else |first| == 1 && (IsUnit(first[0], false) ==> LowAt(t, next) == None)
  {
    hide Hex4, ParseString, At, WriteParts, WritePart, LowAt, IsUnit, Unescape;
    StringOpens(t, i);
    if t[i] == BACKSLASH && t[i + 1] == 0x75 {
      first := UnicodeFound(t, i);
    } else {
      first := PlainFound(t, i);
    }
    next := i + |WriteParts(first)|;
  }

  lemma PlainFound(t: Text, i: nat) returns (first: seq<Part>)
    requires i < |t| && t[i] != QUOTE
    requires if t[i] != BACKSLASH then t[i] >= 0x20 else i + 1 < |t| && t[i + 1] != 0x75 && Unescape(t[i + 1]).Some?
    ensures |first| == 1 && AreParts(first) && !first[0].Unicode? && At(t, i, WriteParts(first)) && !IsUnit(first[0], false)
  {
    hide At, Unescape;
    if t[i] != BACKSLASH {
      first := [Raw(t[i])];
      AtSlice(t, i, [t[i]]);
    } else {
      var k := ShortFound(t[i + 1]);
      first := [Short(k)];
      AtSlice(t, i, [BACKSLASH, t[i + 1]]);
    }
    OneOrTwo(first);
  }

  lemma UnicodeFound(t: Text, i: nat) returns (first: seq<Part>)
    requires CharAt(t, i, BACKSLASH) && CharAt(t, i + 1, 0x75) && Hex4(t, i + 2).Some?
    ensures 1 <= |first| <= 2 && AreParts(first) && At(t, i, WriteParts(first))
    ensures if |first| == 2 then IsUnit(first[0], false) && IsUnit(first[1], true)
            else IsUnit(first[0], false) ==> LowAt(t, i + |WriteParts(first)|) == None
  {
    hide Hex4, At, WriteParts, WritePart;
    var p := UnitFound(t, i);
    UnitLength(p);
    first := [p];
    if IsHigh(Unit(p)) && LowAt(t, i + 6).Some? {
      var q := UnitFound(t, i + 6);
      UnitLength(q);
      first := [p, q];
      AtConcat(t, i, WritePart(p), WritePart(q));
    }
    OneOrTwo(first);
  }

  lemma OneOrTwo(first: seq<Part>)
    requires AreParts(first) && 1 <= |first| <= 2
    ensures WriteParts(first) == if |first| == 1 then WritePart(first[0]) else WritePart(first[0]) + WritePart(first[1])
  {
    hide WritePart;
    assert first[1..] == [] || first[1..][1..] == [];
  }

  lemma StringOpens(t: Text, i: nat)
    requires i < |t| && t[i] != QUOTE && ParseString(t, i).Ok?
    ensures if t[i] != BACKSLASH then t[i] >= 0x20
            else i + 1 < |t| && (if t[i + 1] == 0x75 then Hex4(t, i + 2).Some? else Unescape(t[i + 1]).Some?)
  {
    hide Hex4, Unescape;
  }

  lemma WriteConcat(a: seq<Part>, b: seq<Part>)
    requires AreParts(a) && AreParts(b) && 1 <= |a| <= 2
    ensures AreParts(a + b) && WriteParts(a + b) == WriteParts(a) + WriteParts(b)
  {
    hide WritePart;
    assert (a + b)[1..] == a[1..] + b;
    if |a| == 1 {
      assert a[1..] == [] && a[1..] + b == b;
    } else {
      assert (a + b)[1..][1..] == b && a[1..][1..] == [];
    }
  }

  /** What is read as a string is written as one. */
  lemma {:induction false} PartsFound(t: Text, i: nat) returns (parts: seq<Part>)
    requires i <= |t| && ParseString(t, i).Ok?
    ensures AreParts(parts) && At(t, i, WriteParts(parts)) && CharAt(t, i + |WriteParts(parts)|, QUOTE)
    ensures ParseString(t, i) == Ok(Chars(parts), i + |WriteParts(parts)| + 1)
    decreases |t| - i
  {
    hide ParseEscape, LowAt, WritePart, Paired, Chars;
    if t[i] == QUOTE {
      parts := [];
    } else {
      var first, next := FirstFound(t, i);
      StringGoesOn(t, i, first);
      var rest := PartsFound(t, next);
      parts := first + rest;
      WriteConcat(first, rest);
      AtConcat(t, i, WriteParts(first), WriteParts(rest));
    }
    PartsRead(t, i, parts);
  }

  lemma StringGoesOn(t: Text, i: nat, first: seq<Part>)
    requires i < |t| && ParseString(t, i).Ok? && AreParts(first) && At(t, i, WriteParts(first))
    requires if |first| == 2 then IsUnit(first[0], false) && IsUnit(first[1], true)
             else |first| == 1 && (IsUnit(first[0], false) ==> LowAt(t, i + |WriteParts(first)|) == None)
    ensures WriteParts(first) != [] && i + |WriteParts(first)| <= |t| && ParseString(t, i + |WriteParts(first)|).Ok?
  {
    hide ParseString, LowAt, WritePart;
    AtConcat(t, i, WritePart(first[0]), WriteParts(first[1..]));
    if |first| == 2 {
      TwoParts(first);
      UnitLength(first[0]);
      UnitLength(first[1]);
      AtConcat(t, i + 6, WritePart(first[1]), WriteParts(first[2..]));
      PairedRead(t, i, first[0], first[1]);
      assert first[2..] == [];
    } else {
      assert first[1..] == [];
      if IsUnit(first[0], false) { UnitLength(first[0]); }
      PartRead(t, i, first[0]);
    }
  }

  // --- Values: sections 2 to 5 ------------------------------------------------------------------------------

  /** A value with the blank space inside it: before each item or member and after its value, and around
      each colon. `pad` is what an empty array or object holds. */
  datatype Syntax =
    | Null | True | False | Nan | Infinite(minus: bool)
    | Number(n: Numeral)
    | Str(parts: seq<Part>)
    | Arr(pad: Text, items: seq<Item>)
    | Obj(pad: Text, members: seq<Member>)

  datatype Item = Item(lead: Text, value: Syntax, after: Text)

  datatype Member = Member(lead: Text, key: seq<Part>, before: Text, gap: Text, value: Syntax, after: Text)

  /** Spaces, tabs, line feeds and carriage returns. */
  predicate IsBlankText(t: Text) {
    forall k :: 0 <= k < |t| ==> t[k] == 0x20 || t[k] == 0x09 || t[k] == 0x0A || t[k] == 0x0D
  }

  predicate IsSyntax(x: Syntax)
    decreases x, 1
  {
    match x
    case Number(n) => IsNumber(n) && !(IsIntegral(n) && |n.whole| > MAX_INT_DIGITS)
    case Str(parts) => AreParts(parts)
    case Arr(pad, items) => IsBlankText(pad) && forall k :: 0 <= k < |items| ==> IsItem(items[k])
    case Obj(pad, members) => IsBlankText(pad) && forall k :: 0 <= k < |members| ==> IsMember(members[k])
    case _ => true
  }

  predicate IsItem(m: Item)
    decreases m, 2
  {
    IsBlankText(m.lead) && IsBlankText(m.after) && IsSyntax(m.value)
  }

  predicate IsMember(m: Member)
    decreases m, 2
  {
    IsBlankText(m.lead) && IsBlankText(m.before) && IsBlankText(m.gap) && IsBlankText(m.after) && AreParts(m.key)
    && IsSyntax(m.value)
  }

  function Quoted(parts: seq<Part>): Text
    requires AreParts(parts)
  {
    [QUOTE] + (WriteParts(parts) + [QUOTE])
  }

  predicate AreItems(items: seq<Item>) {
    forall k :: 0 <= k < |items| ==> IsItem(items[k])
  }

  predicate AreMembers(members: seq<Member>) {
    forall k :: 0 <= k < |members| ==> IsMember(members[k])
  }

  function Write(x: Syntax): Text
    requires IsSyntax(x)
    decreases x
  {
    match x
    case Null => Ascii("null")
    case True => Ascii("true")
    case False => Ascii("false")
    case Nan => Ascii("NaN")
    case Infinite(minus) => if minus then [MINUS] + Ascii("Infinity") else Ascii("Infinity")
    case Number(n) => Spell(n)
    case Str(parts) => Quoted(parts)
    case Arr(pad, items) => [LBRACKET] + if items == [] then pad + [RBRACKET] else WriteItems(items)
    case Obj(pad, members) => [LBRACE] + if members == [] then pad + [RBRACE] else WriteMembers(members)
  }

  /** Items with commas between, closed by the bracket. */
  function WriteItems(items: seq<Item>): Text
    requires items != [] && AreItems(items)
    decreases items
  {
    var m := items[0];
    m.lead + (Write(m.value) + (m.after + if |items| == 1 then [RBRACKET] else [COMMA] + WriteItems(items[1..])))
  }

  function WriteMembers(members: seq<Member>): Text
    requires members != [] && AreMembers(members)
    decreases members
  {
    var m := members[0];
    m.lead + (Quoted(m.key) + (m.before + ([COLON] + (m.gap + (Write(m.value) + (m.after
      + if |members| == 1 then [RBRACE] else [COMMA] + WriteMembers(members[1..])))))))
  }

  function Mean(x: Syntax): Json
    requires IsSyntax(x)
    decreases x
  {
    match x
    case Null => JNull
    case True => JBool(true)
    case False => JBool(false)
    case Nan => JFloat(Ascii("NaN"))
    case Infinite(minus) => JFloat(if minus then [MINUS] + Ascii("Infinity") else Ascii("Infinity"))
    case Number(n) => Meaning(n)
    case Str(parts) => JString(Chars(parts))
    case Arr(_, items) => JArray(MeanItems(items))
    case Obj(_, members) => JObject(MeanMembers(members, map[]))
  }

  function MeanItems(items: seq<Item>): seq<Json>
    requires AreItems(items)
    decreases items
  {
    if items == [] then [] else [Mean(items[0].value)] + MeanItems(items[1..])
  }

  /** Of members with one name, the last counts. */
  function MeanMembers(members: seq<Member>, before: map<Text, Json>): map<Text, Json>
    requires AreMembers(members)
    decreases members
  {
    if members == [] then before
    else MeanMembers(members[1..], before[Chars(members[0].key) := Mean(members[0].value)])
  }

  /** Only a number can go on after its end. */
  predicate Complete(t: Text, e: nat, x: Syntax) {
    x.Number? ==> Ends(t, e, x.n)
  }

  // --- Reading numbers -------------------------------------------------------------------------------------------

  /** No number can go on at `e`. */
  predicate NumberStops(t: Text, e: nat) {
    e < |t| ==> !IsDigit(t[e]) && t[e] !in {DOT, PLUS, MINUS, 0x65, 0x45}
  }

  lemma StopsEnd(t: Text, e: nat, n: Numeral)
    requires NumberStops(t, e)
    ensures Ends(t, e, n)
  {
  }

  lemma LiteralFirst(t: Text, i: nat, literal: Text)
    requires At(t, i, literal) && literal != []
    ensures t[i] == literal[0]
  {
    AtIndex(t, i, literal, 0);
  }

  /** What starts like a number is decoded as one. */
  lemma NumberFirst(t: Text, i: nat)
    requires i < |t| && DigitAt(t, NumberStart(t, i))
    ensures ParseValue(t, i) == ParseNumber(t, i)
  {
    hide ParseNumber, At;
    if At(t, i, NULL) { LiteralFirst(t, i, NULL); }
    if At(t, i, TRUE) { LiteralFirst(t, i, TRUE); }
    if At(t, i, FALSE) { LiteralFirst(t, i, FALSE); }
  }

  lemma NumberRead(t: Text, i: nat, n: Numeral)
    requires IsNumber(n) && At(t, i, Spell(n)) && Ends(t, i + |Spell(n)|, n)
    requires !(IsIntegral(n) && |n.whole| > MAX_INT_DIGITS)
    ensures ParseValue(t, i) == Ok(Meaning(n), i + |Spell(n)|)
  {
    hide ParseNumber, ParseValue, At, Ends, Meaning, NumberStart;
    NumeralRead(t, i, n);
    PiecesFound(t, i, n);
    NumberFirst(t, i);
  }

  // --- Reading values -----------------------------------------------------------------------------------------

  lemma {:induction false} BlankSkipped(t: Text, i: nat, pad: Text)
    requires At(t, i, pad) && IsBlankText(pad) && (i + |pad| < |t| ==> !IsJsonSpace(t[i + |pad|]))
    ensures SkipSpace(t, i) == i + |pad|
    decreases |pad|
  {
    if pad != [] { BlankSkipped(t, i + 1, pad[1..]); }
  }

  lemma WriteFirst(x: Syntax)
    requires IsSyntax(x)
    ensures Write(x) != [] && !IsJsonSpace(Write(x)[0]) && Write(x)[0] != RBRACKET
  {
    hide FractionText, ExponentText, WriteItems, WriteMembers, WriteParts;
    if x.Number? {
      assert Write(x)[0] == if x.n.minus then MINUS else x.n.whole[0];
      assert IsDigit(x.n.whole[0]);
    }
  }

  /** After blank space and a comma or a closing bracket or brace, no number goes on. */
  lemma Delimited(t: Text, e: nat, pad: Text, x: Syntax)
    requires At(t, e, pad) && IsBlankText(pad)
    requires CharAt(t, e + |pad|, COMMA) || CharAt(t, e + |pad|, RBRACKET) || CharAt(t, e + |pad|, RBRACE)
    ensures Complete(t, e, x)
    ensures SkipSpace(t, e) == e + |pad|
  {
    BlankSkipped(t, e, pad);
    if pad != [] { AtIndex(t, e, pad, 0); }
    StopsAt(t, e);
    if x.Number? { StopsEnd(t, e, x.n); }
  }

  lemma StopsAt(t: Text, e: nat)
    requires e < |t| && (IsJsonSpace(t[e]) || t[e] == COMMA || t[e] == RBRACKET || t[e] == RBRACE)
    ensures NumberStops(t, e)
  {
  }

  /** The pieces of a text stand one after another. */
  lemma AtFour(t: Text, i: nat, a: Text, b: Text, c: Text, d: Text)
    requires At(t, i, a + (b + (c + d)))
    ensures At(t, i, a) && At(t, i + |a|, b) && At(t, i + |a| + |b|, c) && At(t, i + |a| + |b| + |c|, d)
  {
    AtConcat(t, i, a, b + (c + d));
    AtConcat(t, i + |a|, b, c + d);
    AtConcat(t, i + |a| + |b|, c, d);
  }

  lemma LastItemRead(t: Text, v: nat, value: Json, a: nat, c: nat, before: seq<Json>)
    requires v <= |t| && ParseValue(t, v) == Ok(value, a) && SkipSpace(t, a) == c && CharAt(t, c, RBRACKET)
    ensures ParseItems(t, v, before) == Ok(JArray(before + [value]), c + 1)
  {
  }

  lemma ItemThenMore(t: Text, v: nat, value: Json, a: nat, c: nat, before: seq<Json>)
    requires v <= |t| && ParseValue(t, v) == Ok(value, a) && SkipSpace(t, a) == c && CharAt(t, c, COMMA)
    ensures ParseItems(t, v, before) == ParseItems(t, SkipSpace(t, c + 1), before + [value])
  {
  }

  /** What closes an item. */
  function ItemTail(items: seq<Item>): (tail: Text)
    requires items != [] && AreItems(items)
    ensures tail != [] && (tail[0] == RBRACKET || tail[0] == COMMA)
  {
    if |items| == 1 then [RBRACKET] else [COMMA] + WriteItems(items[1..])
  }

  lemma ItemPieces(t: Text, i: nat, items: seq<Item>)
    requires items != [] && AreItems(items) && At(t, i, WriteItems(items))
    ensures var m := items[0]; var v := i + |m.lead|; var a := v + |Write(m.value)|; var c := a + |m.after|;
            && At(t, i, m.lead) && At(t, v, Write(m.value)) && At(t, a, m.after) && At(t, c, ItemTail(items))
            && c < |t| && t[c] == ItemTail(items)[0] && c + |ItemTail(items)| == i + |WriteItems(items)|
            && IsSyntax(m.value) && SkipSpace(t, i) == v && v < |t| && Complete(t, a, m.value) && SkipSpace(t, a) == c
  {
    hide At, Write, Complete, SkipSpace;
    var m := items[0];
    var v := i + |m.lead|;
    AtFour(t, i, m.lead, Write(m.value), m.after, ItemTail(items));
    AtIndex(t, v + |Write(m.value)| + |m.after|, ItemTail(items), 0);
    WriteFirst(m.value);
    AtIndex(t, v, Write(m.value), 0);
    BlankSkipped(t, i, m.lead);
    Delimited(t, v + |Write(m.value)|, m.after, m.value);
  }

  lemma {:induction false} ItemsRead(t: Text, i: nat, items: seq<Item>, before: seq<Json>)
    requires items != [] && AreItems(items) && At(t, i, WriteItems(items))
    ensures i <= |t| && ParseItems(t, SkipSpace(t, i), before) == Ok(JArray(before + MeanItems(items)), i + |WriteItems(items)|)
    decreases items, 0
  {
    hide At, ParseValue, ParseItems, SkipSpace, Write, WriteItems, Mean, Complete, IsSyntax;
    var m := items[0];
    var v := i + |m.lead|;
    var a := v + |Write(m.value)|;
    var c := a + |m.after|;
    ItemPieces(t, i, items);
    ValueRead(t, v, m.value);
    if |items| == 1 {
      LastItemRead(t, v, Mean(m.value), a, c, before);
      NoItems();
      assert items[1..] == [] && MeanItems(items) == [Mean(m.value)] + MeanItems([]);
      assert MeanItems(items) == [Mean(m.value)];
    } else {
      var rest := items[1..];
      AtOpened(t, c, COMMA, WriteItems(rest));
      ItemsRead(t, c + 1, rest, before + [Mean(m.value)]);
      ItemThenMore(t, v, Mean(m.value), a, c, before);
      assert before + [Mean(m.value)] + MeanItems(rest) == before + MeanItems(items);
    }
  }

  lemma OneMemberRead(t: Text, q: nat, key: Text, e: nat, colon: nat, v: nat, value: Json, a: nat)
    requires q <= |t| && ParseString(t, q) == Ok(key, e) && SkipSpace(t, e) == colon && CharAt(t, colon, COLON)
    requires SkipSpace(t, colon + 1) == v && v <= |t| && ParseValue(t, v) == Ok(value, a)
    ensures ParseMember(t, q) == Ok((key, value), a)
  {
  }

  lemma MembersEnd(t: Text, q: nat, key: Text, value: Json, a: nat, c: nat, before: map<Text, Json>)
    requires q <= |t| && ParseMember(t, q) == Ok((key, value), a) && SkipSpace(t, a) == c && CharAt(t, c, RBRACE)
    ensures ParseMembers(t, q, before) == Ok(JObject(before[key := value]), c + 1)
  {
  }

  lemma MembersGoOn(t: Text, q: nat, key: Text, value: Json, a: nat, c: nat, next: nat, before: map<Text, Json>)
    requires q <= |t| && ParseMember(t, q) == Ok((key, value), a) && SkipSpace(t, a) == c && CharAt(t, c, COMMA)
    requires SkipSpace(t, c + 1) == next && CharAt(t, next, QUOTE)
    ensures ParseMembers(t, q, before) == ParseMembers(t, next + 1, before[key := value])
  {
  }

  function MemberTail(members: seq<Member>): (tail: Text)
    requires members != [] && AreMembers(members)
    ensures tail != [] && (tail[0] == RBRACE || tail[0] == COMMA)
  {
    if |members| == 1 then [RBRACE] else [COMMA] + WriteMembers(members[1..])
  }

  /** A member stands from `i` to `c`. */
  predicate MemberStands(t: Text, i: nat, m: Member, c: nat)
    requires IsMember(m)
  {
    var q := i + |m.lead|;
    var e := q + |Quoted(m.key)|;
    var k := e + |m.before|;
    var v := k + 1 + |m.gap|;
    var a := v + |Write(m.value)|;
    && At(t, i, m.lead) && At(t, q, Quoted(m.key)) && At(t, e, m.before) && CharAt(t, k, COLON) && At(t, k + 1, m.gap)
    && At(t, v, Write(m.value)) && At(t, a, m.after) && c == a + |m.after|
  }

  lemma MemberApart(t: Text, i: nat, members: seq<Member>) returns (c: nat)
    requires members != [] && AreMembers(members) && At(t, i, WriteMembers(members))
    ensures MemberStands(t, i, members[0], c) && At(t, c, MemberTail(members)) && i <= c
    ensures c + |MemberTail(members)| == i + |WriteMembers(members)|
  {
    hide At, Write, WriteParts, IsSyntax, AreParts, IsBlankText, Quoted;
    var m := members[0];
    var k := i + |m.lead| + |Quoted(m.key)| + |m.before|;
    var tail := MemberTail(members);
    AtFour(t, i, m.lead, Quoted(m.key), m.before, [COLON] + (m.gap + (Write(m.value) + (m.after + tail))));
    AtFour(t, k, [COLON], m.gap, Write(m.value), m.after + tail);
    AtConcat(t, k + 1 + |m.gap| + |Write(m.value)|, m.after, tail);
    AtIndex(t, k, [COLON], 0);
    c := k + 1 + |m.gap| + |Write(m.value)| + |m.after|;
  }

  /** The first member is read to its value's end, and what closes it comes after. */
  lemma MemberPieces(t: Text, i: nat, members: seq<Member>)
    requires members != [] && AreMembers(members) && At(t, i, WriteMembers(members))
    ensures var m := members[0]; var q := i + |m.lead|; var e := q + |Quoted(m.key)|; var k := e + |m.before|;
            var v := k + 1 + |m.gap|; var a := v + |Write(m.value)|; var c := a + |m.after|;
            && i <= |t| && SkipSpace(t, i) == q && CharAt(t, q, QUOTE)
            && ParseString(t, q + 1) == Ok(Chars(m.key), e) && SkipSpace(t, e) == k && CharAt(t, k, COLON)
            && SkipSpace(t, k + 1) == v && v < |t| && At(t, v, Write(m.value)) && IsSyntax(m.value) && Complete(t, a, m.value)
            && SkipSpace(t, a) == c && At(t, c, MemberTail(members)) && CharAt(t, c, MemberTail(members)[0])
            && c + |MemberTail(members)| == i + |WriteMembers(members)|
  {
    hide At, Write, Complete, SkipSpace, WriteParts, ParseString, Chars, IsSyntax, WriteMembers, MemberTail, Quoted, AreParts,
      IsBlankText;
    var m := members[0];
    var q := i + |m.lead|;
    var e := q + |Quoted(m.key)|;
    var k := e + |m.before|;
    var v := k + 1 + |m.gap|;
    var a := v + |Write(m.value)|;
    var c := MemberApart(t, i, members);
    AtIndex(t, c, MemberTail(members), 0);
    QuotedRead(t, q, m.key);
    BlankSkipped(t, i, m.lead);
    BlankSkipped(t, e, m.before);
    WriteFirst(m.value);
    AtIndex(t, v, Write(m.value), 0);
    BlankSkipped(t, k + 1, m.gap);
    Delimited(t, a, m.after, m.value);
  }

  lemma QuotedRead(t: Text, q: nat, parts: seq<Part>)
    requires AreParts(parts) && At(t, q, Quoted(parts))
    ensures CharAt(t, q, QUOTE) && ParseString(t, q + 1) == Ok(Chars(parts), q + |Quoted(parts)|)
  {
    hide At, ParseString, Chars, WriteParts;
    AtOpened(t, q, QUOTE, WriteParts(parts) + [QUOTE]);
    AtClosed(t, q + 1, WriteParts(parts), QUOTE);
    PartsRead(t, q + 1, parts);
  }

  lemma {:induction false} MembersRead(t: Text, i: nat, members: seq<Member>, before: map<Text, Json>)
    requires members != [] && AreMembers(members) && At(t, i, WriteMembers(members))
    ensures i <= |t| && CharAt(t, SkipSpace(t, i), QUOTE)
    ensures ParseMembers(t, SkipSpace(t, i) + 1, before)
            == Ok(JObject(MeanMembers(members, before)), i + |WriteMembers(members)|)
    decreases members, 0
  {
    hide At, ParseValue, ParseMembers, ParseMember, ParseString, SkipSpace, Write, WriteMembers, Mean, Complete, IsSyntax,
      Chars, Quoted, MemberTail, MeanMembers;
    var m := members[0];
    var q := i + |m.lead|;
    var e := q + |Quoted(m.key)|;
    var k := e + |m.before|;
    var v := k + 1 + |m.gap|;
    var a := v + |Write(m.value)|;
    var c := a + |m.after|;
    var key, value := Chars(m.key), Mean(m.value);
    var rest := members[1..];
    MemberPieces(t, i, members);
    MemberClosed(t, c, members, before);
    ValueRead(t, v, m.value);
    OneMemberRead(t, q + 1, key, e, k, v, value, a);
    if |members| == 1 {
      MembersEnd(t, q + 1, key, value, a, c, before);
    } else {
      MembersRead(t, c + 1, rest, before[key := value]);
      MembersGoOn(t, q + 1, key, value, a, c, SkipSpace(t, c + 1), before);
    }
  }

  lemma MemberClosed(t: Text, c: nat, members: seq<Member>, before: map<Text, Json>)
    requires members != [] && AreMembers(members) && At(t, c, MemberTail(members)) && CharAt(t, c, MemberTail(members)[0])
    ensures var now := before[Chars(members[0].key) := Mean(members[0].value)];
            if |members| == 1 then CharAt(t, c, RBRACE) && |MemberTail(members)| == 1 && MeanMembers(members, before) == now
            else CharAt(t, c, COMMA) && members[1..] != [] && AreMembers(members[1..]) && At(t, c + 1, WriteMembers(members[1..]))
                 && |MemberTail(members)| == 1 + |WriteMembers(members[1..])|
                 && MeanMembers(members, before) == MeanMembers(members[1..], now)
  {
    hide At, Mean, Chars, WriteMembers;
    if |members| == 1 {
      assert members[1..] == [];
    } else {
      AtOpened(t, c, COMMA, WriteMembers(members[1..]));
    }
  }

  lemma LiteralRead(t: Text, i: nat, literal: Text)
    requires (literal == NULL || literal == TRUE || literal == FALSE) && At(t, i, literal)
    ensures ParseValue(t, i) == Ok(if literal == NULL then JNull else JBool(literal == TRUE), i + |literal|)
  {
    LiteralFirst(t, i, literal);
    if At(t, i, NULL) { LiteralFirst(t, i, NULL); }
    if At(t, i, TRUE) { LiteralFirst(t, i, TRUE); }
  }

  lemma NonFiniteRead(t: Text, i: nat, lexeme: Text)
    requires lexeme == NAN || lexeme == INFINITY || lexeme == [MINUS] + INFINITY
    requires At(t, i, lexeme)
    ensures ParseValue(t, i) == Ok(JFloat(lexeme), i + |lexeme|)
  {
    hide At, ParseNumber, ParseString, ParseArray, ParseObject;
    LiteralFirst(t, i, lexeme);
    if At(t, i, NULL) { LiteralFirst(t, i, NULL); }
    if At(t, i, TRUE) { LiteralFirst(t, i, TRUE); }
    if At(t, i, FALSE) { LiteralFirst(t, i, FALSE); }
    if At(t, i, NAN) { LiteralFirst(t, i, NAN); }
    if At(t, i, INFINITY) { LiteralFirst(t, i, INFINITY); }
    if lexeme == [MINUS] + INFINITY { AtIndex(t, i, lexeme, 1); }
  }

  lemma NameRead(t: Text, i: nat, x: Syntax)
    requires (x.Null? || x.True? || x.False? || x.Nan? || x.Infinite?) && At(t, i, Write(x))
    ensures ParseValue(t, i) == Ok(Mean(x), i + |Write(x)|)
  {
    hide At, ParseNumber, ParseArray, ParseObject, ParseString, ParseValue;
    assert NULL[0] != TRUE[0] && NULL[0] != FALSE[0] && TRUE[0] != FALSE[0];
    match x
    case Null => LiteralRead(t, i, NULL);
    case True => LiteralRead(t, i, TRUE);
    case False => LiteralRead(t, i, FALSE);
    case Nan => NonFiniteRead(t, i, NAN);
    case Infinite(minus) => NonFiniteRead(t, i, if minus then [MINUS] + INFINITY else INFINITY);
  }

  lemma ArrRead(t: Text, i: nat, pad: Text, items: seq<Item>)
    requires IsSyntax(Arr(pad, items)) && At(t, i, Write(Arr(pad, items)))
    ensures ParseValue(t, i) == Ok(JArray(MeanItems(items)), i + |Write(Arr(pad, items))|)
    decreases items, 1
  {
    hide At, ParseItems, SkipSpace, WriteItems, Write, MeanItems;
    WriteArr(pad, items);
    AtOpened(t, i, LBRACKET, if items == [] then pad + [RBRACKET] else WriteItems(items));
    if items == [] {
      AtClosed(t, i + 1, pad, RBRACKET);
      BlankSkipped(t, i + 1, pad);
      assert MeanItems(items) == [] by { NoItems(); }
    } else {
      ItemPieces(t, i + 1, items);
      WriteFirst(items[0].value);
      AtIndex(t, i + 1 + |items[0].lead|, Write(items[0].value), 0);
      ItemsRead(t, i + 1, items, []);
      assert [] + MeanItems(items) == MeanItems(items);
    }
  }

  lemma WriteArr(pad: Text, items: seq<Item>)
    requires IsSyntax(Arr(pad, items))
    ensures Write(Arr(pad, items)) == [LBRACKET] + if items == [] then pad + [RBRACKET] else WriteItems(items)
  {
    hide WriteItems;
  }

  lemma NoItems()
    ensures MeanItems([]) == []
  {
  }

  lemma ObjRead(t: Text, i: nat, pad: Text, members: seq<Member>)
    requires IsSyntax(Obj(pad, members)) && At(t, i, Write(Obj(pad, members)))
    ensures ParseValue(t, i) == Ok(JObject(MeanMembers(members, map[])), i + |Write(Obj(pad, members))|)
    decreases members, 1
  {
    hide At, ParseMembers, SkipSpace, WriteMembers;
    AtOpened(t, i, LBRACE, if members == [] then pad + [RBRACE] else WriteMembers(members));
    if members == [] {
      AtClosed(t, i + 1, pad, RBRACE);
      BlankSkipped(t, i + 1, pad);
    } else {
      MembersRead(t, i + 1, members, map[]);
    }
  }

  /** Wherever a text is written that cannot go on, it is read to its end, for what it means. */
  lemma ValueRead(t: Text, i: nat, x: Syntax)
    requires IsSyntax(x) && At(t, i, Write(x)) && Complete(t, i + |Write(x)|, x)
    ensures i < |t| && ParseValue(t, i) == Ok(Mean(x), i + |Write(x)|)
    decreases x
  {
    hide At, ParseNumber, ParseArray, ParseObject, ParseString, WriteItems, WriteMembers, Chars, MeanItems, MeanMembers, Spell,
      Ends, Meaning, IsNumber;
    WriteFirst(x);
    AtIndex(t, i, Write(x), 0);
    match x
    case Number(n) => NumberRead(t, i, n);
    case Str(parts) => QuotedRead(t, i, parts);
    case Arr(pad, items) => ArrRead(t, i, pad, items);
    case Obj(pad, members) => ObjRead(t, i, pad, members);
    case _ => NameRead(t, i, x);
  }

  // --- Nothing else is read ----------------------------------------------------------------------------------------

  lemma {:induction false} SkipSpaceIs(t: Text, i: nat)
    requires i <= |t|
    ensures var j := SkipSpace(t, i); IsBlankText(t[i..j]) && At(t, i, t[i..j]) && (j < |t| ==> !IsJsonSpace(t[j]))
    decreases |t| - i
  {
    var j := SkipSpace(t, i);
    AtSlice(t, i, t[i..j]);
    if i < |t| && IsJsonSpace(t[i]) {
      SkipSpaceIs(t, i + 1);
      assert t[i..j] == [t[i]] + t[i + 1..j];
    }
  }

  lemma AtFourJoined(t: Text, i: nat, a: Text, b: Text, c: Text, d: Text)
    requires At(t, i, a) && At(t, i + |a|, b) && At(t, i + |a| + |b|, c) && At(t, i + |a| + |b| + |c|, d)
    ensures At(t, i, a + (b + (c + d)))
  {
    AtConcat(t, i, a, b + (c + d));
    AtConcat(t, i + |a|, b, c + d);
    AtConcat(t, i + |a| + |b|, c, d);
  }

  lemma AtOne(t: Text, i: nat, c: CodePoint)
    requires CharAt(t, i, c)
    ensures At(t, i, [c])
  {
  }

  lemma AtOneThen(t: Text, i: nat, c: CodePoint, rest: Text)
    requires CharAt(t, i, c) && At(t, i + 1, rest)
    ensures At(t, i, [c] + rest)
  {
    AtConcat(t, i, [c], rest);
  }

  /** An item in front of what closes it. */
  lemma ItemWritten(t: Text, i: nat, m: Item, rest: seq<Item>, v: nat, a: nat, c: nat)
    requires IsItem(m) && AreItems(rest) && At(t, i, m.lead) && v == i + |m.lead| && At(t, v, Write(m.value))
    requires a == v + |Write(m.value)| && At(t, a, m.after) && c == a + |m.after|
    requires if rest == [] then CharAt(t, c, RBRACKET) else CharAt(t, c, COMMA) && At(t, c + 1, WriteItems(rest))
    ensures AreItems([m] + rest) && At(t, i, WriteItems([m] + rest))
  {
    hide At, Write, WriteItems;
    var items := [m] + rest;
    assert items[1..] == rest;
    if rest == [] { AtOne(t, c, RBRACKET); } else { AtOneThen(t, c, COMMA, WriteItems(rest)); }
    AtFourJoined(t, i, m.lead, Write(m.value), m.after, ItemTail(items));
    WriteItemsIs(items);
  }

  lemma WriteItemsIs(items: seq<Item>)
    requires items != [] && AreItems(items)
    ensures WriteItems(items) == items[0].lead + (Write(items[0].value) + (items[0].after + ItemTail(items)))
  {
    hide Write;
  }

  lemma ItemsGoOn(t: Text, v: nat, before: seq<Json>)
    requires v <= |t| && ParseItems(t, v, before).Ok?
    ensures v < |t| && ParseValue(t, v).Ok?
    ensures var c := SkipSpace(t, ParseValue(t, v).end);
            CharAt(t, c, RBRACKET)
            || (CharAt(t, c, COMMA) && c + 1 <= |t| && ParseItems(t, SkipSpace(t, c + 1), before + [ParseValue(t, v).value]).Ok?)
  {
  }

  lemma {:induction false} ItemsFound(t: Text, i: nat, before: seq<Json>) returns (items: seq<Item>)
    requires i <= |t| && ParseItems(t, SkipSpace(t, i), before).Ok?
    ensures items != [] && AreItems(items) && At(t, i, WriteItems(items))
    decreases |t| - i, 3
  {
    hide At, ParseValue, ParseItems, SkipSpace, Write, WriteItems, Mean, IsSyntax, AreItems, IsBlankText;
    var v := SkipSpace(t, i);
    SkipSpaceIs(t, i);
    ItemsGoOn(t, v, before);
    var x, after := ValueStands(t, v);
    var a := v + |Write(x)|;
    var c := a + |after|;
    var m := Item(t[i..v], x, after);
    var rest: seq<Item> := [];
    if CharAt(t, c, RBRACKET) {
      assert AreItems(rest) by { NoneWrong(); }
    } else {
      rest := ItemsFound(t, c + 1, before + [Mean(x)]);
    }
    items := [m] + rest;
    ItemWritten(t, i, m, rest, v, a, c);
  }

  lemma NoneWrong()
    ensures AreItems([]) && AreMembers([])
  {
  }

  lemma MemberOpens(t: Text, q: nat)
    requires q <= |t| && ParseMember(t, q).Ok?
    ensures ParseString(t, q).Ok?
    ensures var k := SkipSpace(t, ParseString(t, q).end);
            CharAt(t, k, COLON) && k + 1 <= |t|
            && var v := SkipSpace(t, k + 1);
               v < |t| && ParseValue(t, v).Ok?
               && ParseMember(t, q) == Ok((ParseString(t, q).value, ParseValue(t, v).value), ParseValue(t, v).end)
  {
  }

  lemma MembersOpen(t: Text, q: nat, before: map<Text, Json>)
    requires q <= |t| && ParseMembers(t, q, before).Ok?
    ensures ParseMember(t, q).Ok?
    ensures var m := ParseMember(t, q).value; var c := SkipSpace(t, ParseMember(t, q).end);
            CharAt(t, c, RBRACE)
            || (CharAt(t, c, COMMA) && c + 1 <= |t| && CharAt(t, SkipSpace(t, c + 1), QUOTE)
                && ParseMembers(t, SkipSpace(t, c + 1) + 1, before[m.0 := m.1]).Ok?)
  {
    hide ParseMember;
  }

  lemma MemberWritten(t: Text, i: nat, m: Member, rest: seq<Member>, c: nat)
    requires IsMember(m) && AreMembers(rest) && MemberStands(t, i, m, c)
    requires if rest == [] then CharAt(t, c, RBRACE) else CharAt(t, c, COMMA) && At(t, c + 1, WriteMembers(rest))
    ensures AreMembers([m] + rest) && At(t, i, WriteMembers([m] + rest))
  {
    hide At, Write, WriteMembers, Quoted, AreParts, IsBlankText;
    var members := [m] + rest;
    assert members[1..] == rest;
    if rest == [] { AtOne(t, c, RBRACE); } else { AtOneThen(t, c, COMMA, WriteMembers(rest)); }
    var q := i + |m.lead|;
    var k := q + |Quoted(m.key)| + |m.before|;
    AtOne(t, k, COLON);
    var tail := MemberTail(members);
    AtConcat(t, c - |m.after|, m.after, tail);
    AtFourJoined(t, k, [COLON], m.gap, Write(m.value), m.after + tail);
    AtFourJoined(t, i, m.lead, Quoted(m.key), m.before, [COLON] + (m.gap + (Write(m.value) + (m.after + tail))));
    WriteMembersIs(members);
  }

  lemma WriteMembersIs(members: seq<Member>)
    requires members != [] && AreMembers(members)
    ensures var m := members[0];
            WriteMembers(members)
            == m.lead + (Quoted(m.key) + (m.before + ([COLON] + (m.gap + (Write(m.value) + (m.after + MemberTail(members)))))))
  {
    hide Write, Quoted;
  }

  lemma QuotedFound(t: Text, q: nat) returns (parts: seq<Part>)
    requires CharAt(t, q, QUOTE) && ParseString(t, q + 1).Ok?
    ensures AreParts(parts) && At(t, q, Quoted(parts)) && ParseString(t, q + 1) == Ok(Chars(parts), q + |Quoted(parts)|)
  {
    hide At, ParseString, Chars, WriteParts;
    parts := PartsFound(t, q + 1);
    var w := WriteParts(parts);
    AtOne(t, q + 1 + |w|, QUOTE);
    AtConcat(t, q + 1, w, [QUOTE]);
    AtOneThen(t, q, QUOTE, w + [QUOTE]);
  }

  /** A key with the blank space around it, up to the value. */
  lemma KeyFound(t: Text, i: nat) returns (lead: Text, key: seq<Part>, before: Text, gap: Text)
    requires i <= |t| && CharAt(t, SkipSpace(t, i), QUOTE) && ParseMember(t, SkipSpace(t, i) + 1).Ok?
    ensures AreParts(key) && IsBlankText(lead) && IsBlankText(before) && IsBlankText(gap) && At(t, i, lead)
    ensures var q := i + |lead|; var e := q + |Quoted(key)|; var k := e + |before|; var v := k + 1 + |gap|;
            && At(t, q, Quoted(key)) && At(t, e, before) && CharAt(t, k, COLON) && At(t, k + 1, gap)
            && v < |t| && ParseValue(t, v).Ok? && ParseMember(t, SkipSpace(t, i) + 1).end == ParseValue(t, v).end
  {
    hide At, ParseValue, ParseMember, ParseString, SkipSpace, Quoted, AreParts, Chars, IsBlankText;
    var q := SkipSpace(t, i);
    SkipSpaceIs(t, i);
    MemberOpens(t, q + 1);
    lead := t[i..q];
    key := QuotedFound(t, q);
    var e := q + |Quoted(key)|;
    var k := SkipSpace(t, e);
    SkipSpaceIs(t, e);
    before := t[e..k];
    gap := t[k + 1..SkipSpace(t, k + 1)];
    SkipSpaceIs(t, k + 1);
  }

  /** A value with the blank space after it. */
  lemma ValueStands(t: Text, v: nat) returns (x: Syntax, after: Text)
    requires v < |t| && ParseValue(t, v).Ok?
    ensures IsSyntax(x) && At(t, v, Write(x)) && ParseValue(t, v) == Ok(Mean(x), v + |Write(x)|) && IsBlankText(after)
    ensures var a := v + |Write(x)|; a <= |t| && At(t, a, after) && SkipSpace(t, a) == a + |after|
    decreases |t| - v, 2
  {
    hide At, ParseValue, SkipSpace, Write, Mean, Complete, IsSyntax, IsBlankText;
    x := ValueFound(t, v);
    ValueRead(t, v, x);
    var a := v + |Write(x)|;
    SkipSpaceIs(t, a);
    after := t[a..SkipSpace(t, a)];
  }

  /** The member read from `i` on stands there. */
  lemma MemberFound(t: Text, i: nat) returns (m: Member, c: nat)
    requires i <= |t| && CharAt(t, SkipSpace(t, i), QUOTE) && ParseMember(t, SkipSpace(t, i) + 1).Ok?
    ensures IsMember(m) && MemberStands(t, i, m, c) && i < c && c == SkipSpace(t, ParseMember(t, SkipSpace(t, i) + 1).end)
    decreases |t| - i, 0
  {
    hide At, ParseValue, ParseMember, SkipSpace, Write, Mean, IsSyntax, Quoted, AreParts, IsBlankText;
    var lead, key, before, gap := KeyFound(t, i);
    var v := i + |lead| + |Quoted(key)| + |before| + 1 + |gap|;
    var x, after := ValueStands(t, v);
    m := Member(lead, key, before, gap, x, after);
    c := v + |Write(x)| + |after|;
  }

  lemma {:induction false} MembersFound(t: Text, i: nat, before: map<Text, Json>) returns (members: seq<Member>)
    requires i <= |t| && CharAt(t, SkipSpace(t, i), QUOTE) && ParseMembers(t, SkipSpace(t, i) + 1, before).Ok?
    ensures members != [] && AreMembers(members) && At(t, i, WriteMembers(members))
    decreases |t| - i, 1
  {
    hide At, ParseMembers, ParseMember, SkipSpace, WriteMembers, IsMember, MemberStands, AreMembers;
    var q := SkipSpace(t, i);
    MembersOpen(t, q + 1, before);
    var m, c := MemberFound(t, i);
    var rest: seq<Member> := [];
    if CharAt(t, c, RBRACE) {
      NoneWrong();
    } else {
      var member := ParseMember(t, q + 1).value;
      rest := MembersFound(t, c + 1, before[member.0 := member.1]);
    }
    members := [m] + rest;
    MemberWritten(t, i, m, rest, c);
  }

  lemma ArrFound(t: Text, i: nat) returns (x: Syntax)
    requires CharAt(t, i, LBRACKET) && ParseArray(t, i + 1).Ok?
    ensures x.Arr? && IsSyntax(x) && At(t, i, Write(x))
    decreases |t| - i, 0
  {
    hide At, ParseItems, SkipSpace, WriteItems, IsItem;
    var j := SkipSpace(t, i + 1);
    SkipSpaceIs(t, i + 1);
    if CharAt(t, j, RBRACKET) {
      x := Arr(t[i + 1..j], []);
      AtOne(t, j, RBRACKET);
      AtConcat(t, i + 1, t[i + 1..j], [RBRACKET]);
      AtOneThen(t, i, LBRACKET, t[i + 1..j] + [RBRACKET]);
    } else {
      var items := ItemsFound(t, i + 1, []);
      x := Arr([], items);
      AtOneThen(t, i, LBRACKET, WriteItems(items));
    }
  }

  lemma ObjFound(t: Text, i: nat) returns (x: Syntax)
    requires CharAt(t, i, LBRACE) && ParseObject(t, i + 1).Ok?
    ensures x.Obj? && IsSyntax(x) && At(t, i, Write(x))
    decreases |t| - i, 0
  {
    hide At, ParseMembers, SkipSpace, WriteMembers, IsMember;
    var j := SkipSpace(t, i + 1);
    SkipSpaceIs(t, i + 1);
    if CharAt(t, j, RBRACE) {
      x := Obj(t[i + 1..j], []);
      AtOne(t, j, RBRACE);
      AtConcat(t, i + 1, t[i + 1..j], [RBRACE]);
      AtOneThen(t, i, LBRACE, t[i + 1..j] + [RBRACE]);
    } else {
      var members := MembersFound(t, i + 1, map[]);
      x := Obj([], members);
      AtOneThen(t, i, LBRACE, WriteMembers(members));
    }
  }

  /** Whatever is read is written so, and could not have gone on. */
  lemma ValueFound(t: Text, i: nat) returns (x: Syntax)
    requires i <= |t| && ParseValue(t, i).Ok?
    ensures IsSyntax(x) && At(t, i, Write(x)) && Complete(t, i + |Write(x)|, x)
    decreases |t| - i, 1
  {
    hide At, ParseNumber, ParseArray, ParseObject, ParseString, WriteItems, WriteMembers, Chars, MeanItems, MeanMembers, Spell,
      Ends, Meaning, IsNumber, IsItem, IsMember, WriteParts;
    if t[i] == QUOTE {
      var parts := QuotedFound(t, i);
      x := Str(parts);
    } else if t[i] == LBRACE {
      x := ObjFound(t, i);
    } else if t[i] == LBRACKET {
      x := ArrFound(t, i);
    } else if At(t, i, NULL) {
      x := Null;
    } else if At(t, i, TRUE) {
      x := True;
    } else if At(t, i, FALSE) {
      x := False;
    } else if DigitAt(t, NumberStart(t, i)) {
      var n := NumeralFound(t, i);
      x := Number(n);
    } else if At(t, i, NAN) {
      x := Nan;
    } else {
      x := Infinite(!At(t, i, INFINITY));
    }
  }

  /** The decoder reads a value at a place, to there, exactly when a text is written from there to there that
      cannot go on and means it. */
  lemma DecodesExactly(t: Text, i: nat, v: Json, e: nat)
    requires i <= |t|
    ensures ParseValue(t, i) == Ok(v, e)
       <==> exists x :: IsSyntax(x) && At(t, i, Write(x)) && e == i + |Write(x)| && Complete(t, e, x) && v == Mean(x)
  {
    hide At, ParseValue, Write, Mean, Complete, IsSyntax;
    if ParseValue(t, i) == Ok(v, e) {
      var x := ValueFound(t, i);
      ValueRead(t, i, x);
    }
    if x :| IsSyntax(x) && At(t, i, Write(x)) && e == i + |Write(x)| && Complete(t, e, x) && v == Mean(x) {
      ValueRead(t, i, x);
    }
  }
}
