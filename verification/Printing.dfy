/** What `json.dumps` prints is JSON, by the grammar: one text per value, blank space only after commas and
    colons. It is read back whole, whatever strings it holds. */
module Printing {
  import opened Texts
  import opened Json
  import opened JsonDecode
  import opened Numerals
  import opened Grammar

  // --- What prints ----------------------------------------------------------------------------------------

  /** A float as it can be printed: a number with a point or an exponent, or one of the three names. */
  ghost predicate GoodFloat(lexeme: Text) {
    lexeme == NAN || lexeme == INFINITY || lexeme == [MINUS] + INFINITY
    || exists n :: IsNumber(n) && !IsIntegral(n) && lexeme == Spell(n)
  }

  predicate NoSplitPair(s: Text) {
    forall i :: 0 <= i < |s| - 1 ==> !(IsHigh(s[i]) && IsLow(s[i + 1]))
  }

  /** The values printing can carry: integers within the digit limit, floats in a spelling
      that decodes to itself, and no string or key holding a split pair. */
  ghost predicate Printable(v: Json) {
    match v
    case JNull => true
    case JBool(_) => true
    case JInt(n) => |Digits(if n < 0 then -n else n)| <= MAX_INT_DIGITS
    case JFloat(lexeme) => GoodFloat(lexeme)
    case JString(s) => NoSplitPair(s)
    case JArray(items) => forall i :: 0 <= i < |items| ==> Printable(items[i])
    case JObject(fields) => forall k :: k in fields ==> NoSplitPair(k) && Printable(fields[k])
  }

  /** No integer in the value is too long for `json.dumps` to print. */
  predicate Dumpable(v: Json) {
    match v
    case JInt(n) => |Digits(if n < 0 then -n else n)| <= MAX_INT_DIGITS
    case JArray(items) => forall i :: 0 <= i < |items| ==> Dumpable(items[i])
    case JObject(fields) => forall k :: k in fields ==> Dumpable(fields[k])
    case _ => true
  }

  /** The floats in the value are floats. */
  ghost predicate HasFloats(v: Json) {
    match v
    case JFloat(lexeme) => GoodFloat(lexeme)
    case JArray(items) => forall i :: 0 <= i < |items| ==> HasFloats(items[i])
    case JObject(fields) => forall k :: k in fields ==> HasFloats(fields[k])
    case _ => true
  }

  /** The numeral an integer is printed as. */
  function IntNumeral(n: int): (m: Numeral) {
    Numeral(n < 0, Digits(if n < 0 then -n else n), [], None)
  }

  lemma IntNumeralIs(n: int)
    ensures IsNumber(IntNumeral(n)) && IsIntegral(IntNumeral(n))
    ensures Spell(IntNumeral(n)) == IntText(n) && Meaning(IntNumeral(n)) == JInt(n)
  {
    hide NatOf, Digits;
    NatOfDigits(if n < 0 then -n else n);
  }

  lemma SurrogatesOf(c: CodePoint)
    requires c >= 0x10000
    ensures IsHigh(HighOf(c)) && IsLow(LowOf(c)) && Paired(HighOf(c), LowOf(c)) == c
  {
  }

  // --- Strings ------------------------------------------------------------------------------------------

  /** One hexadecimal digit of a number below 0x10000. */
  function Digit(n: nat): Hex
    requires n < 16
  {
    Hex(n, false)
  }

  function UnitPart(n: nat): (p: Part)
    requires n < 0x10000
    ensures IsPart(p) && p.Unicode? && Unit(p) == n
  {
    UnitBound(n);
    Unicode(Digit(n / 16 / 16 / 16), Digit(n / 16 / 16 % 16), Digit(n / 16 % 16), Digit(n % 16))
  }

  lemma UnitBound(n: nat)
    requires n < 0x10000
    ensures n / 16 / 16 / 16 < 16
    ensures ((n / 16 / 16 / 16 * 16 + n / 16 / 16 % 16) * 16 + n / 16 % 16) * 16 + n % 16 == n
  {
    var a := n / 16;
    var b := a / 16;
    var c := b / 16;
    assert b == c * 16 + b % 16 && a == b * 16 + a % 16 && n == a * 16 + n % 16;
  }

  function ShortIndex(c: CodePoint): (k: nat)
    requires ShortEscape(c) != 0
    ensures k < 8 && ESCAPED[k] == c && ESCAPE_LETTERS[k] == ShortEscape(c)
  {
    if c == QUOTE then 0 else if c == BACKSLASH then 1 else if c == 0x08 then 3 else if c == 0x0C then 4
    else if c == 0x0A then 5 else if c == 0x0D then 6 else 7
  }

  function CharParts(c: CodePoint): (parts: seq<Part>)
    ensures AreParts(parts) && 1 <= |parts| <= 2
  {
    if ShortEscape(c) != 0 then [Short(ShortIndex(c))]
    else if 0x20 <= c <= 0x7E then [Raw(c)]
    else if c < 0x10000 then [UnitPart(c)]
    else [UnitPart(HighOf(c)), UnitPart(LowOf(c))]
  }

  function StringParts(s: Text): (parts: seq<Part>)
    ensures AreParts(parts)
  {
    if s == [] then [] else CharParts(s[0]) + StringParts(s[1..])
  }

  /** Printable ASCII stands as it is but for the quote and the backslash; those and the five named control
      characters have a short escape; everything else is escaped by its code units, in lower case. What is
      written for a character stands for it. */
  lemma CharPartsAre(c: CodePoint)
    ensures var named := [QUOTE, BACKSLASH, 0x08, 0x09, 0x0A, 0x0C, 0x0D]; var parts := CharParts(c);
            && (parts == [Raw(c)] <==> 0x20 <= c <= 0x7E && c !in named)
            && (|parts| == 1 && parts[0].Short? <==> c in named)
            && (|parts| == 2 <==> c > 0xFFFF)
            && (forall p :: p in parts && p.Unicode? ==> IsLowerCase(p))
            && Chars(parts) == [c]
  {
    hide Chars, Unit, IsPart;
    StandsFor(c);
    hide HighOf, LowOf;
    ShortNamed(c);
  }

  predicate IsLowerCase(p: Part)
    requires p.Unicode?
  {
    !p.h1.upper && !p.h2.upper && !p.h3.upper && !p.h4.upper
  }

  lemma ShortNamed(c: CodePoint)
    ensures ShortEscape(c) != 0 <==> c in [QUOTE, BACKSLASH, 0x08, 0x09, 0x0A, 0x0C, 0x0D]
  {
  }

  lemma StandsFor(c: CodePoint)
    ensures Chars(CharParts(c)) == [c]
  {
    hide Unit, IsPart;
    var parts := CharParts(c);
    if c > 0xFFFF {
      SurrogatesOf(c);
      assert parts[2..] == [];
      hide ShortEscape, HighOf, LowOf, UnitPart;
      TwoChars(parts);
    } else {
      assert parts[1..] == [];
      OneChar(parts);
    }
  }

  lemma OneChar(parts: seq<Part>)
    requires AreParts(parts) && |parts| == 1
    ensures Chars(parts) == [CharOf(parts[0])]
  {
    assert parts[1..] == [];
  }

  lemma TwoChars(parts: seq<Part>)
    requires AreParts(parts) && |parts| == 2 && IsUnit(parts[0], false) && IsUnit(parts[1], true)
    ensures Chars(parts) == [Paired(Unit(parts[0]), Unit(parts[1]))]
  {
    assert parts[2..] == [];
  }

  lemma DigitLetter(n: nat)
    requires n < 16
    ensures HexLetter(Digit(n)) == HexDigit(n)
  {
  }

  lemma UnitWritten(n: nat)
    requires n < 0x10000
    ensures WritePart(UnitPart(n)) == UnicodeEscape(n)
  {
    UnitBound(n);
    FourDigits(n);
    DigitLetter(n / 16 / 16 / 16);
    DigitLetter(n / 16 / 16 % 16);
    DigitLetter(n / 16 % 16);
    DigitLetter(n % 16);
    hide HexLetter, HexDigit, HexText;
  }

  lemma FourDigits(n: nat)
    requires n / 16 / 16 / 16 < 16
    ensures HexText(n, 4)
         == [HexDigit(n / 16 / 16 / 16), HexDigit(n / 16 / 16 % 16), HexDigit(n / 16 % 16), HexDigit(n % 16)]
  {
    hide HexDigit;
    var a := n / 16;
    var b := a / 16;
    var c := b / 16;
    assert HexText(c, 1) == HexText(c / 16, 0) + [HexDigit(c % 16)] == [HexDigit(c)];
    assert HexText(b, 2) == HexText(c, 1) + [HexDigit(b % 16)];
    assert HexText(a, 3) == HexText(b, 2) + [HexDigit(a % 16)];
    assert HexText(n, 4) == HexText(a, 3) + [HexDigit(n % 16)];
  }

  lemma CharWritten(c: CodePoint)
    ensures WriteParts(CharParts(c)) == EncodeChar(c)
  {
    hide WritePart, UnicodeEscape, UnitPart;
    OneOrTwo(CharParts(c));
    if ShortEscape(c) != 0 || 0x20 <= c <= 0x7E {
      ShortOrRaw(CharParts(c)[0]);
    } else if c < 0x10000 {
      UnitWritten(c);
    } else {
      UnitWritten(HighOf(c));
      UnitWritten(LowOf(c));
    }
  }

  lemma ShortOrRaw(p: Part)
    requires IsPart(p) && !p.Unicode?
    ensures WritePart(p) == match p case Short(k) => [BACKSLASH, ESCAPE_LETTERS[k]] case Raw(c) => [c]
  {
  }

  /** A string is printed as its parts. */
  lemma {:induction false} StringWritten(s: Text)
    ensures WriteParts(StringParts(s)) == EncodeChars(s)
  {
    hide CharParts, EncodeChar, WriteParts;
    if s == [] {
      assert StringParts(s) == [];
      NoPartsWritten();
    } else {
      StringWritten(s[1..]);
      CharWritten(s[0]);
      WriteConcat(CharParts(s[0]), StringParts(s[1..]));
    }
  }

  lemma NoPartsWritten()
    ensures WriteParts([]) == []
  {
  }

  // --- Values -------------------------------------------------------------------------------------------

  /** The blank space before an item or a member: none before the first, one space after a comma. */
  function Lead(k: nat): Text {
    if k == 0 then [] else [SPACE]
  }

  /** How a value is laid out: its names and numbers as they are spelled, one space after each comma and
      each colon and no other blank space, and the members in the order of their keys. */
  ghost predicate Laid(x: Syntax, v: Json)
    decreases x
  {
    match x
    case Null => v == JNull
    case True => v == JBool(true)
    case False => v == JBool(false)
    case Nan => v == JFloat(NAN)
    case Infinite(minus) => v == JFloat(if minus then [MINUS] + INFINITY else INFINITY)
    case Number(n) => (v == JFloat(Spell(n)) && !IsIntegral(n)) || (v.JInt? && n == IntNumeral(v.n))
    case Str(parts) => v.JString? && parts == StringParts(v.s)
    case Arr(pad, items) => v.JArray? && pad == [] && |items| == |v.items|
      && forall k :: 0 <= k < |items| ==> items[k].lead == Lead(k) && items[k].after == [] && Laid(items[k].value, v.items[k])
    case Obj(pad, members) =>
      v.JObject? && pad == []
      && exists keys :: StrictlySorted(keys) && |keys| == |members| && (forall key :: key in v.fields <==> key in keys)
                        && forall k :: 0 <= k < |members| ==> MemberLaid(members[k], v, keys, k)
  }

  ghost predicate MemberLaid(m: Member, v: Json, keys: seq<Text>, k: nat)
    requires v.JObject?
    decreases m
  {
    k < |keys| && keys[k] in v.fields && m.key == StringParts(keys[k]) && Laid(m.value, v.fields[keys[k]])
    && m.lead == Lead(k) && m.before == [] && m.gap == [SPACE] && m.after == []
  }

  /** What is printed is JSON, laid out so. */
  lemma Written(v: Json) returns (x: Syntax)
    requires Dumpable(v) && HasFloats(v)
    ensures IsSyntax(x) && Write(x) == Encode(v) && Laid(x, v)
    decreases v, 1, 0
  {
    match v
    case JArray(_) => x := ArrayWritten(v);
    case JObject(_) => x := ObjectWritten(v);
    case _ => x := ScalarWritten(v);
  }

  lemma ScalarWritten(v: Json) returns (x: Syntax)
    requires Dumpable(v) && HasFloats(v) && !v.JArray? && !v.JObject?
    ensures IsSyntax(x) && Write(x) == Encode(v) && Laid(x, v)
  {
    hide StringParts, GoodFloat, IsMember, IsItem, SortedKeys, AreParts, StrictlySorted, IsNumber, IsIntegral, Spell, Digits,
      IntText, Quoted, EncodeString;
    match v
    case JNull => x := Null;
    case JBool(b) => x := if b then True else False;
    case JInt(n) =>
      x := Number(IntNumeral(n));
      IntNumeralIs(n);
    case JFloat(lexeme) => x := FloatWritten(lexeme);
    case JString(s) =>
      x := Str(StringParts(s));
      KeyWritten(s);
  }

  lemma ArrayWritten(v: Json) returns (x: Syntax)
    requires Dumpable(v) && HasFloats(v) && v.JArray?
    ensures IsSyntax(x) && Write(x) == Encode(v) && Laid(x, v)
    decreases v, 0, |v.items| + 1
  {
    hide EncodeItems, WriteItems, IsItem, Laid, Dumpable, HasFloats;
    if v.items == [] {
      x := Arr([], []);
      EmptyPrinted(v, []);
      ArrayLaid(v, []);
    } else {
      var ys := ItemsWritten(v, 0);
      x := Arr([], ys);
      ArrayLaid(v, ys);
    }
  }

  lemma ObjectWritten(v: Json) returns (x: Syntax)
    requires Dumpable(v) && HasFloats(v) && v.JObject?
    ensures IsSyntax(x) && Write(x) == Encode(v) && Laid(x, v)
    decreases v, 0, |SortedKeys(v.fields.Keys)| + 1
  {
    hide EncodeMembers, WriteMembers, IsMember, SortedKeys, StrictlySorted, Laid, Dumpable, HasFloats, MemberLaid;
    var keys := SortedKeys(v.fields.Keys);
    if keys == [] {
      x := Obj([], []);
      EmptyPrinted(v, keys);
      ObjectLaid(v, []);
    } else {
      var ys := MembersWritten(v, keys, 0);
      x := Obj([], ys);
      ObjectLaid(v, ys);
    }
  }

  lemma ArrayLaid(v: Json, items: seq<Item>)
    requires v.JArray? && |items| == |v.items|
    requires forall j :: 0 <= j < |items|
               ==> items[j].lead == Lead(j) && items[j].after == [] && Laid(items[j].value, v.items[j])
    ensures Laid(Arr([], items), v)
  {
  }

  lemma ObjectLaid(v: Json, members: seq<Member>)
    requires v.JObject? && |members| == |SortedKeys(v.fields.Keys)|
    requires forall k :: 0 <= k < |members| ==> MemberLaid(members[k], v, SortedKeys(v.fields.Keys), k)
    ensures Laid(Obj([], members), v)
  {
    hide StrictlySorted, MemberLaid;
  }

  lemma EmptyPrinted(v: Json, keys: seq<Text>)
    requires keys == []
    ensures v.JArray? && v.items == [] ==> EncodeItems(v, 0) == [RBRACKET]
    ensures v.JObject? ==> EncodeMembers(v, keys, 0) == [RBRACE]
  {
  }

  lemma FloatWritten(lexeme: Text) returns (x: Syntax)
    requires GoodFloat(lexeme)
    ensures IsSyntax(x) && Write(x) == lexeme && Laid(x, JFloat(lexeme))
  {
    hide IsNumber, IsIntegral, Spell;
    if lexeme == NAN {
      x := Nan;
    } else if lexeme == INFINITY {
      x := Infinite(false);
    } else if lexeme == [MINUS] + INFINITY {
      x := Infinite(true);
    } else {
      var n :| IsNumber(n) && !IsIntegral(n) && lexeme == Spell(n);
      x := Number(n);
    }
  }

  lemma ItemsWritten(v: Json, k: nat) returns (items: seq<Item>)
    requires v.JArray? && Dumpable(v) && HasFloats(v) && k < |v.items|
    ensures items != [] && AreItems(items) && WriteItems(items) == Lead(k) + EncodeItems(v, k) && |items| == |v.items| - k
    ensures forall j :: 0 <= j < |items|
              ==> items[j].lead == Lead(k + j) && items[j].after == [] && Laid(items[j].value, v.items[k + j])
    decreases v, 0, |v.items| - k
  {
    hide Encode, Write, WriteItems, EncodeItems, Dumpable, HasFloats, IsSyntax, Laid, IsItem;
    ItemFit(v, k);
    var x := Written(v.items[k]);
    var rest: seq<Item> := [];
    if k + 1 < |v.items| { rest := ItemsWritten(v, k + 1); }
    items := ItemJoined(v, k, x, rest);
    forall j | 0 <= j < |items|
      ensures items[j].lead == Lead(k + j) && items[j].after == [] && Laid(items[j].value, v.items[k + j])
    {
      if j > 0 { assert items[j] == rest[j - 1]; }
    }
  }

  lemma ItemJoined(v: Json, k: nat, x: Syntax, rest: seq<Item>) returns (items: seq<Item>)
    requires v.JArray? && k < |v.items| && IsSyntax(x) && Write(x) == Encode(v.items[k]) && AreItems(rest)
    requires if k + 1 == |v.items| then rest == [] else rest != [] && WriteItems(rest) == [SPACE] + EncodeItems(v, k + 1)
    ensures items == [Item(Lead(k), x, [])] + rest
    ensures AreItems(items) && WriteItems(items) == Lead(k) + EncodeItems(v, k)
  {
    hide Encode, Write, WriteItems, EncodeItems, IsSyntax;
    items := [Item(Lead(k), x, [])] + rest;
    assert items[1..] == rest;
    WriteItemsIs(items);
    ItemsPrinted(v, k);
    if rest != [] { assert ItemTail(items) == SEPARATOR + EncodeItems(v, k + 1); }
    assert [] + ItemTail(items) == ItemTail(items);
  }

  lemma ItemFit(v: Json, k: nat)
    requires v.JArray? && Dumpable(v) && HasFloats(v) && k < |v.items|
    ensures Dumpable(v.items[k]) && HasFloats(v.items[k])
  {
  }

  lemma ItemsPrinted(v: Json, k: nat)
    requires v.JArray? && k < |v.items|
    ensures EncodeItems(v, k) == Encode(v.items[k]) + if k + 1 == |v.items| then [RBRACKET] else SEPARATOR + EncodeItems(v, k + 1)
  {
    hide Encode;
  }

  lemma MembersWritten(v: Json, keys: seq<Text>, n: nat) returns (members: seq<Member>)
    requires v.JObject? && Dumpable(v) && HasFloats(v) && n < |keys| && forall k :: k in keys ==> k in v.fields
    ensures members != [] && AreMembers(members) && WriteMembers(members) == Lead(n) + EncodeMembers(v, keys, n)
    ensures |members| == |keys| - n && forall j :: 0 <= j < |members| ==> MemberLaid(members[j], v, keys, n + j)
    decreases v, 0, |keys| - n
  {
    hide Encode, Write, WriteMembers, EncodeMembers, Dumpable, HasFloats, IsSyntax, StringParts, EncodeString, Quoted, AreParts,
      AreMembers, Laid;
    MemberFit(v, keys[n]);
    var x := Written(v.fields[keys[n]]);
    var rest: seq<Member> := [];
    if n + 1 < |keys| {
      rest := MembersWritten(v, keys, n + 1);
    } else {
      NoneWrong();
    }
    members := MemberJoined(v, keys, n, x, rest);
    forall j | 0 <= j < |members| ensures MemberLaid(members[j], v, keys, n + j) {
      if j > 0 { assert members[j] == rest[j - 1]; }
    }
  }

  lemma MemberJoined(v: Json, keys: seq<Text>, n: nat, x: Syntax, rest: seq<Member>) returns (members: seq<Member>)
    requires v.JObject? && n < |keys| && forall k :: k in keys ==> k in v.fields
    requires IsSyntax(x) && Write(x) == Encode(v.fields[keys[n]]) && AreMembers(rest)
    requires if n + 1 == |keys| then rest == [] else rest != [] && WriteMembers(rest) == [SPACE] + EncodeMembers(v, keys, n + 1)
    ensures members == [Member(Lead(n), StringParts(keys[n]), [], [SPACE], x, [])] + rest
    ensures AreMembers(members) && WriteMembers(members) == Lead(n) + EncodeMembers(v, keys, n)
  {
    hide Encode, Write, WriteMembers, EncodeMembers, StringParts, EncodeString, Quoted, AreParts, IsSyntax, MemberTail;
    var m := Member(Lead(n), StringParts(keys[n]), [], [SPACE], x, []);
    members := [m] + rest;
    assert members[1..] == rest;
    WriteMembersIs(members);
    MembersPrinted(v, keys, n);
    KeyWritten(keys[n]);
    var tail := MemberTail(members);
    TailIs(members, rest, if rest == [] then [] else EncodeMembers(v, keys, n + 1));
    Spaced(EncodeString(keys[n]), Encode(v.fields[keys[n]]), tail);
  }

  lemma TailIs(members: seq<Member>, rest: seq<Member>, printed: Text)
    requires members != [] && members[1..] == rest && AreMembers(members)
    requires rest != [] ==> WriteMembers(rest) == [SPACE] + printed
    ensures MemberTail(members) == if rest == [] then [RBRACE] else SEPARATOR + printed
  {
    hide WriteMembers;
    if rest != [] { assert [COMMA] + ([SPACE] + printed) == SEPARATOR + printed; }
  }

  lemma Spaced(key: Text, value: Text, tail: Text)
    ensures key + ([] + ([COLON] + ([SPACE] + (value + ([] + tail))))) == (key + (KEY_SEPARATOR + value)) + tail
  {
  }

  lemma KeyWritten(key: Text)
    ensures Quoted(StringParts(key)) == EncodeString(key)
  {
    hide WriteParts, EncodeChars, StringParts;
    StringWritten(key);
  }

  lemma MemberFit(v: Json, key: Text)
    requires v.JObject? && Dumpable(v) && HasFloats(v) && key in v.fields
    ensures Dumpable(v.fields[key]) && HasFloats(v.fields[key])
  {
  }

  lemma MembersPrinted(v: Json, keys: seq<Text>, n: nat)
    requires v.JObject? && n < |keys| && forall k :: k in keys ==> k in v.fields
    ensures EncodeMembers(v, keys, n) == (EncodeString(keys[n]) + (KEY_SEPARATOR + Encode(v.fields[keys[n]])))
              + if n + 1 == |keys| then [RBRACE] else SEPARATOR + EncodeMembers(v, keys, n + 1)
  {
    hide Encode, EncodeString;
  }

  // --- Read back -----------------------------------------------------------------------------------------

  /** Wherever an object is printed an object is read, to its last character: the one its text alone reads
      as, which is the object printed when no string in it holds a split pair. */
  lemma PrintedRead(t: Text, i: nat, v: Json) returns (w: Json)
    requires v.JObject? && Dumpable(v) && HasFloats(v) && At(t, i, Encode(v))
    ensures i <= |t| && w.JObject? && ParseValue(t, i) == Ok(w, i + |Encode(v)|)
    ensures ParseValue(Encode(v), 0) == Ok(w, |Encode(v)|)
  {
    hide At, ParseValue, Encode, Printable, Dumpable, HasFloats, MeanMembers, IsSyntax, Laid, Write;
    var x := Written(v);
    LaidObject(x, v);
    w := Mean(x);
    Grammar.ValueRead(t, i, x);
    AtSlice(Encode(v), 0, Encode(v));
    Grammar.ValueRead(Encode(v), 0, x);
  }

  lemma LaidObject(x: Syntax, v: Json)
    requires Laid(x, v) && v.JObject?
    ensures x.Obj?
  {
  }

  // --- Plain text ----------------------------------------------------------------------------------------

  /** Printable ASCII only: no line break, no control character, nothing beyond "~". */
  predicate IsPlainText(t: Text) {
    forall k :: 0 <= k < |t| ==> 0x20 <= t[k] <= 0x7E
  }

  lemma PlainJoin(a: Text, b: Text)
    ensures IsPlainText(a + b) <==> IsPlainText(a) && IsPlainText(b)
  {
    var t := a + b;
    if IsPlainText(t) {
      forall k | 0 <= k < |a| ensures 0x20 <= a[k] <= 0x7E { assert t[k] == a[k]; }
      forall k | 0 <= k < |b| ensures 0x20 <= b[k] <= 0x7E { assert t[|a| + k] == b[k]; }
    }
  }

  lemma {:induction false} HexPlain(n: nat, k: nat)
    ensures IsPlainText(HexText(n, k))
  {
    if k > 0 { HexPlain(n / 16, k - 1); }
  }

  lemma CharPlain(c: CodePoint)
    ensures IsPlainText(EncodeChar(c))
  {
    if ShortEscape(c) == 0 && !(0x20 <= c <= 0x7E) {
      hide HexText;
      if c < 0x10000 {
        HexPlain(c, 4);
      } else {
        HexPlain(HighOf(c), 4);
        HexPlain(LowOf(c), 4);
      }
    }
  }

  lemma {:induction false} StringPlain(s: Text)
    ensures IsPlainText(EncodeChars(s))
  {
    hide EncodeChar, IsPlainText;
    if s == [] {
      assert IsPlainText([]) by { EmptyPlain(); }
    } else {
      CharPlain(s[0]);
      StringPlain(s[1..]);
      PlainJoin(EncodeChar(s[0]), EncodeChars(s[1..]));
    }
  }

  lemma EmptyPlain()
    ensures IsPlainText([])
  {
  }

  lemma QuotedPlain(s: Text)
    ensures IsPlainText(EncodeString(s))
  {
    hide EncodeChars;
    StringPlain(s);
  }

  lemma DigitsPlain(d: Text)
    requires AllDigits(d)
    ensures IsPlainText(d)
  {
  }

  lemma FloatPlain(lexeme: Text)
    requires GoodFloat(lexeme)
    ensures IsPlainText(lexeme)
  {
    hide IsIntegral;
    if n :| IsNumber(n) && !IsIntegral(n) && lexeme == Spell(n) {
      hide IsPlainText, AllDigits;
      DigitsPlain(n.whole);
      DigitsPlain(n.fraction);
      SignPlain(n);
      FractionPlain(n);
      ExponentPlain(n);
      PlainJoin(SignText(n), n.whole);
      PlainJoin(SignText(n) + n.whole, FractionText(n));
      PlainJoin(SignText(n) + n.whole + FractionText(n), ExponentText(n));
    }
  }

  lemma SignPlain(n: Numeral)
    ensures IsPlainText(SignText(n))
  {
  }

  lemma FractionPlain(n: Numeral)
    requires IsPlainText(n.fraction)
    ensures IsPlainText(FractionText(n))
  {
  }

  lemma ExponentPlain(n: Numeral)
    requires IsNumber(n)
    ensures IsPlainText(ExponentText(n))
  {
  }

  /** Whatever the value, it is printed on one line and in ASCII. */
  lemma {:induction false} EncodePlain(v: Json)
    requires HasFloats(v)
    ensures IsPlainText(Encode(v))
    decreases v, 1, 0
  {
    hide IsPlainText, EncodeItems, EncodeMembers, EncodeString, IntText;
    match v
    case JInt(n) => IntPlain(n);
    case JFloat(lexeme) => FloatPlain(lexeme);
    case JString(s) => QuotedPlain(s);
    case JArray(_) =>
      ItemsPlain(v, 0);
      OnePlain(LBRACKET);
      PlainJoin([LBRACKET], EncodeItems(v, 0));
    case JObject(fields) =>
      MembersPlain(v, SortedKeys(fields.Keys), 0);
      OnePlain(LBRACE);
      PlainJoin([LBRACE], EncodeMembers(v, SortedKeys(fields.Keys), 0));
    case _ => NamePlain(v);
  }

  lemma OnePlain(c: CodePoint)
    requires 0x20 <= c <= 0x7E
    ensures IsPlainText([c])
  {
  }

  lemma NamePlain(v: Json)
    requires v.JNull? || v.JBool?
    ensures IsPlainText(Encode(v))
  {
  }

  lemma IntPlain(n: int)
    ensures IsPlainText(IntText(n))
  {
    hide Digits;
    DigitsPlain(Digits(if n < 0 then -n else n));
  }

  lemma SeparatorsPlain()
    ensures IsPlainText(SEPARATOR) && IsPlainText(KEY_SEPARATOR)
  {
  }

  lemma {:induction false} ItemsPlain(v: Json, k: nat)
    requires v.JArray? && HasFloats(v) && k <= |v.items|
    ensures IsPlainText(EncodeItems(v, k))
    decreases v, 0, |v.items| - k
  {
    hide IsPlainText, Encode, EncodeItems;
    OnePlain(RBRACKET);
    if k == |v.items| {
      NothingPrinted(v, []);
    } else {
      ItemsPrinted(v, k);
      EncodePlain(v.items[k]);
      SeparatorsPlain();
      if k + 1 == |v.items| {
        PlainJoin(Encode(v.items[k]), [RBRACKET]);
      } else {
        ItemsPlain(v, k + 1);
        PlainJoin(SEPARATOR, EncodeItems(v, k + 1));
        PlainJoin(Encode(v.items[k]), SEPARATOR + EncodeItems(v, k + 1));
      }
    }
  }

  lemma NothingPrinted(v: Json, keys: seq<Text>)
    ensures v.JArray? ==> EncodeItems(v, |v.items|) == [RBRACKET]
    ensures v.JObject? && (forall k :: k in keys ==> k in v.fields) ==> EncodeMembers(v, keys, |keys|) == [RBRACE]
  {
  }

  lemma {:induction false} MembersPlain(v: Json, keys: seq<Text>, n: nat)
    requires v.JObject? && HasFloats(v) && n <= |keys| && forall k :: k in keys ==> k in v.fields
    ensures IsPlainText(EncodeMembers(v, keys, n))
    decreases v, 0, |keys| - n
  {
    hide IsPlainText, Encode, EncodeMembers, EncodeString;
    OnePlain(RBRACE);
    if n == |keys| {
      NothingPrinted(v, keys);
    } else {
      var key, value := EncodeString(keys[n]), Encode(v.fields[keys[n]]);
      MembersPrinted(v, keys, n);
      EncodePlain(v.fields[keys[n]]);
      QuotedPlain(keys[n]);
      SeparatorsPlain();
      PlainJoin(KEY_SEPARATOR, value);
      PlainJoin(key, KEY_SEPARATOR + value);
      if n + 1 == |keys| {
        PlainJoin(key + (KEY_SEPARATOR + value), [RBRACE]);
      } else {
        MembersPlain(v, keys, n + 1);
        PlainJoin(SEPARATOR, EncodeMembers(v, keys, n + 1));
        PlainJoin(key + (KEY_SEPARATOR + value), SEPARATOR + EncodeMembers(v, keys, n + 1));
      }
    }
  }
}
