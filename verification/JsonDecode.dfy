/** `json.JSONDecoder().raw_decode(text, index)`: a strict decoder for one value that
    starts exactly at `index` and may be followed by anything. Python's whitespace,
    its three non-finite literals and its cap on the digits of an integer are kept. */
module JsonDecode {
  import opened Texts
  import opened Json

  /** `end` is the index of the first character after the value. */
  datatype Parsed<+T> = Fail | Ok(value: T, end: nat)

  /** The longest integer literal `int()` accepts. */
  const MAX_INT_DIGITS: nat := 4300

  const INFINITY: Text := Ascii("Infinity")
  const NAN: Text := Ascii("NaN")
  const NULL: Text := Ascii("null")
  const TRUE: Text := Ascii("true")
  const FALSE: Text := Ascii("false")

  predicate CharAt(t: Text, i: nat, c: CodePoint) {
    i < |t| && t[i] == c
  }

  predicate DigitAt(t: Text, i: nat) {
    i < |t| && IsDigit(t[i])
  }

  predicate IsJsonSpace(c: int) {
    c == 0x20 || c == 0x09 || c == 0x0A || c == 0x0D
  }

  function SkipSpace(t: Text, i: nat): (j: nat)
    requires i <= |t|
    ensures i <= j <= |t|
    decreases |t| - i
  {
    if i < |t| && IsJsonSpace(t[i]) then SkipSpace(t, i + 1) else i
  }

  // --- Numbers --------------------------------------------------------------------------

  function DigitsEnd(t: Text, i: nat): (j: nat)
    requires i <= |t|
    ensures i <= j <= |t|
    ensures DigitAt(t, i) ==> i < j
    decreases |t| - i
  {
    if DigitAt(t, i) then DigitsEnd(t, i + 1) else i
  }

  /** Where the digits of a number start: after its sign. */
  function NumberStart(t: Text, i: nat): (j: nat)
    requires i <= |t|
    ensures i <= j <= |t|
  {
    if CharAt(t, i, MINUS) then i + 1 else i
  }

  /** End of `0` or a non-zero digit followed by digits. */
  function IntEnd(t: Text, k: nat): (j: nat)
    requires DigitAt(t, k)
    ensures k < j <= |t|
  {
    if t[k] == ZERO then k + 1 else DigitsEnd(t, k)
  }

  function FractionEnd(t: Text, j: nat): (f: nat)
    requires j <= |t|
    ensures j <= f <= |t|
  {
    if CharAt(t, j, DOT) && DigitAt(t, j + 1) then DigitsEnd(t, j + 1) else j
  }

  function ExponentEnd(t: Text, f: nat): (e: nat)
    requires f <= |t|
    ensures f <= e <= |t|
  {
    if CharAt(t, f, 0x65) || CharAt(t, f, 0x45) then
      var k := if CharAt(t, f + 1, PLUS) || CharAt(t, f + 1, MINUS) then f + 2 else f + 1;
      if DigitAt(t, k) then DigitsEnd(t, k) else f
    else f
  }

  /** The number from `i` to `e` whose integer part is the digits from `k` to `j`. */
  function NumberAt(t: Text, i: nat, k: nat, j: nat, e: nat): (r: Parsed<Json>)
    requires i <= k < j <= e <= |t|
    ensures r.Ok? ==> r.end == e
  {
    if e != j then Ok(JFloat(t[i..e]), e)
    else if j - k > MAX_INT_DIGITS then Fail
    else Ok(JInt(if k == i then NatOf(t[k..j]) else -NatOf(t[k..j])), e)
  }

  function ParseNumber(t: Text, i: nat): (r: Parsed<Json>)
    requires i <= |t|
    ensures r.Ok? ==> i < r.end <= |t|
  {
    var k := NumberStart(t, i);
    if !DigitAt(t, k) then Fail
    else
      var j := IntEnd(t, k);
      NumberAt(t, i, k, j, ExponentEnd(t, FractionEnd(t, j)))
  }

  // --- Strings --------------------------------------------------------------------------

  function HexValue(c: int): (v: int)
    ensures v < 16
  {
    if 0x30 <= c <= 0x39 then c - 0x30
    else if 0x61 <= c <= 0x66 then c - 0x61 + 10
    else if 0x41 <= c <= 0x46 then c - 0x41 + 10
    else -1
  }

  /** The value of the `k` hexadecimal digits at `i`, if they are there. */
  function ParseHex(t: Text, i: nat, k: nat): (r: Option<nat>)
    ensures r.Some? ==> i + k <= |t| || k == 0
    decreases k
  {
    if k == 0 then Some(0)
    else if i + k > |t| || HexValue(t[i + k - 1]) < 0 then None
    else
      match ParseHex(t, i, k - 1)
      case None => None
      case Some(n) => Some(n * 16 + HexValue(t[i + k - 1]))
  }

  /** The code unit of the four hexadecimal digits at `i`. */
  function Hex4(t: Text, i: nat): (r: Option<CodePoint>)
    ensures r.Some? ==> i + 4 <= |t| && r.value < 0x10000
  {
    HexBound(t, i, 4);
    ParseHex(t, i, 4)
  }

  function SixteenTo(k: nat): nat {
    if k == 0 then 1 else 16 * SixteenTo(k - 1)
  }

  lemma {:induction false} HexBound(t: Text, i: nat, k: nat)
    ensures ParseHex(t, i, k).Some? ==> ParseHex(t, i, k).value < SixteenTo(k)
    ensures SixteenTo(4) == 0x10000
  {
    if k > 0 { HexBound(t, i, k - 1); }
  }

  /** The low surrogate escaped at `i`, if there is one. */
  function LowAt(t: Text, i: nat): (r: Option<CodePoint>)
    ensures r.Some? ==> i + 6 <= |t| && IsLow(r.value)
  {
    if CharAt(t, i, BACKSLASH) && CharAt(t, i + 1, 0x75) && Hex4(t, i + 2).Some? && IsLow(Hex4(t, i + 2).value)
    then Hex4(t, i + 2) else None
  }

  /** The character a short escape letter stands for, if it is one. */
  function Unescape(letter: CodePoint): Option<CodePoint> {
    if letter == QUOTE || letter == BACKSLASH || letter == SLASH then Some(letter)
    else if letter == 0x62 then Some(0x08)
    else if letter == 0x66 then Some(0x0C)
    else if letter == 0x6E then Some(0x0A)
    else if letter == 0x72 then Some(0x0D)
    else if letter == 0x74 then Some(0x09)
    else None
  }

  /** The escape whose backslash is just before `i`. */
  function ParseEscape(t: Text, i: nat): (r: Parsed<CodePoint>)
    requires i <= |t|
    ensures r.Ok? ==> i < r.end <= |t|
  {
    if i == |t| then Fail
    else if t[i] != 0x75 then
      match Unescape(t[i]) case None => Fail case Some(c) => Ok(c, i + 1)
    else
      match Hex4(t, i + 1)
      case None => Fail
      case Some(n) =>
        if IsHigh(n) && LowAt(t, i + 5).Some? then Ok(Paired(n, LowAt(t, i + 5).value), i + 11)
        else Ok(n, i + 5)
  }

  /** The rest of a string whose opening quote is somewhere before `i`. */
  function ParseString(t: Text, i: nat): (r: Parsed<Text>)
    requires i <= |t|
    ensures r.Ok? ==> i < r.end <= |t|
    decreases |t| - i
  {
    if i == |t| then Fail
    else if t[i] == QUOTE then Ok([], i + 1)
    else if t[i] == BACKSLASH then
      match ParseEscape(t, i + 1)
      case Fail => Fail
      case Ok(c, j) => (match ParseString(t, j) case Fail => Fail case Ok(s, end) => Ok([c] + s, end))
    else if t[i] < 0x20 then Fail
    else (match ParseString(t, i + 1) case Fail => Fail case Ok(s, end) => Ok([t[i]] + s, end))
  }

  // --- Values -----------------------------------------------------------------------------

  /** One value starting exactly at `i`. */
  function ParseValue(t: Text, i: nat): (r: Parsed<Json>)
    requires i <= |t|
    ensures r.Ok? ==> i < r.end <= |t|
    decreases |t| - i, 0
  {
    if i == |t| then Fail
    else if t[i] == QUOTE then
      match ParseString(t, i + 1) case Fail => Fail case Ok(s, end) => Ok(JString(s), end)
    else if t[i] == LBRACE then ParseObject(t, i + 1)
    else if t[i] == LBRACKET then ParseArray(t, i + 1)
    else if At(t, i, NULL) then Ok(JNull, i + 4)
    else if At(t, i, TRUE) then Ok(JBool(true), i + 4)
    else if At(t, i, FALSE) then Ok(JBool(false), i + 5)
    else if DigitAt(t, NumberStart(t, i)) then ParseNumber(t, i)
    else if At(t, i, NAN) then Ok(JFloat(NAN), i + 3)
    else if At(t, i, INFINITY) then Ok(JFloat(INFINITY), i + 8)
    else if At(t, i, [MINUS] + INFINITY) then Ok(JFloat([MINUS] + INFINITY), i + 9)
    else Fail
  }

  /** The rest of an object whose opening brace is at `i - 1`. */
  function ParseObject(t: Text, i: nat): (r: Parsed<Json>)
    requires i <= |t|
    ensures r.Ok? ==> i < r.end <= |t| && r.value.JObject?
    decreases |t| - i, 3
  {
    var j := SkipSpace(t, i);
    if CharAt(t, j, RBRACE) then Ok(JObject(map[]), j + 1)
    else if CharAt(t, j, QUOTE) then ParseMembers(t, j + 1, map[])
    else Fail
  }

  /** One `"key": value` whose opening quote is at `i - 1`. */
  function ParseMember(t: Text, i: nat): (r: Parsed<(Text, Json)>)
    requires i <= |t|
    ensures r.Ok? ==> i < r.end <= |t|
    decreases |t| - i, 1
  {
    match ParseString(t, i)
    case Fail => Fail
    case Ok(key, keyEnd) =>
      var colon := SkipSpace(t, keyEnd);
      if !CharAt(t, colon, COLON) then Fail
      else
        match ParseValue(t, SkipSpace(t, colon + 1))
        case Fail => Fail
        case Ok(value, valueEnd) => Ok((key, value), valueEnd)
  }

  /** What follows a member: the closing brace, or a comma and the next key's quote. */
  datatype Follow = Closed(end: nat) | Another(key: nat) | Malformed

  function AfterMember(t: Text, i: nat): (f: Follow)
    requires i <= |t|
    ensures f.Closed? ==> i < f.end <= |t|
    ensures f.Another? ==> i < f.key <= |t|
  {
    var next := SkipSpace(t, i);
    if CharAt(t, next, RBRACE) then Closed(next + 1)
    else if CharAt(t, next, COMMA) && CharAt(t, SkipSpace(t, next + 1), QUOTE) then Another(SkipSpace(t, next + 1) + 1)
    else Malformed
  }

  /** The members from the key whose opening quote is at `i - 1`, added to those before.
      A repeated key takes the later value. */
  function ParseMembers(t: Text, i: nat, before: map<Text, Json>): (r: Parsed<Json>)
    requires i <= |t|
    ensures r.Ok? ==> i < r.end <= |t| && r.value.JObject?
    decreases |t| - i, 2
  {
    match ParseMember(t, i)
    case Fail => Fail
    case Ok(member, memberEnd) =>
      var fields := before[member.0 := member.1];
      match AfterMember(t, memberEnd)
      case Closed(end) => Ok(JObject(fields), end)
      case Another(key) => ParseMembers(t, key, fields)
      case Malformed => Fail
  }

  /** The rest of an array whose opening bracket is at `i - 1`. */
  function ParseArray(t: Text, i: nat): (r: Parsed<Json>)
    requires i <= |t|
    ensures r.Ok? ==> i < r.end <= |t| && r.value.JArray?
    decreases |t| - i, 3
  {
    var j := SkipSpace(t, i);
    if CharAt(t, j, RBRACKET) then Ok(JArray([]), j + 1) else ParseItems(t, j, [])
  }

  /** The items from `i` on, appended to those before. */
  function ParseItems(t: Text, i: nat, before: seq<Json>): (r: Parsed<Json>)
    requires i <= |t|
    ensures r.Ok? ==> i < r.end <= |t| && r.value.JArray?
    decreases |t| - i, 2
  {
    match ParseValue(t, i)
    case Fail => Fail
    case Ok(value, valueEnd) =>
      var next := SkipSpace(t, valueEnd);
      if CharAt(t, next, RBRACKET) then Ok(JArray(before + [value]), next + 1)
      else if CharAt(t, next, COMMA) then ParseItems(t, SkipSpace(t, next + 1), before + [value])
      else Fail
  }
}
