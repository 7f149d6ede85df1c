/** JSON values as the program holds them, and `json.dumps` on them.
    An object is a map, which is exactly what `==` on two dicts sees; keys are printed
    in code-point order (`sort_keys=True`), with the default separators and ASCII escapes. */
module Json {
  import opened Texts

  datatype Json =
    | JNull
    | JBool(b: bool)
    | JInt(n: int)
    | JFloat(lexeme: Text)  // a float, carried as its spelling
    | JString(s: Text)
    | JArray(items: seq<Json>)
    | JObject(fields: map<Text, Json>)

  // --- Strings --------------------------------------------------------------------

  function HexDigit(n: nat): CodePoint
    requires n < 16
  {
    if n < 10 then 0x30 + n else 0x61 + (n - 10)
  }

  /** The last `k` lower-case hexadecimal digits of `n`. */
  function HexText(n: nat, k: nat): (t: Text)
    ensures |t| == k
  {
    if k == 0 then [] else HexText(n / 16, k - 1) + [HexDigit(n % 16)]
  }

  /** A `\uXXXX` escape. */
  function UnicodeEscape(n: nat): (t: Text)
    ensures |t| == 6
  {
    [BACKSLASH] + ([0x75] + HexText(n, 4))
  }

  predicate IsHigh(c: int) { 0xD800 <= c <= 0xDBFF }

  predicate IsLow(c: int) { 0xDC00 <= c <= 0xDFFF }

  function HighOf(c: CodePoint): CodePoint
    requires c >= 0x10000
  {
    0xD800 + (c - 0x10000) / 0x400
  }

  function LowOf(c: CodePoint): CodePoint
    requires c >= 0x10000
  {
    0xDC00 + (c - 0x10000) % 0x400
  }

  /** The code point a high and a low surrogate stand for together. */
  function Paired(high: int, low: int): CodePoint
    requires IsHigh(high) && IsLow(low)
  {
    0x10000 + (high - 0xD800) * 0x400 + (low - 0xDC00)
  }

  /** The letter of a two-character escape, if the character has one. */
  function ShortEscape(c: CodePoint): (letter: CodePoint) {
    if c == QUOTE then QUOTE
    else if c == BACKSLASH then BACKSLASH
    else if c == 0x0A then 0x6E
    else if c == 0x0D then 0x72
    else if c == 0x09 then 0x74
    else if c == 0x0C then 0x66
    else if c == 0x08 then 0x62
    else 0
  }

  function EncodeChar(c: CodePoint): (t: Text)
    ensures |t| >= 1
  {
    if ShortEscape(c) != 0 then [BACKSLASH, ShortEscape(c)]
    else if 0x20 <= c <= 0x7E then [c]
    else if c < 0x10000 then UnicodeEscape(c)
    else UnicodeEscape(HighOf(c)) + UnicodeEscape(LowOf(c))
  }

  function EncodeChars(s: Text): Text {
    if s == [] then [] else EncodeChar(s[0]) + EncodeChars(s[1..])
  }

  function EncodeString(s: Text): (t: Text)
    ensures |t| >= 2 && t[0] == QUOTE
  {
    [QUOTE] + (EncodeChars(s) + [QUOTE])
  }

  // --- Values -----------------------------------------------------------------------

  const SEPARATOR: Text := [COMMA, SPACE]
  const KEY_SEPARATOR: Text := [COLON, SPACE]

  /** `json.dumps(v, sort_keys=True)`. */
  function Encode(v: Json): Text
    decreases v, 1, 0
  {
    match v
    case JNull => [0x6E, 0x75, 0x6C, 0x6C]
    case JBool(b) => if b then [0x74, 0x72, 0x75, 0x65] else [0x66, 0x61, 0x6C, 0x73, 0x65]
    case JInt(n) => IntText(n)
    case JFloat(lexeme) => lexeme
    case JString(s) => EncodeString(s)
    case JArray(items) => [LBRACKET] + EncodeItems(v, 0)
    case JObject(fields) => [LBRACE] + EncodeMembers(v, SortedKeys(fields.Keys), 0)
  }

  /** The items from index `i` on, closed by the bracket. */
  function EncodeItems(v: Json, i: nat): Text
    requires v.JArray? && i <= |v.items|
    decreases v, 0, |v.items| - i
  {
    if i == |v.items| then [RBRACKET]
    else if i + 1 == |v.items| then Encode(v.items[i]) + [RBRACKET]
    else Encode(v.items[i]) + (SEPARATOR + EncodeItems(v, i + 1))
  }

  function EncodeMember(v: Json, key: Text): Text
    requires v.JObject? && key in v.fields
    decreases v, 0, 0
  {
    EncodeString(key) + (KEY_SEPARATOR + Encode(v.fields[key]))
  }

  /** The members under the keys from index `i` on, closed by the brace. */
  function EncodeMembers(v: Json, keys: seq<Text>, i: nat): Text
    requires v.JObject? && i <= |keys| && forall k :: k in keys ==> k in v.fields
    decreases v, 0, |keys| - i + 1
  {
    if i == |keys| then [RBRACE]
    else if i + 1 == |keys| then EncodeMember(v, keys[i]) + [RBRACE]
    else EncodeMember(v, keys[i]) + (SEPARATOR + EncodeMembers(v, keys, i + 1))
  }
}
