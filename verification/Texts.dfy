/** Text as the program sees it: a sequence of code points, lone surrogates included.
    Holds the few string operations every other module needs: position matching,
    the code-point order, decimal numerals, splitting, joining and stripping. */
module Texts {

  type CodePoint = c: int | 0 <= c < 0x110000

  type Text = seq<CodePoint>

  const QUOTE: CodePoint := 0x22
  const BACKSLASH: CodePoint := 0x5C
  const LBRACE: CodePoint := 0x7B
  const RBRACE: CodePoint := 0x7D
  const LBRACKET: CodePoint := 0x5B
  const RBRACKET: CodePoint := 0x5D
  const COMMA: CodePoint := 0x2C
  const COLON: CodePoint := 0x3A
  const SPACE: CodePoint := 0x20
  const NEWLINE: CodePoint := 0x0A
  const MINUS: CodePoint := 0x2D
  const PLUS: CodePoint := 0x2B
  const DOT: CodePoint := 0x2E
  const SLASH: CodePoint := 0x2F
  const EQUALS: CodePoint := 0x3D
  const ZERO: CodePoint := 0x30

  /** The text of an ASCII literal. */
  function Ascii(s: string): (t: Text)
    ensures |t| == |s| && forall i :: 0 <= i < |s| ==> t[i] == s[i] as int
  {
    seq(|s|, i requires 0 <= i < |s| => s[i] as int)
  }

  datatype Option<+T> = None | Some(value: T) {
    function Or(default: T): T {
      if Some? then value else default
    }
  }

  // --- Position matching ------------------------------------------------------

  /** `s` occurs in `t` at position `i`. */
  predicate At(t: Text, i: nat, s: Text)
    ensures At(t, i, s) ==> i + |s| <= |t|
    decreases |s|
  {
    if s == [] then i <= |t| else i < |t| && t[i] == s[0] && At(t, i + 1, s[1..])
  }

  lemma {:induction false} AtSlice(t: Text, i: nat, s: Text)
    ensures At(t, i, s) <==> i + |s| <= |t| && t[i..i + |s|] == s
    decreases |s|
  {
    if s != [] && i + |s| <= |t| {
      AtSlice(t, i + 1, s[1..]);
      assert t[i..i + |s|] == [t[i]] + t[i + 1..i + 1 + |s[1..]|];
      assert s == [s[0]] + s[1..];
    }
  }

  lemma {:induction false} AtConcat(t: Text, i: nat, a: Text, b: Text)
    ensures At(t, i, a + b) <==> At(t, i, a) && At(t, i + |a|, b)
    decreases |a|
  {
    if a == [] {
      assert a + b == b;
    } else {
      assert (a + b)[1..] == a[1..] + b;
      AtConcat(t, i + 1, a[1..], b);
    }
  }

  lemma {:induction false} AtIndex(t: Text, i: nat, s: Text, k: nat)
    requires At(t, i, s) && k < |s|
    ensures t[i + k] == s[k]
    decreases |s|
  {
    if k > 0 { AtIndex(t, i + 1, s[1..], k - 1); }
  }

  lemma AtOpened(t: Text, i: nat, c: CodePoint, b: Text)
    requires At(t, i, [c] + b)
    ensures i < |t| && t[i] == c && At(t, i + 1, b)
  {
    AtConcat(t, i, [c], b);
    AtIndex(t, i, [c], 0);
  }

  lemma AtClosed(t: Text, i: nat, a: Text, c: CodePoint)
    requires At(t, i, a + [c])
    ensures At(t, i, a) && i + |a| < |t| && t[i + |a|] == c
  {
    AtConcat(t, i, a, [c]);
    AtIndex(t, i + |a|, [c], 0);
  }

  lemma AtSeparated(t: Text, i: nat, a: Text, c: CodePoint, d: CodePoint, b: Text)
    requires At(t, i, a + ([c, d] + b))
    ensures At(t, i, a) && At(t, i + |a| + 2, b)
    ensures i + |a| + 1 < |t| && t[i + |a|] == c && t[i + |a| + 1] == d
  {
    AtConcat(t, i, a, [c, d] + b);
    AtConcat(t, i + |a|, [c, d], b);
    AtIndex(t, i + |a|, [c, d], 0);
    AtIndex(t, i + |a|, [c, d], 1);
  }

  // --- Code-point order ---------------------------------------------------------

  /** Python's order on strings: lexicographic on code points. */
  predicate LexLeq(a: Text, b: Text) {
    a == [] || (b != [] && (a[0] < b[0] || (a[0] == b[0] && LexLeq(a[1..], b[1..]))))
  }

  lemma LexTotal(a: Text, b: Text)
    ensures LexLeq(a, b) || LexLeq(b, a)
    ensures LexLeq(a, a)
  {
  }

  lemma {:induction false} LexAntisymmetric(a: Text, b: Text)
    requires LexLeq(a, b) && LexLeq(b, a)
    ensures a == b
  {
    if a != [] && b != [] {
      LexAntisymmetric(a[1..], b[1..]);
      assert a == [a[0]] + a[1..] && b == [b[0]] + b[1..];
    }
  }

  lemma {:induction false} LexTransitive(a: Text, b: Text, c: Text)
    requires LexLeq(a, b) && LexLeq(b, c)
    ensures LexLeq(a, c)
  {
    if a != [] && a[0] == b[0] && b[0] == c[0] {
      LexTransitive(a[1..], b[1..], c[1..]);
    }
  }

  /** The texts agree before `i`, and there the first has the smaller code point. */
  predicate SmallerAt(a: Text, b: Text, i: nat) {
    i < |a| && i < |b| && a[i] < b[i] && forall j :: 0 <= j < i ==> a[j] == b[j]
  }

  /** It is decided where the two first differ, by the smaller code point; what ends first comes first. */
  lemma {:induction false} LexLeqIs(a: Text, b: Text)
    ensures LexLeq(a, b) <==> a <= b || exists i: nat :: SmallerAt(a, b, i)
    decreases |a|
  {
    if a != [] && b != [] {
      var a', b' := a[1..], b[1..];
      assert a == [a[0]] + a' && b == [b[0]] + b';
      if a[0] == b[0] {
        LexLeqIs(a', b');
        if i: nat :| SmallerAt(a', b', i) { assert SmallerAt(a, b, i + 1); }
        if i: nat :| SmallerAt(a, b, i) { assert SmallerAt(a', b', i - 1); }
      } else if a[0] < b[0] {
        assert SmallerAt(a, b, 0);
      }
    }
  }

  ghost predicate IsLeast(k: Text, s: set<Text>) {
    k in s && forall other :: other in s ==> LexLeq(k, other)
  }

  lemma LeastExists(s: set<Text>)
    requires s != {}
    ensures exists k :: IsLeast(k, s)
  {
    var x :| x in s;
    var rest := s - {x};
    LexTotal(x, x);
    assert forall other :: other in s ==> other == x || other in rest;
    if rest == {} {
      assert IsLeast(x, s);
    } else {
      LeastExists(rest);
      var k :| IsLeast(k, rest);
      LexTotal(x, k);
      if LexLeq(x, k) {
        forall other | other in s ensures LexLeq(x, other) {
          if other != x { LexTransitive(x, k, other); }
        }
        assert IsLeast(x, s);
      } else {
        assert IsLeast(k, s);
      }
    }
  }

  lemma LeastUnique(s: set<Text>)
    ensures forall a, b :: IsLeast(a, s) && IsLeast(b, s) ==> a == b
  {
    forall a, b | IsLeast(a, s) && IsLeast(b, s) ensures a == b {
      LexAntisymmetric(a, b);
    }
  }

  function Least(s: set<Text>): (k: Text)
    requires s != {}
    ensures IsLeast(k, s)
  {
    LeastExists(s);
    LeastUnique(s);
    assert forall a, b :: a in s && (forall o :: o in s ==> LexLeq(a, o)) && b in s && (forall o :: o in s ==> LexLeq(b, o))
                     ==> IsLeast(a, s) && IsLeast(b, s);
    var k :| k in s && forall other :: other in s ==> LexLeq(k, other);
    k
  }

  ghost predicate StrictlySorted(keys: seq<Text>) {
    forall i, j :: 0 <= i < j < |keys| ==> LexLeq(keys[i], keys[j]) && keys[i] != keys[j]
  }

  /** `sorted(s)` for a set of strings. */
  function SortedKeys(s: set<Text>): (keys: seq<Text>)
    ensures forall k :: k in keys <==> k in s
    ensures StrictlySorted(keys)
    decreases |s|
  {
    if s == {} then [] else
      var k := Least(s);
      [k] + SortedKeys(s - {k})
  }

  // --- Decimal numerals -----------------------------------------------------------

  predicate IsDigit(c: int) {
    0x30 <= c <= 0x39
  }

  lemma TenDigits(c: int)
    ensures IsDigit(c) <==> c in Ascii("0123456789")
  {
    var ten := Ascii("0123456789");
    if IsDigit(c) { assert ten[c - 0x30] == c; }
  }

  predicate AllDigits(d: Text) {
    forall i :: 0 <= i < |d| ==> IsDigit(d[i])
  }

  /** `t.isdigit()`, on ASCII. */
  predicate IsNumeral(t: Text) {
    t != [] && AllDigits(t)
  }

  /** The decimal spelling of a natural number. */
  function Digits(n: nat): (d: Text)
    ensures |d| >= 1 && AllDigits(d)
    ensures d[0] == ZERO ==> d == [ZERO]
    ensures d == [ZERO] <==> n == 0
  {
    if n < 10 then [ZERO + n] else Digits(n / 10) + [ZERO + n % 10]
  }

  function PowerOfTen(e: nat): (p: int)
    ensures p >= 1
  {
    if e == 0 then 1 else 10 * PowerOfTen(e - 1)
  }

  /** The value of a string of decimal digits. */
  function NatOf(d: Text): int {
    if d == [] then 0 else NatOf(d[..|d| - 1]) * 10 + (d[|d| - 1] - ZERO)
  }

  lemma {:induction false} NatOfDigits(n: nat)
    ensures NatOf(Digits(n)) == n
  {
    if n >= 10 {
      NatOfDigits(n / 10);
      var d := Digits(n / 10) + [ZERO + n % 10];
      assert d[..|d| - 1] == Digits(n / 10);
    } else {
      assert Digits(n)[..0] == [];
    }
  }

  /** Place value: what stands to the left counts ten times as much for each digit to its right. */
  lemma {:induction false} NatOfConcat(a: Text, b: Text)
    ensures NatOf(a + b) == NatOf(a) * PowerOfTen(|b|) + NatOf(b)
    decreases |b|
  {
    if b == [] {
      assert a + b == a;
    } else {
      var init := b[..|b| - 1];
      assert (a + b)[..|a + b| - 1] == a + init;
      NatOfConcat(a, init);
      assert NatOf(a + b) == NatOf(a + init) * 10 + (b[|b| - 1] - ZERO);
      Shifted(NatOf(a), PowerOfTen(|init|), NatOf(init));
    }
  }

  lemma Shifted(a: int, p: int, b: int)
    ensures (a * p + b) * 10 == a * (10 * p) + b * 10
  {
  }

  /** A digit spells its place in the row of digits. */
  lemma NatOfDigit(k: nat)
    requires k < 10
    ensures NatOf([Ascii("0123456789")[k]]) == k && IsDigit(Ascii("0123456789")[k])
  {
    assert [Ascii("0123456789")[k]][..0] == [];
  }

  lemma {:induction false} NatOfBound(d: Text)
    requires AllDigits(d)
    ensures 0 <= NatOf(d) < PowerOfTen(|d|)
    decreases |d|
  {
    if d != [] { NatOfBound(d[..|d| - 1]); }
  }

  lemma DigitsInjective(m: nat, n: nat)
    requires Digits(m) == Digits(n)
    ensures m == n
  {
    NatOfDigits(m);
    NatOfDigits(n);
  }

  /** `str(n)` for an int. */
  function IntText(n: int): (t: Text)
    ensures |t| >= 1
    ensures t[0] == MINUS <==> n < 0
  {
    if n < 0 then [MINUS] + Digits(-n) else Digits(n)
  }

  lemma IntTextInjective(m: int, n: int)
    requires IntText(m) == IntText(n)
    ensures m == n
  {
    if m < 0 && n < 0 {
      assert IntText(m)[1..] == Digits(-m) && IntText(n)[1..] == Digits(-n);
      DigitsInjective(-m, -n);
    } else if m >= 0 && n >= 0 {
      DigitsInjective(m, n);
    }
  }

  // --- Splitting and joining -------------------------------------------------------

  /** `t.split(sep)` for a one-character separator. */
  function Split(t: Text, sep: CodePoint): (parts: seq<Text>)
    ensures |parts| >= 1
    ensures forall p :: p in parts ==> sep !in p
  {
    if t == [] then [[]]
    else
      var rest := Split(t[1..], sep);
      if t[0] == sep then [[]] + rest else [[t[0]] + rest[0]] + rest[1..]
  }

  /** `sep.join(parts)` for a one-character separator. */
  function Join(parts: seq<Text>, sep: CodePoint): Text {
    if parts == [] then []
    else if |parts| == 1 then parts[0]
    else parts[0] + [sep] + Join(parts[1..], sep)
  }

  lemma {:induction false} JoinSplit(t: Text, sep: CodePoint)
    ensures Join(Split(t, sep), sep) == t
  {
    if t == [] {
    } else {
      JoinSplit(t[1..], sep);
      var rest := Split(t[1..], sep);
      if t[0] == sep {
        assert Split(t, sep)[1..] == rest;
        assert Join(Split(t, sep), sep) == [] + [sep] + Join(rest, sep);
      } else {
        var parts := Split(t, sep);
        assert parts[1..] == rest[1..];
        assert Join(parts, sep) == [t[0]] + Join(rest, sep);
      }
    }
  }

  lemma {:induction false} SplitPrefix(a: Text, t: Text, sep: CodePoint)
    requires sep !in a
    ensures Split(a + [sep] + t, sep) == [a] + Split(t, sep)
    ensures Split(a, sep) == [a]
  {
    var whole := a + [sep] + t;
    if a == [] {
      assert whole[1..] == t;
    } else {
      assert sep !in a[1..] by { assert forall c :: c in a[1..] ==> c in a; }
      SplitPrefix(a[1..], t, sep);
      assert whole[1..] == a[1..] + [sep] + t;
      assert [a[0]] + a[1..] == a;
      assert ([a[1..]] + Split(t, sep))[1..] == Split(t, sep);
      assert [a[1..]][1..] == [];
    }
  }

  lemma {:induction false} SplitJoin(parts: seq<Text>, sep: CodePoint)
    requires parts != [] && forall p :: p in parts ==> sep !in p
    ensures Split(Join(parts, sep), sep) == parts
  {
    if |parts| == 1 {
      SplitPrefix(parts[0], [], sep);
    } else {
      SplitJoin(parts[1..], sep);
      SplitPrefix(parts[0], Join(parts[1..], sep), sep);
      assert [parts[0]] + parts[1..] == parts;
    }
  }

  // --- Stripping ----------------------------------------------------------------------

  /** What `str.strip()` removes: the characters `str.isspace()` accepts. */
  predicate IsSpace(c: int) {
    0x09 <= c <= 0x0D || 0x1C <= c <= 0x20 || c == 0x85 || c == 0xA0 || c == 0x1680
    || 0x2000 <= c <= 0x200A || c == 0x2028 || c == 0x2029 || c == 0x202F || c == 0x205F || c == 0x3000
  }

  function StripLeft(t: Text): (r: Text)
    ensures r == [] || !IsSpace(r[0])
    ensures |r| <= |t| && r == t[|t| - |r|..]
  {
    if t != [] && IsSpace(t[0]) then StripLeft(t[1..]) else t
  }

  function StripRight(t: Text): (r: Text)
    ensures r == [] || !IsSpace(r[|r| - 1])
    ensures |r| <= |t| && r == t[..|r|]
  {
    if t != [] && IsSpace(t[|t| - 1]) then StripRight(t[..|t| - 1]) else t
  }

  /** `t.strip()`. */
  function Strip(t: Text): (r: Text)
    ensures r == [] || (!IsSpace(r[0]) && !IsSpace(r[|r| - 1]))
  {
    StripRight(StripLeft(t))
  }

  lemma StripFixed(t: Text)
    requires t == [] || (!IsSpace(t[0]) && !IsSpace(t[|t| - 1]))
    ensures Strip(t) == t
  {
  }

  lemma {:induction false} StripLeftOnlySpaces(t: Text)
    ensures forall i :: 0 <= i < |t| - |StripLeft(t)| ==> IsSpace(t[i])
    decreases |t|
  {
    if t != [] && IsSpace(t[0]) {
      StripLeftOnlySpaces(t[1..]);
      forall i | 0 <= i < |t| - |StripLeft(t)| ensures IsSpace(t[i]) {
        if i > 0 { assert t[i] == t[1..][i - 1]; }
      }
    }
  }

  lemma {:induction false} StripRightOnlySpaces(t: Text)
    ensures forall i :: |StripRight(t)| <= i < |t| ==> IsSpace(t[i])
    decreases |t|
  {
    if t != [] && IsSpace(t[|t| - 1]) { StripRightOnlySpaces(t[..|t| - 1]); }
  }

  predicate IsBlank(t: Text) {
    forall i :: 0 <= i < |t| ==> IsSpace(t[i])
  }

  /** `strip()` takes blanks off both ends, and nothing else. */
  lemma StripOnlySpaces(t: Text) returns (before: Text, after: Text)
    ensures t == before + Strip(t) + after && IsBlank(before) && IsBlank(after)
  {
    hide StripLeft, StripRight, IsSpace;
    StripLeftOnlySpaces(t);
    StripRightOnlySpaces(StripLeft(t));
    var left := StripLeft(t);
    assert left == t[|t| - |left|..] && Strip(t) == left[..|Strip(t)|];
    before := t[..|t| - |left|];
    after := left[|Strip(t)|..];
  }

  /** A text strips to nothing exactly when it is blank. */
  lemma BlankStrips(t: Text)
    ensures Strip(t) == [] <==> IsBlank(t)
  {
    hide Strip;
    var before, after := StripOnlySpaces(t);
    if Strip(t) == [] {
      assert t == before + after;
    } else {
      assert t[|before|] == Strip(t)[0];
    }
  }
}
