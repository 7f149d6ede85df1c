/** Numbers as section 6 of RFC 8259 spells them, apart from any decoder, and that the decoder reads
    exactly those. */
module Numerals {
  import opened Texts
  import opened Json
  import opened JsonDecode

  datatype Exponent = Exponent(letter: CodePoint, sign: Text, digits: Text)

  /** `fraction` holds the digits after the point; there is no point when it is empty. */
  datatype Numeral = Numeral(minus: bool, whole: Text, fraction: Text, exponent: Option<Exponent>)

  predicate IsExponent(e: Exponent) {
    (e.letter == 0x65 || e.letter == 0x45) && (e.sign == [] || e.sign == [PLUS] || e.sign == [MINUS])
    && e.digits != [] && AllDigits(e.digits)
  }

  /** "0" or digits that do not start with one; digits after a point; digits after an "e". */
  predicate IsNumber(n: Numeral) {
    && n.whole != [] && AllDigits(n.whole) && (n.whole[0] == ZERO ==> n.whole == [ZERO])
    && AllDigits(n.fraction)
    && (n.exponent.Some? ==> IsExponent(n.exponent.value))
  }

  function SignText(n: Numeral): Text {
    if n.minus then [MINUS] else []
  }

  function FractionText(n: Numeral): Text {
    if n.fraction == [] then [] else [DOT] + n.fraction
  }

  function ExponentText(n: Numeral): Text {
    match n.exponent
    case None => []
    case Some(e) => [e.letter] + e.sign + e.digits
  }

  function Spell(n: Numeral): Text {
    SignText(n) + n.whole + FractionText(n) + ExponentText(n)
  }

  predicate IsIntegral(n: Numeral) {
    n.fraction == [] && n.exponent.None?
  }

  /** What a numeral is read as: an int when it has neither point nor exponent, a float otherwise. */
  function Meaning(n: Numeral): Json {
    if IsIntegral(n) then JInt(if n.minus then -NatOf(n.whole) else NatOf(n.whole)) else JFloat(Spell(n))
  }

  predicate ExponentAt(t: Text, e: nat) {
    (CharAt(t, e, 0x65) || CharAt(t, e, 0x45))
    && (DigitAt(t, e + 1) || ((CharAt(t, e + 1, PLUS) || CharAt(t, e + 1, MINUS)) && DigitAt(t, e + 2)))
  }

  /** The numeral cannot be read on at `e`: neither its last digits, nor a fraction or an exponent it
      does not have yet. */
  predicate Ends(t: Text, e: nat, n: Numeral) {
    && (!(IsIntegral(n) && n.whole == [ZERO]) ==> !DigitAt(t, e))
    && (IsIntegral(n) ==> !(CharAt(t, e, DOT) && DigitAt(t, e + 1)))
    && (n.exponent.None? ==> !ExponentAt(t, e))
  }

  // --- Reading what is spelled -----------------------------------------------------------------------

  lemma {:induction false} DigitsRun(t: Text, i: nat, d: Text)
    requires At(t, i, d) && AllDigits(d) && !DigitAt(t, i + |d|)
    ensures DigitsEnd(t, i) == i + |d|
    decreases |d|
  {
    if d != [] { DigitsRun(t, i + 1, d[1..]); }
  }

  lemma WholeRead(t: Text, k: nat, d: Text)
    requires At(t, k, d) && d != [] && AllDigits(d) && (d[0] == ZERO ==> d == [ZERO])
    requires d != [ZERO] ==> !DigitAt(t, k + |d|)
    ensures DigitAt(t, k) && IntEnd(t, k) == k + |d|
  {
    AtIndex(t, k, d, 0);
    if d[0] != ZERO { DigitsRun(t, k, d); }
  }

  lemma FractionRead(t: Text, j: nat, n: Numeral)
    requires IsNumber(n) && At(t, j, FractionText(n))
    requires n.fraction != [] ==> !DigitAt(t, j + |FractionText(n)|)
    requires n.fraction == [] ==> !(CharAt(t, j, DOT) && DigitAt(t, j + 1))
    ensures j <= |t| && FractionEnd(t, j) == j + |FractionText(n)|
  {
    if n.fraction != [] {
      AtOpened(t, j, DOT, n.fraction);
      AtIndex(t, j + 1, n.fraction, 0);
      DigitsRun(t, j + 1, n.fraction);
    }
  }

  lemma ExponentRead(t: Text, f: nat, n: Numeral)
    requires IsNumber(n) && At(t, f, ExponentText(n))
    requires n.exponent.Some? ==> !DigitAt(t, f + |ExponentText(n)|)
    requires n.exponent.None? ==> !ExponentAt(t, f)
    ensures ExponentEnd(t, f) == f + |ExponentText(n)|
  {
    hide At, DigitsEnd;
    if n.exponent.Some? {
      var e := n.exponent.value;
      AtConcat(t, f, [e.letter] + e.sign, e.digits);
      AtConcat(t, f, [e.letter], e.sign);
      AtIndex(t, f, [e.letter], 0);
      var k := f + 1 + |e.sign|;
      AtIndex(t, k, e.digits, 0);
      DigitsRun(t, k, e.digits);
      if e.sign != [] { AtIndex(t, f + 1, e.sign, 0); }
      assert k == if CharAt(t, f + 1, PLUS) || CharAt(t, f + 1, MINUS) then f + 2 else f + 1;
    }
  }

  /** Where its pieces stand. */
  lemma PiecesAt(t: Text, i: nat, n: Numeral)
    requires At(t, i, Spell(n))
    ensures var k := i + |SignText(n)|; var j := k + |n.whole|; var f := j + |FractionText(n)|;
            && At(t, i, SignText(n)) && At(t, k, n.whole) && At(t, j, FractionText(n)) && At(t, f, ExponentText(n))
            && f + |ExponentText(n)| == i + |Spell(n)|
  {
    AtConcat(t, i, SignText(n) + n.whole + FractionText(n), ExponentText(n));
    AtConcat(t, i, SignText(n) + n.whole, FractionText(n));
    AtConcat(t, i, SignText(n), n.whole);
  }

  /** No digit follows the whole part or the fraction unless it is theirs. */
  lemma PiecesEnd(t: Text, i: nat, n: Numeral)
    requires IsNumber(n) && At(t, i, Spell(n)) && Ends(t, i + |Spell(n)|, n)
    ensures var j := i + |SignText(n)| + |n.whole|; var f := j + |FractionText(n)|;
            && (n.whole != [ZERO] || !IsIntegral(n) ==> !DigitAt(t, j)) && (n.fraction != [] ==> !DigitAt(t, f))
            && (n.fraction == [] ==> !(CharAt(t, j, DOT) && DigitAt(t, j + 1)))
            && (n.exponent.None? ==> !ExponentAt(t, f)) && (n.exponent.Some? ==> !DigitAt(t, f + |ExponentText(n)|))
  {
    hide Spell, At, AllDigits, ExponentAt;
    PiecesAt(t, i, n);
    PiecesStart(t, i + |SignText(n)| + |n.whole|, n);
  }

  lemma PiecesStart(t: Text, j: nat, n: Numeral)
    requires IsNumber(n) && At(t, j, FractionText(n)) && At(t, j + |FractionText(n)|, ExponentText(n))
    ensures n.fraction != [] ==> CharAt(t, j, DOT) && FractionText(n) != []
    ensures var f := j + |FractionText(n)|; n.exponent.Some? ==> (CharAt(t, f, 0x65) || CharAt(t, f, 0x45)) && ExponentText(n) != []
  {
    hide At, AllDigits;
    if n.fraction != [] { AtIndex(t, j, FractionText(n), 0); }
    if n.exponent.Some? { AtIndex(t, j + |FractionText(n)|, ExponentText(n), 0); }
  }

  /** A numeral is read to its end wherever it stands and cannot go on; one with no point or exponent
      only when `int()` takes that many digits. */
  lemma NumeralRead(t: Text, i: nat, n: Numeral)
    requires IsNumber(n) && At(t, i, Spell(n)) && Ends(t, i + |Spell(n)|, n)
    ensures DigitAt(t, NumberStart(t, i))
    ensures ParseNumber(t, i) == if IsIntegral(n) && |n.whole| > MAX_INT_DIGITS then Fail else Ok(Meaning(n), i + |Spell(n)|)
  {
    hide At, IntEnd, FractionEnd, ExponentEnd, ExponentAt, DigitsEnd, NatOf, Spell, Ends, AllDigits, FractionText, ExponentText,
      NumberAt, Meaning, SignText, IsNumber;
    PiecesFound(t, i, n);
    MeaningAt(t, i, n);
  }

  /** The decoder finds the pieces where they stand. */
  lemma PiecesFound(t: Text, i: nat, n: Numeral)
    requires IsNumber(n) && At(t, i, Spell(n)) && Ends(t, i + |Spell(n)|, n)
    ensures var k := i + |SignText(n)|; var j := k + |n.whole|; var f := j + |FractionText(n)|;
            && i < |t| && NumberStart(t, i) == k && DigitAt(t, k) && IntEnd(t, k) == j && FractionEnd(t, j) == f
            && ExponentEnd(t, f) == i + |Spell(n)| && f + |ExponentText(n)| == i + |Spell(n)|
  {
    hide At, IntEnd, FractionEnd, ExponentEnd, ExponentAt, DigitsEnd, NatOf, Spell, Ends, AllDigits, FractionText, ExponentText;
    PiecesAt(t, i, n);
    PiecesEnd(t, i, n);
    var k := i + |SignText(n)|;
    var j := k + |n.whole|;
    var f := j + |FractionText(n)|;
    PiecesStart(t, j, n);
    NumberStartsAt(t, i, n);
    WholeRead(t, k, n.whole);
    FractionRead(t, j, n);
    ExponentRead(t, f, n);
  }

  lemma MeaningAt(t: Text, i: nat, n: Numeral)
    requires IsNumber(n) && At(t, i, Spell(n))
    ensures var k := i + |SignText(n)|; var j := k + |n.whole|;
            j <= i + |Spell(n)| <= |t|
            && NumberAt(t, i, k, j, i + |Spell(n)|)
               == if IsIntegral(n) && |n.whole| > MAX_INT_DIGITS then Fail else Ok(Meaning(n), i + |Spell(n)|)
  {
    hide At, NatOf, AllDigits, NumberAt, Spell, FractionText, ExponentText;
    var k := i + |SignText(n)|;
    var j := k + |n.whole|;
    PiecesAt(t, i, n);
    WholeSlice(t, i, Spell(n));
    WholeSlice(t, k, n.whole);
    PiecesStart(t, j, n);
    NoPieces(n);
    NumberAtIs(t, i, k, j, i + |Spell(n)|, Spell(n), n.whole);
  }

  lemma WholeSlice(t: Text, i: nat, s: Text)
    requires At(t, i, s)
    ensures i + |s| <= |t| && t[i..i + |s|] == s
  {
    AtSlice(t, i, s);
  }

  lemma NumberAtIs(t: Text, i: nat, k: nat, j: nat, e: nat, lexeme: Text, whole: Text)
    requires i <= k < j <= e <= |t| && t[i..e] == lexeme && t[k..j] == whole
    ensures NumberAt(t, i, k, j, e) ==
            if e != j then Ok(JFloat(lexeme), e) else if |whole| > MAX_INT_DIGITS then Fail
            else Ok(JInt(if k == i then NatOf(whole) else -NatOf(whole)), e)
  {
    hide NatOf;
  }

  lemma NoPieces(n: Numeral)
    ensures n.fraction == [] <==> FractionText(n) == []
    ensures n.exponent.None? <==> ExponentText(n) == []
  {
  }

  lemma NumberStartsAt(t: Text, i: nat, n: Numeral)
    requires IsNumber(n) && At(t, i, SignText(n)) && At(t, i + |SignText(n)|, n.whole)
    ensures i < |t| && NumberStart(t, i) == i + |SignText(n)|
  {
    hide At;
    if n.minus { AtIndex(t, i, SignText(n), 0); }
    AtIndex(t, i + |SignText(n)|, n.whole, 0);
  }

  // --- Nothing else is read ---------------------------------------------------------------------------

  lemma {:induction false} DigitsEndIs(t: Text, i: nat)
    requires i <= |t|
    ensures var j := DigitsEnd(t, i); AllDigits(t[i..j]) && !DigitAt(t, j)
    decreases |t| - i
  {
    if DigitAt(t, i) {
      DigitsEndIs(t, i + 1);
      assert t[i..DigitsEnd(t, i)] == [t[i]] + t[i + 1..DigitsEnd(t, i)];
    }
  }

  lemma WholeFound(t: Text, k: nat)
    requires DigitAt(t, k)
    ensures var j := IntEnd(t, k); var whole := t[k..j];
            && AllDigits(whole) && whole != [] && (whole[0] == ZERO ==> whole == [ZERO])
            && (whole != [ZERO] ==> !DigitAt(t, j))
  {
    DigitsEndIs(t, k);
  }

  /** The digits after the point, if there is a fraction. */
  lemma FractionFound(t: Text, j: nat) returns (fraction: Text)
    requires j <= |t|
    ensures AllDigits(fraction)
    ensures var f := FractionEnd(t, j);
            && t[j..f] == (if fraction == [] then [] else [DOT] + fraction)
            && (fraction != [] ==> !DigitAt(t, f)) && (fraction == [] ==> f == j && !(CharAt(t, j, DOT) && DigitAt(t, j + 1)))
  {
    fraction := [];
    if CharAt(t, j, DOT) && DigitAt(t, j + 1) {
      DigitsEndIs(t, j + 1);
      fraction := t[j + 1..FractionEnd(t, j)];
      assert t[j..FractionEnd(t, j)] == [DOT] + fraction;
    }
  }

  lemma ExponentFound(t: Text, f: nat) returns (exponent: Option<Exponent>)
    requires f <= |t|
    ensures exponent.Some? ==> IsExponent(exponent.value)
    ensures var e := ExponentEnd(t, f);
            && t[f..e] == (match exponent case None => [] case Some(x) => [x.letter] + x.sign + x.digits)
            && (exponent.Some? ==> !DigitAt(t, e)) && (exponent.None? ==> e == f && !ExponentAt(t, f))
  {
    exponent := None;
    if ExponentAt(t, f) {
      var k := if CharAt(t, f + 1, PLUS) || CharAt(t, f + 1, MINUS) then f + 2 else f + 1;
      DigitsEndIs(t, k);
      var e := ExponentEnd(t, f);
      exponent := Some(Exponent(t[f], t[f + 1..k], t[k..e]));
      assert t[f..e] == [t[f]] + t[f + 1..k] + t[k..e];
    }
  }

  /** Whatever is read as a number is spelled as one, to the last character that can belong to it. */
  lemma NumeralFound(t: Text, i: nat) returns (n: Numeral)
    requires i <= |t| && ParseNumber(t, i).Ok?
    ensures IsNumber(n) && At(t, i, Spell(n)) && Ends(t, i + |Spell(n)|, n)
    ensures ParseNumber(t, i) == Ok(Meaning(n), i + |Spell(n)|) && !(IsIntegral(n) && |n.whole| > MAX_INT_DIGITS)
  {
    hide At, IntEnd, FractionEnd, ExponentEnd, DigitsEnd, NatOf, AllDigits, ExponentAt, Meaning, NumberAt;
    var k := NumberStart(t, i);
    var j := IntEnd(t, k);
    var f := FractionEnd(t, j);
    var e := ExponentEnd(t, f);
    WholeFound(t, k);
    var fraction := FractionFound(t, j);
    var exponent := ExponentFound(t, f);
    n := Numeral(k != i, t[k..j], fraction, exponent);
    assert t[i..k] == SignText(n);
    FoundEnds(t, j, f, e, n);
    SpelledBy(t, i, k, j, f, e, n);
    hide Ends, IsNumber, Spell, FractionText, ExponentText, SignText;
    assert Ends(t, i + |Spell(n)|, n);
    NumeralRead(t, i, n);
  }

  lemma SpelledBy(t: Text, i: nat, k: nat, j: nat, f: nat, e: nat, n: Numeral)
    requires i <= k <= j <= f <= e <= |t|
    requires t[i..k] == SignText(n) && t[k..j] == n.whole && t[j..f] == FractionText(n) && t[f..e] == ExponentText(n)
    ensures At(t, i, Spell(n)) && e == i + |Spell(n)|
  {
    hide At, SignText, FractionText, ExponentText;
    FourSlices(t, i, k, j, f, e);
    AtSlice(t, i, Spell(n));
  }

  lemma FourSlices(t: Text, i: nat, k: nat, j: nat, f: nat, e: nat)
    requires i <= k <= j <= f <= e <= |t|
    ensures t[i..k] + t[k..j] + t[j..f] + t[f..e] == t[i..e]
  {
  }

  lemma FoundEnds(t: Text, j: nat, f: nat, e: nat, n: Numeral)
    requires n.fraction != [] ==> !DigitAt(t, f)
    requires n.fraction == [] ==> f == j && !(CharAt(t, j, DOT) && DigitAt(t, j + 1))
    requires n.exponent.Some? ==> !DigitAt(t, e)
    requires n.exponent.None? ==> e == f && !ExponentAt(t, f)
    requires n.whole != [ZERO] ==> !DigitAt(t, j)
    ensures Ends(t, e, n)
  {
    hide ExponentAt;
  }

  /** The decoder reads a number at a place, and reads it to there, exactly when one is spelled there that
      cannot go on: `int()` refuses only an integer with too many digits. */
  lemma NumberExactly(t: Text, i: nat, v: Json, e: nat)
    requires i <= |t|
    ensures ParseNumber(t, i) == Ok(v, e)
       <==> exists n :: IsNumber(n) && At(t, i, Spell(n)) && e == i + |Spell(n)| && Ends(t, e, n) && v == Meaning(n)
                        && !(IsIntegral(n) && |n.whole| > MAX_INT_DIGITS)
  {
    hide At, ParseNumber, Spell, IsNumber, Ends, Meaning;
    if ParseNumber(t, i) == Ok(v, e) {
      var n := NumeralFound(t, i);
    }
    if n :| IsNumber(n) && At(t, i, Spell(n)) && e == i + |Spell(n)| && Ends(t, e, n) && v == Meaning(n)
            && !(IsIntegral(n) && |n.whole| > MAX_INT_DIGITS) {
      NumeralRead(t, i, n);
    }
  }
}
