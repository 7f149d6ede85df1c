/** The names both sides of the text boundary agree on, and Python's `dict.get` and `==`
    on the JSON values that cross it. */
module Contracts {
  import opened Texts
  import opened Json
  import opened JsonDecode
  import opened Numerals

  const STATUS: Text := Ascii("status")
  const ACTION: Text := Ascii("action")
  const PROPOSAL: Text := Ascii("proposal")
  const SUMMARY: Text := Ascii("summary")
  const VALUE: Text := Ascii("value")
  const LABEL: Text := Ascii("label")
  const APPROVED_BY: Text := Ascii("approved_by")
  const NOTE: Text := Ascii("note")
  const RESULT: Text := Ascii("result")
  const AGENT: Text := Ascii("agent")

  const APPROVAL_REQUIRED: Text := Ascii("approval_required")
  const PUBLISHED: Text := Ascii("published")
  const PUBLISH_ACTION: Text := Ascii("publish_result")

  /** `obj.get(key)`. */
  function Get(obj: Json, key: Text): Json
    requires obj.JObject?
  {
    if key in obj.fields then obj.fields[key] else JNull
  }

  // --- Equality on scalars ----------------------------------------------------------

  /** A Python number: a bool counts as 0 or 1, and NaN equals nothing. */
  datatype Number = Finite(x: real) | Infinite(negative: bool) | NotANumber

  function Scaled(m: int, e: int): real {
    if e >= 0 then (m * PowerOfTen(e)) as real else (m as real) / (PowerOfTen(-e) as real)
  }

  /** The signed integer a numeral's exponent part spells; 0 when it is empty. */
  function ExponentOf(part: Text): int {
    if |part| < 2 then 0
    else if part[1] == MINUS then -NatOf(part[2..])
    else if part[1] == PLUS then NatOf(part[2..])
    else NatOf(part[1..])
  }

  /** The number a float spelling stands for. */
  function FloatNumber(lexeme: Text): Number {
    if lexeme == INFINITY then Infinite(false)
    else if lexeme == [MINUS] + INFINITY then Infinite(true)
    else
      var k := NumberStart(lexeme, 0);
      if !DigitAt(lexeme, k) then NotANumber
      else
        var j := IntEnd(lexeme, k);
        var f := FractionEnd(lexeme, j);
        var fraction := if f == j then [] else lexeme[j + 1..f];
        var digits := NatOf(lexeme[k..j] + fraction);
        Finite(Scaled(if k == 0 then digits else -digits, ExponentOf(lexeme[f..]) - |fraction|))
  }

  function NumberOf(v: Json): Option<Number> {
    match v
    case JBool(b) => Some(Finite(if b then 1.0 else 0.0))
    case JInt(n) => Some(Finite(n as real))
    case JFloat(lexeme) => Some(FloatNumber(lexeme))
    case _ => None
  }

  /** `isinstance(v, str | int | float | bool)`. */
  predicate IsScalar(v: Json) {
    v.JString? || v.JBool? || v.JInt? || v.JFloat?
  }

  /** `a == b` where `b` is a scalar. */
  predicate Equals(a: Json, b: Json)
    requires IsScalar(b)
  {
    if b.JString? then a == b
    else NumberOf(a).Some? && NumberOf(a).value == NumberOf(b).value && NumberOf(a).value != NotANumber
  }

  /** `obj.get("status") == status`. */
  predicate HasStatus(obj: Json, status: Text)
    requires obj.JObject?
  {
    Get(obj, STATUS) == JString(status)
  }

  // --- What the numbers are worth ------------------------------------------------------------------------

  /** A power of ten, with any whole exponent. */
  function TenTo(e: int): (p: real)
    ensures p > 0.0
  {
    if e >= 0 then PowerOfTen(e) as real else 1.0 / (PowerOfTen(-e) as real)
  }

  function ExponentValue(n: Numeral): int {
    match n.exponent
    case None => 0
    case Some(e) => if e.sign == [MINUS] then -NatOf(e.digits) else NatOf(e.digits)
  }

  /** The real number a numeral stands for. */
  function Worth(n: Numeral): real {
    var size := ((NatOf(n.whole) as real) + (NatOf(n.fraction) as real) / TenTo(|n.fraction|)) * TenTo(ExponentValue(n));
    if n.minus then -size else size
  }

  lemma TenToStep(e: int)
    ensures TenTo(e) * 10.0 == TenTo(e + 1) && TenTo(e) > 0.0
  {
    if e < -1 {
      assert PowerOfTen(-e) == 10 * PowerOfTen(-e - 1);
      Tenth(PowerOfTen(-e - 1) as real);
    }
  }

  lemma Tenth(p: real)
    requires p > 0.0
    ensures 1.0 / (10.0 * p) * 10.0 == 1.0 / p
  {
  }

  lemma TenToZero()
    ensures TenTo(0) == 1.0
  {
  }

  lemma {:induction false} TenToLess(e: int, k: nat)
    ensures TenTo(e - k) * TenTo(k) == TenTo(e) && TenTo(k) > 0.0
    decreases k
  {
    hide TenTo;
    TenToZero();
    if k > 0 {
      TenToLess(e, k - 1);
      TenToStep(e - k);
      TenToStep(k - 1);
      assert e - k + 1 == e - (k - 1);
      Regroup(TenTo(e - k), TenTo(k - 1));
    }
  }

  lemma Regroup(a: real, b: real)
    ensures a * (b * 10.0) == (a * 10.0) * b
  {
  }

  lemma ScaledIs(m: int, e: int)
    ensures Scaled(m, e) == (m as real) * TenTo(e)
  {
    if e < 0 { Quotient(m as real, PowerOfTen(-e) as real); }
  }

  lemma Quotient(a: real, b: real)
    requires b > 0.0
    ensures a / b == a * (1.0 / b)
  {
  }

  /** Moving the point to the right of the fraction and taking it off the exponent. */
  lemma PointMoved(whole: int, fraction: int, k: nat, e: int)
    ensures ((whole * PowerOfTen(k) + fraction) as real) * TenTo(e - k)
         == ((whole as real) + (fraction as real) / TenTo(k)) * TenTo(e)
  {
    hide TenTo, PowerOfTen;
    TenToLess(e, k);
    TenToNatural(k);
    var m := whole * PowerOfTen(k) + fraction;
    AsReal(whole, PowerOfTen(k), fraction);
    PointShift(m as real, whole as real, fraction as real, TenTo(k), TenTo(e - k), TenTo(e));
  }

  lemma TenToNatural(k: nat)
    ensures TenTo(k) == PowerOfTen(k) as real
  {
  }

  lemma AsReal(a: int, b: int, c: int)
    ensures (a * b + c) as real == (a as real) * (b as real) + (c as real)
  {
    Product(a, b);
  }

  lemma {:induction false} Product(a: int, b: int)
    ensures (a * b) as real == (a as real) * (b as real)
  {
  }

  lemma PointShift(m: real, w: real, f: real, p: real, q: real, x: real)
    requires p > 0.0 && m == w * p + f && q * p == x
    ensures m * q == (w + f / p) * x
  {
    var r := f / p;
    assert r * p == f;
    assert (w + r) * x == (w + r) * p * q;
  }

  lemma NotNamed(n: Numeral)
    requires IsNumber(n)
    ensures Spell(n) != NAN && Spell(n) != INFINITY && Spell(n) != [MINUS] + INFINITY
  {
    hide NatOf, ExponentText, FractionText;
    var s := Spell(n);
    assert if n.minus then |s| > 1 && s[1] == n.whole[0] else s[0] == n.whole[0];
    assert IsDigit(n.whole[0]);
  }

  lemma EndsAtEnd(n: Numeral)
    ensures At(Spell(n), 0, Spell(n)) && Ends(Spell(n), |Spell(n)|, n)
  {
    hide Spell;
    AtSlice(Spell(n), 0, Spell(n));
  }

  lemma ExponentOfText(n: Numeral)
    requires IsNumber(n)
    ensures ExponentOf(ExponentText(n)) == ExponentValue(n)
  {
    hide NatOf;
    if n.exponent.Some? {
      var e := n.exponent.value;
      var part := ExponentText(n);
      assert IsDigit(e.digits[0]);
      assert part[1..] == e.sign + e.digits;
      if e.sign == [] {
        assert part[1] == e.digits[0] && part[1..] == e.digits;
      } else {
        assert part[1] == e.sign[0] && part[2..] == e.digits;
      }
    }
  }

  /** A float is the number its spelling stands for: whole digits, digits after the point each worth a
      tenth of the place before, times the power of ten, under the sign. */
  lemma FloatNumberIs(n: Numeral)
    requires IsNumber(n)
    ensures FloatNumber(Spell(n)) == Finite(Worth(n))
  {
    hide FloatNumber, Worth;
    FloatScaled(n);
    ScaledWorth(n);
  }

  lemma FloatScaled(n: Numeral)
    requires IsNumber(n)
    ensures var digits := NatOf(n.whole + n.fraction);
            FloatNumber(Spell(n)) == Finite(Scaled(if n.minus then -digits else digits, ExponentValue(n) - |n.fraction|))
  {
    hide At, IntEnd, FractionEnd, ExponentEnd, DigitsEnd, NatOf, Scaled, ExponentOf, Ends, Spell, IsNumber, FractionText,
      ExponentText, ExponentValue, NumberStart;
    var s := Spell(n);
    NotNamed(n);
    EndsAtEnd(n);
    PiecesFound(s, 0, n);
    PieceSlices(n);
    ExponentOfText(n);
  }

  lemma ScaledWorth(n: Numeral)
    ensures var digits := NatOf(n.whole + n.fraction);
            Scaled(if n.minus then -digits else digits, ExponentValue(n) - |n.fraction|) == Worth(n)
  {
    hide NatOf, PowerOfTen, TenTo, Scaled, ExponentValue;
    NatOfConcat(n.whole, n.fraction);
    var digits := NatOf(n.whole + n.fraction);
    var e := ExponentValue(n) - |n.fraction|;
    ScaledIs(if n.minus then -digits else digits, e);
    PointMoved(NatOf(n.whole), NatOf(n.fraction), |n.fraction|, ExponentValue(n));
    Negated(digits as real, TenTo(e));
  }

  lemma Negated(a: real, b: real)
    ensures (-a) * b == -(a * b)
  {
  }

  lemma PieceSlices(n: Numeral)
    ensures var s := Spell(n); var k := |SignText(n)|; var j := k + |n.whole|; var f := j + |FractionText(n)|;
            && j <= f <= |s| && s[k..j] == n.whole && s[f..] == ExponentText(n)
            && (if f == j then n.fraction == [] else s[j + 1..f] == n.fraction)
  {
    hide ExponentText, SignText;
    var k := |SignText(n)|;
    var j := k + |n.whole|;
    var f := j + |FractionText(n)|;
    Slices(SignText(n), n.whole, FractionText(n), ExponentText(n));
    if n.fraction != [] { assert Spell(n)[j..f][1..] == n.fraction; }
  }

  lemma Slices(a: Text, b: Text, c: Text, d: Text)
    ensures var s := a + b + c + d; var k := |a|; var j := k + |b|; var f := j + |c|;
            s[k..j] == b && s[j..f] == c && s[f..] == d
  {
  }

  /** Equality on numbers is equality of what they are worth: an int and a float, or two floats, are
      equal exactly when they stand for one number, however they are spelled; True is 1 and False 0. */
  lemma NumbersEqual(n: Numeral, m: Numeral, k: int, b: bool)
    requires IsNumber(n) && IsNumber(m)
    ensures Equals(JInt(k), JFloat(Spell(n))) <==> Worth(n) == k as real
    ensures Equals(JFloat(Spell(n)), JInt(k)) <==> Worth(n) == k as real
    ensures Equals(JFloat(Spell(n)), JFloat(Spell(m))) <==> Worth(n) == Worth(m)
    ensures Equals(JFloat(Spell(n)), JBool(b)) <==> Worth(n) == if b then 1.0 else 0.0
    ensures Equals(JInt(k), JBool(b)) <==> k == if b then 1 else 0
  {
    hide Worth, FloatNumber;
    FloatNumberIs(n);
    FloatNumberIs(m);
  }

  /** NaN is equal to nothing, itself included, and the infinities to themselves alone. */
  lemma NamedNumbersEqual(n: Numeral, k: int)
    requires IsNumber(n)
    ensures !Equals(JFloat(NAN), JFloat(NAN)) && !Equals(JFloat(NAN), JFloat(Spell(n))) && !Equals(JFloat(NAN), JInt(k))
    ensures Equals(JFloat(INFINITY), JFloat(INFINITY)) && Equals(JFloat([MINUS] + INFINITY), JFloat([MINUS] + INFINITY))
    ensures !Equals(JFloat(INFINITY), JFloat([MINUS] + INFINITY)) && !Equals(JFloat(INFINITY), JFloat(Spell(n)))
    ensures !Equals(JFloat(INFINITY), JInt(k))
  {
    hide Worth, FloatNumber, Spell, IsNumber;
    FloatNumberIs(n);
    NamedNumbers();
  }

  lemma NamedNumbers()
    ensures FloatNumber(NAN) == NotANumber && FloatNumber(INFINITY) == Infinite(false)
    ensures FloatNumber([MINUS] + INFINITY) == Infinite(true)
  {
    assert NAN[0] == 0x4E && INFINITY[0] == 0x49;
  }

  lemma KeysDiffer()
    ensures STATUS != ACTION && STATUS != PROPOSAL && STATUS != SUMMARY && STATUS != VALUE && STATUS != LABEL
    ensures STATUS != APPROVED_BY && STATUS != NOTE && STATUS != RESULT
    ensures ACTION != PROPOSAL && ACTION != SUMMARY && ACTION != VALUE && ACTION != LABEL && ACTION != APPROVED_BY
    ensures ACTION != NOTE && PROPOSAL != SUMMARY
    ensures VALUE != LABEL && VALUE != APPROVED_BY && VALUE != NOTE && LABEL != APPROVED_BY && LABEL != NOTE
    ensures APPROVED_BY != NOTE
    ensures APPROVAL_REQUIRED != PUBLISHED
  {
    assert STATUS[0] != ACTION[0] && VALUE[0] != LABEL[0] && STATUS[1] != RESULT[1];
  }
}
