/** Number tokens: a grammar, the numbers it denotes, and proof that `strtod` reads exactly it. */
module JsonNumber {
  import opened Common
  import opened JsonText

  datatype Exponent = Exponent(e: char, sign: string, digits: string)

  datatype Number = Number(neg: bool, whole: string, frac: Option<string>, exp: Option<Exponent>)

  ghost predicate ExponentOk(n: Number) {
    n.exp.Some? ==>
      && (n.exp.value.e == 'e' || n.exp.value.e == 'E')
      && (n.exp.value.sign == "" || n.exp.value.sign == "+" || n.exp.value.sign == "-")
      && n.exp.value.digits != "" && AllDigits(n.exp.value.digits)
  }

  /** What the parser takes for a number: a minus or not, digits, a point and digits or not, at least one
      digit in all and one at once unless there is a minus, an exponent or not. */
  ghost predicate Accepted(n: Number) {
    && AllDigits(n.whole) && (n.frac.Some? ==> AllDigits(n.frac.value)) && ExponentOk(n)
    && (n.whole == "" ==> n.neg && n.frac.Some? && n.frac.value != "")
  }

  /** Section 6 of RFC 8259: no leading zeros, and digits on both sides of a point. */
  ghost predicate NumberOk(n: Number) {
    && Accepted(n) && n.whole != "" && (n.whole[0] == '0' ==> |n.whole| == 1)
    && (n.frac.Some? ==> n.frac.value != "")
  }

  function ExponentText(n: Number): string {
    if n.exp.None? then "" else [n.exp.value.e] + (n.exp.value.sign + n.exp.value.digits)
  }

  function FractionText(n: Number): string {
    (if n.frac.None? then "" else "." + n.frac.value) + ExponentText(n)
  }

  function NumberText(n: Number): string {
    (if n.neg then "-" else "") + (n.whole + FractionText(n))
  }

  function FractionDigits(n: Number): string {
    if n.frac.None? then "" else n.frac.value
  }

  ghost function ExponentValue(n: Number): int
    requires Accepted(n)
  {
    if n.exp.None? then 0
    else if n.exp.value.sign == "-" then -(DecimalValue(n.exp.value.digits) as int)
    else DecimalValue(n.exp.value.digits)
  }

  ghost function NumberValue(n: Number): real
    requires Accepted(n)
  {
    Signed(n.neg, Scaled(n.whole + FractionDigits(n), ExponentValue(n) - |FractionDigits(n)|))
  }

  lemma ExponentOfText(n: Number)
    requires Accepted(n)
    ensures ExponentOf(ExponentText(n)) == Some(ExponentValue(n))
  {
    if n.exp.Some? {
      var x := n.exp.value;
      assert ExponentText(n)[1..] == x.sign + x.digits;
      if x.sign == "" {
        assert x.sign + x.digits == x.digits;
      } else {
        assert (x.sign + x.digits)[1..] == x.digits;
      }
    }
  }

  lemma SplitFractionOf(n: Number)
    requires Accepted(n)
    ensures SplitFraction(FractionText(n)) == (FractionDigits(n), ExponentText(n))
  {
    var tail := FractionText(n);
    if n.frac.Some? {
      var f := n.frac.value;
      assert tail[1..] == f + ExponentText(n);
      DigitSpanOf(f, ExponentText(n));
      assert tail[1..][..|f|] == f;
      assert tail[1..][|f|..] == ExponentText(n);
    } else {
      assert tail == ExponentText(n);
    }
  }

  lemma FractionStart(n: Number)
    requires Accepted(n)
    ensures FractionText(n) != "" ==> !IsDigit(FractionText(n)[0])
  {
  }

  lemma DigitsOf(n: Number)
    requires Accepted(n)
    ensures AllDigits(n.whole + FractionDigits(n)) && n.whole + FractionDigits(n) != ""
  {
  }

  lemma MagnitudeOfText(n: Number)
    requires Accepted(n)
    ensures MagnitudeOf(n.whole + FractionText(n))
         == Some(Scaled(n.whole + FractionDigits(n), ExponentValue(n) - |FractionDigits(n)|))
  {
    hide Scaled, SplitFraction, ExponentOf, ExponentValue, FractionText, ExponentText, DigitSpan, FractionDigits, MagnitudeOf;
    hide AllDigits, IsDigit;
    FractionStart(n);
    DigitSpanOf(n.whole, FractionText(n));
    SplitFractionOf(n);
    ExponentOfText(n);
    DigitsOf(n);
    MagnitudeParts(n.whole, FractionText(n), FractionDigits(n), ExponentText(n), ExponentValue(n));
  }

  lemma MagnitudeParts(whole: string, tail: string, frac: string, end: string, e: int)
    requires whole + frac != "" && AllDigits(whole + frac)
    requires DigitSpan(whole + tail) == |whole| && SplitFraction(tail) == (frac, end) && ExponentOf(end) == Some(e)
    ensures MagnitudeOf(whole + tail) == Some(Scaled(whole + frac, e - |frac|))
  {
    hide Scaled, SplitFraction, ExponentOf, DigitSpan;
    var s := whole + tail;
    assert s[..|whole|] == whole;
    assert s[|whole|..] == tail;
  }

  lemma SignedValue(n: Number)
    requires Accepted(n)
    ensures StrToD(NumberText(n)) == Some(NumberValue(n))
  {
    hide MagnitudeOf, Scaled, FractionText;
    var s := n.whole + FractionText(n);
    MagnitudeOfText(n);
    assert SplitSign(NumberText(n)) == (n.neg, s) by {
      TextStart(n);
      if n.neg {
        assert NumberText(n)[1..] == s;
      } else {
        assert NumberText(n) == s;
      }
    }
  }

  lemma NumberChars(n: Number)
    requires Accepted(n)
    ensures forall i :: 0 <= i < |NumberText(n)| ==> IsNumChar(NumberText(n)[i])
  {
    var e := ExponentText(n);
    assert forall i :: 0 <= i < |e| ==> IsNumChar(e[i]);
    var f := FractionText(n);
    assert forall i :: 0 <= i < |f| ==> IsNumChar(f[i]);
  }

  // ----- the number that is denoted, in powers of ten

  function Pow10(k: nat): nat {
    if k == 0 then 1 else 10 * Pow10(k - 1)
  }

  lemma {:induction false} ScaledUp(x: real, e: nat)
    ensures ScaleBy10(x, e) == x * Pow10(e) as real
    decreases e
  {
    if e > 0 {
      ScaledUp(x * 10.0, e - 1);
      var p := Pow10(e - 1) as real;
      assert Pow10(e) as real == 10.0 * p;
      assert (x * 10.0) * p == x * (10.0 * p);
    }
  }

  lemma {:induction false} ScaledDown(x: real, k: nat)
    ensures ScaleBy10(x, 0 - k) * Pow10(k) as real == x
    decreases k
  {
    if k > 0 {
      ScaledDown(x / 10.0, k - 1);
      var y, p := ScaleBy10(x, 0 - k), Pow10(k - 1) as real;
      assert Pow10(k) as real == 10.0 * p;
      assert y * (10.0 * p) == 10.0 * (y * p);
    }
  }

  /** x = m * 10^e. */
  ghost predicate IsTimesPower(x: real, m: nat, e: int) {
    if e >= 0 then x == m as real * Pow10(e) as real else x * Pow10(-e) as real == m as real
  }

  lemma ScaledIs(digits: string, m: nat, e: int)
    requires SpellsDecimal(digits, m)
    ensures AllDigits(digits) && IsTimesPower(Scaled(digits, e), m, e)
  {
    DecimalValueIs(digits, m);
    hide SpellsDecimal, DecimalValue;
    if e >= 0 {
      ScaledUp(m as real, e);
    } else {
      ScaledDown(m as real, -e);
    }
  }

  /** The number denotes this real: its digits are an integer m, its exponent an integer x, and the
      value is m * 10^(x - digits after the point), negated after a minus. */
  ghost predicate Denotes(n: Number, r: real)
    requires Accepted(n)
  {
    exists m: nat, x: int :: DenotesWith(n, r, m, x)
  }

  ghost predicate DenotesWith(n: Number, r: real, m: nat, x: int)
    requires Accepted(n)
  {
    && SpellsDecimal(n.whole + FractionDigits(n), m)
    && SpellsExponent(n, x)
    && IsTimesPower(if n.neg then -r else r, m, x - |FractionDigits(n)|)
  }

  ghost predicate SpellsExponent(n: Number, x: int) {
    if n.exp.None? then x == 0
    else if n.exp.value.sign == "-" then x <= 0 && SpellsDecimal(n.exp.value.digits, -x)
    else x >= 0 && SpellsDecimal(n.exp.value.digits, x)
  }

  lemma ValueIsDenoted(n: Number)
    requires Accepted(n)
    ensures Denotes(n, NumberValue(n))
  {
    DigitsOf(n);
    var digits := n.whole + FractionDigits(n);
    var m := DecimalValue(digits);
    var x := ExponentValue(n);
    DecimalValueIs(digits, m);
    ExponentSpelled(n);
    ScaledIs(digits, m, x - |FractionDigits(n)|);
    hide SpellsDecimal, DecimalValue, Scaled, IsTimesPower, FractionDigits, ExponentValue, SpellsExponent, Accepted;
    var s := Scaled(digits, x - |FractionDigits(n)|);
    assert NumberValue(n) == if n.neg then -s else s;
    assert DenotesWith(n, NumberValue(n), m, x);
  }

  lemma ExponentSpelled(n: Number)
    requires Accepted(n)
    ensures SpellsExponent(n, ExponentValue(n))
  {
    hide DecimalValue, SpellsDecimal;
    if n.exp.Some? {
      DecimalValueIs(n.exp.value.digits, DecimalValue(n.exp.value.digits));
    }
  }

  // ----- tokens

  ghost predicate TokenOk(tok: string) {
    exists n :: Accepted(n) && NumberText(n) == tok
  }

  ghost predicate RfcToken(tok: string) {
    exists n :: NumberOk(n) && NumberText(n) == tok
  }

  ghost function TokenValue(tok: string): real
    requires TokenOk(tok)
  {
    var n :| Accepted(n) && NumberText(n) == tok;
    NumberValue(n)
  }

  /** The characters a token can start with and consist of. */
  ghost predicate TokenChars(tok: string) {
    tok != "" && (tok[0] == '-' || IsDigit(tok[0])) && forall i :: 0 <= i < |tok| ==> IsNumChar(tok[i])
  }

  /** A number of the grammar, with fraction and exponent, is read to its last character as the decimal
      it denotes. */
  lemma NumberTokenValue(n: Number)
    requires Accepted(n)
    ensures TokenChars(NumberText(n)) && StrToD(NumberText(n)) == Some(NumberValue(n))
    ensures Denotes(n, NumberValue(n))
  {
    hide StrToD, NumberValue, Denotes;
    ValueIsDenoted(n);
    NumberChars(n);
    SignedValue(n);
    TextStart(n);
  }

  lemma TextStart(n: Number)
    requires Accepted(n)
    ensures NumberText(n) != "" && (n.neg ==> NumberText(n)[0] == '-') && (!n.neg ==> IsDigit(NumberText(n)[0]))
  {
    if !n.neg {
      assert IsDigit(n.whole[0]);
      assert NumberText(n)[0] == n.whole[0];
    }
  }

  /** The parts of an exponent that is read. */
  lemma ExponentParts(s: string) returns (exp: Option<Exponent>)
    requires ExponentOf(s).Some?
    ensures var n := Number(false, "", None, exp); ExponentOk(n) && ExponentText(n) == s
  {
    if s == "" {
      exp := None;
    } else {
      var t := s[1..];
      var d := SplitSign(t).1;
      var sign := t[..|t| - |d|];
      exp := Some(Exponent(s[0], sign, d));
      assert t == sign + d;
      assert s == [s[0]] + t;
    }
  }

  lemma FractionParts(s: string) returns (frac: Option<string>)
    ensures
      && (frac.Some? ==> AllDigits(frac.value)) && SplitFraction(s).0 == (if frac.None? then "" else frac.value)
      && s == (if frac.None? then "" else "." + frac.value) + SplitFraction(s).1
  {
    hide DigitSpan, AllDigits;
    if Starts(s, '.') {
      var u := s[1..];
      var m := DigitSpan(u);
      frac := Some(u[..m]);
      PointText(s, m);
    } else {
      frac := None;
      assert "" + s == s;
    }
  }

  lemma PointText(s: string, m: nat)
    requires Starts(s, '.') && m <= |s[1..]|
    ensures s == ("." + s[1..][..m]) + s[1..][m..]
  {
  }

  /** An unsigned number that is read whole. */
  lemma MagnitudeIsNumber(neg: bool, s: string) returns (n: Number)
    requires MagnitudeOf(s).Some? && (!neg ==> DigitSpan(s) > 0)
    ensures Accepted(n) && n.neg == neg && n.whole + FractionText(n) == s
  {
    hide ExponentOf, SplitFraction, DigitSpan, Scaled, AllDigits, ExponentText;
    var k := DigitSpan(s);
    var rest := s[k..];
    var frac := FractionParts(rest);
    var exp := ExponentParts(SplitFraction(rest).1);
    n := Number(neg, s[..k], frac, exp);
    SameExponent(n, Number(false, "", None, exp));
    assert FractionText(n) == rest;
    assert s == s[..k] + rest;
  }

  lemma SameExponent(n: Number, m: Number)
    requires n.exp == m.exp
    ensures ExponentText(n) == ExponentText(m) && (ExponentOk(n) <==> ExponentOk(m))
  {
  }

  /** Whatever is read to its last character is a number of the grammar. */
  lemma ReadIsNumber(tok: string) returns (n: Number)
    requires TokenChars(tok) && StrToD(tok).Some?
    ensures Accepted(n) && NumberText(n) == tok
  {
    hide MagnitudeOf, IsNumChar, Accepted, FractionText;
    if tok[0] != '-' {
      FirstDigit(tok);
    }
    var (neg, s) := SplitSign(tok);
    n := MagnitudeIsNumber(neg, s);
    assert tok == (if neg then "-" else "") + s;
  }

  lemma FirstDigit(tok: string)
    requires TokenChars(tok) && tok[0] != '-'
    ensures SplitSign(tok) == (false, tok) && DigitSpan(tok) > 0
  {
  }

  /** The tokens of the grammar are those that strtod reads whole, as the number they denote. */
  lemma TokenReads(tok: string)
    ensures TokenOk(tok) <==> TokenChars(tok) && StrToD(tok).Some?
    ensures TokenOk(tok) ==> StrToD(tok) == Some(TokenValue(tok))
  {
    hide StrToD, TokenChars, NumberText, NumberValue, Accepted;
    if TokenOk(tok) {
      var n :| Accepted(n) && NumberText(n) == tok && NumberValue(n) == TokenValue(tok);
      NumberTokenValue(n);
    }
    if TokenChars(tok) && StrToD(tok).Some? {
      var n := ReadIsNumber(tok);
    }
  }
}
