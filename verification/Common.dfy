/** Vocabulary shared by the codecs: optional results, digits, and decimal text.
    A byte is a `char`; where its numeric value matters the model says that it is below 256. */
module Common {

  datatype Option<+T> = None | Some(value: T)

  /** Every element is a byte value (the source's `char` read as `unsigned char`). */
  ghost predicate IsBytes(s: string) {
    forall i :: 0 <= i < |s| ==> s[i] as int < 256
  }

  predicate Starts(s: string, c: char) {
    s != "" && s[0] == c
  }

  predicate IsDigit(c: char) {
    '0' <= c <= '9'
  }

  predicate AllDigits(s: string) {
    forall i :: 0 <= i < |s| ==> IsDigit(s[i])
  }

  function DigitChar(d: nat): (c: char)
    requires d < 10
    ensures IsDigit(c) && c as int - '0' as int == d
  {
    ('0' as int + d) as char
  }

  /** The number a run of decimal digits denotes, most significant digit first. */
  function DecimalValue(s: string): nat
    requires AllDigits(s)
  {
    if s == "" then 0
    else 10 * DecimalValue(s[..|s| - 1]) + (s[|s| - 1] as int - '0' as int)
  }

  /** The length of the longest prefix of digits. */
  function DigitSpan(s: string): (n: nat)
    ensures n <= |s|
    ensures AllDigits(s[..n])
    ensures n < |s| ==> !IsDigit(s[n])
  {
    if s != "" && IsDigit(s[0]) then
      var n := 1 + DigitSpan(s[1..]);
      assert s[..n] == [s[0]] + s[1..][..n - 1];
      n
    else 0
  }

  lemma {:induction false} DigitSpanOf(a: string, rest: string)
    requires AllDigits(a) && (rest != "" ==> !IsDigit(rest[0]))
    ensures DigitSpan(a + rest) == |a|
  {
    if a == "" {
      assert a + rest == rest;
    } else {
      assert (a + rest)[1..] == a[1..] + rest;
      DigitSpanOf(a[1..], rest);
    }
  }

  /** Decimal text without leading zeros, as `%lld` prints a non-negative number. */
  function Decimal(n: nat): (s: string)
    ensures s != "" && AllDigits(s)
  {
    if n < 10 then [DigitChar(n)] else Decimal(n / 10) + [DigitChar(n % 10)]
  }

  lemma {:induction false} DecimalRoundTrip(n: nat)
    ensures DecimalValue(Decimal(n)) == n
  {
    var s := Decimal(n);
    if n < 10 {
      assert s[..|s| - 1] == "";
    } else {
      DecimalRoundTrip(n / 10);
      assert s[..|s| - 1] == Decimal(n / 10);
    }
  }

  /** Decimal text starts with '0' only for zero. */
  lemma {:induction false} DecimalLeading(n: nat)
    ensures Decimal(n)[0] == '0' <==> n == 0
    ensures n == 0 ==> Decimal(n) == "0"
  {
    if n >= 10 {
      DecimalLeading(n / 10);
    }
  }

  /** The value of a hexadecimal digit of either case, -1 for any other character. */
  function HexVal(c: char): (v: int)
    ensures -1 <= v < 16
  {
    if '0' <= c <= '9' then c as int - '0' as int
    else if 'a' <= c <= 'f' then c as int - 'a' as int + 10
    else if 'A' <= c <= 'F' then c as int - 'A' as int + 10
    else -1
  }

  predicate IsHex(c: char) {
    HexVal(c) >= 0
  }

  /** The lower-case hexadecimal digit of a value. */
  function HexChar(v: nat): (c: char)
    requires v < 16
    ensures HexVal(c) == v && c as int < 128
  {
    if v < 10 then ('0' as int + v) as char else ('a' as int + v - 10) as char
  }

  // ----- what the digits mean: tables apart from the arithmetic above

  const DIGITS: string := "0123456789"
  const LOWER_HEX: string := "0123456789abcdef"
  const UPPER_HEX: string := "0123456789ABCDEF"

  lemma DigitTable(d: nat)
    requires d < 10
    ensures DigitChar(d) == DIGITS[d] && IsDigit(DIGITS[d]) && DIGITS[d] as int - '0' as int == d
  {
  }

  /** A digit and its value, in either case. */
  ghost predicate IsHexDigit(c: char, v: nat) {
    v < 16 && (c == LOWER_HEX[v] || c == UPPER_HEX[v])
  }

  /** The values of hexadecimal digits are those of the table, and nothing else is a digit. */
  lemma HexTable(c: char, v: nat)
    ensures HexVal(c) == v <==> IsHexDigit(c, v)
    ensures IsHex(c) ==> IsHexDigit(c, HexVal(c))
    ensures v < 16 ==> HexChar(v) == LOWER_HEX[v]
  {
    if v < 10 {
      assert LOWER_HEX[v] == UPPER_HEX[v] == ('0' as int + v) as char;
    } else if v < 16 {
      assert LOWER_HEX[v] == ('a' as int + v - 10) as char && UPPER_HEX[v] == ('A' as int + v - 10) as char;
    }
    var u := HexVal(c);
    if 0 <= u < 10 {
      assert LOWER_HEX[u] == UPPER_HEX[u] == ('0' as int + u) as char;
    } else if 10 <= u < 16 {
      assert LOWER_HEX[u] == ('a' as int + u - 10) as char && UPPER_HEX[u] == ('A' as int + u - 10) as char;
    }
  }

  /** The text is a decimal numeral of the number, leading zeros allowed. */
  ghost predicate SpellsDecimal(s: string, n: nat) {
    if s == "" then n == 0 else s[|s| - 1] == DIGITS[n % 10] && SpellsDecimal(s[..|s| - 1], n / 10)
  }

  lemma {:induction false} DecimalValueIs(s: string, n: nat)
    ensures AllDigits(s) && DecimalValue(s) == n <==> SpellsDecimal(s, n)
  {
    if s != "" {
      var init, c := s[..|s| - 1], s[|s| - 1];
      DecimalValueIs(init, n / 10);
      DigitTable(n % 10);
      if AllDigits(s) {
        assert IsDigit(c);
        DigitTable(c as int - '0' as int);
      }
      if SpellsDecimal(s, n) {
        assert forall i :: 0 <= i < |init| ==> s[i] == init[i];
      }
    }
  }

  /** The text is a hexadecimal numeral of the number, in any case, leading zeros allowed. */
  ghost predicate SpellsHex(h: string, n: nat) {
    if h == "" then n == 0 else IsHexDigit(h[|h| - 1], n % 16) && SpellsHex(h[..|h| - 1], n / 16)
  }

  // ----- sequences

  lemma Regroup<T>(x: seq<T>, y: seq<T>, z: seq<T>)
    ensures (x + y) + z == x + (y + z)
  {
  }
}
