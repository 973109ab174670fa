/** What the printer and the parser of src/ipc/json.cpp compute, as functions on the text that is
    left to read. JsonMachine.dfy proves the imperative code against these. */
module JsonText {
  import opened Common
  import opened JsonValue

  // ----- printing

  /** The C library's "%.17g", used for numbers outside the printable integers. */
  type RealFormat = real -> string

  function EscapeChar(c: char): string {
    if c == '"' then "\\\""
    else if c == '\\' then "\\\\"
    else if c == '\U{08}' then "\\b"
    else if c == '\U{0C}' then "\\f"
    else if c == '\n' then "\\n"
    else if c == '\r' then "\\r"
    else if c == '\t' then "\\t"
    else if c as int < 0x20 then "\\u00" + [HexChar(c as int / 16), HexChar(c as int % 16)]
    else [c]
  }

  function EscapeChars(s: string): string {
    if s == "" then "" else EscapeChar(s[0]) + EscapeChars(s[1..])
  }

  function Quoted(s: string): string {
    "\"" + EscapeChars(s) + "\""
  }

  function DumpInt(n: int): string {
    if n < 0 then "-" + Decimal(-n) else Decimal(n)
  }

  function DumpNum(x: real, g: RealFormat): string {
    if IsPrintableInt(x) then DumpInt(x.Floor) else g(x)
  }

  /** Compact JSON text; members in key order. */
  function Dump(v: Value, g: RealFormat): string
    decreases v, 1, 0
  {
    match v
    case Null => "null"
    case Bool(b) => if b then "true" else "false"
    case Num(n) => DumpNum(n, g)
    case Str(s) => Quoted(s)
    case Arr(a) => "[" + DumpElems(a, g) + "]"
    case Obj(o) => "{" + DumpMembers(v, SortedKeys(o.Keys), g) + "}"
  }

  function DumpElems(a: seq<Value>, g: RealFormat): string
    decreases a
  {
    if a == [] then ""
    else if |a| == 1 then Dump(a[0], g)
    else Dump(a[0], g) + "," + DumpElems(a[1..], g)
  }

  function DumpMember(v: Value, k: string, g: RealFormat): string
    requires v.Obj? && k in v.o
    decreases v, 0, 0
  {
    Quoted(k) + ":" + Dump(v.o[k], g)
  }

  function DumpMembers(v: Value, keys: seq<string>, g: RealFormat): string
    requires v.Obj? && forall k :: k in keys ==> k in v.o
    decreases v, 0, |keys| + 1
  {
    if keys == [] then ""
    else if |keys| == 1 then DumpMember(v, keys[0], g)
    else DumpMember(v, keys[0], g) + "," + DumpMembers(v, keys[1..], g)
  }

  // ----- scanning

  datatype Scan<+T> = Fail | Ok(value: T, rest: string)

  predicate IsWs(c: char) {
    c == ' ' || c == '\t' || c == '\n' || c == '\r'
  }

  function SkipWs(s: string): (r: string)
    ensures |r| <= |s|
    ensures r != "" ==> !IsWs(r[0])
  {
    if s != "" && IsWs(s[0]) then SkipWs(s[1..]) else s
  }

  /** Exactly four hexadecimal digits. */
  predicate IsHex4(h: string) {
    |h| == 4 && forall i :: 0 <= i < 4 ==> IsHex(h[i])
  }

  function Hex4Value(h: string): (v: nat)
    requires IsHex4(h)
    ensures v < 0x10000
  {
    HexVal(h[0]) * 4096 + HexVal(h[1]) * 256 + HexVal(h[2]) * 16 + HexVal(h[3])
  }

  function ScanHex4(s: string): (r: Scan<nat>)
    ensures r.Ok? ==> r.value < 0x10000 && |r.rest| < |s|
  {
    if |s| >= 4 && IsHex4(s[..4]) then Ok(Hex4Value(s[..4]), s[4..]) else Fail
  }

  predicate IsHighSurrogate(u: int) {
    0xd800 <= u <= 0xdbff
  }

  predicate IsLowSurrogate(u: int) {
    0xdc00 <= u <= 0xdfff
  }

  function SurrogatePair(hi: int, lo: int): int {
    0x10000 + (hi - 0xd800) * 1024 + (lo - 0xdc00)
  }

  /** The bytes of a code point, at most 0x10ffff. */
  function Utf8(cp: nat): (r: string)
    requires cp <= 0x10ffff
    ensures 1 <= |r| <= 4 && IsBytes(r)
  {
    if cp <= 0x7f then [cp as char]
    else if cp <= 0x7ff then [(0xc0 + cp / 64) as char, (0x80 + cp % 64) as char]
    else if cp <= 0xffff then
      [(0xe0 + cp / 4096) as char, (0x80 + cp / 64 % 64) as char, (0x80 + cp % 64) as char]
    else
      [(0xf0 + cp / 262144) as char, (0x80 + cp / 4096 % 64) as char,
       (0x80 + cp / 64 % 64) as char, (0x80 + cp % 64) as char]
  }

  /** The one-character escapes and what they stand for. */
  function SimpleEscape(e: char): Option<char> {
    if e == '"' || e == '\\' || e == '/' then Some(e)
    else if e == 'b' then Some('\U{08}')
    else if e == 'f' then Some('\U{0C}')
    else if e == 'n' then Some('\n')
    else if e == 'r' then Some('\r')
    else if e == 't' then Some('\t')
    else None
  }

  /** "\u" with its digits next: a code unit that is not a high surrogate stands alone (a lone low
      surrogate included), a high one needs "\u" and a low one after it. */
  function ScanUnicode(s: string): (r: Scan<string>)
    ensures r.Ok? ==> |r.rest| < |s|
  {
    var u := ScanHex4(s);
    if u.Fail? then Fail
    else if !IsHighSurrogate(u.value) then Ok(Utf8(u.value), u.rest)
    else if !(|u.rest| >= 2 && u.rest[0] == '\\' && u.rest[1] == 'u') then Fail
    else
      var l := ScanHex4(u.rest[2..]);
      if l.Ok? && IsLowSurrogate(l.value) then Ok(Utf8(SurrogatePair(u.value, l.value)), l.rest) else Fail
  }

  /** What follows a backslash. */
  function ScanEscape(s: string): (r: Scan<string>)
    ensures r.Ok? ==> |r.rest| < |s|
  {
    if s == "" then Fail
    else if SimpleEscape(s[0]).Some? then Ok([SimpleEscape(s[0]).value], s[1..])
    else if s[0] == 'u' then ScanUnicode(s[1..])
    else Fail
  }

  function Prepend(p: string, r: Scan<string>): Scan<string> {
    if r.Fail? then Fail else Ok(p + r.value, r.rest)
  }

  /** A string after its opening quote. */
  function ScanChars(s: string): (r: Scan<string>)
    ensures r.Ok? ==> |r.rest| < |s|
    decreases |s|
  {
    if s == "" then Fail
    else if s[0] == '"' then Ok("", s[1..])
    else if s[0] == '\\' then
      var e := ScanEscape(s[1..]);
      if e.Fail? then Fail else Prepend(e.value, ScanChars(e.rest))
    else Prepend([s[0]], ScanChars(s[1..]))
  }

  function ScanStr(s: string): (r: Scan<string>)
    ensures r.Ok? ==> |r.rest| < |s|
  {
    if Starts(s, '"') then ScanChars(s[1..]) else Fail
  }

  // ----- numbers

  predicate IsNumChar(c: char) {
    IsDigit(c) || c == '.' || c == 'e' || c == 'E' || c == '+' || c == '-'
  }

  /** The length of the longest prefix of number characters. */
  function NumSpan(s: string): (n: nat)
    ensures n <= |s|
    ensures forall i :: 0 <= i < n ==> IsNumChar(s[i])
    ensures n < |s| ==> !IsNumChar(s[n])
  {
    if s != "" && IsNumChar(s[0]) then 1 + NumSpan(s[1..]) else 0
  }

  /** x * 10^e. */
  function ScaleBy10(x: real, e: int): real
    decreases if e < 0 then -e else e
  {
    if e == 0 then x
    else if e > 0 then ScaleBy10(x * 10.0, e - 1)
    else ScaleBy10(x / 10.0, e + 1)
  }

  /** A sign, if any: (negative, what follows). */
  function SplitSign(s: string): (bool, string) {
    if Starts(s, '-') then (true, s[1..])
    else if Starts(s, '+') then (false, s[1..])
    else (false, s)
  }

  /** The exponent part of a decimal: empty, or 'e' with a signed run of digits and nothing else. */
  function ExponentOf(s: string): Option<int> {
    if s == "" then Some(0)
    else if s[0] != 'e' && s[0] != 'E' then None
    else
      var (neg, d) := SplitSign(s[1..]);
      if d == "" || !AllDigits(d) then None
      else
        var n: int := DecimalValue(d);
        Some(if neg then -n else n)
  }

  /** A point and the digits after it, if any: (those digits, what follows). */
  function SplitFraction(s: string): (r: (string, string))
    ensures AllDigits(r.0)
  {
    if Starts(s, '.') then
      var m := DigitSpan(s[1..]);
      (s[1..][..m], s[1..][m..])
    else ("", s)
  }

  /** digits * 10^e. */
  function Scaled(digits: string, e: int): real
    requires AllDigits(digits)
  {
    ScaleBy10(DecimalValue(digits) as real, e)
  }

  /** An unsigned decimal with its fraction and exponent. */
  function MagnitudeOf(s: string): Option<real> {
    var n := DigitSpan(s);
    var (frac, tail) := SplitFraction(s[n..]);
    var e := ExponentOf(tail);
    if n + |frac| == 0 || e.None? then None
    else Some(Scaled(s[..n] + frac, e.value - |frac|))
  }

  function Signed(neg: bool, x: real): real {
    if neg then -x else x
  }

  /** strtod over a whole token, exact: None when it does not consume every character. */
  function StrToD(tok: string): Option<real> {
    var (neg, s) := SplitSign(tok);
    var m := MagnitudeOf(s);
    if m.None? then None else Some(Signed(neg, m.value))
  }

  function ScanNumber(s: string): (r: Scan<Value>)
    ensures r.Ok? ==> |r.rest| < |s|
  {
    var n := NumSpan(s);
    var d := StrToD(s[..n]);
    if n == 0 || d.None? then Fail else Ok(Num(d.value), s[n..])
  }

  // ----- values

  function ScanLiteral(s: string, lit: string, v: Value): (r: Scan<Value>)
    requires lit != ""
    ensures r.Ok? ==> |r.rest| < |s|
  {
    if lit <= s then Ok(v, s[|lit|..]) else Fail
  }

  function ParseValue(s: string): (r: Scan<Value>)
    ensures r.Ok? ==> |r.rest| < |s|
    decreases |s|, 1
  {
    var t := SkipWs(s);
    if t == "" then Fail
    else if t[0] == '{' then
      var u := SkipWs(t[1..]);
      if Starts(u, '}') then Ok(Obj(map[]), u[1..]) else ParseMembers(u, map[])
    else if t[0] == '[' then
      var u := SkipWs(t[1..]);
      if Starts(u, ']') then Ok(Arr([]), u[1..]) else ParseElems(u, [])
    else if t[0] == '"' then
      var r := ScanStr(t);
      if r.Fail? then Fail else Ok(Str(r.value), r.rest)
    else if t[0] == 't' then ScanLiteral(t, "true", Bool(true))
    else if t[0] == 'f' then ScanLiteral(t, "false", Bool(false))
    else if t[0] == 'n' then ScanLiteral(t, "null", Null)
    else if t[0] == '-' || IsDigit(t[0]) then ScanNumber(t)
    else Fail
  }

  datatype Field = Field(key: string, value: Value)

  /** One member: a key, a colon and a value. */
  function ScanField(s: string): (r: Scan<Field>)
    ensures r.Ok? ==> |r.rest| < |s|
    decreases |s|, 0
  {
    var k := ScanStr(SkipWs(s));
    if k.Fail? then Fail
    else
      var c := SkipWs(k.rest);
      if !Starts(c, ':') then Fail
      else
        var v := ParseValue(c[1..]);
        if v.Fail? then Fail else Ok(Field(k.value, v.value), v.rest)
  }

  /** The members of an object after those in `acc`; a repeated key overwrites. */
  function ParseMembers(s: string, acc: map<string, Value>): (r: Scan<Value>)
    ensures r.Ok? ==> |r.rest| < |s|
    decreases |s|, 1
  {
    var f := ScanField(s);
    if f.Fail? then Fail
    else
      var acc' := acc[f.value.key := f.value.value];
      var t := SkipWs(f.rest);
      if Starts(t, ',') then ParseMembers(t[1..], acc')
      else if Starts(t, '}') then Ok(Obj(acc'), t[1..])
      else Fail
  }

  /** The elements of an array after those in `acc`. */
  function ParseElems(s: string, acc: seq<Value>): (r: Scan<Value>)
    ensures r.Ok? ==> |r.rest| < |s|
    decreases |s|, 2
  {
    var v := ParseValue(s);
    if v.Fail? then Fail
    else
      var acc' := acc + [v.value];
      var t := SkipWs(v.rest);
      if Starts(t, ',') then ParseElems(t[1..], acc')
      else if Starts(t, ']') then Ok(Arr(acc'), t[1..])
      else Fail
  }

  function Parse(text: string): Option<Value> {
    var r := ParseValue(text);
    if r.Ok? && SkipWs(r.rest) == "" then Some(r.value) else None
  }
}
