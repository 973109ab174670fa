/** The printer and the recursive-descent parser as the source writes them: a growing buffer, and a
    cursor with an `ok` flag that stays false once cleared. */
module JsonMachine {
  import opened Common
  import opened JsonValue
  import opened JsonText

  // ----- printer

  class Buffer {
    var data: string

    constructor ()
      ensures data == ""
    {
      data := "";
    }

    method Append(s: string)
      modifies this
      ensures data == old(data) + s
    {
      data := data + s;
    }
  }

  lemma EscapeCharsSnoc(s: string, c: char)
    ensures EscapeChars(s + [c]) == EscapeChars(s) + EscapeChar(c)
  {
    hide EscapeChar;
    if s == "" {
      assert s + [c] == [c];
      assert [c][1..] == "";
    } else {
      EscapeCharsSnoc(s[1..], c);
      assert (s + [c])[1..] == s[1..] + [c];
    }
  }

  method EscapeTo(s: string, out: Buffer)
    modifies out
    ensures out.data == old(out.data) + Quoted(s)
  {
    hide EscapeChar;
    out.Append("\"");
    for i := 0 to |s|
      invariant out.data == old(out.data) + ("\"" + EscapeChars(s[..i]))
    {
      EscapeCharsSnoc(s[..i], s[i]);
      assert s[..i + 1] == s[..i] + [s[i]];
      out.Append(EscapeChar(s[i]));
    }
    assert s[..|s|] == s;
    out.Append("\"");
  }

  lemma {:induction false} DumpElemsSnoc(a: seq<Value>, v: Value, g: RealFormat)
    ensures DumpElems(a + [v], g) == DumpElems(a, g) + (if a == [] then "" else ",") + Dump(v, g)
  {
    hide Dump;
    if a == [] {
      assert a + [v] == [v];
    } else {
      DumpElemsSnoc(a[1..], v, g);
      assert (a + [v])[1..] == a[1..] + [v];
      assert (a + [v])[0] == a[0];
    }
  }

  lemma {:induction false} DumpMembersSnoc(v: Value, keys: seq<string>, k: string, g: RealFormat)
    requires v.Obj? && k in v.o && forall j :: j in keys ==> j in v.o
    ensures DumpMembers(v, keys + [k], g)
         == DumpMembers(v, keys, g) + (if keys == [] then "" else ",") + DumpMember(v, k, g)
    decreases |keys|
  {
    hide DumpMember;
    if keys == [] {
      assert keys + [k] == [k];
    } else {
      DumpMembersSnoc(v, keys[1..], k, g);
      assert (keys + [k])[1..] == keys[1..] + [k];
    }
  }

  method DumpTo(v: Value, g: RealFormat, out: Buffer)
    modifies out
    ensures out.data == old(out.data) + Dump(v, g)
    decreases v, 1
  {
    match v
    case Null => out.Append("null");
    case Bool(b) => out.Append(if b then "true" else "false");
    case Num(n) => out.Append(DumpNum(n, g));
    case Str(s) => EscapeTo(s, out);
    case Arr(_) => DumpArrayTo(v, g, out);
    case Obj(_) => DumpObjectTo(v, g, out);
  }

  method DumpElemsTo(v: Value, g: RealFormat, out: Buffer)
    requires v.Arr?
    modifies out
    ensures out.data == old(out.data) + DumpElems(v.a, g)
    decreases v, 0, 0
  {
    hide Dump;
    for i := 0 to |v.a|
      invariant out.data == old(out.data) + DumpElems(v.a[..i], g)
    {
      DumpElemsSnoc(v.a[..i], v.a[i], g);
      assert v.a[..i + 1] == v.a[..i] + [v.a[i]];
      if i > 0 {
        out.Append(",");
      }
      DumpTo(v.a[i], g, out);
    }
    assert v.a[..|v.a|] == v.a;
  }

  method DumpArrayTo(v: Value, g: RealFormat, out: Buffer)
    requires v.Arr?
    modifies out
    ensures out.data == old(out.data) + Dump(v, g)
    decreases v, 0, 1
  {
    hide DumpElems;
    out.Append("[");
    DumpElemsTo(v, g, out);
    out.Append("]");
  }

  method DumpMemberTo(v: Value, k: string, g: RealFormat, out: Buffer)
    requires v.Obj? && k in v.o
    modifies out
    ensures out.data == old(out.data) + DumpMember(v, k, g)
    decreases v, 0, 0
  {
    hide Dump, Quoted;
    EscapeTo(k, out);
    out.Append(":");
    DumpTo(v.o[k], g, out);
  }

  method DumpMembersTo(v: Value, keys: seq<string>, g: RealFormat, out: Buffer)
    requires v.Obj? && forall k :: k in keys ==> k in v.o
    modifies out
    ensures out.data == old(out.data) + DumpMembers(v, keys, g)
    decreases v, 0, 1
  {
    hide DumpMember;
    for i := 0 to |keys|
      invariant forall k :: k in keys[..i] ==> k in v.o
      invariant out.data == old(out.data) + DumpMembers(v, keys[..i], g)
    {
      DumpMembersSnoc(v, keys[..i], keys[i], g);
      assert keys[..i + 1] == keys[..i] + [keys[i]];
      if i > 0 {
        out.Append(",");
      }
      DumpMemberTo(v, keys[i], g, out);
    }
    assert keys[..|keys|] == keys;
  }

  method DumpObjectTo(v: Value, g: RealFormat, out: Buffer)
    requires v.Obj?
    modifies out
    ensures out.data == old(out.data) + Dump(v, g)
    decreases v, 0, 2
  {
    hide SortedKeys, DumpMembers;
    out.Append("{");
    DumpMembersTo(v, SortedKeys(v.o.Keys), g, out);
    out.Append("}");
  }

  // ----- parser

  /** `rest` is what a scan leaves, `ok` whether it succeeded. */
  ghost predicate Agrees<T>(r: Scan<T>, ok: bool, v: T, rest: string) {
    if ok then r == Ok(v, rest) else r == Fail
  }

  ghost function HexFold(h: string): int {
    if h == "" then 0 else HexFold(h[..|h| - 1]) * 16 + HexVal(h[|h| - 1])
  }

  lemma HexFold4(h: string)
    requires IsHex4(h)
    ensures HexFold(h) == Hex4Value(h)
  {
    assert h[..3][..2] == h[..2] && h[..2][..1] == h[..1] && h[..1][..0] == "";
    assert HexFold(h[..1]) == HexVal(h[0]);
    assert HexFold(h[..2]) == HexFold(h[..1]) * 16 + HexVal(h[1]);
    assert HexFold(h[..3]) == HexFold(h[..2]) * 16 + HexVal(h[2]);
  }

  lemma PrependTwice(a: string, b: string, r: Scan<string>)
    ensures Prepend(a, Prepend(b, r)) == Prepend(a + b, r)
    ensures Prepend("", r) == r
  {
    if r.Ok? {
      assert a + (b + r.value) == (a + b) + r.value;
      assert "" + r.value == r.value;
    }
  }

  class Parser {
    const s: string
    var i: nat
    var ok: bool

    constructor (src: string)
      ensures s == src && i == 0 && ok
    {
      s := src;
      i := 0;
      ok := true;
    }

    ghost predicate Valid()
      reads this
    {
      i <= |s|
    }

    /** The text still to read. */
    ghost function Left(): string
      requires Valid()
      reads this
    {
      s[i..]
    }

    method Peek() returns (c: Option<char>)
      requires Valid()
      ensures c == if Left() == "" then None else Some(Left()[0])
    {
      c := if i < |s| then Some(s[i]) else None;
    }

    method Advance(n: nat)
      requires Valid() && n <= |Left()|
      modifies this`i
      ensures Valid() && Left() == old(Left()[n..]) && i == old(i) + n
    {
      i := i + n;
    }

    method Ws()
      requires Valid()
      modifies this`i
      ensures Valid() && Left() == SkipWs(old(Left())) && i >= old(i)
    {
      while i < |s| && IsWs(s[i])
        invariant old(i) <= i <= |s|
        invariant SkipWs(s[i..]) == SkipWs(old(Left()))
      {
        i := i + 1;
      }
    }

    /** Accumulates four digits; stops at the first character that is not one. */
    method Hex4() returns (v: nat)
      requires Valid() && ok
      modifies this
      ensures Valid() && i >= old(i) && Agrees(ScanHex4(old(Left())), ok, v, Left())
    {
      v := 0;
      ghost var left := Left();
      for n := 0 to 4
        invariant Valid() && ok && i == old(i) + n
        invariant forall j :: 0 <= j < n ==> IsHex(left[j])
        invariant v == HexFold(left[..n])
      {
        if i >= |s| {
          ok := false;
          return;
        }
        var c := s[i];
        assert c == left[n];
        i := i + 1;
        if !IsHex(c) {
          assert |left| >= 4 ==> left[..4][n] == c;
          ok := false;
          return;
        }
        assert left[..n + 1][..n] == left[..n];
        v := v * 16 + HexVal(c);
      }
      assert IsHex4(left[..4]);
      HexFold4(left[..4]);
    }

    /** What follows "\u". */
    method Unicode() returns (out: string)
      requires Valid() && ok
      modifies this
      ensures Valid() && i >= old(i) && Agrees(ScanUnicode(old(Left())), ok, out, Left())
    {
      hide ScanHex4, Utf8;
      out := "";
      var cp := Hex4();
      if !ok { return; }
      if IsHighSurrogate(cp) {
        if i + 1 < |s| && s[i] == '\\' && s[i + 1] == 'u' {
          Advance(2);
          var lo := Hex4();
          if !ok { return; }
          if IsLowSurrogate(lo) {
            cp := SurrogatePair(cp, lo);
          } else {
            ok := false;
            return;
          }
        } else {
          ok := false;
          return;
        }
      }
      out := Utf8(cp);
    }

    method Escape() returns (out: string)
      requires Valid() && ok
      modifies this
      ensures Valid() && i >= old(i) && Agrees(ScanEscape(old(Left())), ok, out, Left())
    {
      hide ScanUnicode;
      out := "";
      if i >= |s| {
        ok := false;
        return;
      }
      var e := s[i];
      i := i + 1;
      if SimpleEscape(e).Some? {
        out := [SimpleEscape(e).value];
      } else if e == 'u' {
        out := Unicode();
      } else {
        ok := false;
      }
    }

    method ParseStr() returns (out: string)
      requires Valid() && ok
      modifies this
      ensures Valid() && i >= old(i) && Agrees(ScanStr(old(Left())), ok, out, Left())
    {
      hide ScanEscape;
      out := "";
      if i >= |s| || s[i] != '"' {
        ok := false;
        return;
      }
      i := i + 1;
      ghost var body := Left();
      assert ScanStr(old(Left())) == ScanChars(body);
      PrependTwice("", "", ScanChars(body));
      while i < |s|
        invariant old(i) <= i && Valid() && ok
        invariant ScanChars(body) == Prepend(out, ScanChars(Left()))
        decreases |s| - i
      {
        ghost var left := Left();
        var c := s[i];
        i := i + 1;
        assert left[0] == c && left[1..] == Left();
        if c == '"' {
          assert out + "" == out;
          return;
        }
        if c == '\\' {
          var e := Escape();
          if !ok { return; }
          PrependTwice(out, e, ScanChars(Left()));
          out := out + e;
        } else {
          PrependTwice(out, [c], ScanChars(Left()));
          out := out + [c];
        }
      }
      ok := false;
    }

    method Number() returns (v: Value)
      requires Valid() && ok
      modifies this
      ensures Valid() && i >= old(i) && Agrees(ScanNumber(old(Left())), ok, v, Left())
    {
      hide StrToD;
      v := Null;
      ghost var left := Left();
      var start := i;
      while i < |s| && IsNumChar(s[i])
        invariant start <= i <= |s| && ok
        invariant NumSpan(left) == (i - start) + NumSpan(s[i..])
      {
        assert s[i..][1..] == s[i + 1..];
        i := i + 1;
      }
      assert NumSpan(left) == i - start;
      assert left[..i - start] == s[start..i];
      assert left[i - start..] == s[i..];
      if i == start {
        ok := false;
        return;
      }
      var d := StrToD(s[start..i]);
      if d.None? {
        ok := false;
        return;
      }
      v := Num(d.value);
    }

    method Literal(lit: string, value: Value) returns (v: Value)
      requires Valid() && ok && lit != ""
      modifies this
      ensures Valid() && i >= old(i) && Agrees(ScanLiteral(old(Left()), lit, value), ok, v, Left())
    {
      v := Null;
      if lit <= s[i..] {
        v := value;
        Advance(|lit|);
      } else {
        ok := false;
      }
    }

    method Member() returns (f: Field)
      requires Valid() && ok
      modifies this
      ensures Valid() && i >= old(i) && Agrees(ScanField(old(Left())), ok, f, Left())
      decreases |s| - i, 0
    {
      hide ScanStr, ParseValue;
      f := Field("", Null);
      ghost var top := i;
      Ws();
      var key := ParseStr();
      if !ok { return; }
      Ws();
      var c := Peek();
      if c != Some(':') {
        ok := false;
        return;
      }
      Advance(1);
      assert top < i;
      var child := ParseOne();
      f := Field(key, child);
    }

    /** After the brace and the blanks: the members up to the closing brace. */
    method Members() returns (v: Value)
      requires Valid() && ok
      modifies this
      ensures Valid() && i >= old(i) && Agrees(ParseMembers(old(Left()), map[]), ok, v, Left())
      decreases |s| - i, 1
    {
      hide ScanField;
      v := Obj(map[]);
      while true
        invariant old(i) <= i && Valid() && ok && v.Obj?
        invariant ParseMembers(old(Left()), map[]) == ParseMembers(Left(), v.o)
        decreases |s| - i
      {
        var f := Member();
        if !ok { return; }
        v := Obj(v.o[f.key := f.value]);
        Ws();
        var c := Peek();
        if c == Some(',') {
          Advance(1);
        } else if c == Some('}') {
          Advance(1);
          return;
        } else {
          ok := false;
          return;
        }
      }
    }

    method Elements() returns (v: Value)
      requires Valid() && ok
      modifies this
      ensures Valid() && i >= old(i) && Agrees(ParseElems(old(Left()), []), ok, v, Left())
      decreases |s| - i, 4
    {
      hide ParseValue;
      v := Arr([]);
      while true
        invariant old(i) <= i && Valid() && ok && v.Arr?
        invariant ParseElems(old(Left()), []) == ParseElems(Left(), v.a)
        decreases |s| - i
      {
        var child := ParseOne();
        if !ok { return; }
        v := Arr(v.a + [child]);
        Ws();
        var c := Peek();
        if c == Some(',') {
          Advance(1);
        } else if c == Some(']') {
          Advance(1);
          return;
        } else {
          ok := false;
          return;
        }
      }
    }

    method ParseOne() returns (v: Value)
      requires Valid() && ok
      modifies this
      ensures Valid() && i >= old(i) && Agrees(ParseValue(old(Left())), ok, v, Left())
      decreases |s| - i, 3
    {
      hide ScanStr, ScanNumber, ScanLiteral, ParseMembers, ParseElems;
      v := Null;
      Ws();
      var p := Peek();
      if p.None? {
        ok := false;
        return;
      }
      var c := p.value;
      if c == '{' {
        Advance(1);
        Ws();
        p := Peek();
        if p == Some('}') {
          Advance(1);
          v := Obj(map[]);
        } else {
          v := Members();
        }
      } else if c == '[' {
        Advance(1);
        Ws();
        p := Peek();
        if p == Some(']') {
          Advance(1);
          v := Arr([]);
        } else {
          v := Elements();
        }
      } else if c == '"' {
        var t := ParseStr();
        v := Str(t);
      } else if c == 't' {
        v := Literal("true", Bool(true));
      } else if c == 'f' {
        v := Literal("false", Bool(false));
      } else if c == 'n' {
        v := Literal("null", Null);
      } else if c == '-' || IsDigit(c) {
        v := Number();
      } else {
        ok := false;
      }
    }
  }

  method DumpText(v: Value, g: RealFormat) returns (text: string)
    ensures text == Dump(v, g)
  {
    var out := new Buffer();
    DumpTo(v, g, out);
    text := out.data;
    assert "" + Dump(v, g) == Dump(v, g);
  }

  method ParseText(text: string) returns (r: Option<Value>)
    ensures r == Parse(text)
  {
    hide ParseValue;
    var p := new Parser(text);
    assert p.Left() == text;
    var v := p.ParseOne();
    if !p.ok { return None; }
    p.Ws();
    if p.i != |text| { return None; }
    r := Some(v);
  }
}
