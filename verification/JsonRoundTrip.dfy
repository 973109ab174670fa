/** RFC 8259 texts parse to the tree they render, and the printer's output is such a text:
    `Parse(Dump(v, g)) == Some(v)`. */
module JsonRoundTrip {
  import opened Common
  import opened JsonValue
  import opened JsonText
  import opened JsonNumber
  import opened JsonGrammar
  import opened JsonSound

  // ----- characters: section 3 of RFC 3629

  ghost predicate IsContinuation(c: char) {
    0x80 <= c as int < 0xc0
  }

  /** The octet sequence that the table of section 3 of RFC 3629 gives a code point. */
  ghost predicate Rfc3629(b: string, cp: int) {
    if cp < 0x80 then |b| == 1 && b[0] as int == cp
    else if cp < 0x800 then
      && |b| == 2 && 0xc0 <= b[0] as int < 0xe0 && IsContinuation(b[1])
      && cp == (b[0] as int - 0xc0) * 64 + (b[1] as int - 0x80)
    else if cp < 0x10000 then
      && |b| == 3 && 0xe0 <= b[0] as int < 0xf0 && IsContinuation(b[1]) && IsContinuation(b[2])
      && cp == (b[0] as int - 0xe0) * 4096 + (b[1] as int - 0x80) * 64 + (b[2] as int - 0x80)
    else
      && |b| == 4 && 0xf0 <= b[0] as int < 0xf8
      && IsContinuation(b[1]) && IsContinuation(b[2]) && IsContinuation(b[3])
      && cp == (b[0] as int - 0xf0) * 262144 + (b[1] as int - 0x80) * 4096
               + (b[2] as int - 0x80) * 64 + (b[3] as int - 0x80)
  }

  /** Quotient and remainder by 64 are the only digits that compose a number. */
  lemma Base64Digits(x: int, hi: int, lo: int)
    requires 0 <= lo < 64
    ensures x == hi * 64 + lo <==> hi == x / 64 && lo == x % 64
  {
  }

  lemma Utf8IsRfc3629(cp: nat, b: string)
    requires cp <= 0x10ffff
    ensures Rfc3629(b, cp) <==> b == Utf8(cp)
  {
    var u := Utf8(cp);
    if |b| == |u| && |u| > 1 && forall i :: 0 < i < |b| ==> IsContinuation(b[i]) {
      Utf8Bits(cp, b);
    }
  }

  lemma Utf8Bits(cp: nat, b: string)
    requires 0x80 <= cp <= 0x10ffff && |b| == |Utf8(cp)| && forall i :: 0 < i < |b| ==> IsContinuation(b[i])
    ensures Rfc3629(b, cp) <==> b == Utf8(cp)
  {
    var lo := b[|b| - 1] as int - 0x80;
    if |b| == 2 {
      Base64Digits(cp, b[0] as int - 0xc0, lo);
      assert b == [b[0], b[1]];
    } else if |b| == 3 {
      Base64Digits(cp, (b[0] as int - 0xe0) * 64 + (b[1] as int - 0x80), lo);
      Base64Digits(cp / 64, b[0] as int - 0xe0, b[1] as int - 0x80);
      assert b == [b[0], b[1], b[2]];
    } else {
      Utf8FourBits(cp, b);
    }
  }

  lemma Utf8FourBits(cp: nat, b: string)
    requires 0x10000 <= cp <= 0x10ffff && |b| == 4 && forall i :: 0 < i < 4 ==> IsContinuation(b[i])
    ensures Rfc3629(b, cp) <==> b == Utf8(cp)
  {
    var top, a, m := b[0] as int - 0xf0, b[1] as int - 0x80, b[2] as int - 0x80;
    Base64Digits(cp, (top * 64 + a) * 64 + m, b[3] as int - 0x80);
    Base64Digits(cp / 64, top * 64 + a, m);
    Base64Digits(cp / 4096, top, a);
    assert b == [b[0], b[1], b[2], b[3]];
  }

  lemma SurrogateBits(hi: int, lo: int)
    requires IsHighSurrogate(hi) && IsLowSurrogate(lo)
    ensures SurrogatePair(hi, lo) == 0x10000 + hi % 0x400 * 0x400 + lo % 0x400
  {
  }

  /** A \u escape that is no surrogate stands for its code unit, a surrogate pair for the scalar value
      that UTF-16 gives it. */
  lemma EscapedScalarIsUtf8(h: string, u: nat)
    requires |h| == 4 && SpellsHex(h, u) && u / 0x400 != 0x36 && u / 0x400 != 0x37
    ensures PieceOk(Unit(h)) && !IsHigh(Unit(h)) && Rfc3629(PieceMeaning(Unit(h)), u)
  {
    Hex4Is(h, u);
    SurrogateRanges(u);
    hide SpellsHex, Hex4Value;
    Utf8IsRfc3629(u, Utf8(u));
  }

  lemma EscapedPairIsUtf8(h: string, u: nat, l: string, v: nat)
    requires |h| == 4 && SpellsHex(h, u) && u / 0x400 == 0x36 && |l| == 4 && SpellsHex(l, v) && v / 0x400 == 0x37
    ensures IsHigh(Unit(h)) && IsLow(Unit(l))
    ensures Rfc3629(PairMeaning(Unit(h), Unit(l)), 0x10000 + u % 0x400 * 0x400 + v % 0x400)
  {
    Hex4Is(h, u);
    Hex4Is(l, v);
    SurrogateRanges(u);
    SurrogateRanges(v);
    hide SpellsHex, Hex4Value;
    SurrogateBits(u, v);
    var cp := SurrogatePair(u, v);
    Utf8IsRfc3629(cp, Utf8(cp));
  }

  /** Surrogates by the leading six bits of their code units: 110110 and 110111. */
  lemma SurrogateRanges(u: nat)
    ensures IsHighSurrogate(u) <==> u / 0x400 == 0x36
    ensures IsLowSurrogate(u) <==> u / 0x400 == 0x37
  {
  }

  /** Four digits stand for the number they spell, in any case. */
  lemma Hex4Is(h: string, u: nat)
    requires |h| == 4
    ensures IsHex4(h) && Hex4Value(h) == u <==> SpellsHex(h, u)
  {
    FourDigits(h, u);
    SpellsFour(h, u);
    hide SpellsHex, Hex4Value;
  }

  lemma Base16(x: nat, d: nat, u: nat)
    requires d < 16
    ensures 16 * x + d == u <==> x == u / 16 && d == u % 16
  {
  }

  lemma FourDigits(h: string, u: nat)
    requires |h| == 4
    ensures IsHex4(h) && Hex4Value(h) == u <==>
      && IsHexDigit(h[3], u % 16) && IsHexDigit(h[2], u / 16 % 16) && IsHexDigit(h[1], u / 16 / 16 % 16)
      && IsHexDigit(h[0], u / 16 / 16 / 16 % 16) && u / 16 / 16 / 16 / 16 == 0
  {
    HexTable(h[0], u / 16 / 16 / 16 % 16);
    HexTable(h[1], u / 16 / 16 % 16);
    HexTable(h[2], u / 16 % 16);
    HexTable(h[3], u % 16);
    assert IsHex4(h) <==> IsHex(h[0]) && IsHex(h[1]) && IsHex(h[2]) && IsHex(h[3]);
    hide HexVal, IsHexDigit;
    if IsHex4(h) {
      var a, b, c, d := HexVal(h[0]), HexVal(h[1]), HexVal(h[2]), HexVal(h[3]);
      assert Hex4Value(h) == 16 * (16 * (16 * a + b) + c) + d;
      Base16(16 * (16 * a + b) + c, d, u);
      Base16(16 * a + b, c, u / 16);
      Base16(a, b, u / 16 / 16);
      Base16(0, a, u / 16 / 16 / 16);
    }
  }

  lemma SpellsFour(h: string, u: nat)
    requires |h| == 4
    ensures SpellsHex(h, u) <==>
      && IsHexDigit(h[3], u % 16) && IsHexDigit(h[2], u / 16 % 16) && IsHexDigit(h[1], u / 16 / 16 % 16)
      && IsHexDigit(h[0], u / 16 / 16 / 16 % 16) && u / 16 / 16 / 16 / 16 == 0
  {
    hide IsHexDigit;
    assert h[..3][..2] == h[..2] && h[..2][..1] == h[..1] && h[..1][..0] == "";
    assert SpellsHex(h[..1], u / 16 / 16 / 16) <==> IsHexDigit(h[0], u / 16 / 16 / 16 % 16) && u / 16 / 16 / 16 / 16 == 0;
    assert SpellsHex(h[..2], u / 16 / 16) <==> IsHexDigit(h[1], u / 16 / 16 % 16) && SpellsHex(h[..1], u / 16 / 16 / 16);
    assert SpellsHex(h[..3], u / 16) <==> IsHexDigit(h[2], u / 16 % 16) && SpellsHex(h[..2], u / 16 / 16);
  }

  // ----- trees: the renderings of RFC 8259 whose contents are defined

  ghost predicate NoControls(ps: seq<Piece>) {
    forall i :: 0 <= i < |ps| && ps[i].Raw? ==> ps[i].c as int >= 0x20
  }

  /** Every low surrogate follows a high one. */
  ghost predicate LowsPaired(ps: seq<Piece>) {
    forall i :: 0 <= i < |ps| && IsLow(ps[i]) ==> i > 0 && IsHigh(ps[i - 1])
  }

  /** The grammar of section 7, and the surrogates paired that section 8.2 calls for. */
  ghost predicate RfcPieces(ps: seq<Piece>) {
    PiecesOk(ps) && NoControls(ps) && LowsPaired(ps)
  }

  ghost predicate DenotesNumber(tok: string, x: real) {
    exists n :: NumberOk(n) && NumberText(n) == tok && NumberValue(n) == x
  }

  ghost predicate DenotesString(ps: seq<Piece>, s: string) {
    RfcPieces(ps) && PiecesMeaning(ps) == s
  }

  /** `d` is an RFC 8259 rendering of `v`: free whitespace, free choice of escapes and number forms,
      members in any order. */
  ghost predicate RfcRenders(v: Value, d: Doc)
    decreases d
  {
    match d
    case DNull => v == Null
    case DBool(b) => v == Bool(b)
    case DNum(tok) => v.Num? && DenotesNumber(tok, v.n)
    case DStr(ps) => v.Str? && DenotesString(ps, v.s)
    case DArr(pad, items) =>
      && v.Arr? && PadOk(pad, items == []) && |items| == |v.a|
      && forall i :: 0 <= i < |items| ==>
        Blank(items[i].before) && Blank(items[i].after) && RfcRenders(v.a[i], items[i].d)
    case DObj(pad, mems) =>
      && v.Obj? && PadOk(pad, mems == [])
      && (forall i :: 0 <= i < |mems| ==> RfcMember(v, mems[i]))
      && (forall k :: k in v.o ==> HasKey(mems, k))
  }

  ghost predicate HasKey(mems: seq<Mem>, k: string) {
    exists i :: 0 <= i < |mems| && DenotesString(mems[i].key, k)
  }

  ghost predicate RfcMember(v: Value, m: Mem)
    decreases m
  {
    && v.Obj? && Blank(m.beforeKey) && Blank(m.afterKey) && Blank(m.before) && Blank(m.after)
    && RfcPieces(m.key) && PiecesMeaning(m.key) in v.o && RfcRenders(v.o[PiecesMeaning(m.key)], m.d)
  }

  lemma DenotedIsRead(tok: string, x: real)
    requires DenotesNumber(tok, x)
    ensures TokenOk(tok) && TokenValue(tok) == x
  {
    hide StrToD, TokenOk, NumberText, NumberValue;
    var n :| NumberOk(n) && NumberText(n) == tok && NumberValue(n) == x;
    NumberTokenValue(n);
    TokenReads(tok);
  }

  lemma {:induction false} RfcMeaning(v: Value, d: Doc)
    requires RfcRenders(v, d)
    ensures DocOk(d) && Meaning(d) == v
    decreases d, 2
  {
    hide DenotesNumber, TokenOk, TokenValue, PiecesMeaning, LexPieces, Paired, NoControls, LowsPaired;
    match d
    case DNull =>
    case DBool(_) =>
    case DNum(tok) =>
      DenotedIsRead(tok, v.n);
    case DStr(_) =>
    case DArr(_, items) =>
      RfcItems(v.a, items);
    case DObj(_, mems) =>
      RfcMems(v, mems, map[]);
      forall k | k in v.o ensures k in MemsMeaning(mems, map[]) {
        assert HasKey(mems, k);
      }
      assert MemsMeaning(mems, map[]) == v.o;
  }

  lemma {:induction false} RfcItems(a: seq<Value>, items: seq<Item>)
    requires |a| == |items|
    requires forall i :: 0 <= i < |items| ==>
      Blank(items[i].before) && Blank(items[i].after) && RfcRenders(a[i], items[i].d)
    ensures ItemsOk(items) && ItemsMeaning(items) == a
    decreases items, 1
  {
    if items != [] {
      RfcMeaning(a[0], items[0].d);
      RfcItems(a[1..], items[1..]);
      assert forall i :: 0 < i < |items| ==> items[i] == items[1..][i - 1];
      assert ItemOk(items[0]);
      assert a == [a[0]] + a[1..];
    }
  }

  ghost predicate Agrees(acc: map<string, Value>, o: map<string, Value>) {
    forall k :: k in acc ==> k in o && acc[k] == o[k]
  }

  lemma {:induction false} RfcMems(v: Value, mems: seq<Mem>, acc: map<string, Value>)
    requires v.Obj? && Agrees(acc, v.o) && forall i :: 0 <= i < |mems| ==> RfcMember(v, mems[i])
    ensures MemsOk(mems) && Agrees(MemsMeaning(mems, acc), v.o)
    ensures forall k :: k in acc ==> k in MemsMeaning(mems, acc)
    ensures forall i :: 0 <= i < |mems| ==>
      MemOk(mems[i]) && PiecesMeaning(mems[i].key) in MemsMeaning(mems, acc)
    decreases mems, 1
  {
    if mems != [] {
      var m := mems[0];
      assert RfcMember(v, m);
      RfcMeaning(v.o[PiecesMeaning(m.key)], m.d);
      assert MemOk(m);
      assert forall i :: 0 < i < |mems| ==> mems[i] == mems[1..][i - 1];
      RfcMems(v, mems[1..], acc[PiecesMeaning(m.key) := Meaning(m.d)]);
    }
  }

  /** Every RFC 8259 text of a tree, between blanks, parses to that tree. */
  lemma ParseRfcText(v: Value, w: string, d: Doc, z: string)
    requires RfcRenders(v, d) && Blank(w) && Blank(z)
    ensures Parse(w + TextThen(d, z)) == Some(v)
  {
    RfcMeaning(v, d);
    assert RendersAs(w + TextThen(d, z), v, w, d, z);
    ParseExactLanguage(w + TextThen(d, z), v);
  }

  // ----- the printer writes one of them

  ghost function CanonPiece(c: char): Piece {
    if c == '"' || c == '\\' then Short(c)
    else if c == '\U{08}' then Short('b')
    else if c == '\U{0C}' then Short('f')
    else if c == '\n' then Short('n')
    else if c == '\r' then Short('r')
    else if c == '\t' then Short('t')
    else if c as int < 0x20 then Unit("00" + [HexChar(c as int / 16), HexChar(c as int % 16)])
    else Raw(c)
  }

  ghost function CanonPieces(s: string): seq<Piece> {
    if s == "" then [] else [CanonPiece(s[0])] + CanonPieces(s[1..])
  }

  lemma CanonPieceMeaning(c: char)
    ensures
      var p := CanonPiece(c);
      PieceOk(p) && !IsHigh(p) && !IsLow(p) && (p.Raw? ==> p.c as int >= 0x20) && PieceMeaning(p) == [c]
  {
  }

  lemma CanonPieceText(c: char, rest: string)
    ensures PieceThen(CanonPiece(c), rest) == EscapeChar(c) + rest
  {
    hide HexChar;
    if CanonPiece(c).Short? {
      var e := CanonPiece(c).e;
      assert EscapeChar(c) == "\\" + [e];
      RegroupShort(e, rest);
    } else if c as int < 0x20 {
      RegroupUnit([HexChar(c as int / 16), HexChar(c as int % 16)], rest);
    }
  }

  lemma RegroupShort(e: char, rest: string)
    ensures "\\" + ([e] + rest) == ("\\" + [e]) + rest
  {
  }

  lemma RegroupUnit(h: string, rest: string)
    ensures "\\" + ("u" + (("00" + h) + rest)) == ("\\u00" + h) + rest
  {
  }

  lemma {:induction false} CanonPiecesMeaning(s: string)
    ensures DenotesString(CanonPieces(s), s)
  {
    hide CanonPiece, PieceMeaning, PieceOk, IsHigh, IsLow, PiecesMeaning, RfcPieces;
    if s == "" {
      NoRfcPieces();
    } else {
      CanonPieceMeaning(s[0]);
      CanonPiecesMeaning(s[1..]);
      PlainFirst(CanonPiece(s[0]), CanonPieces(s[1..]));
      assert s == [s[0]] + s[1..];
    }
  }

  lemma NoRfcPieces()
    ensures RfcPieces([]) && PiecesMeaning([]) == ""
  {
  }

  /** A piece that is no surrogate in front of others. */
  lemma PlainFirst(p: Piece, ps: seq<Piece>)
    requires PieceOk(p) && !IsHigh(p) && !IsLow(p) && (p.Raw? ==> p.c as int >= 0x20) && RfcPieces(ps)
    ensures RfcPieces([p] + ps) && PiecesMeaning([p] + ps) == PieceMeaning(p) + PiecesMeaning(ps)
  {
    hide PieceMeaning, PieceOk, IsHigh, IsLow;
    var all := [p] + ps;
    assert all[1..] == ps;
    assert forall i :: 0 < i < |all| ==> all[i] == ps[i - 1];
    JoinPlain(p, ps);
  }

  lemma JoinPlain(p: Piece, ps: seq<Piece>)
    requires PieceOk(p) && !IsHigh(p) && PiecesOk(ps)
    ensures PiecesOk([p] + ps)
  {
    OnePieceMeaning(p, "");
    JoinOk([p], ps);
  }

  lemma {:induction false} CanonPiecesText(s: string, rest: string)
    ensures PiecesThen(CanonPieces(s), rest) == EscapeChars(s) + rest
  {
    hide CanonPiece, EscapeChar, PieceThen;
    if s != "" {
      CanonPieceText(s[0], PiecesThen(CanonPieces(s[1..]), rest));
      CanonPiecesText(s[1..], rest);
      assert CanonPieces(s)[1..] == CanonPieces(s[1..]);
      assert EscapeChar(s[0]) + (EscapeChars(s[1..]) + rest) == EscapeChars(s) + rest;
    }
  }

  lemma QuotedIsStr(s: string, rest: string)
    ensures Quoted(s) + rest == StrThen(CanonPieces(s), rest)
  {
    CanonPiecesText(s, "\"" + rest);
    assert EscapeChars(s) + ("\"" + rest) == EscapeChars(s) + "\"" + rest;
  }

  lemma IntDenotes(n: int)
    ensures DenotesNumber(DumpInt(n), n as real)
  {
    var a := if n < 0 then -n else n;
    DecimalRoundTrip(a);
    DecimalLeading(a);
    var r := Number(n < 0, Decimal(a), None, None);
    assert Decimal(a) + "" == Decimal(a);
    assert "" + Decimal(a) == Decimal(a);
    assert NumberOk(r) && NumberText(r) == DumpInt(n);
  }

  ghost function Canon(v: Value): Doc
    requires Printable(v)
    decreases v, 1, 0
  {
    match v
    case Null => DNull
    case Bool(b) => DBool(b)
    case Num(n) => DNum(DumpInt(n.Floor))
    case Str(s) => DStr(CanonPieces(s))
    case Arr(a) => DArr("", CanonItems(a))
    case Obj(o) => DObj("", CanonMems(v, SortedKeys(o.Keys)))
  }

  ghost function CanonItems(a: seq<Value>): (r: seq<Item>)
    requires forall x :: x in a ==> Printable(x)
    ensures |r| == |a|
    decreases a
  {
    if a == [] then [] else [Item("", Canon(a[0]), "")] + CanonItems(a[1..])
  }

  ghost function CanonMem(v: Value, k: string): Mem
    requires v.Obj? && Printable(v) && k in v.o
    decreases v, 0, 0
  {
    Mem("", CanonPieces(k), "", "", Canon(v.o[k]), "")
  }

  ghost function CanonMems(v: Value, keys: seq<string>): (r: seq<Mem>)
    requires v.Obj? && Printable(v) && forall k :: k in keys ==> k in v.o
    ensures |r| == |keys|
    decreases v, 0, |keys| + 1
  {
    if keys == [] then [] else [CanonMem(v, keys[0])] + CanonMems(v, keys[1..])
  }

  lemma {:induction false} CanonRenders(v: Value)
    requires Printable(v)
    ensures RfcRenders(v, Canon(v))
    decreases v, 1, 0
  {
    match v
    case Num(n) => IntDenotes(n.Floor);
    case Str(s) => CanonPiecesMeaning(s);
    case Arr(a) => CanonItemsRender(a);
    case Obj(_) => CanonObjRenders(v);
    case _ =>
  }

  lemma {:induction false} CanonObjRenders(v: Value)
    requires Printable(v) && v.Obj?
    ensures RfcRenders(v, Canon(v))
    decreases v, 0, |v.o| + 1
  {
    hide SortedKeys, CanonMems, RfcMember, DenotesString;
    var keys := SortedKeys(v.o.Keys);
    var mems := CanonMems(v, keys);
    CanonMemsRender(v, keys);
    forall k | k in v.o ensures HasKey(mems, k) {
      var i :| 0 <= i < |keys| && keys[i] == k;
      assert DenotesString(mems[i].key, k);
    }
  }

  lemma {:induction false} CanonItemsRender(a: seq<Value>)
    requires forall x :: x in a ==> Printable(x)
    ensures forall i :: 0 <= i < |a| ==>
      var it := CanonItems(a)[i]; it.before == "" && it.after == "" && RfcRenders(a[i], it.d)
    decreases a
  {
    if a != [] {
      CanonRenders(a[0]);
      CanonItemsRender(a[1..]);
    }
  }

  lemma {:induction false} CanonMemsRender(v: Value, keys: seq<string>)
    requires v.Obj? && Printable(v) && forall k :: k in keys ==> k in v.o
    ensures forall i :: 0 <= i < |keys| ==>
      var m := CanonMems(v, keys)[i]; RfcMember(v, m) && DenotesString(m.key, keys[i])
    decreases v, 0, |keys|
  {
    if keys != [] {
      CanonRenders(v.o[keys[0]]);
      CanonPiecesMeaning(keys[0]);
      CanonMemsRender(v, keys[1..]);
    }
  }

  lemma RegroupFour(x: string, c: string, y: string, z: string)
    ensures x + c + y + z == x + (c + (y + z))
  {
    Regroup(x, c, y);
    Regroup(x, c + y, z);
    Regroup(c, y, z);
  }

  lemma {:induction false} DumpIsText(v: Value, g: RealFormat, rest: string)
    requires Printable(v)
    ensures Dump(v, g) + rest == TextThen(Canon(v), rest)
    decreases v, 1, 0
  {
    match v
    case Str(s) => QuotedIsStr(s, rest);
    case Arr(a) =>
      if a != [] {
        DumpElemsIsText(a, g, rest);
        RegroupFour("[", DumpElems(a, g), "]", rest);
        assert "" + ItemsThen(CanonItems(a), rest) == ItemsThen(CanonItems(a), rest);
      }
    case Obj(o) =>
      var keys := SortedKeys(o.Keys);
      if keys != [] {
        DumpMembersIsText(v, keys, g, rest);
        RegroupFour("{", DumpMembers(v, keys, g), "}", rest);
        assert "" + MemsThen(CanonMems(v, keys), rest) == MemsThen(CanonMems(v, keys), rest);
      }
    case _ =>
  }

  lemma {:induction false} DumpElemsIsText(a: seq<Value>, g: RealFormat, rest: string)
    requires a != [] && forall x :: x in a ==> Printable(x)
    ensures DumpElems(a, g) + ("]" + rest) == ItemsThen(CanonItems(a), rest)
    decreases a
  {
    var items := CanonItems(a);
    var tail := ItemsTail(items, rest);
    DumpIsText(a[0], g, tail);
    assert "" + tail == tail;
    if |a| > 1 {
      DumpElemsIsText(a[1..], g, rest);
      assert items[1..] == CanonItems(a[1..]);
      assert "" + ItemsThen(items[1..], rest) == ItemsThen(items[1..], rest);
      RegroupFour(Dump(a[0], g), ",", DumpElems(a[1..], g), "]" + rest);
    }
  }

  lemma {:induction false} DumpMemberIsText(v: Value, k: string, g: RealFormat, rest: string)
    requires v.Obj? && Printable(v) && k in v.o
    ensures DumpMember(v, k, g) + rest == MemThen(CanonMem(v, k), rest)
    decreases v, 0, 0
  {
    DumpIsText(v.o[k], g, rest);
    var value := Dump(v.o[k], g) + rest;
    QuotedIsStr(k, ":" + value);
    RegroupFour(Quoted(k), ":", Dump(v.o[k], g), rest);
    assert "" + rest == rest && "" + value == value && "" + (":" + value) == ":" + value;
  }

  lemma {:induction false} DumpMembersIsText(v: Value, keys: seq<string>, g: RealFormat, rest: string)
    requires v.Obj? && Printable(v) && keys != [] && forall k :: k in keys ==> k in v.o
    ensures DumpMembers(v, keys, g) + ("}" + rest) == MemsThen(CanonMems(v, keys), rest)
    decreases v, 0, |keys| + 1
  {
    var mems := CanonMems(v, keys);
    var tail := MemsTail(mems, rest);
    DumpMemberIsText(v, keys[0], g, tail);
    if |keys| > 1 {
      DumpMembersIsText(v, keys[1..], g, rest);
      assert mems[1..] == CanonMems(v, keys[1..]);
      assert "" + MemsThen(mems[1..], rest) == MemsThen(mems[1..], rest);
      RegroupFour(DumpMember(v, keys[0], g), ",", DumpMembers(v, keys[1..], g), "}" + rest);
    }
  }

  /** Printing and parsing back returns the tree, whatever prints the other numbers. */
  lemma ParseDump(v: Value, g: RealFormat)
    requires Printable(v)
    ensures Parse(Dump(v, g)) == Some(v)
  {
    hide ParseValue, TextThen, Canon, Dump;
    CanonRenders(v);
    DumpIsText(v, g, "");
    assert Dump(v, g) + "" == Dump(v, g);
    assert "" + TextThen(Canon(v), "") == TextThen(Canon(v), "");
    ParseRfcText(v, "", Canon(v), "");
  }

  /** A printed value can be followed by anything that does not continue a number. */
  lemma ParseDumpThen(v: Value, g: RealFormat, rest: string)
    requires Printable(v) && Closed(rest)
    ensures ParseValue(Dump(v, g) + rest) == Ok(v, rest)
  {
    hide ParseValue, TextThen, Canon, Dump, Meaning;
    CanonRenders(v);
    RfcMeaning(v, Canon(v));
    DumpIsText(v, g, rest);
    ParseRendering("", Canon(v), rest);
    assert "" + TextThen(Canon(v), rest) == TextThen(Canon(v), rest);
  }

  /** A lone low surrogate is accepted as a three-byte sequence, a lone high one is not accepted. */
  lemma LoneSurrogates(h: string)
    requires IsHex4(h)
    ensures IsLowSurrogate(Hex4Value(h)) ==> Parse("\"\\u" + (h + "\"")) == Some(Str(Utf8(Hex4Value(h))))
    ensures IsHighSurrogate(Hex4Value(h)) ==> Parse("\"\\u" + (h + "\"")) == None
  {
    hide Utf8, Hex4Value, ScanNumber, ParseMembers, ParseElems;
    var text := "\"\\u" + (h + "\"");
    assert text[1..][1..][1..] == h + "\"";
    ScanHex4Of(h, "\"");
    assert ScanChars("\"") == Ok("", "");
    assert Utf8(Hex4Value(h)) + "" == Utf8(Hex4Value(h));
  }
}
