/** The language of the parser, as concrete syntax trees. `Text` renders a tree, `Meaning` gives its
    value. The parser accepts exactly the renderings of well-formed trees and returns their meaning;
    RFC 8259 texts and the printer's output are among them. */
module JsonGrammar {
  import opened Common
  import opened JsonValue
  import opened JsonText
  import opened JsonNumber

  /** One source character sequence inside a string. */
  datatype Piece =
    | Raw(c: char)
    | Short(e: char)
    | Unit(h: string)

  datatype Doc =
    | DNull
    | DBool(b: bool)
    | DNum(tok: string)
    | DStr(ps: seq<Piece>)
    | DArr(pad: string, items: seq<Item>)
    | DObj(pad: string, mems: seq<Mem>)

  datatype Item = Item(before: string, d: Doc, after: string)

  datatype Mem = Mem(beforeKey: string, key: seq<Piece>, afterKey: string, before: string, d: Doc, after: string)

  // ----- well-formedness

  ghost predicate Blank(w: string) {
    forall i :: 0 <= i < |w| ==> IsWs(w[i])
  }

  /** The blanks between empty brackets; otherwise blanks belong to the elements. */
  ghost predicate PadOk(pad: string, empty: bool) {
    Blank(pad) && (!empty ==> pad == "")
  }

  ghost predicate PieceOk(p: Piece) {
    match p
    case Raw(c) => c != '"' && c != '\\'
    case Short(e) => SimpleEscape(e).Some?
    case Unit(h) => IsHex4(h)
  }

  ghost predicate IsHigh(p: Piece) {
    p.Unit? && IsHex4(p.h) && IsHighSurrogate(Hex4Value(p.h))
  }

  ghost predicate IsLow(p: Piece) {
    p.Unit? && IsHex4(p.h) && IsLowSurrogate(Hex4Value(p.h))
  }

  /** Every high surrogate is followed at once by a low one. */
  ghost predicate Paired(ps: seq<Piece>) {
    forall i :: 0 <= i < |ps| && IsHigh(ps[i]) ==> i + 1 < |ps| && IsLow(ps[i + 1])
  }

  /** Pieces of any kind, surrogates in any order. */
  ghost predicate LexPieces(ps: seq<Piece>) {
    forall i :: 0 <= i < |ps| ==> PieceOk(ps[i])
  }

  ghost predicate PiecesOk(ps: seq<Piece>) {
    LexPieces(ps) && Paired(ps)
  }

  ghost predicate DocOk(d: Doc) {
    match d
    case DNull => true
    case DBool(_) => true
    case DNum(tok) => TokenOk(tok)
    case DStr(ps) => PiecesOk(ps)
    case DArr(pad, items) => PadOk(pad, items == []) && ItemsOk(items)
    case DObj(pad, mems) => PadOk(pad, mems == []) && MemsOk(mems)
  }

  ghost predicate ItemsOk(items: seq<Item>) {
    forall i :: 0 <= i < |items| ==> ItemOk(items[i])
  }

  ghost predicate MemsOk(mems: seq<Mem>) {
    forall i :: 0 <= i < |mems| ==> MemOk(mems[i])
  }

  ghost predicate ItemOk(it: Item) {
    Blank(it.before) && Blank(it.after) && DocOk(it.d)
  }

  ghost predicate MemOk(m: Mem) {
    && Blank(m.beforeKey) && Blank(m.afterKey) && Blank(m.before) && Blank(m.after)
    && PiecesOk(m.key) && DocOk(m.d)
  }

  // ----- rendering, followed by `rest`

  function PieceThen(p: Piece, rest: string): string {
    match p
    case Raw(c) => [c] + rest
    case Short(e) => "\\" + ([e] + rest)
    case Unit(h) => "\\" + ("u" + (h + rest))
  }

  function PiecesThen(ps: seq<Piece>, rest: string): string {
    if ps == [] then rest else PieceThen(ps[0], PiecesThen(ps[1..], rest))
  }

  function StrThen(ps: seq<Piece>, rest: string): string {
    "\"" + PiecesThen(ps, "\"" + rest)
  }

  function TextThen(d: Doc, rest: string): string
    decreases d
  {
    match d
    case DNull => "null" + rest
    case DBool(b) => if b then "true" + rest else "false" + rest
    case DNum(tok) => tok + rest
    case DStr(ps) => StrThen(ps, rest)
    case DArr(pad, items) => "[" + (if items == [] then pad + ("]" + rest) else items[0].before + ItemsThen(items, rest))
    case DObj(pad, mems) => "{" + (if mems == [] then pad + ("}" + rest) else mems[0].beforeKey + MemsThen(mems, rest))
  }

  /** The elements without the blanks before the first one, and the closing bracket. */
  function ItemsThen(items: seq<Item>, rest: string): string
    requires items != []
    decreases items
  {
    TextThen(items[0].d, items[0].after + ItemsTail(items, rest))
  }

  function ItemsTail(items: seq<Item>, rest: string): string
    requires items != []
    decreases items, 0
  {
    if |items| == 1 then "]" + rest else "," + (items[1].before + ItemsThen(items[1..], rest))
  }

  /** The members without the blanks before the first one, and the closing brace. */
  function MemsThen(mems: seq<Mem>, rest: string): string
    requires mems != []
    decreases mems
  {
    MemThen(mems[0], MemsTail(mems, rest))
  }

  function MemThen(m: Mem, rest: string): string
    decreases m
  {
    StrThen(m.key, m.afterKey + (":" + (m.before + TextThen(m.d, m.after + rest))))
  }

  function MemsTail(mems: seq<Mem>, rest: string): string
    requires mems != []
    decreases mems, 0
  {
    if |mems| == 1 then "}" + rest else "," + (mems[1].beforeKey + MemsThen(mems[1..], rest))
  }

  // ----- meaning

  ghost function PieceMeaning(p: Piece): string
    requires PieceOk(p)
  {
    match p
    case Raw(c) => [c]
    case Short(e) => [SimpleEscape(e).value]
    case Unit(h) => Utf8(Hex4Value(h))
  }

  ghost function PairMeaning(p: Piece, q: Piece): string
    requires IsHigh(p) && IsLow(q)
  {
    Utf8(SurrogatePair(Hex4Value(p.h), Hex4Value(q.h)))
  }

  ghost function PiecesMeaning(ps: seq<Piece>): string
    requires PiecesOk(ps)
    decreases |ps|
  {
    if ps == [] then ""
    else if IsHigh(ps[0]) then PairMeaning(ps[0], ps[1]) + PiecesMeaning(ps[2..])
    else PieceMeaning(ps[0]) + PiecesMeaning(ps[1..])
  }

  ghost function Meaning(d: Doc): Value
    requires DocOk(d)
    decreases d
  {
    match d
    case DNull => Null
    case DBool(b) => Bool(b)
    case DNum(tok) => Num(TokenValue(tok))
    case DStr(ps) => Str(PiecesMeaning(ps))
    case DArr(_, items) => Arr(ItemsMeaning(items))
    case DObj(_, mems) => Obj(MemsMeaning(mems, map[]))
  }

  ghost function ItemsMeaning(items: seq<Item>): (r: seq<Value>)
    requires ItemsOk(items)
    ensures |r| == |items|
    decreases items
  {
    if items == [] then []
    else
      assert ItemOk(items[0]);
      [Meaning(items[0].d)] + ItemsMeaning(items[1..])
  }

  /** Members read left to right into a map, the last of equal keys winning. */
  ghost function MemsMeaning(mems: seq<Mem>, acc: map<string, Value>): map<string, Value>
    requires MemsOk(mems)
    decreases mems
  {
    if mems == [] then acc
    else
      assert MemOk(mems[0]);
      MemsMeaning(mems[1..], acc[PiecesMeaning(mems[0].key) := Meaning(mems[0].d)])
  }

  // ----- every rendering parses to its meaning

  /** What may follow a value: a number must not run on. */
  ghost predicate Closed(rest: string) {
    rest != "" ==> !IsNumChar(rest[0])
  }

  lemma {:induction false} SkipBlank(w: string, s: string)
    requires Blank(w)
    ensures SkipWs(w + s) == SkipWs(s)
  {
    if w == "" {
      assert w + s == s;
    } else {
      assert (w + s)[1..] == w[1..] + s;
      SkipBlank(w[1..], s);
    }
  }

  /** Blanks before a character that is not one. */
  lemma SkipTo(w: string, s: string)
    requires Blank(w) && s != "" && !IsWs(s[0])
    ensures SkipWs(w + s) == s
  {
    SkipBlank(w, s);
  }

  lemma ScanHex4Of(h: string, rest: string)
    requires IsHex4(h)
    ensures ScanHex4(h + rest) == Ok(Hex4Value(h), rest)
  {
    assert (h + rest)[..4] == h;
  }

  lemma ScanPiece(p: Piece, rest: string)
    requires PieceOk(p) && !p.Raw? && !IsHigh(p)
    ensures Starts(PieceThen(p, rest), '\\')
    ensures ScanEscape(PieceThen(p, rest)[1..]) == Ok(PieceMeaning(p), rest)
  {
    hide Utf8, Hex4Value, ScanUnicode, SurrogatePair;
    match p
    case Raw(_) =>
    case Short(e) =>
    case Unit(h) => ScanUnit(h, rest);
  }

  lemma ScanUnit(h: string, rest: string)
    requires PieceOk(Unit(h)) && !IsHigh(Unit(h))
    ensures ScanUnicode(h + rest) == Ok(Utf8(Hex4Value(h)), rest)
  {
    hide Utf8, Hex4Value, ScanHex4;
    ScanHex4Of(h, rest);
  }

  lemma ScanPair(p: Piece, q: Piece, rest: string)
    requires IsHigh(p) && IsLow(q)
    ensures Starts(PieceThen(p, PieceThen(q, rest)), '\\')
    ensures ScanEscape(PieceThen(p, PieceThen(q, rest))[1..]) == Ok(PairMeaning(p, q), rest)
  {
    hide Utf8, Hex4Value, ScanHex4, SurrogatePair;
    var tail := PieceThen(q, rest);
    assert PieceThen(p, tail)[1..][1..] == p.h + tail;
    ScanHex4Of(p.h, tail);
    assert tail[2..] == q.h + rest;
    ScanHex4Of(q.h, rest);
  }

  lemma {:induction false} ScanPieces(ps: seq<Piece>, rest: string)
    requires PiecesOk(ps)
    ensures ScanChars(PiecesThen(ps, "\"" + rest)) == Ok(PiecesMeaning(ps), rest)
    decreases |ps|
  {
    hide ScanEscape;
    if ps == [] {
      assert ("\"" + rest)[1..] == rest;
    } else if IsHigh(ps[0]) {
      assert ps[1..][1..] == ps[2..];
      ScanPieces(ps[2..], rest);
      ScanPair(ps[0], ps[1], PiecesThen(ps[2..], "\"" + rest));
    } else {
      var tail := PiecesThen(ps[1..], "\"" + rest);
      ScanPieces(ps[1..], rest);
      if ps[0].Raw? {
        assert PieceThen(ps[0], tail)[1..] == tail;
      } else {
        ScanPiece(ps[0], tail);
      }
    }
  }

  lemma ScanStrOf(ps: seq<Piece>, rest: string)
    requires PiecesOk(ps)
    ensures ScanStr(StrThen(ps, rest)) == Ok(PiecesMeaning(ps), rest)
  {
    hide ScanChars, PiecesMeaning;
    ScanPieces(ps, rest);
  }

  lemma {:induction false} NumSpanOf(tok: string, rest: string)
    requires (forall i :: 0 <= i < |tok| ==> IsNumChar(tok[i])) && Closed(rest)
    ensures NumSpan(tok + rest) == |tok|
  {
    if tok == "" {
      assert tok + rest == rest;
    } else {
      assert (tok + rest)[1..] == tok[1..] + rest;
      NumSpanOf(tok[1..], rest);
    }
  }

  /** The head of a rendering selects the parser's branch. */
  lemma TextHead(d: Doc, rest: string)
    requires d.DNum? ==> TokenOk(d.tok)
    ensures var t := TextThen(d, rest); t != "" && !IsWs(t[0]) && t[0] != ']' && t[0] != '}'
  {
    hide StrToD, TokenOk;
    if d.DNum? {
      TokenReads(d.tok);
    }
  }

  lemma OkHead(d: Doc, rest: string)
    requires DocOk(d)
    ensures var t := TextThen(d, rest); t != "" && !IsWs(t[0]) && t[0] != ']' && t[0] != '}'
  {
    hide TokenOk;
    TextHead(d, rest);
  }

  lemma {:induction false} ParseRendering(w: string, d: Doc, rest: string)
    requires Blank(w) && DocOk(d) && (d.DNum? ==> Closed(rest))
    ensures ParseValue(w + TextThen(d, rest)) == Ok(Meaning(d), rest)
    decreases d, 3
  {
    hide ParseValue, Meaning, TextThen;
    OkHead(d, rest);
    ParsePadded(w, TextThen(d, rest));
    if d.DArr? {
      ParseArray(d, rest);
    } else if d.DObj? {
      ParseObject(d, rest);
    } else {
      ParseLeaf(d, rest);
    }
  }

  /** Leading blanks change nothing. */
  lemma ParsePadded(w: string, t: string)
    requires Blank(w) && t != "" && !IsWs(t[0])
    ensures ParseValue(w + t) == ParseValue(t)
  {
    hide ScanNumber, ScanStr, ParseMembers, ParseElems;
    SkipTo(w, t);
  }

  lemma ParseLeaf(d: Doc, rest: string)
    requires DocOk(d) && !d.DArr? && !d.DObj? && (d.DNum? ==> Closed(rest))
    ensures ParseValue(TextThen(d, rest)) == Ok(Meaning(d), rest)
  {
    hide ScanStr, StrToD, ParseMembers, ParseElems, PiecesMeaning, TokenOk, TokenValue;
    match d
    case DNull =>
    case DBool(b) =>
    case DNum(tok) =>
      TokenReads(tok);
      NumSpanOf(tok, rest);
      assert (tok + rest)[..|tok|] == tok;
    case DStr(ps) =>
      ScanStrOf(ps, rest);
  }

  lemma {:induction false} ParseArray(d: Doc, rest: string)
    requires DocOk(d) && d.DArr?
    ensures ParseValue(TextThen(d, rest)) == Ok(Meaning(d), rest)
    decreases d, 2
  {
    hide ScanNumber, ScanStr, ParseMembers, ParseElems;
    if d.items == [] {
      SkipTo(d.pad, "]" + rest);
    } else {
      var it := d.items[0];
      assert ItemOk(it);
      OkHead(it.d, it.after + ItemsTail(d.items, rest));
      SkipTo(it.before, ItemsThen(d.items, rest));
      ParseItems(d.items, "", rest, []);
      assert "" + ItemsThen(d.items, rest) == ItemsThen(d.items, rest);
      assert [] + ItemsMeaning(d.items) == ItemsMeaning(d.items);
    }
  }

  lemma {:induction false} ParseItems(items: seq<Item>, w: string, rest: string, acc: seq<Value>)
    requires items != [] && ItemsOk(items) && Blank(w)
    ensures ParseElems(w + ItemsThen(items, rest), acc) == Ok(Arr(acc + ItemsMeaning(items)), rest)
    decreases items, 4
  {
    hide ParseValue, ParseMembers;
    var it, tail := items[0], ItemsTail(items, rest);
    assert ItemOk(it);
    ParseRendering(w, it.d, it.after + tail);
    SkipTo(it.after, tail);
    var acc' := acc + [Meaning(it.d)];
    if |items| == 1 {
      assert ItemsMeaning(items) == [Meaning(it.d)];
    } else {
      assert ItemOk(items[1]);
      ParseItems(items[1..], items[1].before, rest, acc');
      assert acc' + ItemsMeaning(items[1..]) == acc + ItemsMeaning(items);
    }
  }

  lemma {:induction false} ParseObject(d: Doc, rest: string)
    requires DocOk(d) && d.DObj?
    ensures ParseValue(TextThen(d, rest)) == Ok(Meaning(d), rest)
    decreases d, 2
  {
    hide ScanNumber, ScanStr, ParseMembers, ParseElems;
    if d.mems == [] {
      SkipTo(d.pad, "}" + rest);
    } else {
      assert MemOk(d.mems[0]);
      assert Starts(MemThen(d.mems[0], MemsTail(d.mems, rest)), '"');
      SkipTo(d.mems[0].beforeKey, MemsThen(d.mems, rest));
      ParseMems(d.mems, "", rest, map[]);
      assert "" + MemsThen(d.mems, rest) == MemsThen(d.mems, rest);
    }
  }

  lemma {:induction false} ParseMem(w: string, m: Mem, rest: string)
    requires Blank(w) && MemOk(m) && Closed(m.after + rest)
    ensures ScanField(w + MemThen(m, rest)) == Ok(Field(PiecesMeaning(m.key), Meaning(m.d)), m.after + rest)
    decreases m, 4
  {
    hide ParseValue, ScanStr;
    var colon := ":" + (m.before + TextThen(m.d, m.after + rest));
    SkipTo(w, MemThen(m, rest));
    ScanStrOf(m.key, m.afterKey + colon);
    SkipTo(m.afterKey, colon);
    ParseRendering(m.before, m.d, m.after + rest);
  }

  lemma {:induction false} ParseMems(mems: seq<Mem>, w: string, rest: string, acc: map<string, Value>)
    requires mems != [] && MemsOk(mems) && Blank(w)
    ensures ParseMembers(w + MemsThen(mems, rest), acc) == Ok(Obj(MemsMeaning(mems, acc)), rest)
    decreases mems, 4
  {
    hide ScanField, MemThen;
    var m, tail := mems[0], MemsTail(mems, rest);
    assert MemOk(m);
    ParseMem(w, m, tail);
    SkipTo(m.after, tail);
    if |mems| > 1 {
      assert MemOk(mems[1]);
      ParseMems(mems[1..], mems[1].beforeKey, rest, acc[PiecesMeaning(m.key) := Meaning(m.d)]);
    }
  }
}
