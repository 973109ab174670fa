/** The other half of the parser's language: whatever it accepts is a rendering of a well-formed
    syntax tree, and the value it returns is that tree's meaning. */
module JsonSound {
  import opened Common
  import opened JsonValue
  import opened JsonText
  import opened JsonNumber
  import opened JsonGrammar

  lemma {:induction false} SkippedIsBlank(s: string) returns (w: string)
    ensures Blank(w) && s == w + SkipWs(s)
  {
    if s != "" && IsWs(s[0]) {
      var v := SkippedIsBlank(s[1..]);
      w := [s[0]] + v;
      assert s == [s[0]] + s[1..];
    } else {
      w := "";
    }
  }

  /** Strings in front of one another. */
  lemma JoinOk(a: seq<Piece>, b: seq<Piece>)
    requires PiecesOk(a) && PiecesOk(b)
    ensures PiecesOk(a + b)
  {
    hide IsHigh, IsLow, PieceOk;
    var ab := a + b;
    forall i | 0 <= i < |ab| && IsHigh(ab[i]) ensures i + 1 < |ab| && IsLow(ab[i + 1]) {
      if i < |a| {
        assert ab[i] == a[i] && ab[i + 1] == a[i + 1];
      } else {
        assert ab[i] == b[i - |a|] && ab[i + 1] == b[i + 1 - |a|];
      }
    }
  }

  lemma {:induction false} JoinThen(a: seq<Piece>, b: seq<Piece>, rest: string)
    ensures PiecesThen(a + b, rest) == PiecesThen(a, PiecesThen(b, rest))
  {
    hide PieceThen;
    if a == [] {
      assert a + b == b;
    } else {
      assert (a + b)[1..] == a[1..] + b;
      JoinThen(a[1..], b, rest);
    }
  }

  /** What is left of a string after its first character, and that character. */
  ghost function FirstMeaning(ps: seq<Piece>): string
    requires PiecesOk(ps) && ps != []
  {
    if IsHigh(ps[0]) then PairMeaning(ps[0], ps[1]) else PieceMeaning(ps[0])
  }

  ghost function AfterFirst(ps: seq<Piece>): (r: seq<Piece>)
    requires PiecesOk(ps) && ps != []
    ensures PiecesOk(r) && |r| < |ps| && PiecesMeaning(ps) == FirstMeaning(ps) + PiecesMeaning(r)
  {
    if IsHigh(ps[0]) then ps[2..] else ps[1..]
  }

  lemma JoinFirst(a: seq<Piece>, b: seq<Piece>)
    requires PiecesOk(a) && PiecesOk(b) && PiecesOk(a + b) && a != []
    ensures FirstMeaning(a + b) == FirstMeaning(a) && AfterFirst(a + b) == AfterFirst(a) + b
  {
    hide PieceMeaning, PairMeaning, IsLow, PieceOk, PiecesMeaning;
    assert (a + b)[0] == a[0];
    if IsHigh(a[0]) {
      assert (a + b)[1] == a[1] && (a + b)[2..] == a[2..] + b;
    } else {
      assert (a + b)[1..] == a[1..] + b;
    }
  }

  lemma {:induction false} JoinMeaning(a: seq<Piece>, b: seq<Piece>)
    requires PiecesOk(a) && PiecesOk(b)
    ensures PiecesOk(a + b) && PiecesMeaning(a + b) == PiecesMeaning(a) + PiecesMeaning(b)
    decreases |a|
  {
    hide PiecesOk, FirstMeaning, AfterFirst;
    JoinOk(a, b);
    if a == [] {
      assert a + b == b;
    } else {
      hide PiecesMeaning;
      JoinFirst(a, b);
      JoinMeaning(AfterFirst(a), b);
      Regroup(FirstMeaning(a), PiecesMeaning(AfterFirst(a)), PiecesMeaning(b));
    }
  }

  lemma OnePieceMeaning(p: Piece, rest: string)
    requires PieceOk(p) && !IsHigh(p)
    ensures PiecesOk([p]) && PiecesMeaning([p]) == PieceMeaning(p) && PiecesThen([p], rest) == PieceThen(p, rest)
  {
    hide PieceMeaning, PieceThen;
    assert [p][1..] == [] && PieceMeaning(p) + "" == PieceMeaning(p);
  }

  lemma PairPieces(p: Piece, q: Piece, rest: string)
    requires IsHigh(p) && IsLow(q)
    ensures PiecesOk([p, q]) && PiecesMeaning([p, q]) == PairMeaning(p, q)
    ensures PiecesThen([p, q], rest) == PieceThen(p, PieceThen(q, rest))
  {
    hide PairMeaning, PieceThen, Hex4Value;
    assert [p, q][2..] == [] && [p, q][1..] == [q] && [q][1..] == [] && PairMeaning(p, q) + "" == PairMeaning(p, q);
    assert PiecesThen([q], rest) == PieceThen(q, PiecesThen([], rest));
  }

  lemma EscapeIsPieces(s: string) returns (ps: seq<Piece>)
    requires ScanEscape(s).Ok?
    ensures PiecesOk(ps)
    ensures "\\" + s == PiecesThen(ps, ScanEscape(s).rest)
    ensures PiecesMeaning(ps) == ScanEscape(s).value
  {
    hide Utf8, Hex4Value, SurrogatePair, ScanUnicode;
    assert s == [s[0]] + s[1..];
    if SimpleEscape(s[0]).Some? {
      ps := [Short(s[0])];
      OnePieceMeaning(ps[0], ScanEscape(s).rest);
    } else {
      ps := UnicodeIsPieces(s[1..]);
    }
  }

  lemma UnicodeIsPieces(s: string) returns (ps: seq<Piece>)
    requires ScanUnicode(s).Ok?
    ensures PiecesOk(ps)
    ensures "\\" + ("u" + s) == PiecesThen(ps, ScanUnicode(s).rest)
    ensures PiecesMeaning(ps) == ScanUnicode(s).value
  {
    hide Utf8, Hex4Value, SurrogatePair;
    var u, rest := ScanHex4(s), ScanUnicode(s).rest;
    var h := s[..4];
    assert s == h + u.rest;
    if IsHighSurrogate(u.value) {
      var l := u.rest[2..][..4];
      ps := [Unit(h), Unit(l)];
      assert u.rest == "\\" + ("u" + (l + rest));
      PairPieces(Unit(h), Unit(l), rest);
    } else {
      ps := [Unit(h)];
      OnePieceMeaning(Unit(h), rest);
    }
  }

  lemma {:induction false} CharsArePieces(s: string) returns (ps: seq<Piece>)
    requires ScanChars(s).Ok?
    ensures PiecesOk(ps)
    ensures s == PiecesThen(ps, "\"" + ScanChars(s).rest)
    ensures PiecesMeaning(ps) == ScanChars(s).value
    decreases |s|
  {
    hide ScanEscape, PiecesOk;
    assert s == [s[0]] + s[1..];
    var end := "\"" + ScanChars(s).rest;
    if s[0] == '"' {
      ps := [];
      assert PiecesOk(ps) by { NoPieces(); }
    } else if s[0] == '\\' {
      var first := EscapeIsPieces(s[1..]);
      var qs := CharsArePieces(ScanEscape(s[1..]).rest);
      ps := first + qs;
      JoinThen(first, qs, end);
      JoinMeaning(first, qs);
    } else {
      var qs := CharsArePieces(s[1..]);
      ps := [Raw(s[0])] + qs;
      OnePieceMeaning(Raw(s[0]), PiecesThen(qs, end));
      JoinThen([Raw(s[0])], qs, end);
      JoinMeaning([Raw(s[0])], qs);
    }
  }

  lemma NoPieces()
    ensures PiecesOk([])
  {
  }

  /** The same elements with other blanks before the first. */
  lemma WithBlanks(items: seq<Item>, w: string, rest: string) returns (all: seq<Item>)
    requires items != [] && ItemsOk(items) && Blank(w)
    ensures all != [] && ItemsOk(all) && all[0].before == w
    ensures ItemsThen(all, rest) == ItemsThen(items, rest) && ItemsMeaning(all) == ItemsMeaning(items)
  {
    var first := items[0].(before := w);
    assert ItemOk(items[0]) && ItemOk(first);
    all := [first] + items[1..];
    assert all[1..] == items[1..];
    assert ItemsTail(all, rest) == ItemsTail(items, rest);
  }

  lemma WithKeyBlanks(mems: seq<Mem>, w: string, acc: map<string, Value>, rest: string) returns (all: seq<Mem>)
    requires mems != [] && MemsOk(mems) && Blank(w)
    ensures all != [] && MemsOk(all) && all[0].beforeKey == w
    ensures MemsThen(all, rest) == MemsThen(mems, rest) && MemsMeaning(all, acc) == MemsMeaning(mems, acc)
  {
    var first := mems[0].(beforeKey := w);
    assert MemOk(mems[0]) && MemOk(first);
    all := [first] + mems[1..];
    assert all[1..] == mems[1..];
    assert MemsTail(all, rest) == MemsTail(mems, rest);
    assert MemThen(first, MemsTail(all, rest)) == MemThen(mems[0], MemsTail(mems, rest));
  }

  /** Every accepted text is blanks and the rendering of a tree that means what was returned. */
  lemma {:induction false} AcceptedIsRendering(s: string) returns (w: string, d: Doc)
    requires ParseValue(s).Ok?
    ensures Blank(w) && DocOk(d) && (d.DNum? ==> Closed(ParseValue(s).rest))
    ensures s == w + TextThen(d, ParseValue(s).rest)
    ensures Meaning(d) == ParseValue(s).value
    decreases |s|, 3
  {
    hide ScanNumber, ScanStr, ParseMembers, ParseElems, TextThen, Meaning;
    w := SkippedIsBlank(s);
    var t := SkipWs(s);
    if t[0] == '{' {
      d := ObjectIsRendering(s);
    } else if t[0] == '[' {
      d := ArrayIsRendering(s);
    } else {
      d := LeafIsRendering(s);
    }
  }

  lemma LeafIsRendering(s: string) returns (d: Doc)
    requires ParseValue(s).Ok? && !Starts(SkipWs(s), '{') && !Starts(SkipWs(s), '[')
    ensures DocOk(d) && (d.DNum? ==> Closed(ParseValue(s).rest))
    ensures SkipWs(s) == TextThen(d, ParseValue(s).rest)
    ensures Meaning(d) == ParseValue(s).value
  {
    hide ScanChars, StrToD, ParseMembers, ParseElems, PiecesMeaning, TokenOk, TokenValue;
    var t := SkipWs(s);
    if t[0] == '"' {
      var ps := CharsArePieces(t[1..]);
      d := DStr(ps);
      assert t == "\"" + t[1..];
    } else if t[0] == 't' || t[0] == 'f' {
      d := DBool(t[0] == 't');
    } else if t[0] == 'n' {
      d := DNull;
    } else {
      TokenReads(t[..NumSpan(t)]);
      d := DNum(t[..NumSpan(t)]);
    }
  }

  lemma {:induction false} ArrayIsRendering(s: string) returns (d: Doc)
    requires ParseValue(s).Ok? && Starts(SkipWs(s), '[')
    ensures DocOk(d) && !d.DNum?
    ensures SkipWs(s) == TextThen(d, ParseValue(s).rest)
    ensures Meaning(d) == ParseValue(s).value
    decreases |s|, 2
  {
    hide ScanNumber, ScanStr, ParseMembers, ParseElems;
    var t := SkipWs(s);
    assert t == "[" + t[1..];
    var u := SkipWs(t[1..]);
    if Starts(u, ']') {
      var pad := SkippedIsBlank(t[1..]);
      d := DArr(pad, []);
      assert u == "]" + u[1..];
    } else {
      d := ElemsAreArray(t[1..]);
    }
  }

  lemma {:induction false} ElemsAreArray(t: string) returns (d: Doc)
    requires ParseElems(SkipWs(t), []).Ok?
    ensures DocOk(d) && !d.DNum?
    ensures "[" + t == TextThen(d, ParseElems(SkipWs(t), []).rest)
    ensures Meaning(d) == ParseElems(SkipWs(t), []).value
    decreases |t|, 5
  {
    hide ParseElems, ItemsThen, ItemsMeaning;
    var rest := ParseElems(SkipWs(t), []).rest;
    var pad := SkippedIsBlank(t);
    var w, items := ElemsAreItems(SkipWs(t), []);
    var all := WithBlanks(items, pad + w, rest);
    d := DArr("", all);
    Regroup(pad, w, ItemsThen(items, rest));
    assert [] + ItemsMeaning(items) == ItemsMeaning(items);
  }

  /** An element put in front of others. */
  lemma ConsItem(it: Item, w: string, tail: seq<Item>, rest: string) returns (items: seq<Item>)
    requires ItemOk(it) && Blank(w) && tail != [] && ItemsOk(tail)
    ensures items != [] && ItemsOk(items)
    ensures ItemsThen(items, rest) == TextThen(it.d, it.after + ("," + (w + ItemsThen(tail, rest))))
    ensures ItemsMeaning(items) == [Meaning(it.d)] + ItemsMeaning(tail)
  {
    hide TextThen, Meaning, DocOk;
    var tail' := WithBlanks(tail, w, rest);
    items := [it] + tail';
    assert items[1..] == tail';
  }

  lemma {:induction false} ElemsAreItems(s: string, acc: seq<Value>) returns (w: string, items: seq<Item>)
    requires ParseElems(s, acc).Ok?
    ensures items != [] && ItemsOk(items) && Blank(w)
    ensures s == w + ItemsThen(items, ParseElems(s, acc).rest)
    ensures ParseElems(s, acc).value == Arr(acc + ItemsMeaning(items))
    decreases |s|, 4
  {
    hide ParseValue, TextThen, Meaning, DocOk;
    var r, v := ParseElems(s, acc), ParseValue(s);
    var d;
    w, d := AcceptedIsRendering(s);
    var after := SkippedIsBlank(v.rest);
    var t := SkipWs(v.rest);
    assert t == [t[0]] + t[1..];
    var it := Item("", d, after);
    if t[0] == ',' {
      var w', tail := ElemsAreItems(t[1..], acc + [v.value]);
      items := ConsItem(it, w', tail, r.rest);
      Regroup(acc, [v.value], ItemsMeaning(tail));
    } else {
      items := [it];
      assert items[1..] == [];
      assert ItemsMeaning(items) == [v.value];
    }
  }

  lemma {:induction false} ObjectIsRendering(s: string) returns (d: Doc)
    requires ParseValue(s).Ok? && Starts(SkipWs(s), '{')
    ensures DocOk(d) && !d.DNum?
    ensures SkipWs(s) == TextThen(d, ParseValue(s).rest)
    ensures Meaning(d) == ParseValue(s).value
    decreases |s|, 2
  {
    hide ScanNumber, ScanStr, ParseMembers, ParseElems;
    var t := SkipWs(s);
    assert t == "{" + t[1..];
    var u := SkipWs(t[1..]);
    if Starts(u, '}') {
      var pad := SkippedIsBlank(t[1..]);
      d := DObj(pad, []);
      assert u == "}" + u[1..];
    } else {
      d := MembersAreObject(t[1..]);
    }
  }

  lemma {:induction false} MembersAreObject(t: string) returns (d: Doc)
    requires ParseMembers(SkipWs(t), map[]).Ok?
    ensures DocOk(d) && !d.DNum?
    ensures "{" + t == TextThen(d, ParseMembers(SkipWs(t), map[]).rest)
    ensures Meaning(d) == ParseMembers(SkipWs(t), map[]).value
    decreases |t|, 6
  {
    hide ParseMembers;
    var rest := ParseMembers(SkipWs(t), map[]).rest;
    var pad := SkippedIsBlank(t);
    var w, mems := MembersAreMems(SkipWs(t), map[]);
    var all := WithKeyBlanks(mems, pad + w, map[], rest);
    d := DObj("", all);
    Regroup(pad, w, MemsThen(mems, rest));
  }

  lemma {:induction false} FieldIsMem(s: string) returns (w: string, m: Mem)
    requires ScanField(s).Ok?
    ensures Blank(w) && MemOk(m)
    ensures s == w + MemThen(m, SkipWs(ScanField(s).rest))
    ensures ScanField(s).value == Field(PiecesMeaning(m.key), Meaning(m.d))
    decreases |s|, 4
  {
    hide ParseValue, ScanChars, Meaning, TextThen, DocOk;
    w := SkippedIsBlank(s);
    var t := SkipWs(s);
    assert t == "\"" + t[1..];
    var ps := CharsArePieces(t[1..]);
    var k := ScanStr(t);
    var afterKey := SkippedIsBlank(k.rest);
    var c := SkipWs(k.rest);
    assert c == ":" + c[1..];
    var before, d := AcceptedIsRendering(c[1..]);
    var after := SkippedIsBlank(ParseValue(c[1..]).rest);
    m := Mem("", ps, afterKey, before, d, after);
  }

  /** A member put in front of others. */
  lemma ConsMem(m: Mem, w: string, tail: seq<Mem>, acc: map<string, Value>, rest: string) returns (mems: seq<Mem>)
    requires MemOk(m) && Blank(w) && tail != [] && MemsOk(tail)
    ensures mems != [] && MemsOk(mems)
    ensures MemsThen(mems, rest) == MemThen(m, "," + (w + MemsThen(tail, rest)))
    ensures MemsMeaning(mems, acc) == MemsMeaning(tail, acc[PiecesMeaning(m.key) := Meaning(m.d)])
  {
    hide Meaning, DocOk, MemThen;
    var acc' := acc[PiecesMeaning(m.key) := Meaning(m.d)];
    var tail' := WithKeyBlanks(tail, w, acc', rest);
    mems := [m] + tail';
    assert mems[1..] == tail';
  }

  lemma {:induction false} MembersAreMems(s: string, acc: map<string, Value>) returns (w: string, mems: seq<Mem>)
    requires ParseMembers(s, acc).Ok?
    ensures mems != [] && MemsOk(mems) && Blank(w)
    ensures s == w + MemsThen(mems, ParseMembers(s, acc).rest)
    ensures ParseMembers(s, acc).value == Obj(MemsMeaning(mems, acc))
    decreases |s|, 5
  {
    hide ScanField, MemThen, Meaning, DocOk;
    var m;
    w, m := FieldIsMem(s);
    var t := SkipWs(ScanField(s).rest);
    assert t == [t[0]] + t[1..];
    var acc' := acc[PiecesMeaning(m.key) := Meaning(m.d)];
    if t[0] == ',' {
      var w', tail := MembersAreMems(t[1..], acc');
      mems := ConsMem(m, w', tail, acc, ParseMembers(s, acc).rest);
    } else {
      mems := [m];
      assert mems[1..] == [];
    }
  }

  /** The language of `Parse`, both ways: a text is accepted with a value exactly when it is a
      rendering, between blanks, of a well-formed tree with that meaning. */
  ghost predicate Renders(text: string, v: Value) {
    exists w, d, z :: RendersAs(text, v, w, d, z)
  }

  ghost predicate RendersAs(text: string, v: Value, w: string, d: Doc, z: string) {
    Blank(w) && Blank(z) && DocOk(d) && Meaning(d) == v && text == w + TextThen(d, z)
  }

  lemma ParseExactLanguage(text: string, v: Value)
    ensures Parse(text) == Some(v) <==> Renders(text, v)
  {
    hide ParseValue, TextThen, Meaning, DocOk;
    if Parse(text) == Some(v) {
      var w, d := AcceptedIsRendering(text);
      var z := SkippedIsBlank(ParseValue(text).rest);
      assert z + "" == z;
      assert RendersAs(text, v, w, d, z);
    }
    if Renders(text, v) {
      var w, d, z :| RendersAs(text, v, w, d, z);
      ParseRendering(w, d, z);
      SkipBlank(z, "");
      assert z + "" == z;
    }
  }
}
