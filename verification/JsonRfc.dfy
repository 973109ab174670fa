/** The parser's language against RFC 8259: exactly which accepted texts conform to its grammar, which
    conforming texts are accepted, and which accepted texts have contents that the RFC defines. */
module JsonRfc {
  import opened Common
  import opened JsonValue
  import opened JsonText
  import opened JsonNumber
  import opened JsonGrammar
  import opened JsonSound
  import opened JsonRoundTrip
  import opened JsonUnique

  // ----- characters

  const ESCAPES: string := "\"\\/bfnrt"
  const ESCAPED: seq<int> := [0x22, 0x5c, 0x2f, 0x08, 0x0c, 0x0a, 0x0d, 0x09]

  /** The blanks of section 2, the short escapes of section 7, and the characters of section 6, by their
      code points. */
  lemma CharacterTables(c: char)
    ensures IsWs(c) <==> c as int in {0x20, 0x09, 0x0a, 0x0d}
    ensures SimpleEscape(c).Some? <==> c in ESCAPES
    ensures forall i :: 0 <= i < 8 && ESCAPES[i] == c ==> SimpleEscape(c) == Some(ESCAPED[i] as char)
    ensures IsNumChar(c) <==> c in "0123456789+-.eE"
  {
    assert forall i :: 0 <= i < 8 && ESCAPES[i] == c ==> SimpleEscape(c).Some?;
    if SimpleEscape(c).Some? {
      assert ESCAPES[0] == '"' && ESCAPES[1] == '\\' && ESCAPES[2] == '/' && ESCAPES[3] == 'b' && ESCAPES[4] == 'f';
      assert ESCAPES[5] == 'n' && ESCAPES[6] == 'r' && ESCAPES[7] == 't';
    }
    NumberCharacters(c);
  }

  lemma NumberCharacters(c: char)
    ensures IsNumChar(c) <==> c in "0123456789+-.eE"
  {
    var t := "0123456789+-.eE";
    if IsDigit(c) {
      assert t[c as int - '0' as int] == c;
    }
    assert t[10] == '+' && t[11] == '-' && t[12] == '.' && t[13] == 'e' && t[14] == 'E';
    if c in t {
      var i :| 0 <= i < |t| && t[i] == c;
      assert i < 10 ==> IsDigit(t[i]);
    }
  }

  /** The integers that the printer spells out are those below nine quadrillions in magnitude. */
  lemma PrintedIntegers(n: int)
    ensures IsPrintableInt(n as real) <==> -9000000000000000 < n < 9000000000000000
    ensures IsPrintableInt(n as real) && n >= 0 ==>
      SpellsDecimal(DumpInt(n), n) && (n > 0 ==> DumpInt(n)[0] != '0') && DumpInt(0) == "0"
    ensures IsPrintableInt(n as real) && n < 0 ==> DumpInt(n) == "-" + DumpInt(-n)
  {
    assert (n as real).Floor == n;
    if n >= 0 {
      DecimalRoundTrip(n);
      DecimalValueIs(Decimal(n), n);
      DecimalLeading(n);
      DecimalLeading(0);
    }
  }

  // ----- numbers

  lemma SameExponents(n: Number, n': Number)
    requires ExponentOk(n) && ExponentOk(n') && ExponentText(n) == ExponentText(n')
    ensures n.exp == n'.exp
  {
    if n.exp.Some? {
      var x, x' := n.exp.value, n'.exp.value;
      assert x.e == ExponentText(n)[0] && x'.e == ExponentText(n')[0];
      assert ExponentText(n)[1..] == x.sign + x.digits && ExponentText(n')[1..] == x'.sign + x'.digits;
      SameSigned(x.sign, x.digits, x'.sign, x'.digits);
    }
  }

  lemma SameSigned(a: string, d: string, a': string, d': string)
    requires a == "" || a == "+" || a == "-"
    requires a' == "" || a' == "+" || a' == "-"
    requires d != "" && AllDigits(d) && d' != "" && AllDigits(d') && a + d == a' + d'
    ensures a == a' && d == d'
  {
    assert IsDigit(d[0]) && IsDigit(d'[0]);
    assert a == "" <==> IsDigit((a + d)[0]);
    assert a' == "" <==> IsDigit((a' + d')[0]);
    SameParts(a, d, a', d');
  }

  /** A number token has one reading. */
  lemma SameNumber(n: Number, n': Number)
    requires Accepted(n) && Accepted(n') && NumberText(n) == NumberText(n')
    ensures n == n'
  {
    hide FractionText, ExponentText, FractionDigits;
    TextStart(n);
    TextStart(n');
    var sign := if n.neg then "-" else "";
    SameParts(sign, n.whole + FractionText(n), sign, n'.whole + FractionText(n'));
    FractionStart(n);
    FractionStart(n');
    DigitSpanOf(n.whole, FractionText(n));
    DigitSpanOf(n'.whole, FractionText(n'));
    SameParts(n.whole, FractionText(n), n'.whole, FractionText(n'));
    SplitFractionOf(n);
    SplitFractionOf(n');
    SameExponents(n, n');
    SameFraction(n, n');
  }

  lemma SameFraction(n: Number, n': Number)
    requires Accepted(n) && Accepted(n') && FractionText(n) == FractionText(n') && FractionDigits(n) == FractionDigits(n')
    ensures n.frac == n'.frac
  {
    assert n.frac.Some? <==> Starts(FractionText(n), '.');
    assert n'.frac.Some? <==> Starts(FractionText(n'), '.');
  }

  lemma RfcTokenExactly(n: Number)
    requires Accepted(n)
    ensures RfcToken(NumberText(n)) <==> NumberOk(n)
  {
    hide NumberText;
    if RfcToken(NumberText(n)) {
      var m :| NumberOk(m) && NumberText(m) == NumberText(n);
      SameNumber(n, m);
    }
  }

  // ----- trees

  ghost predicate OneValuePerKey(mems: seq<Mem>)
    requires MemsOk(mems)
  {
    forall i, j :: 0 <= i < |mems| && 0 <= j < |mems| ==> SameIfSameKey(mems[i], mems[j])
  }

  ghost predicate SameIfSameKey(m: Mem, m': Mem) {
    MemOk(m) && MemOk(m') && (PiecesMeaning(m.key) == PiecesMeaning(m'.key) ==> Meaning(m.d) == Meaning(m'.d))
  }

  /** The tree conforms to the grammar, no surrogate stands alone (section 8.2 of RFC 8259), and equal keys
      carry equal values (section 4). */
  ghost predicate Defined(d: Doc)
    decreases d
  {
    && DocOk(d)
    && match d
       case DNull => true
       case DBool(_) => true
       case DNum(tok) => RfcToken(tok)
       case DStr(ps) => RfcPieces(ps)
       case DArr(_, items) => forall i :: 0 <= i < |items| ==> Defined(items[i].d)
       case DObj(_, mems) =>
         && (forall i :: 0 <= i < |mems| ==> RfcPieces(mems[i].key) && Defined(mems[i].d))
         && OneValuePerKey(mems)
  }

  /** Of a tree of the parser exactly these renderings have its meaning as defined contents. */
  lemma {:induction false} DefinedExactly(d: Doc)
    requires DocOk(d)
    ensures RfcRenders(Meaning(d), d) <==> Defined(d)
    decreases d, 2
  {
    match d
    case DNull =>
    case DBool(_) =>
    case DNum(tok) => TokenExactly(tok);
    case DStr(_) =>
    case DArr(_, items) => ItemsExactly(d);
    case DObj(_, mems) => MemsExactly(d);
  }

  lemma TokenExactly(tok: string)
    requires TokenOk(tok)
    ensures DenotesNumber(tok, TokenValue(tok)) <==> RfcToken(tok)
  {
    hide NumberOk, NumberText, NumberValue, TokenOk;
    if RfcToken(tok) {
      var n :| NumberOk(n) && NumberText(n) == tok;
      assert Accepted(n) by { OkIsAccepted(n); }
      NumberTokenValue(n);
      TokenReads(tok);
      assert NumberValue(n) == TokenValue(tok);
    }
  }

  lemma OkIsAccepted(n: Number)
    requires NumberOk(n)
    ensures Accepted(n)
  {
  }

  lemma {:induction false} ItemsMeaningAt(items: seq<Item>, i: nat)
    requires ItemsOk(items) && i < |items|
    ensures ItemOk(items[i]) && ItemsMeaning(items)[i] == Meaning(items[i].d)
  {
    hide Meaning, DocOk;
    if i > 0 {
      ItemsMeaningAt(items[1..], i - 1);
    }
  }

  lemma {:induction false} ItemsExactly(d: Doc)
    requires DocOk(d) && d.DArr?
    ensures RfcRenders(Meaning(d), d) <==> Defined(d)
    decreases d, 1
  {
    var items := d.items;
    var a := ItemsMeaning(items);
    assert Meaning(d) == Arr(a);
    forall i | 0 <= i < |items|
      ensures ItemOk(items[i]) && (RfcRenders(a[i], items[i].d) <==> Defined(items[i].d))
    {
      ItemsMeaningAt(items, i);
      DefinedExactly(items[i].d);
    }
  }

  ghost predicate MemberExact(m: Mem) {
    MemOk(m) && (RfcRenders(Meaning(m.d), m.d) <==> Defined(m.d))
  }

  lemma {:induction false} MemsExactly(d: Doc)
    requires DocOk(d) && d.DObj?
    ensures RfcRenders(Meaning(d), d) <==> Defined(d)
    decreases d, 1
  {
    hide Meaning, PiecesMeaning, RfcPieces, MemsMeaning;
    var mems := d.mems;
    var o := MemsMeaning(mems, map[]);
    assert Meaning(d) == Obj(o) by { ObjectMeaning(d); }
    forall i | 0 <= i < |mems| ensures MemberExact(mems[i]) {
      assert MemOk(mems[i]);
      DefinedExactly(mems[i].d);
    }
    if RfcRenders(Obj(o), d) {
      MembersAreShaped(d, o);
    }
    if Defined(d) {
      ShapedAreMembers(d, o);
    }
  }

  lemma ObjectMeaning(d: Doc)
    requires DocOk(d) && d.DObj?
    ensures Meaning(d) == Obj(MemsMeaning(d.mems, map[]))
  {
  }

  lemma MembersAreShaped(d: Doc, o: map<string, Value>)
    requires DocOk(d) && d.DObj? && RfcRenders(Obj(o), d)
    requires forall i :: 0 <= i < |d.mems| ==> MemberExact(d.mems[i])
    ensures Defined(d)
  {
    hide Meaning, PiecesMeaning, RfcPieces;
    var mems := d.mems;
    forall i | 0 <= i < |mems|
      ensures RfcPieces(mems[i].key) && Defined(mems[i].d) && PiecesMeaning(mems[i].key) in o
      ensures o[PiecesMeaning(mems[i].key)] == Meaning(mems[i].d)
    {
      assert RfcMember(Obj(o), mems[i]) && MemberExact(mems[i]);
      RfcMeaning(o[PiecesMeaning(mems[i].key)], mems[i].d);
    }
  }

  lemma ShapedAreMembers(d: Doc, o: map<string, Value>)
    requires Defined(d) && d.DObj? && o == MemsMeaning(d.mems, map[])
    requires forall i :: 0 <= i < |d.mems| ==> MemberExact(d.mems[i])
    ensures RfcRenders(Obj(o), d)
  {
    hide Meaning, PiecesMeaning, RfcPieces, MemsMeaning;
    var mems := d.mems;
    forall i | 0 <= i < |mems| ensures RfcMember(Obj(o), mems[i]) {
      assert MemberExact(mems[i]);
      MemsLookup(mems, map[], i);
    }
    forall k | k in o ensures HasKey(mems, k) {
      var i := KeyComesFrom(mems, map[], k);
      assert DenotesString(mems[i].key, k);
    }
  }

  /** Members that do not have a key leave it as it was. */
  lemma {:induction false} MemsKeep(mems: seq<Mem>, acc: map<string, Value>, k: string)
    requires MemsOk(mems) && k in acc && forall i :: 0 <= i < |mems| ==> MemOk(mems[i]) && PiecesMeaning(mems[i].key) != k
    ensures k in MemsMeaning(mems, acc) && MemsMeaning(mems, acc)[k] == acc[k]
  {
    hide Meaning, PiecesMeaning, DocOk, PiecesOk;
    if mems != [] {
      MemsKeep(mems[1..], acc[PiecesMeaning(mems[0].key) := Meaning(mems[0].d)], k);
    }
  }

  lemma {:induction false} MemsLookup(mems: seq<Mem>, acc: map<string, Value>, i: nat)
    requires MemsOk(mems) && OneValuePerKey(mems) && i < |mems|
    ensures
      MemOk(mems[i]) && var k := PiecesMeaning(mems[i].key);
      k in MemsMeaning(mems, acc) && MemsMeaning(mems, acc)[k] == Meaning(mems[i].d)
    decreases |mems|
  {
    hide Meaning, PiecesMeaning, DocOk, PiecesOk;
    assert MemOk(mems[i]) && MemOk(mems[0]);
    var rest := mems[1..];
    assert forall j :: 0 <= j < |rest| ==> rest[j] == mems[j + 1];
    assert OneValuePerKey(rest);
    var acc' := acc[PiecesMeaning(mems[0].key) := Meaning(mems[0].d)];
    var k := PiecesMeaning(mems[i].key);
    if j :| 0 <= j < |rest| && MemOk(rest[j]) && PiecesMeaning(rest[j].key) == k {
      MemsLookup(rest, acc', j);
      assert SameIfSameKey(mems[i], mems[j + 1]);
    } else {
      assert i == 0;
      assert forall j :: 0 <= j < |rest| ==> MemOk(rest[j]) && PiecesMeaning(rest[j].key) != k;
      MemsKeep(rest, acc', k);
    }
  }

  lemma {:induction false} KeyComesFrom(mems: seq<Mem>, acc: map<string, Value>, k: string) returns (i: nat)
    requires MemsOk(mems) && k in MemsMeaning(mems, acc) && k !in acc
    ensures i < |mems| && MemOk(mems[i]) && PiecesMeaning(mems[i].key) == k
    decreases |mems|
  {
    hide Meaning, PiecesMeaning, DocOk, PiecesOk;
    i := 0;
    assert MemOk(mems[0]);
    if PiecesMeaning(mems[0].key) != k {
      var j := KeyComesFrom(mems[1..], acc[PiecesMeaning(mems[0].key) := Meaning(mems[0].d)], k);
      i := j + 1;
    }
  }

  // ----- texts

  /** The text is an RFC 8259 text whose contents are defined to be the value. */
  ghost predicate DefinedText(text: string, v: Value) {
    exists w, d, z :: DefinedTextAs(text, v, w, d, z)
  }

  ghost predicate DefinedTextAs(text: string, v: Value, w: string, d: Doc, z: string) {
    Blank(w) && Blank(z) && RfcRenders(v, d) && text == w + TextThen(d, z)
  }

  ghost predicate IsDefinedText(text: string) {
    exists v :: DefinedText(text, v)
  }

  /** For every accepted text and its tree, which is the only one: its contents are defined if and only if
      the tree says so, and then they are the value that is returned. */
  lemma AcceptedIsDefined(text: string, v: Value, w: string, d: Doc, z: string)
    requires RendersAs(text, v, w, d, z)
    ensures Parse(text) == Some(v)
    ensures IsDefinedText(text) <==> Defined(d)
    ensures IsDefinedText(text) <==> DefinedText(text, v)
  {
    hide Meaning, TextThen, RfcRenders, Defined, DocOk;
    assert Renders(text, v);
    ParseExactLanguage(text, v);
    DefinedExactly(d);
    if IsDefinedText(text) {
      var v' :| DefinedText(text, v');
      var w', d', z' :| DefinedTextAs(text, v', w', d', z');
      RfcMeaning(v', d');
      OkIsPaired(d);
      OkIsPaired(d');
      OneTree(w, d, z, w', d', z');
    }
    if Defined(d) {
      assert DefinedTextAs(text, v, w, d, z);
      assert DefinedText(text, v);
    }
  }

  // ----- the grammar

  /** No control character stands raw in a string, and numbers have the form of section 6. */
  ghost predicate Strict(d: Doc) {
    match d
    case DNull => true
    case DBool(_) => true
    case DNum(tok) => RfcToken(tok)
    case DStr(ps) => NoControls(ps)
    case DArr(_, items) => forall i :: 0 <= i < |items| ==> Strict(items[i].d)
    case DObj(_, mems) => forall i :: 0 <= i < |mems| ==> NoControls(mems[i].key) && Strict(mems[i].d)
  }

  /** A tree of the grammar in sections 2 to 7 of RFC 8259: \u takes any four digits, and keys may repeat. */
  ghost predicate GrammarTree(d: Doc) {
    LexOk(d) && Strict(d)
  }

  ghost predicate Conforms(text: string) {
    exists w, d, z :: ConformsAs(text, w, d, z)
  }

  ghost predicate ConformsAs(text: string, w: string, d: Doc, z: string) {
    Blank(w) && Blank(z) && GrammarTree(d) && text == w + TextThen(d, z)
  }

  /** An accepted text conforms to the grammar if and only if its tree has no raw control character and
      only numbers of section 6. */
  lemma AcceptedConforms(text: string, v: Value, w: string, d: Doc, z: string)
    requires RendersAs(text, v, w, d, z)
    ensures Parse(text) == Some(v)
    ensures Conforms(text) <==> Strict(d)
  {
    hide Meaning, TextThen, Strict, DocOk, LexOk, AllPaired;
    assert Renders(text, v);
    ParseExactLanguage(text, v);
    OkIsPaired(d);
    if Conforms(text) {
      var w', d', z' :| ConformsAs(text, w', d', z');
      OneTree(w, d, z, w', d', z');
    }
    if Strict(d) {
      assert ConformsAs(text, w, d, z);
    }
  }

  /** A text of any tree, so every conforming text, is accepted if and only if every high surrogate in it
      is followed at once by a low one; the value is then the tree's meaning. */
  lemma ConformingIsAccepted(text: string, w: string, d: Doc, z: string)
    requires Blank(w) && Blank(z) && LexOk(d) && text == w + TextThen(d, z)
    ensures Parse(text).Some? <==> AllPaired(d)
    ensures AllPaired(d) ==> DocOk(d) && Parse(text) == Some(Meaning(d))
  {
    hide Meaning, TextThen, Parse, DocOk, LexOk, AllPaired;
    OkIsPaired(d);
    if AllPaired(d) {
      assert RendersAs(text, Meaning(d), w, d, z);
      assert Renders(text, Meaning(d));
      ParseExactLanguage(text, Meaning(d));
    }
    if Parse(text).Some? {
      var v := Parse(text).value;
      ParseExactLanguage(text, v);
      var w', d', z' :| RendersAs(text, v, w', d', z');
      OkIsPaired(d');
      OneTree(w, d, z, w', d', z');
    }
  }

  // ----- where they differ

  /** Every number of the parser's grammar is accepted as a text; it conforms exactly if it has no leading
      zero and digits on both sides of a point. */
  lemma AcceptedNumbers(n: Number)
    requires Accepted(n)
    ensures Parse(NumberText(n)) == Some(Num(NumberValue(n)))
    ensures Conforms(NumberText(n)) <==> NumberOk(n)
  {
    hide Conforms, Accepted, NumberOk, NumberText, NumberValue, TokenValue, TokenOk;
    var tok := NumberText(n);
    NumberTokenValue(n);
    TokenReads(tok);
    RfcTokenExactly(n);
    assert "" + (tok + "") == tok;
    AcceptedConforms(tok, Num(NumberValue(n)), "", DNum(tok), "");
  }

  /** 01, 1. and -.5 are accepted and do not conform. */
  lemma MalformedNumbers()
    ensures Parse("01") == Some(Num(1.0)) && !Conforms("01")
    ensures Parse("1.") == Some(Num(1.0)) && !Conforms("1.")
    ensures Parse("-.5") == Some(Num(-0.5)) && !Conforms("-.5")
  {
    hide Parse, Conforms;
    var a, b, c := Number(false, "01", None, None), Number(false, "1", Some(""), None), Number(true, "", Some("5"), None);
    assert NumberText(a) == "01" && NumberText(b) == "1." && NumberText(c) == "-.5";
    SmallValues();
    AcceptedNumbers(a);
    AcceptedNumbers(b);
    AcceptedNumbers(c);
  }

  lemma DigitValue(c: char)
    requires IsDigit(c)
    ensures DecimalValue([c]) == c as int - '0' as int
  {
    assert [c][..0] == "";
  }

  lemma TwoDigitValue(a: char, b: char)
    requires IsDigit(a) && IsDigit(b)
    ensures DecimalValue([a, b]) == 10 * (a as int - '0' as int) + (b as int - '0' as int)
  {
    DigitValue(a);
    assert [a, b][..1] == [a];
  }

  lemma SmallValues()
    ensures Scaled("01" + "", 0) == 1.0 && Scaled("1" + "", 0) == 1.0 && Scaled("" + "5", -1) == 0.5
  {
    TwoDigitValue('0', '1');
    DigitValue('1');
    DigitValue('5');
    hide DecimalValue;
    assert "01" + "" == ['0', '1'] && "1" + "" == ['1'] && "" + "5" == ['5'];
    assert ScaleBy10(0.5, 0) == 0.5;
  }

  /** A string as a text. */
  lemma StringText(ps: seq<Piece>)
    requires LexPieces(ps)
    ensures Parse(StrThen(ps, "")).Some? <==> Paired(ps)
    ensures Paired(ps) ==> PiecesOk(ps) && Parse(StrThen(ps, "")) == Some(Str(PiecesMeaning(ps)))
    ensures Conforms(StrThen(ps, "")) <==> NoControls(ps)
    ensures Paired(ps) ==> (IsDefinedText(StrThen(ps, "")) <==> RfcPieces(ps))
  {
    hide Conforms, IsDefinedText, StrThen, PiecesMeaning, LexPieces, NoControls, LowsPaired;
    var d, text := DStr(ps), StrThen(ps, "");
    assert text == "" + TextThen(d, "");
    ConformingIsAccepted(text, "", d, "");
    StringConforms(ps);
    if Paired(ps) {
      AcceptedIsDefined(text, Str(PiecesMeaning(ps)), "", d, "");
    }
  }

  lemma StringConforms(ps: seq<Piece>)
    requires LexPieces(ps)
    ensures Conforms(StrThen(ps, "")) <==> NoControls(ps)
  {
    hide StrThen, LexPieces, NoControls;
    var d, text := DStr(ps), StrThen(ps, "");
    assert text == "" + TextThen(d, "");
    if NoControls(ps) {
      assert ConformsAs(text, "", d, "");
    }
    if Conforms(text) {
      var w', d', z' :| ConformsAs(text, w', d', z');
      OneTree("", d, "", w', d', z');
    }
  }

  lemma OnePieceText(p: Piece)
    ensures StrThen([p], "") == "\"" + PieceThen(p, "\"")
  {
    assert [p][1..] == [] && "\"" + "" == "\"";
    assert PiecesThen([p], "\"") == PieceThen(p, PiecesThen([], "\""));
  }

  /** Every raw control character is accepted in a string, where the grammar asks for an escape. */
  lemma RawControls(c: char)
    requires c as int < 0x20
    ensures Parse("\"" + ([c] + "\"")) == Some(Str([c])) && !Conforms("\"" + ([c] + "\""))
  {
    hide Parse, Conforms, IsDefinedText;
    OnePieceText(Raw(c));
    OnePieceMeaning(Raw(c), "");
    StringText([Raw(c)]);
    assert !NoControls([Raw(c)]) by { assert [Raw(c)][0] == Raw(c); }
  }

  /** A string of one lone surrogate conforms, whatever its four digits. A low one is accepted, with
      contents that the RFC does not define; a high one is rejected, against section 9. */
  lemma LoneSurrogateTexts(h: string)
    requires IsHex4(h) && (IsHigh(Unit(h)) || IsLow(Unit(h)))
    ensures
      var text := "\"" + ("\\" + ("u" + (h + "\"")));
      && Conforms(text) && (Parse(text).Some? <==> IsLow(Unit(h)))
      && (IsLow(Unit(h)) ==> Parse(text) == Some(Str(Utf8(Hex4Value(h)))) && !IsDefinedText(text))
  {
    hide Parse, Conforms, IsDefinedText, Utf8, Hex4Value;
    var p := Unit(h);
    OnePieceText(p);
    StringText([p]);
    assert [p][0] == p;
    if IsLow(p) {
      OnePieceMeaning(p, "");
    }
  }

  /** "\ud800" conforms and is rejected. */
  lemma RejectedText()
    ensures Conforms("\"\\ud800\"") && Parse("\"\\ud800\"").None?
  {
    hide Parse, Conforms, IsDefinedText;
    var h := "d800";
    assert Hex4Value(h) == 0xd800;
    LoneSurrogateTexts(h);
    assert "\"\\ud800\"" == "\"" + ("\\" + ("u" + (h + "\"")));
  }
}
