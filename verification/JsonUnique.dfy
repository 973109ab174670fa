/** The grammar is unambiguous: a text is the rendering of one tree at most. */
module JsonUnique {
  import opened Common
  import opened JsonValue
  import opened JsonText
  import opened JsonNumber
  import opened JsonGrammar
  import opened JsonSound

  // ----- trees with surrogates in any order

  ghost predicate LexOk(d: Doc) {
    match d
    case DNull => true
    case DBool(_) => true
    case DNum(tok) => TokenOk(tok)
    case DStr(ps) => LexPieces(ps)
    case DArr(pad, items) => PadOk(pad, items == []) && LexItems(items)
    case DObj(pad, mems) => PadOk(pad, mems == []) && LexMems(mems)
  }

  ghost predicate LexItems(items: seq<Item>) {
    forall i :: 0 <= i < |items| ==> LexItem(items[i])
  }

  ghost predicate LexMems(mems: seq<Mem>) {
    forall i :: 0 <= i < |mems| ==> LexMem(mems[i])
  }

  ghost predicate LexItem(it: Item) {
    Blank(it.before) && Blank(it.after) && LexOk(it.d)
  }

  ghost predicate LexMem(m: Mem) {
    && Blank(m.beforeKey) && Blank(m.afterKey) && Blank(m.before) && Blank(m.after)
    && LexPieces(m.key) && LexOk(m.d)
  }

  /** In every string of the tree every high surrogate is followed at once by a low one. */
  ghost predicate AllPaired(d: Doc) {
    match d
    case DNull => true
    case DBool(_) => true
    case DNum(_) => true
    case DStr(ps) => Paired(ps)
    case DArr(_, items) => forall i :: 0 <= i < |items| ==> AllPaired(items[i].d)
    case DObj(_, mems) => forall i :: 0 <= i < |mems| ==> Paired(mems[i].key) && AllPaired(mems[i].d)
  }

  /** The parser's trees are those among them. */
  lemma {:induction false} OkIsPaired(d: Doc)
    ensures DocOk(d) <==> LexOk(d) && AllPaired(d)
    decreases d
  {
    match d
    case DArr(_, items) =>
      forall i | 0 <= i < |items| ensures ItemOk(items[i]) <==> LexItem(items[i]) && AllPaired(items[i].d) {
        OkIsPaired(items[i].d);
      }
    case DObj(_, mems) =>
      hide Paired;
      forall i | 0 <= i < |mems|
        ensures MemOk(mems[i]) <==> LexMem(mems[i]) && Paired(mems[i].key) && AllPaired(mems[i].d)
      {
        OkIsPaired(mems[i].d);
      }
    case _ =>
  }

  lemma LexHead(d: Doc, rest: string)
    requires LexOk(d)
    ensures var t := TextThen(d, rest); t != "" && !IsWs(t[0]) && t[0] != ']' && t[0] != '}'
  {
    TextHead(d, rest);
  }

  // ----- blanks, tokens and strings

  ghost predicate Visible(s: string) {
    s != "" && !IsWs(s[0])
  }

  /** Blanks end at the first character that is not one. */
  lemma SameBlank(w: string, s: string, w': string, s': string)
    requires Blank(w) && Blank(w') && Visible(s) && Visible(s') && w + s == w' + s'
    ensures w == w' && s == s'
  {
    SkipTo(w, s);
    SkipTo(w', s');
    SameParts(w, s, w', s');
  }

  lemma SameParts<T>(a: seq<T>, b: seq<T>, a': seq<T>, b': seq<T>)
    requires a + b == a' + b' && (|a| == |a'| || |b| == |b'|)
    ensures a == a' && b == b'
  {
    assert |a| + |b| == |a + b| == |a' + b'| == |a'| + |b'|;
    assert a == (a + b)[..|a|] == a';
    assert b == (a + b)[|a|..] == b';
  }

  lemma SameToken(tok: string, r: string, tok': string, r': string)
    requires TokenOk(tok) && TokenOk(tok') && Closed(r) && Closed(r') && tok + r == tok' + r'
    ensures tok == tok' && r == r'
  {
    hide TokenOk;
    TokenReads(tok);
    TokenReads(tok');
    NumSpanOf(tok, r);
    NumSpanOf(tok', r');
    SameParts(tok, r, tok', r');
  }

  /** A piece is told by its head, and what follows it is what is left. */
  lemma SamePiece(p: Piece, r: string, p': Piece, r': string)
    requires PieceOk(p) && PieceOk(p') && PieceThen(p, r) == PieceThen(p', r')
    ensures p == p' && r == r'
  {
    hide SimpleEscape;
    var t := PieceThen(p, r);
    if p.Raw? || p'.Raw? {
      assert t[0] == PieceThen(p', r')[0];
      assert t[1..] == r && PieceThen(p', r')[1..] == r';
    } else {
      assert !SimpleEscape('u').Some? by { NoSimpleU(); }
      assert t[1] == PieceThen(p', r')[1];
      if p.Short? {
        assert t[2..] == r && PieceThen(p', r')[2..] == r';
      } else {
        assert t[2..] == p.h + r && PieceThen(p', r')[2..] == p'.h + r';
        SameParts(p.h, r, p'.h, r');
      }
    }
  }

  lemma NoSimpleU()
    ensures SimpleEscape('u').None?
  {
  }

  /** A piece does not look like the closing quote. */
  lemma PieceHead(p: Piece, r: string)
    requires PieceOk(p)
    ensures PieceThen(p, r) != "" && PieceThen(p, r)[0] != '"'
  {
  }

  lemma {:induction false} SamePieces(ps: seq<Piece>, r: string, ps': seq<Piece>, r': string)
    requires LexPieces(ps) && LexPieces(ps') && PiecesThen(ps, "\"" + r) == PiecesThen(ps', "\"" + r')
    ensures ps == ps' && r == r'
  {
    hide PieceThen, PieceOk;
    if ps == [] && ps' == [] {
      SameParts("\"", r, "\"", r');
    } else if ps == [] {
      PieceHead(ps'[0], PiecesThen(ps'[1..], "\"" + r'));
    } else if ps' == [] {
      PieceHead(ps[0], PiecesThen(ps[1..], "\"" + r));
    } else {
      SamePiece(ps[0], PiecesThen(ps[1..], "\"" + r), ps'[0], PiecesThen(ps'[1..], "\"" + r'));
      SamePieces(ps[1..], r, ps'[1..], r');
      assert ps == [ps[0]] + ps[1..] && ps' == [ps'[0]] + ps'[1..];
    }
  }

  lemma SameStr(ps: seq<Piece>, r: string, ps': seq<Piece>, r': string)
    requires LexPieces(ps) && LexPieces(ps') && StrThen(ps, r) == StrThen(ps', r')
    ensures ps == ps' && r == r'
  {
    hide PiecesThen;
    SameParts("\"", PiecesThen(ps, "\"" + r), "\"", PiecesThen(ps', "\"" + r'));
    SamePieces(ps, r, ps', r');
  }

  // ----- trees

  /** The first character tells what a rendering is. */
  function KindOf(c: char): nat {
    if c == 'n' then 0 else if c == 't' || c == 'f' then 1 else if c == '-' || IsDigit(c) then 2
    else if c == '"' then 3 else if c == '[' then 4 else 5
  }

  function Kind(d: Doc): nat {
    match d
    case DNull => 0
    case DBool(_) => 1
    case DNum(_) => 2
    case DStr(_) => 3
    case DArr(_, _) => 4
    case DObj(_, _) => 5
  }

  lemma KindOfText(d: Doc, r: string)
    requires LexOk(d)
    ensures TextThen(d, r) != "" && KindOf(TextThen(d, r)[0]) == Kind(d)
  {
    hide TokenOk, PiecesThen, ItemsThen, MemsThen, LexItems, LexMems;
    match d
    case DNull =>
    case DBool(_) =>
    case DNum(tok) =>
      hide TokenValue, StrToD, IsNumChar;
      TokenReads(tok);
      assert (tok + r)[0] == tok[0];
    case DStr(_) =>
    case DArr(_, _) =>
    case DObj(_, _) =>
  }

  /** A rendering and what follows it, where a number is not followed by more of it. */
  ghost predicate Ends(d: Doc, r: string) {
    LexOk(d) && (d.DNum? ==> Closed(r))
  }

  lemma {:induction false} SameTree(d: Doc, r: string, d': Doc, r': string)
    requires Ends(d, r) && Ends(d', r') && TextThen(d, r) == TextThen(d', r')
    ensures d == d' && r == r'
    decreases d, 3
  {
    KindOfText(d, r);
    KindOfText(d', r');
    hide KindOf, TokenOk, StrThen;
    match d
    case DNull => SameParts("null", r, "null", r');
    case DBool(b) => SameBool(b, r, d'.b, r');
    case DNum(tok) => SameToken(tok, r, d'.tok, r');
    case DStr(ps) => SameStr(ps, r, d'.ps, r');
    case DArr(_, _) => SameArray(d, r, d', r');
    case DObj(_, _) => SameObject(d, r, d', r');
  }

  lemma SameBool(b: bool, r: string, b': bool, r': string)
    requires TextThen(DBool(b), r) == TextThen(DBool(b'), r')
    ensures b == b' && r == r'
  {
    var t, t' := TextThen(DBool(b), r), TextThen(DBool(b'), r');
    assert b <==> t[0] == 't';
    assert b' <==> t'[0] == 't';
    var lit := if b then "true" else "false";
    SameParts(lit, r, lit, r');
  }

  // ----- arrays

  /** What stands between the opening bracket and its first blanks. */
  function ArrayTail(items: seq<Item>, r: string): string {
    if items == [] then "]" + r else ItemsThen(items, r)
  }

  function FirstBlank(pad: string, items: seq<Item>): string {
    if items == [] then pad else items[0].before
  }

  lemma ArrayText(d: Doc, r: string)
    requires LexOk(d) && d.DArr?
    ensures TextThen(d, r) == "[" + (FirstBlank(d.pad, d.items) + ArrayTail(d.items, r))
    ensures Blank(FirstBlank(d.pad, d.items)) && Visible(ArrayTail(d.items, r))
    ensures d.items == [] <==> ArrayTail(d.items, r)[0] == ']'
  {
    hide LexOk;
    if d.items != [] {
      var it := d.items[0];
      assert LexItem(it) by { FirstItem(d); }
      LexHead(it.d, it.after + ItemsTail(d.items, r));
    } else {
      assert Blank(d.pad) by { FirstItem(d); }
    }
  }

  lemma FirstItem(d: Doc)
    requires LexOk(d) && d.DArr?
    ensures d.items != [] ==> LexItem(d.items[0])
    ensures d.items == [] ==> Blank(d.pad)
  {
  }

  lemma {:induction false} SameArray(d: Doc, r: string, d': Doc, r': string)
    requires LexOk(d) && LexOk(d') && d.DArr? && d'.DArr? && TextThen(d, r) == TextThen(d', r')
    ensures d == d' && r == r'
    decreases d, 2
  {
    hide TextThen, ItemsThen;
    ArrayText(d, r);
    ArrayText(d', r');
    var w, w' := FirstBlank(d.pad, d.items), FirstBlank(d'.pad, d'.items);
    SameParts("[", w + ArrayTail(d.items, r), "[", w' + ArrayTail(d'.items, r'));
    SameBlank(w, ArrayTail(d.items, r), w', ArrayTail(d'.items, r'));
    if d.items == [] {
      SameParts("]", r, "]", r');
    } else {
      SameItems(d.items, r, d'.items, r');
    }
  }

  /** What follows an element. */
  lemma ItemsTailHead(items: seq<Item>, r: string)
    requires items != []
    ensures var t := ItemsTail(items, r); t != "" && (t[0] == ']' || t[0] == ',') && (|items| == 1 <==> t[0] == ']')
  {
    hide ItemsThen;
  }

  lemma AfterIsClosed(w: string, t: string)
    requires Blank(w) && t != "" && (t[0] == ']' || t[0] == '}' || t[0] == ',')
    ensures Closed(w + t) && Visible(t)
  {
    if w != "" {
      assert IsWs(w[0]);
    }
  }

  lemma {:induction false} SameItems(items: seq<Item>, r: string, items': seq<Item>, r': string)
    requires items != [] && items' != [] && LexItems(items) && LexItems(items')
    requires items[0].before == items'[0].before && ItemsThen(items, r) == ItemsThen(items', r')
    ensures items == items' && r == r'
    decreases items, 4
  {
    hide TextThen, ItemsTail, LexOk;
    var it, it' := items[0], items'[0];
    assert LexItem(it) && LexItem(it');
    var t, t' := ItemsTail(items, r), ItemsTail(items', r');
    ItemsTailHead(items, r);
    ItemsTailHead(items', r');
    AfterIsClosed(it.after, t);
    AfterIsClosed(it'.after, t');
    SameTree(it.d, it.after + t, it'.d, it'.after + t');
    SameBlank(it.after, t, it'.after, t');
    SameItemsTail(items, r, items', r');
    assert items == [it] + items[1..] && items' == [it'] + items'[1..];
  }

  lemma {:induction false} SameItemsTail(items: seq<Item>, r: string, items': seq<Item>, r': string)
    requires items != [] && items' != [] && LexItems(items) && LexItems(items')
    requires ItemsTail(items, r) == ItemsTail(items', r') && (|items| == 1 <==> |items'| == 1)
    ensures items[1..] == items'[1..] && r == r'
    decreases items, 0
  {
    hide TextThen, LexOk;
    if |items| == 1 {
      SameParts("]", r, "]", r');
    } else {
      var b, b' := items[1], items'[1];
      var rest, rest' := items[1..], items'[1..];
      assert LexItem(b) && LexItem(b');
      LexHead(b.d, b.after + ItemsTail(rest, r));
      LexHead(b'.d, b'.after + ItemsTail(rest', r'));
      SameParts(",", b.before + ItemsThen(rest, r), ",", b'.before + ItemsThen(rest', r'));
      SameBlank(b.before, ItemsThen(rest, r), b'.before, ItemsThen(rest', r'));
      SameItems(rest, r, rest', r');
    }
  }

  // ----- objects

  function ObjectTail(mems: seq<Mem>, r: string): string {
    if mems == [] then "}" + r else MemsThen(mems, r)
  }

  function FirstKeyBlank(pad: string, mems: seq<Mem>): string {
    if mems == [] then pad else mems[0].beforeKey
  }

  lemma ObjectText(d: Doc, r: string)
    requires LexOk(d) && d.DObj?
    ensures TextThen(d, r) == "{" + (FirstKeyBlank(d.pad, d.mems) + ObjectTail(d.mems, r))
    ensures Blank(FirstKeyBlank(d.pad, d.mems)) && Visible(ObjectTail(d.mems, r))
    ensures d.mems == [] <==> ObjectTail(d.mems, r)[0] == '}'
  {
    if d.mems != [] {
      assert LexMem(d.mems[0]);
      MemHead(d.mems[0], MemsTail(d.mems, r));
    }
  }

  lemma MemHead(m: Mem, r: string)
    ensures Visible(MemThen(m, r)) && MemThen(m, r)[0] == '"'
  {
  }

  lemma {:induction false} SameObject(d: Doc, r: string, d': Doc, r': string)
    requires LexOk(d) && LexOk(d') && d.DObj? && d'.DObj? && TextThen(d, r) == TextThen(d', r')
    ensures d == d' && r == r'
    decreases d, 2
  {
    hide TextThen, MemsThen;
    ObjectText(d, r);
    ObjectText(d', r');
    var w, w' := FirstKeyBlank(d.pad, d.mems), FirstKeyBlank(d'.pad, d'.mems);
    SameParts("{", w + ObjectTail(d.mems, r), "{", w' + ObjectTail(d'.mems, r'));
    SameBlank(w, ObjectTail(d.mems, r), w', ObjectTail(d'.mems, r'));
    if d.mems == [] {
      SameParts("}", r, "}", r');
    } else {
      SameMems(d.mems, r, d'.mems, r');
    }
  }

  lemma MemsTailHead(mems: seq<Mem>, r: string)
    requires mems != []
    ensures var t := MemsTail(mems, r); t != "" && (t[0] == '}' || t[0] == ',') && (|mems| == 1 <==> t[0] == '}')
  {
    hide MemsThen;
  }

  /** One member up to what follows it, but for the blanks before its key. */
  lemma {:induction false} SameMem(m: Mem, t: string, m': Mem, t': string)
    requires LexMem(m) && LexMem(m') && m.beforeKey == m'.beforeKey && MemThen(m, t) == MemThen(m', t')
    requires Visible(t) && Visible(t') && Closed(m.after + t) && Closed(m'.after + t')
    ensures m == m' && t == t'
    decreases m, 4
  {
    hide TextThen, StrThen, LexOk;
    var v, v' := TextThen(m.d, m.after + t), TextThen(m'.d, m'.after + t');
    SameStr(m.key, m.afterKey + (":" + (m.before + v)), m'.key, m'.afterKey + (":" + (m'.before + v')));
    SameBlank(m.afterKey, ":" + (m.before + v), m'.afterKey, ":" + (m'.before + v'));
    SameParts(":", m.before + v, ":", m'.before + v');
    LexHead(m.d, m.after + t);
    LexHead(m'.d, m'.after + t');
    SameBlank(m.before, v, m'.before, v');
    SameTree(m.d, m.after + t, m'.d, m'.after + t');
    SameBlank(m.after, t, m'.after, t');
  }

  lemma {:induction false} SameMems(mems: seq<Mem>, r: string, mems': seq<Mem>, r': string)
    requires mems != [] && mems' != [] && LexMems(mems) && LexMems(mems')
    requires mems[0].beforeKey == mems'[0].beforeKey && MemsThen(mems, r) == MemsThen(mems', r')
    ensures mems == mems' && r == r'
    decreases mems, 4
  {
    hide MemThen, MemsTail, LexMem;
    var m, m' := mems[0], mems'[0];
    assert LexMem(m) && LexMem(m');
    var t, t' := MemsTail(mems, r), MemsTail(mems', r');
    MemsTailHead(mems, r);
    MemsTailHead(mems', r');
    AfterMem(m, t);
    AfterMem(m', t');
    SameMem(m, t, m', t');
    SameMemsTail(mems, r, mems', r');
    assert mems == [m] + mems[1..] && mems' == [m'] + mems'[1..];
  }

  lemma AfterMem(m: Mem, t: string)
    requires LexMem(m) && t != "" && (t[0] == '}' || t[0] == ',')
    ensures Closed(m.after + t) && Visible(t)
  {
    AfterIsClosed(m.after, t);
  }

  lemma {:induction false} SameMemsTail(mems: seq<Mem>, r: string, mems': seq<Mem>, r': string)
    requires mems != [] && mems' != [] && LexMems(mems) && LexMems(mems')
    requires MemsTail(mems, r) == MemsTail(mems', r') && (|mems| == 1 <==> |mems'| == 1)
    ensures mems[1..] == mems'[1..] && r == r'
    decreases mems, 0
  {
    hide MemThen, LexOk;
    if |mems| == 1 {
      SameParts("}", r, "}", r');
    } else {
      var b, b' := mems[1], mems'[1];
      var rest, rest' := mems[1..], mems'[1..];
      assert LexMem(b) && LexMem(b');
      MemHead(b, MemsTail(rest, r));
      MemHead(b', MemsTail(rest', r'));
      SameParts(",", b.beforeKey + MemsThen(rest, r), ",", b'.beforeKey + MemsThen(rest', r'));
      SameBlank(b.beforeKey, MemsThen(rest, r), b'.beforeKey, MemsThen(rest', r'));
      SameMems(rest, r, rest', r');
    }
  }

  /** Between blanks, a text is the rendering of one tree at most. */
  lemma OneTree(w: string, d: Doc, z: string, w': string, d': Doc, z': string)
    requires Blank(w) && Blank(z) && LexOk(d) && Blank(w') && Blank(z') && LexOk(d')
    requires w + TextThen(d, z) == w' + TextThen(d', z')
    ensures w == w' && d == d' && z == z'
  {
    hide TextThen, LexOk;
    LexHead(d, z);
    LexHead(d', z');
    SameBlank(w, TextThen(d, z), w', TextThen(d', z'));
    BlankIsClosed(z);
    BlankIsClosed(z');
    SameTree(d, z, d', z');
  }

  lemma BlankIsClosed(z: string)
    requires Blank(z)
    ensures Closed(z)
  {
    if z != "" {
      assert IsWs(z[0]);
    }
  }
}
