/** Tag search, entities and hexadecimal of src/net/gamestream_xml.cpp. The functions take and return
    the text from a position on; the methods below them are the source's index loops. */
module Xml {
  import opened Common

  // ----- searching

  datatype Split = Split(before: string, at: string)

  /** std::string::find: the text before the first occurrence of `needle`, and from it on. */
  function Search(s: string, needle: string): (r: Option<Split>)
    ensures r.Some? ==> |r.value.before| + |r.value.at| == |s| && |needle| <= |r.value.at|
  {
    if needle <= s then Some(Split("", s))
    else if s == "" then None
    else
      var r := Search(s[1..], needle);
      if r.None? then None else Some(Split([s[0]] + r.value.before, r.value.at))
  }

  ghost predicate OccursAt(s: string, needle: string, i: nat) {
    i <= |s| && needle <= s[i..]
  }

  ghost predicate NoneBefore(s: string, needle: string, n: nat) {
    forall i: nat :: i < n ==> !OccursAt(s, needle, i)
  }

  lemma OccursLater(s: string, needle: string, i: nat)
    requires s != "" && i > 0
    ensures OccursAt(s, needle, i) <==> OccursAt(s[1..], needle, i - 1)
  {
    if i <= |s| {
      assert s[i..] == s[1..][i - 1..];
    }
  }

  lemma NoneBeforeLater(s: string, needle: string, n: nat)
    requires s != "" && !OccursAt(s, needle, 0)
    ensures NoneBefore(s, needle, n + 1) <==> NoneBefore(s[1..], needle, n)
  {
    hide OccursAt;
    forall i: nat ensures OccursAt(s, needle, i + 1) <==> OccursAt(s[1..], needle, i) {
      OccursLater(s, needle, i + 1);
    }
    if NoneBefore(s[1..], needle, n) {
      forall i: nat | i < n + 1 ensures !OccursAt(s, needle, i) {
        if i > 0 {
          assert !OccursAt(s[1..], needle, i - 1);
        }
      }
    }
    if NoneBefore(s, needle, n + 1) {
      forall i: nat | i < n ensures !OccursAt(s[1..], needle, i) {
        assert !OccursAt(s, needle, i + 1);
      }
    }
  }

  /** It is the first occurrence, and there is none exactly if it occurs nowhere. */
  lemma {:induction false} SearchIs(s: string, needle: string)
    ensures Search(s, needle).None? <==> NoneBefore(s, needle, |s| + 1)
    ensures Search(s, needle).Some? ==>
      var r := Search(s, needle).value;
      s == r.before + r.at && OccursAt(s, needle, |r.before|) && NoneBefore(s, needle, |r.before|)
  {
    hide OccursAt, NoneBefore, Search;
    AtStart(s, needle);
    SearchUnfolds(s, needle);
    if needle <= s {
      assert "" + s == s;
    } else if s != "" {
      SearchIs(s[1..], needle);
      NoneBeforeLater(s, needle, |s|);
      var r := Search(s[1..], needle);
      if r.Some? {
        Regroup([s[0]], r.value.before, r.value.at);
        assert s == [s[0]] + s[1..];
        NoneBeforeLater(s, needle, |r.value.before|);
        OccursLater(s, needle, |r.value.before| + 1);
      }
    }
  }

  lemma SearchUnfolds(s: string, needle: string)
    ensures needle <= s ==> Search(s, needle) == Some(Split("", s))
    ensures s == "" && !(needle <= s) ==> Search(s, needle).None?
    ensures s != "" && !(needle <= s) ==>
      var r := Search(s[1..], needle);
      Search(s, needle) == if r.None? then None else Some(Split([s[0]] + r.value.before, r.value.at))
  {
  }

  lemma AtStart(s: string, needle: string)
    ensures OccursAt(s, needle, 0) <==> needle <= s
    ensures NoneBefore(s, needle, 0)
    ensures needle <= s ==> !NoneBefore(s, needle, |s| + 1)
    ensures s == "" && !(needle <= s) ==> NoneBefore(s, needle, |s| + 1)
  {
    assert s[0..] == s;
    if needle <= s {
      assert OccursAt(s, needle, 0);
    }
  }

  predicate IsSpace(c: char) {
    c == ' ' || '\t' <= c <= '\r'
  }

  predicate EndsName(c: char) {
    c == '>' || c == '/' || IsSpace(c)
  }

  /** A start tag with exactly this name opens here. */
  predicate OpensHere(s: string, tag: string) {
    "<" + tag <= s && |s| > |tag| + 1 && EndsName(s[|tag| + 1])
  }

  /** From the first start tag with this name on. */
  function FindStartTag(s: string, tag: string): (r: Option<string>)
    ensures r.Some? ==> |r.value| <= |s| && OpensHere(r.value, tag)
  {
    if s == "" then None
    else if OpensHere(s, tag) then Some(s)
    else FindStartTag(s[1..], tag)
  }

  /** A tag name ends at '>', '/' or white space: space, and tab to carriage return. */
  lemma NameEnds(c: char)
    ensures EndsName(c) <==> c == '>' || c == '/' || c as int == 0x20 || 0x09 <= c as int <= 0x0d
  {
  }

  /** A start tag with this name stands at this position. */
  ghost predicate TagAt(s: string, tag: string, i: nat) {
    i <= |s| && "<" + tag <= s[i..] && i + |tag| + 1 < |s| && EndsName(s[i + |tag| + 1])
  }

  lemma {:induction false} FirstTag(s: string, tag: string)
    ensures FindStartTag(s, tag).None? <==> forall i :: 0 <= i <= |s| ==> !TagAt(s, tag, i)
    ensures FindStartTag(s, tag).Some? ==>
      exists i :: 0 <= i <= |s| && TagAt(s, tag, i) && FindStartTag(s, tag).value == s[i..]
        && forall j :: 0 <= j < i ==> !TagAt(s, tag, j)
  {
    assert s[0..] == s;
    if s == "" {
    } else if OpensHere(s, tag) {
      assert TagAt(s, tag, 0);
    } else {
      var t := s[1..];
      FirstTag(t, tag);
      assert !TagAt(s, tag, 0);
      forall i | 1 <= i <= |s| ensures TagAt(s, tag, i) <==> TagAt(t, tag, i - 1) {
        assert s[i..] == t[i - 1..];
      }
      if FindStartTag(t, tag).Some? {
        var i :| 0 <= i <= |t| && TagAt(t, tag, i) && FindStartTag(t, tag).value == t[i..]
          && forall j :: 0 <= j < i ==> !TagAt(t, tag, j);
        assert TagAt(s, tag, i + 1) && s[i + 1..] == t[i..];
        assert forall j :: 0 <= j < i + 1 ==> !TagAt(s, tag, j);
      } else {
        forall i | 0 <= i <= |s| ensures !TagAt(s, tag, i) {
        }
      }
    }
  }

  // ----- entities

  datatype Entity = Entity(c: char, len: nat)

  /** The next character of text and how long its spelling is: one of the five predefined entities, or
      any character for itself. */
  function NextEntity(s: string): (e: Entity)
    requires s != ""
    ensures 0 < e.len <= |s|
  {
    if "&amp;" <= s then Entity('&', 5)
    else if "&lt;" <= s then Entity('<', 4)
    else if "&gt;" <= s then Entity('>', 4)
    else if "&quot;" <= s then Entity('"', 6)
    else if "&apos;" <= s then Entity('\'', 6)
    else Entity(s[0], 1)
  }

  function DecodeEntities(s: string): string
    decreases |s|
  {
    if s == "" then ""
    else
      var e := NextEntity(s);
      [e.c] + DecodeEntities(s[e.len..])
  }

  const ENTITIES: seq<string> := ["&amp;", "&lt;", "&gt;", "&quot;", "&apos;"]
  const SPECIALS: string := "&<>\"'"

  /** The five predefined entities stand for their characters, and any other ampersand for itself. */
  lemma EntityTable(s: string)
    requires s != ""
    ensures forall i :: 0 <= i < 5 && ENTITIES[i] <= s ==> NextEntity(s) == Entity(SPECIALS[i], |ENTITIES[i]|)
    ensures (forall i :: 0 <= i < 5 ==> !(ENTITIES[i] <= s)) ==> NextEntity(s) == Entity(s[0], 1)
  {
    assert ENTITIES[0] == "&amp;" && ENTITIES[1] == "&lt;" && ENTITIES[2] == "&gt;" && ENTITIES[3] == "&quot;" && ENTITIES[4] == "&apos;";
    assert "&amp;" <= s ==> s[1] == 'a' && s[2] == 'm';
    assert "&lt;" <= s ==> s[1] == 'l';
    assert "&gt;" <= s ==> s[1] == 'g';
    assert "&quot;" <= s ==> s[1] == 'q';
    assert "&apos;" <= s ==> s[1] == 'a' && s[2] == 'p';
  }

  // ----- extraction

  /** The tag that opens `s`, up to its '>', and what follows it. */
  function TagHead(s: string): Option<Split> {
    Search(s, ">")
  }

  function XmlText(xml: string, tag: string): string {
    var start := FindStartTag(xml, tag);
    if start.None? then ""
    else
      var g := TagHead(start.value);
      if g.None? then ""
      else if g.value.before != "" && g.value.before[|g.value.before| - 1] == '/' then ""
      else
        var c := Search(g.value.at[1..], "</" + tag);
        if c.None? then "" else DecodeEntities(c.value.before)
  }

  function XmlAttr(xml: string, tag: string, attr: string): string {
    var start := FindStartTag(xml, tag);
    if start.None? then ""
    else
      var g := TagHead(start.value);
      if g.None? then ""
      else
        var a := Search(g.value.before, attr + "=");
        if a.None? then ""
        else
          var q := a.value.at[|attr| + 1..];
          if q == "" || (q[0] != '"' && q[0] != '\'') then ""
          else
            var e := Search(q[1..], [q[0]]);
            if e.None? then "" else DecodeEntities(e.value.before)
  }

  /** A tag that closes itself, has no '>', or is not closed holds no text. */
  lemma NoText(xml: string, tag: string)
    requires FindStartTag(xml, tag).Some?
    ensures
      var s := FindStartTag(xml, tag).value;
      && (Search(s, ">").None? ==> XmlText(xml, tag) == "" && forall attr :: XmlAttr(xml, tag, attr) == "")
      && (forall head, rest :: Search(s, ">") == Some(Split(head + "/", rest)) ==> XmlText(xml, tag) == "")
      && (forall head, rest :: Search(s, ">") == Some(Split(head, rest)) && |rest| >= 1 && Search(rest[1..], "</" + tag).None?
            ==> XmlText(xml, tag) == "")
  {
    hide Search, DecodeEntities;
  }

  /** An attribute is read in quotes of either kind. */
  lemma QuotedAttr(xml: string, tag: string, attr: string, head: string, rest: string, before: string, q: char, v: string, tail: string)
    requires FindStartTag(xml, tag).Some? && Search(FindStartTag(xml, tag).value, ">") == Some(Split(head, rest))
    requires Search(head, attr + "=") == Some(Split(before, attr + "=" + ([q] + (v + ([q] + tail)))))
    requires q == '"' || q == '\''
    requires forall i :: 0 <= i < |v| ==> v[i] != q
    ensures XmlAttr(xml, tag, attr) == DecodeEntities(v)
  {
    hide DecodeEntities, FindStartTag;
    var at := attr + "=" + ([q] + (v + ([q] + tail)));
    var quoted := [q] + (v + ([q] + tail));
    assert at[|attr| + 1..] == quoted && quoted[1..] == v + ([q] + tail);
    FirstQuote(v, q, tail);
    hide Search;
  }

  lemma {:induction false} FirstQuote(v: string, q: char, tail: string)
    requires forall i :: 0 <= i < |v| ==> v[i] != q
    ensures Search(v + ([q] + tail), [q]) == Some(Split(v, [q] + tail))
  {
    var s := v + ([q] + tail);
    if v == "" {
      assert s == [q] + tail;
    } else {
      assert s[0] == v[0] && s[1..] == v[1..] + ([q] + tail);
      FirstQuote(v[1..], q, tail);
      assert v == [v[0]] + v[1..];
    }
  }

  // ----- hexadecimal

  function ToHex(b: string): (h: string)
    requires IsBytes(b)
    ensures |h| == 2 * |b|
  {
    if b == "" then "" else [HexChar(b[0] as int / 16), HexChar(b[0] as int % 16)] + ToHex(b[1..])
  }

  predicate AllHex(h: string) {
    forall i :: 0 <= i < |h| ==> IsHex(h[i])
  }

  /** Pairs of digits to bytes; anything else in the text makes the result empty. */
  function FromHex(h: string): (b: string)
    ensures IsBytes(b)
  {
    if |h| % 2 == 0 && AllHex(h) then HexPairs(h) else ""
  }

  function HexPairs(h: string): (b: string)
    requires |h| % 2 == 0 && AllHex(h)
    ensures |b| == |h| / 2 && IsBytes(b)
  {
    if h == "" then ""
    else
      assert IsHex(h[0]) && IsHex(h[1]);
      [(HexVal(h[0]) * 16 + HexVal(h[1])) as char] + HexPairs(h[2..])
  }

  function XmlTextHex(xml: string, tag: string): (b: string)
    ensures IsBytes(b)
  {
    FromHex(XmlText(xml, tag))
  }

  lemma {:induction false} ToHexDigits(b: string)
    requires IsBytes(b)
    ensures AllHex(ToHex(b))
  {
    if b != "" {
      ToHexDigits(b[1..]);
    }
  }

  /** Hexadecimal is undone exactly, for every byte string. */
  lemma {:induction false} FromToHex(b: string)
    requires IsBytes(b)
    ensures FromHex(ToHex(b)) == b
  {
    ToHexDigits(b);
    if b != "" {
      FromToHex(b[1..]);
      ToHexDigits(b[1..]);
      var h := ToHex(b);
      assert h[2..] == ToHex(b[1..]);
      assert b == [b[0]] + b[1..];
    }
  }

  // ----- the loops of the source

  /** std::string::find as an index. */
  method Find(s: string, needle: string, from: nat) returns (at: Option<nat>)
    requires needle != ""
    ensures from > |s| ==> at == None
    ensures from <= |s| ==> (at.Some? <==> Search(s[from..], needle).Some?)
    ensures at.Some? && from <= |s| ==>
      && from <= at.value <= |s| && needle <= s[at.value..]
      && Search(s[from..], needle) == Some(Split(s[from..at.value], s[at.value..]))
  {
    hide Search;
    if from > |s| { return None; }
    var i := from;
    ShiftNothing(Search(s[from..], needle));
    assert s[from..from] == "";
    while i <= |s|
      invariant from <= i <= |s| + 1
      invariant i <= |s| ==> Search(s[from..], needle) == Shift(s[from..i], Search(s[i..], needle))
      invariant i == |s| + 1 ==> Search(s[from..], needle).None?
    {
      SearchStep(s, needle, from, i);
      if needle <= s[i..] {
        return Some(i);
      }
      i := i + 1;
    }
    return None;
  }

  function Shift(pre: string, r: Option<Split>): Option<Split> {
    if r.None? then None else Some(Split(pre + r.value.before, r.value.at))
  }

  lemma ShiftNothing(r: Option<Split>)
    ensures Shift("", r) == r
  {
    if r.Some? {
      assert "" + r.value.before == r.value.before;
    }
  }

  lemma SearchStep(s: string, needle: string, from: nat, i: nat)
    requires from <= i <= |s| && needle != ""
    ensures needle <= s[i..] ==> Shift(s[from..i], Search(s[i..], needle)) == Some(Split(s[from..i], s[i..]))
    ensures !(needle <= s[i..]) && i < |s| ==>
      Shift(s[from..i], Search(s[i..], needle)) == Shift(s[from..i + 1], Search(s[i + 1..], needle))
    ensures !(needle <= s[i..]) && i == |s| ==> Search(s[i..], needle).None?
  {
    if needle <= s[i..] {
      assert s[from..i] + "" == s[from..i];
    } else if i < |s| {
      assert s[i..][1..] == s[i + 1..];
      var r := Search(s[i + 1..], needle);
      if r.Some? {
        assert s[from..i] + ([s[i]] + r.value.before) == s[from..i + 1] + r.value.before;
      }
    }
  }

  /** The suffixes between two positions, none of which opens the tag. */
  lemma {:induction false} SkipSearch(s: string, tag: string, i: nat, at: nat)
    requires i <= at <= |s| && Search(s[i..], "<" + tag) == Some(Split(s[i..at], s[at..]))
    ensures FindStartTag(s[i..], tag) == FindStartTag(s[at..], tag)
    decreases at - i
  {
    var needle := "<" + tag;
    if needle <= s[i..] {
      assert s[i..at] == "";
    } else {
      assert s[i..][1..] == s[i + 1..];
      var r := Search(s[i + 1..], needle);
      assert i < at;
      assert r == Some(Split(s[i + 1..at], s[at..])) by {
        assert s[i..at][1..] == s[i + 1..at];
        assert r.value.before == ([s[i]] + r.value.before)[1..];
      }
      SkipSearch(s, tag, i + 1, at);
    }
  }

  lemma {:induction false} NoSearchNoTag(s: string, tag: string)
    requires Search(s, "<" + tag).None?
    ensures FindStartTag(s, tag).None?
  {
    if s != "" {
      NoSearchNoTag(s[1..], tag);
    }
  }

  lemma OpensAt(xml: string, tag: string, at: nat)
    requires at < |xml| && "<" + tag <= xml[at..]
    ensures OpensHere(xml[at..], tag) <==> at + |tag| + 1 < |xml| && EndsName(xml[at + |tag| + 1])
    ensures OpensHere(xml[at..], tag) ==> FindStartTag(xml[at..], tag) == Some(xml[at..])
  {
  }

  lemma NextSuffix(xml: string, tag: string, at: nat)
    requires at < |xml| && !OpensHere(xml[at..], tag)
    ensures FindStartTag(xml[at..], tag) == FindStartTag(xml[at + 1..], tag)
  {
    assert xml[at..][1..] == xml[at + 1..];
  }

  method FindStartTagAt(xml: string, tag: string) returns (at: Option<nat>)
    ensures at.Some? <==> FindStartTag(xml, tag).Some?
    ensures at.Some? ==> at.value < |xml| && FindStartTag(xml, tag) == Some(xml[at.value..])
  {
    hide Search, FindStartTag, OpensHere;
    var needle := "<" + tag;
    var from := 0;
    assert xml[0..] == xml;
    while true
      invariant from <= |xml|
      invariant FindStartTag(xml, tag) == FindStartTag(xml[from..], tag)
      decreases |xml| - from
    {
      at := Find(xml, needle, from);
      if at.None? {
        NoSearchNoTag(xml[from..], tag);
        return;
      }
      SkipSearch(xml, tag, from, at.value);
      var after := at.value + |needle|;
      OpensAt(xml, tag, at.value);
      if after < |xml| && EndsName(xml[after]) {
        return;
      }
      NextSuffix(xml, tag, at.value);
      from := at.value + 1;
    }
  }

  lemma DecodeStep(out: string, s: string)
    requires s != ""
    ensures var e := NextEntity(s); out + DecodeEntities(s) == (out + [e.c]) + DecodeEntities(s[e.len..])
  {
    hide NextEntity;
  }

  method DecodeEntitiesLoop(s: string) returns (out: string)
    ensures out == DecodeEntities(s)
  {
    hide NextEntity, DecodeEntities;
    out := "";
    var i := 0;
    assert s[0..] == s && "" + DecodeEntities(s) == DecodeEntities(s);
    while i < |s|
      invariant i <= |s|
      invariant DecodeEntities(s) == out + DecodeEntities(s[i..])
    {
      var e := NextEntity(s[i..]);
      DecodeStep(out, s[i..]);
      assert s[i..][e.len..] == s[i + e.len..];
      out := out + [e.c];
      i := i + e.len;
    }
    DecodeNothing(s[i..]);
    assert out + "" == out;
  }

  lemma DecodeNothing(s: string)
    requires |s| == 0
    ensures DecodeEntities(s) == ""
  {
  }

  method ToHexLoop(bytes: string) returns (out: string)
    requires IsBytes(bytes)
    ensures out == ToHex(bytes)
  {
    out := "";
    assert bytes[0..] == bytes;
    for i := 0 to |bytes|
      invariant ToHex(bytes) == out + ToHex(bytes[i..])
    {
      var c := bytes[i] as int;
      assert bytes[i..][1..] == bytes[i + 1..];
      out := out + [HexChar(c / 16)] + [HexChar(c % 16)];
    }
  }

  lemma AllHexStep(h: string)
    requires |h| >= 2
    ensures AllHex(h) <==> IsHex(h[0]) && IsHex(h[1]) && AllHex(h[2..])
  {
    hide HexVal;
    var t := h[2..];
    assert forall i :: 2 <= i < |h| ==> h[i] == t[i - 2];
    if AllHex(h) {
      assert forall i :: 0 <= i < |t| ==> t[i] == h[i + 2];
    }
  }

  lemma HexStep(out: string, h: string)
    requires |h| >= 2 && |h| % 2 == 0
    ensures AllHex(h) <==> IsHex(h[0]) && IsHex(h[1]) && AllHex(h[2..])
    ensures AllHex(h) ==>
      out + HexPairs(h) == (out + [(HexVal(h[0]) * 16 + HexVal(h[1])) as char]) + HexPairs(h[2..])
  {
    AllHexStep(h);
    hide HexVal, AllHex;
    if AllHex(h) {
      Regroup(out, [(HexVal(h[0]) * 16 + HexVal(h[1])) as char], HexPairs(h[2..]));
    }
  }

  /** Two digits of either case for each byte. */
  ghost predicate SpellsBytes(h: string, b: string) {
    |h| == 2 * |b| && forall i :: 0 <= i < |b| ==> SpellsByte(h[2 * i], h[2 * i + 1], b[i])
  }

  ghost predicate SpellsByte(x: char, y: char, c: char) {
    IsHexDigit(x, c as int / 16) && IsHexDigit(y, c as int % 16)
  }

  lemma SpelledByte(x: char, y: char, c: char)
    ensures SpellsByte(x, y, c) <==> IsHex(x) && IsHex(y) && HexVal(x) * 16 + HexVal(y) == c as int
  {
    HexTable(x, c as int / 16);
    HexTable(y, c as int % 16);
    hide HexVal, IsHexDigit;
  }

  lemma {:induction false} PairsSpell(h: string, b: string)
    ensures SpellsBytes(h, b) <==> |h| % 2 == 0 && AllHex(h) && HexPairs(h) == b
    decreases |h|
  {
    hide HexVal, IsHexDigit, SpellsByte;
    if |h| >= 2 && b != "" {
      PairsSpell(h[2..], b[1..]);
      SpelledByte(h[0], h[1], b[0]);
      AllHexStep(h);
      SpellsStep(h, b);
      if AllHex(h) && |h| % 2 == 0 {
        PairsStep(h, b);
      }
    } else if |h| == 1 {
      assert |b| != 0 ==> |h| != 2 * |b|;
    }
  }

  lemma PairsStep(h: string, b: string)
    requires |h| >= 2 && |h| % 2 == 0 && AllHex(h) && AllHex(h[2..]) && b != ""
    ensures HexPairs(h) == b <==> HexVal(h[0]) * 16 + HexVal(h[1]) == b[0] as int && HexPairs(h[2..]) == b[1..]
  {
    hide HexVal;
    assert b == [b[0]] + b[1..];
    assert HexPairs(h)[1..] == HexPairs(h[2..]);
  }

  lemma SpellsStep(h: string, b: string)
    requires |h| >= 2 && b != ""
    ensures SpellsBytes(h, b) <==> SpellsByte(h[0], h[1], b[0]) && SpellsBytes(h[2..], b[1..])
  {
    hide SpellsByte;
    var t, u := h[2..], b[1..];
    if SpellsBytes(h, b) {
      forall i | 0 <= i < |u| ensures SpellsByte(t[2 * i], t[2 * i + 1], u[i]) {
        assert t[2 * i] == h[2 * (i + 1)] && t[2 * i + 1] == h[2 * (i + 1) + 1] && u[i] == b[i + 1];
      }
    }
    if SpellsByte(h[0], h[1], b[0]) && SpellsBytes(t, u) {
      forall i | 0 <= i < |b| ensures SpellsByte(h[2 * i], h[2 * i + 1], b[i]) {
        if i > 0 {
          assert h[2 * i] == t[2 * (i - 1)] && h[2 * i + 1] == t[2 * (i - 1) + 1] && b[i] == u[i - 1];
        }
      }
    }
  }

  /** Decoding gives the bytes that the digits spell, in either case, and nothing if they spell none. */
  lemma FromHexIs(h: string, b: string)
    ensures SpellsBytes(h, b) ==> FromHex(h) == b
    ensures b != "" && FromHex(h) == b ==> SpellsBytes(h, b)
  {
    hide HexPairs, AllHex, SpellsBytes;
    PairsSpell(h, b);
  }

  /** Encoding spells the bytes, in lower case. */
  lemma {:induction false} ToHexSpells(b: string)
    requires IsBytes(b)
    ensures SpellsBytes(ToHex(b), b)
    ensures forall i :: 0 <= i < |ToHex(b)| ==> ToHex(b)[i] in LOWER_HEX
  {
    if b != "" {
      ToHexSpells(b[1..]);
      var h := ToHex(b);
      HexTable(h[0], b[0] as int / 16);
      HexTable(h[1], b[0] as int % 16);
      hide HexVal, HexChar;
      assert h[2..] == ToHex(b[1..]);
      SpellsStep(h, b);
      forall i | 0 <= i < |h| ensures h[i] in LOWER_HEX {
        if i >= 2 {
          assert h[i] == h[2..][i - 2];
        }
      }
    }
  }

  method FromHexLoop(hex: string) returns (out: string)
    ensures out == FromHex(hex)
  {
    hide HexVal, HexPairs, AllHex;
    if |hex| % 2 != 0 { return ""; }
    out := "";
    var i := 0;
    assert hex[0..] == hex;
    if AllHex(hex) {
      assert "" + HexPairs(hex) == HexPairs(hex);
    }
    while i < |hex|
      invariant i <= |hex| && i % 2 == 0
      invariant AllHex(hex) <==> AllHex(hex[i..])
      invariant AllHex(hex) ==> HexPairs(hex) == out + HexPairs(hex[i..])
    {
      HexStep(out, hex[i..]);
      assert hex[i..][2..] == hex[i + 2..];
      var hi, lo := HexVal(hex[i]), HexVal(hex[i + 1]);
      if hi < 0 || lo < 0 { return ""; }
      out := out + [(hi * 16 + lo) as char];
      i := i + 2;
    }
    NoHex(hex[i..]);
    assert out + "" == out;
  }

  lemma NoHex(h: string)
    requires |h| == 0
    ensures AllHex(h) && HexPairs(h) == ""
  {
  }

  lemma StartsWithAngle(s: string, tag: string)
    requires OpensHere(s, tag)
    ensures Starts(s, '<')
  {
  }

  method XmlTextScan(xml: string, tag: string) returns (text: string)
    ensures text == XmlText(xml, tag)
  {
    hide Search, FindStartTag, DecodeEntities, OpensHere;
    var start := FindStartTagAt(xml, tag);
    if start.None? { return ""; }
    assert Starts(xml[start.value..], '<') by { StartsWithAngle(xml[start.value..], tag); }
    var gt := Find(xml, ">", start.value);
    if gt.None? { return ""; }
    assert Starts(xml[gt.value..], '>');
    assert start.value < gt.value;
    var head := xml[start.value..gt.value];
    assert head[|head| - 1] == xml[gt.value - 1];
    if xml[gt.value - 1] == '/' { return ""; }
    assert xml[gt.value..][1..] == xml[gt.value + 1..];
    var close := Find(xml, "</" + tag, gt.value + 1);
    if close.None? { return ""; }
    text := DecodeEntitiesLoop(xml[gt.value + 1..close.value]);
  }
}
