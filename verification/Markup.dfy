/** Flat XML documents as a host writes them, and what the extraction functions read from them. */
module Markup {
  import opened Common
  import opened Xml

  // ----- documents

  /** An element holding only text, and the character data after it. */
  datatype Field = Field(name: string, attrs: string, body: string, gap: string)

  predicate Lacks(s: string, c: char) {
    forall i :: 0 <= i < |s| ==> s[i] != c
  }

  predicate ValidName(n: string) {
    n != "" && forall i :: 0 <= i < |n| ==> !EndsName(n[i]) && n[i] != '<' && n[i] != '?'
  }

  /** Attributes: set off by white space, free of angle brackets, not ending the tag by themselves. */
  predicate AttrsOk(a: string) {
    a == "" || (IsSpace(a[0]) && Lacks(a, '<') && Lacks(a, '>') && a[|a| - 1] != '/')
  }

  ghost predicate FieldOk(f: Field) {
    ValidName(f.name) && AttrsOk(f.attrs) && Lacks(f.body, '<') && Lacks(f.gap, '<')
  }

  ghost predicate FieldsOk(fs: seq<Field>) {
    forall i :: 0 <= i < |fs| ==> FieldOk(fs[i])
  }

  function OpenThen(name: string, attrs: string, rest: string): string {
    "<" + (name + (attrs + (">" + rest)))
  }

  function CloseThen(name: string, rest: string): string {
    "</" + (name + (">" + rest))
  }

  function FieldThen(f: Field, rest: string): string {
    OpenThen(f.name, f.attrs, f.body + CloseThen(f.name, f.gap + rest))
  }

  function FieldsThen(fs: seq<Field>, rest: string): string {
    if fs == [] then rest else FieldThen(fs[0], FieldsThen(fs[1..], rest))
  }

  /** The text of the first field with a name. */
  function TextOf(fs: seq<Field>, tag: string): Option<string> {
    if fs == [] then None
    else if fs[0].name == tag then Some(DecodeEntities(fs[0].body))
    else TextOf(fs[1..], tag)
  }

  lemma FieldConcat(f: Field, a: string, b: string)
    ensures FieldThen(f, a) + b == FieldThen(f, a + b)
  {
    assert (f.gap + a) + b == f.gap + (a + b);
    CloseConcat(f.name, f.gap + a, b);
    assert (f.body + CloseThen(f.name, f.gap + a)) + b == f.body + (CloseThen(f.name, f.gap + a) + b);
    OpenConcat(f.name, f.attrs, f.body + CloseThen(f.name, f.gap + a), b);
  }

  lemma CloseConcat(name: string, a: string, b: string)
    ensures CloseThen(name, a) + b == CloseThen(name, a + b)
  {
  }

  lemma OpenConcat(name: string, attrs: string, a: string, b: string)
    ensures OpenThen(name, attrs, a) + b == OpenThen(name, attrs, a + b)
  {
  }

  // ----- start tags

  lemma {:induction false} SkipText(t: string, rest: string, tag: string)
    requires Lacks(t, '<')
    ensures FindStartTag(t + rest, tag) == FindStartTag(rest, tag)
  {
    if t == "" {
      assert t + rest == rest;
    } else {
      assert (t + rest)[1..] == t[1..] + rest;
      assert !OpensHere(t + rest, tag) by {
        assert ("<" + tag)[0] == '<';
      }
      SkipText(t[1..], rest, tag);
    }
  }

  /** Past a '<' that does not open the tag, and text without another one. */
  lemma SkipMarkup(t: string, rest: string, tag: string)
    requires Lacks(t, '<') && !OpensHere("<" + (t + rest), tag)
    ensures FindStartTag("<" + (t + rest), tag) == FindStartTag(rest, tag)
  {
    assert ("<" + (t + rest))[1..] == t + rest;
    SkipText(t, rest, tag);
  }

  /** Where two names end decides whether they are equal. */
  lemma OtherName(name: string, tail: string, tag: string)
    requires ValidName(name) && ValidName(tag) && name != tag && tail != "" && EndsName(tail[0])
    ensures !OpensHere("<" + (name + tail), tag)
  {
    var s, needle := "<" + (name + tail), "<" + tag;
    if |tag| < |name| {
      assert s[|tag| + 1] == name[|tag|];
    } else if |tag| > |name| {
      assert s[|name| + 1] == tail[0];
      assert needle[|name| + 1] == tag[|name|];
    } else {
      assert s[..|tag| + 1] == "<" + name;
      assert needle[1..] == tag && ("<" + name)[1..] == name;
    }
  }

  lemma SkipOpen(name: string, attrs: string, rest: string, tag: string)
    requires ValidName(name) && ValidName(tag) && AttrsOk(attrs) && name != tag
    ensures FindStartTag(OpenThen(name, attrs, rest), tag) == FindStartTag(rest, tag)
  {
    var tail := attrs + (">" + rest);
    OtherName(name, tail, tag);
    var t := name + (attrs + ">");
    assert name + tail == t + rest;
    SkipMarkup(t, rest, tag);
  }

  lemma SkipClose(name: string, rest: string, tag: string)
    requires ValidName(name) && ValidName(tag)
    ensures FindStartTag(CloseThen(name, rest), tag) == FindStartTag(rest, tag)
  {
    var t := "/" + (name + ">");
    var s := "<" + (t + rest);
    assert CloseThen(name, rest) == s;
    assert s[1] == '/' && ("<" + tag)[1] == tag[0] && tag[0] != '/';
    SkipMarkup(t, rest, tag);
  }

  lemma HitOpen(tag: string, attrs: string, rest: string)
    requires AttrsOk(attrs)
    ensures FindStartTag(OpenThen(tag, attrs, rest), tag) == Some(OpenThen(tag, attrs, rest))
  {
    var s := OpenThen(tag, attrs, rest);
    assert s == ("<" + tag) + (attrs + (">" + rest));
    assert s[|tag| + 1] == (attrs + (">" + rest))[0];
  }

  // ----- searching

  lemma {:induction false} SearchSkips(t: string, rest: string, needle: string)
    requires needle != "" && Lacks(t, needle[0])
    ensures Search(t + rest, needle) == Shift(t, Search(rest, needle))
  {
    if t == "" {
      assert t + rest == rest;
      ShiftNothing(Search(rest, needle));
    } else {
      assert (t + rest)[1..] == t[1..] + rest;
      assert !(needle <= t + rest);
      SearchSkips(t[1..], rest, needle);
      var r := Search(rest, needle);
      if r.Some? {
        assert [t[0]] + (t[1..] + r.value.before) == t + r.value.before;
      }
    }
  }

  lemma SearchFinds(t: string, rest: string, needle: string)
    requires needle != "" && Lacks(t, needle[0]) && needle <= rest
    ensures Search(t + rest, needle) == Some(Split(t, rest))
  {
    SearchSkips(t, rest, needle);
    assert t + "" == t;
  }

  /** The head of a tag runs to its '>'. */
  lemma HeadOf(name: string, attrs: string, rest: string)
    requires ValidName(name) && AttrsOk(attrs)
    ensures TagHead(OpenThen(name, attrs, rest)) == Some(Split("<" + (name + attrs), ">" + rest))
  {
    var t := "<" + (name + attrs);
    assert OpenThen(name, attrs, rest) == t + (">" + rest);
    SearchFinds(t, ">" + rest, ">");
  }

  // ----- what is read

  lemma TextOfField(f: Field, rest: string)
    requires FieldOk(f)
    ensures XmlText(FieldThen(f, rest), f.name) == DecodeEntities(f.body)
  {
    hide Search, FindStartTag, DecodeEntities;
    var close := CloseThen(f.name, f.gap + rest);
    HitOpen(f.name, f.attrs, f.body + close);
    HeadOf(f.name, f.attrs, f.body + close);
    var head := "<" + (f.name + f.attrs);
    assert head[|head| - 1] == if f.attrs == "" then f.name[|f.name| - 1] else f.attrs[|f.attrs| - 1];
    assert (">" + (f.body + close))[1..] == f.body + close;
    assert close == ("</" + f.name) + (">" + (f.gap + rest));
    SearchFinds(f.body, close, "</" + f.name);
  }

  lemma SkipField(f: Field, rest: string, tag: string)
    requires FieldOk(f) && ValidName(tag) && f.name != tag
    ensures FindStartTag(FieldThen(f, rest), tag) == FindStartTag(rest, tag)
  {
    hide FindStartTag;
    var close := CloseThen(f.name, f.gap + rest);
    SkipOpen(f.name, f.attrs, f.body + close, tag);
    SkipText(f.body, close, tag);
    SkipClose(f.name, f.gap + rest, tag);
    SkipText(f.gap, rest, tag);
  }

  /** `xml_text` returns the decoded text of the first field with the name, wherever it stands. */
  lemma {:induction false} TextOfFields(fs: seq<Field>, rest: string, tag: string)
    requires FieldsOk(fs) && ValidName(tag)
    ensures XmlText(FieldsThen(fs, rest), tag)
         == if TextOf(fs, tag).Some? then TextOf(fs, tag).value else XmlText(rest, tag)
  {
    hide FindStartTag, TagHead, Search, DecodeEntities, FieldThen;
    if fs != [] {
      assert FieldOk(fs[0]);
      if fs[0].name == tag {
        TextOfField(fs[0], FieldsThen(fs[1..], rest));
      } else {
        SkipField(fs[0], FieldsThen(fs[1..], rest), tag);
        TextOfFields(fs[1..], rest, tag);
      }
    }
  }

  // ----- a response with a status

  /** An XML declaration, or nothing. */
  ghost predicate DeclOk(d: string) {
    d == "" || ("<?" <= d && Lacks(d[1..], '<'))
  }

  function StatusAttr(status: string): string {
    " status_code=\"" + (status + "\"")
  }

  /** The document a host sends: declaration, root with its status, content. */
  function ResponseThen(decl: string, status: string, inner: string): string {
    decl + OpenThen("root", StatusAttr(status), inner)
  }

  ghost predicate StatusOk(status: string) {
    forall i :: 0 <= i < |status| ==> IsDigit(status[i])
  }

  lemma SkipDecl(decl: string, rest: string, tag: string)
    requires DeclOk(decl) && ValidName(tag)
    ensures FindStartTag(decl + rest, tag) == FindStartTag(rest, tag)
  {
    if decl == "" {
      assert decl + rest == rest;
    } else {
      var s := "<" + (decl[1..] + rest);
      assert decl + rest == s;
      assert s[1] == '?' && ("<" + tag)[1] == tag[0] && tag[0] != '?';
      SkipMarkup(decl[1..], rest, tag);
    }
  }

  lemma RootName()
    ensures ValidName("root")
  {
  }

  lemma StatusAttrOk(status: string)
    requires StatusOk(status)
    ensures AttrsOk(StatusAttr(status))
  {
    var a := StatusAttr(status);
    assert a[|a| - 1] == '"';
  }

  /** Content is read as if it stood alone. */
  lemma TextInResponse(decl: string, status: string, inner: string, tag: string)
    requires DeclOk(decl) && StatusOk(status) && ValidName(tag) && tag != "root"
    ensures FindStartTag(ResponseThen(decl, status, inner), tag) == FindStartTag(inner, tag)
    ensures XmlText(ResponseThen(decl, status, inner), tag) == XmlText(inner, tag)
  {
    hide FindStartTag, Search, DecodeEntities, StatusAttr;
    RootName();
    StatusAttrOk(status);
    SkipDecl(decl, OpenThen("root", StatusAttr(status), inner), tag);
    SkipOpen("root", StatusAttr(status), inner, tag);
  }

  lemma NotPrefix(e: string, s: string)
    requires e != "" && s != "" && e[0] != s[0]
    ensures !(e <= s)
  {
  }

  lemma NoEntity(s: string)
    requires s != "" && s[0] != '&'
    ensures !("&amp;" <= s) && !("&lt;" <= s) && !("&gt;" <= s) && !("&quot;" <= s) && !("&apos;" <= s)
  {
    NotPrefix("&amp;", s);
    NotPrefix("&lt;", s);
    NotPrefix("&gt;", s);
    NotPrefix("&quot;", s);
    NotPrefix("&apos;", s);
  }

  lemma {:induction false} PlainText(s: string)
    requires Lacks(s, '&')
    ensures DecodeEntities(s) == s
  {
    if s != "" {
      NoEntity(s);
      PlainText(s[1..]);
      assert s == [s[0]] + s[1..];
    }
  }

  lemma StatusOfResponse(decl: string, status: string, inner: string)
    requires DeclOk(decl) && StatusOk(status)
    ensures XmlAttr(ResponseThen(decl, status, inner), "root", "status_code") == status
  {
    hide FindStartTag, Search, DecodeEntities, StatusAttr, OpenThen;
    var attrs := StatusAttr(status);
    RootName();
    StatusAttrOk(status);
    SkipDecl(decl, OpenThen("root", attrs, inner), "root");
    HitOpen("root", attrs, inner);
    HeadOf("root", attrs, inner);
    StatusInHead(status);
    StatusIsPlain(status);
    assert "status_code" + "=" == "status_code=";
    assert ['"'] == "\"";
  }

  lemma StatusIsPlain(status: string)
    requires StatusOk(status)
    ensures DecodeEntities(status) == status
  {
    PlainText(status);
  }

  lemma StatusInHead(status: string)
    requires StatusOk(status)
    ensures
      var a := Search("<" + ("root" + StatusAttr(status)), "status_code=");
      && a.Some? && |a.value.at| >= 12
      && var q := a.value.at[12..];
      && q != "" && q[0] == '"' && Search(q[1..], "\"") == Some(Split(status, "\""))
  {
    var head := "<" + ("root" + StatusAttr(status));
    var quoted := "\"" + (status + "\"");
    assert head == "<root " + ("status_code=" + quoted);
    SearchFinds("<root ", "status_code=" + quoted, "status_code=");
    assert ("status_code=" + quoted)[12..] == quoted;
    assert quoted[1..] == status + "\"";
    SearchFinds(status, "\"", "\"");
  }

  // ----- entity escaping: section 4.6 of XML 1.0

  /** Ampersand and less-than are always escaped, the other three specials where `esc` says so. */
  function EscapeXmlChar(c: char, esc: bool): string {
    if c == '&' then "&amp;"
    else if c == '<' then "&lt;"
    else if c == '>' && esc then "&gt;"
    else if c == '"' && esc then "&quot;"
    else if c == '\'' && esc then "&apos;"
    else [c]
  }

  function EscapeXml(s: string, esc: seq<bool>): string
    requires |esc| == |s|
  {
    if s == "" then "" else EscapeXmlChar(s[0], esc[0]) + EscapeXml(s[1..], esc[1..])
  }

  lemma NextEntityOf(c: char, esc: bool, rest: string)
    ensures var t := EscapeXmlChar(c, esc); NextEntity(t + rest) == Entity(c, |t|)
  {
    var s := EscapeXmlChar(c, esc) + rest;
    if EscapeXmlChar(c, esc) == [c] {
      assert s[0] == c && c != '&';
    } else if c == '<' {
      assert s[1] == 'l';
    } else if c == '>' {
      assert s[1] == 'g';
    } else if c == '"' {
      assert s[1] == 'q';
    } else if c == '\'' {
      assert s[1] == 'a' && s[2] == 'p';
    }
  }

  /** Escaped text decodes to what it was, for any bytes, and never opens a tag. */
  lemma {:induction false} DecodeEscaped(s: string, esc: seq<bool>)
    requires |esc| == |s|
    ensures DecodeEntities(EscapeXml(s, esc)) == s && Lacks(EscapeXml(s, esc), '<')
  {
    hide NextEntity, EscapeXmlChar;
    if s != "" {
      var t, rest := EscapeXmlChar(s[0], esc[0]), EscapeXml(s[1..], esc[1..]);
      NextEntityOf(s[0], esc[0], rest);
      NoAngle(s[0], esc[0]);
      DecodeEscaped(s[1..], esc[1..]);
      assert (t + rest)[|t|..] == rest;
      assert s == [s[0]] + s[1..];
    }
  }

  lemma NoAngle(c: char, esc: bool)
    ensures EscapeXmlChar(c, esc) != "" && Lacks(EscapeXmlChar(c, esc), '<')
  {
  }

  lemma {:induction false} HexIsPlain(h: string)
    requires AllHex(h)
    ensures Lacks(h, '&') && Lacks(h, '<')
  {
    forall i | 0 <= i < |h| ensures h[i] != '&' && h[i] != '<' {
      assert IsHex(h[i]);
    }
  }
}
