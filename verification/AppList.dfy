/** The app list of src/net/nv_applist.cpp: scanning the host's XML, and resolving an app reference. */
module AppList {
  import opened Common
  import opened Xml
  import opened Markup

  datatype AppInfo = AppInfo(id: int, title: string, hdr: bool)

  // ----- atoi

  function SkipSpaces(s: string): (r: string)
    ensures |r| <= |s|
  {
    if s != "" && IsSpace(s[0]) then SkipSpaces(s[1..]) else s
  }

  /** White space, a sign, digits; what follows is ignored. Exact where the C function would overflow. */
  function Atoi(s: string): int {
    var t := SkipSpaces(s);
    var neg := Starts(t, '-');
    var d := if neg || Starts(t, '+') then t[1..] else t;
    var n: int := DecimalValue(d[..DigitSpan(d)]);
    if neg then -n else n
  }

  lemma AtoiDecimal(n: nat)
    ensures Atoi(Decimal(n)) == n
  {
    var d := Decimal(n);
    assert IsDigit(d[0]);
    DigitSpanOf(d, "");
    assert d + "" == d && d[..|d|] == d;
    DecimalRoundTrip(n);
  }

  /** White space by its codes: tab to carriage return, and space. */
  ghost predicate Spaces(w: string) {
    forall i :: 0 <= i < |w| ==> w[i] as int == 0x20 || 0x09 <= w[i] as int <= 0x0d
  }

  lemma {:induction false} SkipSpacesOf(w: string, s: string)
    requires Spaces(w) && (s != "" ==> !Spaces([s[0]]))
    ensures SkipSpaces(w + s) == s
  {
    if w == "" {
      assert w + s == s;
      if s != "" {
        assert [s[0]][0] == s[0];
      }
    } else {
      assert (w + s)[1..] == w[1..] + s;
      SkipSpacesOf(w[1..], s);
    }
  }

  /** What atoi reads: white space, a sign or none, the number that the digits spell; the rest is ignored. */
  lemma AtoiReads(w: string, sign: string, d: string, n: nat, rest: string)
    requires Spaces(w) && (sign == "" || sign == "+" || sign == "-") && SpellsDecimal(d, n)
    requires rest != "" ==> !IsDigit(rest[0])
    requires d == "" && sign == "" && rest != "" ==> !Spaces([rest[0]]) && rest[0] != '+' && rest[0] != '-'
    ensures Atoi(w + (sign + (d + rest))) == if sign == "-" then 0 - n else n
  {
    DecimalValueIs(d, n);
    hide SpellsDecimal, DecimalValue;
    var t := sign + (d + rest);
    if t != "" {
      assert t[0] == if sign != "" then sign[0] else if d != "" then d[0] else rest[0];
      assert d != "" ==> IsDigit(d[0]);
      assert [t[0]][0] == t[0];
    }
    SkipSpacesOf(w, t);
    assert sign != "" ==> t[1..] == d + rest;
    assert sign == "" ==> t == d + rest;
    DigitSpanOf(d, rest);
    assert (d + rest)[..|d|] == d;
  }

  // ----- parsing

  function BlockApp(block: string): AppInfo {
    AppInfo(Atoi(XmlText(block, "ID")), XmlText(block, "AppTitle"), XmlText(block, "IsHdrSupported") == "1")
  }

  predicate Usable(a: AppInfo) {
    a.id > 0 && a.title != ""
  }

  function Keep(a: AppInfo): seq<AppInfo> {
    if Usable(a) then [a] else []
  }

  /** An app without a positive id or without a title is dropped, and every other is kept. */
  lemma KeepIs(a: AppInfo)
    ensures a.id >= 1 && |a.title| >= 1 ==> Keep(a) == [a]
    ensures a.id <= 0 || |a.title| == 0 ==> Keep(a) == []
  {
  }

  /** From just past the next <App> start tag on. */
  function AppBody(s: string): (r: Option<string>)
    ensures r.Some? ==> |r.value| < |s|
  {
    var h := FindStartTag(s, "App");
    if h.None? then None
    else
      var g := TagHead(h.value);
      if g.None? then None else Some(g.value.at[1..])
  }

  /** The content of the element and what follows it; without an end tag, everything is content. */
  function AppBlock(body: string): (r: Split)
    ensures |r.at| <= |body|
  {
    var c := Search(body, "</App>");
    if c.None? then Split(body, "") else Split(c.value.before, c.value.at[6..])
  }

  function ParseApps(s: string): seq<AppInfo>
    decreases |s|
  {
    var body := AppBody(s);
    if body.None? then []
    else
      var b := AppBlock(body.value);
      Keep(BlockApp(b.before)) + ParseApps(b.at)
  }

  // ----- the scan as it runs

  /** The index of the next <App> start tag at or after `from`, not of one like <AppTitle>. */
  method FindAppOpen(xml: string, from: nat) returns (at: Option<nat>)
    requires from <= |xml|
    ensures at.Some? <==> FindStartTag(xml[from..], "App").Some?
    ensures at.Some? ==> from <= at.value < |xml| && FindStartTag(xml[from..], "App") == Some(xml[at.value..])
  {
    hide Search, FindStartTag, OpensHere;
    var needle := "<" + "App";
    var i := from;
    at := Find(xml, needle, i);
    while at.Some?
      invariant from <= i <= |xml|
      invariant FindStartTag(xml[from..], "App") == FindStartTag(xml[i..], "App")
      invariant at.Some? <==> Search(xml[i..], needle).Some?
      invariant at.Some? ==> i <= at.value <= |xml| && needle <= xml[at.value..] && Search(xml[i..], needle) == Some(Split(xml[i..at.value], xml[at.value..]))
      decreases |xml| - i
    {
      SkipSearch(xml, "App", i, at.value);
      OpensAt(xml, "App", at.value);
      var after := at.value + |needle|;
      if after >= |xml| {
        NoRoomForTag(xml[at.value..]);
        return None;
      }
      if EndsName(xml[after]) { return; }
      NextSuffix(xml, "App", at.value);
      i := at.value + 1;
      at := Find(xml, needle, i);
    }
    NoSearchNoTag(xml[i..], "App");
  }

  /** The index just past the next <App ...> tag at or after `from`. */
  method FindAppBody(xml: string, from: nat) returns (body: Option<nat>)
    requires from <= |xml|
    ensures body.Some? <==> AppBody(xml[from..]).Some?
    ensures body.Some? ==> from < body.value <= |xml| && AppBody(xml[from..]) == Some(xml[body.value..])
  {
    hide Search, FindStartTag;
    var at := FindAppOpen(xml, from);
    if at.None? { return None; }
    var gt := Find(xml, ">", at.value);
    if gt.None? { return None; }
    assert xml[gt.value..][1..] == xml[gt.value + 1..];
    return Some(gt.value + 1);
  }

  lemma {:induction false} NoRoomForTag(s: string)
    requires |s| <= 4
    ensures FindStartTag(s, "App").None?
  {
    if s != "" {
      assert |"<" + "App"| == 4;
      NoRoomForTag(s[1..]);
    }
  }

  /** One element: its app and the index after its end tag. */
  method ParseBlock(xml: string, body: nat) returns (a: AppInfo, next: nat)
    requires body <= |xml|
    ensures body <= next <= |xml|
    ensures AppBlock(xml[body..]).at == xml[next..] && a == BlockApp(AppBlock(xml[body..]).before)
  {
    hide Search, XmlText, Atoi;
    var close := Find(xml, "</App>", body);
    var end := if close.None? then |xml| else close.value;
    var block := xml[body..end];
    next := if close.None? then |xml| else close.value + 6;
    if close.Some? {
      assert xml[close.value..][6..] == xml[next..];
    } else {
      assert xml[next..] == "" && block == xml[body..];
    }
    var title := XmlTextScan(block, "AppTitle");
    var id := XmlTextScan(block, "ID");
    var hdr := XmlTextScan(block, "IsHdrSupported");
    a := AppInfo(Atoi(id), title, hdr == "1");
  }

  method ParseAppList(xml: string) returns (apps: seq<AppInfo>)
    ensures apps == ParseApps(xml)
  {
    hide AppBody, AppBlock, BlockApp;
    apps := [];
    var pos := 0;
    assert xml[0..] == xml;
    while true
      invariant pos <= |xml|
      invariant ParseApps(xml) == apps + ParseApps(xml[pos..])
      decreases |xml| - pos
    {
      var body := FindAppBody(xml, pos);
      if body.None? {
        assert apps + [] == apps;
        return;
      }
      var a, next := ParseBlock(xml, body.value);
      assert apps + (Keep(a) + ParseApps(xml[next..])) == (apps + Keep(a)) + ParseApps(xml[next..]);
      if a.id > 0 && a.title != "" {
        apps := apps + [a];
      }
      pos := next;
    }
  }

  // ----- what a host renders

  /** One <App>: its attributes, the text before its fields, the fields, the text after it. */
  datatype AppElem = AppElem(attrs: string, lead: string, fields: seq<Field>, gap: string)

  ghost predicate ElemOk(e: AppElem) {
    && AttrsOk(e.attrs) && Lacks(e.lead, '<') && Lacks(e.gap, '<') && FieldsOk(e.fields)
    && forall i :: 0 <= i < |e.fields| ==> e.fields[i].name != "App"
  }

  ghost predicate ElemsOk(es: seq<AppElem>) {
    forall i :: 0 <= i < |es| ==> ElemOk(es[i])
  }

  function ElemThen(e: AppElem, rest: string): string {
    OpenThen("App", e.attrs, e.lead + FieldsThen(e.fields, CloseThen("App", e.gap + rest)))
  }

  function ElemsThen(es: seq<AppElem>, rest: string): string {
    if es == [] then rest else ElemThen(es[0], ElemsThen(es[1..], rest))
  }

  function Text(fs: seq<Field>, tag: string): string {
    var t := TextOf(fs, tag);
    if t.None? then "" else t.value
  }

  /** What the fields of an element say, in any order and among others. */
  function ElemApp(e: AppElem): AppInfo {
    AppInfo(Atoi(Text(e.fields, "ID")), Text(e.fields, "AppTitle"), Text(e.fields, "IsHdrSupported") == "1")
  }

  function KeepAll(es: seq<AppElem>): seq<AppInfo> {
    if es == [] then [] else Keep(ElemApp(es[0])) + KeepAll(es[1..])
  }

  // ----- reading it back

  lemma SearchPast(t: string, rest: string, needle: string)
    requires Starts(needle, '<') && Lacks(t, '<') && !(needle <= "<" + (t + rest))
    ensures Search("<" + (t + rest), needle) == Shift("<" + t, Search(rest, needle))
  {
    var s := "<" + (t + rest);
    assert s[1..] == t + rest;
    SearchSkips(t, rest, needle);
    var r := Search(rest, needle);
    if r.Some? {
      assert ['<'] + (t + r.value.before) == ("<" + t) + r.value.before;
    }
  }

  lemma RegroupClose(name: string, gap: string, rest: string)
    ensures CloseThen(name, gap + rest) == "<" + (("/" + (name + (">" + gap))) + rest)
    ensures CloseThen(name, gap) == "<" + ("/" + (name + (">" + gap)))
  {
  }

  lemma LacksClose(name: string, gap: string)
    requires ValidName(name) && Lacks(gap, '<')
    ensures Lacks("/" + (name + (">" + gap)), '<')
  {
  }

  lemma PastClose(name: string, gap: string, rest: string)
    requires ValidName(name) && name != "App" && Lacks(gap, '<')
    ensures Search(CloseThen(name, gap + rest), "</App>") == Shift(CloseThen(name, gap), Search(rest, "</App>"))
  {
    hide Search;
    var t := "/" + (name + (">" + gap));
    NotAppClose(name, gap + rest);
    RegroupClose(name, gap, rest);
    LacksClose(name, gap);
    hide CloseThen;
    SearchPast(t, rest, "</App>");
  }

  lemma PastOpen(name: string, attrs: string, body: string, rest: string)
    requires ValidName(name) && AttrsOk(attrs) && Lacks(body, '<')
    ensures Search(OpenThen(name, attrs, body + rest), "</App>")
         == Shift(OpenThen(name, attrs, body), Search(rest, "</App>"))
  {
    hide Search;
    var t := name + (attrs + (">" + body));
    var s := "<" + (t + rest);
    assert OpenThen(name, attrs, body + rest) == s;
    assert OpenThen(name, attrs, body) == "<" + t;
    assert s[1] == name[0] && !EndsName(name[0]);
    SearchPast(t, rest, "</App>");
  }

  lemma PastField(f: Field, rest: string)
    requires FieldOk(f) && f.name != "App"
    ensures Search(FieldThen(f, rest), "</App>") == Shift(FieldThen(f, ""), Search(rest, "</App>"))
  {
    hide Search, OpenThen, CloseThen;
    PastOpen(f.name, f.attrs, f.body, CloseThen(f.name, f.gap + rest));
    PastClose(f.name, f.gap, rest);
    assert f.gap + "" == f.gap;
    OpenConcat(f.name, f.attrs, f.body, CloseThen(f.name, f.gap));
    ShiftTwice(OpenThen(f.name, f.attrs, f.body), CloseThen(f.name, f.gap), Search(rest, "</App>"));
  }

  lemma ShiftTwice(a: string, b: string, r: Option<Split>)
    ensures Shift(a, Shift(b, r)) == Shift(a + b, r)
  {
    if r.Some? {
      assert a + (b + r.value.before) == (a + b) + r.value.before;
    }
  }

  lemma NotAppClose(name: string, rest: string)
    requires ValidName(name) && name != "App"
    ensures !("</App>" <= CloseThen(name, rest))
  {
    var s := CloseThen(name, rest);
    if |name| == 3 {
      assert s[2..5] == name;
    } else if |name| < 3 {
      assert s[2 + |name|] == '>';
    } else {
      assert s[5] == name[3] && !EndsName(name[3]);
    }
  }

  lemma {:induction false} PastFields(fs: seq<Field>, rest: string)
    requires FieldsOk(fs) && forall i :: 0 <= i < |fs| ==> fs[i].name != "App"
    ensures Search(FieldsThen(fs, rest), "</App>") == Shift(FieldsThen(fs, ""), Search(rest, "</App>"))
  {
    hide Search, FieldThen;
    if fs == [] {
      ShiftNothing(Search(rest, "</App>"));
    } else {
      assert FieldOk(fs[0]);
      var tail := FieldsThen(fs[1..], rest);
      PastField(fs[0], tail);
      PastFields(fs[1..], rest);
      FieldConcat(fs[0], "", FieldsThen(fs[1..], ""));
      assert "" + FieldsThen(fs[1..], "") == FieldsThen(fs[1..], "");
      ShiftTwice(FieldThen(fs[0], ""), FieldsThen(fs[1..], ""), Search(rest, "</App>"));
    }
  }

  lemma BlockOfElem(e: AppElem, rest: string)
    requires ElemOk(e)
    ensures AppBlock(e.lead + FieldsThen(e.fields, CloseThen("App", e.gap + rest)))
         == Split(e.lead + FieldsThen(e.fields, ""), e.gap + rest)
  {
    hide Search, CloseThen, FieldsThen;
    var close := CloseThen("App", e.gap + rest);
    var fields := FieldsThen(e.fields, "");
    AtClose(e.gap + rest);
    PastFields(e.fields, close);
    assert fields + "" == fields;
    SearchSkips(e.lead, FieldsThen(e.fields, close), "</App>");
  }

  lemma AtClose(rest: string)
    ensures var close := CloseThen("App", rest);
            Search(close, "</App>") == Some(Split("", close)) && |close| >= 6 && close[6..] == rest
  {
    assert CloseThen("App", rest) == "</App>" + rest;
  }

  lemma TagNames()
    ensures ValidName("App") && ValidName("AppTitle") && ValidName("ID") && ValidName("IsHdrSupported")
  {
  }

  lemma TextInBlock(lead: string, fs: seq<Field>, tag: string)
    requires Lacks(lead, '<') && FieldsOk(fs) && ValidName(tag)
    ensures XmlText(lead + FieldsThen(fs, ""), tag) == Text(fs, tag)
  {
    SkipText(lead, FieldsThen(fs, ""), tag);
    TextOfFields(fs, "", tag);
    assert XmlText("", tag) == "";
    hide FindStartTag, Search, DecodeEntities;
    assert XmlText(lead + FieldsThen(fs, ""), tag) == XmlText(FieldsThen(fs, ""), tag);
  }

  lemma BlockIsElem(e: AppElem)
    requires ElemOk(e)
    ensures BlockApp(e.lead + FieldsThen(e.fields, "")) == ElemApp(e)
  {
    hide XmlText, Atoi, Text, FieldsThen;
    TagNames();
    TextInBlock(e.lead, e.fields, "AppTitle");
    TextInBlock(e.lead, e.fields, "ID");
    TextInBlock(e.lead, e.fields, "IsHdrSupported");
  }

  lemma BodyOfElem(e: AppElem, rest: string)
    requires ElemOk(e)
    ensures AppBody(ElemThen(e, rest)) == Some(e.lead + FieldsThen(e.fields, CloseThen("App", e.gap + rest)))
  {
    hide FindStartTag, Search, FieldsThen, CloseThen, OpenThen;
    var inner := e.lead + FieldsThen(e.fields, CloseThen("App", e.gap + rest));
    TagNames();
    HitOpen("App", e.attrs, inner);
    HeadOf("App", e.attrs, inner);
    assert (">" + inner)[1..] == inner;
  }

  /** The scan returns exactly the usable apps of the document, in order. */
  lemma {:induction false} ParseRendered(es: seq<AppElem>, tail: string)
    requires ElemsOk(es) && FindStartTag(tail, "App").None?
    ensures ParseApps(ElemsThen(es, tail)) == KeepAll(es)
    decreases |es|
  {
    hide FindStartTag, ElemThen, BlockApp, ElemApp, Keep, AppBlock;
    if es != [] {
      var e, rest := es[0], ElemsThen(es[1..], tail);
      assert ElemOk(e);
      BodyOfElem(e, rest);
      BlockOfElem(e, rest);
      BlockIsElem(e);
      ParseRendered(es[1..], tail);
      ParseGap(e.gap, rest);
    }
  }

  /** The last element may lack its end tag: its fields are read to the end of the text. */
  lemma UnclosedApp(e: AppElem)
    requires ElemOk(e)
    ensures ParseApps(OpenThen("App", e.attrs, e.lead + FieldsThen(e.fields, ""))) == Keep(ElemApp(e))
  {
    var inner := e.lead + FieldsThen(e.fields, "");
    TagNames();
    HitOpen("App", e.attrs, inner);
    HeadOf("App", e.attrs, inner);
    assert (">" + inner)[1..] == inner;
    PastFields(e.fields, "");
    SearchSkips(e.lead, FieldsThen(e.fields, ""), "</App>");
    BlockIsElem(e);
    NoApps();
    hide FindStartTag, Search, FieldsThen, OpenThen, BlockApp, ElemApp, Keep;
    assert Keep(ElemApp(e)) + [] == Keep(ElemApp(e));
  }

  lemma NoApps()
    ensures ParseApps("") == [] && Search("", "</App>").None?
  {
  }

  lemma ParseGap(gap: string, rest: string)
    requires Lacks(gap, '<')
    ensures ParseApps(gap + rest) == ParseApps(rest)
  {
    hide FindStartTag, TagHead, AppBlock, BlockApp;
    SkipText(gap, rest, "App");
    assert AppBody(gap + rest) == AppBody(rest);
  }

  // ----- a plain rendering of any list of apps

  function AppElemOf(a: AppInfo, esc: seq<bool>): AppElem
    requires Usable(a) && |esc| == |a.title|
  {
    AppElem("", "", [Field("IsHdrSupported", "", if a.hdr then "1" else "0", ""),
                     Field("AppTitle", "", EscapeXml(a.title, esc), ""),
                     Field("ID", "", Decimal(a.id), "")], "")
  }

  lemma ElemOfAppOk(a: AppInfo, esc: seq<bool>)
    requires Usable(a) && |esc| == |a.title|
    ensures ElemOk(AppElemOf(a, esc))
  {
    TagNames();
    DecodeEscaped(a.title, esc);
    hide DecodeEntities, EscapeXml, Decimal, ValidName;
    var fs := AppElemOf(a, esc).fields;
    assert FieldOk(fs[0]) && FieldOk(fs[1]) && FieldOk(fs[2]);
    assert |fs[0].name| == 14 && |fs[1].name| == 8 && |fs[2].name| == 2 && |"App"| == 3;
  }

  lemma ElemOfAppMeans(a: AppInfo, esc: seq<bool>)
    requires Usable(a) && |esc| == |a.title|
    ensures ElemApp(AppElemOf(a, esc)) == a
  {
    hide DecodeEntities, Atoi, EscapeXml, Decimal, TextOf;
    DecodeEscaped(a.title, esc);
    AtoiDecimal(a.id);
    PlainText(Decimal(a.id));
    PlainText(if a.hdr then "1" else "0");
    ThirdField(AppElemOf(a, esc).fields);
    assert "0" != "1";
  }

  lemma ThirdField(fs: seq<Field>)
    requires |fs| == 3 && fs[0].name == "IsHdrSupported" && fs[1].name == "AppTitle" && fs[2].name == "ID"
    ensures TextOf(fs, "IsHdrSupported") == Some(DecodeEntities(fs[0].body))
    ensures TextOf(fs, "AppTitle") == Some(DecodeEntities(fs[1].body))
    ensures TextOf(fs, "ID") == Some(DecodeEntities(fs[2].body))
  {
    hide DecodeEntities;
    assert fs[1..][0] == fs[1] && fs[1..][1..][0] == fs[2];
    assert TextOf(fs[1..], "ID") == TextOf(fs[1..][1..], "ID");
    assert TextOf(fs, "ID") == TextOf(fs[1..], "ID");
  }

  /** Ids are ints of the source. */
  const INT_MAX: nat := 2_147_483_647

  /** Apps with a positive int for an id and a title, and for each character of the titles a choice of
      spelling. */
  predicate Renderable(apps: seq<AppInfo>, escs: seq<seq<bool>>) {
    && |escs| == |apps|
    && forall i :: 0 <= i < |apps| ==>
      0 < apps[i].id <= INT_MAX && apps[i].title != "" && |escs[i]| == |apps[i].title|
  }

  function RenderApps(apps: seq<AppInfo>, escs: seq<seq<bool>>): seq<AppElem>
    requires Renderable(apps, escs)
  {
    if apps == [] then [] else [AppElemOf(apps[0], escs[0])] + RenderApps(apps[1..], escs[1..])
  }

  lemma {:induction false} RenderKeeps(apps: seq<AppInfo>, escs: seq<seq<bool>>)
    requires Renderable(apps, escs)
    ensures ElemsOk(RenderApps(apps, escs)) && KeepAll(RenderApps(apps, escs)) == apps
  {
    hide AppElemOf, ElemApp;
    if apps != [] {
      ElemOfAppOk(apps[0], escs[0]);
      ElemOfAppMeans(apps[0], escs[0]);
      RenderKeeps(apps[1..], escs[1..]);
      var es := RenderApps(apps, escs);
      assert es[1..] == RenderApps(apps[1..], escs[1..]);
      assert forall i :: 0 < i < |es| ==> es[i] == es[1..][i - 1];
      assert apps == [apps[0]] + apps[1..];
    }
  }

  lemma NoAppInTail()
    ensures FindStartTag(CloseThen("root", ""), "App").None?
  {
    TagNames();
    RootName();
    SkipClose("root", "", "App");
  }

  /** For every list of apps with positive 31-bit ids and non-empty titles of any bytes, however their
      titles are escaped, the response that renders it parses back to that list. */
  lemma AppListRoundTrip(decl: string, apps: seq<AppInfo>, escs: seq<seq<bool>>)
    requires DeclOk(decl)
    requires Renderable(apps, escs)
    ensures
      var xml := ResponseThen(decl, "200", ElemsThen(RenderApps(apps, escs), CloseThen("root", "")));
      ParseApps(xml) == apps && XmlAttr(xml, "root", "status_code") == "200"
  {
    NoAppInTail();
    hide FindStartTag, TagHead, ElemsThen, ResponseThen, BlockApp, CloseThen, RenderApps, XmlAttr;
    var es := RenderApps(apps, escs);
    var tail := CloseThen("root", "");
    RenderKeeps(apps, escs);
    TagNames();
    ParseRendered(es, tail);
    TextInResponse(decl, "200", ElemsThen(es, tail), "App");
    StatusOfResponse(decl, "200", ElemsThen(es, tail));
    assert AppBody(ResponseThen(decl, "200", ElemsThen(es, tail))) == AppBody(ElemsThen(es, tail));
  }

  // ----- resolving a reference

  function Lower(c: char): char {
    if 'A' <= c <= 'Z' then (c as int + 32) as char else c
  }

  predicate IEquals(a: string, b: string) {
    |a| == |b| && forall i :: 0 <= i < |a| ==> Lower(a[i]) == Lower(b[i])
  }

  predicate IsNumericRef(ref: string) {
    ref != "" && AllDigits(ref) && Atoi(ref) > 0
  }

  /** The id of the first title that matches. */
  function IdByTitle(apps: seq<AppInfo>, ref: string): int {
    if apps == [] then 0
    else if IEquals(apps[0].title, ref) then apps[0].id
    else IdByTitle(apps[1..], ref)
  }

  function ResolveAppId(apps: seq<AppInfo>, ref: string): int {
    if IsNumericRef(ref) then Atoi(ref) else IdByTitle(apps, ref)
  }

  /** How `client.start` resolves: any positive atoi passes through before titles are looked at. */
  function StartAppId(apps: seq<AppInfo>, ref: string): int {
    if Atoi(ref) > 0 then Atoi(ref) else ResolveAppId(apps, ref)
  }

  const LOWER_CASE: string := "abcdefghijklmnopqrstuvwxyz"
  const UPPER_CASE: string := "ABCDEFGHIJKLMNOPQRSTUVWXYZ"

  /** The same character, or the same letter in either case. */
  ghost predicate SameLetter(a: char, b: char) {
    a == b || exists i :: 0 <= i < 26 && InCase(a, i) && InCase(b, i)
  }

  ghost predicate InCase(c: char, i: nat) {
    i < 26 && (c == LOWER_CASE[i] || c == UPPER_CASE[i])
  }

  lemma LetterTable(c: char, i: nat)
    requires i < 26
    ensures InCase(c, i) <==> c == ('a' as int + i) as char || c == ('A' as int + i) as char
  {
    assert LOWER_CASE[i] == ('a' as int + i) as char && UPPER_CASE[i] == ('A' as int + i) as char;
  }

  lemma LowerIs(a: char, b: char)
    ensures Lower(a) == Lower(b) <==> SameLetter(a, b)
  {
    hide InCase;
    if SameLetter(a, b) && a != b {
      var i :| 0 <= i < 26 && InCase(a, i) && InCase(b, i);
      LetterTable(a, i);
      LetterTable(b, i);
    }
    if Lower(a) == Lower(b) && a != b {
      var i := Lower(a) as int - 'a' as int;
      LetterTable(a, i);
      LetterTable(b, i);
    }
  }

  /** Titles are compared letter by letter, in either case. */
  ghost predicate SameTitle(a: string, b: string) {
    |a| == |b| && forall i :: 0 <= i < |a| ==> SameLetter(a[i], b[i])
  }

  lemma IEqualsIs(a: string, b: string)
    ensures IEquals(a, b) <==> SameTitle(a, b)
  {
    if |a| == |b| {
      forall i | 0 <= i < |a| ensures Lower(a[i]) == Lower(b[i]) <==> SameLetter(a[i], b[i]) {
        LowerIs(a[i], b[i]);
      }
    }
  }

  ghost predicate IsFirst(apps: seq<AppInfo>, ref: string, i: int) {
    && 0 <= i < |apps| && SameTitle(apps[i].title, ref)
    && forall j :: 0 <= j < i ==> !SameTitle(apps[j].title, ref)
  }

  /** A name that is not a positive number resolves to the first app whose title is the same in any case,
      and to 0 without one. */
  lemma {:induction false} ResolvesToFirst(apps: seq<AppInfo>, ref: string)
    requires !(ref != "" && AllDigits(ref) && Atoi(ref) > 0)
    ensures (forall i :: 0 <= i < |apps| ==> !SameTitle(apps[i].title, ref)) ==> ResolveAppId(apps, ref) == 0
    ensures forall i :: IsFirst(apps, ref, i) ==> ResolveAppId(apps, ref) == apps[i].id
  {
    hide Atoi, IEquals, SameTitle;
    if apps != [] {
      IEqualsIs(apps[0].title, ref);
      ResolvesToFirst(apps[1..], ref);
      assert forall i :: 0 < i < |apps| ==> apps[i] == apps[1..][i - 1];
      if SameTitle(apps[0].title, ref) {
      } else {
        assert ResolveAppId(apps, ref) == ResolveAppId(apps[1..], ref);
        forall i | IsFirst(apps, ref, i) ensures ResolveAppId(apps, ref) == apps[i].id {
          assert forall j :: 0 <= j < i - 1 ==> apps[1..][j] == apps[j + 1];
          assert IsFirst(apps[1..], ref, i - 1);
        }
      }
    }
  }

  /** The two agree on every app list exactly if the reference does not start like a positive number
      or consists of digits. */
  lemma StartAgreesWithResolve(ref: string)
    ensures (forall apps :: StartAppId(apps, ref) == ResolveAppId(apps, ref))
       <==> Atoi(ref) <= 0 || (ref != "" && AllDigits(ref))
  {
    hide Atoi;
    if Atoi(ref) > 0 && !IsNumericRef(ref) {
      var apps := [AppInfo(Atoi(ref) + 1, ref, false)];
      assert IEquals(ref, ref);
      assert ResolveAppId(apps, ref) == Atoi(ref) + 1;
      assert StartAppId(apps, ref) == Atoi(ref);
    }
  }

  /** "7 Days" names an app with id 9, and starts app 7. */
  lemma StartMisreadsTitle()
    ensures var apps := [AppInfo(9, "7 Days", false)];
            ResolveAppId(apps, "7 Days") == 9 && StartAppId(apps, "7 Days") == 7
  {
    var ref := "7 Days";
    assert SkipSpaces(ref) == ref;
    assert ref[1] == ' ' && !IsDigit(ref[1]);
    DigitSpanOf("7", ref[1..]);
    assert "7" + ref[1..] == ref;
    assert ref[..1] == "7" && "7"[..0] == "";
    assert DecimalValue("7") == 7;
    assert Atoi(ref) == 7;
  }
}
