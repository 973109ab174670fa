/** The host app catalogue of src/host/host_apps.cpp and its publication by `host.syncApps`. */
module HostApps {
  import opened Common
  import opened JsonValue
  import opened JsonText
  import opened JsonRoundTrip
  import opened JsonMachine
  import opened Server

  datatype HostApp = HostApp(name: string, cmd: string, imagePath: string, workingDir: string, output: string,
                             elevated: bool, autoDetach: bool, waitAll: bool, exitTimeout: int)

  const INT32_LIMIT: int := 0x8000_0000

  /** An `int` of the source, and a name. */
  predicate AppOk(a: HostApp) {
    a.name != "" && -INT32_LIMIT <= a.exitTimeout < INT32_LIMIT
  }

  ghost predicate AppsOk(apps: seq<HostApp>) {
    forall i :: 0 <= i < |apps| ==> AppOk(apps[i])
  }

  // ----- the file

  /** An optional string field is present only when it is not empty. */
  function SetStr(o: map<string, Value>, k: string, v: string): map<string, Value> {
    if v == "" then o else o[k := Str(v)]
  }

  function AppFields(a: HostApp): map<string, Value> {
    var o := map["name" := Str(a.name)];
    var o := SetStr(o, "cmd", a.cmd);
    var o := SetStr(o, "image-path", a.imagePath);
    var o := SetStr(o, "working-dir", a.workingDir);
    var o := SetStr(o, "output", a.output);
    SetFlags(o, a)
  }

  function SetFlags(o: map<string, Value>, a: HostApp): map<string, Value> {
    o["elevated" := Bool(a.elevated)]["auto-detach" := Bool(a.autoDetach)]["wait-all" := Bool(a.waitAll)]
     ["exit-timeout" := Num(a.exitTimeout as real)]
  }

  function AppValues(apps: seq<HostApp>): seq<Value> {
    if apps == [] then [] else [Obj(AppFields(apps[0]))] + AppValues(apps[1..])
  }

  function CatalogValue(apps: seq<HostApp>): Value {
    Obj(map["env" := Obj(map[]), "apps" := Arr(AppValues(apps))])
  }

  function Serialize(apps: seq<HostApp>, g: RealFormat): string {
    Dump(CatalogValue(apps), g)
  }

  function AppOf(v: Value): HostApp {
    HostApp(v.GetStr("name"), v.GetStr("cmd"), v.GetStr("image-path"), v.GetStr("working-dir"), v.GetStr("output"),
            v.GetBool("elevated", false), v.GetBool("auto-detach", true), v.GetBool("wait-all", true),
            CastInt(v.GetNum("exit-timeout", 5.0)))
  }

  function Kept(v: Value): seq<HostApp> {
    if v.Obj? && v.GetStr("name") != "" then [AppOf(v)] else []
  }

  function AppsOf(a: seq<Value>): seq<HostApp> {
    if a == [] then [] else Kept(a[0]) + AppsOf(a[1..])
  }

  function ParseCatalog(text: string): seq<HostApp> {
    var v := Parse(text);
    if v.None? then []
    else
      var apps := v.value.Find("apps");
      if apps.None? || !apps.value.Arr? then [] else AppsOf(apps.value.a)
  }

  /** What the string fields of an object say. */
  ghost predicate Strings(v: Value, name: string, cmd: string, image: string, dir: string, output: string) {
    && v.GetStr("name") == name && v.GetStr("cmd") == cmd && v.GetStr("image-path") == image
    && v.GetStr("working-dir") == dir && v.GetStr("output") == output
  }

  lemma FieldNames()
    ensures "name" != "cmd" && "name" != "image-path" && "name" != "working-dir" && "name" != "output"
    ensures "cmd" != "image-path" && "cmd" != "working-dir" && "cmd" != "output"
    ensures "image-path" != "working-dir" && "image-path" != "output" && "working-dir" != "output"
  {
    assert |"name"| == 4 && |"cmd"| == 3 && |"image-path"| == 10 && |"working-dir"| == 11 && |"output"| == 6;
  }

  /** The string fields read back as they were, empty ones included. */
  lemma StringFields(a: HostApp)
    ensures Strings(Obj(AppFields(a)), a.name, a.cmd, a.imagePath, a.workingDir, a.output)
  {
    var o1 := map["name" := Str(a.name)];
    var o2 := SetStr(o1, "cmd", a.cmd);
    var o3 := SetStr(o2, "image-path", a.imagePath);
    var o4 := SetStr(o3, "working-dir", a.workingDir);
    var o5 := SetStr(o4, "output", a.output);
    assert Strings(Obj(o1), a.name, "", "", "", "") by { FieldNames(); }
    hide SetFlags;
    SetCmd(o1, a.cmd, a.name);
    SetImage(o2, a.imagePath, a.name, a.cmd);
    SetDir(o3, a.workingDir, a.name, a.cmd, a.imagePath);
    SetOutput(o4, a.output, a.name, a.cmd, a.imagePath, a.workingDir);
    FlagsKeepStrings(o5, a);
    hide SetStr, Strings;
  }

  lemma SetCmd(o: map<string, Value>, v: string, name: string)
    requires Strings(Obj(o), name, "", "", "", "")
    ensures Strings(Obj(SetStr(o, "cmd", v)), name, v, "", "", "")
  {
    FieldNames();
  }

  lemma SetImage(o: map<string, Value>, v: string, name: string, cmd: string)
    requires Strings(Obj(o), name, cmd, "", "", "")
    ensures Strings(Obj(SetStr(o, "image-path", v)), name, cmd, v, "", "")
  {
    FieldNames();
  }

  lemma SetDir(o: map<string, Value>, v: string, name: string, cmd: string, image: string)
    requires Strings(Obj(o), name, cmd, image, "", "")
    ensures Strings(Obj(SetStr(o, "working-dir", v)), name, cmd, image, v, "")
  {
    FieldNames();
  }

  lemma SetOutput(o: map<string, Value>, v: string, name: string, cmd: string, image: string, dir: string)
    requires Strings(Obj(o), name, cmd, image, dir, "")
    ensures Strings(Obj(SetStr(o, "output", v)), name, cmd, image, dir, v)
  {
    FieldNames();
  }

  /** A key that none of the flags has. */
  ghost predicate NoFlag(k: string) {
    k != "elevated" && k != "auto-detach" && k != "wait-all" && k != "exit-timeout"
  }

  lemma FlagsKeep(o: map<string, Value>, a: HostApp, k: string)
    requires NoFlag(k)
    ensures Obj(SetFlags(o, a)).GetStr(k) == Obj(o).GetStr(k)
  {
  }

  lemma StringsAreNoFlags()
    ensures NoFlag("name") && NoFlag("cmd") && NoFlag("image-path") && NoFlag("working-dir") && NoFlag("output")
  {
    assert |"elevated"| == 8 && |"auto-detach"| == 11 && |"wait-all"| == 8 && |"exit-timeout"| == 12;
    assert |"name"| == 4 && |"cmd"| == 3 && |"image-path"| == 10 && |"output"| == 6;
    assert "working-dir"[0] == 'w' && "auto-detach"[0] == 'a';
  }

  /** Setting the flags leaves the strings. */
  lemma FlagsKeepStrings(o: map<string, Value>, a: HostApp)
    ensures
      var v := Obj(o);
      Strings(Obj(SetFlags(o, a)), v.GetStr("name"), v.GetStr("cmd"), v.GetStr("image-path"),
              v.GetStr("working-dir"), v.GetStr("output"))
  {
    hide NoFlag, SetFlags;
    StringsAreNoFlags();
    FlagsKeep(o, a, "name");
    FlagsKeep(o, a, "cmd");
    FlagsKeep(o, a, "image-path");
    FlagsKeep(o, a, "working-dir");
    FlagsKeep(o, a, "output");
  }

  lemma FlagsRead(o: map<string, Value>, a: HostApp)
    ensures
      var v := Obj(SetFlags(o, a));
      && v.GetBool("elevated", false) == a.elevated && v.GetBool("auto-detach", true) == a.autoDetach
      && v.GetBool("wait-all", true) == a.waitAll && v.GetNum("exit-timeout", 5.0) == a.exitTimeout as real
  {
    assert "elevated"[0] == 'e' && "wait-all"[0] == 'w' && |"auto-detach"| == 11 && |"exit-timeout"| == 12;
  }

  lemma AppReads(a: HostApp)
    requires AppOk(a)
    ensures Kept(Obj(AppFields(a))) == [a]
  {
    StringFields(a);
    var o := SetStr(SetStr(SetStr(SetStr(map["name" := Str(a.name)], "cmd", a.cmd), "image-path", a.imagePath),
                           "working-dir", a.workingDir), "output", a.output);
    FlagsRead(o, a);
    assert CastInt(a.exitTimeout as real) == a.exitTimeout;
    hide SetStr, SetFlags;
  }

  lemma AppPrints(a: HostApp)
    requires AppOk(a)
    ensures Printable(Obj(AppFields(a)))
  {
    assert (a.exitTimeout as real).Floor == a.exitTimeout;
  }

  lemma {:induction false} AppsRead(apps: seq<HostApp>)
    requires AppsOk(apps)
    ensures AppsOf(AppValues(apps)) == apps && forall x :: x in AppValues(apps) ==> Printable(x)
  {
    hide AppFields, Kept;
    if apps != [] {
      assert AppOk(apps[0]);
      AppReads(apps[0]);
      AppPrints(apps[0]);
      AppsRead(apps[1..]);
      assert AppValues(apps)[1..] == AppValues(apps[1..]);
      assert apps == [apps[0]] + apps[1..];
    }
  }

  // ----- the file, field by field

  /** The field is this string, or absent when the string is empty. */
  ghost predicate HasText(o: map<string, Value>, k: string, s: string) {
    if s == "" then k !in o else k in o && o[k] == Str(s)
  }

  ghost predicate HasField(o: map<string, Value>, k: string, v: Value) {
    k in o && o[k] == v
  }

  /** The object that stands for an app in the file. */
  ghost predicate IsEntryOf(o: map<string, Value>, a: HostApp) {
    && HasText(o, "cmd", a.cmd) && HasText(o, "image-path", a.imagePath)
    && HasText(o, "working-dir", a.workingDir) && HasText(o, "output", a.output)
    && HasField(o, "name", Str(a.name)) && HasField(o, "elevated", Bool(a.elevated))
    && HasField(o, "auto-detach", Bool(a.autoDetach)) && HasField(o, "wait-all", Bool(a.waitAll))
    && HasField(o, "exit-timeout", Num(a.exitTimeout as real))
    && o.Keys <= {"name", "cmd", "image-path", "working-dir", "output", "elevated", "auto-detach", "wait-all", "exit-timeout"}
  }

  lemma FieldsAreEntry(a: HostApp)
    ensures IsEntryOf(AppFields(a), a)
  {
    var o := SetStr(SetStr(SetStr(SetStr(map["name" := Str(a.name)], "cmd", a.cmd), "image-path", a.imagePath),
                           "working-dir", a.workingDir), "output", a.output);
    StringsOf(a);
    StringsAreNoFlags();
    hide SetStr, SetFlags, NoFlag;
    var t := SetFlags(o, a);
    FlagsLeave(o, a, "cmd", a.cmd);
    FlagsLeave(o, a, "image-path", a.imagePath);
    FlagsLeave(o, a, "working-dir", a.workingDir);
    FlagsLeave(o, a, "output", a.output);
    FlagsLeaveName(o, a);
    FlagFields(o, a);
    hide HasText, HasField;
  }

  lemma FlagsLeave(o: map<string, Value>, a: HostApp, k: string, s: string)
    requires NoFlag(k) && HasText(o, k, s)
    ensures HasText(SetFlags(o, a), k, s)
  {
  }

  lemma FlagsLeaveName(o: map<string, Value>, a: HostApp)
    requires NoFlag("name") && HasField(o, "name", Str(a.name))
    ensures HasField(SetFlags(o, a), "name", Str(a.name))
  {
  }

  lemma FlagFields(o: map<string, Value>, a: HostApp)
    ensures
      var t := SetFlags(o, a);
      && HasField(t, "elevated", Bool(a.elevated)) && HasField(t, "auto-detach", Bool(a.autoDetach))
      && HasField(t, "wait-all", Bool(a.waitAll)) && HasField(t, "exit-timeout", Num(a.exitTimeout as real))
      && t.Keys == o.Keys + {"elevated", "auto-detach", "wait-all", "exit-timeout"}
  {
    FlagNames();
  }

  lemma FlagNames()
    ensures "elevated" != "auto-detach" && "elevated" != "wait-all" && "elevated" != "exit-timeout"
    ensures "auto-detach" != "wait-all" && "auto-detach" != "exit-timeout" && "wait-all" != "exit-timeout"
  {
    assert "elevated"[0] == 'e' && "wait-all"[0] == 'w' && |"auto-detach"| == 11 && |"exit-timeout"| == 12;
    assert |"elevated"| == 8 && |"wait-all"| == 8;
  }

  lemma StringsOf(a: HostApp)
    ensures
      var o := SetStr(SetStr(SetStr(SetStr(map["name" := Str(a.name)], "cmd", a.cmd), "image-path", a.imagePath),
                             "working-dir", a.workingDir), "output", a.output);
      && HasText(o, "cmd", a.cmd) && HasText(o, "image-path", a.imagePath)
      && HasText(o, "working-dir", a.workingDir) && HasText(o, "output", a.output)
      && HasField(o, "name", Str(a.name)) && o.Keys <= {"name", "cmd", "image-path", "working-dir", "output"}
  {
    FieldNames();
  }

  /** The serialized catalogue is an object with an empty "env" and the apps' entries in order. */
  lemma FileIsEntries(apps: seq<HostApp>, g: RealFormat)
    requires AppsOk(apps)
    ensures
      var v := Parse(Serialize(apps, g));
      && v.Some? && v.value.Obj? && v.value.o.Keys == {"env", "apps"} && v.value.o["env"] == Obj(map[])
      && v.value.o["apps"].Arr? && |v.value.o["apps"].a| == |apps|
      && forall i :: 0 <= i < |apps| ==>
        v.value.o["apps"].a[i].Obj? && IsEntryOf(v.value.o["apps"].a[i].o, apps[i])
  {
    hide Parse, Dump, Printable, AppFields, IsEntryOf, AppValues;
    CatalogShape(apps);
    AppsRead(apps);
    ParseDump(CatalogValue(apps), g);
    ValuesAt(apps);
    forall i | 0 <= i < |apps| ensures AppValues(apps)[i].Obj? && IsEntryOf(AppValues(apps)[i].o, apps[i]) {
      FieldsAreEntry(apps[i]);
    }
    assert "env" != "apps";
  }

  lemma {:induction false} ValuesAt(apps: seq<HostApp>)
    ensures |AppValues(apps)| == |apps|
    ensures forall i :: 0 <= i < |apps| ==> AppValues(apps)[i] == Obj(AppFields(apps[i]))
  {
    hide AppFields;
    if apps != [] {
      ValuesAt(apps[1..]);
    }
  }

  /** What a field says, with a default for one that is missing or of another kind. */
  ghost function TextIn(o: map<string, Value>, k: string): string {
    if k in o && o[k].Str? then o[k].s else ""
  }

  ghost function FlagIn(o: map<string, Value>, k: string, d: bool): bool {
    if k in o && o[k].Bool? then o[k].b else d
  }

  /** Any entry is read by these keys and defaults, whoever wrote it; without a name it is passed over. */
  lemma EntryReads(o: map<string, Value>)
    ensures TextIn(o, "name") == "" ==> Kept(Obj(o)) == []
    ensures TextIn(o, "name") != "" ==>
      && |Kept(Obj(o))| == 1
      && var a := Kept(Obj(o))[0];
      && a.name == TextIn(o, "name") && a.cmd == TextIn(o, "cmd") && a.imagePath == TextIn(o, "image-path")
      && a.workingDir == TextIn(o, "working-dir") && a.output == TextIn(o, "output")
      && a.elevated == FlagIn(o, "elevated", false) && a.autoDetach == FlagIn(o, "auto-detach", true)
      && a.waitAll == FlagIn(o, "wait-all", true)
      && (!("exit-timeout" in o && o["exit-timeout"].Num?) ==> a.exitTimeout == 5)
      && ("exit-timeout" in o && o["exit-timeout"].Num? && o["exit-timeout"].n >= 0.0 ==>
            a.exitTimeout as real <= o["exit-timeout"].n < a.exitTimeout as real + 1.0)
      && ("exit-timeout" in o && o["exit-timeout"].Num? && o["exit-timeout"].n < 0.0 ==>
            a.exitTimeout as real - 1.0 < o["exit-timeout"].n <= a.exitTimeout as real)
  {
    assert CastInt(5.0) == 5 by { assert (5.0).Floor == 5; }
    hide CastInt;
    if "exit-timeout" in o && o["exit-timeout"].Num? {
      Truncates(o["exit-timeout"].n);
    }
  }

  /** Toward zero. */
  lemma Truncates(x: real)
    ensures x >= 0.0 ==> CastInt(x) as real <= x < CastInt(x) as real + 1.0
    ensures x < 0.0 ==> CastInt(x) as real - 1.0 < x <= CastInt(x) as real
  {
    if x < 0.0 {
      var f := (-x).Floor;
      assert f as real <= -x < f as real + 1.0;
    }
  }

  /** Entries are read one by one; what is not an object is passed over. */
  lemma {:induction false} EntriesRead(a: seq<Value>, v: Value)
    ensures AppsOf(a + [v]) == AppsOf(a) + (if v.Obj? then Kept(v) else [])
  {
    hide AppOf;
    if a == [] {
      assert [v][1..] == [] && AppsOf([v]) == Kept(v) + AppsOf([]);
    } else {
      assert (a + [v])[1..] == a[1..] + [v];
      EntriesRead(a[1..], v);
      Regroup(Kept(a[0]), AppsOf(a[1..]), if v.Obj? then Kept(v) else []);
    }
  }

  /** The catalogue reads back as it was written. */
  lemma CatalogRoundTrip(apps: seq<HostApp>, g: RealFormat)
    requires AppsOk(apps)
    ensures ParseCatalog(Serialize(apps, g)) == apps
  {
    hide AppValues, AppsOf, Parse, Dump, Printable, CatalogValue;
    AppsRead(apps);
    CatalogShape(apps);
    ParseDump(CatalogValue(apps), g);
  }

  lemma CatalogShape(apps: seq<HostApp>)
    requires AppsOk(apps)
    ensures Printable(CatalogValue(apps)) && CatalogValue(apps).Find("apps") == Some(Arr(AppValues(apps)))
  {
    AppsRead(apps);
    hide AppValues, AppsOf;
    assert Printable(Arr(AppValues(apps)));
  }

  // ----- the diff

  datatype SyncDiff = SyncDiff(added: nat, removed: nat, updated: nat)

  function ByName(apps: seq<HostApp>, name: string): Option<HostApp> {
    if apps == [] then None else if apps[0].name == name then Some(apps[0]) else ByName(apps[1..], name)
  }

  /** All fields but the name, by which the two were matched. */
  predicate Same(a: HostApp, b: HostApp) {
    a.(name := b.name) == b
  }

  function Added(prev: seq<HostApp>, next: seq<HostApp>): nat {
    if next == [] then 0 else (if ByName(prev, next[0].name).None? then 1 else 0) + Added(prev, next[1..])
  }

  function Updated(prev: seq<HostApp>, next: seq<HostApp>): nat {
    if next == [] then 0
    else
      var p := ByName(prev, next[0].name);
      (if p.Some? && !Same(p.value, next[0]) then 1 else 0) + Updated(prev, next[1..])
  }

  function Diff(prev: seq<HostApp>, next: seq<HostApp>): SyncDiff {
    SyncDiff(Added(prev, next), Added(next, prev), Updated(prev, next))
  }

  ghost predicate UniqueNames(apps: seq<HostApp>) {
    forall i, j :: 0 <= i < j < |apps| ==> apps[i].name != apps[j].name
  }

  function Names(apps: seq<HostApp>): set<string> {
    if apps == [] then {} else {apps[0].name} + Names(apps[1..])
  }

  /** The catalogue as a map from names. */
  function AsMap(apps: seq<HostApp>): map<string, HostApp> {
    if apps == [] then map[] else AsMap(apps[1..])[apps[0].name := apps[0]]
  }

  lemma {:induction false} ByNameInNames(apps: seq<HostApp>, name: string)
    ensures ByName(apps, name).Some? <==> name in Names(apps)
    ensures ByName(apps, name).Some? ==> ByName(apps, name).value in apps && ByName(apps, name).value.name == name
    ensures name in Names(apps) <==> exists i :: 0 <= i < |apps| && apps[i].name == name
  {
    if apps != [] {
      ByNameInNames(apps[1..], name);
      if i :| 0 <= i < |apps| && apps[i].name == name {
        if i > 0 {
          assert apps[1..][i - 1].name == name;
        }
      }
    }
  }

  lemma {:induction false} NamesSize(apps: seq<HostApp>)
    requires UniqueNames(apps)
    ensures |Names(apps)| == |apps|
  {
    if apps != [] {
      NamesSize(apps[1..]);
      ByNameInNames(apps[1..], apps[0].name);
      assert apps[0].name !in Names(apps[1..]);
    }
  }

  lemma {:induction false} AddedIsDifference(prev: seq<HostApp>, next: seq<HostApp>)
    requires UniqueNames(next)
    ensures Added(prev, next) == |Names(next) - Names(prev)|
  {
    if next == [] {
      assert Names(next) - Names(prev) == {};
    } else {
      var n := next[0].name;
      AddedIsDifference(prev, next[1..]);
      ByNameInNames(prev, n);
      ByNameInNames(next[1..], n);
      assert n !in Names(next[1..]);
      var rest := Names(next[1..]) - Names(prev);
      if n in Names(prev) {
        assert Names(next) - Names(prev) == rest;
      } else {
        assert Names(next) - Names(prev) == {n} + rest;
      }
    }
  }

  lemma SetBalance(a: set<string>, b: set<string>)
    ensures |a| + |b - a| == |b| + |a - b|
  {
    assert a == (a * b) + (a - b);
    assert b == (a * b) + (b - a);
  }

  /** What is added and removed accounts for the change in size. */
  lemma DiffBalance(prev: seq<HostApp>, next: seq<HostApp>)
    requires UniqueNames(prev) && UniqueNames(next)
    ensures |prev| + Diff(prev, next).added == |next| + Diff(prev, next).removed
  {
    NamesSize(prev);
    NamesSize(next);
    AddedIsDifference(prev, next);
    AddedIsDifference(next, prev);
    SetBalance(Names(prev), Names(next));
  }

  /** The names on both sides that do not mean the same. */
  ghost function Changed(prev: seq<HostApp>, next: seq<HostApp>): set<string> {
    set n | n in Names(next) && ByName(prev, n).Some? && ByName(prev, n) != ByName(next, n)
  }

  lemma {:induction false} UpdatedIsChanged(prev: seq<HostApp>, next: seq<HostApp>)
    requires UniqueNames(next)
    ensures Updated(prev, next) == |Changed(prev, next)|
  {
    if next == [] {
      assert Changed(prev, next) == {};
    } else {
      var a, rest := next[0], next[1..];
      UpdatedIsChanged(prev, rest);
      ByNameInNames(rest, a.name);
      ChangedFirst(prev, next);
      hide Same, ByName, Names;
    }
  }

  lemma ChangedFirst(prev: seq<HostApp>, next: seq<HostApp>)
    requires next != [] && next[0].name !in Names(next[1..])
    ensures
      var a, rest, p := next[0], next[1..], ByName(prev, next[0].name);
      && a.name !in Changed(prev, rest)
      && Changed(prev, next) == (if p.Some? && !Same(p.value, a) then {a.name} else {}) + Changed(prev, rest)
  {
    var a, rest := next[0], next[1..];
    ByNameInNames(prev, a.name);
    forall n | n in Names(rest) ensures n != a.name && ByName(next, n) == ByName(rest, n) {
    }
  }

  /** The three counts, over the catalogues as maps from names. */
  lemma DiffCounts(prev: seq<HostApp>, next: seq<HostApp>)
    requires UniqueNames(prev) && UniqueNames(next)
    ensures
      var d, p, n := Diff(prev, next), AsMap(prev), AsMap(next);
      && d.added == |n.Keys - p.Keys| && d.removed == |p.Keys - n.Keys|
      && d.updated == |set k | k in n && k in p && p[k] != n[k]|
  {
    AddedIsDifference(prev, next);
    AddedIsDifference(next, prev);
    UpdatedIsChanged(prev, next);
    MapKeys(prev);
    MapKeys(next);
    var p, n := AsMap(prev), AsMap(next);
    forall k ensures k in Changed(prev, next) <==> k in n && k in p && p[k] != n[k] {
      MapIsByName(prev, k);
      MapIsByName(next, k);
    }
    assert Changed(prev, next) == set k | k in n && k in p && p[k] != n[k];
  }

  lemma {:induction false} MapKeys(apps: seq<HostApp>)
    ensures AsMap(apps).Keys == Names(apps)
  {
    if apps != [] {
      MapKeys(apps[1..]);
    }
  }

  lemma {:induction false} MapIsByName(apps: seq<HostApp>, name: string)
    ensures name in AsMap(apps) <==> ByName(apps, name).Some?
    ensures name in AsMap(apps) ==> AsMap(apps)[name] == ByName(apps, name).value
  {
    if apps != [] {
      MapIsByName(apps[1..], name);
    }
  }

  /** No entry counts, none of them one by one. */
  lemma {:induction false} AddedZero(prev: seq<HostApp>, next: seq<HostApp>)
    ensures Added(prev, next) == 0 <==> forall i :: 0 <= i < |next| ==> ByName(prev, next[i].name).Some?
  {
    if next != [] {
      AddedZero(prev, next[1..]);
      assert forall i :: 0 < i < |next| ==> next[i] == next[1..][i - 1];
    }
  }

  ghost predicate Unchanged(prev: seq<HostApp>, n: HostApp) {
    var p := ByName(prev, n.name);
    p.Some? ==> Same(p.value, n)
  }

  lemma {:induction false} UpdatedZero(prev: seq<HostApp>, next: seq<HostApp>)
    ensures Updated(prev, next) == 0 <==> forall i :: 0 <= i < |next| ==> Unchanged(prev, next[i])
  {
    if next != [] {
      UpdatedZero(prev, next[1..]);
      assert forall i :: 0 < i < |next| ==> next[i] == next[1..][i - 1];
      assert Unchanged(prev, next[0]) <==> !(ByName(prev, next[0].name).Some? && !Same(ByName(prev, next[0].name).value, next[0]));
    }
  }

  lemma {:induction false} UniqueByName(apps: seq<HostApp>, i: nat)
    requires UniqueNames(apps) && i < |apps|
    ensures ByName(apps, apps[i].name) == Some(apps[i])
  {
    if i > 0 {
      UniqueByName(apps[1..], i - 1);
      assert apps[0].name != apps[i].name;
    }
  }

  /** The diff is zero exactly when the two catalogues are the same map from names. */
  lemma DiffZeroIsEqual(prev: seq<HostApp>, next: seq<HostApp>)
    requires UniqueNames(prev) && UniqueNames(next)
    ensures Diff(prev, next) == SyncDiff(0, 0, 0) <==> AsMap(prev) == AsMap(next)
  {
    AddedZero(prev, next);
    AddedZero(next, prev);
    UpdatedZero(prev, next);
    if Diff(prev, next) == SyncDiff(0, 0, 0) {
      ZeroIsEqual(prev, next);
    }
    if AsMap(prev) == AsMap(next) {
      EqualIsZero(prev, next);
    }
  }

  lemma ZeroIsEqual(prev: seq<HostApp>, next: seq<HostApp>)
    requires UniqueNames(next) && UniqueNames(prev)
    requires forall i :: 0 <= i < |next| ==> ByName(prev, next[i].name).Some?
    requires forall i :: 0 <= i < |prev| ==> ByName(next, prev[i].name).Some?
    requires forall i :: 0 <= i < |next| ==> Unchanged(prev, next[i])
    ensures AsMap(prev) == AsMap(next)
  {
    forall name ensures ByName(prev, name) == ByName(next, name) {
      ByNameInNames(prev, name);
      ByNameInNames(next, name);
      if i :| 0 <= i < |next| && next[i].name == name {
        assert Unchanged(prev, next[i]);
        UniqueByName(next, i);
      }
    }
    forall name ensures name in AsMap(prev) <==> name in AsMap(next)
    ensures name in AsMap(prev) ==> AsMap(prev)[name] == AsMap(next)[name]
    {
      MapIsByName(prev, name);
      MapIsByName(next, name);
    }
  }

  lemma EqualIsZero(prev: seq<HostApp>, next: seq<HostApp>)
    requires UniqueNames(prev) && UniqueNames(next) && AsMap(prev) == AsMap(next)
    ensures Diff(prev, next) == SyncDiff(0, 0, 0)
  {
    forall name ensures ByName(prev, name) == ByName(next, name) {
      MapIsByName(prev, name);
      MapIsByName(next, name);
    }
    forall i | 0 <= i < |next| ensures ByName(prev, next[i].name).Some? && Unchanged(prev, next[i]) {
      UniqueByName(next, i);
    }
    forall i | 0 <= i < |prev| ensures ByName(next, prev[i].name).Some? {
      UniqueByName(prev, i);
    }
    AddedZero(prev, next);
    AddedZero(next, prev);
    UpdatedZero(prev, next);
  }

  /** A list differs from itself exactly when it gives one name two meanings. */
  lemma SelfDiff(apps: seq<HostApp>)
    ensures Diff(apps, apps) == SyncDiff(0, 0, 0)
       <==> forall i, j :: 0 <= i < j < |apps| && apps[i].name == apps[j].name ==> apps[i] == apps[j]
  {
    AddedZero(apps, apps);
    UpdatedZero(apps, apps);
    forall i | 0 <= i < |apps| ensures ByName(apps, apps[i].name).Some? {
      ByNameInNames(apps, apps[i].name);
    }
    if forall i :: 0 <= i < |apps| ==> Unchanged(apps, apps[i]) {
      forall i, j | 0 <= i < j < |apps| && apps[i].name == apps[j].name ensures apps[i] == apps[j] {
        assert Unchanged(apps, apps[i]) && Unchanged(apps, apps[j]);
        ByNameInNames(apps, apps[i].name);
      }
    }
    if forall i, j :: 0 <= i < j < |apps| && apps[i].name == apps[j].name ==> apps[i] == apps[j] {
      forall i | 0 <= i < |apps| ensures Unchanged(apps, apps[i]) {
        ByNameInNames(apps, apps[i].name);
        var p := ByName(apps, apps[i].name).value;
        var j :| 0 <= j < |apps| && apps[j] == p;
        assert j < i || j == i || i < j;
      }
    }
  }

  // ----- publishing

  datatype Published = Published(file: string, diff: SyncDiff)

  /** `host.syncApps` with a successful write: compare with what the file holds, then replace it. */
  function Sync(file: Option<string>, next: seq<HostApp>, g: RealFormat): Published {
    var prev := if file.None? then [] else ParseCatalog(file.value);
    Published(Serialize(next, g), Diff(prev, next))
  }

  /** Publishing reports the change from what the file holds: all of it new when there is no file. */
  lemma SyncReports(prev: seq<HostApp>, next: seq<HostApp>, g: RealFormat)
    requires AppsOk(prev) && UniqueNames(prev) && UniqueNames(next)
    ensures Sync(None, next, g).diff == SyncDiff(|next|, 0, 0)
    ensures
      var d, p, n := Sync(Some(Serialize(prev, g)), next, g).diff, AsMap(prev), AsMap(next);
      && d.added == |n.Keys - p.Keys| && d.removed == |p.Keys - n.Keys|
      && d.updated == |set k | k in n && k in p && p[k] != n[k]|
  {
    CatalogRoundTrip(prev, g);
    DiffCounts(prev, next);
    DiffCounts([], next);
    MapKeys(next);
    NamesSize(next);
    hide ParseCatalog, Serialize, Diff;
    var n := AsMap(next);
    var none: map<string, HostApp> := map[];
    assert n.Keys - none.Keys == n.Keys && none.Keys - n.Keys == {};
    assert (set k | k in n && k in none && none[k] != n[k]) == {};
  }

  /** No name stands for two different apps. */
  ghost predicate OneMeaning(apps: seq<HostApp>) {
    forall i, j :: 0 <= i < j < |apps| && apps[i].name == apps[j].name ==> apps[i] == apps[j]
  }

  /** Publishing the same list again writes the same file, and reports no change exactly if no name in
      it stands for two different apps. */
  lemma RepublishIsQuiet(file: Option<string>, apps: seq<HostApp>, g: RealFormat)
    requires AppsOk(apps)
    ensures
      var once := Sync(file, apps, g);
      var again := Sync(Some(once.file), apps, g);
      again.file == once.file && (again.diff == SyncDiff(0, 0, 0) <==> OneMeaning(apps))
  {
    CatalogRoundTrip(apps, g);
    hide ParseCatalog, Serialize, Diff;
    SelfDiff(apps);
  }

  // ----- the functions as they run

  method SerializeApps(apps: seq<HostApp>, g: RealFormat) returns (text: string)
    ensures text == Serialize(apps, g)
  {
    hide AppFields, Dump;
    var arr: seq<Value> := [];
    assert apps[0..] == apps;
    for i := 0 to |apps|
      invariant AppValues(apps) == arr + AppValues(apps[i..])
    {
      assert apps[i..][1..] == apps[i + 1..];
      arr := arr + [Obj(AppFields(apps[i]))];
    }
    assert arr + [] == arr;
    text := DumpText(Obj(map["env" := Obj(map[]), "apps" := Arr(arr)]), g);
  }

  lemma AppsStep(out: seq<HostApp>, a: seq<Value>, i: nat)
    requires i < |a|
    ensures out + AppsOf(a[i..]) == (out + Kept(a[i])) + AppsOf(a[i + 1..])
  {
    hide Kept;
    assert a[i..][1..] == a[i + 1..];
    assert out + (Kept(a[i]) + AppsOf(a[i + 1..])) == (out + Kept(a[i])) + AppsOf(a[i + 1..]);
  }

  method ParseAppsJson(text: string) returns (out: seq<HostApp>)
    ensures out == ParseCatalog(text)
  {
    hide Parse, AppOf;
    out := [];
    var parsed := ParseText(text);
    if parsed.None? { return; }
    var apps := parsed.value.Find("apps");
    if apps.None? || !apps.value.Arr? { return; }
    var a := apps.value.a;
    assert a[0..] == a;
    for i := 0 to |a|
      invariant AppsOf(a) == out + AppsOf(a[i..])
    {
      AppsStep(out, a, i);
      if !a[i].Obj? || a[i].GetStr("name") == "" {
        assert out + [] == out;
        continue;
      }
      out := out + [AppOf(a[i])];
    }
    assert out + [] == out;
  }

  method FindByName(apps: seq<HostApp>, name: string) returns (p: Option<HostApp>)
    ensures p == ByName(apps, name)
  {
    assert apps[0..] == apps;
    for i := 0 to |apps|
      invariant ByName(apps, name) == ByName(apps[i..], name)
    {
      assert apps[i..][1..] == apps[i + 1..];
      if apps[i].name == name { return Some(apps[i]); }
    }
    p := None;
  }

  method DiffApps(prev: seq<HostApp>, next: seq<HostApp>) returns (d: SyncDiff)
    ensures d == Diff(prev, next)
  {
    hide ByName;
    var added, removed, updated := 0, 0, 0;
    assert next[0..] == next && prev[0..] == prev;
    for i := 0 to |next|
      invariant Added(prev, next) == added + Added(prev, next[i..])
      invariant Updated(prev, next) == updated + Updated(prev, next[i..])
    {
      assert next[i..][1..] == next[i + 1..];
      var p := FindByName(prev, next[i].name);
      if p.None? {
        added := added + 1;
      } else if !Same(p.value, next[i]) {
        updated := updated + 1;
      }
    }
    for i := 0 to |prev|
      invariant Added(next, prev) == removed + Added(next, prev[i..])
    {
      assert prev[i..][1..] == prev[i + 1..];
      var n := FindByName(next, prev[i].name);
      if n.None? {
        removed := removed + 1;
      }
    }
    d := SyncDiff(added, removed, updated);
  }
}
