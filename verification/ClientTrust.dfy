/** The trusted-client list of src/host/client_trust.cpp, kept inside a JSON state file of another
    program whose other content must survive. */
module ClientTrust {
  import opened Common
  import opened JsonValue
  import opened JsonText
  import opened JsonRoundTrip
  import opened JsonMachine

  // ----- the state

  /** The state's object, fresh on empty or invalid text. */
  function ParseState(text: string): (v: Value)
    ensures v.Obj?
  {
    var v := Parse(text);
    if text == "" || v.None? || !v.value.Obj? then Obj(map[]) else v.value
  }

  /** The object under a key, fresh if there is none. */
  function ChildObject(v: Value, k: string): (c: Value)
    ensures c.Obj?
  {
    var c := v.Find(k);
    if c.Some? && c.value.Obj? then c.value else Obj(map[])
  }

  function ChildArray(v: Value, k: string): (c: Value)
    ensures c.Arr?
  {
    var c := v.Find(k);
    if c.Some? && c.value.Arr? then c.value else Arr([])
  }

  predicate Lists(devices: seq<Value>, cert: string) {
    exists i :: 0 <= i < |devices| && devices[i].GetStr("cert") == cert
  }

  function Devices(doc: Value): seq<Value> {
    ChildArray(ChildObject(doc, "root"), "named_devices").a
  }

  function Entry(name: string, cert: string, uuid: string): Value {
    Obj(map["name" := Str(name), "cert" := Str(cert), "uuid" := Str(uuid), "enabled" := Str("true")])
  }

  // ----- queries and updates

  predicate HasTrusted(text: string, cert: string) {
    if cert == "" then false
    else
      var root := ParseState(text).Find("root");
      if root.None? then false
      else
        var devices := root.value.Find("named_devices");
        devices.Some? && devices.value.Arr? && Lists(devices.value.a, cert)
  }

  /** The document with these devices. */
  function WithDevices(doc: Value, devices: seq<Value>): Value
    requires doc.Obj?
  {
    var root := ChildObject(doc, "root");
    Obj(doc.o["root" := Obj(root.o["named_devices" := Arr(devices)])])
  }

  /** The document after the call: coerced to its shape, the entry added unless the certificate is there. */
  function Trusting(doc: Value, name: string, cert: string, uuid: string): Value
    requires doc.Obj?
  {
    var ds := Devices(doc);
    WithDevices(doc, if Lists(ds, cert) then ds else ds + [Entry(name, cert, uuid)])
  }

  function AddTrusted(text: string, name: string, cert: string, uuid: string, g: RealFormat): string {
    Dump(Trusting(ParseState(text), name, cert, uuid), g)
  }

  // ----- at the level of documents

  lemma DevicesOfWith(doc: Value, devices: seq<Value>)
    requires doc.Obj?
    ensures Devices(WithDevices(doc, devices)) == devices
  {
  }

  /** Coercing changes nothing that a query sees. */
  lemma TrustedIsListed(text: string, cert: string)
    requires cert != ""
    ensures HasTrusted(text, cert) <==> Lists(Devices(ParseState(text)), cert)
  {
  }

  lemma TrustingPrints(doc: Value, name: string, cert: string, uuid: string)
    requires doc.Obj? && Printable(doc)
    ensures Printable(Trusting(doc, name, cert, uuid))
  {
    var root := ChildObject(doc, "root");
    assert Printable(root);
    var arr := ChildArray(root, "named_devices");
    assert Printable(arr);
    EntryPrints(name, cert, uuid);
    var ds := if Lists(arr.a, cert) then arr.a else arr.a + [Entry(name, cert, uuid)];
    hide Entry, Lists;
    assert Printable(Arr(ds));
    assert Printable(Obj(root.o["named_devices" := Arr(ds)]));
  }

  lemma EntryPrints(name: string, cert: string, uuid: string)
    ensures Printable(Entry(name, cert, uuid)) && Entry(name, cert, uuid).GetStr("cert") == cert
  {
  }

  /** Reading the written text gives the document back. */
  lemma StateAfter(text: string, name: string, cert: string, uuid: string, g: RealFormat)
    requires Printable(ParseState(text))
    ensures ParseState(AddTrusted(text, name, cert, uuid, g)) == Trusting(ParseState(text), name, cert, uuid)
  {
    var doc := Trusting(ParseState(text), name, cert, uuid);
    TrustingPrints(ParseState(text), name, cert, uuid);
    ParseDump(doc, g);
    hide Parse, Dump, Trusting;
    assert Parse("").None? by { NothingParses(); }
  }

  lemma NothingParses()
    ensures Parse("").None?
  {
  }

  lemma ListsSnoc(ds: seq<Value>, e: Value, cert: string)
    ensures Lists(ds + [e], cert) <==> Lists(ds, cert) || e.GetStr("cert") == cert
  {
    hide Value.GetStr;
    if Lists(ds, cert) {
      var i :| 0 <= i < |ds| && ds[i].GetStr("cert") == cert;
      assert (ds + [e])[i].GetStr("cert") == cert;
    }
    if e.GetStr("cert") == cert {
      assert (ds + [e])[|ds|].GetStr("cert") == cert;
    }
  }

  // ----- at the level of text

  /** After adding a certificate it is trusted, and the trust of every other one is as before. */
  lemma TrustAfterAdding(text: string, name: string, cert: string, uuid: string, g: RealFormat, other: string)
    requires Printable(ParseState(text)) && cert != "" && other != ""
    ensures HasTrusted(AddTrusted(text, name, cert, uuid, g), other) <==> other == cert || HasTrusted(text, other)
  {
    hide Parse, Dump, Printable;
    var doc := ParseState(text);
    var ds := Devices(doc);
    StateAfter(text, name, cert, uuid, g);
    TrustedIsListed(text, other);
    TrustedIsListed(AddTrusted(text, name, cert, uuid, g), other);
    DevicesOfWith(doc, ds);
    DevicesOfWith(doc, ds + [Entry(name, cert, uuid)]);
    ListsSnoc(ds, Entry(name, cert, uuid), other);
    EntryPrints(name, cert, uuid);
  }

  /** Adding the same certificate again, under any name and id, returns the identical text. */
  lemma AddingIsIdempotent(text: string, name: string, cert: string, uuid: string,
                           name': string, uuid': string, g: RealFormat)
    requires Printable(ParseState(text)) && cert != ""
    ensures
      var once := AddTrusted(text, name, cert, uuid, g);
      AddTrusted(once, name', cert, uuid', g) == once
  {
    hide Parse, Dump, Printable;
    var doc := ParseState(text);
    var ds := Devices(doc);
    var next := Trusting(doc, name, cert, uuid);
    StateAfter(text, name, cert, uuid, g);
    var ds' := if Lists(ds, cert) then ds else ds + [Entry(name, cert, uuid)];
    DevicesOfWith(doc, ds');
    ListsSnoc(ds, Entry(name, cert, uuid), cert);
    EntryPrints(name, cert, uuid);
    assert next == WithDevices(doc, ds') && Lists(ds', cert);
    WithDevicesTwice(doc, ds');
  }

  lemma WithDevicesTwice(doc: Value, ds: seq<Value>)
    requires doc.Obj?
    ensures WithDevices(WithDevices(doc, ds), ds) == WithDevices(doc, ds)
  {
    var once := WithDevices(doc, ds);
    var root := ChildObject(once, "root");
    assert root.o["named_devices" := Arr(ds)] == root.o;
    assert once.o["root" := Obj(root.o)] == once.o;
  }

  /** Every other field of the state and of its root survives, and so do the devices already there. */
  lemma FieldsSurvive(text: string, name: string, cert: string, uuid: string, g: RealFormat, k: string)
    requires Printable(ParseState(text))
    ensures
      var before, after := ParseState(text), ParseState(AddTrusted(text, name, cert, uuid, g));
      && (k != "root" ==> after.Find(k) == before.Find(k))
      && after.Find("root").Some? && after.o["root"].Obj?
      && (k != "named_devices" ==> after.o["root"].Find(k) == ChildObject(before, "root").Find(k))
      && Devices(before) <= Devices(after)
  {
    hide Parse, Dump, Printable;
    StateAfter(text, name, cert, uuid, g);
    var ds := Devices(ParseState(text));
    DevicesOfWith(ParseState(text), ds);
    DevicesOfWith(ParseState(text), ds + [Entry(name, cert, uuid)]);
  }

  /** The same over the parsed texts: what the state and its root held beside the devices is still there,
      and nothing else is new. */
  lemma TextSurvives(text: string, name: string, cert: string, uuid: string, g: RealFormat, k: string)
    requires Printable(ParseState(text))
    ensures
      var before, after := Parse(text), Parse(AddTrusted(text, name, cert, uuid, g));
      && after.Some? && after.value.Obj? && "root" in after.value.o && after.value.o["root"].Obj?
      && (before.Some? && before.value.Obj? && k != "root" ==>
            && (k in after.value.o <==> k in before.value.o)
            && (k in before.value.o ==> after.value.o[k] == before.value.o[k]))
      && (!(before.Some? && before.value.Obj?) ==> after.value.o.Keys == {"root"})
      && (before.Some? && before.value.Obj? && "root" in before.value.o && before.value.o["root"].Obj? && k != "named_devices" ==>
            && (k in after.value.o["root"].o <==> k in before.value.o["root"].o)
            && (k in before.value.o["root"].o ==> after.value.o["root"].o[k] == before.value.o["root"].o[k]))
  {
    assert Parse("").None? by { NothingParses(); }
    var doc := Trusting(ParseState(text), name, cert, uuid);
    TrustingPrints(ParseState(text), name, cert, uuid);
    ParseDump(doc, g);
    hide Parse, Dump, Printable, Entry, Lists;
  }

  // ----- the device list, field by field

  ghost function FieldIn(v: Value, k: string): Option<Value> {
    if v.Obj? && k in v.o then Some(v.o[k]) else None
  }

  /** The devices that a text holds under "root" and "named_devices". */
  ghost function ListedDevices(text: string): seq<Value> {
    var doc := Parse(text);
    if doc.None? then []
    else
      var root := FieldIn(doc.value, "root");
      if root.None? then []
      else
        var ds := FieldIn(root.value, "named_devices");
        if ds.Some? && ds.value.Arr? then ds.value.a else []
  }

  ghost predicate HasCert(v: Value, cert: string) {
    FieldIn(v, "cert") == Some(Str(cert))
  }

  /** An object with exactly these four strings. */
  ghost predicate IsDevice(v: Value, name: string, cert: string, uuid: string) {
    && v.Obj? && v.o.Keys == {"name", "cert", "uuid", "enabled"}
    && v.o["name"] == Str(name) && v.o["cert"] == Str(cert) && v.o["uuid"] == Str(uuid) && v.o["enabled"] == Str("true")
  }

  lemma DevicesAreListed(text: string)
    ensures Devices(ParseState(text)) == ListedDevices(text)
  {
    assert Parse("").None? by { NothingParses(); }
    hide Parse;
  }

  lemma EntryIsDevice(name: string, cert: string, uuid: string)
    ensures IsDevice(Entry(name, cert, uuid), name, cert, uuid)
  {
  }

  lemma ListsIs(ds: seq<Value>, cert: string)
    requires cert != ""
    ensures Lists(ds, cert) <==> exists i :: 0 <= i < |ds| && HasCert(ds[i], cert)
  {
    if i :| 0 <= i < |ds| && HasCert(ds[i], cert) {
      assert ds[i].GetStr("cert") == cert;
    }
  }

  /** After the call the text lists the devices that it listed before, and one more unless one of them
      has the certificate: an object with the name, the certificate, the uuid and "true". */
  lemma DevicesAfterAdding(text: string, name: string, cert: string, uuid: string, g: RealFormat)
    requires Printable(ParseState(text)) && cert != ""
    ensures
      var before, after := ListedDevices(text), ListedDevices(AddTrusted(text, name, cert, uuid, g));
      if exists i :: 0 <= i < |before| && HasCert(before[i], cert) then after == before
      else |after| == |before| + 1 && after[..|before|] == before && IsDevice(after[|before|], name, cert, uuid)
  {
    hide Parse, Dump, Printable, ListedDevices, HasCert, IsDevice, Entry, Lists;
    var doc := ParseState(text);
    StateAfter(text, name, cert, uuid, g);
    DevicesAreListed(text);
    DevicesAreListed(AddTrusted(text, name, cert, uuid, g));
    ListsIs(Devices(doc), cert);
    DevicesOfWith(doc, Devices(doc));
    DevicesOfWith(doc, Devices(doc) + [Entry(name, cert, uuid)]);
    EntryIsDevice(name, cert, uuid);
  }

  /** A certificate is trusted exactly if it is not empty and a listed device has it. */
  lemma TrustedMeansListed(text: string, cert: string)
    ensures HasTrusted(text, cert) <==>
      cert != "" && exists i :: 0 <= i < |ListedDevices(text)| && HasCert(ListedDevices(text)[i], cert)
  {
    hide Parse, HasCert, Lists, ListedDevices;
    DevicesAreListed(text);
    if cert != "" {
      TrustedIsListed(text, cert);
      ListsIs(Devices(ParseState(text)), cert);
    }
  }

  // ----- the functions as they run

  method FindCert(devices: seq<Value>, cert: string) returns (found: bool)
    ensures found == Lists(devices, cert)
  {
    for i := 0 to |devices|
      invariant forall j :: 0 <= j < i ==> devices[j].GetStr("cert") != cert
    {
      if devices[i].GetStr("cert") == cert { return true; }
    }
    found := false;
  }

  method ReadState(text: string) returns (doc: Value)
    ensures doc == ParseState(text)
  {
    if text == "" { return Obj(map[]); }
    var parsed := ParseText(text);
    if parsed.None? || !parsed.value.Obj? { return Obj(map[]); }
    doc := parsed.value;
  }

  method HasTrustedClient(text: string, cert: string) returns (found: bool)
    ensures found == HasTrusted(text, cert)
  {
    if cert == "" { return false; }
    var doc := ReadState(text);
    var root := doc.Find("root");
    if root.None? { return false; }
    var devices := root.value.Find("named_devices");
    if devices.None? || !devices.value.Arr? { return false; }
    found := FindCert(devices.value.a, cert);
  }

  method AddTrustedClient(text: string, name: string, cert: string, uuid: string, g: RealFormat) returns (out: string)
    ensures out == AddTrusted(text, name, cert, uuid, g)
  {
    hide Dump, Lists;
    var doc := ReadState(text);
    var root := ChildObject(doc, "root");
    var devices := ChildArray(root, "named_devices").a;
    var found := FindCert(devices, cert);
    if !found {
      devices := devices + [Entry(name, cert, uuid)];
    }
    out := DumpText(Obj(doc.o["root" := Obj(root.o["named_devices" := Arr(devices)])]), g);
  }
}
