/** The paired-host registry of src/net/identity_store.cpp: a list kept as JSON text in one file. */
module HostRegistry {
  import opened Common
  import opened JsonValue
  import opened JsonText
  import opened JsonRoundTrip
  import opened JsonMachine

  datatype PairedHost = PairedHost(address: string, name: string, cert: string)

  // ----- the file

  function HostValue(h: PairedHost): Value {
    Obj(map["address" := Str(h.address), "name" := Str(h.name), "serverCert" := Str(h.cert)])
  }

  function HostsValue(hs: seq<PairedHost>): Value {
    Arr(seq(|hs|, i requires 0 <= i < |hs| => HostValue(hs[i])))
  }

  function HostOf(v: Value): PairedHost {
    PairedHost(v.GetStr("address"), v.GetStr("name"), v.GetStr("serverCert"))
  }

  /** Objects with a non-empty address; anything else in the array is passed over. */
  function HostsOf(a: seq<Value>): seq<PairedHost> {
    if a == [] then [] else Kept(a[0]) + HostsOf(a[1..])
  }

  function Kept(v: Value): seq<PairedHost> {
    if v.Obj? && HostOf(v).address != "" then [HostOf(v)] else []
  }

  /** A missing or malformed file is an empty registry. */
  function ReadHosts(file: Option<string>): seq<PairedHost> {
    if file.None? then []
    else
      var v := Parse(file.value);
      if v.None? || !v.value.Arr? then [] else HostsOf(v.value.a)
  }

  function WriteHosts(hs: seq<PairedHost>, g: RealFormat): string {
    Dump(HostsValue(hs), g)
  }

  lemma HostValueReads(h: PairedHost)
    ensures HostOf(HostValue(h)) == h && Printable(HostValue(h))
  {
  }

  lemma {:induction false} HostsOfValues(hs: seq<PairedHost>)
    requires forall i :: 0 <= i < |hs| ==> hs[i].address != ""
    ensures HostsOf(HostsValue(hs).a) == hs
  {
    hide HostValue, HostOf;
    if hs != [] {
      HostValueReads(hs[0]);
      HostIsObject(hs[0]);
      HostsOfValues(hs[1..]);
      assert HostsValue(hs).a[1..] == HostsValue(hs[1..]).a;
      assert hs == [hs[0]] + hs[1..];
    }
  }

  lemma HostIsObject(h: PairedHost)
    ensures HostValue(h).Obj?
  {
  }

  /** What was written is what is read, for any names and certificates. */
  lemma ReadWritten(hs: seq<PairedHost>, g: RealFormat)
    requires forall i :: 0 <= i < |hs| ==> hs[i].address != ""
    ensures ReadHosts(Some(WriteHosts(hs, g))) == hs
  {
    HostsOfValues(hs);
    hide HostValue, HostsOf, Dump, Parse;
    forall i | 0 <= i < |hs| ensures Printable(HostValue(hs[i])) {
      HostValueReads(hs[i]);
    }
    assert forall x :: x in HostsValue(hs).a ==> Printable(x);
    ParseDump(HostsValue(hs), g);
  }

  // ----- the file, field by field

  ghost predicate HasText(v: Value, k: string, s: string) {
    v.Obj? && k in v.o && v.o[k] == Str(s)
  }

  /** The object that stands for a host in the file. */
  ghost predicate IsEntryOf(v: Value, h: PairedHost) {
    && HasText(v, "address", h.address) && HasText(v, "name", h.name) && HasText(v, "serverCert", h.cert)
    && v.o.Keys == {"address", "name", "serverCert"}
  }

  lemma ValueIsEntry(h: PairedHost)
    ensures IsEntryOf(HostValue(h), h)
  {
  }

  /** The written file is an array of the hosts' entries in order. */
  lemma FileIsEntries(hs: seq<PairedHost>, g: RealFormat)
    ensures
      var v := Parse(WriteHosts(hs, g));
      v.Some? && v.value.Arr? && |v.value.a| == |hs| && forall i :: 0 <= i < |hs| ==> IsEntryOf(v.value.a[i], hs[i])
  {
    hide HostValue, Dump, Parse, IsEntryOf;
    forall i | 0 <= i < |hs| ensures Printable(HostValue(hs[i])) && IsEntryOf(HostValue(hs[i]), hs[i]) {
      HostValueReads(hs[i]);
      ValueIsEntry(hs[i]);
    }
    assert forall x :: x in HostsValue(hs).a ==> Printable(x);
    ParseDump(HostsValue(hs), g);
  }

  ghost function TextIn(o: map<string, Value>, k: string): string {
    if k in o && o[k].Str? then o[k].s else ""
  }

  /** Any entry is read by these keys, whoever wrote it; one without an address is passed over. */
  lemma EntryReads(o: map<string, Value>)
    ensures Kept(Obj(o)) == if TextIn(o, "address") == "" then []
                            else [PairedHost(TextIn(o, "address"), TextIn(o, "name"), TextIn(o, "serverCert"))]
  {
  }

  /** Entries are read one by one; what is not an object is passed over. */
  lemma {:induction false} EntriesRead(a: seq<Value>, v: Value)
    ensures HostsOf(a + [v]) == HostsOf(a) + (if v.Obj? then Kept(v) else [])
  {
    hide HostOf;
    if a == [] {
      assert [v][1..] == [] && HostsOf([v]) == Kept(v) + HostsOf([]);
    } else {
      assert (a + [v])[1..] == a[1..] + [v];
      EntriesRead(a[1..], v);
      Regroup(Kept(a[0]), HostsOf(a[1..]), if v.Obj? then Kept(v) else []);
    }
  }

  /** Only an array of entries is a registry. */
  lemma ForeignFile(text: string)
    requires Parse(text).None? || !Parse(text).value.Arr?
    ensures ReadHosts(Some(text)) == []
  {
  }

  // ----- operations on the list

  function FindHost(hs: seq<PairedHost>, a: string): Option<PairedHost> {
    if hs == [] then None else if hs[0].address == a then Some(hs[0]) else FindHost(hs[1..], a)
  }

  /** In place of the first entry with the address, or at the end. */
  function Upsert(hs: seq<PairedHost>, h: PairedHost): seq<PairedHost> {
    if hs == [] then [h]
    else if hs[0].address == h.address then [h] + hs[1..]
    else [hs[0]] + Upsert(hs[1..], h)
  }

  function Remove(hs: seq<PairedHost>, a: string): seq<PairedHost> {
    if hs == [] then [] else (if hs[0].address == a then [] else [hs[0]]) + Remove(hs[1..], a)
  }

  /** Addresses are unique and not empty. */
  ghost predicate Proper(hs: seq<PairedHost>) {
    && (forall i :: 0 <= i < |hs| ==> hs[i].address != "")
    && (forall i, j :: 0 <= i < j < |hs| ==> hs[i].address != hs[j].address)
  }

  function Addresses(hs: seq<PairedHost>): seq<string> {
    if hs == [] then [] else [hs[0].address] + Addresses(hs[1..])
  }

  lemma {:induction false} FindAbsent(hs: seq<PairedHost>, a: string)
    ensures FindHost(hs, a).None? <==> forall i :: 0 <= i < |hs| ==> hs[i].address != a
    ensures FindHost(hs, a).Some? ==> FindHost(hs, a).value in hs && FindHost(hs, a).value.address == a
  {
    if hs != [] {
      FindAbsent(hs[1..], a);
      assert forall i :: 0 < i < |hs| ==> hs[i] == hs[1..][i - 1];
    }
  }

  lemma {:induction false} ProperTail(hs: seq<PairedHost>)
    requires Proper(hs) && hs != []
    ensures Proper(hs[1..]) && FindHost(hs[1..], hs[0].address).None?
  {
    FindAbsent(hs[1..], hs[0].address);
  }

  lemma ProperCons(h: PairedHost, hs: seq<PairedHost>)
    requires Proper(hs) && h.address != "" && FindHost(hs, h.address).None?
    ensures Proper([h] + hs)
  {
    FindAbsent(hs, h.address);
  }

  /** Upsert on a proper list: proper again, the order kept, the new entry found, others unchanged. */
  lemma {:induction false} UpsertMeans(hs: seq<PairedHost>, h: PairedHost, a: string)
    requires Proper(hs) && h.address != ""
    ensures Proper(Upsert(hs, h))
    ensures FindHost(Upsert(hs, h), a) == if a == h.address then Some(h) else FindHost(hs, a)
    ensures Addresses(Upsert(hs, h))
         == if FindHost(hs, h.address).Some? then Addresses(hs) else Addresses(hs) + [h.address]
  {
    hide Proper;
    if hs == [] {
      assert Proper([]) by { NoHosts(); }
      ProperCons(h, []);
      assert [h] + [] == [h];
      assert [h][1..] == [];
    } else {
      ProperTail(hs);
      HeadAddress(hs);
      var tail := Upsert(hs[1..], h);
      if hs[0].address == h.address {
        ProperCons(h, hs[1..]);
        assert ([h] + hs[1..])[1..] == hs[1..];
      } else {
        UpsertMeans(hs[1..], h, a);
        UpsertMeans(hs[1..], h, hs[0].address);
        ProperCons(hs[0], tail);
        assert ([hs[0]] + tail)[1..] == tail;
      }
    }
  }

  lemma HeadAddress(hs: seq<PairedHost>)
    requires Proper(hs) && hs != []
    ensures hs[0].address != ""
  {
  }

  lemma NoHosts()
    ensures Proper([])
  {
  }

  lemma {:induction false} RemoveMeans(hs: seq<PairedHost>, gone: string, a: string)
    requires Proper(hs)
    ensures Proper(Remove(hs, gone)) && |Remove(hs, gone)| <= |hs|
    ensures FindHost(Remove(hs, gone), a) == if a == gone then None else FindHost(hs, a)
    ensures |Remove(hs, gone)| == |hs| <==> FindHost(hs, gone).None?
    ensures FindHost(hs, gone).None? ==> Remove(hs, gone) == hs
  {
    hide Proper;
    if hs != [] {
      ProperTail(hs);
      HeadAddress(hs);
      var tail := Remove(hs[1..], gone);
      RemoveMeans(hs[1..], gone, a);
      if hs[0].address == gone {
        assert [] + tail == tail;
      } else {
        RemoveMeans(hs[1..], gone, hs[0].address);
        ProperCons(hs[0], tail);
        assert ([hs[0]] + tail)[1..] == tail;
        assert hs == [hs[0]] + hs[1..];
      }
    }
  }

  // ----- histories on the file

  datatype Op = DoUpsert(h: PairedHost) | DoFind(a: string) | DoList | DoRemove(a: string)

  datatype Reply = Said(ok: bool) | Found(h: Option<PairedHost>) | Listed(hs: seq<PairedHost>)

  datatype Result = Result(file: Option<string>, reply: Reply)

  /** One call, all of whose writes succeed. */
  function Act(file: Option<string>, op: Op, g: RealFormat): Result {
    var hs := ReadHosts(file);
    match op
    case DoUpsert(h) =>
      if h.address == "" then Result(file, Said(false)) else Result(Some(WriteHosts(Upsert(hs, h), g)), Said(true))
    case DoFind(a) => Result(file, Found(FindHost(hs, a)))
    case DoList => Result(file, Listed(hs))
    case DoRemove(a) =>
      var left := Remove(hs, a);
      if |left| == |hs| then Result(file, Said(false)) else Result(Some(WriteHosts(left, g)), Said(true))
  }

  function FileOf(ops: seq<Op>, g: RealFormat): Option<string> {
    if ops == [] then None else Act(FileOf(ops[..|ops| - 1], g), ops[|ops| - 1], g).file
  }

  /** The registry as a map from addresses. */
  type Registry = map<string, PairedHost>

  function ActMap(m: Registry, op: Op): Registry {
    match op
    case DoUpsert(h) => if h.address == "" then m else m[h.address := h]
    case DoRemove(a) => m - {a}
    case _ => m
  }

  function MapOf(ops: seq<Op>): Registry {
    if ops == [] then map[] else ActMap(MapOf(ops[..|ops| - 1]), ops[|ops| - 1])
  }

  /** A list stands for a map. */
  ghost predicate Stands(hs: seq<PairedHost>, m: Registry) {
    && Proper(hs)
    && forall a :: FindHost(hs, a) == if a in m then Some(m[a]) else None
  }

  /** The reply a map gives; a listing is any order of its entries. */
  ghost predicate RepliesLike(r: Reply, m: Registry, op: Op) {
    match op
    case DoUpsert(h) => r == Said(h.address != "")
    case DoFind(a) => r == Found(if a in m then Some(m[a]) else None)
    case DoList => r.Listed? && Stands(r.hs, m)
    case DoRemove(a) => r == Said(a in m)
  }

  lemma ActRefines(file: Option<string>, m: Registry, op: Op, g: RealFormat)
    requires Stands(ReadHosts(file), m)
    ensures Stands(ReadHosts(Act(file, op, g).file), ActMap(m, op))
    ensures RepliesLike(Act(file, op, g).reply, m, op)
  {
    var hs := ReadHosts(file);
    match op
    case DoUpsert(h) =>
      if h.address != "" {
        var next := Upsert(hs, h);
        forall a ensures FindHost(next, a) == if a in m[h.address := h] then Some(m[h.address := h][a]) else None {
          UpsertMeans(hs, h, a);
        }
        UpsertMeans(hs, h, "");
        ReadWritten(next, g);
      }
    case DoFind(_) =>
    case DoList =>
    case DoRemove(gone) =>
      var left := Remove(hs, gone);
      RemoveMeans(hs, gone, gone);
      forall a ensures FindHost(left, a) == if a in m - {gone} then Some(m[a]) else None {
        RemoveMeans(hs, gone, a);
      }
      ReadWritten(left, g);
      if gone !in m {
        assert m - {gone} == m;
      }
  }

  /** Over every sequence of operations from an absent file, the file holds proper entries that stand
      for the map those operations make. */
  lemma {:induction false} RegistryIsMap(ops: seq<Op>, g: RealFormat)
    ensures Stands(ReadHosts(FileOf(ops, g)), MapOf(ops))
  {
    hide ReadHosts, Act, ActMap, Stands;
    if ops == [] {
      EmptyStands();
    } else {
      RegistryIsMap(ops[..|ops| - 1], g);
      ActRefines(FileOf(ops[..|ops| - 1], g), MapOf(ops[..|ops| - 1]), ops[|ops| - 1], g);
    }
  }

  lemma EmptyStands()
    ensures Stands(ReadHosts(None), map[])
  {
  }

  /** Every reply along the way is the map's. */
  lemma RepliesAreMaps(ops: seq<Op>, i: nat, g: RealFormat)
    requires i < |ops|
    ensures RepliesLike(Act(FileOf(ops[..i], g), ops[i], g).reply, MapOf(ops[..i]), ops[i])
  {
    hide ReadHosts, Act, ActMap, Stands, RepliesLike;
    RegistryIsMap(ops[..i], g);
    ActRefines(FileOf(ops[..i], g), MapOf(ops[..i]), ops[i], g);
  }

  // ----- the registry as it runs

  lemma HostsStep(hosts: seq<PairedHost>, a: seq<Value>, i: nat)
    requires i < |a|
    ensures hosts + HostsOf(a[i..]) == (hosts + Kept(a[i])) + HostsOf(a[i + 1..])
  {
    hide Kept;
    assert a[i..][1..] == a[i + 1..];
    assert hosts + (Kept(a[i]) + HostsOf(a[i + 1..])) == (hosts + Kept(a[i])) + HostsOf(a[i + 1..]);
  }

  method ReadArray(a: seq<Value>) returns (hosts: seq<PairedHost>)
    ensures hosts == HostsOf(a)
  {
    hide HostOf, HostsOf;
    hosts := [];
    assert a[0..] == a && [] + HostsOf(a) == HostsOf(a);
    for i := 0 to |a|
      invariant HostsOf(a) == hosts + HostsOf(a[i..])
    {
      HostsStep(hosts, a, i);
      if !a[i].Obj? {
        assert hosts + [] == hosts;
        continue;
      }
      var h := HostOf(a[i]);
      if h.address != "" {
        hosts := hosts + [h];
      } else {
        assert hosts + [] == hosts;
      }
    }
    assert HostsOf(a[|a|..]) == [] by { NoneLeft(a[|a|..]); }
    assert hosts + [] == hosts;
  }

  lemma NoneLeft(a: seq<Value>)
    requires |a| == 0
    ensures HostsOf(a) == []
  {
  }

  lemma UpsertStep(hs: seq<PairedHost>, h: PairedHost, i: nat)
    requires i <= |hs|
    ensures i == |hs| ==> hs[..i] + Upsert(hs[i..], h) == hs + [h]
    ensures i < |hs| && hs[i].address == h.address ==> hs[..i] + Upsert(hs[i..], h) == hs[i := h]
    ensures i < |hs| && hs[i].address != h.address ==>
      hs[..i] + Upsert(hs[i..], h) == hs[..i + 1] + Upsert(hs[i + 1..], h)
  {
    if i < |hs| {
      assert hs[i..][1..] == hs[i + 1..];
      if hs[i].address == h.address {
        assert hs[..i] + ([h] + hs[i + 1..]) == hs[i := h];
      } else {
        assert hs[..i] + ([hs[i]] + Upsert(hs[i + 1..], h)) == hs[..i + 1] + Upsert(hs[i + 1..], h);
      }
    }
  }

  /** Replaces the first entry with the address, or appends. */
  method UpsertLoop(hosts: seq<PairedHost>, host: PairedHost) returns (r: seq<PairedHost>)
    ensures r == Upsert(hosts, host)
  {
    hide Upsert;
    assert hosts[..0] + Upsert(hosts[0..], host) == Upsert(hosts, host) by {
      assert hosts[0..] == hosts && hosts[..0] == [];
    }
    for i := 0 to |hosts|
      invariant Upsert(hosts, host) == hosts[..i] + Upsert(hosts[i..], host)
    {
      UpsertStep(hosts, host, i);
      if hosts[i].address == host.address {
        return hosts[i := host];
      }
    }
    UpsertStep(hosts, host, |hosts|);
    r := hosts + [host];
  }

  lemma RemoveStep(left: seq<PairedHost>, hs: seq<PairedHost>, a: string, i: nat)
    requires i < |hs|
    ensures left + Remove(hs[i..], a)
         == (if hs[i].address == a then left else left + [hs[i]]) + Remove(hs[i + 1..], a)
  {
    assert hs[i..][1..] == hs[i + 1..];
    if hs[i].address == a {
      assert [] + Remove(hs[i + 1..], a) == Remove(hs[i + 1..], a);
    } else {
      assert left + ([hs[i]] + Remove(hs[i + 1..], a)) == (left + [hs[i]]) + Remove(hs[i + 1..], a);
    }
  }

  /** std::remove_if and erase. */
  method RemoveLoop(hosts: seq<PairedHost>, address: string) returns (left: seq<PairedHost>)
    ensures left == Remove(hosts, address)
  {
    left := [];
    assert hosts[0..] == hosts && [] + Remove(hosts, address) == Remove(hosts, address);
    for i := 0 to |hosts|
      invariant Remove(hosts, address) == left + Remove(hosts[i..], address)
    {
      RemoveStep(left, hosts, address, i);
      if hosts[i].address != address {
        left := left + [hosts[i]];
      }
    }
    assert hosts[|hosts|..] == [] && left + [] == left;
  }

  class HostStore {
    var file: Option<string>
    const g: RealFormat

    constructor (g: RealFormat)
      ensures file == None && this.g == g
    {
      this.g := g;
      file := None;
    }

    method Read() returns (hosts: seq<PairedHost>)
      ensures hosts == ReadHosts(file)
    {
      hide Parse, HostsOf;
      if file.None? { return []; }
      var parsed := ParseText(file.value);
      if parsed.None? || !parsed.value.Arr? { return []; }
      hosts := ReadArray(parsed.value.a);
    }

    method Save(hosts: seq<PairedHost>)
      modifies this`file
      ensures file == Some(WriteHosts(hosts, g))
    {
      var text := DumpText(HostsValue(hosts), g);
      file := Some(text);
    }

    method UpsertHost(host: PairedHost) returns (ok: bool)
      modifies this`file
      ensures Result(file, Said(ok)) == Act(old(file), DoUpsert(host), g)
    {
      hide ReadHosts, WriteHosts;
      if host.address == "" { return false; }
      var hosts := Read();
      hosts := UpsertLoop(hosts, host);
      Save(hosts);
      ok := true;
    }

    method FindOne(address: string) returns (h: Option<PairedHost>)
      ensures h == FindHost(ReadHosts(file), address)
    {
      hide ReadHosts;
      var hosts := Read();
      assert hosts[0..] == hosts;
      for i := 0 to |hosts|
        invariant FindHost(hosts, address) == FindHost(hosts[i..], address)
      {
        assert hosts[i..][1..] == hosts[i + 1..];
        if hosts[i].address == address { return Some(hosts[i]); }
      }
      h := None;
    }

    method RemoveHost(address: string) returns (ok: bool)
      modifies this`file
      ensures Result(file, Said(ok)) == Act(old(file), DoRemove(address), g)
    {
      hide ReadHosts, WriteHosts;
      var hosts := Read();
      var left := RemoveLoop(hosts, address);
      if |left| == |hosts| { return false; }
      Save(left);
      ok := true;
    }
  }
}
