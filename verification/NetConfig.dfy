// The slice of the pfSense configuration tree that boot provisioning touches,
// and what netconfig/apply.php does to it.
//
// Optional fields are paths that may be absent from config.xml.  Lists keep
// PHP's array order.
module NetConfig {
  import opened Common

  datatype Scalar = Text(s: string) | Number(n: int) | True

  /** interfaces/<name>: `nic` is the 'if' key, `other` every key apply.php leaves alone. */
  datatype Iface = Iface(
    name: string, nic: Option<string>, ipaddr: Option<string>, subnet: Option<string>,
    mtu: Option<Scalar>, gateway: Option<string>, other: map<string, Scalar>)

  /** One element of gateways/gateway_item. */
  datatype GatewayItem = GatewayItem(
    name: Option<string>, iface: Option<string>, address: Option<string>, other: map<string, Scalar>)

  /** `rest` stands for every path outside the four that provisioning uses. */
  datatype Config = Config(
    interfaces: Option<seq<Iface>>, gateways: Option<seq<GatewayItem>>,
    defaultgw4: Option<string>, dnsserver: Option<seq<string>>, rest: map<string, string>)

  /** One element of the plan's "interfaces" array; absent JSON fields are "" / [] / 0. */
  datatype Entry = Entry(
    ifname: string, ipaddr: string, subnet: string, gateway: string, dns: seq<string>, mtu: int)

  datatype EntryResult = EntryResult(ifname: string, applied: bool, logical: Option<string>, autoAssigned: bool)

  // ----- reading with the scripts' defaults

  function Ifaces(c: Config): seq<Iface> { c.interfaces.GetOr([]) }

  function Gateways(c: Config): seq<GatewayItem> { c.gateways.GetOr([]) }

  ghost predicate DistinctNames(ifs: seq<Iface>) {
    forall i, j :: 0 <= i < j < |ifs| ==> ifs[i].name != ifs[j].name
  }

  predicate HasLan(ifs: seq<Iface>) {
    exists i :: 0 <= i < |ifs| && ifs[i].name == "lan"
  }

  /** Position of the first interface bound to `nic`; |ifs| when there is none. */
  function IndexByNic(ifs: seq<Iface>, nic: string): (k: nat)
    ensures k <= |ifs|
    ensures k < |ifs| ==> ifs[k].nic == Some(nic)
    ensures forall j :: 0 <= j < k ==> ifs[j].nic != Some(nic)
  {
    if ifs == [] then 0
    else if ifs[0].nic == Some(nic) then 0
    else
      var k := IndexByNic(ifs[1..], nic);
      assert forall j :: 0 < j < k + 1 ==> ifs[j] == ifs[1..][j - 1];
      k + 1
  }

  /** Position of the first gateway item called `name`; |items| when there is none. */
  function IndexByName(items: seq<GatewayItem>, name: string): (k: nat)
    ensures k <= |items|
    ensures k < |items| ==> items[k].name == Some(name)
    ensures forall j :: 0 <= j < k ==> items[j].name != Some(name)
  {
    if items == [] then 0
    else if items[0].name == Some(name) then 0
    else
      var k := IndexByName(items[1..], name);
      assert forall j :: 0 < j < k + 1 ==> items[j] == items[1..][j - 1];
      k + 1
  }

  // ----- names and records the script writes

  function UpperChar(c: char): char {
    if 'a' <= c <= 'z' then c - 'a' + 'A' else c
  }

  function Upper(s: string): (u: string)
    ensures |u| == |s|
  {
    if s == "" then "" else Upper(Init(s)) + [UpperChar(Last(s))]
  }

  function GatewayName(logical: string): string { Upper(logical) + "_PCGW" }

  const LAN_FIELDS: map<string, Scalar> := map["descr" := Text("LAN"), "enable" := True]

  const ITEM_FIELDS: map<string, Scalar> :=
    map["weight" := Number(1), "ipprotocol" := Text("inet"),
        "descr" := Text("Set by PlusClouds agent from provisioning metadata")]

  const DEFAULT_ITEM_FIELDS: map<string, Scalar> := ITEM_FIELDS["defaultgw" := True]

  function NewLan(nic: string): Iface { Iface("lan", Some(nic), None, None, None, None, LAN_FIELDS) }

  function NewItem(logical: string, address: string, isDefault: bool): GatewayItem {
    GatewayItem(Some(GatewayName(logical)), Some(logical), Some(address),
                if isDefault then DEFAULT_ITEM_FIELDS else ITEM_FIELDS)
  }

  function Configure(r: Iface, e: Entry): Iface {
    r.(ipaddr := Some(e.ipaddr), subnet := Some(e.subnet),
       mtu := if e.mtu != 0 then Some(Number(e.mtu)) else r.mtu,
       gateway := if Empty(e.gateway) then None else Some(GatewayName(r.name)))
  }

  function Upsert(items: seq<GatewayItem>, w: GatewayItem): seq<GatewayItem>
    requires w.name.Some?
  {
    var k := IndexByName(items, w.name.value);
    if k < |items| then items[k := w] else items + [w]
  }

  function MergeDns(all: seq<string>, dns: seq<string>): seq<string> {
    if dns == [] then all
    else
      var d := Last(dns);
      var before := MergeDns(all, Init(dns));
      if Empty(d) || d in before then before else before + [d]
  }

  // ----- one plan entry, and the whole run

  /** The script's in-memory state: the config being rewritten and its accumulators. */
  datatype Work = Work(cfg: Config, dns: seq<string>, chosen: Option<string>, results: seq<EntryResult>)

  /** The record index an entry ends up writing: a bound interface, or a lan created at the end. */
  function Target(ifs: seq<Iface>, nic: string): Option<nat> {
    var k := IndexByNic(ifs, nic);
    if k == |ifs| && HasLan(ifs) then None else Some(k)
  }

  /** The interface list after one entry. */
  function StepIfaces(ifs: seq<Iface>, e: Entry): seq<Iface> {
    match Target(ifs, e.ifname)
    case None => ifs
    case Some(k) =>
      if k == |ifs| then ifs + [Configure(NewLan(e.ifname), e)] else ifs[k := Configure(ifs[k], e)]
  }

  function Step(w: Work, e: Entry, solo: bool): Work {
    var ifs := Ifaces(w.cfg);
    match Target(ifs, e.ifname)
    case None => w.(results := w.results + [EntryResult(e.ifname, false, None, false)])
    case Some(k) =>
      var isNew := k == |ifs|;
      var logical := if isNew then "lan" else ifs[k].name;
      var isDefault := logical == "wan" || solo;
      var gws' := if Empty(e.gateway) then w.cfg.gateways
                  else Some(Upsert(Gateways(w.cfg), NewItem(logical, e.gateway, isDefault)));
      Work(w.cfg.(interfaces := Some(StepIfaces(ifs, e)), gateways := gws'),
           MergeDns(w.dns, e.dns),
           if !Empty(e.gateway) && isDefault then Some(GatewayName(logical)) else w.chosen,
           w.results + [EntryResult(e.ifname, true, Some(logical), isNew)])
  }

  function GatewayCount(plan: seq<Entry>): nat {
    if plan == [] then 0
    else GatewayCount(Init(plan)) + if Empty(Last(plan).gateway) then 0 else 1
  }

  /** The plan's only gateway is the default route whatever interface carries it. */
  predicate Solo(plan: seq<Entry>) { GatewayCount(plan) == 1 }

  /** State after the first n plan entries. */
  function Run(c: Config, plan: seq<Entry>, n: nat): Work
    requires n <= |plan|
  {
    if n == 0 then Work(c, [], None, [])
    else Step(Run(c, plan, n - 1), plan[n - 1], Solo(plan))
  }

  function Finish(w: Work): Config {
    w.cfg.(dnsserver := if w.dns == [] then w.cfg.dnsserver else Some(w.dns),
           defaultgw4 := if w.chosen.None? then w.cfg.defaultgw4 else w.chosen)
  }

  /** The config apply.php hands to write_config. */
  function Apply(c: Config, plan: seq<Entry>): Config { Finish(Run(c, plan, |plan|)) }

  function Results(c: Config, plan: seq<Entry>): seq<EntryResult> { Run(c, plan, |plan|).results }

  // ----- snapshot.php and restore.php

  datatype Snapshot = Snapshot(
    interfaces: seq<Iface>, gateways: seq<GatewayItem>, defaultgw4: string, dnsserver: seq<string>)

  function Take(c: Config): Snapshot {
    Snapshot(Ifaces(c), Gateways(c), c.defaultgw4.GetOr(""), c.dnsserver.GetOr([]))
  }

  function Restore(c: Config, s: Snapshot): Config {
    Config(Some(s.interfaces), Some(s.gateways), Some(s.defaultgw4), Some(s.dnsserver), c.rest)
  }

  /** The same settings with every saved path spelled out: two configs read alike iff their
      normal forms are equal. */
  function Normal(c: Config): Config {
    Config(Some(Ifaces(c)), Some(Gateways(c)), Some(c.defaultgw4.GetOr("")), Some(c.dnsserver.GetOr([])), c.rest)
  }
}
