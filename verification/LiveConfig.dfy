// netconfig/apply.php, snapshot.php and restore.php as they run: loops and
// in-place writes on the configuration tree.
module LiveConfig {
  import opened Common
  import opened NetConfig

  method CountGateways(plan: seq<Entry>) returns (count: nat)
    ensures count == GatewayCount(plan)
  {
    count := 0;
    for i := 0 to |plan|
      invariant count == GatewayCount(plan[..i])
    {
      assert Init(plan[..i + 1]) == plan[..i];
      if !Empty(plan[i].gateway) { count := count + 1; }
    }
    assert plan[..|plan|] == plan;
  }

  method CollectDns(all: seq<string>, dns: seq<string>) returns (merged: seq<string>)
    ensures merged == MergeDns(all, dns)
  {
    merged := all;
    for i := 0 to |dns|
      invariant merged == MergeDns(all, dns[..i])
    {
      assert Init(dns[..i + 1]) == dns[..i];
      if !Empty(dns[i]) && dns[i] !in merged { merged := merged + [dns[i]]; }
    }
    assert dns[..|dns|] == dns;
  }

  /** The interface table is a PHP array: its keys, the logical names, are distinct. */
  class Tree {
    var interfaces: Option<seq<Iface>>
    var gateways: Option<seq<GatewayItem>>
    var defaultgw4: Option<string>
    var dnsserver: Option<seq<string>>
    const rest: map<string, string>

    function Value(): Config
      reads this
    {
      Config(interfaces, gateways, defaultgw4, dnsserver, rest)
    }

    ghost predicate Valid()
      reads this
    {
      DistinctNames(interfaces.GetOr([]))
    }

    constructor (c: Config)
      requires DistinctNames(Ifaces(c))
      ensures Valid() && Value() == c
    {
      interfaces, gateways, defaultgw4, dnsserver := c.interfaces, c.gateways, c.defaultgw4, c.dnsserver;
      rest := c.rest;
    }

    /** The resolution loop stops at the first match, so `lanExists` is only meaningful, and is
        then right, when nothing matched. */
    method FindLogical(ifname: string) returns (logical: Option<string>, lanExists: bool)
      ensures var ifs := interfaces.GetOr([]); var k := IndexByNic(ifs, ifname);
              && logical == (if k < |ifs| then Some(ifs[k].name) else None)
              && (logical.None? ==> lanExists == HasLan(ifs))
    {
      var ifs := interfaces.GetOr([]);
      logical, lanExists := None, false;
      var i := 0;
      while i < |ifs|
        invariant 0 <= i <= |ifs| && logical.None?
        invariant lanExists <==> exists j :: 0 <= j < i && ifs[j].name == "lan"
        invariant forall j :: 0 <= j < i ==> ifs[j].nic != Some(ifname)
      {
        if ifs[i].name == "lan" { lanExists := true; }
        if ifs[i].nic == Some(ifname) {
          assert IndexByNic(ifs, ifname) == i;
          logical := Some(ifs[i].name);
          return;
        }
        i := i + 1;
      }
    }

    /** Where the key `name` sits in the interface table. */
    method Locate(name: string, ghost at: nat) returns (k: nat)
      requires Valid()
      requires at < |interfaces.GetOr([])| && interfaces.GetOr([])[at].name == name
      ensures k == at
    {
      var ifs := interfaces.GetOr([]);
      k := 0;
      while ifs[k].name != name
        invariant 0 <= k <= at < |ifs|
        decreases at - k
      {
        k := k + 1;
      }
    }

    method Put(k: nat, r: Iface)
      requires interfaces.Some? && k < |interfaces.value|
      modifies this`interfaces
      ensures interfaces == Some(old(interfaces.value)[k := r])
    {
      interfaces := Some(interfaces.value[k := r]);
    }

    method PutGateway(item: GatewayItem)
      requires item.name.Some?
      modifies this`gateways
      ensures gateways == Some(Upsert(old(gateways.GetOr([])), item))
    {
      var items := gateways.GetOr([]);
      var i := 0;
      while i < |items| && items[i].name != item.name
        invariant 0 <= i <= |items|
        invariant forall j :: 0 <= j < i ==> items[j].name != item.name
      {
        i := i + 1;
      }
      assert IndexByName(items, item.name.value) == i;
      gateways := Some(if i < |items| then items[i := item] else items + [item]);
    }

    /** The writes for an entry whose interface is known to sit at k. */
    method ConfigureAt(k: nat, logical: string, e: Entry, isDefault: bool)
      requires interfaces.Some? && k < |interfaces.value| && interfaces.value[k].name == logical
      modifies this`interfaces, this`gateways
      ensures interfaces == Some(old(interfaces.value)[k := Configure(old(interfaces.value)[k], e)])
      ensures gateways == if Empty(e.gateway) then old(gateways)
                          else Some(Upsert(old(gateways.GetOr([])), NewItem(logical, e.gateway, isDefault)))
    {
      ghost var ifs := interfaces.value;
      Put(k, interfaces.value[k].(ipaddr := Some(e.ipaddr)));
      Put(k, interfaces.value[k].(subnet := Some(e.subnet)));
      if e.mtu != 0 {
        Put(k, interfaces.value[k].(mtu := Some(Number(e.mtu))));
      }
      if !Empty(e.gateway) {
        PutGateway(NewItem(logical, e.gateway, isDefault));
        Put(k, interfaces.value[k].(gateway := Some(GatewayName(logical))));
      } else {
        Put(k, interfaces.value[k].(gateway := None));
      }
      assert interfaces.value == ifs[k := Configure(ifs[k], e)];
    }

    /** Resolves an entry's interface, creating lan for it where none is bound and lan is absent. */
    method Bind(ifname: string) returns (logical: Option<string>, isNew: bool, k: nat)
      requires Valid()
      modifies this`interfaces
      ensures Valid()
      ensures var ifs := old(interfaces.GetOr([]));
              match Target(ifs, ifname)
              case None => logical.None? && interfaces == old(interfaces)
              case Some(t) =>
                && k == t && isNew == (t == |ifs|)
                && interfaces == Some(if isNew then ifs + [NewLan(ifname)] else ifs)
                && logical == Some(interfaces.value[k].name)
    {
      ghost var slot := IndexByNic(interfaces.GetOr([]), ifname);
      var lanExists;
      logical, lanExists := FindLogical(ifname);
      isNew, k := false, 0;
      if logical.None? {
        if lanExists { return; }
        interfaces := Some(interfaces.GetOr([]) + [NewLan(ifname)]);
        logical, isNew := Some("lan"), true;
      }
      k := Locate(logical.value, slot);
    }

    /** The loop body of apply.php for one plan entry. */
    method ApplyEntry(e: Entry, gatewayCount: nat, dns: seq<string>, chosen: Option<string>,
                      ghost before: seq<EntryResult>)
      returns (result: EntryResult, dns': seq<string>, chosen': Option<string>)
      requires Valid()
      modifies this`interfaces, this`gateways
      ensures Valid()
      ensures Work(Value(), dns', chosen', before + [result]) ==
              Step(Work(old(Value()), dns, chosen, before), e, gatewayCount == 1)
    {
      ghost var ifs := interfaces.GetOr([]);
      var logical, isNew, k := Bind(e.ifname);
      dns', chosen' := dns, chosen;
      if logical.None? {
        result := EntryResult(e.ifname, false, None, false);
        return;
      }
      var isDefault := logical.value == "wan" || gatewayCount == 1;
      ConfigureAt(k, logical.value, e, isDefault);
      if !Empty(e.gateway) && isDefault { chosen' := Some(GatewayName(logical.value)); }
      dns' := CollectDns(dns, e.dns);
      result := EntryResult(e.ifname, true, logical, isNew);
      assert interfaces.value == StepIfaces(ifs, e);
    }

    /** apply.php up to write_config. */
    method ApplyPlan(plan: seq<Entry>) returns (results: seq<EntryResult>)
      requires Valid()
      modifies this
      ensures Valid()
      ensures Value() == Apply(old(Value()), plan)
      ensures results == Results(old(Value()), plan)
    {
      var gatewayCount := CountGateways(plan);
      var dns, chosen := [], None;
      results := [];
      for i := 0 to |plan|
        invariant Valid()
        invariant Work(Value(), dns, chosen, results) == Run(old(Value()), plan, i)
      {
        var r, d, g := ApplyEntry(plan[i], gatewayCount, dns, chosen, results);
        results, dns, chosen := results + [r], d, g;
      }
      if dns != [] { dnsserver := Some(dns); }
      if chosen.Some? { defaultgw4 := chosen; }
    }

    /** Written back over any tree that agrees with this one outside the four paths, the snapshot
        gives a tree that reads as this one does now. */
    method TakeSnapshot() returns (s: Snapshot)
      ensures s == Take(Value())
      ensures forall c: Config :: c.rest == rest ==> Restore(c, s) == Normal(Value())
    {
      s := Snapshot(interfaces.GetOr([]), gateways.GetOr([]), defaultgw4.GetOr(""), dnsserver.GetOr([]));
    }

    method RestoreSnapshot(s: Snapshot)
      requires DistinctNames(s.interfaces)
      modifies this
      ensures Valid()
      ensures Value() == Restore(old(Value()), s)
      ensures Take(Value()) == s
    {
      interfaces := Some(s.interfaces);
      gateways := Some(s.gateways);
      defaultgw4 := Some(s.defaultgw4);
      dnsserver := Some(s.dnsserver);
    }
  }
}
