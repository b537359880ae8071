// What apply.php leaves behind, read off the config, the plan and the outcome
// alone: every interface, every gateway item and every result, field by field.
module NetObserved {
  import opened Common
  import opened NetConfig
  import opened NetResolution
  import opened NetGateways
  import opened NetApply
  import opened NetTheorems
  import opened NetRoute

  /** Interface k is the first bound to the NIC. */
  ghost predicate FirstOn(ifs: seq<Iface>, k: nat, nic: string) {
    k < |ifs| && ifs[k].nic == Some(nic) && forall j :: 0 <= j < k ==> ifs[j].nic != Some(nic)
  }

  /** No interface is bound to the NIC. */
  ghost predicate Unbound(ifs: seq<Iface>, nic: string) {
    forall k :: 0 <= k < |ifs| ==> ifs[k].nic != Some(nic)
  }

  /** Entry i is the first for which no interface is bound. */
  ghost predicate FirstNew(ifs: seq<Iface>, plan: seq<Entry>, i: nat) {
    i < |plan| && Unbound(ifs, plan[i].ifname) && forall j :: 0 <= j < i ==> !Unbound(ifs, plan[j].ifname)
  }

  lemma {:induction false} IndexByNicExact(ifs: seq<Iface>, nic: string)
    ensures var k := IndexByNic(ifs, nic); if k < |ifs| then FirstOn(ifs, k, nic) && !Unbound(ifs, nic) else Unbound(ifs, nic)
    ensures forall k :: FirstOn(ifs, k, nic) <==> k == IndexByNic(ifs, nic) < |ifs|
  {
  }

  lemma {:induction false} FirstNewExact(ifs: seq<Iface>, plan: seq<Entry>, i: nat)
    ensures FirstNew(ifs, plan, i) <==> i == FirstUnbound(ifs, plan) < |plan|
  {
    forall j | 0 <= j < |plan| ensures Unbound(ifs, plan[j].ifname) <==> IndexByNic(ifs, plan[j].ifname) == |ifs| {
      IndexByNicExact(ifs, plan[j].ifname);
    }
  }

  /** The interfaces after a run.  All keep name, NIC and foreign keys; a lan is added exactly when
      there is none and some entry's NIC is unbound, for the first such entry. */
  lemma {:induction false} BindingsExact(c: Config, plan: seq<Entry>, i: nat)
    ensures var ifs, out := Ifaces(c), Ifaces(Apply(c, plan));
            var grows := (forall k :: 0 <= k < |ifs| ==> ifs[k].name != "lan")
                         && exists j :: 0 <= j < |plan| && Unbound(ifs, plan[j].ifname);
            && |out| == (if grows then |ifs| + 1 else |ifs|)
            && (forall k :: 0 <= k < |ifs| ==> SameBinding(out[k], ifs[k]))
            && (grows && FirstNew(ifs, plan, i) ==>
                  && out[|ifs|].name == "lan" && out[|ifs|].nic == Some(plan[i].ifname)
                  && out[|ifs|].other == map["descr" := Text("LAN"), "enable" := True])
  {
    var ifs := Ifaces(c);
    FinalBindings(c, plan);
    FirstNewExact(ifs, plan, i);
    FirstNewExact(ifs, plan, FirstUnbound(ifs, plan));
    forall j | 0 <= j < |plan| ensures Unbound(ifs, plan[j].ifname) <==> IndexByNic(ifs, plan[j].ifname) == |ifs| {
      IndexByNicExact(ifs, plan[j].ifname);
    }
  }

  /** Resolution can be read off the outcome: entry i went to the first interface on its NIC. */
  lemma {:induction false} SlotObserved(c: Config, plan: seq<Entry>, i: nat)
    requires i < |plan|
    ensures var ifs, out := Ifaces(c), Ifaces(Apply(c, plan));
            && Slot(ifs, plan, i) == IndexByNic(out, plan[i].ifname)
            && (Applied(ifs, plan, i) <==> !Unbound(out, plan[i].ifname))
            && (forall k :: FirstOn(out, k, plan[i].ifname) <==> k == Slot(ifs, plan, i) < |out|)
            && (Applied(ifs, plan, i) ==> LogicalName(ifs, plan, i) == out[Slot(ifs, plan, i)].name)
  {
    var ifs, out := Ifaces(c), Ifaces(Apply(c, plan));
    FinalBindings(c, plan);
    ReResolution(ifs, plan, out);
    IndexByNicExact(out, plan[i].ifname);
    assert Slots(out, plan)[i] == Slots(ifs, plan)[i];
  }

  /** Each entry's result: applied to the first interface on its NIC, if there is one in the end, and
      auto-assigned exactly when it is the one lan was added for. */
  lemma {:induction false} ResultExact(c: Config, plan: seq<Entry>, i: nat)
    requires i < |plan|
    ensures var ifs, out, rs := Ifaces(c), Ifaces(Apply(c, plan)), Results(c, plan);
            && |rs| == |plan| && rs[i].ifname == plan[i].ifname
            && (rs[i].applied <==> !Unbound(out, plan[i].ifname))
            && (!rs[i].applied ==> rs[i].logical.None?)
            && (forall k: nat :: FirstOn(out, k, plan[i].ifname) ==> rs[i].logical == Some(out[k].name))
            && (rs[i].autoAssigned <==> |out| > |ifs| && FirstNew(ifs, plan, i))
  {
    ResultsReport(c, plan);
    SlotObserved(c, plan, i);
    FinalBindings(c, plan);
    FirstNewExact(Ifaces(c), plan, i);
  }

  // ----- interface records

  /** Entry i is the last one for interface k; with `mtu`, the last that has an mtu. */
  ghost predicate LastFor(out: seq<Iface>, plan: seq<Entry>, k: nat, i: nat, mtu: bool) {
    && i < |plan| && FirstOn(out, k, plan[i].ifname) && (mtu ==> plan[i].mtu != 0)
    && forall j :: i < j < |plan| && (mtu ==> plan[j].mtu != 0) ==> !FirstOn(out, k, plan[j].ifname)
  }

  ghost predicate NoneFor(out: seq<Iface>, plan: seq<Entry>, k: nat, mtu: bool) {
    forall j :: 0 <= j < |plan| && (mtu ==> plan[j].mtu != 0) ==> !FirstOn(out, k, plan[j].ifname)
  }

  lemma {:induction false} LastForExact(c: Config, plan: seq<Entry>, k: nat, mtu: bool)
    requires k < |Ifaces(Apply(c, plan))|
    ensures var out := Ifaces(Apply(c, plan)); var j := LastOn(Slots(Ifaces(c), plan), plan, |plan|, k, mtu);
            && (forall i :: LastFor(out, plan, k, i, mtu) <==> i == j < |plan|)
            && (NoneFor(out, plan, k, mtu) <==> j == |plan|)
  {
    var out := Ifaces(Apply(c, plan));
    forall i | 0 <= i < |plan| ensures FirstOn(out, k, plan[i].ifname) <==> Slots(Ifaces(c), plan)[i] == k {
      SlotObserved(c, plan, i);
    }
    var j := LastOn(Slots(Ifaces(c), plan), plan, |plan|, k, mtu);
    if j < |plan| { assert LastFor(out, plan, k, j, mtu); }
  }

  /** An interface ends with the address, subnet and gateway of the last entry for it and the mtu of
      the last such entry that has one; without any it is as it was. */
  lemma {:induction false} RecordExact(c: Config, plan: seq<Entry>, k: nat, i: nat)
    requires k < |Ifaces(Apply(c, plan))|
    ensures var ifs, out := Ifaces(c), Ifaces(Apply(c, plan));
            && (LastFor(out, plan, k, i, false) ==>
                  && out[k].ipaddr == Some(plan[i].ipaddr) && out[k].subnet == Some(plan[i].subnet)
                  && out[k].gateway == if plan[i].gateway in {"", "0"} then None else Some(GatewayName(out[k].name)))
            && (LastFor(out, plan, k, i, true) ==> out[k].mtu == Some(Number(plan[i].mtu)))
            && (NoneFor(out, plan, k, true) ==> out[k].mtu == if k < |ifs| then ifs[k].mtu else None)
            && (NoneFor(out, plan, k, false) ==> k < |ifs| && out[k] == ifs[k])
  {
    var ifs, out := Ifaces(c), Ifaces(Apply(c, plan));
    FinalIfaces(c, plan);
    LastForExact(c, plan, k, false);
    LastForExact(c, plan, k, true);
    OverlayClosedForm(Slots(ifs, plan), plan, |plan|, k, Base(ifs, plan)[k]);
    if k == |ifs| { SlotBeforeAssignment(ifs, plan, FirstUnbound(ifs, plan)); }
  }

  // ----- gateways

  /** The interface's name in capitals, then "_PCGW". */
  ghost predicate CapitalsPcgw(logical: string, name: string) {
    && |name| == |logical| + 5 && name[|logical|..] == "_PCGW"
    && forall i :: 0 <= i < |logical| ==>
         if 'a' <= logical[i] <= 'z' then name[i] as int == logical[i] as int - 32 else name[i] == logical[i]
  }

  lemma {:induction false} GatewayNameExact(logical: string)
    ensures CapitalsPcgw(logical, GatewayName(logical))
  {
    forall i | 0 <= i < |logical| ensures GatewayName(logical)[i] == UpperChar(logical[i]) {
      UpperAt(logical, i);
    }
  }

  /** Entry i writes the gateway item of this name. */
  ghost predicate WritesItem(c: Config, plan: seq<Entry>, i: nat, name: string) {
    && i < |plan| && plan[i].gateway !in {"", "0"}
    && Logicals(Ifaces(c), plan)[i].Some? && GatewayName(Logicals(Ifaces(c), plan)[i].value) == name
  }

  const PLAIN: map<string, Scalar> :=
    map["weight" := Number(1), "ipprotocol" := Text("inet"),
        "descr" := Text("Set by PlusClouds agent from provisioning metadata")]

  /** The item of a gateway name is that of the last entry writing it: its interface, its address,
      and the default flag exactly when that interface is wan or no other entry has a gateway. */
  lemma {:induction false} GatewayItemExact(c: Config, plan: seq<Entry>, i: nat, name: string)
    requires WritesItem(c, plan, i, name) && forall j :: i < j < |plan| ==> !WritesItem(c, plan, j, name)
    ensures var logical, items := Logicals(Ifaces(c), plan)[i].value, Gateways(Apply(c, plan));
            var alone := forall j :: 0 <= j < |plan| && j != i ==> plan[j].gateway in {"", "0"};
            var at := IndexByName(items, name);
            && CapitalsPcgw(logical, name)
            && at < |items| && items[at].name == Some(name)
            && items[at].iface == Some(logical) && items[at].address == Some(plan[i].gateway)
            && items[at].other == if logical == "wan" || alone then PLAIN["defaultgw" := True] else PLAIN
  {
    var res := Logicals(Ifaces(c), plan);
    GatewayNameExact(res[i].value);
    forall j | 0 <= j < |plan|
      ensures WritesItem(c, plan, j, name) <==> res[j].Some? && HasGateway(plan[j]) && GatewayName(res[j].value) == name
    {
    }
    assert LastWriter(res, plan, |plan|, name) == i;
    FinalItem(c, plan, name);
    SoloExact(plan, i);
  }

  /** Old items keep their places and names; an item no entry writes is untouched, and every added
      item is one some entry writes. */
  lemma {:induction false} OtherGatewaysKept(c: Config, plan: seq<Entry>, k: nat)
    requires k < |Gateways(Apply(c, plan))|
    ensures var was, items := Gateways(c), Gateways(Apply(c, plan));
            && |was| <= |items|
            && (k < |was| ==> items[k].name == was[k].name)
            && ((k < |was| && items[k] == was[k])
                || (items[k].name.Some? && IndexByName(items, items[k].name.value) == k
                    && exists i :: WritesItem(c, plan, i, items[k].name.value)))
  {
    var res := Logicals(Ifaces(c), plan);
    var was, items, ws := Gateways(c), Gateways(Apply(c, plan)), Writes(res, plan, |plan|);
    RunClosedForm(c, plan);
    UpsertAllClosedForm(was, ws);
    assert items == UpsertAll(was, ws);
    assert LastWriteWins(was, ws, items, k);
    if items[k].name.Some? {
      var name := items[k].name.value;
      LastWriterIsLastWrite(res, plan, |plan|, name);
      var q := LastWriter(res, plan, |plan|, name);
      if q < |plan| { assert WritesItem(c, plan, q, name); }
    }
  }

  // ----- DNS

  /** An applied one of the first n entries lists the server, and it is not empty. */
  ghost predicate Offered(res: seq<Option<string>>, plan: seq<Entry>, n: nat, x: string)
    requires n <= |plan| == |res|
  {
    x !in {"", "0"} && exists i :: 0 <= i < n && res[i].Some? && x in plan[i].dns
  }

  lemma {:induction false} DnsSourceExact(res: seq<Option<string>>, plan: seq<Entry>, n: nat, x: string)
    requires n <= |plan| == |res|
    ensures x in DnsSource(res, plan, n) <==> Offered(res, plan, n, x)
  {
    if n == 0 {
    } else {
      DnsSourceExact(res, plan, n - 1, x);
      NonEmptyExact(plan[n - 1].dns, x);
    }
  }

  lemma {:induction false} NonEmptyExact(dns: seq<string>, x: string)
    ensures x in NonEmpty(dns) <==> x in dns && x !in {"", "0"}
  {
    if dns == [] {
    } else {
      NonEmptyExact(Init(dns), x);
      assert dns == Init(dns) + [Last(dns)];
    }
  }

  /** The servers stored are exactly those the applied entries offer, each once; when they offer none
      the old ones stay. */
  lemma {:induction false} DnsExact(c: Config, plan: seq<Entry>, x: string, y: string)
    ensures var res, now := Logicals(Ifaces(c), plan), Apply(c, plan).dnsserver;
            && (Offered(res, plan, |plan|, y) ==>
                  now.Some? && Distinct(now.value) && (x in now.value <==> Offered(res, plan, |plan|, x)))
            && ((forall z :: !Offered(res, plan, |plan|, z)) ==> now == c.dnsserver)
  {
    var res := Logicals(Ifaces(c), plan);
    var src := DnsSource(res, plan, |plan|);
    DnsMerge(c, plan);
    DnsSourceExact(res, plan, |plan|, x);
    DnsSourceExact(res, plan, |plan|, y);
    if src != [] { DnsSourceExact(res, plan, |plan|, src[0]); }
  }
}
