// The default route apply.php leaves behind.
module NetRoute {
  import opened Common
  import opened NetConfig
  import opened NetResolution
  import opened NetGateways
  import opened NetApply
  import opened NetTheorems
  import PlanBuilding

  /** defaultgw4 names a gateway item that is entry j's, and entry j's interface points at it. */
  ghost predicate RouteSound(c: Config, plan: seq<Entry>, j: nat)
    requires j < |plan| && Applied(Ifaces(c), plan, j)
  {
    var out, logical, k := Apply(c, plan), LogicalName(Ifaces(c), plan, j), Slot(Ifaces(c), plan, j);
    var name := GatewayName(logical);
    var at := IndexByName(Gateways(out), name);
    && out.defaultgw4 == Some(name)
    && at < |Gateways(out)|
    && Gateways(out)[at].iface == Some(logical)
    && Gateways(out)[at].address == Some(plan[j].gateway)
    && k < |Ifaces(out)|
    && Ifaces(out)[k].name == logical
    && Ifaces(out)[k].gateway == Some(name)
  }

  /** No later applied entry reuses entry j's interface, or its gateway's name. */
  ghost predicate LastWord(res: seq<Option<string>>, slots: seq<nat>, plan: seq<Entry>, j: nat)
    requires j < |plan| == |res| == |slots| && res[j].Some?
  {
    forall i :: j < i < |plan| && res[i].Some? ==>
      slots[i] != slots[j] && (HasGateway(plan[i]) ==> GatewayName(res[i].value) != GatewayName(res[j].value))
  }

  /** Last of the first n entries that writes a gateway item called `name`; n when none does. */
  ghost function LastWriter(res: seq<Option<string>>, plan: seq<Entry>, n: nat, name: string): (q: nat)
    requires n <= |plan| == |res|
    ensures q <= n
    ensures q < n ==> res[q].Some? && HasGateway(plan[q]) && GatewayName(res[q].value) == name
    ensures forall i :: 0 <= i < n && (q == n || q < i) ==>
              res[i].None? || !HasGateway(plan[i]) || GatewayName(res[i].value) != name
  {
    if n == 0 then 0
    else if res[n - 1].Some? && HasGateway(plan[n - 1]) && GatewayName(res[n - 1].value) == name then n - 1
    else
      var q := LastWriter(res, plan, n - 1, name);
      if q == n - 1 then n else q
  }

  /** The last write to `name`, if any, is `item`. */
  ghost predicate Latest(ws: seq<GatewayItem>, name: string, item: Option<GatewayItem>) {
    if item.None? then LastWrite(ws, name) == |ws|
    else LastWrite(ws, name) < |ws| && ws[LastWrite(ws, name)] == item.value
  }

  lemma {:induction false} LatestSnoc(ws: seq<GatewayItem>, w: GatewayItem, name: string, item: Option<GatewayItem>)
    requires Latest(ws, name, item)
    ensures Latest(ws + [w], name, if w.name == Some(name) then Some(w) else item)
  {
    LastWriteSnoc(ws, w, name);
  }

  ghost function LastItem(res: seq<Option<string>>, plan: seq<Entry>, n: nat, name: string): Option<GatewayItem>
    requires n <= |plan| == |res|
  {
    var q := LastWriter(res, plan, n, name);
    if q == n then None else Some(ItemOf(res, plan, q))
  }

  lemma {:induction false} LastWriterIsLastWrite(res: seq<Option<string>>, plan: seq<Entry>, n: nat, name: string)
    requires n <= |plan| == |res|
    ensures Latest(Writes(res, plan, n), name, LastItem(res, plan, n, name))
  {
    if n == 0 {
    } else {
      LastWriterIsLastWrite(res, plan, n - 1, name);
      if res[n - 1].Some? && HasGateway(plan[n - 1]) {
        LatestSnoc(Writes(res, plan, n - 1), ItemOf(res, plan, n - 1), name, LastItem(res, plan, n - 1, name));
      }
    }
  }

  /** The first gateway item called `name` after a run is its last writer's. */
  lemma {:induction false} FinalItem(c: Config, plan: seq<Entry>, name: string)
    requires LastWriter(Logicals(Ifaces(c), plan), plan, |plan|, name) < |plan|
    ensures var res, gws := Logicals(Ifaces(c), plan), Gateways(Apply(c, plan));
            IndexByName(gws, name) < |gws| &&
            gws[IndexByName(gws, name)] == ItemOf(res, plan, LastWriter(res, plan, |plan|, name))
  {
    var res := Logicals(Ifaces(c), plan);
    var ws := Writes(res, plan, |plan|);
    LastWriterIsLastWrite(res, plan, |plan|, name);
    RunClosedForm(c, plan);
    UpsertAllClosedForm(Gateways(c), ws);
    var out := UpsertAll(Gateways(c), ws);
    assert ws[LastWrite(ws, name)].name.value == name;
    assert LastWriteWins(Gateways(c), ws, out, IndexByName(out, name));
  }

  lemma {:induction false} CountBelow(plan: seq<Entry>, i: nat)
    requires i < |plan| && HasGateway(plan[i])
    ensures GatewayCount(plan) >= 1
  {
    if i < |plan| - 1 { CountBelow(Init(plan), i); }
  }

  lemma {:induction false} SoloGateway(plan: seq<Entry>, i: nat, j: nat)
    requires i < |plan| && j < |plan| && HasGateway(plan[i]) && HasGateway(plan[j]) && Solo(plan)
    ensures i == j
  {
    if i == |plan| - 1 && j < i { CountBelow(Init(plan), j); }
    else if j == |plan| - 1 && i < j { CountBelow(Init(plan), i); }
    else if i < |plan| - 1 && j < |plan| - 1 {
      CountBelow(Init(plan), i);
      SoloGateway(Init(plan), i, j);
    }
  }

  lemma {:induction false} NoGateways(plan: seq<Entry>)
    requires forall i :: 0 <= i < |plan| ==> !HasGateway(plan[i])
    ensures GatewayCount(plan) == 0
  {
    if plan == [] {
    } else {
      NoGateways(Init(plan));
    }
  }

  /** A plan in which exactly entry i has a gateway counts one. */
  lemma {:induction false} OnlyGateway(plan: seq<Entry>, i: nat)
    requires i < |plan| && HasGateway(plan[i])
    requires forall j :: 0 <= j < |plan| && j != i ==> !HasGateway(plan[j])
    ensures Solo(plan)
  {
    if i == |plan| - 1 { NoGateways(Init(plan)); } else { OnlyGateway(Init(plan), i); }
  }

  /** Counting to one means being the only gateway-bearing entry. */
  lemma {:induction false} SoloExact(plan: seq<Entry>, i: nat)
    requires i < |plan| && HasGateway(plan[i])
    ensures Solo(plan) <==> forall j :: 0 <= j < |plan| && j != i ==> !HasGateway(plan[j])
  {
    if Solo(plan) {
      forall j | 0 <= j < |plan| && HasGateway(plan[j]) ensures j == i { SoloGateway(plan, i, j); }
    } else if forall j :: 0 <= j < |plan| && j != i ==> !HasGateway(plan[j]) {
      OnlyGateway(plan, i);
    }
  }

  /** No entry after the last pick both has a gateway and shares its logical name. */
  lemma {:induction false} NoLaterPick(res: seq<Option<string>>, plan: seq<Entry>, i: nat)
    requires |res| == |plan|
    requires LastPick(res, plan, |plan|) < i < |plan| && HasGateway(plan[i]) && res[i].Some?
    ensures res[i] != res[LastPick(res, plan, |plan|)]
  {
    var j := LastPick(res, plan, |plan|);
    assert PicksDefault(res, plan, j) && !PicksDefault(res, plan, i);
    if Solo(plan) { SoloGateway(plan, i, j); }
  }

  /** The record of an applied entry's interface carries the gateway of the last entry on it. */
  lemma {:induction false} FinalGatewayField(c: Config, plan: seq<Entry>, j: nat)
    requires j < |plan| && Applied(Ifaces(c), plan, j)
    ensures var ifs, out := Ifaces(c), Ifaces(Apply(c, plan));
            var k := Slot(ifs, plan, j);
            var last := LastOn(Slots(ifs, plan), plan, |plan|, k, false);
            && j <= last < |plan| && k < |out|
            && out[k].name == LogicalName(ifs, plan, j)
            && out[k].gateway == if HasGateway(plan[last]) then Some(GatewayName(LogicalName(ifs, plan, j))) else None
  {
    var ifs := Ifaces(c);
    var k := Slot(ifs, plan, j);
    FinalIfaces(c, plan);
    assert Slots(ifs, plan)[j] == k;
    OverlayClosedForm(Slots(ifs, plan), plan, |plan|, k, Base(ifs, plan)[k]);
  }

  lemma {:induction false} ChosenDefault(c: Config, plan: seq<Entry>)
    ensures var res := Logicals(Ifaces(c), plan);
            Apply(c, plan).defaultgw4 ==
            if LastPick(res, plan, |plan|) < |plan| then Pick(res, plan, |plan|) else c.defaultgw4
  {
    RunClosedForm(c, plan);
  }

  lemma {:induction false} SameSlotSameName(ifs: seq<Iface>, plan: seq<Entry>, i: nat, j: nat)
    requires i < |plan| && j < |plan| && Slots(ifs, plan)[i] == Slots(ifs, plan)[j]
    ensures Logicals(ifs, plan)[i] == Logicals(ifs, plan)[j]
  {
  }

  /** A default gateway is chosen exactly when some applied entry with a gateway is on wan or is the
      plan's only gateway; the last such entry's route is then sound exactly when it has the last
      word on its interface and gateway name.  With no such entry defaultgw4 is left alone. */
  lemma {:induction false} DefaultRouteExact(c: Config, plan: seq<Entry>)
    ensures var ifs := Ifaces(c);
            var res, slots := Logicals(ifs, plan), Slots(ifs, plan);
            var j := LastPick(res, plan, |plan|);
            if j < |plan| then
              && PicksDefault(res, plan, j) && Applied(ifs, plan, j)
              && Apply(c, plan).defaultgw4 == Some(GatewayName(res[j].value))
              && (RouteSound(c, plan, j) <==> LastWord(res, slots, plan, j))
            else
              && (forall i :: 0 <= i < |plan| ==> !PicksDefault(res, plan, i))
              && Apply(c, plan).defaultgw4 == c.defaultgw4
  {
    ChosenDefault(c, plan);
    var res := Logicals(Ifaces(c), plan);
    var j := LastPick(res, plan, |plan|);
    if j < |plan| {
      if LastWord(res, Slots(Ifaces(c), plan), plan, j) {
        LastWordSuffices(c, plan, j);
      } else {
        LastWordNecessary(c, plan, j);
      }
    }
  }

  lemma {:induction false} LastWordSuffices(c: Config, plan: seq<Entry>, j: nat)
    requires var res := Logicals(Ifaces(c), plan);
             j < |plan| && j == LastPick(res, plan, |plan|) && LastWord(res, Slots(Ifaces(c), plan), plan, j)
    ensures RouteSound(c, plan, j)
  {
    var ifs := Ifaces(c);
    var res, slots := Logicals(ifs, plan), Slots(ifs, plan);
    var name := GatewayName(res[j].value);
    ChosenDefault(c, plan);
    FinalGatewayField(c, plan, j);
    var last := LastOn(slots, plan, |plan|, slots[j], false);
    if j < last { SameSlotSameName(ifs, plan, last, j); }
    assert last == j;
    assert LastWriter(res, plan, |plan|, name) == j;
    FinalItem(c, plan, name);
  }

  lemma {:induction false} LastWordNecessary(c: Config, plan: seq<Entry>, j: nat)
    requires var res := Logicals(Ifaces(c), plan);
             j < |plan| && j == LastPick(res, plan, |plan|) && !LastWord(res, Slots(Ifaces(c), plan), plan, j)
    ensures !RouteSound(c, plan, j)
  {
    var ifs := Ifaces(c);
    var res, slots := Logicals(ifs, plan), Slots(ifs, plan);
    var name := GatewayName(res[j].value);
    FinalGatewayField(c, plan, j);
    var last := LastOn(slots, plan, |plan|, slots[j], false);
    if j < last {
      SameSlotSameName(ifs, plan, last, j);
      if HasGateway(plan[last]) { NoLaterPick(res, plan, last); }
    } else {
      var q := LastWriter(res, plan, |plan|, name);
      FinalItem(c, plan, name);
      NoLaterPick(res, plan, q);
    }
  }

  // ----- the usual case: each NIC planned once, lower-case interface names

  predicate NoUpperCase(s: string) {
    forall i :: 0 <= i < |s| ==> !('A' <= s[i] <= 'Z')
  }

  lemma {:induction false} UpperAt(s: string, i: nat)
    requires i < |s|
    ensures Upper(s)[i] == UpperChar(s[i])
  {
    if i < |s| - 1 { UpperAt(Init(s), i); }
  }

  lemma {:induction false} GatewayNameInjective(a: string, b: string)
    requires NoUpperCase(a) && NoUpperCase(b) && GatewayName(a) == GatewayName(b)
    ensures a == b
  {
    assert |GatewayName(a)| == |a| + 5 && |GatewayName(b)| == |b| + 5;
    forall i | 0 <= i < |a| ensures a[i] == b[i] {
      UpperAt(a, i);
      UpperAt(b, i);
      assert Upper(a)[i] == GatewayName(a)[i] && Upper(b)[i] == GatewayName(b)[i];
    }
  }

  /** Two applied entries with different NICs use different interfaces and gateway names. */
  lemma {:induction false} PlannedApart(ifs: seq<Iface>, plan: seq<Entry>, i: nat, j: nat)
    requires i < |plan| && j < |plan| && plan[i].ifname != plan[j].ifname
    requires Applied(ifs, plan, i) && Applied(ifs, plan, j)
    requires DistinctNames(Base(ifs, plan))
    requires forall k :: 0 <= k < |Base(ifs, plan)| ==> NoUpperCase(Base(ifs, plan)[k].name)
    ensures Slot(ifs, plan, i) != Slot(ifs, plan, j)
    ensures GatewayName(LogicalName(ifs, plan, i)) != GatewayName(LogicalName(ifs, plan, j))
  {
    var b, x, y := Base(ifs, plan), Slot(ifs, plan, i), Slot(ifs, plan, j);
    assert b[x].nic == Some(plan[i].ifname) && b[y].nic == Some(plan[j].ifname);
    if GatewayName(b[x].name) == GatewayName(b[y].name) { GatewayNameInjective(b[x].name, b[y].name); }
  }

  lemma {:induction false} BaseLowerCase(ifs: seq<Iface>, plan: seq<Entry>)
    requires forall k :: 0 <= k < |ifs| ==> NoUpperCase(ifs[k].name)
    ensures forall k :: 0 <= k < |Base(ifs, plan)| ==> NoUpperCase(Base(ifs, plan)[k].name)
  {
  }

  /** With NICs planned at most once and lower-case interface names every chosen route is sound. */
  lemma {:induction false} DefaultRouteSound(c: Config, plan: seq<Entry>)
    requires DistinctNames(Ifaces(c))
    requires forall k :: 0 <= k < |Ifaces(c)| ==> NoUpperCase(Ifaces(c)[k].name)
    requires PlanBuilding.PlannedOnce(plan)
    ensures var res := Logicals(Ifaces(c), plan);
            && (forall j :: 0 <= j < |plan| && PicksDefault(res, plan, j) ==> RouteSound(c, plan, j))
            && ((forall j :: 0 <= j < |plan| ==> !PicksDefault(res, plan, j)) ==>
                  Apply(c, plan).defaultgw4 == c.defaultgw4)
  {
    var ifs := Ifaces(c);
    var res, slots := Logicals(ifs, plan), Slots(ifs, plan);
    DefaultRouteExact(c, plan);
    BaseUnique(ifs, plan);
    BaseLowerCase(ifs, plan);
    forall i, j | 0 <= i < |plan| && 0 <= j < |plan| && i != j && res[i].Some? && res[j].Some?
      ensures slots[i] != slots[j] && GatewayName(res[i].value) != GatewayName(res[j].value)
    {
      PlannedApart(ifs, plan, i, j);
    }
    forall j | 0 <= j < |plan| && PicksDefault(res, plan, j) ensures j == LastPick(res, plan, |plan|) {
      var p := LastPick(res, plan, |plan|);
      if Solo(plan) { SoloGateway(plan, p, j); }
    }
  }

  lemma {:induction false} OneInterface(wan: Iface, plan: seq<Entry>)
    requires forall i :: 0 <= i < |plan| ==> wan.nic == Some(plan[i].ifname)
    ensures Base([wan], plan) == [wan]
    ensures forall i :: 0 <= i < |plan| ==> Slot([wan], plan, i) == 0
  {
    forall i | 0 <= i < |plan| ensures IndexByNic([wan], plan[i].ifname) == 0 {}
    assert FirstUnbound([wan], plan) == |plan|;
  }

  /** Planning wan's NIC twice, the second time without a gateway, leaves defaultgw4 naming a
      gateway that the interface no longer uses. */
  lemma {:induction false} RepeatedNicBreaksRoute(c: Config, wan: Iface, first: Entry, second: Entry)
    requires Ifaces(c) == [wan] && wan.name == "wan"
    requires wan.nic == Some(first.ifname) && second.ifname == first.ifname
    requires HasGateway(first) && !HasGateway(second)
    ensures var plan := [first, second];
            && Apply(c, plan).defaultgw4 == Some(GatewayName("wan"))
            && Applied(Ifaces(c), plan, 0) && !RouteSound(c, plan, 0)
  {
    var plan := [first, second];
    OneInterface(wan, plan);
    var res := Logicals([wan], plan);
    assert res[0] == res[1] == Some("wan");
    assert PicksDefault(res, plan, 0) && !PicksDefault(res, plan, 1);
    assert Slots([wan], plan)[1] == Slots([wan], plan)[0];
    DefaultRouteExact(c, plan);
    ChosenDefault(c, plan);
  }

  // ----- from the metadata

  /** With distinctly named NICs, no two plannable cards of one MAC, and lower-case interface names,
      whatever default route the metadata leads to is sound. */
  lemma {:induction false} ProvisionedRouteSound(
      c: Config, cards: seq<PlanBuilding.Card>, nics: seq<PlanBuilding.Nic>, j: nat)
    requires DistinctNames(Ifaces(c))
    requires forall k :: 0 <= k < |Ifaces(c)| ==> NoUpperCase(Ifaces(c)[k].name)
    requires PlanBuilding.NicNamesDistinct(nics) && PlanBuilding.MacsDistinct(cards, nics)
    requires var plan := PlanBuilding.Plan(cards, nics);
             j < |plan| && PicksDefault(Logicals(Ifaces(c), plan), plan, j)
    ensures RouteSound(c, PlanBuilding.Plan(cards, nics), j)
  {
    PlanBuilding.PlannedOnceExact(cards, nics);
    DefaultRouteSound(c, PlanBuilding.Plan(cards, nics));
  }

  /** Two cards of one MAC, the second without a gateway, on wan's NIC: the route breaks. */
  lemma {:induction false} SharedMacBreaksRoute(
      c: Config, wan: Iface, first: PlanBuilding.Card, second: PlanBuilding.Card, nics: seq<PlanBuilding.Nic>)
    requires PlanBuilding.Plannable(first, nics) && PlanBuilding.Usable(second)
    requires PlanBuilding.CardKey(first) == PlanBuilding.CardKey(second)
    requires Ifaces(c) == [wan] && wan.name == "wan"
    requires wan.nic == Some(PlanBuilding.EntryFor(first, nics).ifname)
    requires HasGateway(PlanBuilding.EntryFor(first, nics)) && second.gateway.None?
    ensures var plan := PlanBuilding.Plan([first, second], nics);
            && |plan| == 2 && Applied(Ifaces(c), plan, 0)
            && Apply(c, plan).defaultgw4 == Some(GatewayName("wan")) && !RouteSound(c, plan, 0)
  {
    var a, b := PlanBuilding.EntryFor(first, nics), PlanBuilding.EntryFor(second, nics);
    assert Init([first, second]) == [first] && Init([first]) == [];
    assert PlanBuilding.Plan([first], nics) == [a];
    assert PlanBuilding.Plan([first, second], nics) == [a, b];
    RepeatedNicBreaksRoute(c, wan, a, b);
  }
}
