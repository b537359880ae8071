// What a whole apply.php run does, stated from the initial config and the plan
// alone: last-writer-wins records, gateway upserts, DNS merge, default route.
module NetApply {
  import opened Common
  import opened NetConfig
  import opened NetResolution
  import opened NetGateways

  // ----- the accumulators, described from the resolution `res` of the plan

  predicate HasGateway(e: Entry) { !Empty(e.gateway) }

  /** Entry i decides the default route. */
  predicate PicksDefault(res: seq<Option<string>>, plan: seq<Entry>, i: nat)
    requires i < |plan| == |res|
  {
    res[i].Some? && HasGateway(plan[i]) && (res[i].value == "wan" || Solo(plan))
  }

  function ItemOf(res: seq<Option<string>>, plan: seq<Entry>, i: nat): GatewayItem
    requires i < |plan| == |res| && res[i].Some?
  {
    NewItem(res[i].value, plan[i].gateway, res[i].value == "wan" || Solo(plan))
  }

  /** Gateway items written by the first n entries, in order. */
  ghost function Writes(res: seq<Option<string>>, plan: seq<Entry>, n: nat): (ws: seq<GatewayItem>)
    requires n <= |plan| == |res|
    ensures Named(ws)
  {
    if n == 0 then []
    else if res[n - 1].Some? && HasGateway(plan[n - 1]) then
      Writes(res, plan, n - 1) + [ItemOf(res, plan, n - 1)]
    else Writes(res, plan, n - 1)
  }

  /** Last of the first n entries deciding the default route; n when none does. */
  ghost function LastPick(res: seq<Option<string>>, plan: seq<Entry>, n: nat): (j: nat)
    requires n <= |plan| == |res|
    ensures j <= n
    ensures j < n ==> PicksDefault(res, plan, j)
    ensures forall i :: 0 <= i < n && (j == n || j < i) ==> !PicksDefault(res, plan, i)
  {
    if n == 0 then 0
    else if PicksDefault(res, plan, n - 1) then n - 1
    else
      var j := LastPick(res, plan, n - 1);
      if j == n - 1 then n else j
  }

  ghost function Pick(res: seq<Option<string>>, plan: seq<Entry>, n: nat): Option<string>
    requires n <= |plan| == |res|
  {
    var j := LastPick(res, plan, n);
    if j == n then None else Some(GatewayName(res[j].value))
  }

  ghost function NonEmpty(dns: seq<string>): seq<string> {
    if dns == [] then []
    else if Empty(Last(dns)) then NonEmpty(Init(dns))
    else NonEmpty(Init(dns)) + [Last(dns)]
  }

  /** All usable DNS entries of the applied plan entries, in plan order. */
  ghost function DnsSource(res: seq<Option<string>>, plan: seq<Entry>, n: nat): seq<string>
    requires n <= |plan| == |res|
  {
    if n == 0 then []
    else if res[n - 1].Some? then DnsSource(res, plan, n - 1) + NonEmpty(plan[n - 1].dns)
    else DnsSource(res, plan, n - 1)
  }

  /** Keeps element i of s exactly when no earlier element equals it. */
  ghost function FirstOccurrences(s: seq<string>): seq<string> {
    if s == [] then []
    else if Last(s) in Init(s) then FirstOccurrences(Init(s))
    else FirstOccurrences(Init(s)) + [Last(s)]
  }

  ghost predicate AnyApplied(res: seq<Option<string>>, n: nat)
    requires n <= |res|
  {
    n > 0 && (res[n - 1].Some? || AnyApplied(res, n - 1))
  }

  // ----- DNS

  lemma {:induction false} FirstOccurrencesFacts(s: seq<string>)
    ensures Distinct(FirstOccurrences(s))
    ensures forall x :: x in FirstOccurrences(s) <==> x in s
    ensures Sublist(FirstOccurrences(s), s)
  {
    if s == [] {
    } else {
      FirstOccurrencesFacts(Init(s));
      SublistSnoc(FirstOccurrences(Init(s)), Init(s), Last(s));
      assert s == Init(s) + [Last(s)];
    }
  }

  lemma {:induction false} MergeDnsIsDedup(src: seq<string>, dns: seq<string>)
    ensures MergeDns(FirstOccurrences(src), dns) == FirstOccurrences(src + NonEmpty(dns))
  {
    if dns == [] {
      assert src + NonEmpty(dns) == src;
    } else {
      MergeDnsIsDedup(src, Init(dns));
      var s := src + NonEmpty(Init(dns));
      FirstOccurrencesFacts(s);
      if !Empty(Last(dns)) {
        assert src + NonEmpty(dns) == s + [Last(dns)];
        assert Init(s + [Last(dns)]) == s;
      }
    }
  }

  // ----- the run against its reference description

  function ResultOf(res: seq<Option<string>>, plan: seq<Entry>, auto: nat, i: nat): EntryResult
    requires i < |plan| == |res|
  {
    EntryResult(plan[i].ifname, res[i].Some?, res[i], i == auto)
  }

  /** One entry's effect, with the script's own lookup replaced by the known resolution. */
  ghost predicate StepFacts(res: seq<Option<string>>, plan: seq<Entry>, auto: nat, n: nat, w: Work, w': Work)
    requires n < |plan| == |res|
  {
    var e := plan[n];
    && w'.results == w.results + [ResultOf(res, plan, auto, n)]
    && if res[n].Some? then
         && w'.cfg == w.cfg.(interfaces := Some(Ifaces(w'.cfg)), gateways := w'.cfg.gateways)
         && w'.cfg.gateways == (if HasGateway(e) then Some(Upsert(Gateways(w.cfg), ItemOf(res, plan, n)))
                                else w.cfg.gateways)
         && w'.dns == MergeDns(w.dns, e.dns)
         && w'.chosen == (if PicksDefault(res, plan, n) then Some(GatewayName(res[n].value)) else w.chosen)
       else
         w' == w.(results := w'.results)
  }

  lemma {:induction false} StepWithTarget(
      res: seq<Option<string>>, plan: seq<Entry>, auto: nat, n: nat, w: Work, target: Option<nat>)
    requires n < |plan| == |res|
    requires Target(Ifaces(w.cfg), plan[n].ifname) == target
    requires target.None? ==> res[n] == None && n != auto
    requires target.Some? ==>
      && target.value <= |Ifaces(w.cfg)|
      && (n == auto <==> target.value == |Ifaces(w.cfg)|)
      && res[n] == Some(if n == auto then "lan" else Ifaces(w.cfg)[target.value].name)
    ensures StepFacts(res, plan, auto, n, w, Step(w, plan[n], Solo(plan)))
  {
  }

  lemma {:induction false} StepEffect(c: Config, plan: seq<Entry>, n: nat)
    requires n < |plan|
    ensures var ifs := Ifaces(c);
            StepFacts(Logicals(ifs, plan), plan, AutoEntry(ifs, plan), n, Run(c, plan, n), Run(c, plan, n + 1))
  {
    var ifs, w := Ifaces(c), Run(c, plan, n);
    var target := if Applied(ifs, plan, n) then Some(Slot(ifs, plan, n)) else None;
    RunIfaces(c, plan, n);
    TargetIsSlot(ifs, plan, n, Ifaces(w.cfg));
    SlotBeforeAssignment(ifs, plan, n);
    if target.Some? { RecordBinding(ifs, plan, n, target.value); }
    StepWithTarget(Logicals(ifs, plan), plan, AutoEntry(ifs, plan), n, w, target);
  }

  /** A trace of script states that follows the resolution. */
  ghost predicate Traced(res: seq<Option<string>>, plan: seq<Entry>, auto: nat, ws: seq<Work>)
    requires |res| == |plan|
  {
    && |ws| == |plan| + 1
    && forall i :: 0 <= i < |plan| ==> StepFacts(res, plan, auto, i, ws[i], ws[i + 1])
  }

  lemma {:induction false} TraceConfig(res: seq<Option<string>>, plan: seq<Entry>, auto: nat, ws: seq<Work>, n: nat)
    requires n <= |plan| == |res| && Traced(res, plan, auto, ws)
    ensures ws[n].cfg == ws[0].cfg.(interfaces := ws[n].cfg.interfaces, gateways := ws[n].cfg.gateways)
    ensures ws[n].cfg.interfaces == if AnyApplied(res, n) then Some(Ifaces(ws[n].cfg)) else ws[0].cfg.interfaces
    ensures ws[n].cfg.gateways == if Writes(res, plan, n) == [] then ws[0].cfg.gateways
                                  else Some(UpsertAll(Gateways(ws[0].cfg), Writes(res, plan, n)))
  {
    if n == 0 {
    } else {
      TraceConfig(res, plan, auto, ws, n - 1);
      assert StepFacts(res, plan, auto, n - 1, ws[n - 1], ws[n]);
      if res[n - 1].Some? && HasGateway(plan[n - 1]) {
        assert Init(Writes(res, plan, n)) == Writes(res, plan, n - 1);
      }
    }
  }

  lemma {:induction false} TraceAccumulators(res: seq<Option<string>>, plan: seq<Entry>, auto: nat, ws: seq<Work>, n: nat)
    requires n <= |plan| == |res| && Traced(res, plan, auto, ws) && ws[0].dns == [] && ws[0].chosen == None
    ensures ws[n].dns == FirstOccurrences(DnsSource(res, plan, n))
    ensures ws[n].chosen == Pick(res, plan, n)
    ensures |ws[n].results| == |ws[0].results| + n
    ensures forall i :: 0 <= i < n ==> ws[n].results[|ws[0].results| + i] == ResultOf(res, plan, auto, i)
  {
    if n == 0 {
    } else {
      TraceAccumulators(res, plan, auto, ws, n - 1);
      assert StepFacts(res, plan, auto, n - 1, ws[n - 1], ws[n]);
      MergeDnsIsDedup(DnsSource(res, plan, n - 1), plan[n - 1].dns);
    }
  }

  ghost function RunTrace(c: Config, plan: seq<Entry>, n: nat): (ws: seq<Work>)
    requires n <= |plan|
    ensures |ws| == n + 1 && forall i :: 0 <= i <= n ==> ws[i] == Run(c, plan, i)
  {
    if n == 0 then [Run(c, plan, 0)] else RunTrace(c, plan, n - 1) + [Run(c, plan, n)]
  }

  lemma {:induction false} RunIsTraced(c: Config, plan: seq<Entry>)
    ensures Traced(Logicals(Ifaces(c), plan), plan, AutoEntry(Ifaces(c), plan), RunTrace(c, plan, |plan|))
  {
    var ws := RunTrace(c, plan, |plan|);
    forall i | 0 <= i < |plan|
      ensures StepFacts(Logicals(Ifaces(c), plan), plan, AutoEntry(Ifaces(c), plan), i, ws[i], ws[i + 1])
    {
      StepEffect(c, plan, i);
    }
  }

  /** The whole run in closed form. */
  lemma {:induction false} RunClosedForm(c: Config, plan: seq<Entry>)
    ensures var res, w := Logicals(Ifaces(c), plan), Run(c, plan, |plan|);
            && w.cfg == c.(interfaces := w.cfg.interfaces, gateways := w.cfg.gateways)
            && w.cfg.interfaces == (if AnyApplied(res, |plan|) then Some(Ifaces(w.cfg)) else c.interfaces)
            && w.cfg.gateways == (if Writes(res, plan, |plan|) == [] then c.gateways
                                  else Some(UpsertAll(Gateways(c), Writes(res, plan, |plan|))))
            && w.dns == FirstOccurrences(DnsSource(res, plan, |plan|))
            && w.chosen == Pick(res, plan, |plan|)
            && |w.results| == |plan|
            && forall i :: 0 <= i < |plan| ==> w.results[i] == ResultOf(res, plan, AutoEntry(Ifaces(c), plan), i)
  {
    var res, auto := Logicals(Ifaces(c), plan), AutoEntry(Ifaces(c), plan);
    var ws := RunTrace(c, plan, |plan|);
    RunIsTraced(c, plan);
    assert ws[0] == Work(c, [], None, []) && ws[|plan|] == Run(c, plan, |plan|);
    TraceConfig(res, plan, auto, ws, |plan|);
    TraceAccumulators(res, plan, auto, ws, |plan|);
  }
}
