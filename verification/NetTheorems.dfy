// The properties of apply.php, snapshot.php and restore.php.
module NetTheorems {
  import opened Common
  import opened NetConfig
  import opened NetResolution
  import opened NetGateways
  import opened NetApply

  // ----- idempotence

  /** The final interface list: one record per base interface. */
  lemma {:induction false} FinalIfaces(c: Config, plan: seq<Entry>)
    ensures var ifs, out := Ifaces(c), Ifaces(Apply(c, plan));
            && |out| == |Base(ifs, plan)|
            && forall k :: 0 <= k < |out| ==>
                 out[k] == Overlay(Slots(ifs, plan), plan, |plan|, k, Base(ifs, plan)[k])
  {
    RunIfaces(c, plan, |plan|);
  }

  lemma {:induction false} FinalBindings(c: Config, plan: seq<Entry>)
    ensures var b, out := Base(Ifaces(c), plan), Ifaces(Apply(c, plan));
            |out| == |b| && forall k :: 0 <= k < |out| ==> SameBinding(out[k], b[k])
  {
    FinalIfaces(c, plan);
    var ifs := Ifaces(c);
    forall k | 0 <= k < |Base(ifs, plan)| ensures SameBinding(Ifaces(Apply(c, plan))[k], Base(ifs, plan)[k]) {
      OverlayBinding(Slots(ifs, plan), plan, |plan|, k, Base(ifs, plan)[k]);
    }
  }

  /** A list with the bindings of Base(ifs, plan) needs no further assignment and resolves alike. */
  lemma {:induction false} ReResolution(ifs: seq<Iface>, plan: seq<Entry>, out: seq<Iface>)
    requires |out| == |Base(ifs, plan)|
    requires forall k :: 0 <= k < |out| ==> SameBinding(out[k], Base(ifs, plan)[k])
    ensures !Assigns(out, plan) && Base(out, plan) == out
    ensures Slots(out, plan) == Slots(ifs, plan)
    ensures Logicals(out, plan) == Logicals(ifs, plan)
  {
    var b := Base(ifs, plan);
    forall i | 0 <= i < |plan| ensures IndexByNic(out, plan[i].ifname) == Slot(ifs, plan, i) {
      IndexByNicCongruence(out, b, plan[i].ifname);
    }
    if Assigns(ifs, plan) {
      assert out[|ifs|].name == "lan";
    } else if HasLan(ifs) {
      var k :| 0 <= k < |ifs| && ifs[k].name == "lan";
      assert out[k].name == "lan";
    } else {
      assert FirstUnbound(ifs, plan) == |plan|;
      forall i | 0 <= i < |plan| ensures IndexByNic(out, plan[i].ifname) < |out| {
        SlotBeforeAssignment(ifs, plan, i);
      }
    }
  }

  /** Running apply.php again on its own outcome changes nothing, and every plan entry resolves
      to the same logical interface, even one whose lan the first run created. */
  lemma {:induction false} ApplyIdempotent(c: Config, plan: seq<Entry>)
    ensures Apply(Apply(c, plan), plan) == Apply(c, plan)
    ensures Logicals(Ifaces(Apply(c, plan)), plan) == Logicals(Ifaces(c), plan)
  {
    var once := Apply(c, plan);
    var twice := Apply(once, plan);
    var ifs, out := Ifaces(c), Ifaces(once);
    FinalBindings(c, plan);
    ReResolution(ifs, plan, out);
    RunClosedForm(c, plan);
    RunClosedForm(once, plan);
    var res := Logicals(ifs, plan);
    UpsertAllIdempotent(Gateways(c), Writes(res, plan, |plan|));
    assert twice.gateways == once.gateways;
    FinalIfaces(c, plan);
    FinalIfaces(once, plan);
    forall k | 0 <= k < |out| ensures Ifaces(twice)[k] == out[k] {
      OverlayIdempotent(Slots(ifs, plan), plan, |plan|, k, Base(ifs, plan)[k]);
    }
    assert Ifaces(twice) == out;
  }

  // ----- snapshot and restore

  /** apply.php's writes stay inside the four saved paths. */
  lemma {:induction false} ApplyFrame(c: Config, plan: seq<Entry>, n: nat)
    requires n <= |plan|
    ensures Run(c, plan, n).cfg.rest == c.rest && Apply(c, plan).rest == c.rest
  {
    RunPrefixFrame(c, plan, n);
    RunPrefixFrame(c, plan, |plan|);
  }

  lemma {:induction false} RunPrefixFrame(c: Config, plan: seq<Entry>, n: nat)
    requires n <= |plan|
    ensures Run(c, plan, n).cfg.rest == c.rest
  {
    if n == 0 {
    } else {
      RunPrefixFrame(c, plan, n - 1);
    }
  }

  /** Restoring c0's snapshot over any config yields what c0 reads as exactly when nothing outside
      the saved paths changed, and yields c0 itself exactly when c0 also had all four paths. */
  lemma {:induction false} RestoreInverts(c0: Config, c: Config)
    ensures Restore(c, Take(c0)) == Normal(c0) <==> c.rest == c0.rest
    ensures Take(Restore(c, Take(c0))) == Take(c0)
    ensures Restore(c, Take(c0)) == c0 <==>
              c.rest == c0.rest && c0.interfaces.Some? && c0.gateways.Some? && c0.defaultgw4.Some? && c0.dnsserver.Some?
  {
  }

  /** Revert undoes any prefix of an apply run. */
  lemma {:induction false} RevertUndoesApply(c0: Config, plan: seq<Entry>, n: nat)
    requires n <= |plan|
    ensures Restore(Run(c0, plan, n).cfg, Take(c0)) == Normal(c0)
    ensures Restore(Apply(c0, plan), Take(c0)) == Normal(c0)
  {
    ApplyFrame(c0, plan, n);
  }

  /** Spelling out defaults commutes with applying: the script reads through the same defaults. */
  lemma {:induction false} ApplyNormal(c: Config, plan: seq<Entry>)
    ensures Apply(Normal(c), plan) == Normal(Apply(c, plan))
  {
    RunClosedForm(c, plan);
    RunClosedForm(Normal(c), plan);
    FinalIfaces(c, plan);
    FinalIfaces(Normal(c), plan);
    assert Ifaces(Apply(Normal(c), plan)) == Ifaces(Apply(c, plan));
  }

  // ----- interface bindings

  /** Bindings after a run: every interface kept with its NIC, at most one lan added at the end,
      for the first plan entry without an interface, and only where lan was absent. */
  lemma {:induction false} BindingInvariant(c: Config, plan: seq<Entry>)
    ensures var ifs, out, auto := Ifaces(c), Ifaces(Apply(c, plan)), AutoEntry(Ifaces(c), plan);
            && |out| == (if auto < |plan| then |ifs| + 1 else |ifs|)
            && (forall k :: 0 <= k < |ifs| ==> SameBinding(out[k], ifs[k]))
            && (auto < |plan| ==>
                  && !HasLan(ifs)
                  && (forall i :: 0 <= i < auto ==> IndexByNic(ifs, plan[i].ifname) < |ifs|)
                  && IndexByNic(ifs, plan[auto].ifname) == |ifs|
                  && out[|ifs|].name == "lan" && out[|ifs|].nic == Some(plan[auto].ifname))
  {
    FinalBindings(c, plan);
  }

  /** Unique interface names and NICs stay unique. */
  lemma {:induction false} BindingsStayUnique(c: Config, plan: seq<Entry>)
    ensures DistinctNames(Ifaces(c)) ==> DistinctNames(Ifaces(Apply(c, plan)))
    ensures DistinctNics(Ifaces(c)) ==> DistinctNics(Ifaces(Apply(c, plan)))
  {
    BaseUnique(Ifaces(c), plan);
    FinalBindings(c, plan);
    UniqueTransfers(Base(Ifaces(c), plan), Ifaces(Apply(c, plan)));
  }

  /** Unique gateway names stay unique under the upserts. */
  lemma {:induction false} GatewayNamesStayUnique(c: Config, plan: seq<Entry>)
    requires DistinctItemNames(Gateways(c))
    ensures DistinctItemNames(Gateways(Apply(c, plan)))
  {
    RunClosedForm(c, plan);
    UpsertAllDistinct(Gateways(c), Writes(Logicals(Ifaces(c), plan), plan, |plan|));
  }

  lemma {:induction false} UniqueTransfers(a: seq<Iface>, b: seq<Iface>)
    requires |a| == |b| && forall k :: 0 <= k < |b| ==> SameBinding(b[k], a[k])
    ensures DistinctNames(a) ==> DistinctNames(b)
    ensures DistinctNics(a) ==> DistinctNics(b)
  {
  }

  lemma {:induction false} BaseUnique(ifs: seq<Iface>, plan: seq<Entry>)
    ensures DistinctNames(ifs) ==> DistinctNames(Base(ifs, plan))
    ensures DistinctNics(ifs) ==> DistinctNics(Base(ifs, plan))
  {
  }

  ghost predicate DistinctNics(ifs: seq<Iface>) {
    forall i, j :: 0 <= i < j < |ifs| && ifs[i].nic.Some? ==> ifs[i].nic != ifs[j].nic
  }

  /** One result per entry, in order: applied exactly when resolved or auto-assigned, and
      auto-assigned for at most one entry. */
  lemma {:induction false} ResultsReport(c: Config, plan: seq<Entry>)
    ensures var rs, res := Results(c, plan), Logicals(Ifaces(c), plan);
            && |rs| == |plan|
            && (forall i :: 0 <= i < |rs| ==>
                  rs[i] == EntryResult(plan[i].ifname, res[i].Some?, res[i], i == AutoEntry(Ifaces(c), plan)))
            && forall i, j :: 0 <= i < j < |rs| ==> !(rs[i].autoAssigned && rs[j].autoAssigned)
  {
    RunClosedForm(c, plan);
  }

  // ----- DNS

  /** system/dnsserver ends as the first-occurrence de-duplication of the applied entries' usable
      servers in plan order, or untouched when they have none. */
  lemma {:induction false} DnsMerge(c: Config, plan: seq<Entry>)
    ensures var src := DnsSource(Logicals(Ifaces(c), plan), plan, |plan|);
            var dns := FirstOccurrences(src);
            && Apply(c, plan).dnsserver == (if src == [] then c.dnsserver else Some(dns))
            && Distinct(dns) && Sublist(dns, src) && (forall x :: x in dns <==> x in src)
  {
    RunClosedForm(c, plan);
    var src := DnsSource(Logicals(Ifaces(c), plan), plan, |plan|);
    FirstOccurrencesFacts(src);
    if src != [] { assert src[0] in FirstOccurrences(src); }
  }
}
