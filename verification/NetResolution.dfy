// Which interface each plan entry configures, computed from the initial config
// alone, and the proof that the script's entry-by-entry resolution agrees.
module NetResolution {
  import opened Common
  import opened NetConfig

  /** First plan entry whose NIC no interface is bound to; |plan| when all are bound. */
  function FirstUnbound(ifs: seq<Iface>, plan: seq<Entry>): (a: nat)
    ensures a <= |plan|
    ensures a < |plan| ==> IndexByNic(ifs, plan[a].ifname) == |ifs|
    ensures forall i :: 0 <= i < a ==> IndexByNic(ifs, plan[i].ifname) < |ifs|
  {
    if plan == [] then 0
    else if IndexByNic(ifs, plan[0].ifname) == |ifs| then 0
    else
      var a := FirstUnbound(ifs, plan[1..]);
      assert forall i :: 0 < i < a + 1 ==> plan[i] == plan[1..][i - 1];
      a + 1
  }

  /** Whether the run creates a lan interface. */
  predicate Assigns(ifs: seq<Iface>, plan: seq<Entry>) {
    !HasLan(ifs) && FirstUnbound(ifs, plan) < |plan|
  }

  /** The entry for which lan is created; |plan| when none is. */
  function AutoEntry(ifs: seq<Iface>, plan: seq<Entry>): nat {
    if Assigns(ifs, plan) then FirstUnbound(ifs, plan) else |plan|
  }

  /** The interface list the run works on, before any addressing. */
  function Base(ifs: seq<Iface>, plan: seq<Entry>): seq<Iface> {
    if Assigns(ifs, plan) then ifs + [NewLan(plan[FirstUnbound(ifs, plan)].ifname)] else ifs
  }

  /** Entry i is applied to Base(..)[Slot(..)] when the slot is in range, and skipped otherwise. */
  function Slot(ifs: seq<Iface>, plan: seq<Entry>, i: nat): nat
    requires i < |plan|
  {
    IndexByNic(Base(ifs, plan), plan[i].ifname)
  }

  predicate Applied(ifs: seq<Iface>, plan: seq<Entry>, i: nat)
    requires i < |plan|
  {
    Slot(ifs, plan, i) < |Base(ifs, plan)|
  }

  function LogicalName(ifs: seq<Iface>, plan: seq<Entry>, i: nat): string
    requires i < |plan| && Applied(ifs, plan, i)
  {
    Base(ifs, plan)[Slot(ifs, plan, i)].name
  }

  function LogicalAt(ifs: seq<Iface>, plan: seq<Entry>, i: nat): Option<string>
    requires i < |plan|
  {
    if Applied(ifs, plan, i) then Some(LogicalName(ifs, plan, i)) else None
  }

  function LogicalsTo(ifs: seq<Iface>, plan: seq<Entry>, n: nat): (res: seq<Option<string>>)
    requires n <= |plan|
    ensures |res| == n
    ensures forall i :: 0 <= i < n ==> res[i] == LogicalAt(ifs, plan, i)
  {
    if n == 0 then [] else LogicalsTo(ifs, plan, n - 1) + [LogicalAt(ifs, plan, n - 1)]
  }

  /** Per plan entry, the logical interface it configures; None when it is left unapplied. */
  function Logicals(ifs: seq<Iface>, plan: seq<Entry>): (res: seq<Option<string>>)
    ensures |res| == |plan|
    ensures forall i :: 0 <= i < |plan| ==> res[i] == LogicalAt(ifs, plan, i)
  {
    LogicalsTo(ifs, plan, |plan|)
  }

  function SlotsTo(ifs: seq<Iface>, plan: seq<Entry>, n: nat): (slots: seq<nat>)
    requires n <= |plan|
    ensures |slots| == n
    ensures forall i :: 0 <= i < n ==> slots[i] == Slot(ifs, plan, i)
  {
    if n == 0 then [] else SlotsTo(ifs, plan, n - 1) + [Slot(ifs, plan, n - 1)]
  }

  /** Per plan entry, the position it writes in Base(ifs, plan). */
  function Slots(ifs: seq<Iface>, plan: seq<Entry>): (slots: seq<nat>)
    ensures |slots| == |plan|
    ensures forall i :: 0 <= i < |plan| ==> slots[i] == Slot(ifs, plan, i)
  {
    SlotsTo(ifs, plan, |plan|)
  }

  /** Record r at position k after the first n entries: those whose slot is k, in order. */
  function Overlay(slots: seq<nat>, plan: seq<Entry>, n: nat, k: nat, r: Iface): Iface
    requires n <= |plan| == |slots|
  {
    if n == 0 then r
    else if slots[n - 1] == k then Configure(Overlay(slots, plan, n - 1, k, r), plan[n - 1])
    else Overlay(slots, plan, n - 1, k, r)
  }

  function Record(ifs: seq<Iface>, plan: seq<Entry>, n: nat, k: nat): Iface
    requires n <= |plan| && k < |Base(ifs, plan)|
  {
    Overlay(Slots(ifs, plan), plan, n, k, Base(ifs, plan)[k])
  }

  /** Number of records present after n entries. */
  function Width(ifs: seq<Iface>, plan: seq<Entry>, n: nat): nat {
    if Assigns(ifs, plan) && FirstUnbound(ifs, plan) < n then |ifs| + 1 else |ifs|
  }

  ghost predicate SameBinding(a: Iface, b: Iface) {
    a.name == b.name && a.nic == b.nic && a.other == b.other
  }

  lemma {:induction false} OverlayBinding(slots: seq<nat>, plan: seq<Entry>, n: nat, k: nat, r: Iface)
    requires n <= |plan| == |slots|
    ensures SameBinding(Overlay(slots, plan, n, k, r), r)
  {
    if n == 0 {
    } else {
      OverlayBinding(slots, plan, n - 1, k, r);
    }
  }

  lemma {:induction false} RecordBinding(ifs: seq<Iface>, plan: seq<Entry>, n: nat, k: nat)
    requires n <= |plan| && k < |Base(ifs, plan)|
    ensures SameBinding(Record(ifs, plan, n, k), Base(ifs, plan)[k])
  {
    OverlayBinding(Slots(ifs, plan), plan, n, k, Base(ifs, plan)[k]);
  }

  /** Lists with the same bindings resolve every NIC alike. */
  lemma {:induction false} IndexByNicCongruence(a: seq<Iface>, b: seq<Iface>, nic: string)
    requires |a| == |b|
    requires forall k :: 0 <= k < |a| ==> a[k].nic == b[k].nic
    ensures IndexByNic(a, nic) == IndexByNic(b, nic)
  {
    var i, j := IndexByNic(a, nic), IndexByNic(b, nic);
    assert i < |a| ==> b[i].nic == Some(nic);
    assert j < |b| ==> a[j].nic == Some(nic);
  }

  lemma {:induction false} SlotBeforeAssignment(ifs: seq<Iface>, plan: seq<Entry>, i: nat)
    requires i < |plan|
    ensures Slot(ifs, plan, i) <= |Base(ifs, plan)|
    ensures i < FirstUnbound(ifs, plan) ==> Slot(ifs, plan, i) == IndexByNic(ifs, plan[i].ifname) < |ifs|
    ensures Assigns(ifs, plan) && i == FirstUnbound(ifs, plan) ==> Slot(ifs, plan, i) == |ifs|
    ensures !Assigns(ifs, plan) ==> Slot(ifs, plan, i) == IndexByNic(ifs, plan[i].ifname)
  {
    var b := Base(ifs, plan);
    var k := IndexByNic(ifs, plan[i].ifname);
    var s := IndexByNic(b, plan[i].ifname);
    assert forall j :: 0 <= j < |ifs| ==> b[j] == ifs[j];
    assert k < |ifs| ==> b[k].nic == Some(plan[i].ifname);
    assert s < |ifs| ==> ifs[s].nic == Some(plan[i].ifname);
    if Assigns(ifs, plan) && i == FirstUnbound(ifs, plan) {
      assert b[|ifs|].nic == Some(plan[i].ifname);
    }
  }

  /** The interface list at n: the first Width records. */
  ghost predicate ListedAt(ifs: seq<Iface>, plan: seq<Entry>, n: nat, now: seq<Iface>)
    requires n <= |plan|
  {
    && |now| == Width(ifs, plan, n)
    && forall k :: 0 <= k < |now| ==> now[k] == Record(ifs, plan, n, k)
  }

  lemma {:induction false} ListedHasLan(ifs: seq<Iface>, plan: seq<Entry>, n: nat, now: seq<Iface>)
    requires n <= |plan| && ListedAt(ifs, plan, n, now)
    ensures HasLan(now) <==> HasLan(ifs) || |now| == |ifs| + 1
  {
    forall k | 0 <= k < |now| ensures now[k].name == Base(ifs, plan)[k].name {
      RecordBinding(ifs, plan, n, k);
    }
    if HasLan(ifs) {
      var i :| 0 <= i < |ifs| && ifs[i].name == "lan";
      assert now[i].name == "lan";
    }
    if |now| == |ifs| + 1 { assert now[|ifs|].name == "lan"; }
    if HasLan(now) && |now| == |ifs| {
      var i :| 0 <= i < |now| && now[i].name == "lan";
      assert ifs[i].name == "lan";
    }
  }

  /** The script's own lookup, made on the partly rewritten list, lands on the slot
      computed from the initial list. */
  lemma {:induction false} TargetIsSlot(ifs: seq<Iface>, plan: seq<Entry>, n: nat, now: seq<Iface>)
    requires n < |plan| && ListedAt(ifs, plan, n, now)
    ensures Target(now, plan[n].ifname) ==
            if Applied(ifs, plan, n) then Some(Slot(ifs, plan, n)) else None
    ensures Applied(ifs, plan, n) && Slot(ifs, plan, n) == |now| ==>
              Assigns(ifs, plan) && n == FirstUnbound(ifs, plan) && |now| == |ifs|
  {
    var b, f := Base(ifs, plan), plan[n].ifname;
    forall k | 0 <= k < |now| ensures now[k].nic == b[k].nic {
      RecordBinding(ifs, plan, n, k);
    }
    SlotBeforeAssignment(ifs, plan, n);
    ListedHasLan(ifs, plan, n, now);
    if |now| == |b| {
      IndexByNicCongruence(now, b, f);
    } else {
      assert now == now[..|ifs|];
      IndexByNicCongruence(now, ifs, f);
    }
  }

  // ----- last writer wins

  /** Last of the first n entries with slot k and, if `withMtu`, a non-zero mtu; n when none. */
  function LastOn(slots: seq<nat>, plan: seq<Entry>, n: nat, k: nat, withMtu: bool): (j: nat)
    requires n <= |plan| == |slots|
    ensures j <= n
    ensures j < n ==> slots[j] == k && (withMtu ==> plan[j].mtu != 0)
    ensures forall i :: 0 <= i < n && (j == n || j < i) ==> slots[i] != k || (withMtu && plan[i].mtu == 0)
  {
    if n == 0 then 0
    else if slots[n - 1] == k && (withMtu ==> plan[n - 1].mtu != 0) then n - 1
    else
      var j := LastOn(slots, plan, n - 1, k, withMtu);
      if j == n - 1 then n else j
  }

  /** The final record, field by field: address and gateway of the last entry on it, mtu of the
      last entry that has one, everything else as before. */
  lemma {:induction false} OverlayClosedForm(slots: seq<nat>, plan: seq<Entry>, n: nat, k: nat, r: Iface)
    requires n <= |plan| == |slots|
    ensures var j, m := LastOn(slots, plan, n, k, false), LastOn(slots, plan, n, k, true);
            Overlay(slots, plan, n, k, r) ==
            if j == n then r
            else r.(ipaddr := Some(plan[j].ipaddr), subnet := Some(plan[j].subnet),
                    mtu := if m == n then r.mtu else Some(Number(plan[m].mtu)),
                    gateway := if Empty(plan[j].gateway) then None else Some(GatewayName(r.name)))
  {
    if n == 0 {
    } else {
      OverlayClosedForm(slots, plan, n - 1, k, r);
    }
  }

  lemma {:induction false} OverlayIdempotent(slots: seq<nat>, plan: seq<Entry>, n: nat, k: nat, r: Iface)
    requires n <= |plan| == |slots|
    ensures var once := Overlay(slots, plan, n, k, r); Overlay(slots, plan, n, k, once) == once
  {
    OverlayClosedForm(slots, plan, n, k, r);
    OverlayClosedForm(slots, plan, n, k, Overlay(slots, plan, n, k, r));
  }

  // ----- the run

  lemma {:induction false} ListedSkip(ifs: seq<Iface>, plan: seq<Entry>, n: nat, now: seq<Iface>)
    requires n < |plan| && ListedAt(ifs, plan, n, now) && !Applied(ifs, plan, n)
    ensures ListedAt(ifs, plan, n + 1, now)
  {
    SlotBeforeAssignment(ifs, plan, n);
  }

  lemma {:induction false} ListedUpdate(ifs: seq<Iface>, plan: seq<Entry>, n: nat, now: seq<Iface>, k: nat)
    requires n < |plan| && ListedAt(ifs, plan, n, now) && k == Slot(ifs, plan, n) < |now|
    ensures ListedAt(ifs, plan, n + 1, now[k := Configure(now[k], plan[n])])
  {
    SlotBeforeAssignment(ifs, plan, n);
  }

  lemma {:induction false} ListedAppend(ifs: seq<Iface>, plan: seq<Entry>, n: nat, now: seq<Iface>)
    requires n < |plan| && ListedAt(ifs, plan, n, now)
    requires Assigns(ifs, plan) && n == FirstUnbound(ifs, plan) && Slot(ifs, plan, n) == |now| == |ifs|
    ensures ListedAt(ifs, plan, n + 1, now + [Configure(NewLan(plan[n].ifname), plan[n])])
  {
    NewLanUntouched(ifs, plan, n);
  }

  lemma {:induction false} ListedStep(ifs: seq<Iface>, plan: seq<Entry>, n: nat, now: seq<Iface>)
    requires n < |plan| && ListedAt(ifs, plan, n, now)
    ensures ListedAt(ifs, plan, n + 1, StepIfaces(now, plan[n]))
  {
    TargetIsSlot(ifs, plan, n, now);
    if !Applied(ifs, plan, n) { ListedSkip(ifs, plan, n, now); }
    else if Slot(ifs, plan, n) < |now| { ListedUpdate(ifs, plan, n, now, Slot(ifs, plan, n)); }
    else { ListedAppend(ifs, plan, n, now); }
  }

  /** Until lan is created no entry lands on its slot. */
  lemma {:induction false} NewLanUntouched(ifs: seq<Iface>, plan: seq<Entry>, n: nat)
    requires n < |plan| && Assigns(ifs, plan) && n == FirstUnbound(ifs, plan)
    ensures Record(ifs, plan, n, |ifs|) == NewLan(plan[n].ifname)
  {
    forall i | 0 <= i < n ensures Slots(ifs, plan)[i] != |ifs| {
      SlotBeforeAssignment(ifs, plan, i);
    }
    OverlayClosedForm(Slots(ifs, plan), plan, n, |ifs|, Base(ifs, plan)[|ifs|]);
  }

  /** The interface list after n entries, on its own. */
  ghost function IfacesAfter(ifs: seq<Iface>, plan: seq<Entry>, n: nat): seq<Iface>
    requires n <= |plan|
  {
    if n == 0 then ifs else StepIfaces(IfacesAfter(ifs, plan, n - 1), plan[n - 1])
  }

  lemma {:induction false} RunListsIfaces(c: Config, plan: seq<Entry>, n: nat)
    requires n <= |plan|
    ensures Ifaces(Run(c, plan, n).cfg) == IfacesAfter(Ifaces(c), plan, n)
  {
    if n == 0 {
    } else {
      RunListsIfaces(c, plan, n - 1);
      StepListsIfaces(Run(c, plan, n - 1), plan[n - 1], Solo(plan));
    }
  }

  lemma {:induction false} IfacesAreListed(ifs: seq<Iface>, plan: seq<Entry>, n: nat)
    requires n <= |plan|
    ensures ListedAt(ifs, plan, n, IfacesAfter(ifs, plan, n))
  {
    if n == 0 {
    } else {
      IfacesAreListed(ifs, plan, n - 1);
      ListedStep(ifs, plan, n - 1, IfacesAfter(ifs, plan, n - 1));
    }
  }

  lemma {:induction false} RunIfaces(c: Config, plan: seq<Entry>, n: nat)
    requires n <= |plan|
    ensures ListedAt(Ifaces(c), plan, n, Ifaces(Run(c, plan, n).cfg))
  {
    RunListsIfaces(c, plan, n);
    IfacesAreListed(Ifaces(c), plan, n);
  }

  lemma {:induction false} StepListsIfaces(w: Work, e: Entry, solo: bool)
    ensures Ifaces(Step(w, e, solo).cfg) == StepIfaces(Ifaces(w.cfg), e)
  {
  }
}
