// The telemetry-interval hand-off: SetTelemetryInterval (called by the command
// handler, one call at a time) and the telemetry loop share a channel of
// capacity one.  Every channel operation is one atomic step.
module Telemetry {
  import opened Common

  /** Nanoseconds. */
  const MIN_INTERVAL: int := 1_000_000_000

  /** The setter: outside a call, about to select, or in the default arm before the receive and
      before the send. */
  datatype Setter = Outside | Selecting(d: int) | Draining(d: int) | Refilling(d: int)

  /** `sets` and `applied` record the clamped values of all calls so far and the values the loop
      has reset its ticker to. */
  datatype State = State(slot: Option<int>, setter: Setter, sets: seq<int>, applied: seq<int>)

  datatype Action = Call(d: int) | Select | Drain | Refill | LoopReceive

  const INITIAL := State(None, Outside, [], [])

  /** The smallest allowed interval that is not below d. */
  function Clamp(d: int): (r: int)
    ensures r >= MIN_INTERVAL && r >= d && r in {MIN_INTERVAL, d}
    ensures r == d || d < r == 1_000_000_000
  {
    if d < MIN_INTERVAL then MIN_INTERVAL else d
  }

  predicate Enabled(s: State, a: Action) {
    match a
    case Call(_) => s.setter.Outside?
    case Select => s.setter.Selecting?
    case Drain => s.setter.Draining? && s.slot.Some?
    case Refill => s.setter.Refilling? && s.slot.None?
    case LoopReceive => s.slot.Some?
  }

  function Do(s: State, a: Action): State
    requires Enabled(s, a)
  {
    match a
    case Call(d) => s.(setter := Selecting(Clamp(d)), sets := s.sets + [Clamp(d)])
    case Select =>
      if s.slot.None? then s.(slot := Some(s.setter.d), setter := Outside)
      else s.(setter := Draining(s.setter.d))
    case Drain => s.(slot := None, setter := Refilling(s.setter.d))
    case Refill => s.(slot := Some(s.setter.d), setter := Outside)
    case LoopReceive => s.(slot := None, applied := s.applied + [s.slot.value])
  }

  ghost predicate IsRun(tr: seq<State>, acts: seq<Action>) {
    && |tr| == |acts| + 1 && tr[0] == INITIAL
    && forall i :: 0 <= i < |acts| ==> Enabled(tr[i], acts[i]) && tr[i + 1] == Do(tr[i], acts[i])
  }

  // ----- the invariant

  function Pending(s: State): seq<int> { if s.slot.Some? then [s.slot.value] else [] }

  function InHand(s: State): seq<int> { if s.setter.Outside? then [] else [s.setter.d] }

  /** Everything applied, queued or being sent, oldest first. */
  function Flow(s: State): seq<int> { s.applied + Pending(s) + InHand(s) }

  ghost predicate Inv(s: State) {
    && Sublist(Flow(s), s.sets)
    && (s.sets != [] ==> Flow(s) != [] && Last(Flow(s)) == Last(s.sets))
    && (forall i :: 0 <= i < |Flow(s)| ==> Flow(s)[i] >= MIN_INTERVAL)
    && (s.setter.Refilling? ==> s.slot.None?)
  }

  lemma {:induction false} InvCall(s: State, d: int)
    requires Inv(s) && Enabled(s, Call(d))
    ensures Inv(Do(s, Call(d)))
  {
    var x, s' := Clamp(d), Do(s, Call(d));
    SublistSnoc(Flow(s), s.sets, x);
    var flow := Flow(s) + [x];
    assert Flow(s') == flow;
    assert Last(flow) == x == Last(s'.sets);
  }

  lemma {:induction false} InvDrain(s: State)
    requires Inv(s) && Enabled(s, Drain)
    ensures Inv(Do(s, Drain))
  {
    var s' := Do(s, Drain);
    assert Flow(s') == s.applied + InHand(s);
    SublistDelete(s.applied, Pending(s), InHand(s));
    SublistTrans(Flow(s'), Flow(s), s.sets);
    forall i | 0 <= i < |Flow(s')| ensures Flow(s')[i] >= MIN_INTERVAL {
      assert Flow(s')[i] == if i < |s.applied| then Flow(s)[i] else Flow(s)[i + 1];
    }
  }

  lemma {:induction false} InvStep(s: State, a: Action)
    requires Inv(s) && Enabled(s, a)
    ensures Inv(Do(s, a))
  {
    match a
    case Call(d) => InvCall(s, d);
    case Drain => InvDrain(s);
    case _ => assert Flow(Do(s, a)) == Flow(s);
  }

  lemma {:induction false} RunInv(tr: seq<State>, acts: seq<Action>, n: nat)
    requires IsRun(tr, acts) && n < |tr|
    ensures Inv(tr[n])
  {
    if n == 0 {
    } else {
      RunInv(tr, acts, n - 1);
      InvStep(tr[n - 1], acts[n - 1]);
    }
  }

  /** Under every interleaving: what the loop has applied, followed by what is queued, is an
      in-order part of what was set, nothing below the minimum, and outside a call the newest set
      value is the queued one or, with nothing queued, the last one applied. */
  lemma {:induction false} HandOff(tr: seq<State>, acts: seq<Action>, n: nat)
    requires IsRun(tr, acts) && n < |tr|
    ensures var s := tr[n];
            && Sublist(s.applied + Pending(s), s.sets)
            && (forall i :: 0 <= i < |s.applied| ==> s.applied[i] >= MIN_INTERVAL)
            && (s.slot.Some? ==> s.slot.value >= MIN_INTERVAL)
            && (s.setter.Outside? && s.sets != [] ==>
                  if s.slot.Some? then s.slot.value == Last(s.sets)
                  else s.applied != [] && Last(s.applied) == Last(s.sets))
  {
    var s := tr[n];
    RunInv(tr, acts, n);
    var queued := s.applied + Pending(s);
    SublistDelete(queued, InHand(s), []);
    assert queued + [] == queued && queued + InHand(s) + [] == Flow(s);
    SublistTrans(queued, Flow(s), s.sets);
    forall i | 0 <= i < |queued| ensures queued[i] >= MIN_INTERVAL { assert Flow(s)[i] == queued[i]; }
    forall i | 0 <= i < |s.applied| ensures s.applied[i] >= MIN_INTERVAL { assert queued[i] == s.applied[i]; }
    if s.slot.Some? { assert queued[|s.applied|] == s.slot.value; }
    if s.setter.Outside? { assert Flow(s) == queued; }
  }

  /** The arguments of the calls made so far, each raised to a second if below it. */
  ghost function Requested(acts: seq<Action>): seq<int> {
    if acts == [] then []
    else
      match Last(acts)
      case Call(d) => Requested(Init(acts)) + [if d < 1_000_000_000 then 1_000_000_000 else d]
      case _ => Requested(Init(acts))
  }

  ghost function Receives(acts: seq<Action>): nat {
    if acts == [] then 0 else Receives(Init(acts)) + if Last(acts).LoopReceive? then 1 else 0
  }

  /** The recorded values are those of the calls and receives that took place: no call is dropped or
      altered, and each receive resets the ticker once. */
  lemma {:induction false} RecordsAreActions(tr: seq<State>, acts: seq<Action>, n: nat)
    requires IsRun(tr, acts) && n < |tr|
    ensures tr[n].sets == Requested(acts[..n]) && |tr[n].applied| == Receives(acts[..n])
  {
    if n == 0 {
    } else {
      RecordsAreActions(tr, acts, n - 1);
      assert Init(acts[..n]) == acts[..n - 1] && Last(acts[..n]) == acts[n - 1];
    }
  }

  // ----- the call that never returns

  /** A call is in progress and none of the setter's own steps can be taken. */
  predicate Blocked(s: State) {
    !s.setter.Outside? && !Enabled(s, Select) && !Enabled(s, Drain) && !Enabled(s, Refill)
  }

  /** The only blocked states are those where the loop emptied the slot behind the default arm. */
  lemma {:induction false} BlockedExactly(tr: seq<State>, acts: seq<Action>, n: nat)
    requires IsRun(tr, acts) && n < |tr|
    ensures Blocked(tr[n]) <==> tr[n].setter.Draining? && tr[n].slot.None?
  {
    RunInv(tr, acts, n);
  }

  /** The loop receives while the setter stands between choosing the default arm and draining. */
  ghost predicate StolenAt(tr: seq<State>, acts: seq<Action>, i: nat)
    requires IsRun(tr, acts) && i < |acts|
  {
    acts[i].LoopReceive? && tr[i].setter.Draining?
  }

  ghost predicate Stolen(tr: seq<State>, acts: seq<Action>, n: nat)
    requires IsRun(tr, acts) && n < |tr|
  {
    exists i :: 0 <= i < n && StolenAt(tr, acts, i)
  }

  /** A blocked state has no successor: the call never returns, the loop never receives again, and
      the newest value is still in the setter's hands. */
  lemma {:induction false} BlockedForGood(tr: seq<State>, acts: seq<Action>, n: nat)
    requires IsRun(tr, acts) && n < |tr| && Blocked(tr[n])
    ensures n == |tr| - 1 && forall a :: !Enabled(tr[n], a)
    ensures tr[n].slot.None? && tr[n].sets != [] && InHand(tr[n]) == [Last(tr[n].sets)]
  {
    RunInv(tr, acts, n);
  }

  lemma {:induction false} StealStep(s: State, a: Action)
    requires Inv(s) && Enabled(s, a)
    ensures !Blocked(s)
    ensures Blocked(Do(s, a)) <==> a.LoopReceive? && s.setter.Draining?
  {
  }

  /** A call ends up blocked exactly when the loop received in that window. */
  lemma {:induction false} BlockedIffStolen(tr: seq<State>, acts: seq<Action>, n: nat)
    requires IsRun(tr, acts) && n < |tr|
    ensures Blocked(tr[n]) <==> Stolen(tr, acts, n)
  {
    if n == 0 {
    } else {
      BlockedIffStolen(tr, acts, n - 1);
      RunInv(tr, acts, n - 1);
      StealStep(tr[n - 1], acts[n - 1]);
      assert Stolen(tr, acts, n) <==> Stolen(tr, acts, n - 1) || StolenAt(tr, acts, n - 1);
    }
  }

  /** The window is real: two calls with one receive in between suffice. */
  lemma {:induction false} WindowExists(d: int, e: int) returns (tr: seq<State>, acts: seq<Action>)
    ensures IsRun(tr, acts) && Blocked(Last(tr))
    ensures Last(tr).sets == [Clamp(d), Clamp(e)] && Last(tr).applied == [Clamp(d)]
  {
    acts := [Call(d), Select, Call(e), Select, LoopReceive];
    var s1 := Do(INITIAL, Call(d));
    var s2 := Do(s1, Select);
    var s3 := Do(s2, Call(e));
    var s4 := Do(s3, Select);
    var s5 := Do(s4, LoopReceive);
    tr := [INITIAL, s1, s2, s3, s4, s5];
  }
}
