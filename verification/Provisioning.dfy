// Boot-time network provisioning as a machine: marker check, plan, snapshot,
// apply, probe, then marker or revert.  Every script, probe and file operation
// may go any way, the machine may lose power between any two steps, and the
// config and marker survive into the next boot.
module Provisioning {
  import opened Common
  import opened NetConfig
  import opened NetTheorems
  import PlanBuilding

  /** What a boot needs to know of its fixed inputs: whether the metadata lists NICs, whether any
      of them made it into the plan, and what apply.php does with that plan. */
  datatype Inputs = Inputs(hasCards: bool, hasPlan: bool, apply: Config -> Config)

  /** apply.php settles in one run, reads absent paths as their defaults, and stays inside the
      paths a snapshot covers; an empty plan changes nothing. */
  ghost predicate Lawful(job: Inputs) {
    && (forall c {:trigger job.apply(job.apply(c))} :: job.apply(job.apply(c)) == job.apply(c))
    && (forall c {:trigger job.apply(Normal(c))} :: job.apply(Normal(c)) == Normal(job.apply(c)))
    && (forall c {:trigger job.apply(c).rest} :: job.apply(c).rest == c.rest)
    && (!job.hasPlan ==> forall c :: job.apply(c) == c)
  }

  type Job = job: Inputs | Lawful(job) ghost witness Inputs(false, false, c => c)

  /** The job of a machine with these metadata NICs and local interfaces. */
  ghost function JobOf(cards: seq<PlanBuilding.Card>, nics: seq<PlanBuilding.Nic>): (job: Job)
    ensures job.hasCards == (cards != []) && job.hasPlan == (PlanBuilding.Plan(cards, nics) != [])
    ensures forall c :: job.apply(c) == Apply(c, PlanBuilding.Plan(cards, nics))
  {
    var plan := PlanBuilding.Plan(cards, nics);
    ApplySettles(plan);
    ApplyReadsDefaults(plan);
    ApplyStaysInside(plan);
    Inputs(cards != [], plan != [], c => Apply(c, plan))
  }

  lemma {:induction false} ApplySettles(plan: seq<Entry>)
    ensures forall c :: Apply(Apply(c, plan), plan) == Apply(c, plan)
  {
    forall c { ApplyIdempotent(c, plan); }
  }

  lemma {:induction false} ApplyReadsDefaults(plan: seq<Entry>)
    ensures forall c :: Apply(Normal(c), plan) == Normal(Apply(c, plan))
  {
    forall c { ApplyNormal(c, plan); }
  }

  lemma {:induction false} ApplyStaysInside(plan: seq<Entry>)
    ensures forall c :: Apply(c, plan).rest == c.rest
  {
    forall c { ApplyFrame(c, plan, 0); }
  }

  /** How a PHP script run ends: before write_config, killed or failing after it, exiting 0 with
      output the agent cannot use, or cleanly.  write_config itself is atomic. */
  datatype Script = NotWritten | WrittenThenFailed | WrittenGarbled | Clean {
    predicate Persisted() { !NotWritten? }
  }

  /** snapshot.php fails, exits 0 printing nothing, or prints the snapshot. */
  datatype SnapshotRun = Refused | Blank | Taken

  datatype Probe = Connected | AuthRejected | Unreachable

  datatype MarkerWrite = Written | Failed(created: bool)

  /** One resolution of everything the agent does not control during a boot. */
  datatype World = World(
    markerHidden: bool, interfacesListed: bool, snapshot: SnapshotRun,
    apply: Script, probe: Probe, revert: Script, marker: MarkerWrite)

  datatype Report =
    | AlreadyMarked | NoCards | ListFailed | SnapshotFailed | OutputGarbled
    | NoSnapshot(ran: Option<Script>) | RevertFailed | Reverted
    | MarkerFailed(probe: Probe, ran: Option<Script>)
    | Marked(probe: Probe, ran: Option<Script>)

  /** Where the boot sequence stands.  `ran` is how apply.php ended, None if the plan was empty. */
  datatype Phase =
    | Idle
    | Applying(saved: Option<Snapshot>)
    | Probing(saved: Option<Snapshot>, ran: Option<Script>)
    | Reverting(snap: Snapshot)
    | Marking(probe: Probe, ran: Option<Script>)
    | Done(report: Report)

  /** `start` records the config the current boot began with. */
  datatype Box = Box(config: Config, marker: bool, phase: Phase, start: Config)

  function StepBoot(job: Job, w: World, s: Box): Box {
    match s.phase
    case Idle =>
      s.(start := s.config,
         phase := if s.marker && !w.markerHidden then Done(AlreadyMarked)
                  else if !job.hasCards then Done(NoCards)
                  else if !w.interfacesListed then Done(ListFailed)
                  else if !job.hasPlan then Probing(None, None)
                  else if w.snapshot.Refused? then Done(SnapshotFailed)
                  else Applying(if w.snapshot.Taken? then Some(Take(s.config)) else None))
    case Applying(saved) =>
      s.(config := if w.apply.Persisted() then job.apply(s.config) else s.config,
         phase := if w.apply.WrittenGarbled? then Done(OutputGarbled) else Probing(saved, Some(w.apply)))
    case Probing(saved, ran) =>
      s.(phase := if w.probe.Unreachable? then
                    if saved.None? then Done(NoSnapshot(ran)) else Reverting(saved.value)
                  else Marking(w.probe, ran))
    case Reverting(snap) =>
      s.(config := if w.revert.Persisted() then Restore(s.config, snap) else s.config,
         phase := Done(if w.revert.Clean? then Reverted else RevertFailed))
    case Marking(probe, ran) =>
      if w.marker.Written? then s.(marker := true, phase := Done(Marked(probe, ran)))
      else s.(marker := s.marker || w.marker.created, phase := Done(MarkerFailed(probe, ran)))
    case Done(_) => s
  }

  /** Power loss or the next start: only the config and the marker file survive. */
  function Reboot(s: Box): Box { s.(phase := Idle) }

  /** An act is one step's world, or None for a reboot. */
  function StepAct(job: Job, act: Option<World>, s: Box): Box {
    if act.Some? then StepBoot(job, act.value, s) else Reboot(s)
  }

  ghost predicate IsRun(job: Job, tr: seq<Box>, acts: seq<Option<World>>) {
    && |tr| == |acts| + 1
    && forall i :: 0 <= i < |acts| ==> tr[i + 1] == StepAct(job, acts[i], tr[i])
  }

  // ----- the four configs

  /** c0, c0 with its defaults spelled out, and the same two after apply.php. */
  ghost predicate Expected(job: Job, c0: Config, c: Config) {
    var a := job.apply(c0);
    c == c0 || c == Normal(c0) || c == a || c == Normal(a)
  }

  lemma {:induction false} ExpectedClosed(job: Job, c0: Config, c: Config)
    requires Expected(job, c0, c)
    ensures Expected(job, c0, job.apply(c)) && Expected(job, c0, Normal(c))
  {
  }

  // ----- the invariant

  /** apply.php did to the config what `ran` says, and nothing else did anything. */
  ghost predicate Settled(job: Job, s: Box, ran: Option<Script>) {
    && (ran.None? <==> !job.hasPlan)
    && s.config == if ran.Some? && ran.value.Persisted() then job.apply(s.start) else s.start
  }

  /** A snapshot in hand is of the config the boot started from. */
  ghost predicate SavedStart(s: Box, saved: Option<Snapshot>) { saved.Some? ==> saved.value == Take(s.start) }

  ghost predicate PhaseInv(job: Job, s: Box) {
    match s.phase
    case Idle => true
    case Applying(saved) => job.hasPlan && s.config == s.start && SavedStart(s, saved)
    case Probing(saved, ran) => Settled(job, s, ran) && SavedStart(s, saved)
    case Reverting(snap) => snap == Take(s.start) && (s.config == s.start || s.config == job.apply(s.start))
    case Marking(probe, ran) => !probe.Unreachable? && Settled(job, s, ran)
    case Done(report) =>
      match report
      case Marked(probe, ran) => s.marker && !probe.Unreachable? && Settled(job, s, ran)
      case MarkerFailed(probe, ran) => !probe.Unreachable? && Settled(job, s, ran)
      case NoSnapshot(ran) => Settled(job, s, ran)
      case Reverted => s.config == Normal(s.start)
      case RevertFailed => s.config in {s.start, job.apply(s.start), Normal(s.start)}
      case OutputGarbled => s.config == job.apply(s.start)
      case _ => s.config == s.start
  }

  ghost predicate Inv(job: Job, c0: Config, s: Box) {
    Expected(job, c0, s.config) && (s.phase.Idle? || Expected(job, c0, s.start)) && PhaseInv(job, s)
  }

  lemma {:induction false} InvStep(job: Job, c0: Config, s: Box, act: Option<World>)
    requires Inv(job, c0, s)
    ensures Inv(job, c0, StepAct(job, act, s))
  {
    if act.Some? {
      match s.phase
      case Applying(_) => InvApplying(job, c0, s, act.value);
      case Reverting(_) => InvReverting(job, c0, s, act.value);
      case _ => InvQuiet(job, c0, s, act.value);
    }
  }

  lemma {:induction false} InvApplying(job: Job, c0: Config, s: Box, w: World)
    requires Inv(job, c0, s) && s.phase.Applying?
    ensures Inv(job, c0, StepBoot(job, w, s))
  {
    ExpectedClosed(job, c0, s.config);
  }

  lemma {:induction false} InvReverting(job: Job, c0: Config, s: Box, w: World)
    requires Inv(job, c0, s) && s.phase.Reverting?
    ensures Inv(job, c0, StepBoot(job, w, s))
  {
    ExpectedClosed(job, c0, s.start);
    assert job.apply(s.start).rest == s.start.rest;
    RestoreInverts(s.start, s.config);
  }

  /** The steps that leave the config alone. */
  lemma {:induction false} InvQuiet(job: Job, c0: Config, s: Box, w: World)
    requires Inv(job, c0, s) && !s.phase.Applying? && !s.phase.Reverting?
    ensures Inv(job, c0, StepBoot(job, w, s))
  {
  }

  lemma {:induction false} RunInv(job: Job, c0: Config, tr: seq<Box>, acts: seq<Option<World>>, n: nat)
    requires IsRun(job, tr, acts) && n < |tr|
    requires tr[0].phase.Idle? && tr[0].config == c0
    ensures Inv(job, c0, tr[n])
  {
    if n == 0 {
    } else {
      RunInv(job, c0, tr, acts, n - 1);
      InvStep(job, c0, tr[n - 1], acts[n - 1]);
    }
  }

  // ----- convergence

  /** At every point of every run the config reads as the original or as the original with the
      plan applied: never anything in between, whatever fails and wherever power is lost. */
  lemma {:induction false} Convergence(job: Job, tr: seq<Box>, acts: seq<Option<World>>, n: nat)
    requires IsRun(job, tr, acts) && n < |tr| && tr[0].phase.Idle?
    ensures var c0 := tr[0].config;
            && Expected(job, c0, tr[n].config)
            && Normal(tr[n].config) in {Normal(c0), Normal(job.apply(c0))}
  {
    RunInv(job, tr[0].config, tr, acts, n);
  }

  /** The same for a machine with given metadata and interfaces, spelled out. */
  lemma {:induction false} BootsConverge(
      cards: seq<PlanBuilding.Card>, nics: seq<PlanBuilding.Nic>, tr: seq<Box>, acts: seq<Option<World>>, n: nat)
    requires IsRun(JobOf(cards, nics), tr, acts) && n < |tr| && tr[0].phase.Idle?
    ensures var c0 := tr[0].config; var applied := Apply(c0, PlanBuilding.Plan(cards, nics));
            tr[n].config in {c0, Normal(c0), applied, Normal(applied)}
  {
    var job := JobOf(cards, nics);
    Convergence(job, tr, acts, n);
    assert job.apply(tr[0].config) == Apply(tr[0].config, PlanBuilding.Plan(cards, nics));
  }

  /** Once a boot starts from an applied config there is no way back to the original. */
  lemma {:induction false} NoWayBack(job: Job, c0: Config, tr: seq<Box>, acts: seq<Option<World>>, n: nat)
    requires IsRun(job, tr, acts) && n < |tr| && tr[0].phase.Idle?
    requires Normal(tr[0].config) == Normal(job.apply(c0))
    ensures Normal(tr[n].config) == Normal(job.apply(c0))
  {
    Convergence(job, tr, acts, n);
    assert Normal(job.apply(tr[0].config)) == job.apply(Normal(tr[0].config)) == job.apply(Normal(job.apply(c0)));
  }

  /** Each of the four configs is reached by some run: the description is tight. */
  lemma {:induction false} AllReached(job: Job, c0: Config, target: Config)
    returns (tr: seq<Box>, acts: seq<Option<World>>)
    requires job.hasCards && job.hasPlan && Expected(job, c0, target)
    ensures IsRun(job, tr, acts) && tr[0] == Box(c0, false, Idle, c0)
    ensures Last(tr).config == target
  {
    var a := job.apply(c0);
    var good := World(false, true, Taken, Clean, Unreachable, Clean, Written);
    var s0 := Box(c0, false, Idle, c0);
    var s1 := StepBoot(job, good, s0);
    var s2 := StepBoot(job, good, s1);
    var s3 := StepBoot(job, good, s2);
    if target == c0 {
      tr, acts := [s0], [];
    } else if target == a {
      tr, acts := [s0, s1, s2], [Some(good), Some(good)];
    } else if target == Normal(c0) {
      var s4 := StepBoot(job, good, s3);
      tr, acts := [s0, s1, s2, s3, s4], [Some(good), Some(good), Some(good), Some(good)];
    } else {
      var t0 := Reboot(s2);
      var t1 := StepBoot(job, good, t0);
      var t2 := StepBoot(job, good, t1);
      var t3 := StepBoot(job, good, t2);
      var t4 := StepBoot(job, good, t3);
      assert t2.config == a && t4.config == Restore(a, Take(a));
      tr := [s0, s1, s2, t0, t1, t2, t3, t4];
      acts := [Some(good), Some(good), None, Some(good), Some(good), Some(good), Some(good)];
    }
  }

  // ----- reports

  /** A boot that reports "reverted" ends reading exactly as it began. */
  lemma {:induction false} RevertedIsUndone(job: Job, tr: seq<Box>, acts: seq<Option<World>>, n: nat)
    requires IsRun(job, tr, acts) && n < |tr| && tr[0].phase.Idle?
    requires tr[n].phase == Done(Reverted)
    ensures tr[n].config == Normal(tr[n].start) && Take(tr[n].config) == Take(tr[n].start)
  {
    RunInv(job, tr[0].config, tr, acts, n);
  }

  /** A boot reported as marked has its marker, after a probe that reached the platform.  Its config is
      the start config with the plan applied exactly when apply.php got as far as write_config or
      the plan changes nothing there. */
  lemma {:induction false} MarkedMeans(job: Job, tr: seq<Box>, acts: seq<Option<World>>, n: nat)
    requires IsRun(job, tr, acts) && n < |tr| && tr[0].phase.Idle?
    requires tr[n].phase.Done? && tr[n].phase.report.Marked?
    ensures var s := tr[n]; var ran := s.phase.report.ran;
            && s.marker && s.phase.report.probe in {Connected, AuthRejected}
            && (ran.None? <==> !job.hasPlan)
            && (s.config == job.apply(s.start) <==>
                  (ran.Some? && ran.value.Persisted()) || job.apply(s.start) == s.start)
            && (s.config == s.start || s.config == job.apply(s.start))
            && (ran.Some? && ran.value.Persisted() ==> Normal(s.config) == Normal(job.apply(tr[0].config)))
  {
    RunInv(job, tr[0].config, tr, acts, n);
  }

  /** A failed apply.php does not stop the boot from being marked done: if the platform answers
      over the old network settings, the plan is never applied. */
  lemma {:induction false} MarkedWithoutApplying(job: Job, c0: Config)
    returns (tr: seq<Box>, acts: seq<Option<World>>)
    requires job.hasCards && job.hasPlan && job.apply(c0) != c0
    ensures IsRun(job, tr, acts) && tr[0] == Box(c0, false, Idle, c0)
    ensures Last(tr).phase == Done(Marked(Connected, Some(NotWritten))) && Last(tr).marker
    ensures Last(tr).config == c0 != job.apply(c0)
  {
    var w := World(false, true, Taken, NotWritten, Connected, Clean, Written);
    var s0 := Box(c0, false, Idle, c0);
    var s1 := StepBoot(job, w, s0);
    var s2 := StepBoot(job, w, s1);
    var s3 := StepBoot(job, w, s2);
    var s4 := StepBoot(job, w, s3);
    tr, acts := [s0, s1, s2, s3, s4], [Some(w), Some(w), Some(w), Some(w)];
  }

  // ----- the marker

  /** No step of any run unsets the marker, and only a boot whose probe was answered sets it. */
  lemma {:induction false} MarkerStep(job: Job, tr: seq<Box>, acts: seq<Option<World>>, n: nat)
    requires IsRun(job, tr, acts) && n < |acts| && tr[0].phase.Idle?
    ensures tr[n].marker ==> tr[n + 1].marker
    ensures !tr[n].marker && tr[n + 1].marker ==> tr[n].phase.Marking? && tr[n].phase.probe in {Connected, AuthRejected}
  {
    RunInv(job, tr[0].config, tr, acts, n);
  }

  ghost predicate MarkerReadable(acts: seq<Option<World>>) {
    forall i :: 0 <= i < |acts| && acts[i].Some? ==> !acts[i].value.markerHidden
  }

  lemma {:induction false} MarkedIsQuiet(job: Job, tr: seq<Box>, acts: seq<Option<World>>, n: nat)
    requires IsRun(job, tr, acts) && n < |tr| && tr[0].phase.Idle? && MarkerReadable(acts)
    ensures tr[n].marker ==> tr[n].phase.Idle? || tr[n].phase.Done?
  {
    if n == 0 {
    } else {
      MarkedIsQuiet(job, tr, acts, n - 1);
      assert tr[n] == StepAct(job, acts[n - 1], tr[n - 1]);
    }
  }

  /** While the marker file can be read, nothing after it changes the network config. */
  lemma {:induction false} MarkerFreezes(job: Job, tr: seq<Box>, acts: seq<Option<World>>, i: nat, n: nat)
    requires IsRun(job, tr, acts) && i <= n < |tr| && tr[0].phase.Idle? && MarkerReadable(acts)
    requires tr[i].marker
    ensures tr[n].marker && tr[n].config == tr[i].config
  {
    if i == n {
    } else {
      MarkerFreezes(job, tr, acts, i, n - 1);
      MarkedIsQuiet(job, tr, acts, n - 1);
      assert tr[n] == StepAct(job, acts[n - 1], tr[n - 1]);
    }
  }

  /** The proviso matters: a marker that cannot be read is ignored, and the plan is applied. */
  lemma {:induction false} UnreadableMarkerIgnored(job: Job, c0: Config)
    returns (tr: seq<Box>, acts: seq<Option<World>>)
    requires job.hasCards && job.hasPlan && job.apply(c0) != c0
    ensures IsRun(job, tr, acts) && tr[0] == Box(c0, true, Idle, c0)
    ensures Last(tr).marker && Last(tr).config == job.apply(c0) != c0
  {
    var w := World(true, true, Taken, Clean, Connected, Clean, Written);
    var s0 := Box(c0, true, Idle, c0);
    var s1 := StepBoot(job, w, s0);
    var s2 := StepBoot(job, w, s1);
    tr, acts := [s0, s1, s2], [Some(w), Some(w)];
  }

  // ----- a whole boot

  function Rank(p: Phase): nat {
    match p
    case Idle => 4
    case Applying(_) => 3
    case Probing(_, _) => 2
    case Reverting(_) => 1
    case Marking(_, _) => 1
    case Done(_) => 0
  }

  /** A boot that is not interrupted: steps under one world until it reports. */
  function Complete(job: Job, w: World, s: Box): Box
    decreases Rank(s.phase)
  {
    if s.phase.Done? then s else Complete(job, w, StepBoot(job, w, s))
  }

  /** The boot gets as far as running apply.php. */
  predicate RunsApply(job: Job, w: World, marker: bool) {
    !(marker && !w.markerHidden) && job.hasCards && w.interfacesListed && job.hasPlan && !w.snapshot.Refused?
  }

  /** Nothing is restored afterwards: the output could not be used, the probe was answered, there
      was no snapshot, or restore.php did not reach write_config. */
  predicate NothingRestored(w: World) {
    w.apply.WrittenGarbled? || !w.probe.Unreachable? || w.snapshot.Blank? || !w.revert.Persisted()
  }

  /** An uninterrupted boot takes at most four steps. */
  lemma {:induction false} BootUnrolled(job: Job, w: World, s: Box)
    requires s.phase.Idle?
    ensures var s2 := StepBoot(job, w, StepBoot(job, w, s));
            Complete(job, w, s) == StepBoot(job, w, StepBoot(job, w, s2))
  {
    var s1 := StepBoot(job, w, s);
    var s2 := StepBoot(job, w, s1);
    var s3 := StepBoot(job, w, s2);
    var s4 := StepBoot(job, w, s3);
    assert Complete(job, w, s) == Complete(job, w, s1) == Complete(job, w, s2);
    assert Complete(job, w, s2) == Complete(job, w, s3) == Complete(job, w, s4) == s4;
  }

  /** The config an uninterrupted boot ends with. */
  lemma {:induction false} EndConfig(job: Job, w: World, s: Box)
    requires s.phase.Idle?
    ensures Complete(job, w, s).config ==
            if !RunsApply(job, w, s.marker) then s.config
            else if !NothingRestored(w) then Normal(s.config)
            else if w.apply.Persisted() then job.apply(s.config)
            else s.config
  {
    BootUnrolled(job, w, s);
    assert job.apply(s.config).rest == s.config.rest;
  }

  /** The boot gets as far as probing the platform. */
  predicate ReachesProbe(job: Job, w: World, marker: bool) {
    && !(marker && !w.markerHidden) && job.hasCards && w.interfacesListed
    && (!job.hasPlan || (!w.snapshot.Refused? && !w.apply.WrittenGarbled?))
  }

  /** The marker after an uninterrupted boot: there already, or left by a write that followed an
      answered probe, credentials refused or not. */
  lemma {:induction false} EndMarker(job: Job, w: World, s: Box)
    requires s.phase.Idle?
    ensures Complete(job, w, s).marker <==>
            s.marker || (ReachesProbe(job, w, s.marker) && w.probe in {Connected, AuthRejected}
                         && w.marker in {Written, Failed(true)})
  {
    BootUnrolled(job, w, s);
  }

  /** What an uninterrupted boot reports, from what happened during it. */
  lemma {:induction false} EndReport(job: Job, w: World, s: Box)
    requires s.phase.Idle?
    ensures var ran := if job.hasPlan then Some(w.apply) else None;
            var saved := job.hasPlan && w.snapshot.Taken?;
            Complete(job, w, s).phase == Done(
              if ReachesProbe(job, w, s.marker) then
                if w.probe != Unreachable then
                  if w.marker == Written then Marked(w.probe, ran) else MarkerFailed(w.probe, ran)
                else if !saved then NoSnapshot(ran)
                else if w.revert == Clean then Reverted else RevertFailed
              else if s.marker && !w.markerHidden then AlreadyMarked
              else if !job.hasCards then NoCards
              else if !w.interfacesListed then ListFailed
              else if w.snapshot == Refused then SnapshotFailed
              else OutputGarbled)
  {
    BootUnrolled(job, w, s);
  }

  /** An uninterrupted boot ends reading as applied exactly when apply.php reached write_config and
      nothing was restored, or when applying makes no difference; from then on every run does. */
  lemma {:induction false} EndOfBoot(job: Job, w: World, s: Box, tr: seq<Box>, acts: seq<Option<World>>, n: nat)
    requires s.phase.Idle?
    requires IsRun(job, tr, acts) && n < |tr| && tr[0] == Reboot(Complete(job, w, s))
    ensures var e, a := Normal(tr[0].config), Normal(job.apply(s.config));
            && (e == a <==> a == Normal(s.config) || (RunsApply(job, w, s.marker) && w.apply.Persisted() && NothingRestored(w)))
            && (e == a ==> Normal(tr[n].config) == a)
            && (e != a ==> e == Normal(s.config))
  {
    EndConfig(job, w, s);
    if Normal(tr[0].config) == Normal(job.apply(s.config)) { NoWayBack(job, s.config, tr, acts, n); }
  }

  /** An uninterrupted boot is a run of the machine. */
  lemma {:induction false} CompleteIsRun(job: Job, w: World, s: Box) returns (tr: seq<Box>, acts: seq<Option<World>>)
    ensures IsRun(job, tr, acts) && tr[0] == s && Last(tr) == Complete(job, w, s)
    ensures Last(tr).phase.Done?
    ensures forall i :: 0 <= i < |acts| ==> acts[i] == Some(w)
    decreases Rank(s.phase)
  {
    if s.phase.Done? {
      tr, acts := [s], [];
    } else {
      var rest, restActs := CompleteIsRun(job, w, StepBoot(job, w, s));
      tr, acts := [s] + rest, [Some(w)] + restActs;
      assert Last(tr) == Last(rest);
    }
  }
}
