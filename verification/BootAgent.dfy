// applyBootNetworkConfig and the pfSense manager calls it makes, as code acting
// on the persistent config and marker file.
module BootAgent {
  import opened Common
  import opened NetConfig
  import opened Provisioning
  import PlanBuilding
  import LiveConfig
  import NetTheorems

  class Agent {
    var config: Config
    var marker: bool

    constructor (c: Config)
      ensures config == c && !marker
    {
      config, marker := c, false;
    }

    /** Runs apply.php in a process of its own: it rewrites a private copy and persists it with
        write_config, if it gets that far. */
    method RunApply(plan: seq<Entry>, how: Script, ghost job: Job)
      requires DistinctNames(Ifaces(config))
      requires job.apply(config) == Apply(config, plan)
      modifies this`config
      ensures config == if how.Persisted() then job.apply(old(config)) else old(config)
      ensures DistinctNames(Ifaces(config))
    {
      var tree := new LiveConfig.Tree(config);
      NetTheorems.BindingsStayUnique(config, plan);
      var _ := tree.ApplyPlan(plan);
      if how.Persisted() { config := tree.Value(); }
    }

    method RunRestore(snap: Snapshot, how: Script)
      requires DistinctNames(Ifaces(config)) && DistinctNames(snap.interfaces)
      modifies this`config
      ensures config == if how.Persisted() then Restore(old(config), snap) else old(config)
    {
      var tree := new LiveConfig.Tree(config);
      tree.RestoreSnapshot(snap);
      if how.Persisted() { config := tree.Value(); }
    }

    method WriteMarker(how: MarkerWrite) returns (ok: bool)
      modifies this`marker
      ensures marker == (old(marker) || how.Written? || how.created)
      ensures ok == how.Written?
    {
      ok := how.Written?;
      if ok || how.created { marker := true; }
    }

    /** The second half of applyBootNetworkConfig: probe, then revert or write the marker. */
    method ProbeAndSettle(saved: Option<Snapshot>, ran: Option<Script>, w: World, ghost job: Job, ghost start: Config)
      returns (report: Report)
      requires DistinctNames(Ifaces(config)) && (saved.Some? ==> DistinctNames(saved.value.interfaces))
      modifies this
      ensures Box(config, marker, Done(report), start) ==
              Complete(job, w, Box(old(config), old(marker), Probing(saved, ran), start))
    {
      ghost var s2 := Box(config, marker, Probing(saved, ran), start);
      ghost var s3 := StepBoot(job, w, s2);
      if w.probe.Unreachable? {
        if saved.None? { return NoSnapshot(ran); }
        RunRestore(saved.value, w.revert);
        report := if w.revert.Clean? then Reverted else RevertFailed;
      } else {
        var ok := WriteMarker(w.marker);
        report := if ok then Marked(w.probe, ran) else MarkerFailed(w.probe, ran);
      }
      assert Box(config, marker, Done(report), start) == StepBoot(job, w, s3);
      assert Complete(job, w, s3) == StepBoot(job, w, s3);
    }

    /** Plan in hand: snapshot, apply, then probe. */
    method SnapshotAndApply(plan: seq<Entry>, w: World, ghost job: Job) returns (report: Report)
      requires DistinctNames(Ifaces(config))
      requires job.hasPlan && job.apply(config) == Apply(config, plan)
      modifies this
      ensures Box(config, marker, Done(report), old(config)) ==
              Complete(job, w, Box(old(config), old(marker),
                                   match w.snapshot
                                   case Refused => Done(SnapshotFailed)
                                   case Blank => Applying(None)
                                   case Taken => Applying(Some(Take(old(config)))),
                                   old(config)))
    {
      if w.snapshot.Refused? { return SnapshotFailed; }
      var saved := None;
      if w.snapshot.Taken? {
        var tree := new LiveConfig.Tree(config);
        var snap := tree.TakeSnapshot();
        saved := Some(snap);
      }
      ghost var s1 := Box(config, marker, Applying(saved), config);
      RunApply(plan, w.apply, job);
      assert config == StepBoot(job, w, s1).config;
      if w.apply.WrittenGarbled? { return OutputGarbled; }
      report := ProbeAndSettle(saved, Some(w.apply), w, job, old(config));
    }

    /** One uninterrupted boot ends exactly where the machine's steps lead. */
    method ApplyBootNetworkConfig(cards: seq<PlanBuilding.Card>, nics: seq<PlanBuilding.Nic>, w: World)
      returns (report: Report)
      requires DistinctNames(Ifaces(config))
      modifies this
      ensures Box(config, marker, Done(report), old(config)) ==
              Complete(JobOf(cards, nics), w, Box(old(config), old(marker), Idle, old(config)))
      ensures report.Marked? ==> marker
    {
      ghost var job := JobOf(cards, nics);
      EndMarker(job, w, Box(config, marker, Idle, config));
      EndReport(job, w, Box(config, marker, Idle, config));
      if marker && !w.markerHidden { return AlreadyMarked; }
      if cards == [] { return NoCards; }
      if !w.interfacesListed { return ListFailed; }
      var _, plan := PlanBuilding.BuildPlan(cards, nics);
      if plan == [] {
        report := ProbeAndSettle(None, None, w, job, config);
      } else {
        report := SnapshotAndApply(plan, w, job);
      }
    }
  }
}
