// Growing a partition and its filesystem by external tools, installing a tool
// on demand.  The command runner is arbitrary: the outcome of a command may
// depend on everything run before it.
module DiskGrow {
  import opened Common
  import DeviceName

  datatype Command = Command(bin: string, args: seq<string>)

  /** exec.ErrNotFound and "NOCHANGE" in the output are independent of each other. */
  datatype Outcome = Success | Failure(notFound: bool, noChange: bool)

  /** The outcome of the last command of a history. */
  type Runner = seq<Command> -> Outcome

  predicate Fine(o: Outcome): (yes: bool)
    ensures yes <==> o in {Success, Failure(false, true), Failure(true, true)}
  {
    o.Success? || o.noChange
  }

  predicate Absent(o: Outcome): (yes: bool)
    ensures yes <==> o == Failure(true, false)
  {
    !Fine(o) && o.notFound
  }

  function Managers(apt: string, rhel: string): seq<Command> {
    [Command("apt-get", ["install", "-y", apt]), Command("dnf", ["install", "-y", rhel]),
     Command("yum", ["install", "-y", rhel])]
  }

  // ----- the commands issued, as a function of the runner

  /** The history after an operation and whether it succeeded. */
  datatype Done = Done(history: seq<Command>, ok: bool)

  function InstallFrom(run: Runner, h: seq<Command>, managers: seq<Command>): Done
    decreases |managers|
  {
    if managers == [] then Done(h, false)
    else
      var h' := h + [managers[0]];
      if run(h').Success? then Done(h', true) else InstallFrom(run, h', managers[1..])
  }

  function RunOrInstall(run: Runner, h: seq<Command>, tool: Command, apt: string, rhel: string): Done {
    var first := h + [tool];
    if !Absent(run(first)) then Done(first, Fine(run(first)))
    else
      var installed := InstallFrom(run, first, Managers(apt, rhel));
      if !installed.ok then installed
      else
        var again := installed.history + [tool];
        Done(again, Fine(run(again)))
  }

  predicate Supported(fstype: string) { fstype in ["ext2", "ext3", "ext4", "xfs"] }

  function FsTool(device: string, fstype: string, target: string): Command {
    if fstype == "xfs" then Command("xfs_growfs", [target]) else Command("resize2fs", [device])
  }

  function FsPackage(fstype: string): string { if fstype == "xfs" then "xfsprogs" else "e2fsprogs" }

  function PartitionTool(parts: (string, string)): Command { Command("growpart", ["/dev/" + parts.0, parts.1]) }

  function GrowFs(run: Runner, h: seq<Command>, device: string, fstype: string, target: string): Done {
    if Supported(fstype) then
      RunOrInstall(run, h, FsTool(device, fstype, target), FsPackage(fstype), FsPackage(fstype))
    else Done(h, false)
  }

  function Grow(run: Runner, isPartition: bool, device: string, fstype: string, target: string): Done {
    if !isPartition then GrowFs(run, [], device, fstype, target)
    else
      match DeviceName.ParseDevice(KernelName(device))
      case None => Done([], false)
      case Some(parts) =>
        var grown := RunOrInstall(run, [], PartitionTool(parts), "cloud-guest-utils", "cloud-utils-growpart");
        if grown.ok then GrowFs(run, grown.history, device, fstype, target) else grown
  }

  // ----- the code

  class Resizer {
    const run: Runner
    var history: seq<Command>

    constructor (run: Runner)
      ensures this.run == run && history == []
    {
      this.run, history := run, [];
    }

    method Execute(c: Command) returns (o: Outcome)
      modifies this`history
      ensures history == old(history) + [c] && o == run(history)
    {
      history := history + [c];
      o := run(history);
    }

    method InstallPackage(apt: string, rhel: string) returns (ok: bool)
      modifies this`history
      ensures Done(history, ok) == InstallFrom(run, old(history), Managers(apt, rhel))
    {
      var managers := Managers(apt, rhel);
      for i := 0 to |managers|
        invariant InstallFrom(run, history, managers[i..]) == InstallFrom(run, old(history), managers)
      {
        var o := Execute(managers[i]);
        assert managers[i..][1..] == managers[i + 1..];
        if o.Success? { return true; }
      }
      return false;
    }

    method TryTool(tool: Command, apt: string, rhel: string) returns (ok: bool)
      modifies this`history
      ensures Done(history, ok) == RunOrInstall(run, old(history), tool, apt, rhel)
    {
      var o := Execute(tool);
      if o.Success? { return true; }
      if o.noChange { return true; }
      if !o.notFound { return false; }
      var installed := InstallPackage(apt, rhel);
      if !installed { return false; }
      o := Execute(tool);
      return o.Success? || o.noChange;
    }

    method GrowDisk(isPartition: bool, device: string, fstype: string, target: string) returns (ok: bool)
      requires history == []
      modifies this`history
      ensures Done(history, ok) == Grow(run, isPartition, device, fstype, target)
    {
      if isPartition {
        var parts := DeviceName.ParseDevice(KernelName(device));
        if parts.None? { return false; }
        var grown := TryTool(PartitionTool(parts.value), "cloud-guest-utils", "cloud-utils-growpart");
        if !grown { return false; }
      }
      if fstype == "ext2" || fstype == "ext3" || fstype == "ext4" {
        ok := TryTool(Command("resize2fs", [device]), "e2fsprogs", "e2fsprogs");
      } else if fstype == "xfs" {
        ok := TryTool(Command("xfs_growfs", [target]), "xfsprogs", "xfsprogs");
      } else {
        ok := false;
      }
    }
  }

  // ----- the shape of one tool's commands

  /** Exactly k managers were tried in order, all but the last in vain, and all of them if none worked. */
  ghost predicate Installed(run: Runner, h: seq<Command>, ms: seq<Command>, k: nat, ok: bool) {
    && k <= |ms|
    && (forall j :: 0 < j < k ==> !run(h + ms[..j]).Success?)
    && (ok <==> 0 < k && run(h + ms[..k]).Success?)
    && (!ok ==> k == |ms|)
  }

  lemma {:induction false} InstallShape(run: Runner, h: seq<Command>, ms: seq<Command>) returns (k: nat)
    ensures var d := InstallFrom(run, h, ms);
            Installed(run, h, ms, k, d.ok) && d.history == h + ms[..k]
    decreases |ms|
  {
    if ms == [] {
      k := 0;
      assert h + ms[..0] == h;
    } else {
      var h' := h + [ms[0]];
      assert h + ms[..1] == h';
      if run(h').Success? {
        k := 1;
      } else {
        var j := InstallShape(run, h', ms[1..]);
        k := j + 1;
        forall i | 0 < i <= k ensures h + ms[..i] == h' + ms[1..][..i - 1] {
          assert ms[..i] == [ms[0]] + ms[1..][..i - 1];
        }
      }
    }
  }

  /** The tool alone; or the tool, all three managers in vain; or the tool, managers up to the first
      that works, and the tool again.  Managers run only after the tool was not found. */
  ghost predicate ToolShape(run: Runner, h: seq<Command>, tool: Command, ms: seq<Command>, d: Done, k: nat, again: bool) {
    var first := h + [tool];
    && k <= |ms|
    && d.history == first + ms[..k] + (if again then [tool] else [])
    && (k > 0 ==> Absent(run(first)))
    && (forall j :: 0 < j < k ==> !run(first + ms[..j]).Success?)
    && (again <==> 0 < k && run(first + ms[..k]).Success?)
    && (k == 0 ==> !again && !Absent(run(first)))
    && (k > 0 && !again ==> k == |ms|)
    && (d.ok <==> Fine(run(d.history)) && (again || k == 0))
  }

  lemma {:induction false} RunOrInstallShape(run: Runner, h: seq<Command>, tool: Command, apt: string, rhel: string)
    returns (k: nat, again: bool)
    ensures ToolShape(run, h, tool, Managers(apt, rhel), RunOrInstall(run, h, tool, apt, rhel), k, again)
  {
    var first, ms := h + [tool], Managers(apt, rhel);
    if !Absent(run(first)) {
      k, again := 0, false;
      assert first + ms[..0] + [] == first;
    } else {
      k := InstallShape(run, first, ms);
      again := InstallFrom(run, first, ms).ok;
      assert first + ms[..k] + [] == first + ms[..k];
    }
  }

  // ----- counting and ordering over the whole trace

  function Uses(h: seq<Command>, bin: string): nat {
    if h == [] then 0 else Uses(Init(h), bin) + if Last(h).bin == bin then 1 else 0
  }

  lemma {:induction false} UsesAppend(a: seq<Command>, b: seq<Command>, bin: string)
    ensures Uses(a + b, bin) == Uses(a, bin) + Uses(b, bin)
  {
    if b == [] {
      assert a + b == a;
    } else {
      assert Init(a + b) == a + Init(b);
      UsesAppend(a, Init(b), bin);
    }
  }

  predicate IsManager(bin: string) { bin == "apt-get" || bin == "dnf" || bin == "yum" }

  lemma {:induction false} NoToolAmongManagers(ms: seq<Command>, bin: string)
    requires forall i :: 0 <= i < |ms| ==> IsManager(ms[i].bin)
    requires !IsManager(bin)
    ensures Uses(ms, bin) == 0
  {
    if ms == [] {
    } else {
      NoToolAmongManagers(Init(ms), bin);
    }
  }

  lemma {:induction false} OnlyManagers(apt: string, rhel: string, k: nat)
    requires k <= 3
    ensures forall i :: 0 <= i < k ==> IsManager(Managers(apt, rhel)[..k][i].bin)
  {
    var all := Managers(apt, rhel);
    forall i | 0 <= i < k ensures IsManager(all[..k][i].bin) { assert all[..k][i] == all[i]; }
  }

  /** One tool: at most five commands on top of h, the tool itself once or twice and no other tool,
      first and, if successful, last. */
  lemma {:induction false} ToolTrace(run: Runner, h: seq<Command>, tool: Command, apt: string, rhel: string, bin: string)
    requires !IsManager(tool.bin) && !IsManager(bin)
    ensures var d := RunOrInstall(run, h, tool, apt, rhel);
            && |h| < |d.history| <= |h| + 5
            && h + [tool] <= d.history
            && Uses(d.history, tool.bin) <= Uses(h, tool.bin) + 2
            && (bin != tool.bin ==> Uses(d.history, bin) == Uses(h, bin))
            && (d.ok ==> Last(d.history) == tool && Fine(run(d.history)))
  {
    var k, again := RunOrInstallShape(run, h, tool, apt, rhel);
    var ms := Managers(apt, rhel)[..k];
    var tail := if again then [tool] else [];
    OnlyManagers(apt, rhel, k);
    forall b: string | !IsManager(b)
      ensures Uses(h + [tool] + ms + tail, b) ==
              Uses(h, b) + (if tool.bin == b then 1 else 0) + (if again && tool.bin == b then 1 else 0)
    {
      UsesAppend(h + [tool] + ms, tail, b);
      UsesAppend(h + [tool], ms, b);
      UsesAppend(h, [tool], b);
      NoToolAmongManagers(ms, b);
    }
    assert h + [tool] + ms[..0] == h + [tool];
  }

  predicate IsFsTool(c: Command) { c.bin == "resize2fs" || c.bin == "xfs_growfs" }

  /** Index of the last command of h running `bin`; |h| when there is none. */
  function LastUse(h: seq<Command>, bin: string): (i: nat)
    ensures i <= |h|
    ensures i < |h| ==> h[i].bin == bin
    ensures forall j :: 0 <= j < |h| && (i == |h| || i < j) ==> h[j].bin != bin
  {
    LastIndex(h, (c: Command) => c.bin == bin)
  }

  /** The last run of `bin` succeeded or reported that nothing needed changing. */
  ghost predicate LastRunFine(run: Runner, h: seq<Command>, bin: string) {
    var i := LastUse(h, bin);
    i < |h| && Fine(run(h[..i + 1]))
  }

  /** The last run of a tool decides its success. */
  lemma {:induction false} ToolVerdict(run: Runner, h: seq<Command>, tool: Command, apt: string, rhel: string)
    requires !IsManager(tool.bin)
    ensures var d := RunOrInstall(run, h, tool, apt, rhel);
            d.ok <==> LastRunFine(run, d.history, tool.bin)
  {
    var k, again := RunOrInstallShape(run, h, tool, apt, rhel);
    var first, ms, d := h + [tool], Managers(apt, rhel)[..k], RunOrInstall(run, h, tool, apt, rhel);
    var i := LastUse(d.history, tool.bin);
    assert d.history[|h|] == tool;
    if again {
      assert Last(d.history) == tool && i == |d.history| - 1 && d.history[..i + 1] == d.history;
    } else {
      forall j | |h| < j < |d.history| ensures IsManager(d.history[j].bin) {
        assert d.history[j] == ms[j - |h| - 1];
      }
      assert i == |h| && d.history[..i + 1] == first;
    }
  }

  // ----- grow

  /** The last run of every needed tool was fine. */
  ghost predicate AllFine(run: Runner, h: seq<Command>, isPartition: bool, fstype: string) {
    && (isPartition ==> LastRunFine(run, h, "growpart"))
    && LastRunFine(run, h, if fstype == "xfs" then "xfs_growfs" else "resize2fs")
  }

  lemma {:induction false} LastRunFineExtends(run: Runner, h: seq<Command>, more: seq<Command>, bin: string)
    requires forall i :: 0 <= i < |more| ==> more[i].bin != bin
    ensures LastRunFine(run, h + more, bin) <==> LastRunFine(run, h, bin)
  {
    var i, j := LastUse(h, bin), LastUse(h + more, bin);
    assert forall x :: |h| <= x < |h + more| ==> (h + more)[x] == more[x - |h|];
    if i < |h| {
      assert (h + more)[i] == h[i];
      assert j == i;
      assert (h + more)[..i + 1] == h[..i + 1];
    } else {
      assert j == |h + more|;
    }
  }

  /** A package manager runs only right after a tool that was not found (apt-get), or after the
      manager before it failed (dnf after apt-get, yum after dnf). */
  ghost predicate ManagerInTurn(run: Runner, h: seq<Command>, i: nat)
    requires i < |h|
  {
    && (h[i].bin == "apt-get" ==> i > 0 && !IsManager(h[i - 1].bin) && Absent(run(h[..i])))
    && (h[i].bin == "dnf" ==> i > 0 && h[i - 1].bin == "apt-get" && !run(h[..i]).Success?)
    && (h[i].bin == "yum" ==> i > 0 && h[i - 1].bin == "dnf" && !run(h[..i]).Success?)
  }

  ghost predicate ManagersInTurn(run: Runner, h: seq<Command>) {
    forall i :: 0 <= i < |h| ==> ManagerInTurn(run, h, i)
  }

  lemma {:induction false} ToolKeepsTurns(run: Runner, h: seq<Command>, tool: Command, apt: string, rhel: string)
    requires !IsManager(tool.bin) && ManagersInTurn(run, h)
    ensures ManagersInTurn(run, RunOrInstall(run, h, tool, apt, rhel).history)
  {
    var k, again := RunOrInstallShape(run, h, tool, apt, rhel);
    var first, ms, d := h + [tool], Managers(apt, rhel), RunOrInstall(run, h, tool, apt, rhel);
    var out := d.history;
    forall i | 0 <= i < |out| ensures ManagerInTurn(run, out, i) {
      if i < |h| {
        assert ManagerInTurn(run, h, i) && out[..i] == h[..i] && out[i] == h[i];
        assert i > 0 ==> out[i - 1] == h[i - 1];
      } else if |h| < i <= |h| + k {
        var m := i - |h| - 1;
        assert out[i] == ms[m] && out[..i] == first + ms[..m];
        assert out[i - 1] == if m == 0 then tool else ms[m - 1];
        assert first + ms[..0] == first;
      }
    }
  }

  /** No filesystem tool runs on a partition before growpart's last run was fine. */
  ghost predicate PartitionFirst(run: Runner, h: seq<Command>) {
    forall i :: 0 <= i < |h| && IsFsTool(h[i]) ==> LastRunFine(run, h[..i], "growpart")
  }

  lemma {:induction false} FsToolBin(device: string, fstype: string, target: string)
    ensures var bin := FsTool(device, fstype, target).bin;
            !IsManager(bin) && bin != "growpart" && IsFsTool(FsTool(device, fstype, target))
            && bin == if fstype == "xfs" then "xfs_growfs" else "resize2fs"
  {
  }

  /** After a successful growpart every later command leaves its verdict standing. */
  lemma {:induction false} VerdictStands(run: Runner, h: seq<Command>, more: seq<Command>)
    requires LastRunFine(run, h, "growpart") && (forall i :: 0 <= i < |h| ==> !IsFsTool(h[i]))
    requires forall i :: 0 <= i < |more| ==> more[i].bin != "growpart"
    ensures PartitionFirst(run, h + more) && LastRunFine(run, h + more, "growpart")
  {
    LastRunFineExtends(run, h, more, "growpart");
    var out := h + more;
    assert forall i :: 0 <= i < |h| ==> out[i] == h[i];
    forall i | 0 <= i < |out| && IsFsTool(out[i]) ensures LastRunFine(run, out[..i], "growpart") {
      assert out[..i] == h + more[..i - |h|];
      LastRunFineExtends(run, h, more[..i - |h|], "growpart");
    }
  }

  lemma {:induction false} FsPhase(run: Runner, h: seq<Command>, tool: Command, pkg: string)
    requires LastRunFine(run, h, "growpart") && (forall i :: 0 <= i < |h| ==> !IsFsTool(h[i]))
    requires !IsManager(tool.bin) && tool.bin != "growpart"
    ensures var d := RunOrInstall(run, h, tool, pkg, pkg);
            PartitionFirst(run, d.history) && LastRunFine(run, d.history, "growpart")
  {
    var k, again := RunOrInstallShape(run, h, tool, pkg, pkg);
    var ms := Managers(pkg, pkg);
    var more := [tool] + ms[..k] + if again then [tool] else [];
    assert RunOrInstall(run, h, tool, pkg, pkg).history == h + more;
    forall i | 0 <= i < |more| ensures more[i].bin != "growpart" {
      assert more[i] == tool || more[i] in ms;
    }
    VerdictStands(run, h, more);
  }

  lemma {:induction false} NoFsTool(run: Runner, tool: Command, apt: string, rhel: string)
    requires tool.bin == "growpart"
    ensures var h := RunOrInstall(run, [], tool, apt, rhel).history; forall i :: 0 <= i < |h| ==> !IsFsTool(h[i])
  {
    var k, again := RunOrInstallShape(run, [], tool, apt, rhel);
    var h := RunOrInstall(run, [], tool, apt, rhel).history;
    var ms := Managers(apt, rhel);
    assert h == [tool] + ms[..k] + if again then [tool] else [];
  }

  ghost predicate GoodTrace(run: Runner, h: seq<Command>, isPartition: bool) {
    && |h| <= 10
    && (forall bin :: !IsManager(bin) ==> Uses(h, bin) <= 2)
    && ManagersInTurn(run, h)
    && (isPartition ==> PartitionFirst(run, h))
  }

  lemma {:induction false} FromEmpty(run: Runner, tool: Command, apt: string, rhel: string)
    requires !IsManager(tool.bin)
    ensures var d := RunOrInstall(run, [], tool, apt, rhel);
            && |d.history| <= 5 && ManagersInTurn(run, d.history)
            && (forall bin :: !IsManager(bin) ==> Uses(d.history, bin) <= if bin == tool.bin then 2 else 0)
            && (d.ok <==> LastRunFine(run, d.history, tool.bin))
  {
    ToolKeepsTurns(run, [], tool, apt, rhel);
    ToolVerdict(run, [], tool, apt, rhel);
    forall bin | !IsManager(bin)
      ensures Uses(RunOrInstall(run, [], tool, apt, rhel).history, bin) <= if bin == tool.bin then 2 else 0
    {
      ToolTrace(run, [], tool, apt, rhel, bin);
    }
    ToolTrace(run, [], tool, apt, rhel, tool.bin);
  }

  /** Filesystem phase after growpart. */
  lemma {:induction false} AfterGrowpart(run: Runner, h: seq<Command>, tool: Command, pkg: string)
    requires |h| <= 5 && ManagersInTurn(run, h) && LastRunFine(run, h, "growpart")
    requires forall bin :: !IsManager(bin) ==> Uses(h, bin) <= if bin == "growpart" then 2 else 0
    requires forall i :: 0 <= i < |h| ==> !IsFsTool(h[i])
    requires !IsManager(tool.bin) && tool.bin != "growpart"
    ensures var d := RunOrInstall(run, h, tool, pkg, pkg);
            && GoodTrace(run, d.history, true)
            && LastRunFine(run, d.history, "growpart")
            && (d.ok <==> LastRunFine(run, d.history, tool.bin))
  {
    ToolKeepsTurns(run, h, tool, pkg, pkg);
    ToolVerdict(run, h, tool, pkg, pkg);
    FsPhase(run, h, tool, pkg);
    forall bin | !IsManager(bin) ensures Uses(RunOrInstall(run, h, tool, pkg, pkg).history, bin) <= 2 {
      ToolTrace(run, h, tool, pkg, pkg, bin);
    }
    ToolTrace(run, h, tool, pkg, pkg, tool.bin);
  }

  lemma {:induction false} DiskVerdict(run: Runner, device: string, fstype: string, target: string)
    ensures var d := GrowFs(run, [], device, fstype, target);
            && GoodTrace(run, d.history, false)
            && (d.ok <==> Supported(fstype) && AllFine(run, d.history, false, fstype))
  {
    FsToolBin(device, fstype, target);
    FromEmpty(run, FsTool(device, fstype, target), FsPackage(fstype), FsPackage(fstype));
  }

  /** No run of a tool that is not in the history was fine. */
  lemma {:induction false} NeverRun(run: Runner, h: seq<Command>, fstype: string)
    requires forall i :: 0 <= i < |h| ==> !IsFsTool(h[i])
    ensures PartitionFirst(run, h) && !AllFine(run, h, true, fstype)
  {
  }

  lemma {:induction false} PartitionVerdict(
      run: Runner, part: Command, device: string, fstype: string, target: string)
    requires part.bin == "growpart"
    ensures var grown := RunOrInstall(run, [], part, "cloud-guest-utils", "cloud-utils-growpart");
            var d := if grown.ok then GrowFs(run, grown.history, device, fstype, target) else grown;
            && GoodTrace(run, d.history, true)
            && (d.ok && grown.ok <==> Supported(fstype) && AllFine(run, d.history, true, fstype))
  {
    var grown := RunOrInstall(run, [], part, "cloud-guest-utils", "cloud-utils-growpart");
    FsToolBin(device, fstype, target);
    FromEmpty(run, part, "cloud-guest-utils", "cloud-utils-growpart");
    NoFsTool(run, part, "cloud-guest-utils", "cloud-utils-growpart");
    NeverRun(run, grown.history, fstype);
    if grown.ok && Supported(fstype) {
      AfterGrowpart(run, grown.history, FsTool(device, fstype, target), FsPackage(fstype));
    }
  }

  /** For every command runner: at most ten commands, each tool at most twice, package managers in
      turn and only after a tool was not found, the filesystem tool only after growpart was fine,
      and success exactly when the filesystem is supported and the last run of every needed tool
      succeeded or reported NOCHANGE. */
  lemma {:induction false} GrowTrace(run: Runner, isPartition: bool, device: string, fstype: string, target: string)
    ensures var d := Grow(run, isPartition, device, fstype, target);
            && GoodTrace(run, d.history, isPartition)
            && (d.ok <==> fstype in {"ext2", "ext3", "ext4", "xfs"} && AllFine(run, d.history, isPartition, fstype))
  {
    SupportedExact(fstype);
    if !isPartition {
      DiskVerdict(run, device, fstype, target);
    } else {
      var parts := DeviceName.ParseDevice(KernelName(device));
      if parts.Some? { PartitionVerdict(run, PartitionTool(parts.value), device, fstype, target); }
    }
  }

  lemma {:induction false} SupportedExact(fstype: string)
    ensures Supported(fstype) <==> fstype in {"ext2", "ext3", "ext4", "xfs"}
  {
  }

  // ----- the commands themselves

  /** The device's kernel name is a partition name made of these parts. */
  ghost predicate PartOf(device: string, base: string, num: string) {
    exists name :: (device == "/dev/" + name || (device == name && !("/dev/" <= device)))
                   && (DeviceName.MatchesNvme(name, base, num) || DeviceName.MatchesTraditional(name, base, num))
  }

  /** growpart gets the disk and the partition number, resize2fs the device, xfs_growfs the mount point. */
  ghost predicate ToolFits(c: Command, isPartition: bool, device: string, fstype: string, target: string) {
    || (c.bin == "growpart" && isPartition && exists base, num :: PartOf(device, base, num) && c.args == ["/dev/" + base, num])
    || (c.bin == "resize2fs" && fstype in {"ext2", "ext3", "ext4"} && c.args == [device])
    || (c.bin == "xfs_growfs" && fstype == "xfs" && c.args == [target])
  }

  /** The package holding a tool, by its Debian or its Red Hat name. */
  ghost function PackageOf(tool: string, debian: bool): string {
    if tool == "xfs_growfs" then "xfsprogs"
    else if tool == "resize2fs" then "e2fsprogs"
    else if debian then "cloud-guest-utils"
    else "cloud-utils-growpart"
  }

  /** Command i installs the package of the tool that ran `back` commands before it. */
  ghost predicate InstallsFor(h: seq<Command>, i: nat, back: nat) {
    i < |h| && back <= i && h[i].args == ["install", "-y", PackageOf(h[i - back].bin, h[i].bin == "apt-get")]
  }

  ghost predicate CommandFits(h: seq<Command>, i: nat, isPartition: bool, device: string, fstype: string, target: string) {
    i < |h| &&
    if h[i].bin == "apt-get" then InstallsFor(h, i, 1)
    else if h[i].bin == "dnf" then InstallsFor(h, i, 2)
    else if h[i].bin == "yum" then InstallsFor(h, i, 3)
    else ToolFits(h[i], isPartition, device, fstype, target)
  }

  ghost predicate AllFit(h: seq<Command>, isPartition: bool, device: string, fstype: string, target: string) {
    forall i :: 0 <= i < |h| ==> CommandFits(h, i, isPartition, device, fstype, target)
  }

  lemma {:induction false} ManagerInstalls(h: seq<Command>, tool: Command, apt: string, rhel: string, more: seq<Command>, m: nat)
    requires apt == PackageOf(tool.bin, true) && rhel == PackageOf(tool.bin, false) && m < 3 && |h| + 1 + m < |more|
    requires more[|h|] == tool && more[|h| + 1 + m] == Managers(apt, rhel)[m]
    ensures InstallsFor(more, |h| + 1 + m, m + 1)
    ensures more[|h| + 1 + m].bin == if m == 0 then "apt-get" else if m == 1 then "dnf" else "yum"
  {
  }

  lemma {:induction false} FitsStill(
      h: seq<Command>, out: seq<Command>, i: nat, isPartition: bool, device: string, fstype: string, target: string)
    requires h <= out && i < |h| && CommandFits(h, i, isPartition, device, fstype, target)
    ensures CommandFits(out, i, isPartition, device, fstype, target)
  {
    assert forall j :: 0 <= j <= i ==> out[j] == h[j];
  }

  lemma {:induction false} ToolCommandsFit(
      run: Runner, h: seq<Command>, tool: Command, apt: string, rhel: string,
      isPartition: bool, device: string, fstype: string, target: string)
    requires AllFit(h, isPartition, device, fstype, target)
    requires ToolFits(tool, isPartition, device, fstype, target)
    requires apt == PackageOf(tool.bin, true) && rhel == PackageOf(tool.bin, false)
    ensures AllFit(RunOrInstall(run, h, tool, apt, rhel).history, isPartition, device, fstype, target)
  {
    var k, again := RunOrInstallShape(run, h, tool, apt, rhel);
    var out, ms := RunOrInstall(run, h, tool, apt, rhel).history, Managers(apt, rhel);
    assert out[|h|] == tool;
    forall i | 0 <= i < |out| ensures CommandFits(out, i, isPartition, device, fstype, target) {
      if i < |h| {
        FitsStill(h, out, i, isPartition, device, fstype, target);
      } else if |h| < i <= |h| + k {
        assert out[i] == ms[i - |h| - 1];
        ManagerInstalls(h, tool, apt, rhel, out, i - |h| - 1);
      } else {
        assert out[i] == tool;
      }
    }
  }

  /** The commands of a grow: growpart on the device's own disk and number, the filesystem's own tool
      on its device or mount point, and installs of the missing tool's package.  Nothing is run
      exactly when a partition's name cannot be parsed or a whole disk's filesystem is unsupported;
      on a partition growpart comes first. */
  lemma {:induction false} GrowCommands(run: Runner, isPartition: bool, device: string, fstype: string, target: string)
    ensures var h := Grow(run, isPartition, device, fstype, target).history;
            && AllFit(h, isPartition, device, fstype, target)
            && (h == [] <==> if isPartition then !exists base, num :: PartOf(device, base, num)
                             else fstype !in {"ext2", "ext3", "ext4", "xfs"})
            && (isPartition && h != [] ==> h[0].bin == "growpart")
  {
    var fs, pkg := FsTool(device, fstype, target), FsPackage(fstype);
    SupportedExact(fstype);
    if !isPartition {
      if Supported(fstype) {
        ToolCommandsFit(run, [], fs, pkg, pkg, isPartition, device, fstype, target);
        ToolTrace(run, [], fs, pkg, pkg, fs.bin);
      }
    } else {
      PartsExact(device);
      var parts := DeviceName.ParseDevice(KernelName(device));
      if parts.Some? {
        var part := PartitionTool(parts.value);
        assert PartOf(device, parts.value.0, parts.value.1);
        ToolCommandsFit(run, [], part, "cloud-guest-utils", "cloud-utils-growpart", isPartition, device, fstype, target);
        ToolTrace(run, [], part, "cloud-guest-utils", "cloud-utils-growpart", "growpart");
        var grown := RunOrInstall(run, [], part, "cloud-guest-utils", "cloud-utils-growpart");
        if grown.ok && Supported(fstype) {
          ToolCommandsFit(run, grown.history, fs, pkg, pkg, isPartition, device, fstype, target);
          ToolTrace(run, grown.history, fs, pkg, pkg, fs.bin);
        }
      }
    }
  }

  /** A supported filesystem's tool does run, once the partition, if it is one, was grown. */
  lemma {:induction false} FsToolRuns(run: Runner, isPartition: bool, device: string, fstype: string, target: string)
    requires fstype in {"ext2", "ext3", "ext4", "xfs"}
    requires isPartition ==> LastRunFine(run, Grow(run, isPartition, device, fstype, target).history, "growpart")
    ensures var h := Grow(run, isPartition, device, fstype, target).history;
            exists i :: 0 <= i < |h| && h[i] == if fstype == "xfs" then Command("xfs_growfs", [target])
                                                else Command("resize2fs", [device])
  {
    var fs, pkg := FsTool(device, fstype, target), FsPackage(fstype);
    SupportedExact(fstype);
    var h := [];
    if isPartition {
      var parts := DeviceName.ParseDevice(KernelName(device));
      var part := PartitionTool(parts.value);
      ToolVerdict(run, [], part, "cloud-guest-utils", "cloud-utils-growpart");
      h := RunOrInstall(run, [], part, "cloud-guest-utils", "cloud-utils-growpart").history;
    }
    ToolTrace(run, h, fs, pkg, pkg, fs.bin);
    assert (h + [fs])[|h|] == fs;
  }

  lemma {:induction false} PartsExact(device: string)
    ensures forall base, num :: PartOf(device, base, num) <==> DeviceName.ParseDevice(KernelName(device)) == Some((base, num))
  {
    var kernel := KernelName(device);
    forall base, num
      ensures PartOf(device, base, num) <==> DeviceName.ParseDevice(kernel) == Some((base, num))
    {
      DeviceName.ParseDeviceExact(kernel, base, num);
      forall name | device == "/dev/" + name || (device == name && !("/dev/" <= device)) ensures name == kernel {
        assert device == "/dev/" + name ==> device[5..] == name;
      }
    }
  }
}
