# pfSense agent: verified model

A Dafny model of the PlusClouds pfSense agent: how it provisions a machine's
network at boot, keeps firewall and NAT rules, hands telemetry intervals to its
publishing loop, derives disk rates, caches its config-drive and grows disks.
The main properties are statements about all inputs, all runs or all
interleavings; where one fails, a lemma exhibits a run or an input and another
gives the exact condition.

`dafny verify dfyconfig.toml` checks the whole project. Automatic induction is
switched off throughout (`{:induction false}`): every induction is written out.

| file | content |
|---|---|
| `Common.dfy`, `Text.dfy` | options, sublists, words; trimming, case, replacement |
| `NetConfig.dfy` | the config tree and what `apply.php`, `snapshot.php`, `restore.php` do to it |
| `NetResolution.dfy`, `NetGateways.dfy`, `NetApply.dfy` | a whole apply run in closed form, from the initial config and the plan alone |
| `NetTheorems.dfy`, `NetRoute.dfy`, `NetObserved.dfy` | idempotence, undo, bindings, DNS, default route; the outcome field by field |
| `LiveConfig.dfy` | the three scripts as loops and in-place writes |
| `PlanBuilding.dfy` | NIC matching and plan building |
| `Provisioning.dfy`, `BootAgent.dfy` | boots, crashes and retries as a machine; the boot code refining it |
| `RuleStore.dfy`, `RuleForms.dfy` | the rule lists; what is stored and listed for a rule |
| `Telemetry.dfy`, `DiskIO.dfy`, `ConfigCache.dfy` | the one-slot hand-off, disk deltas, config-drive cache |
| `DiskGrow.dfy`, `DeviceName.dfy`, `MountTable.dfy`, `Formatting.dfy` | disk growing, device names, mount table, byte and uptime formatting |

## How it is modelled

Optional fields of `Config` are paths that may be absent from `config.xml`.
`restore.php` writes back the defaults `snapshot.php` read for absent paths, so
a restored config equals `Normal(c)`: the same settings with the four saved
paths spelled out. Two configs read alike through the scripts' defaults exactly
when their normal forms are equal.

Things the agent does not control (script outcomes, probe, file operations,
command runner, clock, kernel counters, IP validity) are parameters that range
over everything. `write_config` is atomic: a script that is killed leaves the
old or the fully new config. Power may be lost between any two steps.

`apply.php` is modelled in the script's own form (`LiveConfig.Tree.ApplyPlan`)
and proved equal to a fold over plan entries (`Apply`), which is proved equal to
a closed form: per interface the last entry written to it, per gateway name the
last item written, in the order names first appear. `NetObserved` then says what
a run leaves behind without naming any of these functions: each interface, gateway
item, result and DNS server from the config, the plan and the outcome. The plan,
the stored rules, the commands of a grow and the listed partitions are described in
the same way (`PlanFacts`, `FilterAcceptance`, `GrowCommands`, `ListedExact`).

PHP's `empty()` treats `"0"` as empty; the model does too, so a gateway or DNS
server `"0"` is no gateway or server.

## Findings

- README.md of the repository says only a verified-successful apply is marked
  done. The code marks any boot whose probe is answered, also when `apply.php`
  failed (`MarkedWithoutApplying`); `MarkedMeans` gives the exact condition.
- A boot whose `apply.php` reached `write_config` leaves the applied config when
  its output was unusable, the probe was answered, `snapshot.php` printed nothing
  or `restore.php` did not reach `write_config`, and only then (`EndOfBoot`). The
  next boot snapshots the applied config: the original can no longer be restored
  (`NoWayBack`).
- Restoring reproduces the original config literally only if all four paths were
  present (`RestoreInverts`).
- A plan that lists one NIC twice can leave `defaultgw4` naming a gateway the
  interface dropped (`RepeatedNicBreaksRoute`, `DefaultRouteExact`). With
  distinctly named NICs such a plan arises exactly from two plannable cards of one
  MAC address (`PlannedOnceExact`, `SharedMacBreaksRoute`).
- `SetTelemetryInterval` can block for ever: the loop may take the queued value
  after the setter chose the default arm (`BlockedIffStolen`, `BlockedForGood`).
- Two overlapping `GetDisk` calls can report a wrapped unsigned difference
  (`CrossedReadsWrap`): exactly when the later lock holder read its counters first
  and the counter moved between the two reads (`WrapExact`).
- A firewall rule whose source or destination trims to `"0"` is accepted, but its
  listing is refused when sent back (`FilterNormalForm`); NAT rules always come
  back.
- A config-drive that changes between its two reads can leave a cache that makes a
  later boot fail (`UnstableDrivePoisons`); `Load` fails exactly when the drive is
  of no use and the last completed copy cannot be read or does not parse
  (`LoadExact`). A cache file named other than `pc-meta-data.json` is written but
  never read back (`MisnamedCopyIsMade`, `MisnamedCacheIsLost`).
- `formatSeconds` wraps for uptimes that do not fit a Duration and drops the days of
  negative ones (`FormatSeconds`).
- The comment on `SetTelemetryInterval` gives 5s as the minimum; the constant is
  1s and the model follows the constant.

## Model

| member | source | states |
|---|---|---|
| NetTheorems.ApplyIdempotent | internal/modules/pfsense/scripts/netconfig/apply.php:49-147 | for every config and plan, repeated NICs included, applying twice equals applying once, and each plan entry resolves to the same logical interface both times, also when the first run created lan |
| NetApply.RunClosedForm | internal/modules/pfsense/scripts/netconfig/apply.php:49-139 | the loop's outcome without the loop: which paths change, gateway upserts in order, merged DNS, last default pick and one result per entry, all from the initial config and the plan |
| NetResolution.RunIfaces | internal/modules/pfsense/scripts/netconfig/apply.php:53-89 | after any number of entries the interface list is the initial list (plus at most one lan) with exactly the entries resolving to each interface applied to it |
| NetResolution.TargetIsSlot | internal/modules/pfsense/scripts/netconfig/apply.php:53-82 | the lookup on the partly rewritten list finds the interface that the initial list already determines |
| NetResolution.OverlayClosedForm | internal/modules/pfsense/scripts/netconfig/apply.php:84-127 | an interface ends with address, subnet and gateway of the last entry on it, the mtu of the last entry having one, and every other key untouched |
| NetResolution.OverlayIdempotent | internal/modules/pfsense/scripts/netconfig/apply.php:84-127 | rewriting a record with the same entries again changes nothing |
| NetGateways.UpsertAllClosedForm | internal/modules/pfsense/scripts/netconfig/apply.php:92-123 | after any sequence of upserts every old name keeps its position, every written name is present, and each item is the last write to its name or an untouched old item |
| NetGateways.UpsertAllIdempotent | internal/modules/pfsense/scripts/netconfig/apply.php:92-123 | replaying the upserts on their own outcome is a no-op |
| NetTheorems.RevertUndoesApply | internal/modules/pfsense/scripts/netconfig/restore.php:24-29 | restoring the pre-change snapshot over any prefix of an apply run gives back what the original reads as |
| NetTheorems.RestoreInverts | internal/modules/pfsense/scripts/netconfig/snapshot.php:13-18 | restore after snapshot is an inverse exactly when nothing outside the four paths changed, and literally exact exactly when the original had all four |
| NetTheorems.ApplyNormal | internal/modules/pfsense/scripts/netconfig/apply.php:55-122 | spelling out defaults before or after applying makes no difference |
| NetTheorems.BindingInvariant | internal/modules/pfsense/scripts/netconfig/apply.php:53-82 | no interface changes its NIC; lan is created at most once, only if absent, for the first plan entry no interface is bound to |
| NetTheorems.BindingsStayUnique | internal/modules/pfsense/scripts/netconfig/apply.php:53-82 | distinct names and distinct NIC bindings stay distinct |
| NetTheorems.GatewayNamesStayUnique | internal/modules/pfsense/scripts/netconfig/apply.php:92-123 | distinct gateway names stay distinct |
| NetTheorems.ResultsReport | internal/modules/pfsense/scripts/netconfig/apply.php:50-69 | one result per plan entry in order, applied exactly when resolved or auto-assigned, auto-assigned at most once |
| NetTheorems.DnsMerge | internal/modules/pfsense/scripts/netconfig/apply.php:129-143 | dnsserver becomes the first-occurrence de-duplication of the applied entries' usable servers in plan order, or stays as it was |
| NetRoute.DefaultRouteExact | internal/modules/pfsense/scripts/netconfig/apply.php:91-147 | a default is chosen exactly when an applied gateway entry is on wan or is the only one, and defaultgw4 then names the last such entry's gateway; the route is sound exactly when no later applied entry reuses its interface or gateway name |
| NetRoute.DefaultRouteSound | internal/modules/pfsense/scripts/netconfig/apply.php:41-147 | with NICs planned once and lower-case names, defaultgw4 names an item holding the chosen entry's interface and address, and that interface points back to it |
| NetRoute.SoloExact | internal/modules/pfsense/scripts/netconfig/apply.php:36-46 | gateway_count is 1 for a gateway-bearing entry exactly when no other entry has a gateway |
| NetRoute.RepeatedNicBreaksRoute | internal/modules/pfsense/scripts/netconfig/apply.php:124-147 | planning wan's NIC twice, the second time without gateway, leaves the chosen default unsound |
| NetRoute.ProvisionedRouteSound | internal/modules/pfsense/pfsense_freebsd.go:216-250 | with distinct NIC names, distinct MACs among plannable cards and lower-case interface names, the default route the metadata leads to is sound |
| NetRoute.SharedMacBreaksRoute | internal/modules/pfsense/pfsense_freebsd.go:216-250 | two usable cards of one MAC on wan's NIC, the second without gateway, are both planned and leave the chosen default unsound |
| NetObserved.BindingsExact | internal/modules/pfsense/scripts/netconfig/apply.php:53-82 | every interface keeps name, NIC and foreign keys; a lan with descr LAN and enable is added exactly when no interface is called lan and some entry has an unbound NIC, for the first such entry |
| NetObserved.ResultExact | internal/modules/pfsense/scripts/netconfig/apply.php:50-138 | an entry is applied exactly when some interface ends on its NIC, to the first such interface, and auto-assigned exactly when the lan was added for it |
| NetObserved.RecordExact | internal/modules/pfsense/scripts/netconfig/apply.php:84-127 | an interface ends with address, subnet and gateway key of the last entry for it and the mtu of the last with one; with no entry for it, it is as it was |
| NetObserved.GatewayItemExact | internal/modules/pfsense/scripts/netconfig/apply.php:92-123 | the item of a gateway name holds the interface and address of the last entry writing it, weight 1, ipprotocol inet, and the default flag exactly when that interface is wan or no other entry has a gateway; its name is the interface in capitals plus _PCGW |
| NetObserved.OtherGatewaysKept | internal/modules/pfsense/scripts/netconfig/apply.php:92-123 | old items keep their places and names, an item no entry writes is untouched, every added item is some entry's |
| NetObserved.DnsExact | internal/modules/pfsense/scripts/netconfig/apply.php:129-143 | the servers stored are exactly the non-empty ones of the applied entries, each once; without any the old ones stay |
| LiveConfig.Tree.FindLogical | internal/modules/pfsense/scripts/netconfig/apply.php:53-63 | the early break never yields a wrong lan_exists where it is used |
| LiveConfig.Tree.PutGateway | internal/modules/pfsense/scripts/netconfig/apply.php:92-123 | the search-then-write is the upsert |
| LiveConfig.Tree.ApplyEntry | internal/modules/pfsense/scripts/netconfig/apply.php:49-139 | the loop body's in-place writes are one step of the fold whose whole run the NetObserved rows describe field by field |
| LiveConfig.Tree.ApplyPlan | internal/modules/pfsense/scripts/netconfig/apply.php:32-149 | the whole script leaves Apply of the old tree and reports its results, which the NetObserved rows describe field by field |
| LiveConfig.CountGateways | internal/modules/pfsense/scripts/netconfig/apply.php:41-46 | counts the plan entries with a gateway |
| LiveConfig.CollectDns | internal/modules/pfsense/scripts/netconfig/apply.php:129-133 | merges one entry's servers, skipping empty and known ones |
| LiveConfig.Tree.TakeSnapshot | internal/modules/pfsense/scripts/netconfig/snapshot.php:13-18 | written back over any tree that agrees outside the four paths, the snapshot gives a tree reading exactly as this one |
| LiveConfig.Tree.RestoreSnapshot | internal/modules/pfsense/scripts/netconfig/restore.php:24-29 | writes the four paths so that a new snapshot equals the one given |
| PlanBuilding.MatchNICsByMAC | internal/modules/pfsense/netmatch.go:22-41 | the map index finds for each card in order the last local interface with its normalized non-empty MAC |
| PlanBuilding.BuildPlan | internal/modules/pfsense/pfsense_freebsd.go:210-250 | two map indexes give exactly the direct per-card lookup, with duplicate MACs on either side; PlanFacts describes that plan field by field |
| PlanBuilding.PlanFacts | internal/modules/pfsense/pfsense_freebsd.go:216-250 | in card order one plan entry per card with an interface of its MAC, an address and a subnet: the last such interface, first address, gateway and servers up to their slash, subnet and mtu its own; in card order one report per other card, with its reason |
| PlanBuilding.MatchFacts | internal/modules/pfsense/netmatch.go:22-41 | matched are, in card order, the cards some interface has the MAC of, each with the last such interface |
| PlanBuilding.SameMacExact | internal/modules/pfsense/netmatch.go:43-45 | addresses are matched exactly when they agree up to letter case and outer blanks and are not blank |
| PlanBuilding.PlannedOnceExact | internal/modules/pfsense/pfsense_freebsd.go:210-250 | with distinctly named NICs no NIC is planned twice exactly when no two plannable cards share a normalized MAC |
| PlanBuilding.StripCIDR | internal/modules/pfsense/pfsense_freebsd.go:192-197 | the longest slash-free prefix |
| Provisioning.Convergence | cmd/agent/main.go:271-342 | at every point of every run of boots, failures and power losses the config reads as the original or as the original with the plan applied |
| Provisioning.BootsConverge | internal/modules/pfsense/pfsense_freebsd.go:205-293 | the same for given metadata and interfaces, with the four possible configs named |
| Provisioning.AllReached | cmd/agent/main.go:317-330 | each of the four configs is reached by some run |
| Provisioning.NoWayBack | internal/modules/pfsense/pfsense_freebsd.go:256-275 | a machine that starts a boot from an applied config never reads as the original again |
| Provisioning.RevertedIsUndone | cmd/agent/main.go:317-330 | a boot reporting "reverted" ends reading as it began |
| Provisioning.MarkedMeans | cmd/agent/main.go:303-341 | a boot reported as marked has the marker and had its probe answered or refused on credentials; its config is the applied one exactly when apply.php reached write_config or the plan changes nothing |
| Provisioning.MarkedWithoutApplying | internal/modules/pfsense/pfsense_freebsd.go:267-275 | whenever the plan would change something, a run exists that marks the boot with the plan not applied |
| Provisioning.MarkerStep | cmd/agent/main.go:317-341 | no step unsets the marker, and only an answered probe leads to setting it |
| Provisioning.MarkerFreezes | cmd/agent/main.go:272-274 | while the marker can be read, the config never changes after it was set |
| Provisioning.UnreadableMarkerIgnored | cmd/agent/main.go:272-274 | a marker that cannot be read does not stop the plan from being applied |
| Provisioning.CompleteIsRun | cmd/agent/main.go:271-342 | every uninterrupted boot is a run of the machine, so all the above holds of it |
| Provisioning.EndConfig | cmd/agent/main.go:271-342 | the config an uninterrupted boot ends with, by marker, snapshot, apply, probe and revert outcome |
| Provisioning.EndMarker | cmd/agent/main.go:300-341 | after an uninterrupted boot the marker exists exactly when it did before, or the boot reached its probe, the probe was answered or refused on credentials, and the write succeeded or left the file |
| Provisioning.EndReport | cmd/agent/main.go:271-342 | what an uninterrupted boot reports, from what happened during it |
| Provisioning.EndOfBoot | cmd/agent/main.go:317-330 | an uninterrupted boot ends reading as applied exactly when apply.php reached write_config and nothing was restored, or applying makes no difference; otherwise it reads as it began; an applied reading stays through every later run |
| BootAgent.Agent.ApplyBootNetworkConfig | cmd/agent/main.go:271-342 | the boot code ends with the config, marker and report its steps lead to, which EndConfig, EndMarker and EndReport give from the outcomes |
| BootAgent.Agent.SnapshotAndApply | internal/modules/pfsense/pfsense_freebsd.go:256-292 | snapshot (failed, printing nothing, or taken), apply and output handling follow the machine |
| BootAgent.Agent.ProbeAndSettle | cmd/agent/main.go:300-341 | probe, revert and marker follow the machine |
| BootAgent.Agent.RunRestore | internal/modules/pfsense/pfsense_freebsd.go:297-313 | the restore process persists the restored tree or nothing |
| RuleForms.FilterNormalForm | internal/modules/pfsense/scripts/firewall/create.php:44-78 | listing an accepted rule and re-creating it stores the same rule exactly when neither address trims to "0", and is refused otherwise |
| RuleForms.ZeroSourceIsLost | internal/modules/pfsense/scripts/firewall/create.php:29-34 | the refused case occurs |
| RuleForms.NatNormalForm | internal/modules/pfsense/scripts/nat/create.php:49-84 | listing an accepted port forward and re-creating it always stores the same rule, defaulted destination included |
| RuleForms.SpecRoundTrip | internal/modules/pfsense/scripts/firewall/list.php:18-32 | a listed address spec parses back to the address it came from and is never empty |
| RuleForms.PortRoundTrip | internal/modules/pfsense/scripts/firewall/list.php:44-46 | a listed port or range is stored back unchanged |
| RuleForms.FilterAcceptance | internal/modules/pfsense/scripts/firewall/create.php:29-78 | accepted exactly when interface, action, source and destination are given and the action is pass, block or reject; the stored rule field by field from the input, addresses as any, address or network by what the trimmed spec is |
| RuleForms.FilterRefusal | internal/modules/pfsense/scripts/firewall/create.php:29-34 | the first missing field in the script's order is the one named |
| RuleForms.NatAcceptance | internal/modules/pfsense/scripts/nat/create.php:34-86 | the same for port forwards: three transport protocols in any case, the destination defaulting to the interface's own address, target and local port from their own fields |
| RuleForms.NatRefusal | internal/modules/pfsense/scripts/nat/create.php:34-39 | the first missing field in the script's order is the one named |
| RuleForms.ListFilters | internal/modules/pfsense/scripts/firewall/list.php:34-50 | one listing per rule, in stored order, field by field from the stored rule, tracker and disabled flag included |
| RuleForms.ListNats | internal/modules/pfsense/scripts/nat/list.php:34-51 | one listing per port forward, in stored order, field by field from the stored rule |
| RuleForms.CreateFilterRule | internal/modules/pfsense/scripts/firewall/create.php:29-86 | a faulty input leaves the list alone, an accepted one is appended last with every field from its own input field |
| RuleForms.CreatePortForward | internal/modules/pfsense/scripts/nat/create.php:34-92 | the same for port forwards |
| RuleStore.Store.Delete | internal/modules/pfsense/scripts/firewall/delete.php:15-37 | succeeds exactly when the argument is not blank and some rule carries it, and removes exactly the first such rule; otherwise changes nothing |
| RuleStore.DeleteFirstAt | internal/modules/pfsense/scripts/nat/delete.php:23-37 | cutting at the first match and reindexing is deleting the first match |
| RuleStore.Conservation | internal/modules/pfsense/scripts/firewall/delete.php:20-37 | over any run, rules with a tracker = initial + created with it - successfully deleted by it |
| RuleStore.OrderKept | internal/modules/pfsense/scripts/firewall/delete.php:36-37 | survivors of any run keep the order they were stored or created in |
| RuleStore.UnaddressedKept | internal/modules/pfsense/scripts/firewall/delete.php:15-29 | rules without a usable tracker are never removed or reordered |
| RuleStore.CreateThenDelete | internal/modules/pfsense/scripts/firewall/create.php:56-82 | a rule created under a fresh tracker and deleted after any traffic on other trackers leaves the list as if neither had happened |
| Telemetry.HandOff | internal/publisher/publisher.go:57-70 | under every interleaving applied and queued values are an in-order part of the set ones, at least 1s, and outside a call the newest is queued or was applied last |
| Telemetry.RecordsAreActions | internal/publisher/publisher.go:57-70 | the values set are the calls' arguments in order, raised to 1s, none dropped; one is applied per receive |
| Telemetry.Clamp | internal/publisher/publisher.go:58-60 | the least value that is at least the minimum and at least the requested one |
| Telemetry.BlockedExactly | internal/publisher/publisher.go:63-68 | the setter cannot step exactly when it is about to drain an empty slot |
| Telemetry.BlockedIffStolen | internal/publisher/publisher.go:102-113 | a call blocks exactly when the loop received between its default arm and its drain |
| Telemetry.BlockedForGood | internal/publisher/publisher.go:65-67 | a blocked call never returns and nothing else can happen on the channel |
| Telemetry.WindowExists | internal/publisher/publisher.go:63-68 | two calls and one receive reach the blocked state |
| DiskIO.Module.GetDisk | internal/modules/system/system.go:158-227 | one entry per real partition in order, rates taken against what the previous caller stored, and the own sample left behind |
| DiskIO.ListedExact | internal/modules/system/system.go:181-189 | listed are the partitions with readable usage and none of the nineteen pseudo filesystems, each once and in order |
| DiskIO.AttachedExactly | internal/modules/system/system.go:199-204 | under every interleaving a caller reports rates for a device exactly when it is not the first, its clock is later than its predecessor's, and both read the device's counters |
| DiskIO.LogIsLocks | internal/modules/system/system.go:168-173 | every caller that takes the lock leaves its sample, also one that could not read the counters |
| DiskIO.TurnProvenance | internal/modules/system/system.go:164-173 | what the i-th lock holder leaves is the clock and the counters its own call read, in that order before the lock |
| DiskIO.BaselineChain | internal/modules/system/system.go:168-173 | under every interleaving the baseline is the sample of the previous lock holder; the first caller reports no rates |
| DiskIO.WrapExact | internal/modules/system/system.go:199-219 | with growing counters, under every interleaving and for all five numbers: the reported value is the true one exactly when the two counter reads were not crossed by a movement of that counter, and is otherwise the complement to 2^64 of the movement; never negative, utilisation at most 100 |
| DiskIO.SequentialIsOrdered | internal/modules/system/system.go:164-173 | a caller that read its clock after its predecessor had left the lock reads its counters after it, so nothing it reports wraps |
| DiskIO.CrossedReadsWrap | internal/modules/system/system.go:164-173 | whenever a counter moves between two times, some interleaving reports that movement wrapped |
| DiskIO.Telescopes | internal/modules/system/system.go:199-219 | over any stretch of consecutive lock holders of a run reporting a device with their counter reads in order, rates times elapsed times add up to what the counter moved by |
| ConfigCache.CacheIntegrity | pkg/isoconfig/load.go:53-72 | over any boots and crashes the cache is absent or the whole, parseable content of the last completed copy |
| ConfigCache.LoadExact | pkg/isoconfig/load.go:18-48 | for every run on any drive: Load returns the drive's content if it parses, else the last completed copy, else nothing, and fails exactly when the drive is of no use and an existing copy cannot be read or does not parse |
| ConfigCache.LoadRefreshes | pkg/isoconfig/load.go:18-72 | the directory after an uninterrupted Load, from the one before: a drive that parses is copied every time, over whatever was cached |
| ConfigCache.NewestCopyServed | pkg/isoconfig/load.go:23-47 | after a boot that copied a content, and no later rename, a boot without a drive returns that content |
| ConfigCache.LoadResult | pkg/isoconfig/load.go:18-48 | with a drive that does not change between its two reads, Load fails only on an unreadable cache file |
| ConfigCache.UnstableDrivePoisons | pkg/isoconfig/load.go:23-25 | a drive that changes between the two reads can make a later boot fail |
| ConfigCache.MisnamedCacheIsLost | pkg/isoconfig/load.go:38-45 | under any other file name no run ever finds a cached copy: Load returns the drive's content or nothing |
| ConfigCache.MisnamedCopyIsMade | pkg/isoconfig/load.go:64-71 | copies are completed under such a name |
| ConfigCache.Directory.CacheCopy | pkg/isoconfig/load.go:53-72 | the copy leaves the directory of the machine's steps: on success the cache file holds all that was read and no temp file is left, otherwise it holds what it held before; no other file is touched |
| ConfigCache.Directory.Load | pkg/isoconfig/load.go:18-48 | Load's directory and result are those of the machine's steps; a drive that parses is returned and, when every step of the copy works, replaces the cached copy |
| DiskGrow.GrowTrace | internal/modules/diskresize/linux.go:109-194 | for every runner: at most ten commands, each tool at most twice, managers in turn and only after not-found, the filesystem tool only after growpart was fine, success exactly when supported and every needed tool's last run was fine |
| DiskGrow.GrowCommands | internal/modules/diskresize/linux.go:109-194 | growpart gets the disk and number of the device's own name, resize2fs the device, xfs_growfs the mount point, installs the missing tool's package; nothing is run exactly when a partition's name cannot be parsed or a whole disk's filesystem is unsupported |
| DiskGrow.FsToolRuns | internal/modules/diskresize/linux.go:109-134 | a supported filesystem's tool runs once the partition was grown, or at once on a whole disk |
| DiskGrow.RunOrInstallShape | internal/modules/diskresize/linux.go:139-165 | the three possible command sequences of one tool |
| DiskGrow.InstallShape | internal/modules/diskresize/linux.go:169-194 | managers are tried in order up to the first success |
| DiskGrow.ToolVerdict | internal/modules/diskresize/linux.go:139-165 | a tool step succeeds exactly when the tool's last run was fine |
| DiskGrow.Resizer.InstallPackage | internal/modules/diskresize/linux.go:169-194 | the loop issues the commands of the described search |
| DiskGrow.Resizer.TryTool | internal/modules/diskresize/linux.go:139-165 | run, install and retry issue the described commands |
| DiskGrow.Resizer.GrowDisk | internal/modules/diskresize/linux.go:109-134 | grow issues the described commands and verdict |
| DeviceName.ParseDeviceExact | internal/modules/diskresize/linux.go:43-51 | parseDevice accepts exactly the two patterns, with the pattern's groups, which recompose to the name |
| DeviceName.FormsDisjoint | internal/modules/diskresize/linux.go:35-38 | no name matches both patterns |
| MountTable.HasConfigDrive | pkg/isoconfig/locator_freebsd.go:85-101 | the scan answers whether some line matches |
| MountTable.ParserExact | pkg/isoconfig/locator_freebsd.go:82-101 | on any rendered mount table with an unambiguous separator the answer is whether an entry at the path is cd9660 or udf |
| MountTable.EmbeddedPathFools | pkg/isoconfig/locator_freebsd.go:86-92 | a mount point ending in " on P" is taken for P |
| Formatting.Scale | cmd/ctl/main.go:445-456 | the divisor is the largest power of 1024 not above the value, without overflow and with its unit letter in range |
| Formatting.FormatSeconds | cmd/ctl/main.go:458-467 | the printed days, hours and minutes account for the uptime to the minute exactly when it fits a Duration and is above minus one day; parts are in range and rounded down for uptimes from 0 on |

## Left out

- Provisioning: a second writer changing the pfSense config between steps of a boot, or metadata and NICs that change between boots.
- NetConfig: the XML encoding of config values and PHP's conversion of number-like array keys; gateway items are taken to be a list with keys 0..n-1.
- NetConfig.EntryResult: the message text of an unapplied entry.
- NetRoute.DefaultRouteSound: what the live routing table does with defaultgw4 (`interface_configure`, `system_routing_configure`, `filter_configure` act outside the config).
- PlanBuilding.NormalizeMAC: letter case outside ASCII.
- RuleForms: which strings PHP accepts as IP addresses; the predicate is a parameter.
- RuleStore: how trackers are drawn from the clock; two creates may share one, and the counts hold for that too.
- Telemetry: ticks, cancellation, and more than one command handler calling at the same time.
- DiskIO: rounding of float64; rates are exact reals.
- ConfigCache: mounting and unmounting the drive, file permissions, JSON decoding; cacheCopy never syncs, so a power cut may keep the rename and lose the data, while the model takes writes as durable in order.
- DiskGrow: reading disk usage before and after growing, and the sysfs lookup that tells partitions from disks, which is a parameter.
- MountTable: mounting itself.
- Formatting: the printed fraction of a byte count, and float64 rounding of Hours and Minutes, which can show only for durations that already wrapped.
- NATS connection, publishing and the dispatcher: network client and a flat switch.
- Password provisioning, DHCP leases, services, CPU, memory and network metrics: thin calls into other subsystems.
- Configuration loading, the control tool's HTTP client and tables, installers and service units.
