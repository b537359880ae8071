// Disk I/O rates as deltas between successive GetDisk calls.  The previous
// sample is swapped under a mutex; clock and counters are read outside it.
// Floating point is modelled by exact reals, counters are 64-bit and unsigned.
module DiskIO {
  import opened Common

  datatype Counters = Counters(readBytes: Word, writeBytes: Word, readCount: Word, writeCount: Word, ioTime: Word)

  /** Clock value, then the counters by device (None when reading them failed). */
  datatype Sample = Sample(at: real, counters: Option<map<string, Counters>>)

  datatype Rates = Rates(readBytes: real, writeBytes: real, readOps: real, writeOps: real, util: real)

  /** Subtraction of unsigned 64-bit words. */
  function Minus(a: Word, b: Word): Word { (a - b) % TWO64 }

  function PerSecond(cur: Word, was: Word, elapsed: real): real
    requires elapsed > 0.0
  {
    Minus(cur, was) as real / elapsed
  }

  function Util(cur: Word, was: Word, elapsed: real): real
    requires elapsed > 0.0
  {
    var pct := Minus(cur, was) as real / (elapsed * 1000.0) * 100.0;
    if pct > 100.0 then 100.0 else pct
  }

  function RatesOf(cur: Counters, was: Counters, elapsed: real): Rates
    requires elapsed > 0.0
  {
    Rates(PerSecond(cur.readBytes, was.readBytes, elapsed), PerSecond(cur.writeBytes, was.writeBytes, elapsed),
          PerSecond(cur.readCount, was.readCount, elapsed), PerSecond(cur.writeCount, was.writeCount, elapsed),
          Util(cur.ioTime, was.ioTime, elapsed))
  }

  function Elapsed(base: Option<Sample>, now: Sample): real {
    if base.Some? then now.at - base.value.at else 0.0
  }

  /** The rates attached to device `dev`, if there is a baseline for it. */
  function Attach(base: Option<Sample>, now: Sample, dev: string): Option<Rates> {
    var elapsed := Elapsed(base, now);
    if elapsed > 0.0 && base.value.counters.Some? && now.counters.Some?
       && dev in now.counters.value && dev in base.value.counters.value
    then Some(RatesOf(now.counters.value[dev], base.value.counters.value[dev], elapsed))
    else None
  }

  // ----- GetDisk

  datatype Usage = Usage(total: Word, used: Word, pct: real)

  /** A mounted partition with the outcome of asking for its usage. */
  datatype Partition = Partition(device: string, mountpoint: string, fstype: string, usage: Option<Usage>)

  datatype DiskEntry = DiskEntry(device: string, mountpoint: string, usage: Usage, io: Option<Rates>)

  const PSEUDO_FS: set<string> := {
    "tmpfs", "devtmpfs", "proc", "sysfs", "devpts", "cgroup", "cgroup2", "pstore", "hugetlbfs", "mqueue",
    "debugfs", "tracefs", "securityfs", "fusectl", "configfs", "bpf", "overlay", "squashfs", "efivarfs"
  }

  function Listed(parts: seq<Partition>): seq<Partition> {
    if parts == [] then []
    else if Last(parts).fstype in PSEUDO_FS || Last(parts).usage.None? then Listed(Init(parts))
    else Listed(Init(parts)) + [Last(parts)]
  }

  /** A partition on a block device whose usage could be read. */
  predicate Real(p: Partition) {
    && p.usage.Some?
    && p.fstype !in {"tmpfs", "devtmpfs", "proc", "sysfs", "devpts", "cgroup", "cgroup2", "pstore", "hugetlbfs", "mqueue",
                     "debugfs", "tracefs", "securityfs", "fusectl", "configfs", "bpf", "overlay", "squashfs", "efivarfs"}
  }

  lemma {:induction false} ListedInOrder(
      parts: seq<Partition>, keep: Partition -> bool, same: (Partition, Partition) -> bool) returns (at: seq<nat>)
    requires forall p :: keep(p) <==> p.fstype !in PSEUDO_FS && p.usage.Some?
    requires forall p :: same(p, p)
    ensures Selects(parts, keep, same, Listed(parts), at)
  {
    if parts == [] {
      at := [];
    } else {
      var early, last := Init(parts), Last(parts);
      assert parts == early + [last];
      at := ListedInOrder(early, keep, same);
      if keep(last) {
        SelectsKeep(early, keep, same, Listed(early), at, last, last);
        at := at + [|early|];
      } else {
        SelectsDrop(early, keep, same, Listed(early), at, last);
      }
    }
  }

  /** Listed are the real partitions, each once and in order. */
  lemma {:induction false} ListedExact(parts: seq<Partition>) returns (at: seq<nat>)
    ensures Selects(parts, (p: Partition) => Real(p), (p: Partition, q: Partition) => p == q, Listed(parts), at)
  {
    at := ListedInOrder(parts, (p: Partition) => Real(p), (p: Partition, q: Partition) => p == q);
  }

  ghost predicate Reports(e: DiskEntry, p: Partition, base: Option<Sample>, now: Sample) {
    && e.device == p.device && e.mountpoint == p.mountpoint && p.usage == Some(e.usage)
    && e.io == Attach(base, now, KernelName(p.device))
  }

  class Module {
    var prevIO: Option<map<string, Counters>>
    var prevIOAt: Option<real>

    constructor ()
      ensures Base() == None
    {
      prevIO, prevIOAt := None, None;
    }

    function Base(): Option<Sample>
      reads this
    {
      if prevIOAt.Some? then Some(Sample(prevIOAt.value, prevIO)) else None
    }

    /** The critical section: hand out the stored sample and store the new one. */
    method Swap(now: Sample) returns (base: Option<Sample>)
      modifies this
      ensures base == old(Base()) && Base() == Some(now)
    {
      base := Base();
      prevIO, prevIOAt := now.counters, Some(now.at);
    }

    /** One entry per real partition, in order, its rates taken against the sample the previous
        caller stored. */
    method GetDisk(parts: seq<Partition>, now: Sample) returns (entries: seq<DiskEntry>)
      modifies this
      ensures Base() == Some(now)
      ensures |entries| == |Listed(parts)|
      ensures forall i :: 0 <= i < |entries| ==> Reports(entries[i], Listed(parts)[i], old(Base()), now)
    {
      var base := Swap(now);
      entries := [];
      for i := 0 to |parts|
        invariant Base() == Some(now)
        invariant |entries| == |Listed(parts[..i])|
        invariant forall j :: 0 <= j < |entries| ==> Reports(entries[j], Listed(parts[..i])[j], base, now)
      {
        var p := parts[i];
        assert Init(parts[..i + 1]) == parts[..i];
        if p.fstype !in PSEUDO_FS && p.usage.Some? {
          entries := entries +
            [DiskEntry(p.device, p.mountpoint, p.usage.value, Attach(base, now, KernelName(p.device)))];
        }
      }
      assert parts[..|parts|] == parts;
    }
  }

  // ----- interleaved calls

  /** A call between reading the clock, reading the counters and taking the lock.  `behind` counts
      the callers that had left the lock when this one read its clock. */
  datatype Call = Timed(at: real, behind: nat) | Sampled(sample: Sample, readAt: real, behind: nat)

  /** What one lock holder found and left. */
  datatype Turn = Turn(base: Option<Sample>, sample: Sample, readAt: real, behind: nat)

  datatype State = State(time: real, stored: Option<Sample>, calls: map<nat, Call>, log: seq<Turn>)

  const INITIAL := State(0.0, None, map[], [])

  datatype Action = Wait(dt: real) | ReadClock(id: nat) | ReadCounters(id: nat, ok: bool) | Lock(id: nat)

  /** What the kernel reports at a given time. */
  type Kernel = real -> map<string, Counters>

  predicate Enabled(s: State, a: Action) {
    match a
    case Wait(dt) => dt >= 0.0
    case ReadClock(id) => id !in s.calls
    case ReadCounters(id, _) => id in s.calls && s.calls[id].Timed?
    case Lock(id) => id in s.calls && s.calls[id].Sampled?
  }

  function Do(k: Kernel, s: State, a: Action): State
    requires Enabled(s, a)
  {
    match a
    case Wait(dt) => s.(time := s.time + dt)
    case ReadClock(id) => s.(calls := s.calls[id := Timed(s.time, |s.log|)])
    case ReadCounters(id, ok) =>
      var c := s.calls[id];
      s.(calls := s.calls[id := Sampled(Sample(c.at, if ok then Some(k(s.time)) else None), s.time, c.behind)])
    case Lock(id) =>
      var c := s.calls[id];
      s.(stored := Some(c.sample), calls := s.calls - {id},
         log := s.log + [Turn(s.stored, c.sample, c.readAt, c.behind)])
  }

  ghost predicate IsRun(k: Kernel, tr: seq<State>, acts: seq<Action>) {
    && |tr| == |acts| + 1 && tr[0] == INITIAL
    && forall i :: 0 <= i < |acts| ==> Enabled(tr[i], acts[i]) && tr[i + 1] == Do(k, tr[i], acts[i])
  }

  ghost predicate SampleOk(k: Kernel, s: Sample, readAt: real) {
    s.at <= readAt && (s.counters.Some? ==> s.counters.value == k(readAt))
  }

  /** Turn i found what turn i - 1 left. */
  ghost predicate Linked(log: seq<Turn>, i: nat)
    requires i < |log|
  {
    if i == 0 then log[0].base.None? else log[i].base == Some(log[i - 1].sample)
  }

  /** Everyone who had left the lock by then had read their counters by time t. */
  ghost predicate ReadBy(log: seq<Turn>, behind: nat, t: real) {
    behind <= |log| && forall j :: 0 <= j < behind ==> log[j].readAt <= t
  }

  ghost predicate CallOk(k: Kernel, c: Call, time: real, log: seq<Turn>) {
    match c
    case Timed(at, behind) => at <= time && ReadBy(log, behind, at)
    case Sampled(sample, readAt, behind) =>
      SampleOk(k, sample, readAt) && readAt <= time && ReadBy(log, behind, sample.at)
  }

  ghost predicate TurnOk(k: Kernel, log: seq<Turn>, i: nat)
    requires i < |log|
  {
    && SampleOk(k, log[i].sample, log[i].readAt)
    && Linked(log, i)
    && log[i].behind <= i && ReadBy(log, log[i].behind, log[i].sample.at)
  }

  ghost predicate Inv(k: Kernel, s: State) {
    && (forall id :: id in s.calls ==> CallOk(k, s.calls[id], s.time, s.log))
    && (forall i :: 0 <= i < |s.log| ==> TurnOk(k, s.log, i))
    && (forall i :: 0 <= i < |s.log| ==> s.log[i].readAt <= s.time)
    && s.stored == (if s.log == [] then None else Some(Last(s.log).sample))
  }

  lemma {:induction false} InvLock(k: Kernel, s: State, id: nat)
    requires Inv(k, s) && Enabled(s, Lock(id))
    ensures Inv(k, Do(k, s, Lock(id)))
  {
    var s' := Do(k, s, Lock(id));
    assert CallOk(k, s.calls[id], s.time, s.log);
    forall i | 0 <= i < |s'.log| ensures TurnOk(k, s'.log, i) {
      if i < |s.log| { assert TurnOk(k, s.log, i); }
    }
    forall x | x in s'.calls ensures CallOk(k, s'.calls[x], s'.time, s'.log) {
      assert CallOk(k, s.calls[x], s.time, s.log);
    }
  }

  lemma {:induction false} InvStep(k: Kernel, s: State, a: Action)
    requires Inv(k, s) && Enabled(s, a)
    ensures Inv(k, Do(k, s, a))
  {
    if a.Lock? {
      InvLock(k, s, a.id);
    } else {
      var s' := Do(k, s, a);
      forall x | x in s'.calls ensures CallOk(k, s'.calls[x], s'.time, s'.log) {
        if x in s.calls { assert CallOk(k, s.calls[x], s.time, s.log); }
      }
    }
  }

  lemma {:induction false} RunInv(k: Kernel, tr: seq<State>, acts: seq<Action>, n: nat)
    requires IsRun(k, tr, acts) && n < |tr|
    ensures Inv(k, tr[n])
  {
    if n == 0 {
    } else {
      RunInv(k, tr, acts, n - 1);
      InvStep(k, tr[n - 1], acts[n - 1]);
    }
  }

  // ----- where a turn comes from

  predicate Of(a: Action, id: nat) { !a.Wait? && a.id == id }

  /** Step a is this action, and the call takes no other step up to n. */
  ghost predicate LastStep(acts: seq<Action>, a: nat, n: nat, act: Action)
    requires n <= |acts| && !act.Wait?
  {
    a < n && acts[a] == act && forall j :: a < j < n ==> !Of(acts[j], act.id)
  }

  /** The call read its clock in step a. */
  ghost predicate ClockFrom(tr: seq<State>, acts: seq<Action>, a: nat, n: nat, id: nat, at: real, behind: nat)
    requires n <= |acts| && |tr| == |acts| + 1
  {
    LastStep(acts, a, n, ReadClock(id)) && at == tr[a].time && behind == |tr[a].log|
  }

  /** The call read its clock in step a and its counters in step b. */
  ghost predicate SampleFrom(
      k: Kernel, tr: seq<State>, acts: seq<Action>, a: nat, b: nat, n: nat, id: nat, ok: bool, s: Sample, readAt: real, behind: nat)
    requires n <= |acts| && |tr| == |acts| + 1
  {
    && LastStep(acts, b, n, ReadCounters(id, ok)) && ClockFrom(tr, acts, a, b, id, s.at, behind)
    && readAt == tr[b].time && s.counters == if ok then Some(k(tr[b].time)) else None
  }

  ghost predicate CallFrom(k: Kernel, tr: seq<State>, acts: seq<Action>, n: nat, id: nat, c: Call)
    requires n <= |acts| && |tr| == |acts| + 1
  {
    match c
    case Timed(at, behind) => exists a :: ClockFrom(tr, acts, a, n, id, at, behind)
    case Sampled(s, readAt, behind) => exists a, b, ok :: SampleFrom(k, tr, acts, a, b, n, id, ok, s, readAt, behind)
  }

  /** Step n is turn i's taking of the lock, with a sample of its own. */
  ghost predicate TurnFrom(k: Kernel, tr: seq<State>, acts: seq<Action>, n: nat, i: nat, t: Turn)
    requires |tr| == |acts| + 1
  {
    n < |acts| && acts[n].Lock? && |tr[n].log| == i &&
    exists a, b, ok :: SampleFrom(k, tr, acts, a, b, n, acts[n].id, ok, t.sample, t.readAt, t.behind)
  }

  lemma {:induction false} ClockLasts(tr: seq<State>, acts: seq<Action>, a: nat, n: nat, id: nat, at: real, behind: nat)
    requires n < |acts| && |tr| == |acts| + 1 && ClockFrom(tr, acts, a, n, id, at, behind) && !Of(acts[n], id)
    ensures ClockFrom(tr, acts, a, n + 1, id, at, behind)
  {
  }

  /** Every call under way stands where its own last steps put it. */
  lemma {:induction false} CallsFrom(k: Kernel, tr: seq<State>, acts: seq<Action>, n: nat, id: nat)
    requires IsRun(k, tr, acts) && n < |tr| && id in tr[n].calls
    ensures CallFrom(k, tr, acts, n, id, tr[n].calls[id])
  {
    if n == 0 {
    } else {
      var m := n - 1;
      var act := acts[m];
      assert tr[n] == Do(k, tr[m], act);
      if act == ReadClock(id) {
        assert ClockFrom(tr, acts, m, n, id, tr[m].time, |tr[m].log|);
      } else {
        CallsFrom(k, tr, acts, m, id);
        CallStep(k, tr, acts, m, id);
      }
    }
  }

  lemma {:induction false} CallStep(k: Kernel, tr: seq<State>, acts: seq<Action>, m: nat, id: nat)
    requires IsRun(k, tr, acts) && m < |acts| && id in tr[m].calls && id in tr[m + 1].calls && acts[m] != ReadClock(id)
    requires CallFrom(k, tr, acts, m, id, tr[m].calls[id])
    ensures CallFrom(k, tr, acts, m + 1, id, tr[m + 1].calls[id])
  {
    assert tr[m + 1] == Do(k, tr[m], acts[m]);
    match tr[m].calls[id]
    case Timed(at, behind) =>
      var a :| ClockFrom(tr, acts, a, m, id, at, behind);
      if acts[m].ReadCounters? && acts[m].id == id {
        var c := tr[m + 1].calls[id];
        assert SampleFrom(k, tr, acts, a, m, m + 1, id, acts[m].ok, c.sample, c.readAt, c.behind);
      } else {
        ClockLasts(tr, acts, a, m, id, at, behind);
      }
    case Sampled(s, readAt, behind) =>
      var a, b, ok :| SampleFrom(k, tr, acts, a, b, m, id, ok, s, readAt, behind);
      assert SampleFrom(k, tr, acts, a, b, m + 1, id, ok, s, readAt, behind);
  }

  ghost function Locks(acts: seq<Action>): nat {
    if acts == [] then 0 else Locks(Init(acts)) + if Last(acts).Lock? then 1 else 0
  }

  /** One turn per taking of the lock: no caller is left out, not even one without counters. */
  lemma {:induction false} LogIsLocks(k: Kernel, tr: seq<State>, acts: seq<Action>, n: nat)
    requires IsRun(k, tr, acts) && n < |tr|
    ensures |tr[n].log| == Locks(acts[..n])
  {
    if n == 0 {
    } else {
      LogIsLocks(k, tr, acts, n - 1);
      assert Init(acts[..n]) == acts[..n - 1] && Last(acts[..n]) == acts[n - 1];
      assert tr[n] == Do(k, tr[n - 1], acts[n - 1]);
    }
  }

  lemma {:induction false} LockTurn(k: Kernel, tr: seq<State>, acts: seq<Action>, m: nat)
    requires IsRun(k, tr, acts) && m < |acts| && acts[m].Lock?
    ensures tr[m].log < tr[m + 1].log && TurnFrom(k, tr, acts, m, |tr[m].log|, Last(tr[m + 1].log))
  {
    var id := acts[m].id;
    assert tr[m + 1] == Do(k, tr[m], acts[m]);
    CallsFrom(k, tr, acts, m, id);
    var c := tr[m].calls[id];
    var a, b, ok :| SampleFrom(k, tr, acts, a, b, m, id, ok, c.sample, c.readAt, c.behind);
  }

  /** Turn i is the i-th taking of the lock, with the clock and the counters its own call read. */
  lemma {:induction false} TurnProvenance(k: Kernel, tr: seq<State>, acts: seq<Action>, n: nat, i: nat) returns (m: nat)
    requires IsRun(k, tr, acts) && n < |tr| && i < |tr[n].log|
    ensures m < n && TurnFrom(k, tr, acts, m, i, tr[n].log[i])
  {
    m := n - 1;
    assert tr[n] == Do(k, tr[m], acts[m]);
    if i < |tr[m].log| {
      assert tr[n].log[i] == tr[m].log[i];
      m := TurnProvenance(k, tr, acts, m, i);
    } else {
      LockTurn(k, tr, acts, m);
    }
  }

  /** Under every interleaving each caller's baseline is the sample of the caller that held the
      lock just before it; the first caller has none and reports no rates. */
  lemma {:induction false} BaselineChain(k: Kernel, tr: seq<State>, acts: seq<Action>, n: nat, i: nat)
    requires IsRun(k, tr, acts) && n < |tr| && i < |tr[n].log|
    ensures 0 < i ==> tr[n].log[i].base == Some(tr[n].log[i - 1].sample)
    ensures i == 0 ==> forall dev :: Attach(tr[n].log[i].base, tr[n].log[i].sample, dev) == None
  {
    RunInv(k, tr, acts, n);
    assert TurnOk(k, tr[n].log, i);
  }

  /** A caller reports rates for a device exactly when it is not the first, its clock is later than
      its predecessor's, and both could read the device's counters. */
  lemma {:induction false} AttachedExactly(k: Kernel, tr: seq<State>, acts: seq<Action>, n: nat, i: nat, dev: string)
    requires IsRun(k, tr, acts) && n < |tr| && i < |tr[n].log|
    ensures var log := tr[n].log;
            Attach(log[i].base, log[i].sample, dev).Some? <==>
            && 0 < i && log[i - 1].sample.at < log[i].sample.at
            && log[i - 1].sample.counters.Some? && dev in k(log[i - 1].readAt)
            && log[i].sample.counters.Some? && dev in k(log[i].readAt)
  {
    RunInv(k, tr, acts, n);
    BaselineChain(k, tr, acts, n, i);
    assert TurnOk(k, tr[n].log, i);
    if 0 < i { assert TurnOk(k, tr[n].log, i - 1); }
  }

  // ----- what the reported numbers are worth

  datatype Field = ReadBytes | WriteBytes | ReadCount | WriteCount | IoTime

  function Get(c: Counters, f: Field): Word {
    match f
    case ReadBytes => c.readBytes
    case WriteBytes => c.writeBytes
    case ReadCount => c.readCount
    case WriteCount => c.writeCount
    case IoTime => c.ioTime
  }

  function RateField(r: Rates, f: Field): real {
    match f
    case ReadBytes => r.readBytes
    case WriteBytes => r.writeBytes
    case ReadCount => r.readOps
    case WriteCount => r.writeOps
    case IoTime => r.util
  }

  /** What a difference of `moved` in the field amounts to over `elapsed` seconds: a rate, or a
      percentage capped at 100. */
  function Scaled(f: Field, moved: real, elapsed: real): real
    requires elapsed > 0.0
  {
    if f.IoTime? then
      var pct := moved / (elapsed * 1000.0) * 100.0;
      if pct > 100.0 then 100.0 else pct
    else moved / elapsed
  }

  /** Counters of a device only grow. */
  ghost predicate Monotone(k: Kernel) {
    forall s, t, dev, f :: s <= t && dev in k(s) && dev in k(t) ==> Get(k(s)[dev], f) <= Get(k(t)[dev], f)
  }

  lemma {:induction false} MinusExact(a: Word, b: Word)
    ensures b <= a ==> Minus(a, b) == a - b
    ensures a < b ==> Minus(a, b) == TWO64 - (b - a)
  {
    if a < b {
      assert (a - b) % TWO64 == (a - b + TWO64) % TWO64;
    }
  }

  lemma {:induction false} ScaledSign(f: Field, moved: real, elapsed: real)
    requires elapsed > 0.0
    ensures moved >= 0.0 ==> Scaled(f, moved, elapsed) >= 0.0
    ensures moved < 0.0 ==> Scaled(f, moved, elapsed) < 0.0
    ensures f.IoTime? ==> Scaled(f, moved, elapsed) <= 100.0
  {
    assert elapsed * 1000.0 > 0.0;
  }

  /** An attached number is the scaled unsigned difference of its counter. */
  lemma {:induction false} AttachedIs(a: Sample, b: Sample, dev: string, f: Field)
    requires Attach(Some(a), b, dev).Some?
    ensures a.counters.Some? && b.counters.Some? && dev in a.counters.value && dev in b.counters.value && a.at < b.at
    ensures RateField(Attach(Some(a), b, dev).value, f) ==
            Scaled(f, Minus(Get(b.counters.value[dev], f), Get(a.counters.value[dev], f)) as real, b.at - a.at)
  {
  }

  /** The true change of the field between two samples. */
  function Change(was: Word, cur: Word): real { cur as real - was as real }

  /** Reported and true number agree unless the counter went back, and then the report is the
      complement to 2^64. */
  lemma {:induction false} ReportOf(f: Field, was: Word, cur: Word, elapsed: real)
    requires elapsed > 0.0
    ensures var reported, true' := Scaled(f, Minus(cur, was) as real, elapsed), Scaled(f, Change(was, cur), elapsed);
            && reported >= 0.0
            && (reported == true' <==> was <= cur)
            && (cur < was ==> reported == Scaled(f, TWO64 as real - Change(cur, was), elapsed))
  {
    MinusExact(cur, was);
    ScaledSign(f, Minus(cur, was) as real, elapsed);
    ScaledSign(f, Change(was, cur), elapsed);
  }

  /** Turn i's counters were read before those of the turn it is compared with, and the field moved
      between the two reads. */
  ghost predicate CrossedAndMoved(k: Kernel, log: seq<Turn>, i: nat, dev: string, f: Field)
    requires 0 < i < |log|
  {
    var early, late := log[i].readAt, log[i - 1].readAt;
    early < late && dev in k(early) && dev in k(late) && Get(k(early)[dev], f) != Get(k(late)[dev], f)
  }

  /** For every interleaving and every field: a reported number is the true change per second (or
      utilisation) exactly when the two counter reads were not crossed by a movement of that
      counter; otherwise it is the complement to 2^64 of what the counter moved by.  It is never
      negative, and utilisation never above 100. */
  lemma {:induction false} WrapExact(
      k: Kernel, tr: seq<State>, acts: seq<Action>, n: nat, i: nat, dev: string, f: Field)
    requires IsRun(k, tr, acts) && n < |tr| && 0 < i < |tr[n].log| && Monotone(k)
    requires Attach(tr[n].log[i].base, tr[n].log[i].sample, dev).Some?
    ensures var log := tr[n].log;
            var prev, cur := log[i - 1].sample, log[i].sample;
            && prev.counters.Some? && dev in prev.counters.value && prev.at < cur.at
            && var was, now, elapsed := Get(prev.counters.value[dev], f), Get(cur.counters.value[dev], f), cur.at - prev.at;
               var reported := RateField(Attach(log[i].base, cur, dev).value, f);
               && reported >= 0.0 && (f.IoTime? ==> reported <= 100.0)
               && (reported == Scaled(f, Change(was, now), elapsed) <==> !CrossedAndMoved(k, log, i, dev, f))
               && (CrossedAndMoved(k, log, i, dev, f) ==>
                     now < was && reported == Scaled(f, TWO64 as real - Change(now, was), elapsed))
  {
    RunInv(k, tr, acts, n);
    BaselineChain(k, tr, acts, n, i);
    var a, b := tr[n].log[i - 1], tr[n].log[i];
    assert TurnOk(k, tr[n].log, i - 1) && TurnOk(k, tr[n].log, i);
    AttachedIs(a.sample, b.sample, dev, f);
    var was, now := Get(a.sample.counters.value[dev], f), Get(b.sample.counters.value[dev], f);
    assert was == Get(k(a.readAt)[dev], f) && now == Get(k(b.readAt)[dev], f);
    ReportOf(f, was, now, b.sample.at - a.sample.at);
    ScaledSign(f, Minus(now, was) as real, b.sample.at - a.sample.at);
  }

  /** A caller that read its clock after its predecessor had left the lock also read its counters
      after it, so nothing it reports is wrapped. */
  lemma {:induction false} SequentialIsOrdered(k: Kernel, tr: seq<State>, acts: seq<Action>, n: nat, i: nat)
    requires IsRun(k, tr, acts) && n < |tr| && 0 < i < |tr[n].log|
    requires tr[n].log[i].behind == i
    ensures tr[n].log[i - 1].readAt <= tr[n].log[i].sample.at <= tr[n].log[i].readAt
    ensures forall dev, f :: !CrossedAndMoved(k, tr[n].log, i, dev, f)
  {
    RunInv(k, tr, acts, n);
    assert TurnOk(k, tr[n].log, i);
  }

  /** Two overlapping calls around times t and u, for any kernel. */
  lemma {:induction false} CrossedRun(k: Kernel, t: real, u: real) returns (tr: seq<State>, acts: seq<Action>)
    requires 0.0 < t < u
    ensures IsRun(k, tr, acts)
    ensures var first := Sample(0.0, Some(k(u)));
            Last(tr).log == [Turn(None, first, u, 0), Turn(Some(first), Sample(t, Some(k(t))), t, 0)]
  {
    var one, two := Sample(t, Some(k(t))), Sample(0.0, Some(k(u)));
    acts := [ReadClock(0), Wait(t), ReadClock(1), ReadCounters(1, true), Wait(u - t),
             ReadCounters(0, true), Lock(0), Lock(1)];
    var c0, c1, d0, d1 := Timed(0.0, 0), Timed(t, 0), Sampled(two, u, 0), Sampled(one, t, 0);
    var s1 := State(0.0, None, map[0 := c0], []);
    var s2 := State(t, None, map[0 := c0], []);
    var s3 := State(t, None, map[0 := c0, 1 := c1], []);
    var s4 := State(t, None, map[0 := c0, 1 := d1], []);
    var s5 := State(u, None, map[0 := c0, 1 := d1], []);
    var s6 := State(u, None, map[0 := d0, 1 := d1], []);
    var s7 := State(u, Some(two), map[1 := d1], [Turn(None, two, u, 0)]);
    var s8 := State(u, Some(one), map[], [Turn(None, two, u, 0), Turn(Some(two), one, t, 0)]);
    assert Do(k, s3, acts[3]) == s4;
    assert Do(k, s5, acts[5]) == s6;
    assert Do(k, s6, acts[6]) == s7;
    assert Do(k, s7, acts[7]) == s8;
    tr := [INITIAL, s1, s2, s3, s4, s5, s6, s7, s8];
  }

  /** Whenever a counter moves between two times there is an interleaving that reports it wrapped. */
  lemma {:induction false} CrossedReadsWrap(k: Kernel, t: real, u: real, dev: string, f: Field)
    returns (tr: seq<State>, acts: seq<Action>)
    requires Monotone(k) && 0.0 < t < u && dev in k(t) && dev in k(u) && Get(k(t)[dev], f) != Get(k(u)[dev], f)
    ensures IsRun(k, tr, acts) && |Last(tr).log| == 2
    ensures var r := Attach(Last(tr).log[1].base, Last(tr).log[1].sample, dev);
            r.Some? && RateField(r.value, f) ==
                         Scaled(f, TWO64 as real - Change(Get(k(t)[dev], f), Get(k(u)[dev], f)), t)
  {
    tr, acts := CrossedRun(k, t, u);
    var log := Last(tr).log;
    assert log[1].readAt == t && log[0].readAt == u && CrossedAndMoved(k, log, 1, dev, f);
    WrapExact(k, tr, acts, |tr| - 1, 1, dev, f);
  }

  // ----- telescoping

  /** Sum of rate times elapsed time. */
  ghost function Integral(rates: seq<real>, elapsed: seq<real>): real
    requires |rates| == |elapsed|
  {
    if rates == [] then 0.0 else Integral(Init(rates), Init(elapsed)) + Last(rates) * Last(elapsed)
  }

  lemma {:induction false} DivTimes(n: real, e: real)
    requires e > 0.0
    ensures n / e * e == n
  {
  }

  ghost predicate Accounts(was: Word, cur: Word, rate: real, e: real) {
    rate * e == Change(was, cur)
  }

  lemma {:induction false} RateAccounts(f: Field, was: Word, cur: Word, rate: real, e: real)
    requires e > 0.0 && !f.IoTime? && rate == Scaled(f, Change(was, cur), e)
    ensures Accounts(was, cur, rate, e)
  {
    DivTimes(Change(was, cur), e);
  }

  lemma {:induction false} AccountsAddUp(vals: seq<Word>, rates: seq<real>, elapsed: seq<real>)
    requires |vals| == |rates| + 1 == |elapsed| + 1
    requires forall i :: 0 <= i < |rates| ==> Accounts(vals[i], vals[i + 1], rates[i], elapsed[i])
    ensures Integral(rates, elapsed) == Change(vals[0], Last(vals))
  {
    if rates == [] {
    } else {
      var n := |rates| - 1;
      AccountsAddUp(Init(vals), Init(rates), Init(elapsed));
      assert Accounts(vals[n], vals[n + 1], rates[n], elapsed[n]);
    }
  }

  /** The device's counter in the turn's own sample, 0 without one. */
  ghost function Reading(t: Turn, dev: string, f: Field): Word {
    if t.sample.counters.Some? && dev in t.sample.counters.value then Get(t.sample.counters.value[dev], f) else 0
  }

  /** The number the turn reports for the device, 0 without one. */
  ghost function Reported(t: Turn, dev: string, f: Field): real {
    match Attach(t.base, t.sample, dev)
    case Some(r) => RateField(r, f)
    case None => 0.0
  }

  /** Turn i reports rates for dev, and its counters were read no earlier than its predecessor's. */
  ghost predicate InStep(log: seq<Turn>, i: nat, dev: string) {
    0 < i < |log| && log[i - 1].readAt <= log[i].readAt && Attach(log[i].base, log[i].sample, dev).Some?
  }

  /** Turn i's rate, over its own interval, accounts for what the counter did. */
  ghost predicate Explains(log: seq<Turn>, i: nat, dev: string, f: Field) {
    0 < i < |log| &&
    Accounts(Reading(log[i - 1], dev, f), Reading(log[i], dev, f), Reported(log[i], dev, f),
             log[i].sample.at - log[i - 1].sample.at)
  }

  lemma {:induction false} TurnExplains(
      k: Kernel, tr: seq<State>, acts: seq<Action>, n: nat, i: nat, dev: string, f: Field)
    requires IsRun(k, tr, acts) && n < |tr| && Monotone(k) && !f.IoTime? && InStep(tr[n].log, i, dev)
    ensures Explains(tr[n].log, i, dev, f)
  {
    WrapExact(k, tr, acts, n, i, dev, f);
    var a, b := tr[n].log[i - 1], tr[n].log[i];
    RateAccounts(f, Reading(a, dev, f), Reading(b, dev, f), Reported(b, dev, f), b.sample.at - a.sample.at);
  }

  lemma {:induction false} ExplainedAddUp(
      log: seq<Turn>, lo: nat, dev: string, f: Field, rates: seq<real>, elapsed: seq<real>)
    requires |rates| == |elapsed| && lo + |rates| < |log|
    requires forall i :: lo < i <= lo + |rates| ==> Explains(log, i, dev, f)
    requires forall j :: 0 <= j < |rates| ==> rates[j] == Reported(log[lo + j + 1], dev, f)
    requires forall j :: 0 <= j < |rates| ==> elapsed[j] == log[lo + j + 1].sample.at - log[lo + j].sample.at
    ensures Integral(rates, elapsed) == Change(Reading(log[lo], dev, f), Reading(log[lo + |rates|], dev, f))
  {
    var vals := seq<Word>(|rates| + 1, j requires 0 <= j <= |rates| => Reading(log[lo + j], dev, f));
    forall j | 0 <= j < |rates| ensures Accounts(vals[j], vals[j + 1], rates[j], elapsed[j]) {
      assert Explains(log, lo + j + 1, dev, f);
    }
    AccountsAddUp(vals, rates, elapsed);
  }

  /** Over any stretch of consecutive lock holders that all report the device with their counter
      reads in order, the reported rates times their intervals add up to exactly what the counter
      moved by from the first to the last. */
  lemma {:induction false} Telescopes(
      k: Kernel, tr: seq<State>, acts: seq<Action>, n: nat, lo: nat, dev: string, f: Field,
      rates: seq<real>, elapsed: seq<real>)
    requires IsRun(k, tr, acts) && n < |tr| && Monotone(k) && !f.IoTime?
    requires |rates| == |elapsed| && lo + |rates| < |tr[n].log|
    requires forall i :: lo < i <= lo + |rates| ==> InStep(tr[n].log, i, dev)
    requires forall j :: 0 <= j < |rates| ==> rates[j] == Reported(tr[n].log[lo + j + 1], dev, f)
    requires forall j :: 0 <= j < |rates| ==>
               elapsed[j] == tr[n].log[lo + j + 1].sample.at - tr[n].log[lo + j].sample.at
    ensures Integral(rates, elapsed) ==
            Change(Reading(tr[n].log[lo], dev, f), Reading(tr[n].log[lo + |rates|], dev, f))
  {
    forall i | lo < i <= lo + |rates| ensures Explains(tr[n].log, i, dev, f) {
      TurnExplains(k, tr, acts, n, i, dev, f);
    }
    ExplainedAddUp(tr[n].log, lo, dev, f, rates, elapsed);
  }
}
