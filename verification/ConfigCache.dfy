// Loading pc-meta-data.json from the config-drive with a local cache copy that
// is replaced by write-temp-then-rename.  Any file operation may fail and the
// machine may lose power at any step, including halfway through the temp write.
// `parses` stands for the JSON decoder accepting a file's content.
module ConfigCache {
  import opened Common

  const META := "pc-meta-data.json"

  /** Reading one file. */
  datatype Read = Missing | Unreadable | Content(text: string)

  /** What the operating system does during one boot: the file as read from the drive (Missing also
      when no drive is attached or mounting it fails), the second read made for the copy, how much
      of the temp file gets written, whether the rename works, and whether the cache directory's
      own file can be read. */
  datatype World = World(
    drive: Read, reread: Read, dirMade: bool, written: Option<string>, renamed: bool, cacheReadable: bool)

  /** ISOMetadata: empty, or the content it was parsed from; or Load's error return. */
  datatype Meta = NoMeta | Parsed(text: string) | LoadError

  datatype Phase = Off | Copying(text: string) | Renaming(text: string) | Fallback | Returned(meta: Meta)

  /** `files` is the cache directory.  `seen` collects the contents parsed from a drive so far and
      `cached` is the content of the last completed rename. */
  datatype Disk = Disk(files: map<string, string>, phase: Phase, seen: set<string>, cached: Option<string>)

  datatype Setup = Setup(name: string, parses: string -> bool)

  function TempName(name: string): string { name + ".tmp" }

  function ReadBack(files: map<string, string>, readable: bool): Read {
    if META !in files then Missing else if readable then Content(files[META]) else Unreadable
  }

  function StepLoad(u: Setup, w: World, s: Disk): Disk {
    match s.phase
    case Off =>
      if w.drive.Content? && u.parses(w.drive.text)
      then s.(phase := Copying(w.drive.text), seen := s.seen + {w.drive.text})
      else s.(phase := Fallback)
    case Copying(text) =>
      if !w.reread.Content? || !w.dirMade then s.(phase := Returned(Parsed(text)))
      else if w.written.Some? then
        s.(files := s.files[TempName(u.name) := w.written.value], phase := Returned(Parsed(text)))
      else s.(files := s.files[TempName(u.name) := w.reread.text], phase := Renaming(text))
    case Renaming(text) =>
      var tmp := TempName(u.name);
      if w.renamed && tmp in s.files then
        s.(files := (s.files - {tmp})[u.name := s.files[tmp]], cached := Some(s.files[tmp]),
           phase := Returned(Parsed(text)))
      else s.(phase := Returned(Parsed(text)))
    case Fallback =>
      s.(phase := Returned(match ReadBack(s.files, w.cacheReadable)
                           case Missing => NoMeta
                           case Unreadable => LoadError
                           case Content(text) => if u.parses(text) then Parsed(text) else LoadError))
    case Returned(_) => s
  }

  /** Power loss, or the next boot. */
  function Reboot(s: Disk): Disk { s.(phase := Off) }

  function StepAct(u: Setup, act: Option<World>, s: Disk): Disk {
    if act.Some? then StepLoad(u, act.value, s) else Reboot(s)
  }

  ghost predicate IsRun(u: Setup, tr: seq<Disk>, acts: seq<Option<World>>) {
    && |tr| == |acts| + 1 && tr[0] == Disk(map[], Off, {}, None)
    && forall i :: 0 <= i < |acts| ==> tr[i + 1] == StepAct(u, acts[i], tr[i])
  }

  /** The drive does not change between Load's own read and the one made for the copy. */
  ghost predicate StableAt(act: Option<World>, s: Disk) {
    act.Some? && s.phase.Copying? && act.value.reread.Content? ==> act.value.reread.text == s.phase.text
  }

  ghost predicate Stable(tr: seq<Disk>, acts: seq<Option<World>>)
    requires |tr| == |acts| + 1
  {
    forall i :: 0 <= i < |acts| ==> StableAt(acts[i], tr[i])
  }

  function Rank(p: Phase): nat {
    match p
    case Off => 3
    case Copying(_) => 2
    case Renaming(_) => 1
    case Fallback => 1
    case Returned(_) => 0
  }

  /** One uninterrupted Load. */
  function Complete(u: Setup, w: World, s: Disk): Disk
    decreases Rank(s.phase)
  {
    if s.phase.Returned? then s else Complete(u, w, StepLoad(u, w, s))
  }

  // ----- what the fallback finds, on every drive

  /** The file the fallback reads is exactly the last completed copy. */
  ghost predicate Holds(s: Disk) {
    if s.cached.Some? then META in s.files && s.files[META] == s.cached.value else META !in s.files
  }

  lemma {:induction false} TempDiffers(name: string)
    ensures TempName(name) != name && TempName(name) != META
  {
    assert Last(TempName(name)) == 'p' && Last(META) == 'n';
    assert |TempName(name)| == |name| + 4;
  }

  lemma {:induction false} HoldsStep(u: Setup, s: Disk, act: Option<World>)
    requires u.name == META && Holds(s)
    ensures Holds(StepAct(u, act, s))
  {
    TempDiffers(META);
  }

  lemma {:induction false} RunHolds(u: Setup, tr: seq<Disk>, acts: seq<Option<World>>, n: nat)
    requires u.name == META && IsRun(u, tr, acts) && n < |tr|
    ensures Holds(tr[n])
  {
    if n == 0 {
    } else {
      RunHolds(u, tr, acts, n - 1);
      HoldsStep(u, tr[n - 1], acts[n - 1]);
    }
  }

  /** The result of an uninterrupted Load, from the drive and the fallback file. */
  lemma {:induction false} CompleteResult(u: Setup, w: World, s: Disk)
    requires s.phase.Off?
    ensures var out := Complete(u, w, s).phase;
            if w.drive.Content? && u.parses(w.drive.text) then out == Returned(Parsed(w.drive.text))
            else Complete(u, w, s).files == s.files && match ReadBack(s.files, w.cacheReadable)
              case Missing => out == Returned(NoMeta)
              case Unreadable => out == Returned(LoadError)
              case Content(text) => out == Returned(if u.parses(text) then Parsed(text) else LoadError)
  {
    var s1 := StepLoad(u, w, s);
    var s2 := StepLoad(u, w, s1);
    assert Complete(u, w, s1) == Complete(u, w, s2);
    if s2.phase.Renaming? { assert Complete(u, w, s2) == StepLoad(u, w, s2); }
  }

  /** What Load returns after any boots, crashes and drive changes: the drive's content when it
      parses, otherwise the last completed copy, otherwise nothing.  It fails exactly when the drive
      is of no use, a copy was once completed, and that copy cannot be read or does not parse. */
  lemma {:induction false} LoadExact(u: Setup, tr: seq<Disk>, acts: seq<Option<World>>, n: nat, w: World)
    requires u.name == META && IsRun(u, tr, acts) && n < |tr| && tr[n].phase.Off?
    ensures var out, copy := Complete(u, w, tr[n]).phase, tr[n].cached;
            var onDrive := w.drive.Content? && u.parses(w.drive.text);
            && (onDrive ==> out == Returned(Parsed(w.drive.text)))
            && (!onDrive && copy.None? ==> out == Returned(NoMeta))
            && (!onDrive && copy.Some? && w.cacheReadable && u.parses(copy.value) ==>
                  out == Returned(Parsed(copy.value)))
            && (out == Returned(LoadError) <==>
                  !onDrive && copy.Some? && !(w.cacheReadable && u.parses(copy.value)))
  {
    RunHolds(u, tr, acts, n);
    CompleteResult(u, w, tr[n]);
  }

  // ----- what a Load leaves in the directory

  /** Every step of the copy works. */
  predicate Copies(w: World) { w.reread.Content? && w.dirMade && w.written.None? && w.renamed }

  /** The directory after an uninterrupted Load, from the directory before it and what the operating
      system did: a drive that parses is copied every time, whatever the directory holds. */
  lemma {:induction false} LoadRefreshes(u: Setup, w: World, s: Disk)
    requires s.phase.Off?
    ensures var out, tmp := Complete(u, w, s).files, u.name + ".tmp";
            if !(w.drive.Content? && u.parses(w.drive.text) && w.reread.Content? && w.dirMade) then out == s.files
            else if w.written.Some? then out == s.files[tmp := w.written.value]
            else if !w.renamed then out == s.files[tmp := w.reread.text]
            else out == (s.files - {tmp})[u.name := w.reread.text]
    ensures w.drive.Content? && u.parses(w.drive.text) && Copies(w) ==>
              u.name in Complete(u, w, s).files && Complete(u, w, s).files[u.name] == w.reread.text
  {
    var s1 := StepLoad(u, w, s);
    var s2 := StepLoad(u, w, s1);
    assert Complete(u, w, s) == Complete(u, w, s1) == Complete(u, w, s2);
    if s2.phase.Renaming? { assert Complete(u, w, s2) == StepLoad(u, w, s2); }
  }

  /** Step i renames a finished temp file. */
  ghost predicate RenamesAt(tr: seq<Disk>, acts: seq<Option<World>>, i: nat) {
    i < |tr| && i < |acts| && acts[i].Some? && tr[i].phase.Renaming? && acts[i].value.renamed
  }

  /** The three steps from i on read a drive that parses, reread it as `text` and rename the copy. */
  ghost predicate CopiedFrom(u: Setup, tr: seq<Disk>, acts: seq<Option<World>>, i: nat, text: string) {
    && i + 3 <= |acts| && i < |tr| && tr[i].phase.Off?
    && acts[i].Some? && acts[i + 1].Some? && acts[i + 2].Some?
    && acts[i].value.drive.Content? && u.parses(acts[i].value.drive.text)
    && acts[i + 1].value.reread == Content(text) && acts[i + 1].value.dirMade && acts[i + 1].value.written.None?
    && acts[i + 2].value.renamed
  }

  lemma {:induction false} CopyLands(u: Setup, tr: seq<Disk>, acts: seq<Option<World>>, i: nat, text: string)
    requires IsRun(u, tr, acts) && CopiedFrom(u, tr, acts, i, text)
    ensures u.name in tr[i + 3].files && tr[i + 3].files[u.name] == text
  {
    assert tr[i + 1] == StepAct(u, acts[i], tr[i]);
    assert tr[i + 2] == StepAct(u, acts[i + 1], tr[i + 1]);
    assert tr[i + 3] == StepAct(u, acts[i + 2], tr[i + 2]);
  }

  lemma {:induction false} CopyStays(u: Setup, tr: seq<Disk>, acts: seq<Option<World>>, m: nat, n: nat)
    requires IsRun(u, tr, acts) && m <= n < |tr| && u.name in tr[m].files
    requires forall j :: m <= j < n ==> !RenamesAt(tr, acts, j)
    ensures u.name in tr[n].files && tr[n].files[u.name] == tr[m].files[u.name]
  {
    if n == m {
    } else {
      CopyStays(u, tr, acts, m, n - 1);
      assert !RenamesAt(tr, acts, n - 1);
      assert tr[n] == StepAct(u, acts[n - 1], tr[n - 1]);
      TempDiffers(u.name);
    }
  }

  /** The newest copy is what a later boot without a drive returns: after a boot that copied `text`,
      and with no later rename, whatever else happened in between. */
  lemma {:induction false} NewestCopyServed(
      u: Setup, tr: seq<Disk>, acts: seq<Option<World>>, i: nat, n: nat, text: string, w: World)
    requires u.name == "pc-meta-data.json" && IsRun(u, tr, acts) && i + 3 <= n < |tr| && CopiedFrom(u, tr, acts, i, text)
    requires forall j :: i + 3 <= j < n ==> !RenamesAt(tr, acts, j)
    requires tr[n].phase.Off? && w.cacheReadable && !(w.drive.Content? && u.parses(w.drive.text))
    ensures Complete(u, w, tr[n]).phase == Returned(if u.parses(text) then Parsed(text) else LoadError)
    ensures text == acts[i].value.drive.text ==> Complete(u, w, tr[n]).phase == Returned(Parsed(text))
  {
    CopyLands(u, tr, acts, i, text);
    CopyStays(u, tr, acts, i + 3, n);
    CompleteResult(u, w, tr[n]);
  }

  // ----- a drive that does not change while it is read

  /** Whatever was copied had been parsed from a drive. */
  ghost predicate Inv(u: Setup, s: Disk) {
    && (forall x :: x in s.seen ==> u.parses(x))
    && (s.cached.Some? ==> s.cached.value in s.seen)
    && (s.phase.Copying? || s.phase.Renaming? ==> s.phase.text in s.seen)
    && (s.phase.Renaming? ==> TempName(u.name) in s.files && s.files[TempName(u.name)] == s.phase.text)
  }

  lemma {:induction false} RunInv(u: Setup, tr: seq<Disk>, acts: seq<Option<World>>, n: nat)
    requires IsRun(u, tr, acts) && n < |tr| && Stable(tr, acts)
    ensures Inv(u, tr[n])
  {
    if n == 0 {
    } else {
      RunInv(u, tr, acts, n - 1);
      assert StableAt(acts[n - 1], tr[n - 1]);
    }
  }

  /** Over every sequence of boots and crashes the cache file is absent or is, whole and parseable,
      the content of the last completed copy, once read from a drive. */
  lemma {:induction false} CacheIntegrity(u: Setup, tr: seq<Disk>, acts: seq<Option<World>>, n: nat)
    requires u.name == META && IsRun(u, tr, acts) && n < |tr| && Stable(tr, acts)
    ensures var s := tr[n];
            if META in s.files then s.cached == Some(s.files[META]) && s.files[META] in s.seen && u.parses(s.files[META])
            else s.cached.None?
  {
    RunHolds(u, tr, acts, n);
    RunInv(u, tr, acts, n);
  }

  /** Then Load fails only if an existing cache file cannot be read. */
  lemma {:induction false} LoadResult(u: Setup, tr: seq<Disk>, acts: seq<Option<World>>, n: nat, w: World)
    requires u.name == META && IsRun(u, tr, acts) && n < |tr| && Stable(tr, acts) && tr[n].phase.Off?
    ensures var out := Complete(u, w, tr[n]).phase;
            if w.drive.Content? && u.parses(w.drive.text) then out == Returned(Parsed(w.drive.text))
            else if tr[n].cached.None? then out == Returned(NoMeta)
            else if w.cacheReadable then out == Returned(Parsed(tr[n].cached.value))
            else out == Returned(LoadError)
  {
    LoadExact(u, tr, acts, n, w);
    RunInv(u, tr, acts, n);
  }

  // ----- a changing drive and another file name

  /** A drive that changes between the two reads can leave an unparseable cache, which the next
      boot without a drive reports as an error. */
  lemma {:induction false} UnstableDrivePoisons(parses: string -> bool, good: string, bad: string)
    returns (tr: seq<Disk>, acts: seq<Option<World>>)
    requires parses(good) && !parses(bad)
    ensures IsRun(Setup(META, parses), tr, acts) && Last(tr).phase == Returned(LoadError)
    ensures forall i :: 0 <= i < |acts| && acts[i].Some? ==> acts[i].value.cacheReadable
  {
    TempDiffers(META);
    var u := Setup(META, parses);
    var w := World(Content(good), Content(bad), true, None, true, true);
    var gone := w.(drive := Missing);
    var s0 := Disk(map[], Off, {}, None);
    var s1 := StepLoad(u, w, s0);
    var s2 := StepLoad(u, w, s1);
    var s3 := StepLoad(u, w, s2);
    var s4 := Reboot(s3);
    var s5 := StepLoad(u, gone, s4);
    var s6 := StepLoad(u, gone, s5);
    assert s3.files[META] == bad;
    tr := [s0, s1, s2, s3, s4, s5, s6];
    acts := [Some(w), Some(w), Some(w), None, Some(gone), Some(gone)];
  }

  lemma {:induction false} MisnamedRun(u: Setup, tr: seq<Disk>, acts: seq<Option<World>>, n: nat)
    requires u.name != META && IsRun(u, tr, acts) && n < |tr|
    ensures META !in tr[n].files
  {
    if n == 0 {
    } else {
      MisnamedRun(u, tr, acts, n - 1);
      TempDiffers(u.name);
    }
  }

  /** Under any other cache file name no run ever finds a cached copy: Load returns what the drive
      holds, or nothing, however many copies were completed. */
  lemma {:induction false} MisnamedCacheIsLost(u: Setup, tr: seq<Disk>, acts: seq<Option<World>>, n: nat, w: World)
    requires u.name != META && IsRun(u, tr, acts) && n < |tr| && tr[n].phase.Off?
    ensures Complete(u, w, tr[n]).phase ==
            Returned(if w.drive.Content? && u.parses(w.drive.text) then Parsed(w.drive.text) else NoMeta)
  {
    MisnamedRun(u, tr, acts, n);
    CompleteResult(u, w, tr[n]);
  }

  /** And copies are completed under such a name, on a drive that does not change. */
  lemma {:induction false} MisnamedCopyIsMade(u: Setup, good: string) returns (tr: seq<Disk>, acts: seq<Option<World>>)
    requires u.name != META && u.parses(good)
    ensures IsRun(u, tr, acts) && Stable(tr, acts)
    ensures Last(tr).phase.Off? && Last(tr).cached == Some(good) && Last(tr).files == map[u.name := good]
  {
    var w := World(Content(good), Content(good), true, None, true, true);
    var s0 := Disk(map[], Off, {}, None);
    var s1 := StepLoad(u, w, s0);
    var s2 := StepLoad(u, w, s1);
    var s3 := StepLoad(u, w, s2);
    TempDiffers(u.name);
    tr := [s0, s1, s2, s3, Reboot(s3)];
    acts := [Some(w), Some(w), Some(w), None];
  }

  // ----- Load itself

  class Directory {
    var files: map<string, string>

    constructor ()
      ensures files == map[]
    {
      files := map[];
    }

    /** cacheCopy, with the error return as ok == false, leaves the directory as the machine's
        remaining steps do.  The cache file never shows anything but its old content or all of what
        was read, the latter on success; nothing but the two names is touched. */
    method CacheCopy(u: Setup, w: World, ghost s: Disk) returns (ok: bool)
      requires s.phase.Copying? && s.files == files
      modifies this
      ensures files == Complete(u, w, s).files
      ensures ok <==> Copies(w)
      ensures Complete(u, w, s).cached == if ok then Some(w.reread.text) else s.cached
      ensures ok ==> w.reread.Content? && u.name in files && files[u.name] == w.reread.text
      ensures ok ==> TempName(u.name) !in files
      ensures !ok ==> files - {TempName(u.name)} == old(files) - {TempName(u.name)}
      ensures files - {u.name, TempName(u.name)} == old(files) - {u.name, TempName(u.name)}
    {
      TempDiffers(u.name);
      ghost var next := StepLoad(u, w, s);
      assert Complete(u, w, s) == Complete(u, w, next);
      if !w.reread.Content? { return false; }
      if !w.dirMade { return false; }
      var tmp := u.name + ".tmp";
      if w.written.Some? {
        files := files[tmp := w.written.value];
        return false;
      }
      files := files[tmp := w.reread.text];
      assert Complete(u, w, next) == StepLoad(u, w, next);
      if !w.renamed { return false; }
      files := (files - {tmp})[u.name := files[tmp]];
      return true;
    }

    /** Load leaves the directory and returns the metadata exactly as the machine's steps do. */
    method Load(u: Setup, w: World, ghost seen: set<string>, ghost cached: Option<string>) returns (meta: Meta)
      modifies this
      ensures var end := Complete(u, w, Disk(old(files), Off, seen, cached));
              files == end.files && end.phase == Returned(meta)
      ensures w.drive.Content? && u.parses(w.drive.text) ==> meta == Parsed(w.drive.text)
      ensures w.drive.Content? && u.parses(w.drive.text) && Copies(w) ==>
                files == (old(files) - {u.name + ".tmp"})[u.name := w.reread.text]
      ensures !(w.drive.Content? && u.parses(w.drive.text)) ==> files == old(files)
    {
      ghost var s := Disk(files, Off, seen, cached);
      ghost var next := StepLoad(u, w, s);
      CompleteResult(u, w, s);
      LoadRefreshes(u, w, s);
      assert Complete(u, w, s) == Complete(u, w, next);
      if w.drive.Content? && u.parses(w.drive.text) {
        var _ := CacheCopy(u, w, next);
        return Parsed(w.drive.text);
      }
      match ReadBack(files, w.cacheReadable)
      case Missing => meta := NoMeta;
      case Unreadable => meta := LoadError;
      case Content(text) => meta := if u.parses(text) then Parsed(text) else LoadError;
    }
  }
}
