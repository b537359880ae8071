// Recognising the config-drive in the output of FreeBSD's mount(8).
module MountTable {
  import opened Common
  import opened Text

  // ----- strings.Split and strings.Index

  function Split(s: string): (parts: seq<string>)
    decreases |s|
  {
    var line := Before(s, '\n');
    if |line| == |s| then [line] else [line] + Split(s[|line| + 1..])
  }

  predicate OccursAt(s: string, pat: string, i: nat) {
    i + |pat| <= |s| && s[i..i + |pat|] == pat
  }

  /** First occurrence of pat in s at or after `from`. */
  function IndexFrom(s: string, pat: string, from: nat): (r: Option<nat>)
    requires from <= |s|
    ensures r.Some? ==> from <= r.value && OccursAt(s, pat, r.value)
    ensures forall i :: from <= i <= |s| && (r.None? || i < r.value) ==> !OccursAt(s, pat, i)
    decreases |s| - from
  {
    if OccursAt(s, pat, from) then Some(from)
    else if from == |s| then None
    else IndexFrom(s, pat, from + 1)
  }

  // ----- the parser

  predicate Optical(fstype: string) { fstype == "cd9660" || fstype == "udf" }

  function Needle(path: string): string { " on " + path + " (" }

  function LineMatches(line: string, path: string): bool {
    match IndexFrom(line, Needle(path), 0)
    case None => false
    case Some(i) => Optical(Trim(GoSpace, Before(Before(line[i + |Needle(path)|..], ','), ')')))
  }

  predicate AnyLine(lines: seq<string>, path: string) {
    exists i :: 0 <= i < |lines| && LineMatches(lines[i], path)
  }

  method HasConfigDrive(output: string, path: string) returns (found: bool)
    ensures found == AnyLine(Split(output), path)
  {
    var lines := Split(output);
    for i := 0 to |lines|
      invariant forall j :: 0 <= j < i ==> !LineMatches(lines[j], path)
    {
      if LineMatches(lines[i], path) { return true; }
    }
    return false;
  }

  // ----- mount(8)'s rendering

  /** `options` is empty or starts with a comma. */
  datatype Mount = Mount(device: string, path: string, fstype: string, options: string)

  function Render(m: Mount): string { m.device + " on " + m.path + " (" + m.fstype + m.options + ")" }

  function RenderAll(ms: seq<Mount>): string {
    if ms == [] then "" else Render(ms[0]) + "\n" + RenderAll(ms[1..])
  }

  /** A file system type is a word, options come after a comma, and nothing spans lines. */
  ghost predicate WellFormed(m: Mount) {
    && m.fstype != "" && !GoSpace(m.fstype[0]) && !GoSpace(Last(m.fstype))
    && ',' !in m.fstype && ')' !in m.fstype
    && (m.options == "" || m.options[0] == ',')
    && '\n' !in Render(m)
  }

  /** " on P (" occurs in the line only as the separator in front of a mount at P. */
  ghost predicate Unambiguous(m: Mount, path: string) {
    forall i :: 0 <= i <= |Render(m)| && OccursAt(Render(m), Needle(path), i) ==> i == |m.device| && m.path == path
  }

  // ----- rendered lines

  lemma {:induction false} BeforeIs(head: string, c: char, tail: string)
    requires c !in head
    ensures Before(head + [c] + tail, c) == head
  {
    if head == "" {
    } else {
      assert (head + [c] + tail)[1..] == head[1..] + [c] + tail;
      BeforeIs(head[1..], c, tail);
    }
  }

  lemma {:induction false} BeforeNone(s: string, c: char)
    requires c !in s
    ensures Before(s, c) == s
  {
    if s == "" {
    } else {
      BeforeNone(s[1..], c);
    }
  }

  /** The type field of a rendered line is cut out whole. */
  lemma {:induction false} TypeField(m: Mount)
    requires WellFormed(m)
    ensures Trim(GoSpace, Before(Before(m.fstype + m.options + ")", ','), ')')) == m.fstype
  {
    var rest := m.fstype + m.options + ")";
    if m.options == "" {
      assert rest == m.fstype + [')'] + "";
      BeforeNone(rest, ',');
      BeforeIs(m.fstype, ')', "");
    } else {
      assert rest == m.fstype + [','] + (m.options[1..] + ")");
      BeforeIs(m.fstype, ',', m.options[1..] + ")");
      BeforeNone(m.fstype, ')');
    }
  }

  /** A line whose first separator stands after `front` is judged by what follows the separator. */
  lemma {:induction false} MatchAfter(front: string, path: string, rest: string)
    requires forall i :: 0 <= i < |front| ==> !OccursAt(front + Needle(path) + rest, Needle(path), i)
    ensures LineMatches(front + Needle(path) + rest, path) <==> Optical(Trim(GoSpace, Before(Before(rest, ','), ')')))
  {
    var needle := Needle(path);
    var line := front + needle + rest;
    assert OccursAt(line, needle, |front|);
    assert line[|front| + |needle|..] == rest;
  }

  lemma {:induction false} LineExact(m: Mount, path: string)
    requires WellFormed(m) && Unambiguous(m, path)
    ensures LineMatches(Render(m), path) <==> m.path == path && Optical(m.fstype)
  {
    if m.path == path {
      var rest := m.fstype + m.options + ")";
      assert Render(m) == m.device + Needle(path) + rest;
      MatchAfter(m.device, path, rest);
      TypeField(m);
    }
  }

  lemma {:induction false} SplitLine(line: string, rest: string)
    requires '\n' !in line
    ensures Split(line + ['\n'] + rest) == [line] + Split(rest)
  {
    BeforeIs(line, '\n', rest);
    assert (line + ['\n'] + rest)[|line| + 1..] == rest;
  }

  lemma {:induction false} SplitRendered(ms: seq<Mount>)
    requires forall i :: 0 <= i < |ms| ==> WellFormed(ms[i])
    ensures var parts := Split(RenderAll(ms));
            |parts| == |ms| + 1 && parts[|ms|] == "" && forall i :: 0 <= i < |ms| ==> parts[i] == Render(ms[i])
  {
    if ms == [] {
    } else {
      SplitRendered(ms[1..]);
      SplitLine(Render(ms[0]), RenderAll(ms[1..]));
    }
  }

  lemma {:induction false} EmptyLine(path: string)
    ensures !LineMatches("", path)
  {
  }

  lemma {:induction false} AnyLineOf(parts: seq<string>, ms: seq<Mount>, path: string)
    requires |parts| == |ms| + 1 && !LineMatches(parts[|ms|], path)
    requires forall i :: 0 <= i < |ms| ==> (LineMatches(parts[i], path) <==> ms[i].path == path && Optical(ms[i].fstype))
    ensures AnyLine(parts, path) <==> exists i :: 0 <= i < |ms| && ms[i].path == path && Optical(ms[i].fstype)
  {
    if i :| 0 <= i < |ms| && ms[i].path == path && Optical(ms[i].fstype) { assert LineMatches(parts[i], path); }
  }

  /** On any rendered mount table the parser answers whether some entry at the path is optical. */
  lemma {:induction false} ParserExact(ms: seq<Mount>, path: string)
    requires forall i :: 0 <= i < |ms| ==> WellFormed(ms[i]) && Unambiguous(ms[i], path)
    ensures AnyLine(Split(RenderAll(ms)), path) <==>
            exists i :: 0 <= i < |ms| && ms[i].path == path && ms[i].fstype in {"cd9660", "udf"}
  {
    SplitRendered(ms);
    var parts := Split(RenderAll(ms));
    forall i | 0 <= i < |ms| ensures LineMatches(parts[i], path) <==> ms[i].path == path && Optical(ms[i].fstype) {
      LineExact(ms[i], path);
    }
    EmptyLine(path);
    AnyLineOf(parts, ms, path);
  }

  /** Without that the parser is fooled: a mount point ending in " on P" is taken for P itself. */
  lemma {:induction false} EmbeddedPathFools(m: Mount, prefix: string, path: string)
    requires WellFormed(m) && m.path == prefix + " on " + path
    requires forall i :: 0 <= i < |m.device| + 4 + |prefix| ==> !OccursAt(Render(m), Needle(path), i)
    ensures m.path != path
    ensures LineMatches(Render(m), path) <==> Optical(m.fstype)
  {
    var front, rest := m.device + " on " + prefix, m.fstype + m.options + ")";
    assert Render(m) == front + Needle(path) + rest;
    MatchAfter(front, path, rest);
    TypeField(m);
    assert |m.path| > |path|;
  }
}
