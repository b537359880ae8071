// Splitting a partition's kernel name into base device and partition number.
module DeviceName {
  import opened Common

  predicate IsDigit(c: char): (yes: bool)
    ensures yes <==> c in {'0', '1', '2', '3', '4', '5', '6', '7', '8', '9'}
  {
    '0' <= c <= '9'
  }

  predicate AllDigits(s: string) { forall i :: 0 <= i < |s| ==> IsDigit(s[i]) }

  predicate Digits(s: string) { s != "" && AllDigits(s) }

  predicate Letters(s: string) { s != "" && forall i :: 0 <= i < |s| ==> 'a' <= s[i] <= 'z' }

  // ----- the two regular expressions

  /** nvme\d+n\d+ */
  ghost predicate NvmeDisk(base: string) {
    exists d, e :: Digits(d) && Digits(e) && base == "nvme" + d + "n" + e
  }

  /** ^(nvme\d+n\d+)p(\d+)$ with its two groups. */
  ghost predicate MatchesNvme(name: string, base: string, num: string) {
    NvmeDisk(base) && Digits(num) && name == base + "p" + num
  }

  /** ^([a-z]+)(\d+)$ with its two groups. */
  ghost predicate MatchesTraditional(name: string, base: string, num: string) {
    Letters(base) && Digits(num) && name == base + num
  }

  // ----- matching by maximal digit suffix

  /** Length of s without its trailing digits. */
  function Stem(s: string): (n: nat)
    ensures n <= |s| && AllDigits(s[n..]) && (n > 0 ==> !IsDigit(s[n - 1]))
  {
    if s == "" || !IsDigit(Last(s)) then |s| else Stem(Init(s))
  }

  /** The suffix is the only way to cut s before its trailing digits. */
  lemma {:induction false} StemIs(head: string, tail: string)
    requires AllDigits(tail) && (head != "" ==> !IsDigit(Last(head)))
    ensures Stem(head + tail) == |head|
  {
    if tail == "" {
      assert head + tail == head;
    } else {
      assert Init(head + tail) == head + Init(tail);
      assert Last(head + tail) == Last(tail);
      StemIs(head, Init(tail));
    }
  }

  /** s is head + c + digits: the head and the digits. */
  function CutAt(s: string, c: char): Option<(string, string)>
    requires !IsDigit(c)
  {
    var n := Stem(s);
    if 0 < n < |s| && s[n - 1] == c then Some((s[..n - 1], s[n..])) else None
  }

  lemma {:induction false} CutAtExact(s: string, c: char, head: string, tail: string)
    requires !IsDigit(c)
    ensures CutAt(s, c) == Some((head, tail)) <==> Digits(tail) && s == head + [c] + tail
  {
    if Digits(tail) && s == head + [c] + tail {
      StemIs(head + [c], tail);
      assert s[..|head|] == head && s[|head| + 1..] == tail;
    }
    var n := Stem(s);
    if 0 < n < |s| && s[n - 1] == c {
      assert s == s[..n - 1] + [c] + s[n..];
    }
  }

  function ParseNvme(name: string): Option<(string, string)> {
    match CutAt(name, 'p')
    case None => None
    case Some((base, num)) =>
      match CutAt(base, 'n')
      case None => None
      case Some((front, _)) =>
        match CutAt(front, 'e')
        case None => None
        case Some((stem, _)) => if stem == "nvm" then Some((base, num)) else None
  }

  function ParseTraditional(name: string): Option<(string, string)> {
    var n := Stem(name);
    if n < |name| && Letters(name[..n]) then Some((name[..n], name[n..])) else None
  }

  /** parseDevice: the NVMe form first, then the traditional one. */
  function ParseDevice(name: string): Option<(string, string)> {
    var m := ParseNvme(name);
    if m.Some? then m else ParseTraditional(name)
  }

  lemma {:induction false} NvmeDiskExact(base: string)
    ensures NvmeDisk(base) <==>
            var a := CutAt(base, 'n');
            a.Some? && var b := CutAt(a.value.0, 'e'); b.Some? && b.value.0 == "nvm"
  {
    if NvmeDisk(base) {
      var d, e :| Digits(d) && Digits(e) && base == "nvme" + d + "n" + e;
      assert base == ("nvme" + d) + ['n'] + e && "nvme" + d == "nvm" + ['e'] + d;
      CutAtExact(base, 'n', "nvme" + d, e);
      CutAtExact("nvme" + d, 'e', "nvm", d);
    }
    var a := CutAt(base, 'n');
    if a.Some? {
      var b := CutAt(a.value.0, 'e');
      if b.Some? && b.value.0 == "nvm" {
        CutAtExact(base, 'n', a.value.0, a.value.1);
        CutAtExact(a.value.0, 'e', b.value.0, b.value.1);
        assert a.value.0 == "nvme" + b.value.1;
        assert base == "nvme" + b.value.1 + "n" + a.value.1;
      }
    }
  }

  lemma {:induction false} ParseNvmeExact(name: string, base: string, num: string)
    ensures ParseNvme(name) == Some((base, num)) <==> MatchesNvme(name, base, num)
  {
    CutAtExact(name, 'p', base, num);
    NvmeDiskExact(base);
  }

  lemma {:induction false} ParseTraditionalExact(name: string, base: string, num: string)
    ensures ParseTraditional(name) == Some((base, num)) <==> MatchesTraditional(name, base, num)
  {
    var n := Stem(name);
    assert name == name[..n] + name[n..];
    if MatchesTraditional(name, base, num) {
      assert !IsDigit(Last(base));
      StemIs(base, num);
      assert name[..|base|] == base && name[|base|..] == num;
    }
  }

  /** Once digits start, only digits follow. */
  ghost predicate DigitsLast(name: string) {
    forall i, j :: 0 <= i < j < |name| && IsDigit(name[i]) ==> IsDigit(name[j])
  }

  lemma {:induction false} TraditionalDigitsLast(name: string, base: string, num: string)
    requires MatchesTraditional(name, base, num)
    ensures DigitsLast(name)
  {
    forall j | |base| <= j < |name| ensures IsDigit(name[j]) { assert name[j] == num[j - |base|]; }
    forall i | 0 <= i < |base| ensures !IsDigit(name[i]) { assert name[i] == base[i]; }
  }

  lemma {:induction false} NvmeDigitsNotLast(name: string, base: string, num: string)
    requires MatchesNvme(name, base, num)
    ensures !DigitsLast(name)
  {
    var d, e :| Digits(d) && Digits(e) && base == "nvme" + d + "n" + e;
    assert name == "nvme" + d + "n" + e + "p" + num;
    assert name[4] == d[0] && IsDigit(name[4]) && name[4 + |d|] == 'n' && !IsDigit(name[4 + |d|]);
  }

  /** No name matches both forms. */
  lemma {:induction false} FormsDisjoint(name: string, b1: string, n1: string, b2: string, n2: string)
    ensures !(MatchesNvme(name, b1, n1) && MatchesTraditional(name, b2, n2))
  {
    if MatchesNvme(name, b1, n1) { NvmeDigitsNotLast(name, b1, n1); }
    if MatchesTraditional(name, b2, n2) { TraditionalDigitsLast(name, b2, n2); }
  }

  /** parseDevice accepts exactly the two forms and its parts recompose to the name. */
  lemma {:induction false} ParseDeviceExact(name: string, base: string, num: string)
    ensures ParseDevice(name) == Some((base, num)) <==>
            MatchesNvme(name, base, num) || MatchesTraditional(name, base, num)
    ensures ParseDevice(name) == Some((base, num)) ==> Digits(num) && (name == base + num || name == base + "p" + num)
  {
    ParseNvmeExact(name, base, num);
    ParseTraditionalExact(name, base, num);
    var m := ParseNvme(name);
    if m.Some? {
      ParseNvmeExact(name, m.value.0, m.value.1);
      NvmeDigitsNotLast(name, m.value.0, m.value.1);
    }
    if MatchesTraditional(name, base, num) {
      TraditionalDigitsLast(name, base, num);
    }
  }
}
