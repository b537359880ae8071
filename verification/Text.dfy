// String operations shared by the Go and PHP sides.  Letter case is ASCII.
module Text {
  import opened Common

  function LowerChar(c: char): char {
    if 'A' <= c <= 'Z' then c - 'A' + 'a' else c
  }

  function Lower(s: string): (r: string)
    ensures |r| == |s|
  {
    if s == "" then "" else Lower(Init(s)) + [LowerChar(Last(s))]
  }

  lemma {:induction false} LowerAt(s: string, i: nat)
    requires i < |s|
    ensures Lower(s)[i] == LowerChar(s[i])
  {
    if i < |s| - 1 { LowerAt(Init(s), i); }
  }

  /** The same letter in either case, or the same character. */
  predicate SameLetter(a: char, b: char) {
    || a == b
    || ('A' <= a <= 'Z' && b as int == a as int + 32)
    || ('A' <= b <= 'Z' && a as int == b as int + 32)
  }

  predicate EqualFold(a: string, b: string) {
    |a| == |b| && forall i :: 0 <= i < |a| ==> SameLetter(a[i], b[i])
  }

  /** Equal in lower case means equal but for the case of letters. */
  lemma {:induction false} LowerExact(a: string, b: string)
    ensures Lower(a) == Lower(b) <==> EqualFold(a, b)
  {
    if |a| == |b| {
      forall i | 0 <= i < |a| ensures Lower(a)[i] == Lower(b)[i] <==> SameLetter(a[i], b[i]) {
        LowerAt(a, i);
        LowerAt(b, i);
      }
    }
  }

  lemma {:induction false} LowerIdempotent(s: string)
    ensures Lower(Lower(s)) == Lower(s)
  {
    var low := Lower(s);
    forall i | 0 <= i < |s| ensures Lower(low)[i] == low[i] {
      LowerAt(s, i);
      LowerAt(low, i);
    }
  }

  /** Lower-casing neither makes nor destroys the string "0". */
  lemma {:induction false} LowerEmpty(s: string)
    ensures Empty(Lower(s)) <==> Empty(s)
  {
    if |s| == 1 {
      assert Init(s) == "" && Lower(s) == [LowerChar(s[0])];
    }
  }

  /** s without the characters of `space` at either end. */
  function Trim(space: char -> bool, s: string): (r: string)
    ensures r != "" ==> !space(r[0]) && !space(Last(r))
    ensures |r| <= |s|
    decreases |s|
  {
    if s == "" then ""
    else if space(s[0]) then Trim(space, s[1..])
    else if space(Last(s)) then Trim(space, Init(s))
    else s
  }

  predicate All(space: char -> bool, s: string) { forall i :: 0 <= i < |s| ==> space(s[i]) }

  /** r is s without some characters of `space` at its ends, and has none at its own ends. */
  ghost predicate Stripped(space: char -> bool, s: string, r: string) {
    && (r != "" ==> !space(r[0]) && !space(Last(r)))
    && exists front, back :: All(space, front) && All(space, back) && s == front + r + back
  }

  lemma {:induction false} TrimParts(space: char -> bool, s: string) returns (front: string, back: string)
    ensures All(space, front) && All(space, back) && s == front + Trim(space, s) + back
    decreases |s|
  {
    front, back := "", "";
    if s == "" {
    } else if space(s[0]) {
      front, back := TrimParts(space, s[1..]);
      front := [s[0]] + front;
    } else if space(Last(s)) {
      front, back := TrimParts(space, Init(s));
      assert s == Init(s) + [Last(s)];
      back := back + [Last(s)];
    }
  }

  /** There is only one way to strip a string. */
  lemma {:induction false} TrimExact(space: char -> bool, s: string, r: string)
    ensures Stripped(space, s, r) <==> r == Trim(space, s)
  {
    var before, after := TrimParts(space, s);
    if Stripped(space, s, r) {
      var front, back :| All(space, front) && All(space, back) && s == front + r + back;
      TrimOf(space, front, r, back);
    }
  }

  lemma {:induction false} TrimOf(space: char -> bool, front: string, r: string, back: string)
    requires All(space, front) && All(space, back) && (r != "" ==> !space(r[0]) && !space(Last(r)))
    ensures Trim(space, front + r + back) == r
    decreases |front| + |back|
  {
    var s := front + r + back;
    if front != "" {
      assert s[0] == front[0] && s[1..] == front[1..] + r + back;
      TrimOf(space, front[1..], r, back);
    } else if r == "" && back != "" {
      assert s[0] == back[0] && s[1..] == "" + r + back[1..];
      TrimOf(space, "", r, back[1..]);
    } else if back != "" {
      assert s[0] == r[0] && Last(s) == Last(back) && Init(s) == "" + r + Init(back);
      TrimOf(space, "", r, Init(back));
    } else {
      assert s == r;
    }
  }

  lemma {:induction false} TrimIdempotent(space: char -> bool, s: string)
    ensures Trim(space, Trim(space, s)) == Trim(space, s)
  {
  }

  function Replace(s: string, from: char, to: char): (r: string)
    ensures |r| == |s|
  {
    if s == "" then "" else Replace(Init(s), from, to) + [if Last(s) == from then to else Last(s)]
  }

  lemma {:induction false} ReplaceAt(s: string, from: char, to: char, i: nat)
    requires i < |s|
    ensures Replace(s, from, to)[i] == if s[i] == from then to else s[i]
  {
    if i < |s| - 1 { ReplaceAt(Init(s), from, to, i); }
  }

  /** Replacing there, back and there again is replacing once. */
  lemma {:induction false} ReplaceBack(s: string, a: char, b: char)
    ensures Replace(Replace(Replace(s, a, b), b, a), a, b) == Replace(s, a, b)
  {
    var there := Replace(s, a, b);
    var back := Replace(there, b, a);
    forall i | 0 <= i < |s| ensures Replace(back, a, b)[i] == there[i] {
      ReplaceAt(s, a, b, i);
      ReplaceAt(there, b, a, i);
      ReplaceAt(back, a, b, i);
    }
  }

  lemma {:induction false} ReplaceEmpty(s: string, a: char, b: char)
    requires a != '0' && b != '0'
    ensures Empty(Replace(s, a, b)) <==> Empty(s)
  {
    if |s| == 1 {
      assert Init(s) == "" && Replace(s, a, b) == [if s[0] == a then b else s[0]];
    }
  }

  /** The part of s before the first `c`; all of s when there is none. */
  function Before(s: string, c: char): (r: string)
    ensures r <= s && c !in r
    ensures |r| < |s| ==> s[|r|] == c
  {
    if s == "" || s[0] == c then ""
    else
      var r := Before(s[1..], c);
      assert s == [s[0]] + s[1..];
      [s[0]] + r
  }

  /** The blanks strings.TrimSpace removes: the code points with Unicode's White_Space property. */
  predicate GoSpace(c: char): (yes: bool)
    ensures yes <==> c as int in {
              0x09, 0x0A, 0x0B, 0x0C, 0x0D, 0x20, 0x85, 0xA0, 0x1680, 0x2000, 0x2001, 0x2002, 0x2003, 0x2004, 0x2005,
              0x2006, 0x2007, 0x2008, 0x2009, 0x200A, 0x2028, 0x2029, 0x202F, 0x205F, 0x3000}
  {
    || '\t' <= c <= '\r' || c == ' ' || c == '\U{0085}' || c == '\U{00A0}' || c == '\U{1680}'
    || '\U{2000}' <= c <= '\U{200A}' || c == '\U{2028}' || c == '\U{2029}' || c == '\U{202F}'
    || c == '\U{205F}' || c == '\U{3000}'
  }

  /** The bytes PHP's trim removes. */
  predicate PhpSpace(c: char) {
    c == ' ' || c == '\t' || c == '\n' || c == '\r' || c == '\0' || c == '\U{000B}'
  }
}
