// The ordered lists behind filter/rule and nat/rule: rules are appended with a
// tracker and deleted by it.  The two delete scripts differ only in the list.
module RuleStore {
  import opened Common
  import opened Text

  /** A stored rule; config.xml may hold rules without a tracker. */
  datatype Rule<B> = Rule(tracker: Option<string>, body: B)

  /** (string)(tracker ?? '') === t, for a t that passed the argument check. */
  predicate Has<B>(r: Rule<B>, t: string) { r.tracker.GetOr("") == t }

  /** delete.php refuses blank arguments. */
  predicate Blank(t: string) { Trim(PhpSpace, t) == "" }

  predicate Holds<B>(rules: seq<Rule<B>>, t: string) {
    exists i :: 0 <= i < |rules| && Has(rules[i], t)
  }

  /** The list without its first rule that has tracker t. */
  function DeleteFirst<B>(rules: seq<Rule<B>>, t: string): seq<Rule<B>> {
    if rules == [] then []
    else if Has(rules[0], t) then rules[1..]
    else [rules[0]] + DeleteFirst(rules[1..], t)
  }

  /** Rule i is the first to carry tracker t. */
  ghost predicate FirstWith<B>(rules: seq<Rule<B>>, t: string, i: nat) {
    i < |rules| && rules[i].tracker == Some(t) && forall j :: 0 <= j < i ==> rules[j].tracker != Some(t)
  }

  /** Blank means nothing but PHP's six blanks. */
  lemma {:induction false} BlankExact(t: string)
    ensures Blank(t) <==> forall c :: c in t ==> c in {' ', '\t', '\n', '\r', '\0', '\U{000B}'}
  {
    var front, back := TrimParts(PhpSpace, t);
    if Blank(t) {
      assert t == front + back;
      forall c | c in t ensures PhpSpace(c) {
        var i :| 0 <= i < |t| && t[i] == c;
        assert if i < |front| then c == front[i] else c == back[i - |front|];
      }
    } else {
      var m := Trim(PhpSpace, t);
      assert t[|front|] == m[0] && m[0] in t && !PhpSpace(m[0]);
    }
  }

  class Store<B> {
    var rules: seq<Rule<B>>

    constructor (initial: seq<Rule<B>>)
      ensures rules == initial
    {
      rules := initial;
    }

    method Create(t: string, body: B)
      modifies this
      ensures rules == old(rules) + [Rule(Some(t), body)]
    {
      rules := rules + [Rule(Some(t), body)];
    }

    /** Search loop, unset and reindex: succeeds exactly when t has a character that is no blank and
        some rule carries it, and then takes out the first such rule and nothing else. */
    method Delete(t: string) returns (ok: bool)
      modifies this
      ensures ok == (!Blank(t) && Holds(old(rules), t))
      ensures rules == if ok then DeleteFirst(old(rules), t) else old(rules)
      ensures ok <==> (exists c :: c in t && c !in {' ', '\t', '\n', '\r', '\0', '\U{000B}'})
                      && exists i :: 0 <= i < |old(rules)| && old(rules)[i].tracker == Some(t)
      ensures ok ==> exists i :: 0 <= i < |old(rules)| && FirstWith(old(rules), t, i)
                                 && rules == old(rules)[..i] + old(rules)[i + 1..]
    {
      BlankExact(t);
      if Blank(t) { return false; }
      var i := 0;
      while i < |rules| && !Has(rules[i], t)
        invariant 0 <= i <= |rules| && rules == old(rules)
        invariant forall j :: 0 <= j < i ==> !Has(rules[j], t)
      {
        i := i + 1;
      }
      if i == |rules| { return false; }
      DeleteFirstAt(rules, t, i);
      rules := rules[..i] + rules[i + 1..];
      return true;
    }
  }

  lemma {:induction false} DeleteFirstAt<B>(rules: seq<Rule<B>>, t: string, i: nat)
    requires i < |rules| && Has(rules[i], t)
    requires forall j :: 0 <= j < i ==> !Has(rules[j], t)
    ensures DeleteFirst(rules, t) == rules[..i] + rules[i + 1..]
  {
    if i == 0 {
    } else {
      DeleteFirstAt(rules[1..], t, i - 1);
      assert rules[..i] + rules[i + 1..] == [rules[0]] + (rules[1..][..i - 1] + rules[1..][i..]);
    }
  }

  // ----- runs

  datatype Op<B> = Create(tracker: string, body: B) | Delete(tracker: string)

  predicate Succeeds<B>(rules: seq<Rule<B>>, op: Op<B>) {
    op.Create? || (!Blank(op.tracker) && Holds(rules, op.tracker))
  }

  function Step<B>(rules: seq<Rule<B>>, op: Op<B>): seq<Rule<B>> {
    match op
    case Create(t, body) => rules + [Rule(Some(t), body)]
    case Delete(t) => if Succeeds(rules, op) then DeleteFirst(rules, t) else rules
  }

  function Run<B>(rules: seq<Rule<B>>, ops: seq<Op<B>>): seq<Rule<B>> {
    if ops == [] then rules else Step(Run(rules, Init(ops)), Last(ops))
  }

  // ----- conservation

  function Count<B>(rules: seq<Rule<B>>, t: string): nat {
    if rules == [] then 0 else (if Has(rules[0], t) then 1 else 0) + Count(rules[1..], t)
  }

  function Creates<B>(ops: seq<Op<B>>, t: string): nat {
    if ops == [] then 0
    else Creates(Init(ops), t) + if Last(ops).Create? && Last(ops).tracker == t then 1 else 0
  }

  function Deletes<B>(rules: seq<Rule<B>>, ops: seq<Op<B>>, t: string): nat {
    if ops == [] then 0
    else
      var op := Last(ops);
      Deletes(rules, Init(ops), t) +
      if op.Delete? && op.tracker == t && Succeeds(Run(rules, Init(ops)), op) then 1 else 0
  }

  lemma {:induction false} CountAppend<B>(rules: seq<Rule<B>>, r: Rule<B>, t: string)
    ensures Count(rules + [r], t) == Count(rules, t) + if Has(r, t) then 1 else 0
  {
    if rules == [] {
    } else {
      assert (rules + [r])[1..] == rules[1..] + [r];
      CountAppend(rules[1..], r, t);
    }
  }

  lemma {:induction false} CountDelete<B>(rules: seq<Rule<B>>, d: string, t: string)
    requires Holds(rules, d)
    ensures Count(DeleteFirst(rules, d), t) == Count(rules, t) - if d == t then 1 else 0
  {
    if !Has(rules[0], d) {
      var i :| 0 <= i < |rules| && Has(rules[i], d);
      assert Has(rules[1..][i - 1], d);
      CountDelete(rules[1..], d, t);
      var rest := DeleteFirst(rules[1..], d);
      assert ([rules[0]] + rest)[1..] == rest;
    }
  }

  /** For every tracker: rules present = initial + created with it - successfully deleted by it. */
  lemma {:induction false} Conservation<B>(rules: seq<Rule<B>>, ops: seq<Op<B>>, t: string)
    ensures Count(Run(rules, ops), t) == Count(rules, t) + Creates(ops, t) - Deletes(rules, ops, t)
  {
    if ops == [] {
    } else {
      Conservation(rules, Init(ops), t);
      var now, op := Run(rules, Init(ops)), Last(ops);
      match op
      case Create(c, body) => CountAppend(now, Rule(Some(c), body), t);
      case Delete(d) => if Succeeds(now, op) { CountDelete(now, d, t); }
    }
  }

  // ----- order

  function CreatedRules<B>(ops: seq<Op<B>>): seq<Rule<B>> {
    if ops == [] then []
    else if Last(ops).Create? then CreatedRules(Init(ops)) + [Rule(Some(Last(ops).tracker), Last(ops).body)]
    else CreatedRules(Init(ops))
  }

  lemma {:induction false} DeleteFirstSublist<B>(rules: seq<Rule<B>>, t: string)
    ensures Sublist(DeleteFirst(rules, t), rules)
  {
    if i :| 0 <= i < |rules| && Has(rules[i], t) && forall j :: 0 <= j < i ==> !Has(rules[j], t) {
      DeleteFirstAt(rules, t, i);
      SublistDelete(rules[..i], [rules[i]], rules[i + 1..]);
      assert rules == rules[..i] + [rules[i]] + rules[i + 1..];
    } else {
      NoMatch(rules, t, 0);
      DeleteFirstMiss(rules, t);
      SublistRefl(rules);
    }
  }

  /** With no first match from position n on there is no match at all. */
  lemma {:induction false} NoMatch<B>(rules: seq<Rule<B>>, t: string, n: nat)
    requires n <= |rules| && forall j :: 0 <= j < n ==> !Has(rules[j], t)
    requires !exists i :: 0 <= i < |rules| && Has(rules[i], t) && forall j :: 0 <= j < i ==> !Has(rules[j], t)
    ensures !Holds(rules, t)
    decreases |rules| - n
  {
    if n < |rules| { NoMatch(rules, t, n + 1); }
  }

  lemma {:induction false} DeleteFirstMiss<B>(rules: seq<Rule<B>>, t: string)
    requires !Holds(rules, t)
    ensures DeleteFirst(rules, t) == rules
  {
    if rules == [] {
    } else {
      assert !Has(rules[0], t);
      forall i | 0 <= i < |rules[1..]| ensures !Has(rules[1..][i], t) { assert rules[1..][i] == rules[i + 1]; }
      DeleteFirstMiss(rules[1..], t);
    }
  }

  /** Whatever survives a run stands in the order it was stored or created. */
  lemma {:induction false} OrderKept<B>(rules: seq<Rule<B>>, ops: seq<Op<B>>)
    ensures Sublist(Run(rules, ops), rules + CreatedRules(ops))
  {
    if ops == [] {
      assert rules + CreatedRules(ops) == rules;
      SublistRefl(rules);
    } else {
      OrderKept(rules, Init(ops));
      var now, op, all := Run(rules, Init(ops)), Last(ops), rules + CreatedRules(Init(ops));
      match op
      case Create(t, body) =>
        SublistSnoc(now, all, Rule(Some(t), body));
        assert rules + CreatedRules(ops) == all + [Rule(Some(t), body)];
      case Delete(t) =>
        DeleteFirstSublist(now, t);
        SublistRefl(now);
        SublistTrans(Step(now, op), now, all);
    }
  }

  // ----- rules nobody can address

  /** The rules no accepted delete argument can match, in order. */
  function Unaddressed<B>(rules: seq<Rule<B>>): seq<Rule<B>> {
    if rules == [] then []
    else if Blank(rules[0].tracker.GetOr("")) then [rules[0]] + Unaddressed(rules[1..])
    else Unaddressed(rules[1..])
  }

  lemma {:induction false} UnaddressedAppend<B>(rules: seq<Rule<B>>, r: Rule<B>)
    ensures Unaddressed(rules + [r]) ==
            if Blank(r.tracker.GetOr("")) then Unaddressed(rules) + [r] else Unaddressed(rules)
  {
    if rules != [] {
      assert (rules + [r])[1..] == rules[1..] + [r];
      UnaddressedAppend(rules[1..], r);
    } else {
      assert (rules + [r])[1..] == [];
    }
  }

  lemma {:induction false} UnaddressedDelete<B>(rules: seq<Rule<B>>, t: string)
    requires !Blank(t)
    ensures Unaddressed(DeleteFirst(rules, t)) == Unaddressed(rules)
  {
    if rules != [] && !Has(rules[0], t) {
      UnaddressedDelete(rules[1..], t);
      var rest := DeleteFirst(rules[1..], t);
      assert ([rules[0]] + rest)[1..] == rest;
    }
  }

  /** Rules without a usable tracker are never removed, added or reordered. */
  lemma {:induction false} UnaddressedKept<B>(rules: seq<Rule<B>>, ops: seq<Op<B>>)
    requires forall i :: 0 <= i < |ops| && ops[i].Create? ==> !Blank(ops[i].tracker)
    ensures Unaddressed(Run(rules, ops)) == Unaddressed(rules)
  {
    if ops == [] {
    } else {
      UnaddressedKept(rules, Init(ops));
      var now, op := Run(rules, Init(ops)), Last(ops);
      match op
      case Create(t, body) => UnaddressedAppend(now, Rule(Some(t), body));
      case Delete(t) => if Succeeds(now, op) { UnaddressedDelete(now, t); }
    }
  }

  // ----- create then delete

  function Without<B>(rules: seq<Rule<B>>, t: string): seq<Rule<B>> {
    if rules == [] then []
    else if Has(rules[0], t) then Without(rules[1..], t)
    else [rules[0]] + Without(rules[1..], t)
  }

  lemma {:induction false} WithoutAppend<B>(rules: seq<Rule<B>>, r: Rule<B>, t: string)
    ensures Without(rules + [r], t) == if Has(r, t) then Without(rules, t) else Without(rules, t) + [r]
  {
    if rules != [] {
      assert (rules + [r])[1..] == rules[1..] + [r];
      WithoutAppend(rules[1..], r, t);
    } else {
      assert (rules + [r])[1..] == [];
    }
  }

  lemma {:induction false} WithoutDelete<B>(rules: seq<Rule<B>>, d: string, t: string)
    requires d != t
    ensures Without(DeleteFirst(rules, d), t) == DeleteFirst(Without(rules, t), d)
  {
    if rules == [] {
    } else {
      WithoutDelete(rules[1..], d, t);
      var rest := DeleteFirst(rules[1..], d);
      assert ([rules[0]] + rest)[1..] == rest;
    }
  }

  lemma {:induction false} WithoutHolds<B>(rules: seq<Rule<B>>, d: string, t: string)
    requires d != t
    ensures Holds(Without(rules, t), d) <==> Holds(rules, d)
  {
    if rules == [] {
    } else {
      WithoutHolds(rules[1..], d, t);
      HoldsCons(rules, d);
      if !Has(rules[0], t) {
        HoldsCons(Without(rules, t), d);
        assert Without(rules, t)[1..] == Without(rules[1..], t);
      }
    }
  }

  lemma {:induction false} HoldsCons<B>(rules: seq<Rule<B>>, d: string)
    requires rules != []
    ensures Holds(rules, d) <==> Has(rules[0], d) || Holds(rules[1..], d)
  {
    if Holds(rules, d) {
      var i :| 0 <= i < |rules| && Has(rules[i], d);
      if i > 0 { assert Has(rules[1..][i - 1], d); }
    }
    if Holds(rules[1..], d) {
      var i :| 0 <= i < |rules[1..]| && Has(rules[1..][i], d);
      assert Has(rules[i + 1], d);
    }
  }

  lemma {:induction false} WithoutRun<B>(rules: seq<Rule<B>>, ops: seq<Op<B>>, t: string)
    requires forall i :: 0 <= i < |ops| ==> ops[i].tracker != t
    ensures Without(Run(rules, ops), t) == Run(Without(rules, t), ops)
  {
    if ops == [] {
    } else {
      WithoutRun(rules, Init(ops), t);
      var now, op := Run(rules, Init(ops)), Last(ops);
      match op
      case Create(c, body) => WithoutAppend(now, Rule(Some(c), body), t);
      case Delete(d) =>
        WithoutHolds(now, d, t);
        WithoutDelete(now, d, t);
    }
  }

  lemma {:induction false} WithoutIdle<B>(rules: seq<Rule<B>>, t: string)
    requires Count(rules, t) == 0
    ensures Without(rules, t) == rules && !Holds(rules, t)
  {
    if rules == [] {
    } else {
      WithoutIdle(rules[1..], t);
      HoldsCons(rules, t);
    }
  }

  lemma {:induction false} DeleteOnly<B>(rules: seq<Rule<B>>, t: string)
    requires Count(rules, t) == 1
    ensures Holds(rules, t) && DeleteFirst(rules, t) == Without(rules, t)
  {
    HoldsCons(rules, t);
    if Has(rules[0], t) { WithoutIdle(rules[1..], t); }
    else { DeleteOnly(rules[1..], t); }
  }

  lemma {:induction false} NoTraffic<B>(rules: seq<Rule<B>>, ops: seq<Op<B>>, t: string)
    requires forall i :: 0 <= i < |ops| ==> ops[i].tracker != t
    ensures Creates(ops, t) == 0 && Deletes(rules, ops, t) == 0
  {
    if ops == [] {
    } else {
      NoTraffic(rules, Init(ops), t);
    }
  }

  lemma {:induction false} RunAppend<B>(rules: seq<Rule<B>>, a: seq<Op<B>>, b: seq<Op<B>>)
    ensures Run(rules, a + b) == Run(Run(rules, a), b)
  {
    if b == [] {
      assert a + b == a;
    } else {
      assert Init(a + b) == a + Init(b);
      RunAppend(rules, a, Init(b));
    }
  }

  /** A rule created under a fresh tracker and deleted later leaves no trace, whatever happened to
      other trackers in between. */
  lemma {:induction false} CreateThenDelete<B>(rules: seq<Rule<B>>, t: string, body: B, ops: seq<Op<B>>)
    requires !Blank(t) && Count(rules, t) == 0
    requires forall i :: 0 <= i < |ops| ==> ops[i].tracker != t
    ensures Run(rules, [Create(t, body)] + ops + [Delete(t)]) == Run(rules, ops)
  {
    var r := Rule(Some(t), body);
    var all := [Op<B>.Create(t, body)] + ops;
    assert Run(rules, []) == rules && Init([Op<B>.Create(t, body)]) == [];
    assert Run(rules, [Op<B>.Create(t, body)]) == rules + [r];
    RunAppend(rules, [Op<B>.Create(t, body)], ops);
    var now := Run(rules + [r], ops);
    assert Init(all + [Op<B>.Delete(t)]) == all;
    CountAppend(rules, r, t);
    Conservation(rules + [r], ops, t);
    NoTraffic(rules + [r], ops, t);
    DeleteOnly(now, t);
    WithoutRun(rules + [r], ops, t);
    WithoutAppend(rules, r, t);
    WithoutIdle(rules, t);
  }
}
