// Shared vocabulary: optional values, machine words, PHP's notion of an empty
// string, and order-preserving sublists.
module Common {

  datatype Option<+T> = None | Some(value: T) {
    function GetOr(default: T): T {
      if Some? then value else default
    }
  }

  datatype Result<+T> = Ok(value: T) | Rejected(reason: string)

  const TWO64: int := 0x1_0000_0000_0000_0000

  /** Go's uint64. */
  type Word = n: int | 0 <= n < TWO64

  /** strings.TrimPrefix(device, "/dev/") */
  function KernelName(device: string): (name: string)
    ensures device == "/dev/" + name || (device == name && !("/dev/" <= device))
  {
    if "/dev/" <= device then device[5..] else device
  }

  /** PHP's empty() on a string: the empty string and "0" both count as empty. */
  predicate Empty(s: string) {
    s == "" || s == "0"
  }

  function Last<T>(s: seq<T>): T
    requires s != []
  {
    s[|s| - 1]
  }

  function Init<T>(s: seq<T>): seq<T>
    requires s != []
  {
    s[..|s| - 1]
  }

  /** Index of the last element with property p; |s| when there is none. */
  function LastIndex<T>(s: seq<T>, p: T -> bool): (k: nat)
    ensures k <= |s|
    ensures k < |s| ==> p(s[k])
    ensures forall i :: 0 <= i < |s| && (k == |s| || k < i) ==> !p(s[i])
  {
    if s == [] then 0
    else if p(Last(s)) then |s| - 1
    else
      var k := LastIndex(Init(s), p);
      if k == |s| - 1 then |s| else k
  }

  /** ys is, in order, one element for each element of xs to keep, related to it by `from`; `at` are
      the positions of those elements. */
  ghost predicate Selects<T(!new), U(!new)>(
      xs: seq<T>, keep: T -> bool, from: (T, U) -> bool, ys: seq<U>, at: seq<nat>)
  {
    && |at| == |ys|
    && (forall j :: 0 <= j < |at| ==> at[j] < |xs|)
    && (forall j, k :: 0 <= j < k < |at| ==> at[j] < at[k])
    && (forall i :: 0 <= i < |xs| ==> (i in at <==> keep(xs[i])))
    && (forall j :: 0 <= j < |at| ==> from(xs[at[j]], ys[j]))
  }

  lemma {:induction false} SelectsKeep<T(!new), U(!new)>(
      xs: seq<T>, keep: T -> bool, from: (T, U) -> bool, ys: seq<U>, at: seq<nat>, x: T, y: U)
    requires Selects(xs, keep, from, ys, at) && keep(x) && from(x, y)
    ensures Selects(xs + [x], keep, from, ys + [y], at + [|xs|])
  {
  }

  lemma {:induction false} SelectsDrop<T(!new), U(!new)>(
      xs: seq<T>, keep: T -> bool, from: (T, U) -> bool, ys: seq<U>, at: seq<nat>, x: T)
    requires Selects(xs, keep, from, ys, at) && !keep(x)
    ensures Selects(xs + [x], keep, from, ys, at)
  {
  }

  ghost predicate Distinct<T>(s: seq<T>) {
    forall i, j :: 0 <= i < j < |s| ==> s[i] != s[j]
  }

  /** a can be obtained from b by deleting elements, order kept. */
  ghost predicate Sublist<T>(a: seq<T>, b: seq<T>) {
    if a == [] then true
    else if b == [] then false
    else (Last(a) == Last(b) && Sublist(Init(a), Init(b))) || Sublist(a, Init(b))
  }

  lemma {:induction false} SublistRefl<T>(a: seq<T>)
    ensures Sublist(a, a)
  {
    if a == [] {
    } else {
      SublistRefl(Init(a));
    }
  }

  lemma {:induction false} SublistSnoc<T>(a: seq<T>, b: seq<T>, x: T)
    requires Sublist(a, b)
    ensures Sublist(a + [x], b + [x])
    ensures Sublist(a, b + [x])
  {
    assert Init(a + [x]) == a && Init(b + [x]) == b;
  }

  lemma {:induction false} SublistTrans<T>(a: seq<T>, b: seq<T>, c: seq<T>)
    requires Sublist(a, b) && Sublist(b, c)
    ensures Sublist(a, c)
    decreases |a| + |b| + |c|
  {
    if a != [] && b != [] && c != [] {
      if Last(b) == Last(c) && Sublist(Init(b), Init(c)) {
        if Last(a) == Last(b) && Sublist(Init(a), Init(b)) {
          SublistTrans(Init(a), Init(b), Init(c));
        } else {
          SublistTrans(a, Init(b), Init(c));
        }
      } else {
        SublistTrans(a, b, Init(c));
      }
    }
  }

  /** Deleting a middle part leaves a sublist. */
  lemma {:induction false} SublistDelete<T>(a: seq<T>, mid: seq<T>, b: seq<T>)
    ensures Sublist(a + b, a + mid + b)
    decreases |mid| + |b|
  {
    if b != [] {
      assert Init(a + b) == a + Init(b);
      assert Init(a + mid + b) == a + mid + Init(b);
      SublistDelete(a, mid, Init(b));
    } else if mid != [] {
      assert a + mid + b == a + mid;
      assert Init(a + mid) == a + Init(mid);
      assert a + Init(mid) + [] == a + Init(mid);
      SublistDelete(a, Init(mid), b);
    } else {
      assert a + b == a && a + mid + b == a;
      SublistRefl(a);
    }
  }
}
