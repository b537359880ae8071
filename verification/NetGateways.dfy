// Lists of named items under repeated upsert: last write wins, positions and
// foreign items are kept, and replaying the same writes changes nothing.
module NetGateways {
  import opened Common
  import opened NetConfig

  ghost predicate Named(ws: seq<GatewayItem>) {
    forall i :: 0 <= i < |ws| ==> ws[i].name.Some?
  }

  ghost function UpsertAll(items: seq<GatewayItem>, ws: seq<GatewayItem>): seq<GatewayItem>
    requires Named(ws)
  {
    if ws == [] then items else Upsert(UpsertAll(items, Init(ws)), Last(ws))
  }

  /** Index of the last write carrying `name`; |ws| when there is none. */
  ghost function LastWrite(ws: seq<GatewayItem>, name: string): (k: nat)
    ensures k <= |ws|
    ensures k < |ws| ==> ws[k].name == Some(name)
    ensures forall j :: 0 <= j < |ws| && (k == |ws| || k < j) ==> ws[j].name != Some(name)
  {
    LastIndex(ws, (w: GatewayItem) => w.name == Some(name))
  }

  lemma {:induction false} LastWriteSnoc(ws: seq<GatewayItem>, w: GatewayItem, name: string)
    ensures LastWrite(ws + [w], name) ==
            if w.name == Some(name) then |ws|
            else if LastWrite(ws, name) == |ws| then |ws| + 1 else LastWrite(ws, name)
  {
    assert Init(ws + [w]) == ws && Last(ws + [w]) == w;
  }

  /** Item k of the outcome: the last write to its name if it is the first item of that name. */
  ghost predicate LastWriteWins(items: seq<GatewayItem>, ws: seq<GatewayItem>, out: seq<GatewayItem>, k: nat)
    requires k < |out|
  {
    if out[k].name.Some? && IndexByName(out, out[k].name.value) == k && LastWrite(ws, out[k].name.value) < |ws|
    then out[k] == ws[LastWrite(ws, out[k].name.value)]
    else k < |items| && out[k] == items[k]
  }

  lemma {:induction false} IndexByNameIs(items: seq<GatewayItem>, name: string, k: nat)
    requires k < |items| && items[k].name == Some(name)
    requires forall j :: 0 <= j < k ==> items[j].name != Some(name)
    ensures IndexByName(items, name) == k
  {
  }

  /** An upsert keeps every name where it is, or adds one new name at the end. */
  lemma {:induction false} UpsertNames(items: seq<GatewayItem>, w: GatewayItem)
    requires w.name.Some?
    ensures var out := Upsert(items, w); var k := IndexByName(items, w.name.value);
            && |out| == (if k < |items| then |items| else |items| + 1)
            && (forall j :: 0 <= j < |items| ==> out[j].name == items[j].name)
            && (forall j :: 0 <= j < |items| && j != k ==> out[j] == items[j])
            && out[k] == w
            && IndexByName(out, w.name.value) == k
  {
    IndexByNameIs(Upsert(items, w), w.name.value, IndexByName(items, w.name.value));
  }

  lemma {:induction false} IndexByNameStable(items: seq<GatewayItem>, out: seq<GatewayItem>, name: string)
    requires |items| <= |out|
    requires forall j :: 0 <= j < |items| ==> out[j].name == items[j].name
    requires IndexByName(items, name) < |items|
    ensures IndexByName(out, name) == IndexByName(items, name)
  {
    IndexByNameIs(out, name, IndexByName(items, name));
  }

  lemma {:induction false} UpsertAllClosedForm(items: seq<GatewayItem>, ws: seq<GatewayItem>)
    requires Named(ws)
    ensures var out := UpsertAll(items, ws);
            && |items| <= |out|
            && (forall k :: 0 <= k < |items| ==> out[k].name == items[k].name)
            && (forall k :: 0 <= k < |out| ==> LastWriteWins(items, ws, out, k))
            && (forall i :: 0 <= i < |ws| ==> IndexByName(out, ws[i].name.value) < |out|)
  {
    if ws == [] {
    } else {
      var pre, w := UpsertAll(items, Init(ws)), Last(ws);
      UpsertAllClosedForm(items, Init(ws));
      UpsertNames(pre, w);
      var out := UpsertAll(items, ws);
      forall k | 0 <= k < |out| ensures LastWriteWins(items, ws, out, k) {
        ClosedFormStep(items, ws, pre, out, k);
      }
      forall i | 0 <= i < |ws| ensures IndexByName(out, ws[i].name.value) < |out| {
        if i < |ws| - 1 {
          assert ws[i] == Init(ws)[i];
          IndexByNameStable(pre, out, ws[i].name.value);
        }
      }
    }
  }

  lemma {:induction false} ClosedFormStep(
      items: seq<GatewayItem>, ws: seq<GatewayItem>, pre: seq<GatewayItem>, out: seq<GatewayItem>, k: nat)
    requires Named(ws) && ws != []
    requires out == Upsert(pre, Last(ws)) && k < |out|
    requires forall j :: 0 <= j < |pre| ==> LastWriteWins(items, Init(ws), pre, j)
    ensures LastWriteWins(items, ws, out, k)
  {
    var w := Last(ws);
    UpsertNames(pre, w);
    var kw := IndexByName(pre, w.name.value);
    if k != kw {
      assert LastWriteWins(items, Init(ws), pre, k);
      assert out[k] == pre[k];
      if out[k].name.Some? {
        var name := out[k].name.value;
        if IndexByName(pre, name) < |pre| { IndexByNameStable(pre, out, name); }
        if name != w.name.value {
          assert LastWrite(ws, name) < |ws| <==> LastWrite(Init(ws), name) < |ws| - 1;
        }
      }
    }
  }

  /** Replaying the writes over their own outcome is a no-op. */
  lemma {:induction false} ReplayKeepsNames(items: seq<GatewayItem>, ws: seq<GatewayItem>)
    requires Named(ws)
    requires forall i :: 0 <= i < |ws| ==> IndexByName(items, ws[i].name.value) < |items|
    ensures |UpsertAll(items, ws)| == |items|
    ensures forall k :: 0 <= k < |items| ==> UpsertAll(items, ws)[k].name == items[k].name
  {
    if ws == [] {
    } else {
      var pre, w := UpsertAll(items, Init(ws)), Last(ws);
      forall i | 0 <= i < |Init(ws)| ensures IndexByName(items, Init(ws)[i].name.value) < |items| {
        assert Init(ws)[i] == ws[i];
      }
      ReplayKeepsNames(items, Init(ws));
      IndexByNameStable(items, pre, w.name.value);
      UpsertNames(pre, w);
    }
  }

  lemma {:induction false} UpsertAllIdempotent(items: seq<GatewayItem>, ws: seq<GatewayItem>)
    requires Named(ws)
    ensures UpsertAll(UpsertAll(items, ws), ws) == UpsertAll(items, ws)
  {
    var once := UpsertAll(items, ws);
    UpsertAllClosedForm(items, ws);
    ReplayKeepsNames(once, ws);
    var twice := UpsertAll(once, ws);
    UpsertAllClosedForm(once, ws);
    forall k | 0 <= k < |once| ensures twice[k] == once[k] {
      assert LastWriteWins(items, ws, once, k) && LastWriteWins(once, ws, twice, k);
      if once[k].name.Some? { IndexByNameStable(once, twice, once[k].name.value); }
    }
  }

  ghost predicate DistinctItemNames(items: seq<GatewayItem>) {
    forall i, j :: 0 <= i < j < |items| && items[i].name.Some? ==> items[i].name != items[j].name
  }

  lemma {:induction false} UpsertAllDistinct(items: seq<GatewayItem>, ws: seq<GatewayItem>)
    requires Named(ws) && DistinctItemNames(items)
    ensures DistinctItemNames(UpsertAll(items, ws))
  {
    if ws == [] {
    } else {
      UpsertAllDistinct(items, Init(ws));
      UpsertNames(UpsertAll(items, Init(ws)), Last(ws));
    }
  }
}
