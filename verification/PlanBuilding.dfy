// Matching metadata NICs to local interfaces by MAC address and building the
// plan that netconfig/apply.php receives.
module PlanBuilding {
  import opened Common
  import opened Text
  import opened NetConfig

  /** A metadata NIC: the fields of VirtualNetworkCard that provisioning reads. */
  datatype Card = Card(mac: string, ips: seq<string>, subnet: string, gateway: Option<string>,
                       dns: seq<string>, mtu: int)

  /** A local interface; `mac` is "" for interfaces without a hardware address. */
  datatype Nic = Nic(name: string, mac: string)

  datatype Matched = Matched(card: Card, ifname: string)

  datatype Skipped = Skipped(mac: string, ifname: string, message: string)

  function NormalizeMAC(mac: string): string { Lower(Trim(GoSpace, mac)) }

  predicate Carries(nic: Nic, key: string) { key != "" && NormalizeMAC(nic.mac) == key }

  /** Position of the last local interface whose normalized MAC is `key`; |nics| when there is none. */
  function LastNic(nics: seq<Nic>, key: string): (k: nat)
    ensures k <= |nics|
    ensures k < |nics| ==> Carries(nics[k], key)
    ensures forall i :: 0 <= i < |nics| && (k == |nics| || k < i) ==> !Carries(nics[i], key)
  {
    LastIndex(nics, (nic: Nic) => Carries(nic, key))
  }

  function CardKey(card: Card): string { NormalizeMAC(card.mac) }

  predicate Found(nics: seq<Nic>, key: string) { LastNic(nics, key) < |nics| }

  function NicName(nics: seq<Nic>, key: string): string
    requires Found(nics, key)
  {
    nics[LastNic(nics, key)].name
  }

  // ----- the direct description: one lookup per card

  function Matches(cards: seq<Card>, nics: seq<Nic>): seq<Matched> {
    if cards == [] then []
    else if Found(nics, CardKey(Last(cards))) then
      Matches(Init(cards), nics) + [Matched(Last(cards), NicName(nics, CardKey(Last(cards))))]
    else Matches(Init(cards), nics)
  }

  predicate Usable(card: Card) { card.ips != [] && card.subnet != "" }

  function StripCIDR(s: string): (r: string)
    ensures '/' !in r && r <= s && (|r| < |s| ==> s[|r|] == '/')
  {
    Before(s, '/')
  }

  function StripAll(dns: seq<string>): (r: seq<string>)
    ensures |r| == |dns| && forall i :: 0 <= i < |dns| ==> r[i] == StripCIDR(dns[i])
  {
    if dns == [] then [] else StripAll(Init(dns)) + [StripCIDR(Last(dns))]
  }

  function PlanEntry(card: Card, ifname: string): Entry
    requires Usable(card)
  {
    Entry(ifname, StripCIDR(card.ips[0]), card.subnet,
          if card.gateway.Some? then StripCIDR(card.gateway.value) else "", StripAll(card.dns), card.mtu)
  }

  predicate Plannable(card: Card, nics: seq<Nic>) { Found(nics, CardKey(card)) && Usable(card) }

  function EntryFor(card: Card, nics: seq<Nic>): Entry
    requires Plannable(card, nics)
  {
    PlanEntry(card, NicName(nics, CardKey(card)))
  }

  function Plan(cards: seq<Card>, nics: seq<Nic>): seq<Entry> {
    if cards == [] then []
    else
      var card, rest := Last(cards), Plan(Init(cards), nics);
      if Plannable(card, nics) then rest + [EntryFor(card, nics)] else rest
  }

  function SkipReason(card: Card, nics: seq<Nic>): Skipped {
    if !Found(nics, CardKey(card)) then
      Skipped(card.mac, "", "no local network interface with this MAC address")
    else
      Skipped(card.mac, NicName(nics, CardKey(card)), "no static IP/subnet in metadata for this NIC")
  }

  function Skips(cards: seq<Card>, nics: seq<Nic>): seq<Skipped> {
    if cards == [] then []
    else
      var card, rest := Last(cards), Skips(Init(cards), nics);
      if Plannable(card, nics) then rest else rest + [SkipReason(card, nics)]
  }

  // ----- netmatch.go and the loops of ApplyBootNetworkConfig

  /** matchNICsByMAC: the index by MAC finds, card by card, the last interface with that address. */
  method MatchNICsByMAC(cards: seq<Card>, nics: seq<Nic>) returns (matched: seq<Matched>)
    ensures matched == Matches(cards, nics)
  {
    var byMAC: map<string, string> := map[];
    for i := 0 to |nics|
      invariant forall key :: key in byMAC <==> Found(nics[..i], key)
      invariant forall key :: key in byMAC ==> byMAC[key] == NicName(nics[..i], key)
    {
      ghost var before := byMAC;
      var mac := NormalizeMAC(nics[i].mac);
      if mac != "" { byMAC := byMAC[mac := nics[i].name]; }
      assert Init(nics[..i + 1]) == nics[..i];
      forall key ensures key in byMAC <==> Found(nics[..i + 1], key) {
        assert key in before <==> Found(nics[..i], key);
      }
    }
    assert nics[..|nics|] == nics;
    matched := [];
    for i := 0 to |cards|
      invariant matched == Matches(cards[..i], nics)
    {
      assert Init(cards[..i + 1]) == cards[..i];
      var key := NormalizeMAC(cards[i].mac);
      assert key in byMAC <==> Found(nics, key);
      if key in byMAC { matched := matched + [Matched(cards[i], byMAC[key])]; }
    }
    assert cards[..|cards|] == cards;
  }

  predicate OwnLookup(m: Matched, nics: seq<Nic>) {
    Found(nics, CardKey(m.card)) && m.ifname == NicName(nics, CardKey(m.card))
  }

  lemma {:induction false} MatchesAreLookups(cards: seq<Card>, nics: seq<Nic>, j: nat)
    requires j < |Matches(cards, nics)|
    ensures OwnLookup(Matches(cards, nics)[j], nics)
  {
    if j < |Matches(Init(cards), nics)| { MatchesAreLookups(Init(cards), nics, j); }
  }

  lemma {:induction false} FoundIsMatched(cards: seq<Card>, nics: seq<Nic>, i: nat) returns (j: nat)
    requires i < |cards| && Found(nics, CardKey(cards[i]))
    ensures j < |Matches(cards, nics)| && Matches(cards, nics)[j].card == cards[i]
  {
    if i == |cards| - 1 { j := |Matches(cards, nics)| - 1; }
    else { j := FoundIsMatched(Init(cards), nics, i); }
  }

  /** Every entry of the index is the direct lookup of its key. */
  ghost predicate Keyed(byMAC: map<string, string>, nics: seq<Nic>) {
    forall key :: key in byMAC ==> Found(nics, key) && byMAC[key] == NicName(nics, key)
  }

  lemma {:induction false} KeyedUpdate(byMAC: map<string, string>, nics: seq<Nic>, key: string, name: string)
    requires Keyed(byMAC, nics) && Found(nics, key) && name == NicName(nics, key)
    ensures Keyed(byMAC[key := name], nics)
  {
  }

  /** The keys of the first n matches are in the index. */
  ghost predicate Covers(byMAC: map<string, string>, matched: seq<Matched>, n: nat)
    requires n <= |matched|
  {
    forall j :: 0 <= j < n ==> CardKey(matched[j].card) in byMAC
  }

  method IndexMatches(matched: seq<Matched>, nics: seq<Nic>) returns (byMAC: map<string, string>)
    requires forall j :: 0 <= j < |matched| ==> OwnLookup(matched[j], nics)
    ensures Keyed(byMAC, nics) && Covers(byMAC, matched, |matched|)
  {
    byMAC := map[];
    for i := 0 to |matched|
      invariant Keyed(byMAC, nics) && Covers(byMAC, matched, i)
    {
      var key, name := CardKey(matched[i].card), matched[i].ifname;
      assert OwnLookup(matched[i], nics);
      KeyedUpdate(byMAC, nics, key, name);
      CoversUpdate(byMAC, matched, i, name);
      byMAC := byMAC[key := name];
    }
  }

  lemma {:induction false} CoversUpdate(byMAC: map<string, string>, matched: seq<Matched>, i: nat, name: string)
    requires i < |matched| && Covers(byMAC, matched, i)
    ensures Covers(byMAC[CardKey(matched[i].card) := name], matched, i + 1)
  {
  }

  method StripDns(dns: seq<string>) returns (r: seq<string>)
    ensures r == StripAll(dns)
  {
    r := [];
    for i := 0 to |dns|
      invariant r == StripAll(dns[..i])
    {
      assert Init(dns[..i + 1]) == dns[..i];
      r := r + [StripCIDR(dns[i])];
    }
    assert dns[..|dns|] == dns;
  }

  /** The two map indexes give exactly the direct per-card lookup, duplicates included. */
  method BuildPlan(cards: seq<Card>, nics: seq<Nic>) returns (skipped: seq<Skipped>, plan: seq<Entry>)
    ensures plan == Plan(cards, nics) && skipped == Skips(cards, nics)
  {
    var matched := MatchNICsByMAC(cards, nics);
    forall j | 0 <= j < |matched| ensures OwnLookup(matched[j], nics) {
      MatchesAreLookups(cards, nics, j);
    }
    var byMAC := IndexMatches(matched, nics);
    skipped, plan := [], [];
    for i := 0 to |cards|
      invariant plan == Plan(cards[..i], nics) && skipped == Skips(cards[..i], nics)
    {
      var card := cards[i];
      assert Init(cards[..i + 1]) == cards[..i];
      var key := NormalizeMAC(card.mac);
      assert key in byMAC <==> Found(nics, key) by {
        if Found(nics, key) { var j := FoundIsMatched(cards, nics, i); }
      }
      if key !in byMAC {
        skipped := skipped + [Skipped(card.mac, "", "no local network interface with this MAC address")];
      } else if card.ips == [] || card.subnet == "" {
        skipped := skipped + [Skipped(card.mac, byMAC[key], "no static IP/subnet in metadata for this NIC")];
      } else {
        var dns := StripDns(card.dns);
        var gateway := if card.gateway.Some? then StripCIDR(card.gateway.value) else "";
        plan := plan + [Entry(byMAC[key], StripCIDR(card.ips[0]), card.subnet, gateway, dns, card.mtu)];
      }
    }
    assert cards[..|cards|] == cards;
  }

  // ----- what a plan is, without the functions that compute it

  /** The same hardware address but for letter case and blanks around it, and not an empty one. */
  ghost predicate SameMac(a: string, b: string) {
    exists m, n :: Stripped(GoSpace, a, m) && Stripped(GoSpace, b, n) && m != "" && EqualFold(m, n)
  }

  /** MAC addresses are compared by exactly that. */
  lemma {:induction false} SameMacExact(a: string, b: string)
    ensures SameMac(a, b) <==> NormalizeMAC(a) == NormalizeMAC(b) && NormalizeMAC(a) != ""
  {
    var m, n := Trim(GoSpace, a), Trim(GoSpace, b);
    forall x ensures Stripped(GoSpace, a, x) <==> x == m { TrimExact(GoSpace, a, x); }
    forall x ensures Stripped(GoSpace, b, x) <==> x == n { TrimExact(GoSpace, b, x); }
    LowerExact(m, n);
  }

  /** Interface k is the last with this MAC. */
  ghost predicate LastWith(nics: seq<Nic>, mac: string, k: nat) {
    k < |nics| && SameMac(nics[k].mac, mac) && forall j :: k < j < |nics| ==> !SameMac(nics[j].mac, mac)
  }

  ghost predicate NoneWith(nics: seq<Nic>, mac: string) {
    forall j :: 0 <= j < |nics| ==> !SameMac(nics[j].mac, mac)
  }

  lemma {:induction false} LookupExact(nics: seq<Nic>, mac: string)
    ensures var k := LastNic(nics, NormalizeMAC(mac));
            if k < |nics| then LastWith(nics, mac, k) && !NoneWith(nics, mac) else NoneWith(nics, mac)
  {
    forall j | 0 <= j < |nics| ensures SameMac(nics[j].mac, mac) <==> Carries(nics[j], NormalizeMAC(mac)) {
      SameMacExact(nics[j].mac, mac);
    }
  }

  /** r is s up to its first slash. */
  ghost predicate UpToSlash(s: string, r: string) {
    r <= s && '/' !in r && (|r| < |s| ==> s[|r|] == '/')
  }

  /** The card has an interface of its own MAC, an address and a subnet. */
  ghost predicate Configurable(card: Card, nics: seq<Nic>) {
    !NoneWith(nics, card.mac) && |card.ips| > 0 && card.subnet != ""
  }

  ghost predicate PlannedAs(card: Card, nics: seq<Nic>, e: Entry) {
    && (exists k: nat :: LastWith(nics, card.mac, k) && e.ifname == nics[k].name)
    && |card.ips| > 0 && UpToSlash(card.ips[0], e.ipaddr)
    && e.subnet == card.subnet
    && (if card.gateway.Some? then UpToSlash(card.gateway.value, e.gateway) else e.gateway == "")
    && |e.dns| == |card.dns| && (forall i :: 0 <= i < |e.dns| ==> UpToSlash(card.dns[i], e.dns[i]))
    && e.mtu == card.mtu
  }

  ghost predicate SkippedAs(card: Card, nics: seq<Nic>, s: Skipped) {
    && s.mac == card.mac
    && if NoneWith(nics, card.mac) then
         s.ifname == "" && s.message == "no local network interface with this MAC address"
       else
         && (exists k: nat :: LastWith(nics, card.mac, k) && s.ifname == nics[k].name)
         && s.message == "no static IP/subnet in metadata for this NIC"
  }

  lemma {:induction false} EntryExact(card: Card, nics: seq<Nic>)
    ensures Plannable(card, nics) <==> Configurable(card, nics)
    ensures Plannable(card, nics) ==> PlannedAs(card, nics, EntryFor(card, nics))
    ensures !Plannable(card, nics) ==> SkippedAs(card, nics, SkipReason(card, nics))
  {
    LookupExact(nics, card.mac);
  }

  /** The planned cards, in order, with the entry each of them leads to. */
  lemma {:induction false} PlanInOrder(cards: seq<Card>, nics: seq<Nic>, keep: Card -> bool, from: (Card, Entry) -> bool)
    returns (at: seq<nat>)
    requires forall c :: Plannable(c, nics) <==> keep(c)
    requires forall c :: Plannable(c, nics) ==> from(c, EntryFor(c, nics))
    ensures Selects(cards, keep, from, Plan(cards, nics), at)
  {
    if cards == [] {
      at := [];
    } else {
      var early, last := Init(cards), Last(cards);
      assert cards == early + [last];
      at := PlanInOrder(early, nics, keep, from);
      if Plannable(last, nics) {
        SelectsKeep(early, keep, from, Plan(early, nics), at, last, EntryFor(last, nics));
        at := at + [|early|];
      } else {
        SelectsDrop(early, keep, from, Plan(early, nics), at, last);
      }
    }
  }

  /** The other cards, in order, with the report each of them leads to. */
  lemma {:induction false} SkipsInOrder(cards: seq<Card>, nics: seq<Nic>, drop: Card -> bool, from: (Card, Skipped) -> bool)
    returns (at: seq<nat>)
    requires forall c :: !Plannable(c, nics) <==> drop(c)
    requires forall c :: !Plannable(c, nics) ==> from(c, SkipReason(c, nics))
    ensures Selects(cards, drop, from, Skips(cards, nics), at)
  {
    if cards == [] {
      at := [];
    } else {
      var early, last := Init(cards), Last(cards);
      assert cards == early + [last];
      at := SkipsInOrder(early, nics, drop, from);
      if Plannable(last, nics) {
        SelectsDrop(early, drop, from, Skips(early, nics), at, last);
      } else {
        SelectsKeep(early, drop, from, Skips(early, nics), at, last, SkipReason(last, nics));
        at := at + [|early|];
      }
    }
  }

  ghost predicate MatchedAs(card: Card, nics: seq<Nic>, m: Matched) {
    m.card == card && exists k: nat :: LastWith(nics, card.mac, k) && m.ifname == nics[k].name
  }

  lemma {:induction false} MatchExact(card: Card, nics: seq<Nic>)
    ensures Found(nics, CardKey(card)) <==> !NoneWith(nics, card.mac)
    ensures Found(nics, CardKey(card)) ==> MatchedAs(card, nics, Matched(card, NicName(nics, CardKey(card))))
  {
    LookupExact(nics, card.mac);
  }

  lemma {:induction false} MatchesInOrder(cards: seq<Card>, nics: seq<Nic>, keep: Card -> bool, from: (Card, Matched) -> bool)
    returns (at: seq<nat>)
    requires forall c :: Found(nics, CardKey(c)) <==> keep(c)
    requires forall c :: Found(nics, CardKey(c)) ==> from(c, Matched(c, NicName(nics, CardKey(c))))
    ensures Selects(cards, keep, from, Matches(cards, nics), at)
  {
    if cards == [] {
      at := [];
    } else {
      var early, last := Init(cards), Last(cards);
      assert cards == early + [last];
      at := MatchesInOrder(early, nics, keep, from);
      if Found(nics, CardKey(last)) {
        SelectsKeep(early, keep, from, Matches(early, nics), at, last, Matched(last, NicName(nics, CardKey(last))));
        at := at + [|early|];
      } else {
        SelectsDrop(early, keep, from, Matches(early, nics), at, last);
      }
    }
  }

  /** Matched are, in card order, the cards some interface has the MAC of, each with the last such
      interface. */
  lemma {:induction false} MatchFacts(cards: seq<Card>, nics: seq<Nic>) returns (at: seq<nat>)
    ensures Selects(cards, (c: Card) => !NoneWith(nics, c.mac), (c: Card, m: Matched) => MatchedAs(c, nics, m),
                    Matches(cards, nics), at)
  {
    forall c: Card
      ensures Found(nics, CardKey(c)) <==> !NoneWith(nics, c.mac)
      ensures Found(nics, CardKey(c)) ==> MatchedAs(c, nics, Matched(c, NicName(nics, CardKey(c))))
    {
      MatchExact(c, nics);
    }
    at := MatchesInOrder(cards, nics, (c: Card) => !NoneWith(nics, c.mac), (c: Card, m: Matched) => MatchedAs(c, nics, m));
  }

  lemma {:induction false} PlanLength(cards: seq<Card>, nics: seq<Nic>)
    ensures |Plan(cards, nics)| + |Skips(cards, nics)| == |cards|
  {
    if cards == [] {
    } else {
      PlanLength(Init(cards), nics);
    }
  }

  /** The plan is, in card order, one entry for each configurable card, field by field from that
      card; the reports are, in card order, one for each other card with its reason. */
  lemma {:induction false} PlanFacts(cards: seq<Card>, nics: seq<Nic>) returns (planned: seq<nat>, skipped: seq<nat>)
    ensures Selects(cards, (c: Card) => Configurable(c, nics), (c: Card, e: Entry) => PlannedAs(c, nics, e),
                    Plan(cards, nics), planned)
    ensures Selects(cards, (c: Card) => !Configurable(c, nics), (c: Card, s: Skipped) => SkippedAs(c, nics, s),
                    Skips(cards, nics), skipped)
    ensures |planned| + |skipped| == |cards|
  {
    forall c: Card
      ensures Plannable(c, nics) <==> Configurable(c, nics)
      ensures Plannable(c, nics) ==> PlannedAs(c, nics, EntryFor(c, nics))
      ensures !Plannable(c, nics) ==> SkippedAs(c, nics, SkipReason(c, nics))
    {
      EntryExact(c, nics);
    }
    planned := PlanInOrder(cards, nics, (c: Card) => Configurable(c, nics), (c: Card, e: Entry) => PlannedAs(c, nics, e));
    skipped := SkipsInOrder(cards, nics, (c: Card) => !Configurable(c, nics), (c: Card, s: Skipped) => SkippedAs(c, nics, s));
    PlanLength(cards, nics);
  }

  // ----- no interface planned twice

  /** Card i leads to this entry. */
  ghost predicate Yields(cards: seq<Card>, nics: seq<Nic>, i: nat, e: Entry) {
    i < |cards| && Plannable(cards[i], nics) && e == EntryFor(cards[i], nics)
  }

  lemma {:induction false} EntryHasCard(cards: seq<Card>, nics: seq<Nic>, e: Entry) returns (i: nat)
    requires e in Plan(cards, nics)
    ensures Yields(cards, nics, i, e)
  {
    if e in Plan(Init(cards), nics) {
      i := EntryHasCard(Init(cards), nics, e);
      assert cards[i] == Init(cards)[i];
    } else {
      i := |cards| - 1;
    }
  }

  lemma {:induction false} CardHasEntry(cards: seq<Card>, nics: seq<Nic>, i: nat)
    requires i < |cards| && Plannable(cards[i], nics)
    ensures EntryFor(cards[i], nics) in Plan(cards, nics)
  {
    if i == |cards| - 1 {
    } else {
      assert cards[i] == Init(cards)[i];
      CardHasEntry(Init(cards), nics, i);
    }
  }

  ghost predicate PlannedOnce(plan: seq<Entry>) {
    forall i, j :: 0 <= i < j < |plan| ==> plan[i].ifname != plan[j].ifname
  }

  ghost predicate NicNamesDistinct(nics: seq<Nic>) {
    forall i, j :: 0 <= i < j < |nics| ==> nics[i].name != nics[j].name
  }

  /** No two plannable cards carry the same MAC address. */
  ghost predicate MacsDistinct(cards: seq<Card>, nics: seq<Nic>) {
    forall i, j :: 0 <= i < j < |cards| && Plannable(cards[i], nics) && Plannable(cards[j], nics) ==>
      CardKey(cards[i]) != CardKey(cards[j])
  }

  lemma {:induction false} SameNicSameMac(nics: seq<Nic>, a: string, b: string)
    requires NicNamesDistinct(nics) && Found(nics, a) && Found(nics, b)
    ensures NicName(nics, a) == NicName(nics, b) <==> a == b
  {
  }

  /** Card i is plannable and has the same MAC as `last`. */
  ghost predicate SharesMac(cards: seq<Card>, nics: seq<Nic>, i: nat, last: Card) {
    i < |cards| && Plannable(cards[i], nics) && CardKey(cards[i]) == CardKey(last)
  }

  lemma {:induction false} RepeatMeansShared(cards: seq<Card>, nics: seq<Nic>, last: Card, e: Entry) returns (i: nat)
    requires Plannable(last, nics) && NicNamesDistinct(nics)
    requires e in Plan(cards, nics) && e.ifname == EntryFor(last, nics).ifname
    ensures SharesMac(cards, nics, i, last)
  {
    i := EntryHasCard(cards, nics, e);
    SameNicSameMac(nics, CardKey(cards[i]), CardKey(last));
  }

  lemma {:induction false} SharedMeansRepeat(cards: seq<Card>, nics: seq<Nic>, last: Card, i: nat)
    requires Plannable(last, nics) && SharesMac(cards, nics, i, last)
    ensures EntryFor(cards[i], nics) in Plan(cards, nics)
    ensures EntryFor(cards[i], nics).ifname == EntryFor(last, nics).ifname
  {
    CardHasEntry(cards, nics, i);
  }

  /** The interface is already planned exactly when an earlier plannable card has its MAC. */
  lemma {:induction false} RepeatExact(cards: seq<Card>, nics: seq<Nic>, last: Card)
    requires Plannable(last, nics) && NicNamesDistinct(nics)
    ensures Names(Plan(cards, nics), EntryFor(last, nics).ifname) <==> exists i :: SharesMac(cards, nics, i, last)
  {
    var plan, name := Plan(cards, nics), EntryFor(last, nics).ifname;
    if Names(plan, name) {
      var e :| e in plan && e.ifname == name;
      var i := RepeatMeansShared(cards, nics, last, e);
    }
    if i :| SharesMac(cards, nics, i, last) { SharedMeansRepeat(cards, nics, last, i); }
  }

  ghost predicate Names(plan: seq<Entry>, name: string) { exists e :: e in plan && e.ifname == name }

  /** With distinctly named interfaces, no interface is planned twice exactly when no two plannable
      cards share a MAC address. */
  lemma {:induction false} PlannedOnceExact(cards: seq<Card>, nics: seq<Nic>)
    requires NicNamesDistinct(nics)
    ensures PlannedOnce(Plan(cards, nics)) <==> MacsDistinct(cards, nics)
  {
    if cards == [] {
    } else {
      PlannedOnceExact(Init(cards), nics);
      MacsSnoc(cards, nics);
      if Plannable(Last(cards), nics) {
        RepeatExact(Init(cards), nics, Last(cards));
        OnceSnoc(Plan(Init(cards), nics), EntryFor(Last(cards), nics));
      }
    }
  }

  lemma {:induction false} OnceSnoc(plan: seq<Entry>, e: Entry)
    ensures PlannedOnce(plan + [e]) <==> PlannedOnce(plan) && !Names(plan, e.ifname)
  {
    var all := plan + [e];
    assert forall i :: 0 <= i < |plan| ==> all[i] == plan[i];
    if PlannedOnce(all) {
      forall x | x in plan ensures x.ifname != e.ifname {
        var i :| 0 <= i < |plan| && plan[i] == x;
        assert all[i].ifname != all[|plan|].ifname;
      }
    }
  }

  lemma {:induction false} MacsSnoc(cards: seq<Card>, nics: seq<Nic>)
    requires cards != []
    ensures MacsDistinct(cards, nics) <==>
            MacsDistinct(Init(cards), nics) &&
            (Plannable(Last(cards), nics) ==> !exists i :: SharesMac(Init(cards), nics, i, Last(cards)))
  {
    var early, last := Init(cards), Last(cards);
    assert cards == early + [last];
    assert forall i :: 0 <= i < |early| && Plannable(cards[i], nics) && CardKey(cards[i]) == CardKey(last) ==>
                         SharesMac(early, nics, i, last);
    if MacsDistinct(cards, nics) {
      forall i: nat | Plannable(last, nics) ensures !SharesMac(early, nics, i, last) {
        assert i < |early| ==> early[i] == cards[i] && cards[|early|] == last;
      }
      assert MacsDistinct(early, nics);
    }
  }
}
