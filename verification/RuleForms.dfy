// What create.php stores for a firewall or NAT rule and what list.php shows of
// it.  `valid` stands for filter_var(.., FILTER_VALIDATE_IP).
module RuleForms {
  import opened Common
  import opened Text
  import opened RuleStore

  /** A rule's source or destination: the keys that may be present. */
  datatype Address = Address(any: bool, network: Option<string>, address: Option<string>, port: Option<string>)

  // ----- address specs and ports

  function ParseSpec(valid: string -> bool, spec: string): Address {
    var s := Trim(PhpSpace, spec);
    if s == "" || Lower(s) == "any" then Address(true, None, None, None)
    else if valid(Before(s, '/')) then Address(false, None, Some(s), None)
    else Address(false, Some(s), None, None)
  }

  function FormatSpec(a: Address): string {
    if a.any then "any"
    else if a.network.Some? then a.network.value
    else a.address.GetOr("")
  }

  function StorePort(port: string): string { Replace(port, '-', ':') }

  function ShowPort(port: Option<string>): string { Replace(port.GetOr(""), ':', '-') }

  function ParseSide(valid: string -> bool, spec: string, port: string): Address {
    var a := ParseSpec(valid, spec);
    if Empty(port) then a else a.(port := Some(StorePort(port)))
  }

  lemma {:induction false} LowerAny()
    ensures Trim(PhpSpace, "any") == "any" && Lower("any") == "any" && Lower("0") == "0"
  {
    assert Init("any") == "an" && Init("an") == "a" && Init("a") == "" && Init("0") == "";
    assert Lower("a") == "a" && Lower("an") == "an";
  }

  /** A listed spec parses back to the address it came from, and is never blank. */
  lemma {:induction false} SpecRoundTrip(valid: string -> bool, spec: string)
    ensures var a := ParseSpec(valid, spec);
            ParseSpec(valid, FormatSpec(a)) == a && FormatSpec(a) != ""
    ensures FormatSpec(ParseSpec(valid, spec)) == "0" <==> Trim(PhpSpace, spec) == "0"
  {
    TrimIdempotent(PhpSpace, spec);
    LowerAny();
  }

  /** A listed port is stored back unchanged, and is empty exactly when the given one was. */
  lemma {:induction false} PortRoundTrip(port: string)
    ensures StorePort(ShowPort(Some(StorePort(port)))) == StorePort(port)
    ensures Empty(ShowPort(Some(StorePort(port)))) <==> Empty(port)
  {
    ReplaceBack(port, '-', ':');
    ReplaceEmpty(port, '-', ':');
    ReplaceEmpty(StorePort(port), ':', '-');
  }

  lemma {:induction false} SideRoundTrip(valid: string -> bool, spec: string, port: string)
    ensures var a := ParseSide(valid, spec, port);
            ParseSide(valid, FormatSpec(a), ShowPort(a.port)) == a && FormatSpec(a) == FormatSpec(ParseSpec(valid, spec))
  {
    SpecRoundTrip(valid, spec);
    PortRoundTrip(port);
  }

  // ----- what is stored and shown, said without the functions that do it

  /** r is s up to its first c. */
  ghost predicate UpTo(s: string, c: char, r: string) {
    r <= s && c !in r && (|r| < |s| ==> s[|r|] == c)
  }

  /** r is s with every `from` turned into `to`. */
  ghost predicate Swapped(s: string, from: char, to: char, r: string) {
    |r| == |s| && forall i :: 0 <= i < |s| ==> r[i] == if s[i] == from then to else s[i]
  }

  /** r is s in lower case. */
  ghost predicate LowerOf(s: string, r: string) {
    EqualFold(s, r) && forall i :: 0 <= i < |r| ==> !('A' <= r[i] <= 'Z')
  }

  /** `any` for a blank spec or "any" in whatever case; otherwise the stripped spec, as an address if
      the part before its slash is an IP address and as a network if not. */
  ghost predicate SpecStored(valid: string -> bool, spec: string, a: Address) {
    exists t, host :: Stripped(PhpSpace, spec, t) && UpTo(t, '/', host) &&
      if t == "" || EqualFold(t, "any") then a.any && a.network.None? && a.address.None?
      else if valid(host) then !a.any && a.network.None? && a.address == Some(t)
      else !a.any && a.network == Some(t) && a.address.None?
  }

  ghost predicate PortStored(port: string, stored: Option<string>) {
    if port == "" || port == "0" then stored.None? else stored.Some? && Swapped(port, '-', ':', stored.value)
  }

  ghost predicate SpecShown(a: Address, spec: string) {
    && (a.any ==> spec == "any")
    && (!a.any && a.network.Some? ==> Some(spec) == a.network)
    && (!a.any && a.network.None? && a.address.Some? ==> Some(spec) == a.address)
    && (!a.any && a.network.None? && a.address.None? ==> spec == "")
  }

  ghost predicate PortShown(port: Option<string>, shown: string) {
    if port.Some? then Swapped(port.value, ':', '-', shown) else shown == ""
  }

  lemma {:induction false} ReplaceSwaps(s: string, from: char, to: char)
    ensures Swapped(s, from, to, Replace(s, from, to))
  {
    forall i | 0 <= i < |s| ensures Replace(s, from, to)[i] == if s[i] == from then to else s[i] {
      ReplaceAt(s, from, to, i);
    }
  }

  lemma {:induction false} LowerLowers(s: string)
    ensures LowerOf(s, Lower(s))
  {
    forall i | 0 <= i < |s| ensures SameLetter(s[i], Lower(s)[i]) && !('A' <= Lower(s)[i] <= 'Z') {
      LowerAt(s, i);
    }
  }

  lemma {:induction false} AnyExact(s: string)
    ensures Lower(s) == "any" <==> EqualFold(s, "any")
  {
    LowerAny();
    LowerExact(s, "any");
  }

  lemma {:induction false} ParseSpecStores(valid: string -> bool, spec: string)
    ensures SpecStored(valid, spec, ParseSpec(valid, spec)) && ParseSpec(valid, spec).port.None?
  {
    var t := Trim(PhpSpace, spec);
    TrimExact(PhpSpace, spec, t);
    AnyExact(t);
    assert UpTo(t, '/', Before(t, '/'));
  }

  lemma {:induction false} SideStores(valid: string -> bool, spec: string, port: string)
    ensures var a := ParseSide(valid, spec, port); SpecStored(valid, spec, a) && PortStored(port, a.port)
  {
    ParseSpecStores(valid, spec);
    ReplaceSwaps(port, '-', ':');
    SpecStoredPort(valid, spec, ParseSpec(valid, spec), ParseSide(valid, spec, port));
  }

  /** The port key is independent of the others. */
  lemma {:induction false} SpecStoredPort(valid: string -> bool, spec: string, a: Address, b: Address)
    requires SpecStored(valid, spec, a) && b == a.(port := b.port)
    ensures SpecStored(valid, spec, b)
  {
  }

  lemma {:induction false} FormatShows(a: Address)
    ensures SpecShown(a, FormatSpec(a)) && PortShown(a.port, ShowPort(a.port))
  {
    ReplaceSwaps(a.port.GetOr(""), ':', '-');
  }

  // ----- firewall rules

  /** create.php's input; an absent field is the empty string. */
  datatype FilterInput = FilterInput(
    iface: string, action: string, protocol: string, source: string, sourcePort: string,
    destination: string, destinationPort: string, description: string)

  datatype FilterRule = FilterRule(
    kind: Option<string>, iface: Option<string>, ipprotocol: Option<string>, protocol: Option<string>,
    source: Address, destination: Address, descr: Option<string>, disabled: bool)

  datatype FilterListing = FilterListing(
    tracker: string, iface: string, action: string, protocol: string, source: string, sourcePort: string,
    destination: string, destinationPort: string, description: string, disabled: bool)

  predicate KnownAction(action: string) { action == "pass" || action == "block" || action == "reject" }

  function Missing(field: string): string { "missing required field: " + field }

  function FilterFault(x: FilterInput): Option<string> {
    if Empty(x.iface) then Some(Missing("interface"))
    else if Empty(x.action) then Some(Missing("action"))
    else if Empty(x.source) then Some(Missing("source"))
    else if Empty(x.destination) then Some(Missing("destination"))
    else if !KnownAction(x.action) then Some("action must be one of: pass, block, reject")
    else None
  }

  function StoreProtocol(protocol: string): Option<string> {
    if Empty(protocol) || Lower(protocol) == "any" then None else Some(Lower(protocol))
  }

  function BuildFilter(valid: string -> bool, x: FilterInput): FilterRule {
    FilterRule(Some(x.action), Some(x.iface), Some("inet"), StoreProtocol(x.protocol),
               ParseSide(valid, x.source, x.sourcePort), ParseSide(valid, x.destination, x.destinationPort),
               Some(x.description), false)
  }

  function CreateFilter(valid: string -> bool, x: FilterInput): Result<FilterRule> {
    var fault := FilterFault(x);
    if fault.Some? then Rejected(fault.value) else Ok(BuildFilter(valid, x))
  }

  function ListFilter(r: Rule<FilterRule>): FilterListing {
    var b := r.body;
    FilterListing(r.tracker.GetOr(""), b.iface.GetOr(""), b.kind.GetOr(""), b.protocol.GetOr(""),
                  FormatSpec(b.source), ShowPort(b.source.port),
                  FormatSpec(b.destination), ShowPort(b.destination.port), b.descr.GetOr(""), b.disabled)
  }

  /** The listed fields, sent to create again. */
  function FilterAgain(l: FilterListing): FilterInput {
    FilterInput(l.iface, l.action, l.protocol, l.source, l.sourcePort, l.destination, l.destinationPort, l.description)
  }

  /** What an accepted input is stored as, field by field. */
  ghost predicate FilterStored(valid: string -> bool, x: FilterInput, b: FilterRule) {
    && b.kind == Some(x.action) && b.iface == Some(x.iface) && b.ipprotocol == Some("inet")
    && (if x.protocol == "" || x.protocol == "0" || EqualFold(x.protocol, "any") then b.protocol.None?
        else b.protocol.Some? && LowerOf(x.protocol, b.protocol.value))
    && SpecStored(valid, x.source, b.source) && PortStored(x.sourcePort, b.source.port)
    && SpecStored(valid, x.destination, b.destination) && PortStored(x.destinationPort, b.destination.port)
    && b.descr == Some(x.description) && !b.disabled
  }

  /** What a stored rule is listed as. */
  ghost predicate FilterShown(r: Rule<FilterRule>, l: FilterListing) {
    && l.tracker == r.tracker.GetOr("") && l.disabled == r.body.disabled
    && l.iface == r.body.iface.GetOr("") && l.action == r.body.kind.GetOr("")
    && l.protocol == r.body.protocol.GetOr("") && l.description == r.body.descr.GetOr("")
    && SpecShown(r.body.source, l.source) && PortShown(r.body.source.port, l.sourcePort)
    && SpecShown(r.body.destination, l.destination) && PortShown(r.body.destination.port, l.destinationPort)
  }

  lemma {:induction false} BuildFilterStores(valid: string -> bool, x: FilterInput)
    ensures FilterStored(valid, x, BuildFilter(valid, x))
  {
    SideStores(valid, x.source, x.sourcePort);
    SideStores(valid, x.destination, x.destinationPort);
    AnyExact(x.protocol);
    LowerLowers(x.protocol);
  }

  lemma {:induction false} ListFilterShows(r: Rule<FilterRule>)
    ensures FilterShown(r, ListFilter(r))
  {
    FormatShows(r.body.source);
    FormatShows(r.body.destination);
  }

  /** Given: neither the empty string nor "0". */
  ghost predicate Given(s: string) { s != "" && s != "0" }

  /** Field k is the first one not given. */
  ghost predicate FirstMissing(fields: seq<(string, string)>, k: nat) {
    k < |fields| && !Given(fields[k].1) && forall j :: 0 <= j < k ==> Given(fields[j].1)
  }

  function FilterFields(x: FilterInput): seq<(string, string)> {
    [("interface", x.iface), ("action", x.action), ("source", x.source), ("destination", x.destination)]
  }

  /** The first missing field, in the script's order, is the one named. */
  lemma {:induction false} FilterRefusal(x: FilterInput, k: nat)
    requires FirstMissing(FilterFields(x), k)
    ensures FilterFault(x) == Some("missing required field: " + FilterFields(x)[k].0)
  {
    var f := FilterFields(x);
    assert f[0].1 == x.iface && f[1].1 == x.action && f[2].1 == x.source && f[3].1 == x.destination;
  }

  /** An input is accepted exactly when its required fields are given and its action is known; what
      it is stored as is then given field by field. */
  lemma {:induction false} FilterAcceptance(valid: string -> bool, x: FilterInput)
    ensures var out := CreateFilter(valid, x);
            var given := Given(x.iface) && Given(x.action) && Given(x.source) && Given(x.destination);
            && (out.Ok? <==> given && x.action in {"pass", "block", "reject"})
            && (out.Ok? ==> FilterStored(valid, x, out.value))
            && (out.Rejected? && given ==> out.reason == "action must be one of: pass, block, reject")
  {
    BuildFilterStores(valid, x);
  }

  lemma {:induction false} ProtocolRoundTrip(protocol: string)
    ensures StoreProtocol(StoreProtocol(protocol).GetOr("")) == StoreProtocol(protocol)
  {
    LowerIdempotent(protocol);
    LowerEmpty(protocol);
  }

  lemma {:induction false} BuildFilterAgain(valid: string -> bool, x: FilterInput, tracker: string)
    ensures var b := BuildFilter(valid, x);
            BuildFilter(valid, FilterAgain(ListFilter(Rule(Some(tracker), b)))) == b
  {
    SideRoundTrip(valid, x.source, x.sourcePort);
    SideRoundTrip(valid, x.destination, x.destinationPort);
    ProtocolRoundTrip(x.protocol);
  }

  lemma {:induction false} FilterFaultAgain(x: FilterInput, y: FilterInput)
    requires FilterFault(x).None? && y.iface == x.iface && y.action == x.action
    requires y.source != "" && y.destination != ""
    ensures FilterFault(y).None? <==> y.source != "0" && y.destination != "0"
  {
  }

  /** Listing an accepted firewall rule and re-creating it stores the same rule, exactly when
      neither address trims to "0": that listing is refused as a missing field. */
  lemma {:induction false} FilterNormalForm(valid: string -> bool, x: FilterInput, tracker: string)
    requires CreateFilter(valid, x).Ok?
    ensures var b := CreateFilter(valid, x).value;
            var again := CreateFilter(valid, FilterAgain(ListFilter(Rule(Some(tracker), b))));
            if Trim(PhpSpace, x.source) != "0" && Trim(PhpSpace, x.destination) != "0" then again == Ok(b)
            else again.Rejected?
  {
    var y := FilterAgain(ListFilter(Rule(Some(tracker), BuildFilter(valid, x))));
    BuildFilterAgain(valid, x, tracker);
    SideRoundTrip(valid, x.source, x.sourcePort);
    SideRoundTrip(valid, x.destination, x.destinationPort);
    SpecRoundTrip(valid, x.source);
    SpecRoundTrip(valid, x.destination);
    FilterFaultAgain(x, y);
  }

  /** The refused family is inhabited: a source of " 0" is accepted once and not again. */
  lemma {:induction false} ZeroSourceIsLost(valid: string -> bool, tracker: string)
    ensures var x := FilterInput("wan", "pass", "", " 0", "", "any", "", "");
            && CreateFilter(valid, x).Ok?
            && CreateFilter(valid, FilterAgain(ListFilter(Rule(Some(tracker), CreateFilter(valid, x).value)))).Rejected?
  {
    var x := FilterInput("wan", "pass", "", " 0", "", "any", "", "");
    assert CreateFilter(valid, x).Ok?;
    assert " 0"[1..] == "0" && Trim(PhpSpace, " 0") == "0";
    FilterNormalForm(valid, x, tracker);
  }

  // ----- NAT port forwards

  /** The agent leaves empty source and destination fields out of the JSON. */
  datatype NatInput = NatInput(
    iface: string, protocol: string, source: Option<string>, sourcePort: string,
    destination: Option<string>, destinationPort: string, targetIp: string, targetPort: string, description: string)

  datatype NatRule = NatRule(
    iface: Option<string>, ipprotocol: Option<string>, protocol: Option<string>, source: Address, destination: Address,
    target: Option<string>, localPort: Option<string>, descr: Option<string>, disabled: bool)

  datatype NatListing = NatListing(
    tracker: string, iface: string, protocol: string, source: string, sourcePort: string,
    destination: string, destinationPort: string, targetIp: string, targetPort: string,
    description: string, disabled: bool)

  predicate ForwardProtocol(protocol: string) { protocol == "tcp" || protocol == "udp" || protocol == "tcp/udp" }

  function NatFault(x: NatInput): Option<string> {
    if Empty(x.iface) then Some(Missing("interface"))
    else if Empty(x.protocol) then Some(Missing("protocol"))
    else if Empty(x.destinationPort) then Some(Missing("destination_port"))
    else if Empty(x.targetIp) then Some(Missing("target_ip"))
    else if Empty(x.targetPort) then Some(Missing("target_port"))
    else if !ForwardProtocol(Lower(x.protocol)) then Some("protocol must be one of: tcp, udp, tcp/udp")
    else None
  }

  /** Source defaults to any, destination to the interface's own address. */
  function BuildNat(valid: string -> bool, x: NatInput): NatRule {
    NatRule(Some(x.iface), Some("inet"), Some(Lower(x.protocol)),
            ParseSide(valid, x.source.GetOr("any"), x.sourcePort),
            ParseSpec(valid, x.destination.GetOr(x.iface + "ip")).(port := Some(StorePort(x.destinationPort))),
            Some(x.targetIp), Some(StorePort(x.targetPort)), Some(x.description), false)
  }

  function CreateNat(valid: string -> bool, x: NatInput): Result<NatRule> {
    var fault := NatFault(x);
    if fault.Some? then Rejected(fault.value) else Ok(BuildNat(valid, x))
  }

  function ListNat(r: Rule<NatRule>): NatListing {
    var b := r.body;
    NatListing(r.tracker.GetOr(""), b.iface.GetOr(""), b.protocol.GetOr(""),
               FormatSpec(b.source), ShowPort(b.source.port),
               FormatSpec(b.destination), ShowPort(b.destination.port),
               b.target.GetOr(""), ShowPort(b.localPort), b.descr.GetOr(""), b.disabled)
  }

  function Present(s: string): Option<string> { if s == "" then None else Some(s) }

  function NatAgain(l: NatListing): NatInput {
    NatInput(l.iface, l.protocol, Present(l.source), l.sourcePort, Present(l.destination), l.destinationPort,
             l.targetIp, l.targetPort, l.description)
  }

  /** What an accepted port forward is stored as, field by field. */
  ghost predicate NatStored(valid: string -> bool, x: NatInput, b: NatRule) {
    && b.iface == Some(x.iface) && b.ipprotocol == Some("inet")
    && b.protocol.Some? && LowerOf(x.protocol, b.protocol.value)
    && SpecStored(valid, if x.source.Some? then x.source.value else "any", b.source)
    && PortStored(x.sourcePort, b.source.port)
    && SpecStored(valid, if x.destination.Some? then x.destination.value else x.iface + "ip", b.destination)
    && b.destination.port.Some? && Swapped(x.destinationPort, '-', ':', b.destination.port.value)
    && b.target == Some(x.targetIp) && b.localPort.Some? && Swapped(x.targetPort, '-', ':', b.localPort.value)
    && b.descr == Some(x.description) && !b.disabled
  }

  ghost predicate NatShown(r: Rule<NatRule>, l: NatListing) {
    && l.tracker == r.tracker.GetOr("") && l.disabled == r.body.disabled
    && l.iface == r.body.iface.GetOr("") && l.protocol == r.body.protocol.GetOr("")
    && SpecShown(r.body.source, l.source) && PortShown(r.body.source.port, l.sourcePort)
    && SpecShown(r.body.destination, l.destination) && PortShown(r.body.destination.port, l.destinationPort)
    && l.targetIp == r.body.target.GetOr("") && PortShown(r.body.localPort, l.targetPort)
    && l.description == r.body.descr.GetOr("")
  }

  lemma {:induction false} BuildNatStores(valid: string -> bool, x: NatInput)
    ensures NatStored(valid, x, BuildNat(valid, x))
  {
    var dst := x.destination.GetOr(x.iface + "ip");
    SideStores(valid, x.source.GetOr("any"), x.sourcePort);
    ParseSpecStores(valid, dst);
    SpecStoredPort(valid, dst, ParseSpec(valid, dst), BuildNat(valid, x).destination);
    ReplaceSwaps(x.destinationPort, '-', ':');
    ReplaceSwaps(x.targetPort, '-', ':');
    LowerLowers(x.protocol);
  }

  lemma {:induction false} ListNatShows(r: Rule<NatRule>)
    ensures NatShown(r, ListNat(r))
  {
    FormatShows(r.body.source);
    FormatShows(r.body.destination);
    ReplaceSwaps(r.body.localPort.GetOr(""), ':', '-');
  }

  /** One of the three transport protocols, in whatever case. */
  ghost predicate Transport(protocol: string) {
    EqualFold(protocol, "tcp") || EqualFold(protocol, "udp") || EqualFold(protocol, "tcp/udp")
  }

  lemma {:induction false} ForwardExact(protocol: string)
    ensures ForwardProtocol(Lower(protocol)) <==> Transport(protocol)
  {
    LowerFixed("tcp");
    LowerFixed("udp");
    LowerFixed("tcp/udp");
    LowerExact(protocol, "tcp");
    LowerExact(protocol, "udp");
    LowerExact(protocol, "tcp/udp");
  }

  lemma {:induction false} LowerFixed(s: string)
    requires forall i :: 0 <= i < |s| ==> !('A' <= s[i] <= 'Z')
    ensures Lower(s) == s
  {
    forall i | 0 <= i < |s| ensures Lower(s)[i] == s[i] { LowerAt(s, i); }
  }

  function NatFields(x: NatInput): seq<(string, string)> {
    [("interface", x.iface), ("protocol", x.protocol), ("destination_port", x.destinationPort),
     ("target_ip", x.targetIp), ("target_port", x.targetPort)]
  }

  lemma {:induction false} NatRefusal(x: NatInput, k: nat)
    requires FirstMissing(NatFields(x), k)
    ensures NatFault(x) == Some("missing required field: " + NatFields(x)[k].0)
  {
    var f := NatFields(x);
    assert f[0].1 == x.iface && f[1].1 == x.protocol && f[2].1 == x.destinationPort;
    assert f[3].1 == x.targetIp && f[4].1 == x.targetPort;
  }

  lemma {:induction false} NatAcceptance(valid: string -> bool, x: NatInput)
    ensures var out := CreateNat(valid, x);
            var given := Given(x.iface) && Given(x.protocol) && Given(x.destinationPort)
                         && Given(x.targetIp) && Given(x.targetPort);
            && (out.Ok? <==> given && Transport(x.protocol))
            && (out.Ok? ==> NatStored(valid, x, out.value))
            && (out.Rejected? && given ==> out.reason == "protocol must be one of: tcp, udp, tcp/udp")
  {
    BuildNatStores(valid, x);
    ForwardExact(x.protocol);
  }

  lemma {:induction false} BuildNatAgain(valid: string -> bool, x: NatInput, tracker: string)
    ensures var b := BuildNat(valid, x);
            BuildNat(valid, NatAgain(ListNat(Rule(Some(tracker), b)))) == b
  {
    var src, dst := x.source.GetOr("any"), x.destination.GetOr(x.iface + "ip");
    SideRoundTrip(valid, src, x.sourcePort);
    SpecRoundTrip(valid, src);
    SpecRoundTrip(valid, dst);
    PortRoundTrip(x.targetPort);
    PortRoundTrip(x.destinationPort);
    LowerIdempotent(x.protocol);
  }

  lemma {:induction false} NatFaultAgain(x: NatInput, y: NatInput)
    requires NatFault(x).None? && y.iface == x.iface && y.targetIp == x.targetIp && y.protocol == Lower(x.protocol)
    requires y.destinationPort == ShowPort(Some(StorePort(x.destinationPort)))
    requires y.targetPort == ShowPort(Some(StorePort(x.targetPort)))
    ensures NatFault(y).None?
  {
    PortRoundTrip(x.targetPort);
    PortRoundTrip(x.destinationPort);
    LowerIdempotent(x.protocol);
    LowerEmpty(x.protocol);
  }

  /** Listing an accepted port forward and re-creating it always stores the same rule; a defaulted
      destination comes back as the address it stood for. */
  lemma {:induction false} NatNormalForm(valid: string -> bool, x: NatInput, tracker: string)
    requires CreateNat(valid, x).Ok?
    ensures var b := CreateNat(valid, x).value;
            CreateNat(valid, NatAgain(ListNat(Rule(Some(tracker), b)))) == Ok(b)
  {
    BuildNatAgain(valid, x, tracker);
    NatFaultAgain(x, NatAgain(ListNat(Rule(Some(tracker), BuildNat(valid, x)))));
  }

  // ----- listing

  /** list.php's accumulation loop. */
  method ListFilters(rules: seq<Rule<FilterRule>>) returns (listed: seq<FilterListing>)
    ensures |listed| == |rules| && forall i :: 0 <= i < |rules| ==> FilterShown(rules[i], listed[i])
  {
    listed := [];
    for i := 0 to |rules|
      invariant |listed| == i && forall j :: 0 <= j < i ==> FilterShown(rules[j], listed[j])
    {
      ListFilterShows(rules[i]);
      listed := listed + [ListFilter(rules[i])];
    }
  }

  method ListNats(rules: seq<Rule<NatRule>>) returns (listed: seq<NatListing>)
    ensures |listed| == |rules| && forall i :: 0 <= i < |rules| ==> NatShown(rules[i], listed[i])
  {
    listed := [];
    for i := 0 to |rules|
      invariant |listed| == i && forall j :: 0 <= j < i ==> NatShown(rules[j], listed[j])
    {
      ListNatShows(rules[i]);
      listed := listed + [ListNat(rules[i])];
    }
  }

  // ----- the create scripts on their lists

  /** firewall/create.php: a rejected input leaves the list alone, an accepted one is appended. */
  method CreateFilterRule(store: Store<FilterRule>, valid: string -> bool, x: FilterInput, tracker: string)
    returns (ok: bool)
    modifies store
    ensures ok <==> Given(x.iface) && Given(x.source) && Given(x.destination) && x.action in {"pass", "block", "reject"}
    ensures !ok ==> store.rules == old(store.rules)
    ensures ok ==> store.rules == old(store.rules) + [Rule(Some(tracker), BuildFilter(valid, x))]
    ensures ok ==> FilterStored(valid, x, Last(store.rules).body)
  {
    FilterAcceptance(valid, x);
    match CreateFilter(valid, x)
    case Rejected(_) => ok := false;
    case Ok(rule) =>
      store.Create(tracker, rule);
      ok := true;
  }

  method CreatePortForward(store: Store<NatRule>, valid: string -> bool, x: NatInput, tracker: string)
    returns (ok: bool)
    modifies store
    ensures ok <==> Given(x.iface) && Given(x.destinationPort) && Given(x.targetIp) && Given(x.targetPort)
                    && Transport(x.protocol)
    ensures !ok ==> store.rules == old(store.rules)
    ensures ok ==> store.rules == old(store.rules) + [Rule(Some(tracker), BuildNat(valid, x))]
    ensures ok ==> NatStored(valid, x, Last(store.rules).body)
  {
    NatAcceptance(valid, x);
    match CreateNat(valid, x)
    case Rejected(_) => ok := false;
    case Ok(rule) =>
      store.Create(tracker, rule);
      ok := true;
  }
}
