/** The ICE servers handed to the peer connection: URIs (section 3.1 of RFC 7065) and the list made of
    them. */
module IceServers {
  import opened Basics
  import opened Text

  const URL_MAX: nat := 256
  const USERNAME_MAX: nat := 256
  const PASSWORD_MAX: nat := 256
  const DEFAULT_STUN_PORT: nat := 443

  datatype Kind = Stun | Turn | Turns

  datatype Protocol = Udp | Tcp

  /** A slot of the output list. */
  datatype IceServer = IceServer(
    kind: Kind, url: string, port: nat, protocol: Protocol, userName: string, password: string)

  /** What a URI says. A STUN URI says nothing about the protocol. */
  datatype Uri = Uri(kind: Kind, host: string, port: nat, protocol: Option<Protocol>)

  function Scheme(kind: Kind): string {
    match kind
    case Stun => "stun:"
    case Turn => "turn:"
    case Turns => "turns:"
  }

  function KindOf(uri: string): Option<Kind> {
    if |uri| > 5 && "stun:" <= uri then Some(Stun)
    else if |uri| > 6 && "turns:" <= uri then Some(Turns)
    else if |uri| > 5 && "turn:" <= uri then Some(Turn)
    else None
  }

  function ProtocolOf(query: string): Option<Protocol> {
    if Matches(query, "?transport=udp") then Some(Udp)
    else if Matches(query, "?transport=tcp") then Some(Tcp)
    else None
  }

  /** A URI taken apart: the part up to the first colon behind the scheme, the part from there up to
      the first question mark, and the rest. */
  datatype Parts = Parts(host: string, portText: string, query: string)
  {
    predicate WellFormed() {
      ':' !in host && '?' !in portText && (query != "" ==> query[0] == '?')
    }

    function Text(): string {
      host + ":" + portText + query
    }
  }

  function Split(rest: string): Option<Parts> {
    var colon := Find(':', rest);
    if colon == |rest| then None
    else
      var tail := rest[colon + 1..];
      var mark := Find('?', tail);
      Some(Parts(rest[..colon], tail[..mark], tail[mark..]))
  }

  function Interpreted(kind: Kind, parts: Parts): Option<Uri> {
    var port := ToUl(parts.portText);
    if |parts.host| >= URL_MAX || port.None? || port.value > 0xFFFF || parts.query == "" then None
    else if kind == Stun then Some(Uri(Stun, parts.host, port.value, None))
    else if ProtocolOf(parts.query).None? then None
    else Some(Uri(kind, parts.host, port.value, ProtocolOf(parts.query)))
  }

  /** What the text behind the scheme says. */
  function ParsedRest(kind: Kind, rest: string): Option<Uri> {
    var parts := Split(rest);
    if parts.None? then None else Interpreted(kind, parts.value)
  }

  function Parsed(uri: string): Option<Uri> {
    var kind := KindOf(uri);
    if kind.None? then None
    else
      assert |Scheme(kind.value)| <= |uri|;
      ParsedRest(kind.value, uri[|Scheme(kind.value)|..])
  }

  // ------------------------------------------------------------------ what the parser accepts

  lemma SplitText(parts: Parts)
    requires parts.WellFormed()
    ensures Split(parts.Text()) == Some(parts)
  {
    var rest := parts.Text();
    assert rest[..|parts.host|] == parts.host;
    FindUnique(':', rest, |parts.host|);
    var tail := rest[|parts.host| + 1..];
    assert tail == parts.portText + parts.query;
    assert tail[..|parts.portText|] == parts.portText && tail[|parts.portText|..] == parts.query;
    FindUnique('?', tail, |parts.portText|);
  }

  lemma TextSplit(rest: string)
    requires Split(rest).Some?
    ensures Split(rest).value.WellFormed() && Split(rest).value.Text() == rest
  {
  }

  lemma KindOfScheme(kind: Kind, rest: string)
    requires rest != ""
    ensures KindOf(Scheme(kind) + rest) == Some(kind)
    ensures (Scheme(kind) + rest)[|Scheme(kind)|..] == rest
  {
    var uri := Scheme(kind) + rest;
    assert uri[4] == Scheme(kind)[4];
    assert "turns:"[4] == 's' && "turn:"[4] == ':' && "stun:"[0] == 's';
    assert uri[0] == Scheme(kind)[0];
  }

  /** Every URI made of well-formed parts is read as those parts. */
  lemma ParsedParts(kind: Kind, parts: Parts)
    requires parts.WellFormed()
    ensures Parsed(Scheme(kind) + parts.Text()) == Interpreted(kind, parts)
  {
    KindOfScheme(kind, parts.Text());
    SplitText(parts);
  }

  lemma SchemeOfKind(uri: string)
    requires KindOf(uri).Some?
    ensures var scheme := Scheme(KindOf(uri).value); |scheme| <= |uri| && uri == scheme + uri[|scheme|..]
  {
  }

  lemma ParsedRestOnly(kind: Kind, rest: string) returns (parts: Parts)
    requires ParsedRest(kind, rest).Some?
    ensures parts.WellFormed() && rest == parts.Text()
    ensures ParsedRest(kind, rest).value.kind == kind && ParsedRest(kind, rest) == Interpreted(kind, parts)
  {
    TextSplit(rest);
    parts := Split(rest).value;
  }

  /** Every URI that is accepted is made of such parts. */
  lemma ParsedOnly(uri: string) returns (parts: Parts)
    requires Parsed(uri).Some?
    ensures parts.WellFormed() && uri == Scheme(Parsed(uri).value.kind) + parts.Text()
    ensures Parsed(uri) == Interpreted(Parsed(uri).value.kind, parts)
  {
    SchemeOfKind(uri);
    var kind := KindOf(uri).value;
    parts := ParsedRestOnly(kind, uri[|Scheme(kind)|..]);
  }

  /** A URI without a query is refused, whatever its kind: also the form that the source gives as its
      example of a STUN URI. */
  lemma NoQueryRefused(kind: Kind, host: string, portText: string)
    requires ':' !in host && '?' !in portText
    ensures Parsed(Scheme(kind) + Parts(host, portText, "").Text()) == None
  {
    ParsedParts(kind, Parts(host, portText, ""));
  }

  function Query(protocol: Protocol): string {
    if protocol == Udp then "?transport=udp" else "?transport=tcp"
  }

  lemma ProtocolOfQuery(protocol: Protocol)
    ensures ProtocolOf(Query(protocol)) == Some(protocol) && Query(protocol) != "" && Query(protocol)[0] == '?'
  {
    assert "?transport=tcp"[11] != "?transport=udp"[11];
  }

  lemma InterpretedPrinted(kind: Kind, parts: Parts, port: nat, protocol: Protocol)
    requires kind != Stun && |parts.host| < URL_MAX && port <= 0xFFFF && parts.portText == Decimal(port)
    requires parts.query != "" && ProtocolOf(parts.query) == Some(protocol)
    ensures Interpreted(kind, parts) == Some(Uri(kind, parts.host, port, Some(protocol)))
  {
    DecimalRoundTrip(port);
  }

  /** A printed TURN URI is read back. */
  lemma PrintedParses(kind: Kind, host: string, port: nat, protocol: Protocol)
    requires kind != Stun && ':' !in host && |host| < URL_MAX && port <= 0xFFFF
    ensures Parsed(Scheme(kind) + Parts(host, Decimal(port), Query(protocol)).Text())
         == Some(Uri(kind, host, port, Some(protocol)))
  {
    DecimalPlain(port, '?');
    ProtocolOfQuery(protocol);
    var parts := Parts(host, Decimal(port), Query(protocol));
    InterpretedPrinted(kind, parts, port, protocol);
    ParsedParts(kind, parts);
  }

  lemma InterpretedStun(parts: Parts, port: nat)
    requires |parts.host| < URL_MAX && port <= 0xFFFF && parts.portText == Decimal(port) && parts.query != ""
    ensures Interpreted(Stun, parts) == Some(Uri(Stun, parts.host, port, None))
  {
    DecimalRoundTrip(port);
  }

  /** A STUN URI is read back, whatever its query says; it says nothing about the protocol. */
  lemma PrintedStunParses(host: string, port: nat, query: string)
    requires ':' !in host && |host| < URL_MAX && port <= 0xFFFF && query != "" && query[0] == '?'
    ensures Parsed(Scheme(Stun) + Parts(host, Decimal(port), query).Text()) == Some(Uri(Stun, host, port, None))
  {
    var parts := Parts(host, Decimal(port), query);
    DecimalPlain(port, '?');
    InterpretedStun(parts, port);
    ParsedParts(Stun, parts);
  }

  /** When a URI made of well-formed parts is accepted: the host is shorter than 256 characters, the port text is
      empty or starts with a digit and says at most 65535, and there is a query, which for TURN starts one
      of the two transports. */
  lemma AcceptedExactly(kind: Kind, parts: Parts)
    requires parts.WellFormed()
    ensures Parsed(Scheme(kind) + parts.Text()).Some? <==>
              && |parts.host| < 256 && parts.query != ""
              && (parts.portText == "" || '0' <= parts.portText[0] <= '9')
              && Value(parts.portText[..DigitCount(parts.portText)]) % 0x1_0000_0000 <= 65535
              && (kind != Stun ==> parts.query <= "?transport=udp" || parts.query <= "?transport=tcp")
  {
    ParsedParts(kind, parts);
  }

  // ------------------------------------------------------------------ filling a slot

  /** `after` differs from `before` only in slot `k`, and there not in the credentials. */
  ghost predicate OnlySlot(before: seq<IceServer>, after: seq<IceServer>, k: nat) {
    && k < |before| == |after|
    && after == before[k := after[k]]
    && after[k].userName == before[k].userName && after[k].password == before[k].password
  }

  /** The slot says what the URI says; a STUN URI leaves the protocol that was there. */
  ghost predicate Reads(slot: IceServer, uri: Uri, protocol: Protocol) {
    && slot.kind == uri.kind && slot.url == uri.host && slot.port == uri.port
    && slot.protocol == if uri.protocol.Some? then uri.protocol.value else protocol
  }

  /** The port and the query, with the host already in the slot. */
  method ParsePort(servers: array<IceServer>, k: nat, portText: string, query: string) returns (ok: bool)
    requires k < servers.Length && |servers[k].url| < URL_MAX
    modifies servers
    ensures OnlySlot(old(servers[..]), servers[..], k)
    ensures var uri := Interpreted(old(servers[k].kind), Parts(old(servers[k].url), portText, query));
            (ok <==> uri.Some?) && (ok ==> Reads(servers[k], uri.value, old(servers[k].protocol)))
  {
    var port := ConvertStringToUl(portText);
    if port.None? || port.value > 0xFFFF {
      return false;
    }
    servers[k] := servers[k].(port := port.value);
    if query == "" {
      return false;
    }
    if servers[k].kind == Stun {
      return true;
    }
    if Matches(query, "?transport=udp") {
      servers[k] := servers[k].(protocol := Udp);
    } else if Matches(query, "?transport=tcp") {
      servers[k] := servers[k].(protocol := Tcp);
    } else {
      return false;
    }
    return true;
  }

  method ParseRest(servers: array<IceServer>, k: nat, rest: string) returns (ok: bool)
    requires k < servers.Length
    modifies servers
    ensures OnlySlot(old(servers[..]), servers[..], k)
    ensures var uri := ParsedRest(old(servers[k].kind), rest);
            (ok <==> uri.Some?) && (ok ==> Reads(servers[k], uri.value, old(servers[k].protocol)))
  {
    var colon := Find(':', rest);
    if colon == |rest| || colon >= URL_MAX {
      return false;
    }
    servers[k] := servers[k].(url := rest[..colon]);
    var tail := rest[colon + 1..];
    var mark := Find('?', tail);
    ok := ParsePort(servers, k, tail[..mark], tail[mark..]);
  }

  /** Fills slot `k` from a URI. A URI that is refused half-way leaves the fields read so far behind. */
  method ParseIceServerUri(servers: array<IceServer>, k: nat, uri: string) returns (ok: bool)
    requires k < servers.Length
    modifies servers
    ensures OnlySlot(old(servers[..]), servers[..], k)
    ensures ok <==> Parsed(uri).Some?
    ensures ok ==> Reads(servers[k], Parsed(uri).value, old(servers[k].protocol))
  {
    var kind := KindOf(uri);
    if kind.None? {
      return false;
    }
    SchemeOfKind(uri);
    servers[k] := servers[k].(kind := kind.value);
    ok := ParseRest(servers, k, uri[|Scheme(kind.value)|..]);
  }

  // ------------------------------------------------------------------ the list

  /** One set of servers that share their credentials. */
  datatype Config = Config(userName: string, password: string, uris: seq<string>)
  {
    predicate Storable() {
      |userName| <= USERNAME_MAX && |password| <= PASSWORD_MAX
    }
  }

  datatype Entry = Entry(uri: Uri, userName: string, password: string)

  ghost predicate Holds(slot: IceServer, entry: Entry) {
    && slot.kind == entry.uri.kind && slot.url == entry.uri.host && slot.port == entry.uri.port
    && (entry.uri.protocol.Some? ==> slot.protocol == entry.uri.protocol.value)
    && slot.userName == entry.userName && slot.password == entry.password
  }

  /** The entries of the URIs that parse, in order. */
  function FromUris(config: Config, uris: seq<string>): seq<Entry> {
    if uris == [] then []
    else FromUris(config, uris[..|uris| - 1]) + FromUri(config, uris[|uris| - 1])
  }

  function FromUri(config: Config, uri: string): seq<Entry> {
    if Parsed(uri).Some? then [Entry(Parsed(uri).value, config.userName, config.password)] else []
  }

  /** The entries of all configurations whose credentials can be stored, in order. */
  function Entries(configs: seq<Config>): seq<Entry> {
    if configs == [] then []
    else Entries(configs[..|configs| - 1]) + FromConfig(configs[|configs| - 1])
  }

  function FromConfig(config: Config): seq<Entry> {
    if config.Storable() then FromUris(config, config.uris) else []
  }

  /** The list of a concatenation is the concatenation of the lists: nothing is lost, added or reordered. */
  lemma {:induction false} EntriesConcat(a: seq<Config>, b: seq<Config>)
    ensures Entries(a + b) == Entries(a) + Entries(b)
    decreases |b|
  {
    if b == [] {
      assert a + b == a;
    } else {
      var n := |b| - 1;
      assert (a + b)[..|a + b| - 1] == a + b[..n] && (a + b)[|a + b| - 1] == b[n];
      EntriesConcat(a, b[..n]);
    }
  }

  lemma {:induction false} FromUrisConcat(config: Config, a: seq<string>, b: seq<string>)
    ensures FromUris(config, a + b) == FromUris(config, a) + FromUris(config, b)
    decreases |b|
  {
    if b == [] {
      assert a + b == a;
    } else {
      var n := |b| - 1;
      assert (a + b)[..|a + b| - 1] == a + b[..n];
      FromUrisConcat(config, a, b[..n]);
    }
  }

  /** One URI of one configuration has an entry exactly when it parses and the credentials fit, and the entry says what
      the URI says and carries the configuration's own name and password. */
  lemma EntriesOne(config: Config, uri: string)
    requires config.uris == [uri]
    ensures var list := Entries([config]);
            if Parsed(uri).Some? && |config.userName| <= 256 && |config.password| <= 256
            then |list| == 1 && Some(list[0].uri) == Parsed(uri)
                 && list[0].userName == config.userName && list[0].password == config.password
            else list == []
  {
    assert [config][..0] == [] && [uri][..0] == [];
    assert Entries([]) == [] && FromUris(config, []) == [];
  }

  lemma FromUrisNext(config: Config, uris: seq<string>, j: nat)
    requires j < |uris|
    ensures FromUris(config, uris[..j + 1]) == FromUris(config, uris[..j]) + FromUri(config, uris[j])
  {
    assert uris[..j + 1][..j] == uris[..j];
  }

  lemma EntriesNext(configs: seq<Config>, i: nat)
    requires i < |configs|
    ensures Entries(configs[..i + 1]) == Entries(configs[..i]) + FromConfig(configs[i])
  {
    assert configs[..i + 1][..i] == configs[..i];
  }

  lemma {:induction false} FromUrisGrows(config: Config, uris: seq<string>, n: nat)
    requires n <= |uris|
    ensures FromUris(config, uris[..n]) <= FromUris(config, uris)
    decreases |uris|
  {
    if n < |uris| {
      FromUrisGrows(config, uris[..|uris| - 1], n);
      assert uris[..|uris| - 1][..n] == uris[..n];
    } else {
      assert uris[..n] == uris;
    }
  }

  lemma {:induction false} EntriesGrow(configs: seq<Config>, n: nat)
    requires n <= |configs|
    ensures Entries(configs[..n]) <= Entries(configs)
    decreases |configs|
  {
    if n < |configs| {
      EntriesGrow(configs[..|configs| - 1], n);
      assert configs[..|configs| - 1][..n] == configs[..n];
    } else {
      assert configs[..n] == configs;
    }
  }

  /** Slots `from` to `to` hold the first entries. */
  ghost predicate Filled(slots: seq<IceServer>, from: nat, to: nat, entries: seq<Entry>) {
    && from <= to <= |slots| && to - from <= |entries|
    && forall k :: from <= k < to ==> Holds(slots[k], entries[k - from])
  }

  /** One URI into slot `count`; returns the new count. */
  method FillUri(config: Config, uri: string, servers: array<IceServer>, count: nat) returns (count': nat)
    requires count < servers.Length
    modifies servers
    ensures count' == count + |FromUri(config, uri)| <= servers.Length
    ensures Filled(servers[..], count, count', FromUri(config, uri))
    ensures forall k :: 0 <= k < count ==> servers[k] == old(servers[k])
  {
    var ok := ParseIceServerUri(servers, count, uri);
    if !ok {
      return count;
    }
    servers[count] := servers[count].(userName := config.userName, password := config.password);
    count' := count + 1;
  }

  /** One URI behind the `entries` that are already filled in from `start` on. */
  method FillNext(config: Config, uri: string, servers: array<IceServer>, start: nat, count: nat,
                  ghost entries: seq<Entry>)
    returns (count': nat)
    requires start <= count < servers.Length && count - start == |entries|
    requires Filled(servers[..], start, count, entries)
    modifies servers
    ensures count' <= count + 1 && count' - start == |entries + FromUri(config, uri)|
    ensures Filled(servers[..], start, count', entries + FromUri(config, uri))
    ensures forall k :: 0 <= k < start ==> servers[k] == old(servers[k])
  {
    count' := FillUri(config, uri, servers, count);
    FilledTwice(servers[..], start, count, count', entries, FromUri(config, uri));
  }

  /** The inner loop: the URIs of one configuration, until the list is full. */
  method FillConfig(config: Config, servers: array<IceServer>, count: nat, capacity: nat) returns (count': nat)
    requires count <= capacity <= servers.Length
    modifies servers
    ensures count <= count' <= capacity
    ensures count' < capacity ==> count' - count == |FromUris(config, config.uris)|
    ensures Filled(servers[..], count, count', FromUris(config, config.uris))
    ensures forall k :: 0 <= k < count ==> servers[k] == old(servers[k])
  {
    count' := count;
    var j := 0;
    ghost var entries := [];
    while j < |config.uris| && count' < capacity
      invariant j <= |config.uris| && count <= count' <= capacity
      invariant entries == FromUris(config, config.uris[..j]) && count' - count == |entries|
      invariant Filled(servers[..], count, count', entries)
      invariant forall k :: 0 <= k < count ==> servers[k] == old(servers[k])
    {
      FromUrisNext(config, config.uris, j);
      count' := FillNext(config, config.uris[j], servers, count, count', entries);
      entries, j := entries + FromUri(config, config.uris[j]), j + 1;
    }
    FromUrisGrows(config, config.uris, j);
    FilledGrows(servers[..], count, count', entries, FromUris(config, config.uris));
    if count' < capacity {
      assert config.uris[..j] == config.uris;
    }
  }

  lemma FilledGrows(slots: seq<IceServer>, from: nat, to: nat, entries: seq<Entry>, more: seq<Entry>)
    requires Filled(slots, from, to, entries) && entries <= more
    ensures Filled(slots, from, to, more)
  {
  }

  lemma FilledTwice(slots: seq<IceServer>, from: nat, mid: nat, to: nat, entries: seq<Entry>, more: seq<Entry>)
    requires Filled(slots, from, mid, entries) && mid - from == |entries| && Filled(slots, mid, to, more)
    ensures Filled(slots, from, to, entries + more)
  {
  }

  /** The outer loop: every configuration, until the list is full. */
  method FillConfigs(configs: seq<Config>, servers: array<IceServer>, start: nat, capacity: nat) returns (count: nat)
    requires start <= capacity <= servers.Length
    modifies servers
    ensures count == if start + |Entries(configs)| < capacity then start + |Entries(configs)| else capacity
    ensures Filled(servers[..], start, count, Entries(configs))
    ensures forall k :: 0 <= k < start ==> servers[k] == old(servers[k])
  {
    count := start;
    var i := 0;
    var full := false;
    ghost var entries := [];
    while i < |configs| && !full
      invariant i <= |configs| && start <= count <= capacity
      invariant entries == Entries(configs[..i])
      invariant count < capacity ==> count - start == |entries|
      invariant full ==> count == capacity
      invariant Filled(servers[..], start, count, entries)
      invariant forall k :: 0 <= k < start ==> servers[k] == old(servers[k])
      decreases |configs| - i, !full
    {
      EntriesNext(configs, i);
      if !configs[i].Storable() {
        i := i + 1;
      } else if count >= capacity {
        full := true;
      } else {
        var next := FillConfig(configs[i], servers, count, capacity);
        FilledTwice(servers[..], start, count, next, entries, FromUris(configs[i], configs[i].uris));
        entries := entries + FromUris(configs[i], configs[i].uris);
        count, i := next, i + 1;
      }
    }
    EntriesGrow(configs, i);
    if !full {
      assert configs[..i] == configs;
    }
  }

  /** The ICE server list: the default STUN server, then the entry of every URI that parses, from every
      configuration whose credentials can be stored, cut at the capacity. `configs` is the answer of the
      signalling controller, `stunUrl` the name built from the region. */
  method GetIceServerList(configs: Option<seq<Config>>, stunUrl: string, servers: array<IceServer>, capacity: nat)
    returns (ok: bool, count: nat)
    requires capacity <= servers.Length && |stunUrl| <= URL_MAX
    modifies servers
    ensures ok <==> capacity >= 1 && configs.Some? && |stunUrl| < URL_MAX
    ensures !ok ==> count == capacity && forall k :: 1 <= k < servers.Length ==> servers[k] == old(servers[k])
    ensures ok ==> count == if 1 + |Entries(configs.value)| < capacity then 1 + |Entries(configs.value)| else capacity
    ensures ok ==> Holds(servers[0], Entry(Uri(Stun, stunUrl, DEFAULT_STUN_PORT, Some(Udp)), "", ""))
    ensures ok ==> Filled(servers[..], 1, count, Entries(configs.value))
  {
    if capacity < 1 || configs.None? {
      return false, capacity;
    }
    if |stunUrl| == URL_MAX {
      servers[0] := servers[0].(url := stunUrl[..URL_MAX - 1]);
      return false, capacity;
    }
    servers[0] := IceServer(Stun, stunUrl, DEFAULT_STUN_PORT, Udp, "", "");
    count := FillConfigs(configs.value, servers, 1, capacity);
    ok := true;
  }
}
