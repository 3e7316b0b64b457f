/** ICE candidates as text (section 5.1 of RFC 8839): the line that is sent for a local candidate and
    the token automaton that reads a remote one. */
module IceCandidate {
  import opened Basics
  import opened Text
  import opened TokenMachine

  const IP_TEXT_MAX: nat := 39
  const BUFFER_SIZE: nat := 512

  datatype Protocol = Udp | Tcp

  datatype CandidateType = Host | Srflx | Prflx | Relay

  datatype Address = V4(octets: seq<Octet>) | V6(octets: seq<Octet>)

  datatype Candidate = Candidate(protocol: Protocol, priority: nat, address: Address, port: nat, kind: CandidateType)

  /** `inet_pton` for the two families. */
  datatype Network = Network(v4: string -> Option<seq<Octet>>, v6: string -> Option<seq<Octet>>)
  {
    /** Dotted decimal and full hexadecimal forms are read, and no text with a colon is an IPv4 address. */
    ghost predicate Lawful() {
      && (forall o {:trigger Dotted(o)} :: |o| == 4 ==> v4(Dotted(o)) == Some(o))
      && (forall o {:trigger Groups(o)} :: |o| == 16 ==> v6(Groups(o)) == Some(o))
      && (forall s {:trigger v4(s)} :: ':' in s ==> v4(s) == None)
    }
  }

  // ------------------------------------------------------------------ the automaton

  function ProtocolOf(token: string): Option<Protocol> {
    if Matches(token, "tcp") || Matches(token, "TCP") then Some(Tcp)
    else if Matches(token, "udp") || Matches(token, "UDP") then Some(Udp)
    else None
  }

  function KindOf(token: string): Option<CandidateType> {
    if Matches(token, "host") then Some(Host)
    else if Matches(token, "srflx") then Some(Srflx)
    else if Matches(token, "prflx") then Some(Prflx)
    else if Matches(token, "relay") then Some(Relay)
    else None
  }

  function AddressOf(net: Network, token: string): Option<Address> {
    if |token| > IP_TEXT_MAX then None
    else if net.v4(token).Some? then Some(V4(net.v4(token).value))
    else if net.v6(token).Some? then Some(V6(net.v6(token).value))
    else None
  }

  /** Whether the automaton goes on after `token` in `state`. */
  predicate Accepts(net: Network, state: nat, token: string) {
    match state
    case 2 => ProtocolOf(token).Some?
    case 3 => ToUl(token).Some?
    case 4 => AddressOf(net, token).Some?
    case 5 => ToUl(token).Some?
    case 6 => token == "typ"
    case 7 => KindOf(token).Some?
    case _ => true
  }

  /** What `token` sets in `state`; a port keeps its low 16 bits. */
  function Store(net: Network, state: nat, token: string, c: Candidate): Candidate {
    if !Accepts(net, state, token) then c
    else match state
      case 2 => c.(protocol := ProtocolOf(token).value)
      case 3 => c.(priority := ToUl(token).value)
      case 4 => c.(address := AddressOf(net, token).value)
      case 5 => c.(port := ToUl(token).value % 0x1_0000)
      case 7 => c.(kind := KindOf(token).value)
      case _ => c
  }

  function CandidateMachine(net: Network): Machine<Candidate> {
    Machine((state: nat, token: string) => Accepts(net, state, token),
            (state: nat, token: string, c: Candidate) => Store(net, state, token, c))
  }

  /** The first eight words are there and the third to eighth are accepted. */
  predicate Readable(net: Network, tokens: seq<string>) {
    |tokens| >= 8 && forall k :: 2 <= k < 8 ==> Accepts(net, k, tokens[k])
  }

  /** What a readable line says. */
  function Content(net: Network, tokens: seq<string>): Candidate
    requires Readable(net, tokens)
  {
    assert Accepts(net, 2, tokens[2]) && Accepts(net, 3, tokens[3]) && Accepts(net, 4, tokens[4]);
    assert Accepts(net, 5, tokens[5]) && Accepts(net, 7, tokens[7]);
    Candidate(ProtocolOf(tokens[2]).value, ToUl(tokens[3]).value, AddressOf(net, tokens[4]).value,
              ToUl(tokens[5]).value % 0x1_0000, KindOf(tokens[7]).value)
  }

  lemma AcceptedReadable(net: Network, tokens: seq<string>)
    ensures CandidateMachine(net).ResultOf(tokens) == Ok <==> Readable(net, tokens)
  {
  }

  lemma StoredNext(net: Network, tokens: seq<string>, n: nat, initial: Candidate)
    requires n < |tokens|
    ensures var m := CandidateMachine(net);
            m.Stored(tokens[..n + 1], initial) == Store(net, n, tokens[n], m.Stored(tokens[..n], initial))
  {
    assert tokens[..n + 1][..n] == tokens[..n];
  }

  /** Every field of the structure is overwritten. */
  lemma StoredContent(net: Network, tokens: seq<string>, initial: Candidate)
    requires Readable(net, tokens)
    ensures CandidateMachine(net).Stored(tokens[..8], initial) == Content(net, tokens)
  {
    var m := CandidateMachine(net);
    assert tokens[..0] == [];
    StoredNext(net, tokens, 0, initial);
    StoredNext(net, tokens, 1, initial);
    var c := m.Stored(tokens[..2], initial);
    StoredNext(net, tokens, 2, initial);
    var c2 := c.(protocol := ProtocolOf(tokens[2]).value);
    StoredNext(net, tokens, 3, initial);
    var c3 := c2.(priority := ToUl(tokens[3]).value);
    assert m.Stored(tokens[..4], initial) == c3;
    StoredNext(net, tokens, 4, initial);
    var c4 := c3.(address := AddressOf(net, tokens[4]).value);
    StoredNext(net, tokens, 5, initial);
    var c5 := c4.(port := ToUl(tokens[5]).value % 0x1_0000);
    assert m.Stored(tokens[..6], initial) == c5;
    StoredNext(net, tokens, 6, initial);
    StoredNext(net, tokens, 7, initial);
  }

  /** Reads a candidate line into a structure that held `initial`. */
  method Deserialize(net: Network, text: string, initial: Candidate)
    returns (result: Result, c: Candidate, examined: nat)
    ensures result == Ok <==> Readable(net, Tokens(text))
    ensures result == InvalidType <==>
              && |Tokens(text)| >= 8 && (forall k :: 2 <= k < 7 ==> Accepts(net, k, Tokens(text)[k]))
              && KindOf(Tokens(text)[7]).None?
    ensures result == Ok ==> c == Content(net, Tokens(text))
    ensures examined <= 9 && examined <= |Tokens(text)|
  {
    result, c, examined := CandidateMachine(net).Run(text, initial);
    AcceptedReadable(net, Tokens(text));
    RefusedType(net, Tokens(text));
    if result == Ok {
      StoredContent(net, Tokens(text), initial);
    }
  }

  /** Text behind the eighth word and its space never changes the result. */
  lemma TrailingIgnored(net: Network, head: string, more: string)
    requires |Tokens(head + " ")| >= 8
    ensures |Tokens(head + " " + more)| >= 8 && Tokens(head + " " + more)[..8] == Tokens(head + " ")[..8]
    ensures CandidateMachine(net).ResultOf(Tokens(head + " " + more)) ==
            CandidateMachine(net).ResultOf(Tokens(head + " "))
  {
    TokensApart(head, more);
    SameStart(CandidateMachine(net), Tokens(head + " "), Tokens(more));
  }

  lemma SameStart<C(!new)>(m: Machine<C>, tokens: seq<string>, more: seq<string>)
    requires |tokens| >= 8
    ensures (tokens + more)[..8] == tokens[..8]
    ensures m.ResultOf(tokens + more) == m.ResultOf(tokens)
  {
    assert (tokens + more)[..7] == tokens[..7];
  }

  // ------------------------------------------------------------------ printing

  function Hex(d: nat): char
    requires d < 16
  {
    if d < 10 then '0' + d as char else 'A' + (d - 10) as char
  }

  function Dotted(o: seq<Octet>): string
    requires |o| == 4
  {
    Decimal(o[0]) + "." + Decimal(o[1]) + "." + Decimal(o[2]) + "." + Decimal(o[3])
  }

  function Pair(a: Octet, b: Octet): string {
    [Hex(a / 16), Hex(a % 16), Hex(b / 16), Hex(b % 16)]
  }

  /** Groups of four hexadecimal digits with colons between them; an address has eight. */
  function Groups(o: seq<Octet>): string
    requires |o| >= 2 && |o| % 2 == 0
  {
    if |o| == 2 then Pair(o[0], o[1]) else Pair(o[0], o[1]) + ":" + Groups(o[2..])
  }

  predicate Complete(address: Address) {
    if address.V4? then |address.octets| == 4 else |address.octets| == 16
  }

  function AddressText(address: Address): string
    requires Complete(address)
  {
    if address.V4? then Dotted(address.octets) else Groups(address.octets)
  }

  function TypeText(kind: CandidateType): string {
    match kind
    case Host => "host"
    case Srflx => "srflx"
    case Prflx => "prflx"
    case Relay => "relay"
  }

  /** The eight words of a candidate, `protocol` being a spelling of its protocol. */
  function WordsOf(foundation: string, component: string, protocol: string, c: Candidate): seq<string>
    requires Complete(c.address)
  {
    [foundation, component, protocol, Decimal(c.priority), AddressText(c.address), Decimal(c.port), "typ",
     TypeText(c.kind)]
  }

  function Words(index: nat, priority: nat, address: Address, port: nat, kind: CandidateType): seq<string>
    requires Complete(address)
  {
    WordsOf("candidate:" + Decimal(index), "1", "udp", Candidate(Udp, priority, address, port, kind))
  }

  function Rest(address: Address): string {
    if address.V4? then "raddr 0.0.0.0 rport 0 generation 0 network-cost 999"
    else "raddr ::/0 rport 0 generation 0 network-cost 999"
  }

  /** The two templates. */
  function Printed(index: nat, priority: nat, address: Address, port: nat, kind: CandidateType): string
    requires Complete(address)
  {
    Line(Words(index, priority, address, port, kind), Rest(address))
  }

  lemma RefusedType(net: Network, tokens: seq<string>)
    ensures CandidateMachine(net).ResultOf(tokens) == InvalidType <==>
              |tokens| >= 8 && (forall k :: 2 <= k < 7 ==> Accepts(net, k, tokens[k])) && KindOf(tokens[7]).None?
  {
  }

  // ------------------------------------------------------------------ reading back what was printed

  lemma DottedText(o: seq<Octet>)
    requires |o| == 4
    ensures |Dotted(o)| <= 15 && ' ' !in Dotted(o)
  {
    assert Power10(3) == 1000;
    DecimalLength(o[0], 3);
    DecimalLength(o[1], 3);
    DecimalLength(o[2], 3);
    DecimalLength(o[3], 3);
    DecimalPlain(o[0], ' ');
    DecimalPlain(o[1], ' ');
    DecimalPlain(o[2], ' ');
    DecimalPlain(o[3], ' ');
  }

  lemma PairText(a: Octet, b: Octet)
    ensures ' ' !in Pair(a, b)
  {
  }

  lemma {:induction false} GroupsText(o: seq<Octet>)
    requires |o| >= 2 && |o| % 2 == 0
    ensures |Groups(o)| == |o| / 2 * 5 - 1 && ' ' !in Groups(o) && (|o| > 2 ==> ':' in Groups(o))
  {
    PairText(o[0], o[1]);
    if |o| > 2 {
      GroupsText(o[2..]);
      assert Groups(o)[4] == ':';
    }
  }

  lemma AddressPlain(address: Address)
    requires Complete(address)
    ensures ' ' !in AddressText(address) && |AddressText(address)| <= IP_TEXT_MAX
  {
    if address.V4? {
      DottedText(address.octets);
    } else {
      GroupsText(address.octets);
    }
  }

  lemma AddressRoundTrip(net: Network, address: Address)
    requires net.Lawful() && Complete(address)
    ensures AddressOf(net, AddressText(address)) == Some(address)
  {
    AddressPlain(address);
    if address.V6? {
      GroupsText(address.octets);
    }
  }

  lemma TypeRoundTrip(kind: CandidateType)
    ensures KindOf(TypeText(kind)) == Some(kind) && ' ' !in TypeText(kind) && |TypeText(kind)| <= 5
  {
    assert "srflx"[0] == 's' && "prflx"[0] == 'p' && "relay"[0] == 'r' && "host"[0] == 'h';
  }

  function Spellings(protocol: Protocol): set<string> {
    match protocol
    case Tcp => {"tcp", "TCP"}
    case Udp => {"udp", "UDP"}
  }

  lemma ProtocolRoundTrip(protocol: Protocol, word: string)
    requires word in Spellings(protocol)
    ensures ProtocolOf(word) == Some(protocol) && ' ' !in word
  {
    assert "udp"[0] == 'u' && "UDP"[0] == 'U' && "tcp"[0] == 't' && "TCP"[0] == 'T';
  }

  lemma AllPlain(a: string, b: string, c: string, d: string, e: string, f: string, g: string, h: string)
    requires ' ' !in a && ' ' !in b && ' ' !in c && ' ' !in d && ' ' !in e && ' ' !in f && ' ' !in g && ' ' !in h
    ensures forall i :: 0 <= i < 8 ==> ' ' !in [a, b, c, d, e, f, g, h][i]
  {
  }

  lemma WordsPlain(foundation: string, component: string, protocol: string, c: Candidate)
    requires Complete(c.address) && ' ' !in foundation && ' ' !in component && ' ' !in protocol
    ensures forall i :: 0 <= i < 8 ==> ' ' !in WordsOf(foundation, component, protocol, c)[i]
  {
    DecimalPlain(c.priority, ' ');
    DecimalPlain(c.port, ' ');
    AddressPlain(c.address);
    TypeRoundTrip(c.kind);
    AllPlain(foundation, component, protocol, Decimal(c.priority), AddressText(c.address), Decimal(c.port),
             "typ", TypeText(c.kind));
  }

  /** A line is readable when its words say what a candidate needs. */
  lemma Says(net: Network, tokens: seq<string>, c: Candidate)
    requires |tokens| >= 8 && ProtocolOf(tokens[2]) == Some(c.protocol) && ToUl(tokens[3]) == Some(c.priority)
    requires AddressOf(net, tokens[4]) == Some(c.address) && ToUl(tokens[5]) == Some(c.port) && c.port < 0x1_0000
    requires tokens[6] == "typ" && KindOf(tokens[7]) == Some(c.kind)
    ensures Readable(net, tokens) && Content(net, tokens) == c
  {
  }

  /** What the words of a candidate say, whatever follows them. */
  lemma WordsSay(net: Network, tokens: seq<string>, c: Candidate)
    requires net.Lawful() && Complete(c.address) && c.priority < TWO_32 && c.port < 0x1_0000
    requires |tokens| >= 8 && tokens[2] in Spellings(c.protocol) && tokens[3] == Decimal(c.priority)
    requires tokens[4] == AddressText(c.address) && tokens[5] == Decimal(c.port)
    requires tokens[6] == "typ" && tokens[7] == TypeText(c.kind)
    ensures Readable(net, tokens) && Content(net, tokens) == c
  {
    ProtocolRoundTrip(c.protocol, tokens[2]);
    DecimalReads(tokens[3], c.priority);
    DecimalReads(tokens[5], c.port);
    AddressRoundTrip(net, c.address);
    TypeRoundTrip(c.kind);
    Says(net, tokens, c);
  }

  lemma WordsAt(tokens: seq<string>, foundation: string, component: string, protocol: string, c: Candidate)
    requires Complete(c.address) && WordsOf(foundation, component, protocol, c) <= tokens
    ensures |tokens| >= 8 && tokens[2] == protocol && tokens[3] == Decimal(c.priority)
    ensures tokens[4] == AddressText(c.address) && tokens[5] == Decimal(c.port)
    ensures tokens[6] == "typ" && tokens[7] == TypeText(c.kind)
  {
  }

  /** Every candidate is read back from its line: any foundation and component, either spelling of either
      protocol, any priority, address, port and type, and anything behind the eighth word. */
  lemma LineReads(net: Network, foundation: string, component: string, protocol: string, c: Candidate, more: string)
    requires net.Lawful() && Complete(c.address) && c.priority < TWO_32 && c.port < 0x1_0000
    requires ' ' !in foundation && ' ' !in component && protocol in Spellings(c.protocol)
    ensures var tokens := Tokens(Line(WordsOf(foundation, component, protocol, c), more));
            Readable(net, tokens) && Content(net, tokens) == c
  {
    var words := WordsOf(foundation, component, protocol, c);
    ProtocolRoundTrip(c.protocol, protocol);
    WordsPlain(foundation, component, protocol, c);
    TokensLine(words, more);
    var tokens := Tokens(Line(words, more));
    WordsAt(tokens, foundation, component, protocol, c);
    WordsSay(net, tokens, c);
  }

  /** The same when nothing, not even a space, follows the eighth word. */
  lemma ShortLineReads(net: Network, foundation: string, component: string, protocol: string, c: Candidate)
    requires net.Lawful() && Complete(c.address) && c.priority < TWO_32 && c.port < 0x1_0000
    requires ' ' !in foundation && ' ' !in component && protocol in Spellings(c.protocol)
    ensures var tokens := Tokens(Line(WordsOf(foundation, component, protocol, c)[..7], TypeText(c.kind)));
            Readable(net, tokens) && Content(net, tokens) == c
  {
    var words, kind := WordsOf(foundation, component, protocol, c), TypeText(c.kind);
    ProtocolRoundTrip(c.protocol, protocol);
    TypeRoundTrip(c.kind);
    WordsPlain(foundation, component, protocol, c);
    TokensLine(words[..7], kind);
    OneToken(kind);
    var tokens := Tokens(Line(words[..7], kind));
    assert tokens == words;
    WordsAt(tokens, foundation, component, protocol, c);
    WordsSay(net, tokens, c);
  }

  lemma OneToken(word: string)
    requires word != "" && ' ' !in word
    ensures Tokens(word) == [word]
  {
    FindUnique(' ', word, |word|);
    assert word[..|word|] == word;
  }

  /** A printed candidate is read back with its priority, address, port and type. */
  lemma PrintedReads(net: Network, index: nat, priority: nat, address: Address, port: nat, kind: CandidateType)
    requires net.Lawful() && Complete(address) && priority < TWO_32 && port < 0x1_0000
    ensures var tokens := Tokens(Printed(index, priority, address, port, kind));
            Readable(net, tokens) && Content(net, tokens) == Candidate(Udp, priority, address, port, kind)
  {
    DecimalPlain(index, ' ');
    LineReads(net, "candidate:" + Decimal(index), "1", "udp", Candidate(Udp, priority, address, port, kind),
              Rest(address));
  }

  // ------------------------------------------------------------------ what is refused

  /** The word is an initial part of one of `keywords`. */
  predicate Starts(word: string, keywords: seq<string>) {
    exists i :: 0 <= i < |keywords| && word <= keywords[i]
  }

  predicate Numeric(word: string) {
    word == "" || '0' <= word[0] <= '9'
  }

  /** Exactly these lines are read: eight words, of which the third starts a protocol's name, the fourth and
      sixth are empty or start with a digit, the fifth is an address, the seventh is `typ` and the eighth
      starts the name of a type. */
  lemma ReadableExactly(net: Network, tokens: seq<string>)
    ensures Readable(net, tokens) <==>
              && |tokens| >= 8 && Starts(tokens[2], ["tcp", "TCP", "udp", "UDP"])
              && Numeric(tokens[3]) && Numeric(tokens[5]) && tokens[6] == "typ"
              && |tokens[4]| <= 39 && (net.v4(tokens[4]).Some? || net.v6(tokens[4]).Some?)
              && Starts(tokens[7], ["host", "srflx", "prflx", "relay"])
  {
    if |tokens| >= 8 {
      ProtocolStarts(tokens[2]);
      KindStarts(tokens[7]);
      assert Accepts(net, 2, tokens[2]) <==> Starts(tokens[2], ["tcp", "TCP", "udp", "UDP"]);
      assert Accepts(net, 3, tokens[3]) <==> Numeric(tokens[3]);
      assert Accepts(net, 5, tokens[5]) <==> Numeric(tokens[5]);
      assert Accepts(net, 4, tokens[4]) <==>
               |tokens[4]| <= 39 && (net.v4(tokens[4]).Some? || net.v6(tokens[4]).Some?);
      assert Accepts(net, 6, tokens[6]) <==> tokens[6] == "typ";
      assert Accepts(net, 7, tokens[7]) <==> Starts(tokens[7], ["host", "srflx", "prflx", "relay"]);
    }
  }

  /** Which protocol a word that starts one stands for; the empty word stands for TCP. */
  lemma ProtocolStarts(word: string)
    ensures ProtocolOf(word).Some? <==> Starts(word, ["tcp", "TCP", "udp", "UDP"])
    ensures ProtocolOf(word) == Some(Udp) <==> word != "" && Starts(word, ["udp", "UDP"])
  {
    assert ["tcp", "TCP", "udp", "UDP"][0] == "tcp" && ["tcp", "TCP", "udp", "UDP"][1] == "TCP";
    assert ["tcp", "TCP", "udp", "UDP"][2] == "udp" && ["tcp", "TCP", "udp", "UDP"][3] == "UDP";
    assert ["udp", "UDP"][0] == "udp" && ["udp", "UDP"][1] == "UDP";
    assert "udp"[0] == 'u' && "UDP"[0] == 'U' && "tcp"[0] == 't' && "TCP"[0] == 'T';
  }

  /** Which type a word that starts one stands for; the empty word stands for a host. */
  lemma KindStarts(word: string)
    ensures KindOf(word).Some? <==> Starts(word, ["host", "srflx", "prflx", "relay"])
    ensures KindOf(word).Some? ==>
              KindOf(word).value == if word == "" || word[0] == 'h' then Host
                                    else if word[0] == 's' then Srflx
                                    else if word[0] == 'p' then Prflx else Relay
  {
    var names := ["host", "srflx", "prflx", "relay"];
    assert names[0] == "host" && names[1] == "srflx" && names[2] == "prflx" && names[3] == "relay";
    assert "srflx"[0] == 's' && "prflx"[0] == 'p' && "relay"[0] == 'r' && "host"[0] == 'h';
  }

  function LineLength(words: seq<string>): nat {
    if words == [] then 0 else |words[0]| + 1 + LineLength(words[1..])
  }

  lemma {:induction false} LineLengthAdds(words: seq<string>, more: string)
    ensures |Line(words, more)| == LineLength(words) + |more|
  {
    if words != [] {
      LineLengthAdds(words[1..], more);
    }
  }

  lemma LineLengthFirst(word: string, words: seq<string>)
    ensures LineLength([word] + words) == |word| + 1 + LineLength(words)
  {
  }

  lemma FourLength(a: string, b: string, c: string, d: string, words: seq<string>)
    ensures LineLength([a, b, c, d] + words) == |a| + |b| + |c| + |d| + 4 + LineLength(words)
  {
    LineLengthFirst(d, words);
    LineLengthFirst(c, [d] + words);
    LineLengthFirst(b, [c] + ([d] + words));
    LineLengthFirst(a, [b] + ([c] + ([d] + words)));
    assert [a, b, c, d] + words == [a] + ([b] + ([c] + ([d] + words)));
  }

  lemma EightLength(a: string, b: string, c: string, d: string, e: string, f: string, g: string, h: string)
    ensures LineLength([a, b, c, d, e, f, g, h]) == |a| + |b| + |c| + |d| + |e| + |f| + |g| + |h| + 8
  {
    FourLength(e, f, g, h, []);
    FourLength(a, b, c, d, [e, f, g, h] + []);
    assert [a, b, c, d, e, f, g, h] == [a, b, c, d] + ([e, f, g, h] + []);
  }

  /** The line and its terminating NUL fit in the buffer. */
  lemma PrintedFits(index: nat, priority: nat, address: Address, port: nat, kind: CandidateType)
    requires Complete(address) && index < 0x1_0000_0000_0000_0000 && priority < TWO_32 && port < 0x1_0000
    ensures |Printed(index, priority, address, port, kind)| < BUFFER_SIZE
  {
    LineLengthAdds(Words(index, priority, address, port, kind), Rest(address));
    EightLength("candidate:" + Decimal(index), "1", "udp", Decimal(priority), AddressText(address), Decimal(port),
                "typ", TypeText(kind));
    NumberLengths(index, priority, port);
    AddressPlain(address);
    TypeRoundTrip(kind);
  }

  lemma NumberLengths(index: nat, priority: nat, port: nat)
    requires index < 0x1_0000_0000_0000_0000 && priority < TWO_32 && port < 0x1_0000
    ensures |Decimal(index)| <= 20 && |Decimal(priority)| <= 10 && |Decimal(port)| <= 5
  {
    assert Power10(5) == 100_000;
    assert Power10(10) == 10_000_000_000;
    assert Power10(20) == 100_000_000_000_000_000_000;
    DecimalLength(index, 20);
    DecimalLength(priority, 10);
    DecimalLength(port, 5);
  }

  // ------------------------------------------------------------------ the contract of inet_pton can be met

  lemma SameNumber(n: nat, x: string, m: nat, y: string)
    requires Decimal(n) + "." + x == Decimal(m) + "." + y
    ensures n == m && x == y
  {
    var s := Decimal(n) + "." + x;
    DecimalPlain(n, '.');
    DecimalPlain(m, '.');
    assert s[..|Decimal(n)|] == Decimal(n) && s[|Decimal(n)| + 1..] == x;
    assert s[..|Decimal(m)|] == Decimal(m) && s[|Decimal(m)| + 1..] == y;
    FindUnique('.', s, |Decimal(n)|);
    FindUnique('.', s, |Decimal(m)|);
    DecimalValue(n);
    DecimalValue(m);
  }

  function Nested(p: nat, q: nat, r: nat, t: nat): string {
    Decimal(p) + "." + (Decimal(q) + "." + (Decimal(r) + "." + Decimal(t)))
  }

  lemma NestedInjective(p: nat, q: nat, r: nat, t: nat, p': nat, q': nat, r': nat, t': nat)
    requires Nested(p, q, r, t) == Nested(p', q', r', t')
    ensures p == p' && q == q' && r == r' && t == t'
  {
    var c, c' := Decimal(r) + "." + Decimal(t), Decimal(r') + "." + Decimal(t');
    SameNumber(p, Decimal(q) + "." + c, p', Decimal(q') + "." + c');
    SameNumber(q, c, q', c');
    SameNumber(r, Decimal(t), r', Decimal(t'));
    DecimalValue(t);
    DecimalValue(t');
  }

  lemma DottedNested(o: seq<Octet>)
    requires |o| == 4
    ensures Dotted(o) == Nested(o[0], o[1], o[2], o[3])
  {
  }

  lemma DottedInjective(a: seq<Octet>, b: seq<Octet>)
    requires |a| == |b| == 4 && Dotted(a) == Dotted(b)
    ensures a == b
  {
    DottedNested(a);
    DottedNested(b);
    NestedInjective(a[0], a[1], a[2], a[3], b[0], b[1], b[2], b[3]);
  }

  lemma PairInjective(a: Octet, b: Octet, c: Octet, d: Octet)
    requires Pair(a, b) == Pair(c, d)
    ensures a == c && b == d
  {
    assert Pair(a, b)[0] == Pair(c, d)[0] && Pair(a, b)[1] == Pair(c, d)[1];
    assert Pair(a, b)[2] == Pair(c, d)[2] && Pair(a, b)[3] == Pair(c, d)[3];
  }

  lemma {:induction false} GroupsInjective(a: seq<Octet>, b: seq<Octet>)
    requires |a| == |b| >= 2 && |a| % 2 == 0 && Groups(a) == Groups(b)
    ensures a == b
  {
    assert Groups(a)[..4] == Pair(a[0], a[1]) && Groups(b)[..4] == Pair(b[0], b[1]);
    PairInjective(a[0], a[1], b[0], b[1]);
    if |a| > 2 {
      assert Groups(a)[5..] == Groups(a[2..]) && Groups(b)[5..] == Groups(b[2..]);
      GroupsInjective(a[2..], b[2..]);
    }
  }

  lemma DottedPlain(o: seq<Octet>)
    requires |o| == 4
    ensures ':' !in Dotted(o)
  {
    DecimalPlain(o[0], ':');
    DecimalPlain(o[1], ':');
    DecimalPlain(o[2], ':');
    DecimalPlain(o[3], ':');
  }

  ghost function ReadDotted(s: string): Option<seq<Octet>> {
    if exists o: seq<Octet> :: |o| == 4 && Dotted(o) == s
    then var o: seq<Octet> :| |o| == 4 && Dotted(o) == s; Some(o) else None
  }

  ghost function ReadGroups(s: string): Option<seq<Octet>> {
    if exists o: seq<Octet> :: |o| == 16 && Groups(o) == s
    then var o: seq<Octet> :| |o| == 16 && Groups(o) == s; Some(o) else None
  }

  /** A network that reads exactly the printed forms is lawful. */
  lemma LawfulNetwork() returns (net: Network)
    ensures net.Lawful()
  {
    net := Network(s => ReadDotted(s), s => ReadGroups(s));
    forall o: seq<Octet> | |o| == 4 ensures net.v4(Dotted(o)) == Some(o) {
      var read := ReadDotted(Dotted(o)).value;
      DottedInjective(read, o);
    }
    forall o: seq<Octet> | |o| == 16 ensures net.v6(Groups(o)) == Some(o) {
      var read := ReadGroups(Groups(o)).value;
      GroupsInjective(read, o);
    }
    forall s: string | ':' in s ensures net.v4(s) == None {
      if ReadDotted(s).Some? {
        DottedPlain(ReadDotted(s).value);
      }
    }
  }
}
