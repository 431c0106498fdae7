/** Reading a forwarding chain from its trusted end. */
module RemoteIp {

  import opened Prelude
  import opened Text
  import opened Address

  type Ip = a: IpAddr | a.Valid() witness V4([0, 0, 0, 0])
  type Ipv4 = a: IpAddr | a.Valid() && a.V4? witness V4([0, 0, 0, 0])
  type Ipv6 = a: IpAddr | a.Valid() && a.V6? witness V6(seq(16, i => 0))
  type Range = c: Cidr | c.Valid() witness Cidr(V4([0, 0, 0, 0]), 0)

  /** The standard library's address parsers. */
  datatype Parsers = Parsers(v4: string -> Option<Ipv4>, v6: string -> Option<Ipv6>)
  {
    function Any(text: string): Option<Ip> {
      match v4(text)
      case Some(a) => Some(a)
      case None =>
        match v6(text)
        case Some(a) => Some(a)
        case None => None
    }
  }

  /** `split_once`, the part before the separator. */
  function Before(s: string, sep: char): Option<string> {
    match IndexOf(s, sep)
    case Some(i) => Some(s[..i])
    case None => None
  }

  function ParseEntry(p: Parsers, entry: string): Option<Ip> {
    match p.Any(entry)
    case Some(a) => Some(Normalize(a))
    case None =>
      if entry != "" && entry[0] == '[' && ']' in entry[1..] then
        match p.v6(Before(entry[1..], ']').value)
        case Some(a) => Some(Normalize(a))
        case None => None
      else if multiset(entry)[':'] == 1 then
        match p.v4(Before(entry, ':').value)
        case Some(a) => Some(a)
        case None => None
      else None
  }

  lemma BeforeFirst(a: string, sep: char, b: string)
    requires sep !in a
    ensures Before(a + [sep] + b, sep) == Some(a)
  {
    var s := a + [sep] + b;
    assert s[|a|] == sep && forall i :: 0 <= i < |a| ==> s[i] == a[i];
    assert IndexOf(s, sep) == Some(|a|) && s[..|a|] == a;
  }

  /** `v4:port` and `[v6]port`, which are no addresses themselves, are read as the address they carry. */
  lemma PortsAreIgnored(p: Parsers, v4: string, v6: string, port: string)
    requires p.v4(v4).Some? && ':' !in v4 && v4 != "" && v4[0] != '[' && ':' !in port
    requires p.v6(v6).Some? && ']' !in v6
    requires p.Any(v4 + [':'] + port).None? && p.Any(['['] + (v6 + [']'] + port)).None?
    ensures ParseEntry(p, v4 + [':'] + port) == Some(p.v4(v4).value)
    ensures ParseEntry(p, ['['] + (v6 + [']'] + port)) == Some(Normalize(p.v6(v6).value))
  {
    BeforeFirst(v4, ':', port);
    assert multiset(v4 + [':'] + port)[':'] == 1;
    BeforeFirst(v6, ']', port);
    var inner := v6 + [']'] + port;
    assert (['['] + inner)[1..] == inner && inner[|v6|] == ']';
  }

  /** One hop of a forwarding chain; `None` is an entry that cannot be read. */
  type Hop = Option<Ip>

  function Entries(p: Parsers, parts: seq<string>): (hops: seq<Hop>)
    ensures |hops| == |parts|
    ensures forall i :: 0 <= i < |parts| ==> hops[i] == Entry(p, parts[i])
  {
    seq(|parts|, i requires 0 <= i < |parts| => Entry(p, parts[i]))
  }

  function Entry(p: Parsers, part: string): Hop {
    ParseEntry(p, Trim(part))
  }

  function FlatMap<A, B>(f: A -> seq<B>, items: seq<A>): seq<B> {
    if items == [] then [] else f(items[0]) + FlatMap(f, items[1..])
  }

  /** The chain the header values carry, left to right. */
  function Hops(p: Parsers, forwarded: seq<string>): seq<Hop> {
    FlatMap((value: string) => Entries(p, Split(value, ',')), forwarded)
  }

  predicate IsTrusted(trusted: seq<Range>, a: Ip) {
    exists i :: 0 <= i < |trusted| && trusted[i].Contains(a)
  }

  predicate IsInfrastructure(trusted: seq<Range>, hop: Hop) {
    hop.Some? && IsTrusted(trusted, hop.value)
  }

  /** `rposition`: the last hop that is not infrastructure. */
  function LastStranger(trusted: seq<Range>, chain: seq<Hop>): (at: Option<nat>)
    ensures at.Some? ==> at.value < |chain|
  {
    if chain == [] then None
    else if !IsInfrastructure(trusted, chain[|chain| - 1]) then Some(|chain| - 1)
    else LastStranger(trusted, chain[..|chain| - 1])
  }

  function Walk(trusted: seq<Range>, chain: seq<Hop>): Hop
    requires chain != []
  {
    match LastStranger(trusted, chain)
    case Some(i) => chain[i]
    case None => chain[0]
  }

  function Resolve(p: Parsers, trusted: seq<Range>, peer: Option<Ip>, forwarded: seq<string>,
                   realIp: Option<string>): Hop {
    if trusted == [] then peer
    else
      match peer
      case None => None
      case Some(a) =>
        var chain := Hops(p, forwarded);
        var claimed := if realIp.Some? then Entry(p, realIp.value) else None;
        if chain == [] && claimed.Some? && IsTrusted(trusted, a) then claimed
        else Walk(trusted, chain + [peer])
  }

  // ---------------------------------------------------------------------------
  // Headers as chains
  // ---------------------------------------------------------------------------

  lemma EntriesConcat(p: Parsers, a: seq<string>, b: seq<string>)
    ensures Entries(p, a + b) == Entries(p, a) + Entries(p, b)
  {
  }

  lemma Associative<T>(x: seq<T>, y: seq<T>, z: seq<T>)
    ensures x + (y + z) == x + y + z
  {
  }

  lemma {:induction false} FlatMapConcat<A, B>(f: A -> seq<B>, a: seq<A>, b: seq<A>)
    ensures FlatMap(f, a + b) == FlatMap(f, a) + FlatMap(f, b)
  {
    if a == [] {
      assert a + b == b;
    } else {
      FlatMapConcat(f, a[1..], b);
      assert (a + b)[1..] == a[1..] + b;
    }
  }

  lemma HopsConcat(p: Parsers, a: seq<string>, b: seq<string>)
    ensures Hops(p, a + b) == Hops(p, a) + Hops(p, b)
  {
    FlatMapConcat((value: string) => Entries(p, Split(value, ',')), a, b);
  }

  lemma HopsOfOne(p: Parsers, value: string)
    ensures Hops(p, [value]) == Entries(p, Split(value, ','))
  {
    assert [value][1..] == [];
    assert Hops(p, []) == [];
  }

  lemma CommaIsASplit(p: Parsers, a: string, b: string)
    ensures Hops(p, [a + [','] + b]) == Hops(p, [a]) + Hops(p, [b])
  {
    HopsOfOne(p, a);
    HopsOfOne(p, b);
    HopsOfOne(p, a + [','] + b);
    SplitAtSep(a, b, ',');
    EntriesConcat(p, Split(a, ','), Split(b, ','));
  }

  /** A header value split at a comma into two carries the same chain. */
  lemma SplitHeaderKeepsChain(p: Parsers, before: seq<string>, a: string, b: string, after: seq<string>)
    ensures Hops(p, before + [a + [','] + b] + after) == Hops(p, before + [a, b] + after)
  {
    HopsConcat(p, before + [a + [','] + b], after);
    HopsConcat(p, before, [a + [','] + b]);
    HopsConcat(p, before + [a, b], after);
    HopsConcat(p, before, [a, b]);
    HopsConcat(p, [a], [b]);
    assert [a] + [b] == [a, b];
    CommaIsASplit(p, a, b);
  }

  lemma SplitHeaderChangesNothing(p: Parsers, trusted: seq<Range>, peer: Option<Ip>, realIp: Option<string>,
                                  before: seq<string>, a: string, b: string, after: seq<string>)
    ensures Resolve(p, trusted, peer, before + [a + [','] + b] + after, realIp) ==
            Resolve(p, trusted, peer, before + [a, b] + after, realIp)
  {
    SplitHeaderKeepsChain(p, before, a, b, after);
  }

  // ---------------------------------------------------------------------------
  // Non-interference
  // ---------------------------------------------------------------------------

  ghost predicate AllInfrastructure(trusted: seq<Range>, chain: seq<Hop>) {
    forall i :: 0 <= i < |chain| ==> IsInfrastructure(trusted, chain[i])
  }

  lemma {:induction false} LastStrangerIs(trusted: seq<Range>, left: seq<Hop>, h: Hop, right: seq<Hop>)
    requires !IsInfrastructure(trusted, h) && AllInfrastructure(trusted, right)
    ensures LastStranger(trusted, left + [h] + right) == Some(|left|)
    decreases |right|
  {
    var chain := left + [h] + right;
    if right != [] {
      var n := |right| - 1;
      assert chain[|chain| - 1] == right[n];
      assert chain[..|chain| - 1] == left + [h] + right[..n];
      LastStrangerIs(trusted, left, h, right[..n]);
    }
  }

  lemma {:induction false} NoStranger(trusted: seq<Range>, chain: seq<Hop>)
    ensures LastStranger(trusted, chain).None? <==> AllInfrastructure(trusted, chain)
  {
    if chain != [] {
      var n := |chain| - 1;
      NoStranger(trusted, chain[..n]);
      assert forall i :: 0 <= i < n ==> chain[..n][i] == chain[i];
    }
  }

  /** The rightmost hop that is untrusted or unreadable is the answer, whatever stands to its left. */
  lemma NearestStrangerAnswers(p: Parsers, trusted: seq<Range>, peer: Ip, forwarded: seq<string>,
                               realIp: Option<string>, left: seq<Hop>, h: Hop, right: seq<Hop>)
    requires trusted != []
    requires Hops(p, forwarded) + [Some(peer)] == left + [h] + right
    requires !IsInfrastructure(trusted, h) && AllInfrastructure(trusted, right)
    ensures Resolve(p, trusted, Some(peer), forwarded, realIp) == h
  {
    LastStrangerIs(trusted, left, h, right);
    if Hops(p, forwarded) == [] {
      assert |left + [h] + right| == 1;
      assert (left + [h] + right)[0] == h;
    }
  }

  /** An untrusted peer cannot be argued out of its own address. */
  lemma UntrustedPeerAnswers(p: Parsers, trusted: seq<Range>, peer: Ip, forwarded: seq<string>, realIp: Option<string>)
    requires trusted != [] ==> !IsTrusted(trusted, peer)
    ensures Resolve(p, trusted, Some(peer), forwarded, realIp) == Some(peer)
  {
    if trusted != [] {
      var chain := Hops(p, forwarded);
      assert chain + [Some(peer)] == chain + [Some(peer)] + [];
      NearestStrangerAnswers(p, trusted, peer, forwarded, realIp, chain, Some(peer), []);
    }
  }

  /** Every hop trusted: the outermost recorded hop, or the one hop `X-Real-IP` names, or the peer. */
  lemma AllTrustedAnswersOutermost(p: Parsers, trusted: seq<Range>, peer: Ip, forwarded: seq<string>,
                                   realIp: Option<string>)
    requires trusted != [] && AllInfrastructure(trusted, Hops(p, forwarded) + [Some(peer)])
    ensures var claimed := if realIp.Some? then Entry(p, realIp.value) else None;
            Resolve(p, trusted, Some(peer), forwarded, realIp) ==
            if Hops(p, forwarded) != [] then Hops(p, forwarded)[0] else if claimed.Some? then claimed else Some(peer)
  {
    var chain := Hops(p, forwarded);
    NoStranger(trusted, chain + [Some(peer)]);
    assert (chain + [Some(peer)])[|chain|] == Some(peer);
  }

  // ---------------------------------------------------------------------------
  // A request that really passed through the trusted proxies
  // ---------------------------------------------------------------------------

  /** One proxy on the way: its own address, the text it appends, and whether it starts a new header value. */
  datatype Relay = Relay(address: Ip, text: string, newHeader: bool)

  /** A proxy adds what it saw as its peer to the end of the chain. */
  function Appended(forwarded: seq<string>, relay: Relay): seq<string> {
    if relay.newHeader || forwarded == [] then forwarded + [relay.text]
    else forwarded[..|forwarded| - 1] + [forwarded[|forwarded| - 1] + [','] + relay.text]
  }

  function Headers(written: seq<string>, route: seq<Relay>): seq<string> {
    if route == [] then written
    else Appended(Headers(written, route[..|route| - 1]), route[|route| - 1])
  }

  /** The peer of the last machine on the route. */
  function PeerOf(client: Ip, route: seq<Relay>): Ip {
    if route == [] then client else route[|route| - 1].address
  }

  /** Every proxy is trusted and writes down the address that connected to it. */
  ghost predicate HonestRoute(p: Parsers, trusted: seq<Range>, client: Ip, route: seq<Relay>) {
    forall i :: 0 <= i < |route| ==>
      && IsTrusted(trusted, route[i].address)
      && ',' !in route[i].text
      && Entry(p, route[i].text) == Some(Normalize(PeerOf(client, route[..i])))
  }

  lemma OneEntry(p: Parsers, text: string)
    requires ',' !in text
    ensures Hops(p, [text]) == [Entry(p, text)]
  {
    SplitFree(text, ',');
    HopsOfOne(p, text);
    assert [text][1..] == [];
  }

  lemma AppendedAddsOneHop(p: Parsers, forwarded: seq<string>, relay: Relay)
    requires ',' !in relay.text
    ensures Hops(p, Appended(forwarded, relay)) == Hops(p, forwarded) + [Entry(p, relay.text)]
  {
    OneEntry(p, relay.text);
    if relay.newHeader || forwarded == [] {
      HopsConcat(p, forwarded, [relay.text]);
    } else {
      var n := |forwarded| - 1;
      assert forwarded == forwarded[..n] + [forwarded[n]];
      HopsConcat(p, forwarded[..n], [forwarded[n]]);
      HopsConcat(p, forwarded[..n], [forwarded[n] + [','] + relay.text]);
      CommaIsASplit(p, forwarded[n], relay.text);
    }
  }

  lemma NormalizedIsAsTrusted(trusted: seq<Range>, a: Ip)
    ensures IsTrusted(trusted, Normalize(a)) <==> IsTrusted(trusted, a)
  {
    assert Normalize(Normalize(a)) == Normalize(a);
    forall i | 0 <= i < |trusted|
      ensures trusted[i].Contains(Normalize(a)) == trusted[i].Contains(a)
    {
    }
  }

  lemma HonestPrefix(p: Parsers, trusted: seq<Range>, client: Ip, route: seq<Relay>, n: nat)
    requires HonestRoute(p, trusted, client, route) && n <= |route|
    ensures HonestRoute(p, trusted, client, route[..n])
  {
    forall i | 0 <= i < n
      ensures route[..n][i] == route[i] && route[..n][..i] == route[..i]
    {
    }
  }

  /** After an honest route the chain reads: whatever the client wrote, the client, then proxies. */
  lemma {:induction false} RouteChain(p: Parsers, trusted: seq<Range>, client: Ip, written: seq<string>,
                                      route: seq<Relay>)
    returns (right: seq<Hop>)
    requires HonestRoute(p, trusted, client, route) && route != []
    ensures AllInfrastructure(trusted, right)
    ensures Hops(p, Headers(written, route)) == Hops(p, written) + [Some(Normalize(client))] + right
    decreases |route|
  {
    var n := |route| - 1;
    var shorter := route[..n];
    HonestPrefix(p, trusted, client, route, n);
    AppendedAddsOneHop(p, Headers(written, shorter), route[n]);
    if n == 0 {
      right := [];
      assert Headers(written, shorter) == written;
    } else {
      var before := RouteChain(p, trusted, client, written, shorter);
      var previous := Normalize(PeerOf(client, shorter));
      NormalizedIsAsTrusted(trusted, PeerOf(client, shorter));
      Associative(Hops(p, written) + [Some(Normalize(client))], before, [Some(previous)]);
      right := before + [Some(previous)];
    }
  }

  /** A client's own headers never move it: behind trusted proxies it resolves to where it connected from. */
  lemma ForgedHeadersChangeNothing(p: Parsers, trusted: seq<Range>, client: Ip, written: seq<string>,
                                   realIp: Option<string>, route: seq<Relay>)
    requires trusted != [] && !IsTrusted(trusted, client)
    requires HonestRoute(p, trusted, client, route)
    ensures Resolve(p, trusted, Some(PeerOf(client, route)), Headers(written, route), realIp) ==
            Some(if route == [] then client else Normalize(client))
  {
    if route == [] {
      UntrustedPeerAnswers(p, trusted, client, written, realIp);
    } else {
      var right := RouteChain(p, trusted, client, written, route);
      NormalizedIsAsTrusted(trusted, client);
      var last := Some(PeerOf(client, route));
      assert Hops(p, written) + [Some(Normalize(client))] + right + [last] ==
             Hops(p, written) + [Some(Normalize(client))] + (right + [last]);
      NearestStrangerAnswers(p, trusted, last.value, Headers(written, route), realIp,
                             Hops(p, written), Some(Normalize(client)), right + [last]);
    }
  }

  // ---------------------------------------------------------------------------
  // From the text of the headers
  // ---------------------------------------------------------------------------

  /** The address itself, or the IPv4 address it carries. */
  ghost predicate IsPlainFormOf(n: IpAddr, a: Ip) {
    if a.V6? && CarriesV4(a, a.octets[12..]) then n == V4(a.octets[12..]) else n == a
  }

  /** Some trusted range has the address. */
  ghost predicate Trusts(trusted: seq<Range>, a: Ip) {
    exists i :: 0 <= i < |trusted| && Holds(trusted[i], a)
  }

  lemma TrustedIff(trusted: seq<Range>, a: Ip)
    ensures IsTrusted(trusted, a) <==> Trusts(trusted, a)
  {
    forall i | 0 <= i < |trusted| ensures trusted[i].Contains(a) <==> Holds(trusted[i], a) {
      RangeHoldsIff(trusted[i], a);
    }
  }

  /** The text is an IPv4 address, or else an IPv6 address. */
  ghost predicate ParsesAs(p: Parsers, text: string, a: Ip) {
    p.v4(text) == Some(a) || (p.v4(text).None? && p.v6(text) == Some(a))
  }

  /** The texts of a header value read as these addresses, whatever whitespace stands around them. */
  ghost predicate Reads(p: Parsers, entries: seq<Spaced>, addresses: seq<Ip>) {
    && |entries| == |addresses|
    && forall i :: 0 <= i < |entries| ==>
         entries[i].Valid() && ',' !in entries[i].text && ParsesAs(p, entries[i].text, addresses[i])
  }

  function Texts(entries: seq<Spaced>): (texts: seq<string>)
    ensures |texts| == |entries|
    ensures forall i :: 0 <= i < |entries| ==> texts[i] == entries[i].Written()
  {
    seq(|entries|, i requires 0 <= i < |entries| => entries[i].Written())
  }

  lemma EntryReads(p: Parsers, e: Spaced, a: Ip)
    requires e.Valid() && ParsesAs(p, e.text, a)
    ensures Entry(p, e.Written()).Some? && IsPlainFormOf(Entry(p, e.Written()).value, a)
    ensures Entry(p, e.Written()) == Some(Normalize(a))
  {
    TrimOfSpaced(e);
    if a.V6? {
      MappedIff(a);
    }
  }

  lemma HeaderReads(p: Parsers, entries: seq<Spaced>, addresses: seq<Ip>)
    requires Reads(p, entries, addresses) && entries != []
    ensures var chain := Hops(p, [Join(Texts(entries), ',')]);
            |chain| == |addresses| && forall i :: 0 <= i < |chain| ==> chain[i] == Some(Normalize(addresses[i]))
  {
    forall i | 0 <= i < |entries| ensures ',' !in Texts(entries)[i]
      && Entry(p, Texts(entries)[i]) == Some(Normalize(addresses[i])) {
      EntryReads(p, entries[i], addresses[i]);
      assert !IsWhitespace(',');
    }
    SplitJoin(Texts(entries), ',');
    HopsOfOne(p, Join(Texts(entries), ','));
  }

  lemma TrustOfHeader(p: Parsers, trusted: seq<Range>, chain: seq<Hop>, addresses: seq<Ip>, i: nat)
    requires |chain| == |addresses| && i < |chain| && chain[i] == Some(Normalize(addresses[i]))
    ensures IsInfrastructure(trusted, chain[i]) <==> Trusts(trusted, addresses[i])
  {
    TrustedIff(trusted, addresses[i]);
    NormalizedIsAsTrusted(trusted, addresses[i]);
  }

  lemma SplitAround<T>(chain: seq<T>, last: T, j: nat)
    requires j < |chain|
    ensures chain + [last] == chain[..j] + [chain[j]] + (chain[j + 1..] + [last])
  {
  }

  lemma RightIsInfrastructure(trusted: seq<Range>, chain: seq<Hop>, peer: Ip, j: nat)
    requires j < |chain| && IsTrusted(trusted, peer)
    requires forall i :: j < i < |chain| ==> IsInfrastructure(trusted, chain[i])
    ensures AllInfrastructure(trusted, chain[j + 1..] + [Some(peer)])
  {
  }

  /** With everything to its right trusted, the stranger at `j` answers for a trusted peer. */
  lemma ChainAnswers(p: Parsers, trusted: seq<Range>, peer: Ip, forwarded: seq<string>, realIp: Option<string>, j: nat)
    requires IsTrusted(trusted, peer) && j < |Hops(p, forwarded)| && !IsInfrastructure(trusted, Hops(p, forwarded)[j])
    requires forall i :: j < i < |Hops(p, forwarded)| ==> IsInfrastructure(trusted, Hops(p, forwarded)[i])
    ensures Resolve(p, trusted, Some(peer), forwarded, realIp) == Hops(p, forwarded)[j]
  {
    var chain := Hops(p, forwarded);
    var right := chain[j + 1..] + [Some(peer)];
    SplitAround(chain, Some(peer), j);
    RightIsInfrastructure(trusted, chain, peer, j);
    NearestStrangerAnswers(p, trusted, peer, forwarded, realIp, chain[..j], chain[j], right);
  }

  /**
   * Behind a trusted peer, a header of readable addresses gives the rightmost one outside every trusted range, in its
   * plain form.
   */
  lemma HeaderNamesTheClient(p: Parsers, trusted: seq<Range>, peer: Ip, realIp: Option<string>, entries: seq<Spaced>,
                             addresses: seq<Ip>, j: nat)
    requires Reads(p, entries, addresses) && j < |addresses| && Trusts(trusted, peer)
    requires !Trusts(trusted, addresses[j]) && forall i :: j < i < |addresses| ==> Trusts(trusted, addresses[i])
    ensures var answer := Resolve(p, trusted, Some(peer), [Join(Texts(entries), ',')], realIp);
            answer.Some? && IsPlainFormOf(answer.value, addresses[j])
  {
    HeaderReads(p, entries, addresses);
    var forwarded := [Join(Texts(entries), ',')];
    var chain := Hops(p, forwarded);
    forall i | j <= i < |chain| ensures IsInfrastructure(trusted, chain[i]) <==> Trusts(trusted, addresses[i]) {
      TrustOfHeader(p, trusted, chain, addresses, i);
    }
    TrustedIff(trusted, peer);
    ChainAnswers(p, trusted, peer, forwarded, realIp, j);
    EntryReads(p, entries[j], addresses[j]);
  }

  /** Without that header a trusted peer may name its client in `X-Real-IP`; a stranger may not. */
  lemma RealIpNamesTheClient(p: Parsers, trusted: seq<Range>, peer: Ip, e: Spaced, a: Ip)
    requires trusted != [] && e.Valid() && ParsesAs(p, e.text, a)
    ensures var answer := Resolve(p, trusted, Some(peer), [], Some(e.Written()));
            answer.Some? && if Trusts(trusted, peer) then IsPlainFormOf(answer.value, a) else answer.value == peer
  {
    TrustedIff(trusted, peer);
    EntryReads(p, e, a);
    assert Hops(p, []) == [];
    if !Trusts(trusted, peer) {
      UntrustedPeerAnswers(p, trusted, peer, [], Some(e.Written()));
    }
  }

  /** A peer outside every trusted range is the answer; with no trusted range or no peer the headers are not read. */
  lemma HeadersOfStrangersAreIgnored(p: Parsers, trusted: seq<Range>, peer: Option<Ip>, forwarded: seq<string>,
                                     realIp: Option<string>)
    requires peer.Some? ==> !Trusts(trusted, peer.value)
    ensures Resolve(p, trusted, peer, forwarded, realIp) == peer
  {
    if peer.Some? {
      TrustedIff(trusted, peer.value);
      UntrustedPeerAnswers(p, trusted, peer.value, forwarded, realIp);
    }
  }
}
