/**
 Forwarding one request: which header fields are stripped, which are added,
 when the request is refused, and what the client is answered.
 */
module Forward {
  import opened Basics
  import opened Text
  import opened HeaderMaps
  import opened Numbers
  import WebSocket

  const HOP_BY_HOP_HEADERS: set<Name> :=
    {Connection, KeepAlive, ProxyConnection, TransferEncoding, Te, Trailer, Upgrade}

  /** The textual form of an address: digits, hexadecimal letters, dots and colons. */
  predicate AddressText(s: string) {
    s != "" && forall i | 0 <= i < |s| :: '0' <= s[i] <= '9' || 'a' <= s[i] <= 'f' || s[i] == '.' || s[i] == ':'
  }

  type Address = s: string | AddressText(s) witness "0.0.0.0"

  datatype Peer = V4(ip: Address) | V6(ip: Address)

  datatype Version = Http09 | Http10 | Http11 | Http2 | Http3

  datatype Policy = Policy(
    preserveHost: bool,            // HostBehaviour::Preserve
    appendForwarded: bool,         // XForwardedFor::Append
    publicScheme: Option<string>,
    maxRequestBody: Option<nat>,
    via: Option<string>)

  /** What one proxy knows about a request besides its header fields. */
  datatype Hop = Hop(
    policy: Policy,
    version: Version,
    peer: Option<Peer>,            // the connecting client, when known
    authority: Option<string>,     // the authority of the request URI
    upstream: Option<string>)      // the authority of the upstream URI

  // ----- stripping

  predicate KeepsTe(h: Fields) {
    match FirstText(h, Te)
    case Some(v) => EqIgnoreCase(Trim(v), "trailers")
    case None => false
  }

  predicate Names(elements: seq<string>, n: Name) {
    exists e | e in elements :: ParseName(Trim(e)) == Some(n)
  }

  /** The `Connection` header nominates `n`. */
  predicate Nominated(h: Fields, n: Name) {
    Names(Elements(Values(h, Connection)), n)
  }

  predicate Stripped(h: Fields, n: Name) {
    (n in HOP_BY_HOP_HEADERS && !(n == Te && KeepsTe(h))) || Nominated(h, n)
  }

  function Unstripped(h: Fields): Fields {
    map n | n in h && !Stripped(h, n) :: h[n]
  }

  // ----- building the upstream header map

  function Kept(client: Fields, policy: Policy): Fields {
    map n | n in client && !(n == Host && !policy.preserveHost) && !Stripped(client, n) :: client[n]
  }

  function ClientHost(client: Fields, authority: Option<string>): Option<string> {
    match FirstText(client, Host)
    case Some(host) => Some(host)
    case None => authority
  }

  function ForValue(peer: Peer): string {
    match peer
    case V4(ip) => "for=" + ip
    case V6(ip) => "for=\"[" + ip + "]\""
  }

  /** The RFC 7239 element a proxy adds; `first` says that the chain is empty so far. */
  function ForwardedElement(first: bool, peer: Peer, host: Option<string>, scheme: Option<string>): string {
    ForValue(peer)
    + (if first && host.Some? then ";host=\"" + host.value + "\"" else "")
    + (if first && scheme.Some? then ";proto=" + scheme.value else "")
  }

  function WithForwarded(h: Fields, peer: Peer, host: Option<string>, scheme: Option<string>): Fields {
    LineAdded(h, Forwarded, ForwardedElement(Lines(Values(h, Forwarded)) == [], peer, host, scheme))
  }

  /** Give `n` the value unless it has one already. */
  function WithDefault(h: Fields, n: Name, v: Option<string>): Fields {
    if !Has(h, n) && v.Some? then InsertedIfValid(h, n, v.value) else h
  }

  function Built(client: Fields, peer: Option<Peer>, authority: Option<string>, policy: Policy): Fields {
    var kept := Kept(client, policy);
    var h := if policy.preserveHost then WithDefault(kept, Host, authority) else kept;
    if !policy.appendForwarded then h
    else
      var host := ClientHost(client, authority);
      var h' := if peer.None? then h
                else WithForwarded(LineAdded(h, XForwardedFor, peer.value.ip), peer.value, host, policy.publicScheme);
      WithDefault(WithDefault(h', XForwardedHost, host), XForwardedProto, policy.publicScheme)
  }

  // ----- Via

  function ViaProtocol(version: Version): string {
    match version
    case Http09 => "0.9"
    case Http10 => "1.0"
    case Http11 => "1.1"
    case Http2 => "2.0"
    case Http3 => "3.0"
  }

  /** The element of a `Via` list is `<protocol> <pseudonym> [comment]` with this pseudonym. */
  predicate Carries(element: string, pseudonym: string) {
    |Words(element)| >= 2 && Words(element)[1] == pseudonym
  }

  predicate ViaContains(h: Fields, pseudonym: string) {
    exists e | e in Elements(Values(h, Via)) :: Carries(e, pseudonym)
  }

  function WithVia(h: Fields, version: Version, via: Option<string>): Fields {
    match via
    case None => h
    case Some(pseudonym) => LineAdded(h, Via, ViaProtocol(version) + " " + pseudonym)
  }

  // ----- one hop

  /** `str::parse::<u64>`. */
  function ParseU64(s: string): Option<nat> {
    var digits := if s != "" && s[0] == '+' then s[1..] else s;
    if Digits(digits) && DecimalValue(digits) < WORD then Some(DecimalValue(digits)) else None
  }

  predicate DeclaresMoreThan(h: Fields, max: nat) {
    match FirstText(h, ContentLength)
    case Some(v) => (match ParseU64(v) case Some(declared) => declared > max case None => false)
    case None => false
  }

  const NOT_IMPLEMENTED: nat := 501
  const LOOP_DETECTED: nat := 508
  const PAYLOAD_TOO_LARGE: nat := 413
  const BAD_GATEWAY: nat := 502
  const GATEWAY_TIMEOUT: nat := 504
  const SWITCHING_PROTOCOLS: nat := 101

  /** The status with which a request is refused before anything is sent. */
  function Refusal(client: Fields, connect: bool, policy: Policy): Option<nat> {
    if connect then Some(NOT_IMPLEMENTED)
    else if policy.via.Some? && ViaContains(client, policy.via.value) then Some(LOOP_DETECTED)
    else if policy.maxRequestBody.Some? && DeclaresMoreThan(client, policy.maxRequestBody.value)
    then Some(PAYLOAD_TOO_LARGE)
    else None
  }

  /** The header map sent upstream for a request that is not refused. */
  function Prepared(client: Fields, hop: Hop): Fields {
    var built := WithVia(Built(client, hop.peer, hop.authority, hop.policy), hop.version, hop.policy.via);
    var upgraded := if WebSocket.IsUpgrade(client) then WebSocket.WithUpgrade(built) else built;
    if !Has(upgraded, Host) && hop.upstream.Some? then Inserted(upgraded, Host, hop.upstream.value) else upgraded
  }

  datatype Verdict = Refused(status: nat) | Sent(headers: Fields)

  function Outgoing(client: Fields, connect: bool, hop: Hop): Verdict {
    match Refusal(client, connect, hop.policy)
    case Some(status) => Refused(status)
    case None => Sent(Prepared(client, hop))
  }

  // ----- answering the client

  datatype ProxyError = ProxyError(isConnect: bool)

  datatype Response = Response(status: nat, version: Version, headers: Fields, error: Option<ProxyError>)

  /** How sending a request ends: a response, a failure, or no response headers in time. */
  datatype Outcome = Answered(response: Response) | Failed(isConnect: bool) | TimedOut

  function Failure(status: nat, isConnect: bool): Response {
    Response(status, Http11, map[], Some(ProxyError(isConnect)))
  }

  /** The header map of an upstream response as the client gets it. */
  function ReturnedFields(response: Response, via: Option<string>): Fields {
    var h := Unstripped(response.headers);
    WithVia(if response.status == SWITCHING_PROTOCOLS then WebSocket.WithUpgrade(h) else h, response.version, via)
  }

  /** The answer to a request with these client header fields. */
  function Answer(client: Fields, policy: Policy, outcome: Outcome, derive: string -> string): Response {
    match outcome
    case TimedOut => Failure(GATEWAY_TIMEOUT, false)
    case Failed(isConnect) => Failure(BAD_GATEWAY, isConnect)
    case Answered(res) =>
      if res.status == SWITCHING_PROTOCOLS
         && !(WebSocket.IsUpgrade(client) && WebSocket.ValidResponse(res.headers, client, derive))
      then Failure(BAD_GATEWAY, false)
      else Response(res.status, res.version, ReturnedFields(res, policy.via), None)
  }

  // ----- the methods that do this in place

  lemma {:induction false} ElementsAppend(values: seq<string>, v: string)
    ensures Elements(values + [v]) == Elements(values) + (if Readable(v) then Split(v, ',') else [])
  {
    if values != [] {
      assert (values + [v])[1..] == values[1..] + [v];
      ElementsAppend(values[1..], v);
    }
  }

  /** `strip` and the names that the elements parse to. */
  function WithNames(strip: set<Name>, elements: seq<string>): set<Name> {
    if elements == [] then strip
    else
      var before := WithNames(strip, elements[..|elements| - 1]);
      match ParseName(Trim(elements[|elements| - 1]))
      case Some(name) => before + {name}
      case None => before
  }

  lemma {:induction false} WithNamesMember(strip: set<Name>, elements: seq<string>, n: Name)
    ensures n in WithNames(strip, elements) <==> n in strip || Names(elements, n)
  {
    if elements != [] {
      var front := elements[..|elements| - 1];
      WithNamesMember(strip, front, n);
      assert elements == front + [elements[|elements| - 1]];
    }
  }

  function StripSet(h: Fields): set<Name> {
    WithNames(if KeepsTe(h) then HOP_BY_HOP_HEADERS - {Te} else HOP_BY_HOP_HEADERS, Elements(Values(h, Connection)))
  }

  lemma StripSetExact(h: Fields)
    ensures forall n :: n in StripSet(h) <==> Stripped(h, n)
  {
    forall n ensures n in StripSet(h) <==> Stripped(h, n) {
      WithNamesMember(if KeepsTe(h) then HOP_BY_HOP_HEADERS - {Te} else HOP_BY_HOP_HEADERS,
                      Elements(Values(h, Connection)), n);
    }
  }

  /** The set of header names to strip. */
  method HopByHopHeaders(headers: HeaderMap) returns (strip: set<Name>)
    ensures strip == StripSet(headers.fields)
  {
    hide Readable, Split, KeepsTe;
    strip := HOP_BY_HOP_HEADERS;
    if KeepsTe(headers.fields) {
      strip := strip - {Te};
    }
    ghost var standard := strip;
    var values := Values(headers.fields, Connection);
    for i := 0 to |values|
      invariant strip == WithNames(standard, Elements(values[..i]))
    {
      ElementsAppend(values[..i], values[i]);
      assert values[..i + 1] == values[..i] + [values[i]];
      if Readable(values[i]) {
        strip := InsertNames(strip, Split(values[i], ','), standard, Elements(values[..i]));
      } else {
        assert Elements(values[..i + 1]) == Elements(values[..i]);
      }
    }
    assert values[..|values|] == values;
  }

  /** The inner loop of `HopByHopHeaders`. */
  method InsertNames(strip: set<Name>, parts: seq<string>, ghost standard: set<Name>, ghost before: seq<string>)
    returns (strip': set<Name>)
    requires strip == WithNames(standard, before)
    ensures strip' == WithNames(standard, before + parts)
  {
    strip' := strip;
    assert before + parts[..0] == before;
    for j := 0 to |parts|
      invariant strip' == WithNames(standard, before + parts[..j])
    {
      assert (before + parts[..j + 1])[..|before| + j] == before + parts[..j];
      var name := ParseName(Trim(parts[j]));
      if name.Some? {
        strip' := strip' + {name.value};
      }
    }
    assert parts[..|parts|] == parts;
  }

  method StripHopByHopResponseHeaders(headers: HeaderMap)
    requires headers.Valid()
    modifies headers
    ensures headers.Valid()
    ensures headers.fields == Unstripped(old(headers.fields))
  {
    var left := HopByHopHeaders(headers);
    StripSetExact(headers.fields);
    ghost var strip := left;
    while left != {}
      invariant headers.Valid() && left <= strip
      invariant headers.fields == old(headers.fields) - (strip - left)
    {
      var name :| name in left;
      headers.Remove(name);
      left := left - {name};
    }
  }

  /** Add a line to the list header `n`, unless the joined line is no legal value. */
  method AddLine(headers: HeaderMap, n: Name, own: string)
    requires headers.Valid()
    modifies headers
    ensures headers.Valid()
    ensures headers.fields == LineAdded(old(headers.fields), n, own)
  {
    var existing := Lines(Values(headers.fields, n));
    var combined := if existing == [] then own else Join(existing, ", ") + ", " + own;
    if ValidValue(combined) {
      headers.Insert(n, combined);
    }
  }

  method AddDefault(headers: HeaderMap, n: Name, v: Option<string>)
    requires headers.Valid()
    modifies headers
    ensures headers.Valid()
    ensures headers.fields == WithDefault(old(headers.fields), n, v)
  {
    if !Has(headers.fields, n) && v.Some? && ValidValue(v.value) {
      headers.Insert(n, v.value);
    }
  }

  method AppendVia(headers: HeaderMap, version: Version, pseudonym: string)
    requires headers.Valid()
    modifies headers
    ensures headers.Valid()
    ensures headers.fields == WithVia(old(headers.fields), version, Some(pseudonym))
  {
    AddLine(headers, Via, ViaProtocol(version) + " " + pseudonym);
  }

  method AppendForwardedHeader(headers: HeaderMap, peer: Peer, host: Option<string>, scheme: Option<string>)
    requires headers.Valid()
    modifies headers
    ensures headers.Valid()
    ensures headers.fields == WithForwarded(old(headers.fields), peer, host, scheme)
  {
    var first := Lines(Values(headers.fields, Forwarded)) == [];
    var element := ForValue(peer);
    if first {
      if host.Some? {
        element := element + (";host=\"" + host.value + "\"");
      }
      if scheme.Some? {
        element := element + (";proto=" + scheme.value);
      }
    }
    assert element == ForwardedElement(first, peer, host, scheme);
    AddLine(headers, Forwarded, element);
  }

  lemma SameValues(a: Fields, b: Fields)
    requires NoEmptyLists(a) && NoEmptyLists(b)
    requires forall n :: Values(a, n) == Values(b, n)
    ensures a == b
  {
    forall n ensures n in a <==> n in b {
      assert Values(a, n) == Values(b, n);
    }
    forall n | n in a ensures a[n] == b[n] {
      assert Values(a, n) == Values(b, n);
    }
  }

  predicate Dropped(strip: set<Name>, policy: Policy, n: Name) {
    (n == Host && !policy.preserveHost) || n in strip
  }

  /** The fields that the pairs leave in an empty map when the dropped names are skipped. */
  function Copied(pairs: seq<(Name, string)>, strip: set<Name>, policy: Policy): (h: Fields)
    ensures NoEmptyLists(h)
  {
    if pairs == [] then map[]
    else
      var (name, value) := pairs[|pairs| - 1];
      var before := Copied(pairs[..|pairs| - 1], strip, policy);
      if Dropped(strip, policy, name) then before else before[name := Values(before, name) + [value]]
  }

  lemma {:induction false} CopiedValues(pairs: seq<(Name, string)>, strip: set<Name>, policy: Policy, n: Name)
    ensures Values(Copied(pairs, strip, policy), n) == if Dropped(strip, policy, n) then [] else ValuesIn(pairs, n)
  {
    if pairs != [] {
      CopiedValues(pairs[..|pairs| - 1], strip, policy, n);
    }
  }

  lemma CopiedIsKept(pairs: seq<(Name, string)>, strip: set<Name>, client: Fields, policy: Policy)
    requires Lists(pairs, client, client.Keys)
    requires strip == StripSet(client) && NoEmptyLists(client)
    ensures Copied(pairs, strip, policy) == Kept(client, policy)
  {
    StripSetExact(client);
    forall n ensures Values(Copied(pairs, strip, policy), n) == Values(Kept(client, policy), n) {
      CopiedValues(pairs, strip, policy, n);
      assert ValuesIn(pairs, n) == Values(client, n);
    }
    SameValues(Copied(pairs, strip, policy), Kept(client, policy));
  }

  method BuildForwardHeaders(client: HeaderMap, peer: Option<Peer>, authority: Option<string>, policy: Policy)
    returns (headers: HeaderMap)
    requires client.Valid()
    ensures fresh(headers) && headers.Valid()
    ensures headers.fields == Built(client.fields, peer, authority, policy)
  {
    var strip := HopByHopHeaders(client);
    headers := new HeaderMap();
    var pairs := client.Iter();
    for i := 0 to |pairs|
      invariant fresh(headers) && headers.Valid()
      invariant headers.fields == Copied(pairs[..i], strip, policy)
    {
      assert pairs[..i + 1][..i] == pairs[..i];
      var (name, value) := pairs[i];
      if name == Host && !policy.preserveHost {
        continue;
      }
      if name in strip {
        continue;
      }
      headers.Append(name, value);
    }
    assert pairs[..|pairs|] == pairs;
    CopiedIsKept(pairs, strip, client.fields, policy);
    AddForwardingHeaders(client, headers, peer, authority, policy);
  }

  /** The part of `BuildForwardHeaders` after the copying loop. */
  method AddForwardingHeaders(client: HeaderMap, headers: HeaderMap, peer: Option<Peer>, authority: Option<string>,
                              policy: Policy)
    requires client != headers && headers.Valid()
    requires headers.fields == Kept(client.fields, policy)
    modifies headers
    ensures headers.Valid()
    ensures headers.fields == Built(client.fields, peer, authority, policy)
  {
    if policy.preserveHost {
      AddDefault(headers, Host, authority);
    }
    if policy.appendForwarded {
      var host := ClientHost(client.fields, authority);
      if peer.Some? {
        AddLine(headers, XForwardedFor, peer.value.ip);
        AppendForwardedHeader(headers, peer.value, host, policy.publicScheme);
      }
      AddDefault(headers, XForwardedHost, host);
      AddDefault(headers, XForwardedProto, policy.publicScheme);
    }
  }

  /** The part of forwarding that comes before sending. */
  method PrepareRequest(client: HeaderMap, connect: bool, hop: Hop) returns (refusal: Option<nat>, headers: HeaderMap)
    requires client.Valid()
    ensures fresh(headers) && headers.Valid()
    ensures match refusal
            case Some(status) => Outgoing(client.fields, connect, hop) == Refused(status)
            case None => Outgoing(client.fields, connect, hop) == Sent(headers.fields)
  {
    refusal := Refusal(client.fields, connect, hop.policy);
    if refusal.Some? {
      headers := new HeaderMap();
      return;
    }
    var upgrading := WebSocket.IsUpgrade(client.fields);
    headers := BuildForwardHeaders(client, hop.peer, hop.authority, hop.policy);
    if hop.policy.via.Some? {
      AppendVia(headers, hop.version, hop.policy.via.value);
    }
    if upgrading {
      WebSocket.UpgradeHeaders(headers);
    }
    if !Has(headers.fields, Host) && hop.upstream.Some? {
      headers.Insert(Host, hop.upstream.value);
    }
  }

  /** The header map of an upstream response, rewritten in place for the client. */
  method ReturnHeaders(headers: HeaderMap, status: nat, version: Version, via: Option<string>)
    requires headers.Valid()
    modifies headers
    ensures headers.Valid()
    ensures headers.fields == ReturnedFields(Response(status, version, old(headers.fields), None), via)
  {
    StripHopByHopResponseHeaders(headers);
    if status == SWITCHING_PROTOCOLS {
      WebSocket.UpgradeHeaders(headers);
    }
    if via.Some? {
      AppendVia(headers, version, via.value);
    }
  }
}
