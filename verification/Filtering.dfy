/** What the header fields sent upstream are, name by name. */
module Filtering {
  import opened Basics
  import opened Text
  import opened HeaderMaps
  import opened Forward
  import WebSocket

  /** The names whose values a proxy sets or extends itself. */
  const MANAGED: set<Name> := {Host, Via, XForwardedFor, XForwardedHost, XForwardedProto, Forwarded}

  /** What stripping leaves of one name. */
  function Remaining(h: Fields, n: Name): seq<string> {
    if Stripped(h, n) then [] else Values(h, n)
  }

  /** A list header's values after one more line: a single line, or, if that is no legal value, what was there. */
  function LineValues(values: seq<string>, own: string): seq<string> {
    if ValidValue(Combined(values, own)) then [Combined(values, own)] else values
  }

  lemma LineAddedValues(h: Fields, n: Name, own: string, m: Name)
    ensures Values(LineAdded(h, n, own), m) == if m == n then LineValues(Values(h, n), own) else Values(h, m)
  {
  }

  lemma DefaultFrame(h: Fields, n: Name, v: Option<string>, m: Name)
    requires m != n
    ensures Values(WithDefault(h, n, v), m) == Values(h, m)
  {
  }

  lemma KeptValues(client: Fields, policy: Policy, n: Name)
    ensures Values(Kept(client, policy), n) == if n == Host && !policy.preserveHost then [] else Remaining(client, n)
  {
  }

  lemma BuiltValues(client: Fields, peer: Option<Peer>, authority: Option<string>, policy: Policy, n: Name)
    requires n !in {Host, XForwardedHost, XForwardedProto}
    ensures Values(Built(client, peer, authority, policy), n) ==
            if !policy.appendForwarded || peer.None? then Remaining(client, n)
            else if n == XForwardedFor then LineValues(Remaining(client, n), peer.value.ip)
            else if n == Forwarded then
              LineValues(Remaining(client, n), ForwardedElement(Lines(Remaining(client, n)) == [], peer.value,
                                                                ClientHost(client, authority), policy.publicScheme))
            else Remaining(client, n)
  {
    hide LineAdded, LineValues, WithDefault, ClientHost, ForwardedElement, Stripped;
    var kept := Kept(client, policy);
    KeptValues(client, policy, n);
    KeptValues(client, policy, Forwarded);
    DefaultFrame(kept, Host, authority, n);
    DefaultFrame(kept, Host, authority, Forwarded);
    var h := if policy.preserveHost then WithDefault(kept, Host, authority) else kept;
    if policy.appendForwarded {
      var host := ClientHost(client, authority);
      var h' := h;
      if peer.Some? {
        var listed := LineAdded(h, XForwardedFor, peer.value.ip);
        LineAddedValues(h, XForwardedFor, peer.value.ip, n);
        LineAddedValues(h, XForwardedFor, peer.value.ip, Forwarded);
        var element := ForwardedElement(Lines(Values(listed, Forwarded)) == [], peer.value, host, policy.publicScheme);
        LineAddedValues(listed, Forwarded, element, n);
        h' := LineAdded(listed, Forwarded, element);
      }
      DefaultFrame(h', XForwardedHost, host, n);
      DefaultFrame(WithDefault(h', XForwardedHost, host), XForwardedProto, policy.publicScheme, n);
    }
  }

  /** What the upstream gets under a name other than the host and scheme names. */
  function SentValues(client: Fields, hop: Hop, n: Name): seq<string> {
    var left := Remaining(client, n);
    match n
    case Connection => if WebSocket.IsUpgrade(client) then ["upgrade"] else []
    case Upgrade => if WebSocket.IsUpgrade(client) then ["websocket"] else []
    case Via =>
      if hop.policy.via.Some? then LineValues(left, ViaProtocol(hop.version) + " " + hop.policy.via.value) else left
    case XForwardedFor =>
      if hop.policy.appendForwarded && hop.peer.Some? then LineValues(left, hop.peer.value.ip) else left
    case Forwarded =>
      if hop.policy.appendForwarded && hop.peer.Some?
      then LineValues(left, ForwardedElement(Lines(left) == [], hop.peer.value, ClientHost(client, hop.authority),
                                             hop.policy.publicScheme))
      else left
    case _ => left
  }

  /**
   The sent fields are an exact filter of the client's: a name the proxy does
   not write itself keeps its whole value list, in order, or loses it, and it
   loses it exactly if it is hop-by-hop or nominated by `Connection`.
   */
  lemma PreparedValues(client: Fields, hop: Hop, n: Name)
    requires n !in {Host, XForwardedHost, XForwardedProto}
    ensures Values(Prepared(client, hop), n) == SentValues(client, hop, n)
  {
    hide Built, LineAdded, LineValues, ClientHost, ForwardedElement, Nominated, KeepsTe, WebSocket.IsUpgrade;
    BuiltValues(client, hop.peer, hop.authority, hop.policy, n);
    var built := Built(client, hop.peer, hop.authority, hop.policy);
    if hop.policy.via.Some? {
      LineAddedValues(built, Via, ViaProtocol(hop.version) + " " + hop.policy.via.value, n);
    }
  }

  /** Of the hop-by-hop names only a `te: trailers` that is not nominated reaches the upstream, and the upgrade pair. */
  lemma HopByHopSurvives(client: Fields, hop: Hop, n: Name)
    requires n in HOP_BY_HOP_HEADERS
    ensures Has(Prepared(client, hop), n) <==>
            match n
            case Te => KeepsTe(client) && !Nominated(client, Te)
            case Connection => WebSocket.IsUpgrade(client)
            case Upgrade => WebSocket.IsUpgrade(client)
            case _ => false
  {
    hide Prepared, WebSocket.IsUpgrade, Nominated;
    PreparedValues(client, hop, n);
  }

  /** A nominated name survives only if the proxy writes it itself. */
  lemma NominatedGone(client: Fields, hop: Hop, n: Name)
    requires Nominated(client, n) && n !in MANAGED
    requires WebSocket.IsUpgrade(client) ==> n != Connection && n != Upgrade
    ensures !Has(Prepared(client, hop), n)
  {
    hide Prepared, WebSocket.IsUpgrade, Nominated;
    PreparedValues(client, hop, n);
  }

  /** The upstream gets exactly one source of truth for the host: the client's when preserved, else the upstream's. */
  lemma PreparedHost(client: Fields, hop: Hop)
    ensures Values(Prepared(client, hop), Host) ==
            if hop.policy.preserveHost && Remaining(client, Host) != [] then Remaining(client, Host)
            else if hop.policy.preserveHost && hop.authority.Some? && ValidValue(hop.authority.value)
            then [hop.authority.value]
            else if hop.upstream.Some? then [hop.upstream.value]
            else []
  {
    hide LineAdded, ValidValue, ClientHost, ForwardedElement, Nominated, KeepsTe, WebSocket.IsUpgrade;
    var kept := Kept(client, hop.policy);
    KeptValues(client, hop.policy, Host);
    var h := if hop.policy.preserveHost then WithDefault(kept, Host, hop.authority) else kept;
    assert Values(Built(client, hop.peer, hop.authority, hop.policy), Host) == Values(h, Host) by {
      BuiltKeepsHost(client, hop.peer, hop.authority, hop.policy);
    }
    if hop.policy.via.Some? {
      LineAddedValues(Built(client, hop.peer, hop.authority, hop.policy), Via,
                      ViaProtocol(hop.version) + " " + hop.policy.via.value, Host);
    }
  }

  lemma BuiltKeepsHost(client: Fields, peer: Option<Peer>, authority: Option<string>, policy: Policy)
    ensures var kept := Kept(client, policy);
            Values(Built(client, peer, authority, policy), Host) ==
            Values(if policy.preserveHost then WithDefault(kept, Host, authority) else kept, Host)
  {
    hide LineAdded, WithDefault, ClientHost, ForwardedElement, Kept;
    var kept := Kept(client, policy);
    var h := if policy.preserveHost then WithDefault(kept, Host, authority) else kept;
    if policy.appendForwarded {
      var host := ClientHost(client, authority);
      var h' := h;
      if peer.Some? {
        var listed := LineAdded(h, XForwardedFor, peer.value.ip);
        LineAddedValues(h, XForwardedFor, peer.value.ip, Host);
        var element := ForwardedElement(Lines(Values(listed, Forwarded)) == [], peer.value, host, policy.publicScheme);
        LineAddedValues(listed, Forwarded, element, Host);
        h' := LineAdded(listed, Forwarded, element);
      }
      DefaultFrame(h', XForwardedHost, host, Host);
      DefaultFrame(WithDefault(h', XForwardedHost, host), XForwardedProto, policy.publicScheme, Host);
    }
  }

  /** The client's own host and scheme headers win; otherwise the proxy supplies what it knows, if it may and can. */
  lemma PreparedOrigin(client: Fields, hop: Hop, n: Name)
    requires n == XForwardedHost || n == XForwardedProto
    ensures var known := if n == XForwardedHost then ClientHost(client, hop.authority) else hop.policy.publicScheme;
            Values(Prepared(client, hop), n) ==
            if Remaining(client, n) == [] && hop.policy.appendForwarded && known.Some? && ValidValue(known.value)
            then [known.value]
            else Remaining(client, n)
  {
    hide Built, LineAdded, ValidValue, ClientHost, Nominated, KeepsTe, WebSocket.IsUpgrade, Remaining;
    BuiltOrigin(client, hop.peer, hop.authority, hop.policy, n);
    if hop.policy.via.Some? {
      LineAddedValues(Built(client, hop.peer, hop.authority, hop.policy), Via,
                      ViaProtocol(hop.version) + " " + hop.policy.via.value, n);
    }
  }

  /** The host that the client asked for: its first Host value if that can be read, else the authority of the URI. */
  lemma HostAskedFor(client: Fields, authority: Option<string>, host: string, rest: seq<string>)
    ensures Values(client, Host) == [host] + rest ==>
              ClientHost(client, authority) == if Readable(host) then Some(host) else authority
    ensures Values(client, Host) == [] ==> ClientHost(client, authority) == authority
  {
    FirstIsFirst(client, Host, host, rest);
  }

  lemma BuiltOrigin(client: Fields, peer: Option<Peer>, authority: Option<string>, policy: Policy, n: Name)
    requires n == XForwardedHost || n == XForwardedProto
    ensures var known := if n == XForwardedHost then ClientHost(client, authority) else policy.publicScheme;
            Values(Built(client, peer, authority, policy), n) ==
            if Remaining(client, n) == [] && policy.appendForwarded && known.Some? && ValidValue(known.value)
            then [known.value]
            else Remaining(client, n)
  {
    hide LineAdded, WithDefault, ClientHost, ForwardedElement, Kept, Remaining, ValidValue;
    var kept := Kept(client, policy);
    KeptValues(client, policy, n);
    DefaultFrame(kept, Host, authority, n);
    var h := if policy.preserveHost then WithDefault(kept, Host, authority) else kept;
    if policy.appendForwarded {
      var host := ClientHost(client, authority);
      var h' := h;
      if peer.Some? {
        var listed := LineAdded(h, XForwardedFor, peer.value.ip);
        LineAddedValues(h, XForwardedFor, peer.value.ip, n);
        var element := ForwardedElement(Lines(Values(listed, Forwarded)) == [], peer.value, host, policy.publicScheme);
        LineAddedValues(listed, Forwarded, element, n);
        h' := LineAdded(listed, Forwarded, element);
      }
      var h'' := WithDefault(h', XForwardedHost, host);
      if n == XForwardedHost {
        DefaultValues(h', n, host);
        DefaultFrame(h'', XForwardedProto, policy.publicScheme, n);
      } else {
        DefaultFrame(h', XForwardedHost, host, n);
        DefaultValues(h'', n, policy.publicScheme);
      }
    }
  }

  lemma DefaultValues(h: Fields, n: Name, v: Option<string>)
    ensures Values(WithDefault(h, n, v), n) ==
            if Values(h, n) == [] && v.Some? && ValidValue(v.value) then [v.value] else Values(h, n)
  {
  }

  /** What a client gets of an upstream response, name by name; the upgrade pair only on a 101. */
  lemma ReturnedValues(response: Response, via: Option<string>, n: Name)
    ensures var left := Remaining(response.headers, n);
            Values(ReturnedFields(response, via), n) ==
            match n
            case Connection => if response.status == SWITCHING_PROTOCOLS then ["upgrade"] else []
            case Upgrade => if response.status == SWITCHING_PROTOCOLS then ["websocket"] else []
            case Via => if via.Some? then LineValues(left, ViaProtocol(response.version) + " " + via.value) else left
            case _ => left
  {
    hide Nominated, KeepsTe, LineAdded, LineValues;
    var h := Unstripped(response.headers);
    var upgraded := if response.status == SWITCHING_PROTOCOLS then WebSocket.WithUpgrade(h) else h;
    if via.Some? {
      LineAddedValues(upgraded, Via, ViaProtocol(response.version) + " " + via.value, n);
    }
  }

  /** Under XForwardedFor::Preserve a second pass through the same policy changes nothing. */
  lemma BuildTwice(client: Fields, peer: Option<Peer>, peer': Option<Peer>, authority: Option<string>, policy: Policy)
    requires !policy.appendForwarded
    ensures var once := Built(client, peer, authority, policy);
            Built(once, peer', authority, policy) == once
  {
    hide ValidValue;
    var once := Built(client, peer, authority, policy);
    assert Values(once, Connection) == [];
    forall n | n in once ensures !Stripped(once, n) && (n == Host ==> policy.preserveHost) {
      if n == Te {
        assert Values(once, Te) == Values(client, Te);
      }
    }
    assert Kept(once, policy) == once;
  }
}
