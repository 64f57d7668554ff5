/**
 A request travelling through any number of proxies. Every visit forwards the
 request; between two visits the HTTP client may change the fields that belong
 to one connection or one message framing, and nothing else.
 */
module Network {
  import opened Basics
  import opened Text
  import opened HeaderMaps
  import opened Forward
  import opened Filtering
  import WebSocket

  /** A proxy receiving a request. */
  datatype Visit = Visit(fields: Fields, hop: Hop)

  const TRANSPORT: set<Name> := {Host, ContentLength, TransferEncoding, Te, Trailer, KeepAlive, ProxyConnection}

  ghost predicate Carried(sent: Fields, received: Fields) {
    forall n | n !in TRANSPORT :: Values(received, n) == Values(sent, n)
  }

  ghost predicate Run(visits: seq<Visit>) {
    && (forall i | 0 <= i < |visits| :: Outgoing(visits[i].fields, false, visits[i].hop).Sent?)
    && (forall i | 0 < i < |visits| ::
          Carried(Outgoing(visits[i - 1].fields, false, visits[i - 1].hop).headers, visits[i].fields))
  }

  /** The element `upgrade` nominates the name Upgrade. */
  lemma UpgradeParses()
    ensures ParseName(Trim("upgrade")) == Some(Upgrade)
  {
    var s := "upgrade";
    assert TrimStart(s) == s && TrimEnd(s) == s;
    assert Lower(s) == s;
    assert SPELLINGS[0] == (s, Upgrade);
  }

  lemma UpgradeAlone()
    ensures Elements(["upgrade"]) == ["upgrade"]
  {
    var s := "upgrade";
    SplitWhole(s, ',');
    assert [s][1..] == [];
  }

  /** A request whose `Connection` is absent or `upgrade` nominates nothing but `upgrade`. */
  lemma NominatesUpgradeOnly(h: Fields, n: Name)
    requires Values(h, Connection) == [] || Values(h, Connection) == ["upgrade"]
    ensures Nominated(h, n) ==> n == Upgrade
  {
    hide ParseName, Trim, Elements;
    UpgradeParses();
    UpgradeAlone();
    assert Elements([]) == [] by { NoElements(); }
  }

  lemma NoElements()
    ensures Elements([]) == []
  {
  }

  /** After its first hop a request nominates nothing but `upgrade`. */
  lemma NothingNominated(visits: seq<Visit>, i: nat, n: Name)
    requires Run(visits) && 0 < i < |visits| && n != Upgrade
    ensures !Nominated(visits[i].fields, n)
  {
    hide Prepared, Nominated, WebSocket.IsUpgrade;
    var before := visits[i - 1];
    PreparedValues(before.fields, before.hop, Connection);
    assert Carried(Outgoing(before.fields, false, before.hop).headers, visits[i].fields);
    NominatesUpgradeOnly(visits[i].fields, n);
  }

  /** What visit `i` received under a name that connections leave alone is what the visit before sent. */
  lemma ReceivedValues(visits: seq<Visit>, i: nat, n: Name)
    requires Run(visits) && 0 < i < |visits|
    requires n !in {XForwardedHost, XForwardedProto} + TRANSPORT
    ensures Values(visits[i].fields, n) == SentValues(visits[i - 1].fields, visits[i - 1].hop, n)
  {
    hide Prepared, SentValues;
    var before := visits[i - 1];
    PreparedValues(before.fields, before.hop, n);
    assert Carried(Outgoing(before.fields, false, before.hop).headers, visits[i].fields);
  }

  /** A name that is not hop-by-hop reaches every later visit as the first one left it. */
  lemma RemainingLater(visits: seq<Visit>, i: nat, n: Name)
    requires Run(visits) && 0 < i < |visits| && n !in HOP_BY_HOP_HEADERS
    ensures Remaining(visits[i].fields, n) == Values(visits[i].fields, n)
  {
    hide Nominated;
    NothingNominated(visits, i, n);
  }
}
