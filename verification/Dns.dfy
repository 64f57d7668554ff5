/**
 DNS discovery: the producer keeps the services of the last successful lookup
 and sends only differences; the consumer folds what it receives into its list.
 */
module Dns {
  import opened Basics
  import opened Text
  import opened Numbers
  import opened Discovery

  /** What fixes the scheme and the port of every upstream. */
  datatype Config = Config(useHttps: bool, port: nat)

  /** The upstream URL of an address. An IPv6 address is written as it is, without brackets. */
  function Url(config: Config, ip: Key): string {
    (if config.useHttps then "https" else "http") + "://" + ip + ":" + Decimal(config.port)
  }

  /** Scheme, address and port of a URL: before the first colon, between, and after the last one. */
  function Parts(url: string): Option<(string, string, nat)> {
    var parts := Split(url, ':');
    if |parts| < 3 || !Digits(parts[|parts| - 1]) then None
    else
      var middle := Join(parts[1..|parts| - 1], ":");
      if |middle| >= 2 && middle[..2] == "//"
      then Some((parts[0], middle[2..], DecimalValue(parts[|parts| - 1]))) else None
  }

  /** Every target names the configured scheme and port and the address it was made for. */
  lemma UrlReads(config: Config, ip: Key)
    ensures Parts(Url(config, ip)) == Some((if config.useHttps then "https" else "http", ip, config.port))
  {
    hide Split, Join, Decimal, DecimalValue, Digits, Url;
    var scheme, port, middle := if config.useHttps then "https" else "http", Decimal(config.port), "//" + ip;
    DecimalReads(config.port);
    UrlSplits(config, ip);
    var parts := Split(Url(config, ip), ':');
    assert |Split(middle, ':')| >= 1 && parts[1..|parts| - 1] == Split(middle, ':');
    JoinSplit(middle, ':');
    assert [':'] == ":";
    assert middle[..2] == "//" && middle[2..] == ip;
  }

  lemma UrlSplits(config: Config, ip: Key)
    ensures Split(Url(config, ip), ':') ==
            [if config.useHttps then "https" else "http"] + Split("//" + ip, ':') + [Decimal(config.port)]
  {
    hide Split, Decimal, Digits;
    var scheme, port, middle := if config.useHttps then "https" else "http", Decimal(config.port), "//" + ip;
    DecimalReads(config.port);
    assert ':' !in port by { DigitsOnly(port); }
    SplitWhole(scheme, ':');
    SplitWhole(port, ':');
    assert Url(config, ip) == scheme + [':'] + (middle + [':'] + port);
    SplitAcross(scheme, middle + [':'] + port, ':');
    SplitAcross(middle, port, ':');
  }

  lemma DigitsOnly(s: string)
    requires Digits(s)
    ensures ':' !in s
  {
  }

  function UrlMap(config: Config, ips: set<Key>): map<Key, string> { map ip | ip in ips :: Url(config, ip) }

  predicate NoRepeats(xs: seq<Key>) { forall i, j | 0 <= i < j < |xs| :: xs[i] != xs[j] }

  function Removes(ips: seq<Key>): seq<Change> {
    seq(|ips|, i requires 0 <= i < |ips| => Remove(ips[i]))
  }

  function Inserts(config: Config, ips: seq<Key>): seq<Change> {
    seq(|ips|, i requires 0 <= i < |ips| => Insert(ips[i], Url(config, ips[i])))
  }

  /** `order` lists exactly the members of the set, in an order the hash map happens to have. */
  ghost predicate Orders(order: seq<Key>, members: set<Key>) {
    NoRepeats(order) && forall ip :: ip in order <==> ip in members
  }

  /** The changes sent when the services go from `before` to `after`: all removals, then all additions. */
  ghost predicate IsDiff(config: Config, changes: seq<Change>, before: set<Key>, after: set<Key>) {
    exists gone, come: seq<Key> | Orders(gone, before - after) && Orders(come, after - before) ::
      changes == Removes(gone) + Inserts(config, come)
  }

  /** What travels through the channel: a change, or None for a resolution error. */
  type Event = Option<Change>

  function Sent(changes: seq<Change>): seq<Event> {
    seq(|changes|, i requires 0 <= i < |changes| => Some(changes[i]))
  }

  lemma OrdersNext(order: seq<Key>, members: set<Key>, ip: Key)
    requires Orders(order, members) && ip !in members
    ensures Orders(order + [ip], members + {ip})
  {
    forall i, j | 0 <= i < j < |order + [ip]| ensures (order + [ip])[i] != (order + [ip])[j] {
      if j == |order| { assert order[i] in order; }
    }
  }

  lemma SentNext(changes: seq<Change>, change: Change)
    ensures Sent(changes + [change]) == Sent(changes) + [Some(change)]
  {
  }

  lemma RemovesNext(ips: seq<Key>, ip: Key)
    ensures Removes(ips + [ip]) == Removes(ips) + [Remove(ip)]
  {
  }

  lemma InsertsNext(config: Config, ips: seq<Key>, ip: Key)
    ensures Inserts(config, ips + [ip]) == Inserts(config, ips) + [Insert(ip, Url(config, ip))]
  {
  }

  lemma NothingSent(config: Config)
    ensures Orders([], {}) && Sent(Removes([])) == [] && Sent(Inserts(config, [])) == []
  {
  }

  class DnsDiscovery {
    const config: Config
    var currentServices: map<Key, string>
    var channel: seq<Event>

    ghost predicate Valid()
      reads this
    {
      currentServices == UrlMap(config, currentServices.Keys)
    }

    constructor (config: Config)
      ensures Valid() && this.config == config && currentServices == map[] && channel == []
    {
      this.config := config;
      currentServices, channel := map[], [];
    }

    /** Send the services that are gone, in whatever order the map has. */
    method SendRemovals(newServices: map<Key, string>) returns (ghost gone: seq<Key>)
      modifies this`channel
      ensures Orders(gone, currentServices.Keys - newServices.Keys)
      ensures channel == old(channel) + Sent(Removes(gone))
    {
      hide Sent, Removes, Orders;
      gone := [];
      assert Orders(gone, {}) && Sent(Removes(gone)) == [] by { NothingSent(config); }
      var left := currentServices.Keys;
      ghost var done: set<Key> := {};
      while left != {}
        invariant left <= currentServices.Keys && done == currentServices.Keys - left - newServices.Keys
        invariant Orders(gone, done) && channel == old(channel) + Sent(Removes(gone))
      {
        var ip :| ip in left;
        if ip !in newServices {
          channel := channel + [Some(Remove(ip))];
          OrdersNext(gone, done, ip);
          RemovesNext(gone, ip);
          SentNext(Removes(gone), Remove(ip));
          gone, done := gone + [ip], done + {ip};
        }
        left := left - {ip};
      }
      assert done == currentServices.Keys - newServices.Keys;
    }

    /** Send the services that are new. */
    method SendAdditions(newServices: map<Key, string>) returns (ghost come: seq<Key>)
      requires newServices == UrlMap(config, newServices.Keys)
      modifies this`channel
      ensures Orders(come, newServices.Keys - currentServices.Keys)
      ensures channel == old(channel) + Sent(Inserts(config, come))
    {
      hide Sent, Inserts, Orders;
      come := [];
      assert Orders(come, {}) && Sent(Inserts(config, come)) == [] by { NothingSent(config); }
      var left := newServices.Keys;
      ghost var done: set<Key> := {};
      while left != {}
        invariant left <= newServices.Keys && done == newServices.Keys - left - currentServices.Keys
        invariant Orders(come, done) && channel == old(channel) + Sent(Inserts(config, come))
      {
        var ip :| ip in left;
        if ip !in currentServices {
          channel := channel + [Some(Insert(ip, newServices[ip]))];
          OrdersNext(come, done, ip);
          InsertsNext(config, come, ip);
          SentNext(Inserts(config, come), Insert(ip, newServices[ip]));
          come, done := come + [ip], done + {ip};
        }
        left := left - {ip};
      }
      assert done == newServices.Keys - currentServices.Keys;
    }

    /** One resolution; None is a failed lookup. Only the differences are sent, and a failure changes nothing. */
    method ResolveAndSend(lookup: Option<seq<Key>>) returns (ok: bool)
      requires Valid()
      modifies this
      ensures Valid() && (ok <==> lookup.Some?)
      ensures !ok ==> currentServices == old(currentServices) && channel == old(channel)
      ensures ok ==> currentServices == UrlMap(config, set ip | ip in lookup.value)
      ensures ok ==> exists changes ::
                IsDiff(config, changes, old(currentServices).Keys, currentServices.Keys)
                && channel == old(channel) + Sent(changes)
    {
      hide Orders;
      if lookup.None? {
        return false;
      }
      var newServices: map<Key, string> := map[];
      var ips := lookup.value;
      for i := 0 to |ips|
        invariant newServices == UrlMap(config, set ip | ip in ips[..i])
      {
        newServices := newServices[ips[i] := Url(config, ips[i])];
        assert ips[..i + 1] == ips[..i] + [ips[i]];
      }
      assert ips[..|ips|] == ips;
      ghost var gone := SendRemovals(newServices);
      ghost var come := SendAdditions(newServices);
      ghost var changes := Removes(gone) + Inserts(config, come);
      assert Sent(changes) == Sent(Removes(gone)) + Sent(Inserts(config, come));
      assert IsDiff(config, changes, currentServices.Keys, newServices.Keys);
      currentServices := newServices;
      ok := true;
    }

    /** One turn of the refresh loop: an error is reported through the channel. */
    method Refresh(lookup: Option<seq<Key>>)
      requires Valid()
      modifies this
      ensures Valid()
      ensures lookup.None? ==> currentServices == old(currentServices) && channel == old(channel) + [None]
      ensures lookup.Some? ==> currentServices == UrlMap(config, set ip | ip in lookup.value)
      ensures lookup.Some? ==> exists changes ::
                IsDiff(config, changes, old(currentServices).Keys, currentServices.Keys)
                && channel == old(channel) + Sent(changes)
    {
      var ok := ResolveAndSend(lookup);
      if !ok {
        channel := channel + [None];
      }
    }
  }
}
