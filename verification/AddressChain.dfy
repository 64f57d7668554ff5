/** X-Forwarded-For and Forwarded over any number of hops. */
module AddressChain {
  import opened Basics
  import opened Text
  import opened HeaderMaps
  import opened Forward
  import opened Filtering
  import opened ListHeaders
  import opened Network

  /** Every proxy of the run appends, and knows its client's address. */
  ghost predicate Appending(visits: seq<Visit>) {
    forall i | 0 <= i < |visits| :: visits[i].hop.policy.appendForwarded && visits[i].hop.peer.Some?
  }

  function Addresses(visits: seq<Visit>): seq<string>
    requires forall i | 0 <= i < |visits| :: visits[i].hop.peer.Some?
  {
    seq(|visits|, i requires 0 <= i < |visits| => visits[i].hop.peer.value.ip)
  }

  /** The element that visit `i` adds to `Forwarded`. */
  function Element(visits: seq<Visit>, i: nat): string
    requires i < |visits| && visits[i].hop.peer.Some?
  {
    var hop := visits[i].hop;
    if i > 0 then ForValue(hop.peer.value)
    else ForwardedElement(Lines(Remaining(visits[0].fields, Forwarded)) == [], hop.peer.value,
                          ClientHost(visits[0].fields, hop.authority), hop.policy.publicScheme)
  }

  function ForwardedElements(visits: seq<Visit>, k: nat): seq<string>
    requires k <= |visits| && forall i | 0 <= i < |visits| :: visits[i].hop.peer.Some?
  {
    seq(k, i requires 0 <= i < k => Element(visits, i))
  }

  // ----- one line grows by one entry

  lemma LineStarts(values: seq<string>, own: string)
    requires Readable(own)
    ensures LineValues(values, own) == [Join(Lines(values) + [own], ", ")]
  {
    CombinedLine(values, own);
  }

  lemma LineGrows(entries: seq<string>, own: string)
    requires entries != [] && Readable(own) && forall e | e in entries :: Readable(e)
    ensures LineValues([Join(entries, ", ")], own) == [Join(entries + [own], ", ")]
    ensures Lines([Join(entries, ", ")]) != []
  {
    var line := Join(entries, ", ");
    JoinReadable(entries, ", ");
    LinesAllReadable([line]);
    CombinedLine([line], own);
    assert [line] + [own] == [line, own];
    assert [line, own][1..] == [own];
    JoinAppend(entries, own, ", ");
  }

  lemma AddressShape(ip: Address)
    ensures Readable(ip) && ',' !in ip && Words(ip) == [ip]
  {
    WordsOfOne(ip);
  }

  lemma ElementReadable(first: bool, peer: Peer, host: Option<string>, scheme: Option<string>)
    requires first ==> (host.Some? ==> Readable(host.value)) && (scheme.Some? ==> Readable(scheme.value))
    ensures Readable(ForwardedElement(first, peer, host, scheme))
  {
    AddressShape(peer.ip);
    assert Readable(ForValue(peer));
    var h := if first && host.Some? then ";host=\"" + host.value + "\"" else "";
    var p := if first && scheme.Some? then ";proto=" + scheme.value else "";
    assert Readable(h) && Readable(p);
  }

  // ----- an element, read back

  /** The node of a `for=` parameter: whether it is an IPv6 one, and the address. */
  function NodeOf(part: string): Option<(bool, string)> {
    if |part| >= 8 && part[..6] == "for=\"[" && part[|part| - 2..] == "]\"" then Some((true, part[6..|part| - 2]))
    else if |part| >= 4 && part[..4] == "for=" then Some((false, part[4..]))
    else None
  }

  /** The peer's address and family can be read from what a proxy writes: IPv4 bare, IPv6 in brackets and quotes. */
  lemma NodeReads(peer: Peer)
    ensures NodeOf(ForValue(peer)) == Some((peer.V6?, peer.ip))
  {
    var part := ForValue(peer);
    assert part[..4] == "for=";
    if peer.V4? {
      assert part[4] == peer.ip[0] && part[4..] == peer.ip;
      assert |part| >= 8 ==> part[..6][4] == part[4];
    } else {
      assert part == "for=\"[" + peer.ip + "]\"";
    }
  }

  /** Split at its semicolons an element is the node, then host and scheme as given, where they are to be written. */
  lemma ElementReads(first: bool, peer: Peer, host: Option<string>, scheme: Option<string>)
    requires first && host.Some? ==> ';' !in host.value
    requires first && scheme.Some? ==> ';' !in scheme.value
    ensures Split(ForwardedElement(first, peer, host, scheme), ';') ==
            [ForValue(peer)]
            + (if first && host.Some? then ["host=\"" + host.value + "\""] else [])
            + (if first && scheme.Some? then ["proto=" + scheme.value] else [])
  {
    hide Split, ForValue;
    var node := ForValue(peer);
    NodeWhole(peer);
    var before := if first && host.Some? then node + (";host=\"" + host.value + "\"") else node;
    if first && host.Some? {
      assert ";host=\"" + host.value + "\"" == [';'] + ("host=\"" + host.value + "\"");
      OnePart(node, "host=\"" + host.value + "\"");
    } else {
      assert node + "" == node;
    }
    if first && scheme.Some? {
      assert ";proto=" + scheme.value == [';'] + ("proto=" + scheme.value);
      OnePart(before, "proto=" + scheme.value);
    } else {
      assert before + "" == before;
    }
  }

  lemma NodeWhole(peer: Peer)
    ensures Split(ForValue(peer), ';') == [ForValue(peer)]
  {
    assert forall i | 0 <= i < |peer.ip| :: peer.ip[i] in peer.ip;
    SplitWhole(ForValue(peer), ';');
  }

  lemma OnePart(before: string, part: string)
    requires ';' !in part
    ensures Split(before + ([';'] + part), ';') == Split(before, ';') + [part]
  {
    assert before + ([';'] + part) == before + [';'] + part;
    SplitAcross(before, part, ';');
    SplitWhole(part, ';');
  }

  // ----- X-Forwarded-For

  lemma AddressesReadable(visits: seq<Visit>)
    requires Appending(visits)
    ensures forall a | a in Addresses(visits) :: Readable(a)
  {
    forall a | a in Addresses(visits) ensures Readable(a) {
      var i :| 0 <= i < |visits| && a == visits[i].hop.peer.value.ip;
      AddressShape(visits[i].hop.peer.value.ip);
    }
  }

  lemma AddressGrows(visits: seq<Visit>, i: nat, client: seq<string>)
    requires Appending(visits) && 0 < i < |visits| && forall line | line in client :: Readable(line)
    ensures LineValues([Join(client + Addresses(visits[..i]), ", ")], visits[i].hop.peer.value.ip) ==
            [Join(client + Addresses(visits[..i + 1]), ", ")]
  {
    hide Readable, LineValues;
    var entries := client + Addresses(visits[..i]);
    var ip := visits[i].hop.peer.value.ip;
    AddressShape(ip);
    AddressesReadable(visits[..i]);
    LineGrows(entries, ip);
    assert entries + [ip] == client + Addresses(visits[..i + 1]);
  }

  /**
   What visit `i` sends is one line: the client's readable values, unless
   `Connection` nominated the header, then the addresses of all hops so far.
   */
  lemma {:induction false} ForwardedForLine(visits: seq<Visit>, i: nat)
    requires Run(visits) && Appending(visits) && i < |visits|
    ensures Values(Prepared(visits[i].fields, visits[i].hop), XForwardedFor) ==
            [Join(Lines(Remaining(visits[0].fields, XForwardedFor)) + Addresses(visits[..i + 1]), ", ")]
  {
    hide Prepared, Remaining, LineValues, Run, Readable;
    var visit := visits[i];
    var ip := visit.hop.peer.value.ip;
    var client := Lines(Remaining(visits[0].fields, XForwardedFor));
    AddressShape(ip);
    PreparedValues(visit.fields, visit.hop, XForwardedFor);
    if i == 0 {
      LineStarts(Remaining(visit.fields, XForwardedFor), ip);
      assert Addresses(visits[..1]) == [ip];
    } else {
      ForwardedForLine(visits, i - 1);
      ReceivedValues(visits, i, XForwardedFor);
      PreparedValues(visits[i - 1].fields, visits[i - 1].hop, XForwardedFor);
      RemainingLater(visits, i, XForwardedFor);
      AddressGrows(visits, i, client) by { LinesReadable(Remaining(visits[0].fields, XForwardedFor)); }
    }
  }

  function Singletons(words: seq<string>): seq<seq<string>> {
    seq(|words|, i requires 0 <= i < |words| => [words[i]])
  }

  /** Parsed, the list is the client's readable elements followed by exactly one element a hop. */
  lemma {:induction false} ForwardedForElements(visits: seq<Visit>, i: nat)
    requires Run(visits) && Appending(visits) && i < |visits|
    ensures Chain(Values(Prepared(visits[i].fields, visits[i].hop), XForwardedFor)) ==
            Chain(Remaining(visits[0].fields, XForwardedFor)) + Singletons(Addresses(visits[..i + 1]))
  {
    hide Prepared, Remaining, LineValues, Run, Chain;
    var visit := visits[i];
    var ip := visit.hop.peer.value.ip;
    AddressShape(ip);
    PreparedValues(visit.fields, visit.hop, XForwardedFor);
    LineExtendsChain(Remaining(visit.fields, XForwardedFor), ip);
    if i == 0 {
      assert Singletons(Addresses(visits[..1])) == [[ip]];
    } else {
      ForwardedForElements(visits, i - 1);
      ReceivedValues(visits, i, XForwardedFor);
      PreparedValues(visits[i - 1].fields, visits[i - 1].hop, XForwardedFor);
      RemainingLater(visits, i, XForwardedFor);
      assert Singletons(Addresses(visits[..i + 1])) == Singletons(Addresses(visits[..i])) + [[ip]];
    }
  }

  // ----- Forwarded

  lemma ElementsReadable(visits: seq<Visit>, k: nat)
    requires Appending(visits) && k <= |visits|
    requires visits != [] && Readable(Element(visits, 0))
    ensures forall e | e in ForwardedElements(visits, k) :: Readable(e)
  {
    hide ForwardedElement, ForValue, Readable, Remaining;
    forall i | 0 <= i < k ensures Readable(Element(visits, i)) {
      if i > 0 {
        var peer := visits[i].hop.peer.value;
        ForOnly(peer, None, None);
        ElementReadable(false, peer, None, None);
      }
    }
  }

  lemma ForOnly(peer: Peer, host: Option<string>, scheme: Option<string>)
    ensures ForwardedElement(false, peer, host, scheme) == ForValue(peer)
  {
  }

  /**
   `Forwarded` grows likewise; host and proto appear only in the first
   element of a chain in which the client's header had no readable value.
   */
  lemma {:induction false} ForwardedLine(visits: seq<Visit>, i: nat)
    requires Run(visits) && Appending(visits) && i < |visits| && Readable(Element(visits, 0))
    ensures Values(Prepared(visits[i].fields, visits[i].hop), Forwarded) ==
            [Join(Lines(Remaining(visits[0].fields, Forwarded)) + ForwardedElements(visits, i + 1), ", ")]
  {
    hide Prepared, Remaining, LineValues, ForwardedElement, ForValue, ClientHost, Run, Readable;
    var visit := visits[i];
    var client := Lines(Remaining(visits[0].fields, Forwarded));
    PreparedValues(visit.fields, visit.hop, Forwarded);
    if i == 0 {
      LineStarts(Remaining(visit.fields, Forwarded), Element(visits, 0));
      assert ForwardedElements(visits, 1) == [Element(visits, 0)];
    } else {
      ForwardedLine(visits, i - 1);
      ReceivedValues(visits, i, Forwarded);
      PreparedValues(visits[i - 1].fields, visits[i - 1].hop, Forwarded);
      RemainingLater(visits, i, Forwarded);
      ElementGrows(visits, i, client) by { LinesReadable(Remaining(visits[0].fields, Forwarded)); }
      ForOnly(visit.hop.peer.value, ClientHost(visit.fields, visit.hop.authority), visit.hop.policy.publicScheme);
    }
  }

  lemma ElementGrows(visits: seq<Visit>, i: nat, client: seq<string>)
    requires Appending(visits) && 0 < i < |visits| && Readable(Element(visits, 0))
    requires forall line | line in client :: Readable(line)
    ensures var line := Join(client + ForwardedElements(visits, i), ", ");
            && Lines([line]) != []
            && LineValues([line], ForValue(visits[i].hop.peer.value)) ==
               [Join(client + ForwardedElements(visits, i + 1), ", ")]
  {
    hide Readable, LineValues, ForValue, Element;
    var entries := client + ForwardedElements(visits, i);
    ElementsReadable(visits, i + 1);
    ElementsReadable(visits, i);
    assert ForwardedElements(visits, i)[0] == Element(visits, 0);
    assert ForwardedElements(visits, i + 1)[i] == Element(visits, i);
    assert Element(visits, i) == ForValue(visits[i].hop.peer.value) by { LaterElement(visits, i); }
    LineGrows(entries, Element(visits, i));
    assert entries + [Element(visits, i)] == client + ForwardedElements(visits, i + 1);
  }

  lemma LaterElement(visits: seq<Visit>, i: nat)
    requires 0 < i < |visits| && visits[i].hop.peer.Some?
    ensures Element(visits, i) == ForValue(visits[i].hop.peer.value)
  {
  }

  // ----- Forwarded, parsed

  /** A later hop adds one element, of one word. */
  lemma ForShape(peer: Peer)
    ensures Readable(ForValue(peer)) && ',' !in ForValue(peer) && Words(ForValue(peer)) == [ForValue(peer)]
  {
    var value := ForValue(peer);
    assert forall i | 0 <= i < |peer.ip| :: peer.ip[i] in peer.ip;
    WordsOfOne(value);
  }

  /** The values of the hops 1 to k. */
  function LaterValues(visits: seq<Visit>, k: nat): seq<string>
    requires k < |visits| && forall i | 0 <= i < |visits| :: visits[i].hop.peer.Some?
  {
    seq(k, i requires 0 <= i < k => ForValue(visits[i + 1].hop.peer.value))
  }

  /** What the first hop makes of the list, whatever it writes. */
  lemma FirstHopElements(visits: seq<Visit>)
    requires Appending(visits) && visits != []
    ensures Chain(Values(Prepared(visits[0].fields, visits[0].hop), Forwarded)) ==
            var before := Chain(Remaining(visits[0].fields, Forwarded));
            if Readable(Element(visits, 0)) then before + WordLists(Split(Element(visits, 0), ','))
            else if ValidValue(Element(visits, 0)) then []
            else before
  {
    hide Prepared, Remaining, LineValues, ForwardedElement, Readable, ValidValue, Chain, WordLists;
    PreparedValues(visits[0].fields, visits[0].hop, Forwarded);
    LineChain(Remaining(visits[0].fields, Forwarded), Element(visits, 0));
  }

  /** A later hop adds exactly one element to whatever it got. */
  lemma LaterHopElements(visits: seq<Visit>, i: nat)
    requires Run(visits) && Appending(visits) && 0 < i < |visits|
    requires Lines(Values(Prepared(visits[i - 1].fields, visits[i - 1].hop), Forwarded)) != []
    ensures Chain(Values(Prepared(visits[i].fields, visits[i].hop), Forwarded)) ==
            Chain(Values(Prepared(visits[i - 1].fields, visits[i - 1].hop), Forwarded))
            + [[ForValue(visits[i].hop.peer.value)]]
  {
    hide Prepared, Remaining, LineValues, ForwardedElement, ForValue, ClientHost, Run, Readable, Chain, Lines;
    var visit := visits[i];
    PreparedValues(visit.fields, visit.hop, Forwarded);
    PreparedValues(visits[i - 1].fields, visits[i - 1].hop, Forwarded);
    ReceivedValues(visits, i, Forwarded);
    RemainingLater(visits, i, Forwarded);
    ForOnly(visit.hop.peer.value, ClientHost(visit.fields, visit.hop.authority), visit.hop.policy.publicScheme);
    ForShape(visit.hop.peer.value);
    LineExtendsChain(Remaining(visit.fields, Forwarded), ForValue(visit.hop.peer.value));
  }

  /**
   Parsed, `Forwarded` is the client's readable elements, then whatever the
   first hop's element parses to, then exactly one element for each later hop.
   */
  lemma {:induction false} ForwardedElementsParsed(visits: seq<Visit>, i: nat)
    requires Run(visits) && Appending(visits) && i < |visits| && Readable(Element(visits, 0))
    ensures Chain(Values(Prepared(visits[i].fields, visits[i].hop), Forwarded)) ==
            Chain(Remaining(visits[0].fields, Forwarded))
            + WordLists(Split(Element(visits, 0), ',')) + Singletons(LaterValues(visits, i))
  {
    hide Prepared, Remaining, Run, Readable, Chain, WordLists, Element;
    if i == 0 {
      FirstHopElements(visits);
    } else {
      ForwardedElementsParsed(visits, i - 1);
      PreviousHasLine(visits, i);
      LaterHopElements(visits, i);
      assert Singletons(LaterValues(visits, i)) ==
             Singletons(LaterValues(visits, i - 1)) + [[ForValue(visits[i].hop.peer.value)]];
    }
  }

  lemma PreviousHasLine(visits: seq<Visit>, i: nat)
    requires Run(visits) && Appending(visits) && 0 < i < |visits| && Readable(Element(visits, 0))
    ensures Lines(Values(Prepared(visits[i - 1].fields, visits[i - 1].hop), Forwarded)) != []
  {
    hide Prepared, Remaining, Run, Readable, Element;
    var entries := Lines(Remaining(visits[0].fields, Forwarded)) + ForwardedElements(visits, i);
    ForwardedLine(visits, i - 1);
    ElementsReadable(visits, i);
    LinesReadable(Remaining(visits[0].fields, Forwarded));
    assert ForwardedElements(visits, i)[i - 1] == Element(visits, i - 1);
    LineGrows(entries, "");
  }

  lemma {:induction false} WordListsLength(elements: seq<string>)
    ensures |WordLists(elements)| == |elements|
  {
    if elements != [] { WordListsLength(elements[1..]); }
  }

  /**
   The list grows by exactly one element a hop exactly if what the first hop
   writes is readable and holds no comma.
   */
  lemma ForwardedGrowsByOne(visits: seq<Visit>)
    requires Run(visits) && Appending(visits) && visits != []
    ensures (forall i | 0 <= i < |visits| ::
               |Chain(Values(Prepared(visits[i].fields, visits[i].hop), Forwarded))| ==
               |Chain(Remaining(visits[0].fields, Forwarded))| + i + 1)
            <==> Readable(Element(visits, 0)) && ',' !in Element(visits, 0)
  {
    hide Prepared, Remaining, Run, Readable, Chain, WordLists, Element, ValidValue;
    var parts := Split(Element(visits, 0), ',');
    FirstHopElements(visits);
    WordListsLength(parts);
    SplitCount(Element(visits, 0), ',');
    if Readable(Element(visits, 0)) {
      forall i | 0 <= i < |visits|
        ensures |Chain(Values(Prepared(visits[i].fields, visits[i].hop), Forwarded))| ==
                |Chain(Remaining(visits[0].fields, Forwarded))| + |parts| + i
      {
        ForwardedElementsParsed(visits, i);
      }
    }
    assert |Chain(Values(Prepared(visits[0].fields, visits[0].hop), Forwarded))| ==
           |Chain(Remaining(visits[0].fields, Forwarded))| + 1
           <==> Readable(Element(visits, 0)) && |parts| == 1;
  }

  predicate CleanText(text: Option<string>) { text.Some? ==> Readable(text.value) && ',' !in text.value }

  /** That is so exactly if the host and the scheme are, where they are written. */
  lemma FirstElementClean(visits: seq<Visit>)
    requires Appending(visits) && visits != []
    ensures Readable(Element(visits, 0)) && ',' !in Element(visits, 0) <==>
            (Lines(Remaining(visits[0].fields, Forwarded)) == [] ==>
               && CleanText(ClientHost(visits[0].fields, visits[0].hop.authority))
               && CleanText(visits[0].hop.policy.publicScheme))
  {
    hide ClientHost, Remaining, Lines, ForValue;
    var first := Lines(Remaining(visits[0].fields, Forwarded)) == [];
    var hop := visits[0].hop;
    var host, scheme := ClientHost(visits[0].fields, hop.authority), hop.policy.publicScheme;
    ForShape(hop.peer.value);
    var hostPart := if first && host.Some? then ";host=\"" + host.value + "\"" else "";
    var schemePart := if first && scheme.Some? then ";proto=" + scheme.value else "";
    CleanConcat(ForValue(hop.peer.value), hostPart);
    CleanConcat(ForValue(hop.peer.value) + hostPart, schemePart);
    if first && host.Some? {
      CleanConcat(";host=\"", host.value);
      CleanConcat(";host=\"" + host.value, "\"");
    }
    if first && scheme.Some? {
      CleanConcat(";proto=", scheme.value);
    }
  }

  lemma CleanConcat(a: string, b: string)
    ensures Readable(a + b) && ',' !in a + b <==> (Readable(a) && ',' !in a) && (Readable(b) && ',' !in b)
  {
    assert forall i | 0 <= i < |a| :: (a + b)[i] == a[i];
    assert forall i | 0 <= i < |b| :: (a + b)[|a| + i] == b[i];
  }

  /** A Host header with a comma in it makes the first hop add two elements. */
  lemma CommaInHost(hop: Hop)
    requires hop.policy.appendForwarded && hop.peer.Some? && hop.policy.publicScheme == None
    ensures |Chain(Values(Prepared(map[Host := ["a,b"]], hop), Forwarded))| == 2
  {
    hide Prepared, Chain, WordLists, ForValue, Nominated, LineValues;
    var client: Fields := map[Host := ["a,b"]];
    var element := ForValue(hop.peer.value) + ";host=\"a,b\"";
    var before, after := ForValue(hop.peer.value) + ";host=\"a", "b\"";
    assert Remaining(client, Forwarded) == [] && Lines([]) == [];
    assert ClientHost(client, hop.authority) == Some("a,b");
    assert element == before + [','] + after;
    ForShape(hop.peer.value);
    CleanConcat(ForValue(hop.peer.value), ";host=\"a");
    assert Readable(element);
    assert ForwardedElement(true, hop.peer.value, Some("a,b"), None) == element;
    PreparedValues(client, hop, Forwarded);
    LineChain([], element);
    SplitAcross(before, after, ',');
    SplitWhole(before, ',');
    SplitWhole(after, ',');
    WordListsLength(Split(element, ','));
    EmptyChain();
  }

  lemma EmptyChain()
    ensures Chain([]) == []
  {
  }
}
