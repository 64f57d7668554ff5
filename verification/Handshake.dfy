/** A WebSocket handshake through any number of proxies, there and back. */
module Handshake {
  import opened Basics
  import opened Text
  import opened HeaderMaps
  import opened Forward
  import opened Filtering
  import opened Network
  import opened WebSocket

  // ----- the pair that a proxy writes

  lemma OneWordToken(h: Fields, n: Name, word: string)
    requires Values(h, n) == [word]
    requires word != "" && forall c | c in word :: Visible(c) && c != ','
    ensures Token(h, n, word)
  {
    assert Visible(word[0]) && Visible(word[|word| - 1]);
    assert TrimStart(word) == word && TrimEnd(word) == word;
    SplitWhole(word, ',');
    assert Elements([word][1..]) == [];
    assert forall i | 0 <= i < |word| :: word[i] in word;
    assert Elements([word]) == [word];
    assert word in Elements(Values(h, n)) && EqIgnoreCase(Trim(word), word);
  }

  lemma UpgradePair(h: Fields)
    requires Values(h, Connection) == ["upgrade"] && Values(h, Upgrade) == ["websocket"]
    ensures Token(h, Connection, "upgrade") && Token(h, Upgrade, "websocket")
  {
    hide Token;
    OneWordToken(h, Connection, "upgrade");
    OneWordToken(h, Upgrade, "websocket");
  }

  // ----- the request

  /** One hop keeps an upgrade request one exactly if the client does not nominate its key or version. */
  lemma UpgradeSurvivesHop(client: Fields, hop: Hop)
    requires IsUpgrade(client)
    ensures IsUpgrade(Prepared(client, hop)) <==> !Nominated(client, WsKey) && !Nominated(client, WsVersion)
  {
    hide Prepared, Nominated, Token;
    PreparedValues(client, hop, Connection);
    PreparedValues(client, hop, Upgrade);
    PreparedValues(client, hop, WsKey);
    PreparedValues(client, hop, WsVersion);
    UpgradePair(Prepared(client, hop));
  }

  lemma SameUpgrade(a: Fields, b: Fields)
    requires forall n | n in {Connection, Upgrade, WsKey, WsVersion} :: Values(a, n) == Values(b, n)
    ensures IsUpgrade(a) <==> IsUpgrade(b)
  {
    assert Values(a, Connection) == Values(b, Connection) && Values(a, Upgrade) == Values(b, Upgrade);
    assert Values(a, WsKey) == Values(b, WsKey) && Values(a, WsVersion) == Values(b, WsVersion);
  }

  /** The request that a later stage received asks for the same thing: same key, no new subprotocols. */
  ghost predicate SameRequest(earlier: Fields, later: Fields) {
    && IsUpgrade(earlier) && IsUpgrade(later)
    && Values(later, WsKey) == Values(earlier, WsKey)
    && (Values(later, WsProtocol) == Values(earlier, WsProtocol) || Values(later, WsProtocol) == [])
  }

  lemma HopKeepsRequest(client: Fields, hop: Hop, received: Fields)
    requires IsUpgrade(client) && !Nominated(client, WsKey) && !Nominated(client, WsVersion)
    requires Carried(Prepared(client, hop), received)
    ensures SameRequest(client, received)
  {
    hide Prepared, Nominated, Token;
    UpgradeSurvivesHop(client, hop);
    PreparedValues(client, hop, WsKey);
    PreparedValues(client, hop, WsProtocol);
    SameUpgrade(Prepared(client, hop), received);
  }

  /** Every visit of the run receives an upgrade request. */
  lemma {:induction false} EveryVisitUpgrades(visits: seq<Visit>, i: nat)
    requires Run(visits) && i < |visits| && IsUpgrade(visits[0].fields)
    requires !Nominated(visits[0].fields, WsKey) && !Nominated(visits[0].fields, WsVersion)
    ensures IsUpgrade(visits[i].fields)
    ensures !Nominated(visits[i].fields, WsKey) && !Nominated(visits[i].fields, WsVersion)
  {
    hide Prepared, Nominated, IsUpgrade;
    if i > 0 {
      EveryVisitUpgrades(visits, i - 1);
      HopKeepsRequest(visits[i - 1].fields, visits[i - 1].hop, visits[i].fields);
      NothingNominated(visits, i, WsKey);
      NothingNominated(visits, i, WsVersion);
    }
  }

  // ----- the response

  /** A response that answers the later request answers the earlier one. */
  lemma ValidForEarlier(response: Fields, earlier: Fields, later: Fields, derive: string -> string)
    requires SameRequest(earlier, later) && ValidResponse(response, later, derive)
    ensures ValidResponse(response, earlier, derive)
  {
    hide Token, IsUpgrade;
    if Has(response, WsProtocol) {
      var selected := First(response, WsProtocol).value;
      assert Offered(later, selected);
      if Values(later, WsProtocol) == [] {
        assert false by { NothingOffered(later, selected); }
      }
    }
  }

  lemma NothingOffered(request: Fields, protocol: string)
    requires Values(request, WsProtocol) == []
    ensures !Offered(request, protocol)
  {
  }

  /** On its way back a valid 101 stays valid exactly if it does not nominate its accept value. */
  lemma ReturnedStaysValid(response: Response, request: Fields, via: Option<string>, derive: string -> string)
    requires response.status == SWITCHING_PROTOCOLS && ValidResponse(response.headers, request, derive)
    ensures ValidResponse(ReturnedFields(response, via), request, derive) <==> !Nominated(response.headers, WsAccept)
  {
    hide ReturnedFields, Nominated, Token, Offered, Readable;
    var returned := ReturnedFields(response, via);
    ReturnedValues(response, via, Connection);
    ReturnedValues(response, via, Upgrade);
    ReturnedValues(response, via, WsAccept);
    ReturnedValues(response, via, WsProtocol);
    UpgradePair(returned);
  }

  /** What the client of visit `i` gets when the upstream of the last visit answers `response`. */
  function AnswerAt(visits: seq<Visit>, i: nat, response: Response, derive: string -> string): Response
    requires i <= |visits|
    decreases |visits| - i
  {
    if i == |visits| then response
    else Answer(visits[i].fields, visits[i].hop.policy, Answered(AnswerAt(visits, i + 1, response, derive)), derive)
  }

  ghost predicate Accepted(response: Response, request: Fields, derive: string -> string) {
    && response.status == SWITCHING_PROTOCOLS
    && ValidResponse(response.headers, request, derive)
    && !Nominated(response.headers, WsAccept)
  }

  /** One proxy passes an accepted handshake on to its client. */
  lemma HopAccepts(visit: Visit, later: Fields, response: Response, derive: string -> string)
    requires SameRequest(visit.fields, later) && Accepted(response, later, derive)
    ensures Accepted(Answer(visit.fields, visit.hop.policy, Answered(response), derive), visit.fields, derive)
  {
    hide ValidResponse, ReturnedFields, Nominated, Token;
    ValidForEarlier(response.headers, visit.fields, later, derive);
    ReturnedStaysValid(response, visit.fields, visit.hop.policy.via, derive);
    var returned := ReturnedFields(response, visit.hop.policy.via);
    ReturnedValues(response, visit.hop.policy.via, Connection);
    NominatesUpgradeOnly(returned, WsAccept);
  }

  /**
   If the last upstream's 101 is valid for the request it received, every
   proxy of the chain accepts it and every client, the first one included,
   gets a 101 valid for its own request.
   */
  lemma {:induction false} HandshakeSurvives(visits: seq<Visit>, upstream: Fields, response: Response,
                                             derive: string -> string, i: nat)
    requires Run(visits) && i < |visits|
    requires Carried(Prepared(visits[|visits| - 1].fields, visits[|visits| - 1].hop), upstream)
    requires IsUpgrade(visits[0].fields)
    requires !Nominated(visits[0].fields, WsKey) && !Nominated(visits[0].fields, WsVersion)
    requires Accepted(response, upstream, derive)
    ensures Accepted(AnswerAt(visits, i, response, derive), visits[i].fields, derive)
    decreases |visits| - i
  {
    hide Prepared, Nominated, IsUpgrade, Answer, ValidResponse, Accepted;
    var later := if i + 1 < |visits| then visits[i + 1].fields else upstream;
    EveryVisitUpgrades(visits, i);
    HopKeepsRequest(visits[i].fields, visits[i].hop, later);
    if i + 1 < |visits| {
      HandshakeSurvives(visits, upstream, response, derive, i + 1);
    }
    HopAccepts(visits[i], later, AnswerAt(visits, i + 1, response, derive), derive);
  }

  // ----- such handshakes exist

  /** The smallest upgrade request, and the smallest answer to a key. */
  function AskUpgrade(key: string): Fields { WithUpgrade(map[WsKey := [key], WsVersion := ["13"]]) }

  function GrantUpgrade(accept: string): Response {
    Response(SWITCHING_PROTOCOLS, Http11, WithUpgrade(map[WsAccept := [accept]]), None)
  }

  /** Every upgrade request has an acceptable answer. */
  lemma AnswerExists(request: Fields, derive: string -> string)
    requires IsUpgrade(request)
    ensures Accepted(GrantUpgrade(derive(First(request, WsKey).value)), request, derive)
  {
    hide Nominated, Token;
    var headers := GrantUpgrade(derive(First(request, WsKey).value)).headers;
    UpgradePair(headers);
    NominatesUpgradeOnly(headers, WsAccept);
  }

  /** No proxy refuses the smallest request, and all that a surviving handshake requires can be had. */
  lemma HandshakeExists(key: string, hop: Hop, derive: string -> string)
    ensures var visit := Visit(AskUpgrade(key), hop);
            var upstream := Prepared(visit.fields, hop);
            && Run([visit]) && IsUpgrade(visit.fields)
            && !Nominated(visit.fields, WsKey) && !Nominated(visit.fields, WsVersion)
            && Carried(upstream, upstream)
            && Accepted(GrantUpgrade(derive(key)), upstream, derive)
  {
    hide Prepared, Nominated, Token, Accepted, GrantUpgrade;
    var client := AskUpgrade(key);
    UpgradePair(client);
    NominatesUpgradeOnly(client, WsKey);
    NominatesUpgradeOnly(client, WsVersion);
    assert Values(client, Via) == [] && !Has(client, ContentLength);
    NoElements();
    UpgradeSurvivesHop(client, hop);
    PreparedValues(client, hop, WsKey);
    assert Values(client, WsKey) == [key];
    AnswerExists(Prepared(client, hop), derive);
  }
}
