/** What a client is answered, and what becomes of a response on its way back through any number of proxies. */
module Answers {
  import opened Basics
  import opened Text
  import opened HeaderMaps
  import opened Forward
  import opened Filtering
  import opened Network
  import opened ListHeaders
  import opened ViaLoops
  import opened Handshake
  import WebSocket

  // ----- one proxy

  /** When a request is refused, and with what. */
  lemma RefusalIff(client: Fields, connect: bool, policy: Policy)
    ensures Refusal(client, connect, policy) == Some(501) <==> connect
    ensures Refusal(client, connect, policy) == Some(508) <==>
            !connect && policy.via.Some? && Listed(Values(client, Via), policy.via.value)
    ensures Refusal(client, connect, policy) == Some(413) <==>
            && !connect && !(policy.via.Some? && Listed(Values(client, Via), policy.via.value))
            && policy.maxRequestBody.Some? && DeclaresMoreThan(client, policy.maxRequestBody.value)
    ensures Refusal(client, connect, policy).Some? ==> Refusal(client, connect, policy).value in {501, 508, 413}
  {
    hide ViaContains, Listed, DeclaresMoreThan;
    if policy.via.Some? { ContainsByChain(client, policy.via.value); }
  }

  /** The upstream's 101 can be passed on. */
  predicate Upgrades(client: Fields, outcome: Outcome, derive: string -> string) {
    && outcome.Answered? && outcome.response.status == 101
    && WebSocket.IsUpgrade(client) && WebSocket.ValidResponse(outcome.response.headers, client, derive)
  }

  /**
   A response is passed on with its status and version and without an error,
   unless it is a 101 that is not valid for an upgrade request of the client;
   that and every failure is a 502, no response in time a 504. Only a failure to
   connect is marked as one.
   */
  lemma AnswerIff(client: Fields, policy: Policy, outcome: Outcome, derive: string -> string)
    ensures var got := Answer(client, policy, outcome, derive);
            && (got.status == 101 <==> Upgrades(client, outcome, derive))
            && (outcome.Answered? && (outcome.response.status != 101 || Upgrades(client, outcome, derive)) ==>
                  got.status == outcome.response.status && got.version == outcome.response.version && got.error == None)
            && (outcome.Answered? && outcome.response.status == 101 && !Upgrades(client, outcome, derive) ==>
                  got.status == 502 && got.error == Some(ProxyError(false)) && got.headers == map[])
            && (outcome.Failed? ==>
                  got.status == 502 && got.error == Some(ProxyError(outcome.isConnect)) && got.headers == map[])
            && (outcome.TimedOut? ==>
                  got.status == 504 && got.error == Some(ProxyError(false)) && got.headers == map[])
  {
    hide WebSocket.IsUpgrade, WebSocket.ValidResponse, ReturnedFields;
  }

  // ----- any number of proxies

  /** A response that has passed a proxy is not stripped of anything but hop-by-hop names by the next. */
  lemma RemainingAgain(response: Response, via: Option<string>, n: Name)
    requires response.status != 101 && n != Via
    ensures Remaining(ReturnedFields(response, via), n) == Remaining(response.headers, n)
  {
    hide ReturnedFields, Nominated, KeepsTe;
    var returned := ReturnedFields(response, via);
    ReturnedValues(response, via, Connection);
    ReturnedValues(response, via, n);
    ReturnedValues(response, via, Te);
    NominatesUpgradeOnly(returned, n);
    if Stripped(response.headers, n) {
      assert Values(returned, n) == [];
    } else {
      if n == Te { SameTe(response.headers, returned); }
    }
  }

  lemma SameTe(a: Fields, b: Fields)
    requires Values(a, Te) == Values(b, Te)
    ensures KeepsTe(a) <==> KeepsTe(b)
  {
  }

  /**
   Whatever the proxies are, a response other than a 101 reaches every client
   with the upstream's status and version and without an error, and every name
   but Via has the value list that the upstream gave it, or, if the upstream's
   response strips it, none.
   */
  lemma {:induction false} ResponseReaches(visits: seq<Visit>, i: nat, response: Response, derive: string -> string,
                                           n: Name)
    requires i < |visits| && response.status != 101 && n != Via
    ensures var got := AnswerAt(visits, i, response, derive);
            && got.status == response.status && got.version == response.version && got.error == None
            && Values(got.headers, n) == Remaining(response.headers, n)
            && Remaining(got.headers, n) == Remaining(response.headers, n)
    decreases |visits| - i
  {
    hide Answer, ReturnedFields, Stripped;
    var received := AnswerAt(visits, i + 1, response, derive);
    if i + 1 < |visits| { ResponseReaches(visits, i + 1, response, derive, n); }
    var via := visits[i].hop.policy.via;
    AnswerIff(visits[i].fields, visits[i].hop.policy, Answered(received), derive);
    AnswerHeaders(visits[i].fields, visits[i].hop.policy, received, derive);
    ReturnedValues(received, via, n);
    ReturnedRest(received, via, n);
    RemainingAgain(received, via, n);
  }

  lemma AnswerHeaders(client: Fields, policy: Policy, response: Response, derive: string -> string)
    requires response.status != 101
    ensures Answer(client, policy, Answered(response), derive).headers == ReturnedFields(response, policy.via)
  {
    hide ReturnedFields;
  }

  lemma ReturnedRest(response: Response, via: Option<string>, n: Name)
    requires response.status != 101 && n != Via
    ensures Values(ReturnedFields(response, via), n) == Remaining(response.headers, n)
  {
    hide ReturnedFields, Nominated, KeepsTe;
    ReturnedValues(response, via, n);
  }

  /** The elements that the proxies add to the response's Via, nearest to the upstream first. */
  function ReturnRecords(visits: seq<Visit>, i: nat, version: Version): seq<seq<string>>
    requires i <= |visits|
    decreases |visits| - i
  {
    if i == |visits| then []
    else
      ReturnRecords(visits, i + 1, version)
      + (if visits[i].hop.policy.via.Some? then [[ViaProtocol(version), visits[i].hop.policy.via.value]] else [])
  }

  /** And its Via chain records the way back. */
  lemma {:induction false} ReturnRecorded(visits: seq<Visit>, i: nat, response: Response, derive: string -> string)
    requires i < |visits| && response.status != 101 && AllDetectable(visits)
    ensures var got := AnswerAt(visits, i, response, derive);
            && Chain(Values(got.headers, Via)) ==
               Chain(Remaining(response.headers, Via)) + ReturnRecords(visits, i, response.version)
            && Remaining(got.headers, Via) == Values(got.headers, Via)
    decreases |visits| - i
  {
    hide Answer, ReturnedFields, Stripped, Chain, ViaProtocol, LineValues, Words;
    var received := AnswerAt(visits, i + 1, response, derive);
    var via := visits[i].hop.policy.via;
    if i + 1 < |visits| {
      ReturnRecorded(visits, i + 1, response, derive);
      ResponseReaches(visits, i + 1, response, derive, Connection);
    }
    AnswerHeaders(visits[i].fields, visits[i].hop.policy, received, derive);
    ReturnedValues(received, via, Via);
    if via.Some? {
      OwnElementShape(received.version, via.value);
      LineExtendsChain(Remaining(received.headers, Via), OwnElement(received.version, via.value));
    }
    ViaStays(received, via);
  }

  lemma ViaStays(response: Response, via: Option<string>)
    requires response.status != 101
    ensures Remaining(ReturnedFields(response, via), Via) == Values(ReturnedFields(response, via), Via)
  {
    hide ReturnedFields, Nominated, KeepsTe;
    ReturnedValues(response, via, Connection);
    NominatesUpgradeOnly(ReturnedFields(response, via), Via);
  }
}
