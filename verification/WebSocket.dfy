/** Recognising and checking WebSocket upgrades. */
module WebSocket {
  import opened Basics
  import opened Text
  import opened HeaderMaps

  /** Some element of the comma-separated header `n` is `wanted`. */
  predicate Token(h: Fields, n: Name, wanted: string) {
    exists e | e in Elements(Values(h, n)) :: EqIgnoreCase(Trim(e), wanted)
  }

  predicate IsUpgrade(h: Fields) {
    && Token(h, Connection, "upgrade")
    && Token(h, Upgrade, "websocket")
    && Has(h, WsKey)
    && Has(h, WsVersion)
  }

  function WithUpgrade(h: Fields): Fields {
    Inserted(Inserted(h, Connection, "upgrade"), Upgrade, "websocket")
  }

  method UpgradeHeaders(headers: HeaderMap)
    requires headers.Valid()
    modifies headers
    ensures headers.Valid()
    ensures headers.fields == WithUpgrade(old(headers.fields))
  {
    headers.Insert(Connection, "upgrade");
    headers.Insert(Upgrade, "websocket");
  }

  predicate Offered(request: Fields, protocol: string) {
    exists e | e in Elements(Values(request, WsProtocol)) :: Trim(e) == protocol
  }

  /** A 101 answers `request`; `derive` maps a key to its accept value. */
  predicate ValidResponse(response: Fields, request: Fields, derive: string -> string) {
    && First(request, WsKey).Some?
    && Token(response, Connection, "upgrade")
    && Token(response, Upgrade, "websocket")
    && First(response, WsAccept) == Some(derive(First(request, WsKey).value))
    && match First(response, WsProtocol) {
         case None => true
         case Some(selected) => Readable(selected) && Offered(request, selected)
       }
  }
}
