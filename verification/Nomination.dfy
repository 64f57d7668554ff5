/**
 What a `Connection` header nominates, which `te` survives, and what a
 WebSocket check recognises, said of the text of the header lines: where an
 element stands between commas, the blanks around it, and its letter case.
 */
module Nomination {
  import opened Basics
  import opened Text
  import opened HeaderMaps
  import opened Forward
  import opened Filtering
  import opened ListElements
  import WebSocket

  /** The text is a token that spells the name in some letter case. */
  predicate SpellsName(t: string, n: Name) { NameToken(t) && SameButCase(t, TextOf(n)) }

  lemma ParsesIff(t: string, n: Name)
    requires Canonical(n)
    ensures ParseName(t) == Some(n) <==> SpellsName(t, n)
  {
    hide ParseName, NameToken, SameButCase, TextOf, Lower;
    ParsesTo(t, n);
    EqualLower(t, TextOf(n));
    IgnoringCase(t, TextOf(n));
  }

  lemma EqualLower(a: string, b: string)
    ensures EqIgnoreCase(a, b) <==> Lower(a) == Lower(b)
  {
  }

  /** A name is nominated exactly if a readable Connection line holds an element that spells it. */
  lemma NominatedIff(h: Fields, n: Name)
    requires Canonical(n)
    ensures Nominated(h, n) <==> exists t :: HasElement(Values(h, Connection), t) && SpellsName(t, n)
  {
    hide ParseName, SpellsName, HasElement, Elements, Trim, Canonical;
    var values := Values(h, Connection);
    if Nominated(h, n) {
      var e :| e in Elements(values) && ParseName(Trim(e)) == Some(n);
      HasElementIff(values, Trim(e));
      ParsesIff(Trim(e), n);
    }
    if t :| HasElement(values, t) && SpellsName(t, n) {
      HasElementIff(values, t);
      var e :| e in Elements(values) && Trim(e) == t;
      ParsesIff(t, n);
      assert Names(Elements(values), n);
    }
  }

  lemma ListedLine(values: seq<string>, line: string, pre: string, a: string, t: string, b: string, post: string)
    requires line in values && Readable(line) && Placed(line, pre, a, t, b, post)
    ensures HasElement(values, t)
  {
    hide Readable, Placed;
    assert Holds(line, t);
  }

  lemma TokenEdged(t: string)
    requires NameToken(t)
    ensures Edged(t) && ',' !in t
  {
    assert t[0] in t && t[|t| - 1] in t;
  }

  /**
   A header that Connection names, anywhere among its elements, with any blanks
   around the name and in any letter case, does not reach the upstream.
   */
  lemma NamedIsGone(client: Fields, hop: Hop, n: Name, line: string,
                    pre: string, a: string, t: string, b: string, post: string)
    requires line in Values(client, Connection) && Readable(line)
    requires line == pre + a + t + b + post && Bounded(pre, post) && AllBlank(a) && AllBlank(b)
    requires Canonical(n) && SpellsName(t, n)
    requires n !in MANAGED && n != Connection && n != Upgrade
    ensures !Has(Prepared(client, hop), n)
  {
    hide Readable, AllBlank, NameToken, Edged, SameButCase, TextOf, Nominated, Prepared, HasElement, Canonical;
    TokenEdged(t);
    ListedLine(Values(client, Connection), line, pre, a, t, b, post);
    NominatedIff(client, n);
    NominatedGone(client, hop, n);
  }

  /** An element with a blank inside nominates nothing. */
  lemma InnerBlank(t: string, i: nat)
    requires i < |t| && Blank(t[i])
    ensures ParseName(t) == None
  {
    hide NameOf, Lower;
    assert t[i] in t;
    TokenCharacters(t[i]);
  }

  /** For instance. */
  lemma CloseAndInternal(client: Fields, hop: Hop)
    requires Values(client, Connection) == ["close, x-internal"]
    ensures !Has(Prepared(client, hop), Other("x-internal"))
  {
    hide Prepared, Nominated;
    var n, t := Other("x-internal"), "x-internal";
    assert "close, x-internal" == "close," + " " + t + "" + "";
    SpellsItself(n);
    assert Readable("close, x-internal");
    NamedIsGone(client, hop, n, "close, x-internal", "close,", " ", t, "", "");
  }

  lemma NotSpecial(n: Name, text: string)
    requires !n.Other? && text == "x-internal"
    ensures TextOf(n) != text
  {
    assert text[0] == 'x' && |text| == 10;
  }

  lemma SpellsItself(n: Name)
    requires n == Other("x-internal")
    ensures Canonical(n) && SpellsName("x-internal", n)
  {
    hide NameToken;
    var text := "x-internal";
    SmallToken(text);
    assert TextOf(n) == text by { OtherText(text); }
    OrdinaryName(n, text);
  }

  lemma OrdinaryName(n: Name, text: string)
    requires n == Other(text) && text == "x-internal"
    ensures Canonical(n)
  {
    hide TextOf, Lower;
    SpellingsHold();
    forall i | 0 <= i < |SPELLINGS| ensures SPELLINGS[i].0 != text { NotSpecial(SPELLINGS[i].1, text); }
    LowerSmall(text);
  }

  lemma SmallToken(s: string)
    requires 0 < |s| <= 65535 && forall c | c in s :: 'a' <= c <= 'z' || c == '-'
    ensures NameToken(s)
  {
    hide TokenChar;
    forall c | c in s ensures c !in "\"(),/:;<=>?@[\\]{}" {
      TokenCharacters(c);
      assert TokenChar(c) by { SmallTokenChar(c); }
    }
  }

  lemma SmallTokenChar(c: char)
    requires 'a' <= c <= 'z' || c == '-'
    ensures TokenChar(c)
  {
  }

  lemma LowerSmall(s: string)
    requires forall c | c in s :: 'a' <= c <= 'z' || c == '-'
    ensures Lower(s) == s
  {
    assert forall i | 0 <= i < |s| :: s[i] in s;
  }

  // ----- the standard names and te

  /** The hop-by-hop names by their text. */
  lemma StandardNames(n: Name)
    requires Canonical(n)
    ensures n in HOP_BY_HOP_HEADERS <==>
            TextOf(n) in {"connection", "keep-alive", "proxy-connection", "transfer-encoding", "te", "trailer",
                          "upgrade"}
  {
    forall m: Name | !m.Other? ensures n.Other? ==> n.text != TextOf(m) { SpecialIsSpelled(m); }
    assert TextOf(Connection) == "connection" && TextOf(KeepAlive) == "keep-alive" && TextOf(Te) == "te";
    assert TextOf(ProxyConnection) == "proxy-connection" && TextOf(TransferEncoding) == "transfer-encoding";
    assert TextOf(Trailer) == "trailer" && TextOf(Upgrade) == "upgrade";
  }

  /** `te` is kept exactly if its first value is the word `trailers`, in any letter case, with any blanks around it. */
  lemma KeepsTeIff(h: Fields)
    ensures KeepsTe(h) <==>
            exists a, t, b, rest ::
              Values(h, Te) == [a + t + b] + rest
              && AllBlank(a) && AllBlank(b) && SameButCase(t, "trailers") && Readable(a + t + b)
  {
    hide Trim, AllBlank, Readable, SameButCase;
    if KeepsTe(h) {
      var v := Values(h, Te)[0];
      var a, b := TrimShape(v);
      IgnoringCase(Trim(v), "trailers");
      assert Values(h, Te) == [a + Trim(v) + b] + Values(h, Te)[1..];
    }
    if a, t, b, rest :| Values(h, Te) == [a + t + b] + rest && AllBlank(a) && AllBlank(b) && SameButCase(t, "trailers")
                        && Readable(a + t + b) {
      assert Values(h, Te)[0] == a + t + b;
      TrailersEdged(t);
      TrimPadded(a, t, b);
      IgnoringCase(t, "trailers");
    }
  }

  lemma TrailersEdged(t: string)
    requires SameButCase(t, "trailers")
    ensures Edged(t)
  {
    assert SameLetter(t[0], "trailers"[0]) && SameLetter(t[7], "trailers"[7]);
  }

  // ----- WebSocket

  /** A token is recognised exactly if some element of the header is it, in any letter case. */
  lemma TokenIff(h: Fields, n: Name, wanted: string)
    ensures WebSocket.Token(h, n, wanted) <==> exists t :: HasElement(Values(h, n), t) && SameButCase(t, wanted)
  {
    hide HasElement, Elements, Trim, SameButCase, EqIgnoreCase;
    var values := Values(h, n);
    if WebSocket.Token(h, n, wanted) {
      var e :| e in Elements(values) && EqIgnoreCase(Trim(e), wanted);
      HasElementIff(values, Trim(e));
      IgnoringCase(Trim(e), wanted);
    }
    if t :| HasElement(values, t) && SameButCase(t, wanted) {
      HasElementIff(values, t);
      var e :| e in Elements(values) && Trim(e) == t;
      IgnoringCase(t, wanted);
      assert EqIgnoreCase(Trim(e), wanted);
    }
  }

  /** A subprotocol was offered exactly if it is an element of the request's list, letter for letter. */
  lemma OfferedIff(request: Fields, protocol: string)
    ensures WebSocket.Offered(request, protocol) <==> HasElement(Values(request, WsProtocol), protocol)
  {
    hide HasElement, Elements, Trim;
    HasElementIff(Values(request, WsProtocol), protocol);
  }

  ghost predicate HasToken(h: Fields, n: Name, wanted: string) {
    exists t :: HasElement(Values(h, n), t) && SameButCase(t, wanted)
  }

  /** What makes a request an upgrade request. */
  lemma UpgradeIff(h: Fields)
    ensures WebSocket.IsUpgrade(h) <==>
            && HasToken(h, Connection, "upgrade") && HasToken(h, Upgrade, "websocket")
            && Values(h, WsKey) != [] && Values(h, WsVersion) != []
  {
    hide HasElement, WebSocket.Token, SameButCase;
    TokenIff(h, Connection, "upgrade");
    TokenIff(h, Upgrade, "websocket");
  }

  /** What makes a 101 an answer to it; a subprotocol that was not offered never does. */
  lemma ValidIff(response: Fields, request: Fields, derive: string -> string)
    ensures WebSocket.ValidResponse(response, request, derive) <==>
            && HasToken(response, Connection, "upgrade") && HasToken(response, Upgrade, "websocket")
            && Values(request, WsKey) != [] && Values(response, WsAccept) != []
            && Values(response, WsAccept)[0] == derive(Values(request, WsKey)[0])
            && (Values(response, WsProtocol) != [] ==>
                  && Readable(Values(response, WsProtocol)[0])
                  && HasElement(Values(request, WsProtocol), Values(response, WsProtocol)[0]))
  {
    hide HasElement, WebSocket.Token, WebSocket.Offered, Readable, SameButCase;
    TokenIff(response, Connection, "upgrade");
    TokenIff(response, Upgrade, "websocket");
    if Values(response, WsProtocol) != [] { OfferedIff(request, Values(response, WsProtocol)[0]); }
  }

  /** A browser's `Connection: keep-alive, Upgrade` is an upgrade token. */
  lemma KeepAliveUpgrade(h: Fields)
    requires Values(h, Connection) == ["keep-alive, Upgrade"]
    ensures HasToken(h, Connection, "upgrade")
  {
    var line := "keep-alive, Upgrade";
    assert line == "keep-alive," + " " + "Upgrade" + "" + "";
    assert Readable(line);
    ListedLine(Values(h, Connection), line, "keep-alive,", " ", "Upgrade", "", "");
    assert SameButCase("Upgrade", "upgrade");
  }
}
