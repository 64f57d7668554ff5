/**
 Header multimaps. The values of one name keep their order, and no name is
 listed without a value. `Fields` is the value of such a map and `HeaderMap`
 the object the proxy updates in place.
 */
module HeaderMaps {
  import opened Basics
  import opened Text

  /** A header name: one the proxy treats specially, or any other one in lower case. */
  datatype Name =
    | Connection | KeepAlive | ProxyConnection | TransferEncoding | Te | Trailer | Upgrade
    | Host | Via | Forwarded | XForwardedFor | XForwardedHost | XForwardedProto | ContentLength
    | WsKey | WsVersion | WsAccept | WsProtocol
    | Other(text: string)

  const SPELLINGS: seq<(string, Name)> := [
    ("upgrade", Upgrade), ("connection", Connection), ("keep-alive", KeepAlive), ("proxy-connection", ProxyConnection),
    ("transfer-encoding", TransferEncoding), ("te", Te), ("trailer", Trailer),
    ("host", Host), ("via", Via), ("forwarded", Forwarded), ("x-forwarded-for", XForwardedFor),
    ("x-forwarded-host", XForwardedHost), ("x-forwarded-proto", XForwardedProto), ("content-length", ContentLength),
    ("sec-websocket-key", WsKey), ("sec-websocket-version", WsVersion), ("sec-websocket-accept", WsAccept),
    ("sec-websocket-protocol", WsProtocol)]

  function NameOf(s: string, spellings: seq<(string, Name)>): Name {
    if spellings == [] then Other(s)
    else if spellings[0].0 == s then spellings[0].1
    else NameOf(s, spellings[1..])
  }

  type Fields = map<Name, seq<string>>

  /** No name is listed without a value. */
  ghost predicate NoEmptyLists(h: Fields) { forall n | n in h :: h[n] != [] }

  const MAX_NAME_LENGTH := 65535

  predicate TokenChar(c: char) {
    'a' <= c <= 'z' || 'A' <= c <= 'Z' || '0' <= c <= '9' || c in "!#$%&'*+-.^_`|~"
  }

  /** `HeaderName::try_from`: a token, compared without regard to case. */
  function ParseName(s: string): Option<Name> {
    if 0 < |s| <= MAX_NAME_LENGTH && forall c | c in s :: TokenChar(c) then Some(NameOf(Lower(s), SPELLINGS)) else None
  }

  /** How a name is written, in lower case. */
  function TextOf(n: Name): string {
    match n
    case Connection => "connection"
    case KeepAlive => "keep-alive"
    case ProxyConnection => "proxy-connection"
    case TransferEncoding => "transfer-encoding"
    case Te => "te"
    case Trailer => "trailer"
    case Upgrade => "upgrade"
    case Host => "host"
    case Via => "via"
    case Forwarded => "forwarded"
    case XForwardedFor => "x-forwarded-for"
    case XForwardedHost => "x-forwarded-host"
    case XForwardedProto => "x-forwarded-proto"
    case ContentLength => "content-length"
    case WsKey => "sec-websocket-key"
    case WsVersion => "sec-websocket-version"
    case WsAccept => "sec-websocket-accept"
    case WsProtocol => "sec-websocket-protocol"
    case Other(text) => text
  }

  /** Every name has one representation: no special name is spelled as another one, and no capitals are. */
  predicate Canonical(n: Name) {
    n.Other? ==> Lower(n.text) == n.text && forall i | 0 <= i < |SPELLINGS| :: SPELLINGS[i].0 != n.text
  }

  lemma {:induction false} NameOfText(s: string, spellings: seq<(string, Name)>)
    requires forall i | 0 <= i < |spellings| :: spellings[i].0 == TextOf(spellings[i].1) && !spellings[i].1.Other?
    ensures TextOf(NameOf(s, spellings)) == s
    ensures NameOf(s, spellings).Other? <==> forall i | 0 <= i < |spellings| :: spellings[i].0 != s
  {
    hide TextOf;
    if spellings == [] {
      assert TextOf(Other(s)) == s by { OtherText(s); }
    } else if spellings[0].0 != s {
      NameOfText(s, spellings[1..]);
      assert forall i | 1 <= i < |spellings| :: spellings[i] == spellings[1..][i - 1];
    }
  }

  lemma OtherText(s: string)
    ensures TextOf(Other(s)) == s
  {
  }

  lemma SpellingsHold()
    ensures forall i | 0 <= i < |SPELLINGS| :: SPELLINGS[i].0 == TextOf(SPELLINGS[i].1) && !SPELLINGS[i].1.Other?
  {
  }

  /** Different special names are written differently. */
  lemma TextOfSpecial(m: Name, n: Name)
    requires !m.Other? && !n.Other? && TextOf(m) == TextOf(n)
    ensures m == n
  {
    var s := TextOf(n);
    assert |TextOf(m)| == |s| && (s != "" ==> TextOf(m)[0] == s[0]);
    assert |s| > 5 ==> TextOf(m)[|s| - 1] == s[|s| - 1] && TextOf(m)[|s| - 2] == s[|s| - 2];
  }

  lemma SpecialIsSpelled(n: Name)
    requires !n.Other?
    ensures exists i | 0 <= i < |SPELLINGS| :: SPELLINGS[i].0 == TextOf(n)
  {
    var i := match n
             case Upgrade => 0
             case Connection => 1
             case KeepAlive => 2
             case ProxyConnection => 3
             case TransferEncoding => 4
             case Te => 5
             case Trailer => 6
             case Host => 7
             case Via => 8
             case Forwarded => 9
             case XForwardedFor => 10
             case XForwardedHost => 11
             case XForwardedProto => 12
             case ContentLength => 13
             case WsKey => 14
             case WsVersion => 15
             case WsAccept => 16
             case _ => 17;
    assert SPELLINGS[i].0 == TextOf(n);
  }

  /** A token of section 5.6.2 of RFC 9110: any visible character except the delimiters. */
  predicate NameToken(s: string) {
    0 < |s| <= 65535 && forall c | c in s :: 33 <= c as int <= 126 && c !in "\"(),/:;<=>?@[\\]{}"
  }

  lemma TokenCharacters(c: char)
    ensures TokenChar(c) <==> 33 <= c as int <= 126 && c !in "\"(),/:;<=>?@[\\]{}"
  {
  }

  lemma LowerTwice(s: string)
    ensures Lower(Lower(s)) == Lower(s)
  {
  }

  /** A text parses to a name exactly if it is a token and spells the name in any letter case. */
  lemma ParsesTo(s: string, n: Name)
    requires Canonical(n)
    ensures ParseName(s) == Some(n) <==> NameToken(s) && Lower(s) == Lower(TextOf(n))
  {
    hide TokenChar, TextOf, Lower, NameOf;
    forall c ensures TokenChar(c) <==> 33 <= c as int <= 126 && c !in "\"(),/:;<=>?@[\\]{}" {
      TokenCharacters(c);
    }
    assert MAX_NAME_LENGTH == 65535;
    LowerText(n);
    NameFound(Lower(s), n);
  }

  lemma TextWithoutCapitals(n: Name)
    requires !n.Other?
    ensures forall c | c in TextOf(n) :: 'a' <= c <= 'z' || c == '-'
  {
  }

  lemma LowerText(n: Name)
    requires Canonical(n)
    ensures Lower(TextOf(n)) == TextOf(n)
  {
    hide TextOf;
    if n.Other? {
      OtherText(n.text);
    } else {
      TextWithoutCapitals(n);
      assert forall i | 0 <= i < |TextOf(n)| :: TextOf(n)[i] in TextOf(n);
    }
  }

  lemma NameFound(s: string, n: Name)
    requires Canonical(n)
    ensures NameOf(s, SPELLINGS) == n <==> s == TextOf(n)
  {
    hide TextOf, Lower, NameOf;
    SpellingsHold();
    NameOfText(s, SPELLINGS);
    var m := NameOf(s, SPELLINGS);
    if s == TextOf(n) {
      if n.Other? {
        OtherText(n.text);
        OtherText(m.text) by { assert m.Other?; }
      } else {
        SpecialIsSpelled(n);
        TextOfSpecial(m, n);
      }
    }
  }

  function Values(h: Fields, n: Name): seq<string> {
    if n in h then h[n] else []
  }

  predicate Has(h: Fields, n: Name) { Values(h, n) != [] }

  function First(h: Fields, n: Name): Option<string> {
    if Has(h, n) then Some(Values(h, n)[0]) else None
  }

  /** `get` returns the value that was received first; further ones change nothing. */
  lemma FirstIsFirst(h: Fields, n: Name, v: string, rest: seq<string>)
    ensures Values(h, n) == [v] + rest ==>
              First(h, n) == Some(v) && FirstText(h, n) == if Readable(v) then Some(v) else None
    ensures Values(h, n) == [] ==> First(h, n) == None && FirstText(h, n) == None
  {
  }

  /** `headers.get(n)` followed by `to_str`. */
  function FirstText(h: Fields, n: Name): Option<string> {
    if Has(h, n) && Readable(Values(h, n)[0]) then Some(Values(h, n)[0]) else None
  }

  function Inserted(h: Fields, n: Name, v: string): Fields { h[n := [v]] }

  /** Insert the value if it is a legal one, else change nothing. */
  function InsertedIfValid(h: Fields, n: Name, v: string): Fields {
    if ValidValue(v) then Inserted(h, n, v) else h
  }

  /** The list header `n` with one more line. */
  function LineAdded(h: Fields, n: Name, own: string): Fields {
    InsertedIfValid(h, n, Combined(Values(h, n), own))
  }

  /** The values that a sequence of name/value pairs gives to one name. */
  ghost function ValuesIn(pairs: seq<(Name, string)>, n: Name): seq<string> {
    if pairs == [] then []
    else ValuesIn(pairs[..|pairs| - 1], n) + (if pairs[|pairs| - 1].0 == n then [pairs[|pairs| - 1].1] else [])
  }

  lemma {:induction false} ValuesInConcat(a: seq<(Name, string)>, b: seq<(Name, string)>, n: Name)
    ensures ValuesIn(a + b, n) == ValuesIn(a, n) + ValuesIn(b, n)
  {
    if b == [] {
      assert a + b == a;
    } else {
      assert (a + b)[..|a + b| - 1] == a + b[..|b| - 1];
      ValuesInConcat(a, b[..|b| - 1], n);
    }
  }

  function PairsOf(n: Name, values: seq<string>): seq<(Name, string)> {
    seq(|values|, i requires 0 <= i < |values| => (n, values[i]))
  }

  lemma {:induction false} ValuesInPairsOf(n: Name, values: seq<string>, m: Name)
    ensures ValuesIn(PairsOf(n, values), m) == if m == n then values else []
  {
    if values != [] {
      var front := values[..|values| - 1];
      assert PairsOf(n, values)[..|values| - 1] == PairsOf(n, front);
      ValuesInPairsOf(n, front, m);
      assert values == front + [values[|values| - 1]];
    }
  }

  /** The pairs are the fields with these names, in some order that keeps the values of a name in theirs. */
  ghost predicate Lists(pairs: seq<(Name, string)>, h: Fields, names: set<Name>) {
    forall n :: ValuesIn(pairs, n) == if n in names then Values(h, n) else []
  }

  lemma ListOneMore(pairs: seq<(Name, string)>, h: Fields, names: set<Name>, m: Name)
    requires Lists(pairs, h, names) && m !in names && m in h
    ensures Lists(pairs + PairsOf(m, h[m]), h, names + {m})
  {
    hide ValuesIn, PairsOf;
    forall n ensures ValuesIn(pairs + PairsOf(m, h[m]), n) == if n in names + {m} then Values(h, n) else [] {
      ValuesInConcat(pairs, PairsOf(m, h[m]), n);
      ValuesInPairsOf(m, h[m], n);
    }
  }

  class HeaderMap {
    var fields: Fields

    ghost predicate Valid()
      reads this
    {
      NoEmptyLists(fields)
    }

    constructor ()
      ensures Valid() && fields == map[]
    {
      fields := map[];
    }

    method Insert(n: Name, v: string)
      requires Valid()
      modifies this
      ensures Valid()
      ensures fields == Inserted(old(fields), n, v)
    {
      fields := fields[n := [v]];
    }

    method Append(n: Name, v: string)
      requires Valid()
      modifies this
      ensures Valid()
      ensures fields == old(fields)[n := Values(old(fields), n) + [v]]
    {
      fields := fields[n := Values(fields, n) + [v]];
    }

    method Remove(n: Name)
      requires Valid()
      modifies this
      ensures Valid()
      ensures fields == old(fields) - {n}
    {
      fields := fields - {n};
    }

    /** All pairs: the names in no particular order, the values of a name in theirs. */
    method Iter() returns (pairs: seq<(Name, string)>)
      requires Valid()
      ensures Lists(pairs, fields, fields.Keys)
    {
      pairs := [];
      var left := fields.Keys;
      while left != {}
        invariant left <= fields.Keys
        invariant Lists(pairs, fields, fields.Keys - left)
      {
        var m :| m in left;
        ListOneMore(pairs, fields, fields.Keys - left, m);
        assert fields.Keys - left + {m} == fields.Keys - (left - {m});
        pairs := pairs + PairsOf(m, fields[m]);
        left := left - {m};
      }
      assert fields.Keys - left == fields.Keys;
    }
  }
}
