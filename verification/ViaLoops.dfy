/**
 The `Via` chain is a faithful record of the visits of a request, and so no
 proxy with a recognisable pseudonym forwards a request twice.
 */
module ViaLoops {
  import opened Basics
  import opened Text
  import opened HeaderMaps
  import opened Numbers
  import opened Forward
  import opened Filtering
  import opened Network
  import opened ListHeaders
  import opened ListElements
  import WebSocket

  /** What loop detection can recognise: visible characters, none of them a comma. */
  predicate Detectable(p: string) {
    p != "" && forall c | c in p :: Visible(c) && c != ','
  }

  // ----- loop detection, in terms of the parsed chain

  predicate NamesProxy(words: seq<string>, p: string) { |words| >= 2 && words[1] == p }

  lemma {:induction false} WordListsCarry(elements: seq<string>, p: string)
    ensures (exists e | e in elements :: Carries(e, p)) <==> (exists w | w in WordLists(elements) :: NamesProxy(w, p))
  {
    if elements != [] {
      WordListsCarry(elements[1..], p);
      assert elements == [elements[0]] + elements[1..];
      if Carries(elements[0], p) {
        assert WordLists(elements)[0] == Words(elements[0]) && NamesProxy(Words(elements[0]), p);
      }
    }
  }

  lemma ContainsByChain(h: Fields, p: string)
    ensures ViaContains(h, p) <==> Listed(Values(h, Via), p)
  {
    WordListsCarry(Elements(Values(h, Via)), p);
  }

  /** Some element of the list header names the proxy `p`. */
  predicate Listed(values: seq<string>, p: string) { exists w | w in Chain(values) :: NamesProxy(w, p) }

  /** Whatever is recognised is a non-empty, visible, comma-free word. */
  lemma ContainedIsDetectable(h: Fields, p: string)
    requires ViaContains(h, p)
    ensures Detectable(p)
  {
    var e :| e in Elements(Values(h, Via)) && Carries(e, p);
    assert p in Words(e);
    WordsShape(e, p);
    ElementsShape(Values(h, Via), e);
  }

  /** A proxy's own element. */
  function OwnElement(version: Version, p: string): string { ViaProtocol(version) + " " + p }

  lemma OwnElementShape(version: Version, p: string)
    requires Detectable(p)
    ensures Readable(OwnElement(version, p)) && ',' !in OwnElement(version, p)
    ensures Words(OwnElement(version, p)) == [ViaProtocol(version), p]
  {
    var protocol := ViaProtocol(version);
    WordsOfTwo(protocol, p);
  }

  /** Appending to `Via` adds exactly one element, whatever was there, readable or not, in one line or many. */
  lemma AppendExtendsChain(h: Fields, version: Version, p: string)
    requires Detectable(p)
    ensures Chain(Values(WithVia(h, version, Some(p)), Via)) == Chain(Values(h, Via)) + [[ViaProtocol(version), p]]
  {
    hide Chain, ViaProtocol, Words, LineValues, LineAdded, Combined, Detectable;
    OwnElementShape(version, p);
    LineExtendsChain(Values(h, Via), OwnElement(version, p));
    LineAddedValues(h, Via, OwnElement(version, p), Via);
  }

  /** After appending q, p is detected iff p is q or was detected before. */
  lemma AppendThenDetect(h: Fields, version: Version, q: string, p: string)
    requires Detectable(q)
    ensures ViaContains(WithVia(h, version, Some(q)), p) <==> p == q || ViaContains(h, p)
  {
    hide ViaContains, Chain, WithVia, ViaProtocol;
    var h' := WithVia(h, version, Some(q));
    AppendExtendsChain(h, version, q);
    ContainsByChain(h, p);
    ContainsByChain(h', p);
    var own := [ViaProtocol(version), q];
    assert Chain(Values(h', Via)) == Chain(Values(h, Via)) + [own];
    assert own in Chain(Values(h', Via)) && (NamesProxy(own, p) <==> p == q);
  }

  /**
   Loop detection works for exactly the recognisable pseudonyms: a proxy sees
   its own entry again, on every header map, iff its pseudonym is one. The
   policy accepts any other string too, and then no loop is ever detected.
   */
  lemma OwnEntryDetected(h: Fields, version: Version, p: string)
    ensures ViaContains(WithVia(h, version, Some(p)), p) <==> Detectable(p)
  {
    hide WithVia, ViaContains;
    if Detectable(p) {
      AppendThenDetect(h, version, p, p);
    } else if ViaContains(WithVia(h, version, Some(p)), p) {
      ContainedIsDetectable(WithVia(h, version, Some(p)), p);
    }
  }

  // ----- entries, said of the text of the lines

  predicate Solid(w: string) { w != "" && forall c | c in w :: !Blank(c) }

  /** `<protocol> <pseudonym> [comment]`, with any blanks around. */
  predicate Entry(e: string, a: string, protocol: string, b: string, p: string, rest: string) {
    && e == a + protocol + b + p + rest
    && AllBlank(a) && Solid(protocol) && AllBlank(b) && b != "" && Solid(p) && (rest == "" || Blank(rest[0]))
  }

  lemma {:induction false} WordsSkipBlanks(a: string, s: string)
    requires AllBlank(a)
    ensures Words(a + s) == Words(s)
  {
    if a == "" {
      assert a + s == s;
    } else {
      assert (a + s)[1..] == a[1..] + s;
      WordsSkipBlanks(a[1..], s);
    }
  }

  lemma {:induction false} FirstWordShape(s: string) returns (rest: string)
    ensures s == FirstWord(s) + rest && (rest == "" || Blank(rest[0]))
  {
    if s == "" || Blank(s[0]) {
      rest := s;
    } else {
      rest := FirstWordShape(s[1..]);
    }
  }

  /** A string with a word in it starts with blanks and that word. */
  lemma WordsStart(s: string) returns (a: string, rest: string)
    requires Words(s) != []
    ensures s == a + Words(s)[0] + rest && AllBlank(a) && Solid(Words(s)[0]) && (rest == "" || Blank(rest[0]))
    ensures Words(rest) == Words(s)[1..]
  {
    hide TrimStart, FirstWord, AllBlank;
    a := TrimStartShape(s);
    var t := TrimStart(s);
    rest := FirstWordShape(t);
    assert Words(s)[0] == FirstWord(t);
    WordsShape(s, FirstWord(t));
    assert t[|FirstWord(t)|..] == rest;
    assert s == a + FirstWord(t) + rest;
  }

  lemma EntryIff(e: string, p: string)
    ensures Carries(e, p) <==> exists a, protocol, b, rest :: Entry(e, a, protocol, b, p, rest)
  {
    hide Words, AllBlank, Solid;
    if Carries(e, p) {
      var a, tail := WordsStart(e);
      var b, rest := WordsStart(tail);
      assert b != "" by { StartsBlank(tail, b, p, rest); }
      assert e == a + Words(e)[0] + b + p + rest;
      assert Entry(e, a, Words(e)[0], b, p, rest);
    }
    if a, protocol, b, rest :| Entry(e, a, protocol, b, p, rest) {
      assert e == a + (protocol + (b + (p + rest)));
      WordsSkipBlanks(a, protocol + (b + (p + rest)));
      BlankFront(b, p + rest);
      WordsLead(protocol, b + (p + rest)) by { SolidWord(protocol); }
      WordsSkipBlanks(b, p + rest);
      WordsLead(p, rest) by { SolidWord(p); }
    }
  }

  lemma SolidWord(w: string)
    requires Solid(w)
    ensures w != "" && forall c | c in w :: !Blank(c)
  {
  }

  lemma BlankFront(b: string, s: string)
    requires AllBlank(b) && b != ""
    ensures b + s != "" && Blank((b + s)[0])
  {
  }

  lemma StartsBlank(tail: string, b: string, p: string, rest: string)
    requires tail == b + p + rest && Solid(p) && (tail == "" || Blank(tail[0]))
    ensures b != ""
  {
    assert p[0] in p && tail[|b|] == p[0];
  }

  /** Some readable Via line holds an entry of `p`, with or without a comment, wherever it stands. */
  ghost predicate HasEntry(values: seq<string>, p: string) {
    exists v, pre, e, post, a, protocol, b, rest ::
      && v in values && Readable(v) && v == pre + e + post && Bounded(pre, post) && ',' !in e
      && Entry(e, a, protocol, b, p, rest)
  }

  /** Detection is exactly that. */
  lemma ContainsIff(h: Fields, p: string)
    ensures ViaContains(h, p) <==> HasEntry(Values(h, Via), p)
  {
    hide Readable, Split, Elements, Entry, Carries, Bounded;
    var values := Values(h, Via);
    if ViaContains(h, p) {
      var e :| e in Elements(values) && Carries(e, p);
      ElementIff(values, e);
      var v :| v in values && Readable(v) && e in Split(v, ',');
      var pre, post := SplitShape(v, e);
      SplitFree(v, ',', e);
      EntryIff(e, p);
      var a, protocol, b, rest :| Entry(e, a, protocol, b, p, rest);
      assert HasEntry(values, p);
    }
    if HasEntry(values, p) {
      var v, pre, e, post, a, protocol, b, rest :|
        && v in values && Readable(v) && v == pre + e + post && Bounded(pre, post) && ',' !in e
        && Entry(e, a, protocol, b, p, rest);
      SplitPlaced(pre, e, post);
      ElementIff(values, e);
      EntryIff(e, p);
    }
  }

  /** The number of a version, times ten. */
  function VersionNumber(version: Version): nat {
    match version
    case Http09 => 9
    case Http10 => 10
    case Http11 => 11
    case Http2 => 20
    case Http3 => 30
  }

  /** The protocol of an entry reads as the version it was received with. */
  lemma ProtocolReads(version: Version)
    ensures var p := ViaProtocol(version);
            && |p| == 3 && p[1] == '.' && Digits([p[0]]) && Digits([p[2]])
            && DecimalValue([p[0]]) * 10 + DecimalValue([p[2]]) == VersionNumber(version)
  {
    var p := ViaProtocol(version);
    assert [p[0]][..0] == "" && [p[2]][..0] == "";
  }

  // ----- what any other pseudonym does to an entry

  /** The element of `q` itself can be taken for one of `p`. */
  predicate Imitates(version: Version, q: string, p: string) {
    exists w | w in WordLists(Split(OwnElement(version, q), ',')) :: NamesProxy(w, p)
  }

  lemma OwnReadability(version: Version, q: string)
    ensures Readable(OwnElement(version, q)) <==> Readable(q)
    ensures ValidValue(OwnElement(version, q)) <==> ValidValue(q)
  {
    var own := OwnElement(version, q);
    var n := |own| - |q|;
    assert own[n..] == q;
    assert forall i | 0 <= i < |q| :: q[i] == own[n + i];
    assert forall i | n <= i < |own| :: own[i] == q[i - n];
  }

  /** What a line of `q` does to the entries of a list header. */
  lemma LineAndListed(values: seq<string>, version: Version, q: string, p: string)
    ensures Listed(LineValues(values, OwnElement(version, q)), p) <==>
            if Readable(q) then Listed(values, p) || Imitates(version, q, p)
            else if ValidValue(q) then false
            else Listed(values, p)
  {
    hide Chain, LineValues, OwnElement, Readable, ValidValue, NamesProxy;
    OwnReadability(version, q);
    LineChain(values, OwnElement(version, q));
  }

  /**
   Whatever the pseudonym: a readable one keeps all entries, a legal but
   unreadable one erases them all, and an illegal one is not added.
   */
  lemma AppendAnyThenDetect(h: Fields, version: Version, q: string, p: string)
    ensures ViaContains(WithVia(h, version, Some(q)), p) <==>
            if Readable(q) then ViaContains(h, p) || Imitates(version, q, p)
            else if ValidValue(q) then false
            else ViaContains(h, p)
  {
    hide ViaContains, LineValues, LineAdded, ValidValue, Readable, Listed, Imitates, ViaProtocol;
    ContainsByChain(h, p);
    ContainsByChain(WithVia(h, version, Some(q)), p);
    LineAddedValues(h, Via, OwnElement(version, q), Via);
    LineAndListed(Values(h, Via), version, q, p);
  }

  /** An entry outlives an append exactly if the new pseudonym is readable or no legal value. */
  lemma EntrySurvives(h: Fields, version: Version, q: string, p: string)
    requires ViaContains(h, p)
    ensures ViaContains(WithVia(h, version, Some(q)), p) <==> Readable(q) || !ValidValue(q)
  {
    hide ViaContains, WithVia, ValidValue, Readable, Imitates;
    AppendAnyThenDetect(h, version, q, p);
  }

  /** A pseudonym that makes a legal but unreadable line erases the chain: nobody is detected after it. */
  lemma UnreadableErases(h: Fields, version: Version, q: string, p: string)
    requires !Readable(q) && ValidValue(q)
    ensures !ViaContains(WithVia(h, version, Some(q)), p)
  {
    hide ViaContains, WithVia, ValidValue, Readable, Imitates;
    AppendAnyThenDetect(h, version, q, p);
  }

  // ----- whole runs

  /** The elements that the visits add, in order. */
  function Records(visits: seq<Visit>): seq<seq<string>> {
    if visits == [] then []
    else
      var last := visits[|visits| - 1].hop;
      Records(visits[..|visits| - 1])
      + (if last.policy.via.Some? then [[ViaProtocol(last.version), last.policy.via.value]] else [])
  }

  ghost predicate AllDetectable(visits: seq<Visit>) {
    forall i | 0 <= i < |visits| :: visits[i].hop.policy.via.Some? ==> Detectable(visits[i].hop.policy.via.value)
  }

  lemma OneVisitChain(visit: Visit)
    requires visit.hop.policy.via.Some? ==> Detectable(visit.hop.policy.via.value)
    ensures Chain(SentValues(visit.fields, visit.hop, Via)) == Chain(Remaining(visit.fields, Via)) + Records([visit])
  {
    hide Chain, ViaProtocol, Words, LineValues, Remaining, Detectable;
    var left := Remaining(visit.fields, Via);
    var hop := visit.hop;
    assert Records([visit][..0]) == [];
    if hop.policy.via.Some? {
      OwnElementShape(hop.version, hop.policy.via.value);
      LineExtendsChain(left, OwnElement(hop.version, hop.policy.via.value));
    }
  }

  /** What a proxy sees in `Via` is what the client's header left, then one element for every earlier visit. */
  lemma {:induction false} ChainRecordsVisits(visits: seq<Visit>, i: nat)
    requires Run(visits) && AllDetectable(visits) && 0 < i < |visits|
    ensures Chain(Values(visits[i].fields, Via)) == Chain(Remaining(visits[0].fields, Via)) + Records(visits[..i])
  {
    hide Chain, SentValues, Remaining, Outgoing, ViaProtocol, Detectable;
    var before := visits[i - 1];
    ReceivedValues(visits, i, Via);
    OneVisitChain(before);
    assert visits[..i][..i - 1] == visits[..i - 1];
    assert Records([before][..0]) == [];
    assert Records(visits[..i]) == Records(visits[..i - 1]) + Records([before]);
    if i > 1 {
      ChainRecordsVisits(visits, i - 1);
      RemainingLater(visits, i - 1, Via);
    } else {
      assert Records(visits[..0]) == [];
    }
  }

  /** The visit adds no entry, or one that leaves the earlier ones readable. */
  predicate Spares(hop: Hop) {
    hop.policy.via.Some? ==> Readable(hop.policy.via.value) || !ValidValue(hop.policy.via.value)
  }

  lemma OwnImitates(version: Version, p: string)
    requires Detectable(p)
    ensures Readable(p) && Imitates(version, p, p)
  {
    hide ViaProtocol, Words;
    OwnElementShape(version, p);
    CommaFree(OwnElement(version, p));
    OwnReadability(version, p);
    var own := [ViaProtocol(version), p];
    assert own in WordLists(Split(OwnElement(version, p), ',')) && NamesProxy(own, p);
  }

  /** The entry of visit `i` is seen at every later visit up to the first that does not spare it. */
  lemma {:induction false} EntrySeen(visits: seq<Visit>, i: nat, j: nat)
    requires Run(visits) && i < j < |visits|
    requires visits[i].hop.policy.via.Some? && Detectable(visits[i].hop.policy.via.value)
    requires forall k | i < k < j :: Spares(visits[k].hop)
    ensures ViaContains(visits[j].fields, visits[i].hop.policy.via.value)
  {
    hide Run, Readable, ValidValue, Detectable, ViaContains, Remaining, Listed, LineValues, Imitates, ViaProtocol;
    var p, before := visits[i].hop.policy.via.value, visits[j - 1];
    ReceivedValues(visits, j, Via);
    ContainsByChain(visits[j].fields, p);
    if before.hop.policy.via.Some? {
      LineAndListed(Remaining(before.fields, Via), before.hop.version, before.hop.policy.via.value, p);
    }
    if j == i + 1 {
      OwnImitates(before.hop.version, p);
    } else {
      EntrySeen(visits, i, j - 1);
      ContainsByChain(before.fields, p);
      RemainingLater(visits, j - 1, Via);
      assert Spares(before.hop);
    }
  }

  /**
   No recognisable pseudonym forwards a request twice, whatever the client sent
   and whatever other pseudonyms did before, unless one in between erases the
   chain.
   */
  lemma ForwardsOnce(visits: seq<Visit>, i: nat, j: nat)
    requires Run(visits) && i < j < |visits|
    requires visits[i].hop.policy.via.Some? && Detectable(visits[i].hop.policy.via.value)
    requires forall k | i < k < j :: Spares(visits[k].hop)
    ensures visits[j].hop.policy.via != visits[i].hop.policy.via
  {
    hide ViaContains, Prepared, Spares, Detectable;
    EntrySeen(visits, i, j);
  }

  /** A request without Via, length and Connection headers is forwarded, and goes on without a length. */
  lemma NotRefused(client: Fields, hop: Hop)
    requires Values(client, ContentLength) == []
    requires hop.policy.via.Some? ==> !ViaContains(client, hop.policy.via.value)
    ensures Outgoing(client, false, hop) == Sent(Prepared(client, hop))
    ensures Values(Prepared(client, hop), ContentLength) == []
  {
    hide ViaContains, Prepared, Nominated;
    PreparedValues(client, hop, ContentLength);
  }

  lemma NothingContained(h: Fields, p: string)
    requires Values(h, Via) == []
    ensures !ViaContains(h, p)
  {
  }

  /** After a visit that does not spare the chain nothing is detected. */
  lemma ErasedByVisit(client: Fields, hop: Hop, p: string)
    requires !Spares(hop)
    ensures !ViaContains(Prepared(client, hop), p)
  {
    hide ViaContains, Prepared, Readable, ValidValue, Listed, LineValues, Imitates, ViaProtocol, Remaining;
    PreparedValues(client, hop, Via);
    ContainsByChain(Prepared(client, hop), p);
    LineAndListed(Remaining(client, Via), hop.version, hop.policy.via.value, p);
  }

  lemma UndetectedIfUnreadable(h: Fields, q: string)
    requires !Readable(q)
    ensures !ViaContains(h, q)
  {
    hide ViaContains;
    assert forall i | 0 <= i < |q| :: q[i] in q;
    if ViaContains(h, q) {
      ContainedIsDetectable(h, q);
    }
  }

  /** And one in between that erases the chain does let a proxy forward again. */
  lemma ErasedForwardsAgain(edge: Hop, between: Hop) returns (visits: seq<Visit>)
    requires edge.policy.via.Some? && !Spares(between)
    ensures Run(visits) && |visits| == 3
    ensures visits[0].hop == edge && visits[1].hop == between && visits[2].hop == edge
  {
    hide ViaContains, Prepared, Readable, ValidValue, Outgoing;
    var first := Visit(map[], edge);
    var second := Visit(Prepared(first.fields, edge), between);
    var third := Visit(Prepared(second.fields, between), edge);
    visits := [first, second, third];
    NothingContained(map[], edge.policy.via.value);
    NotRefused(first.fields, edge);
    UndetectedIfUnreadable(second.fields, between.policy.via.value);
    NotRefused(second.fields, between);
    ErasedByVisit(second.fields, between, edge.policy.via.value);
    NotRefused(third.fields, edge);
  }

  lemma DetectableReadable(p: string)
    requires Detectable(p)
    ensures Readable(p)
  {
    assert forall i | 0 <= i < |p| :: p[i] in p;
  }

  /** A run in which every proxy emits `Via` ends after at most as many forwards as there are pseudonyms. */
  lemma RunIsBounded(visits: seq<Visit>, pseudonyms: set<string>)
    requires Run(visits) && AllDetectable(visits)
    requires forall i | 0 <= i < |visits| ::
               visits[i].hop.policy.via.Some? && visits[i].hop.policy.via.value in pseudonyms
    ensures |visits| <= |pseudonyms|
  {
    hide Run;
    forall i | 0 <= i < |visits| ensures Spares(visits[i].hop) {
      DetectableReadable(visits[i].hop.policy.via.value);
    }
    var names := seq(|visits|, i requires 0 <= i < |visits| => visits[i].hop.policy.via.value);
    forall i, j | 0 <= i < j < |names| ensures names[i] != names[j] {
      ForwardsOnce(visits, i, j);
    }
    DistinctLength(names, pseudonyms);
  }
}
