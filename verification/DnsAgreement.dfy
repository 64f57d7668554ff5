/**
 Producer, channel and consumer of DNS discovery under every interleaving of
 lookups, failures, single sends and receives, with one live consumer.
 */
module DnsAgreement {
  import opened Basics
  import opened Discovery
  import opened Dns

  /**
   `services` are the addresses of the last successful lookup; `unsent` is what
   is left to send of its difference; `consumed` are the changes handled so far.
   */
  datatype State = State(services: set<Key>, unsent: seq<Change>, channel: seq<Event>, consumed: seq<Change>)

  datatype Step =
    | Resolve(ips: set<Key>, gone: seq<Key>, come: seq<Key>)
    | Fail
    | Send
    | Receive

  const INITIAL: State := State({}, [], [], [])

  ghost function Next(config: Config, s: State, step: Step): State {
    match step
    case Resolve(ips, gone, come) =>
      if s.unsent == [] && Orders(gone, s.services - ips) && Orders(come, ips - s.services)
      then s.(services := ips, unsent := Removes(gone) + Inserts(config, come))
      else s
    case Fail => if s.unsent == [] then s.(channel := s.channel + [None]) else s
    case Send =>
      if s.unsent != [] then s.(channel := s.channel + [Some(s.unsent[0])], unsent := s.unsent[1..]) else s
    case Receive =>
      if s.channel == [] then s
      else s.(channel := s.channel[1..],
              consumed := s.consumed + ChangesOf(s.channel[0]))
  }

  ghost function Execute(config: Config, steps: seq<Step>): State {
    if steps == [] then INITIAL else Next(config, Execute(config, steps[..|steps| - 1]), steps[|steps| - 1])
  }

  /** Everything ever produced: consumed, still in the channel, or not yet sent. */
  function Total(s: State): seq<Change> { s.consumed + Changes(s.channel) + s.unsent }

  /** The endpoints as a map from key to target. */
  function AsMap(list: seq<Entry>): map<Key, string> {
    if list == [] then map[] else AsMap(list[..|list| - 1])[list[|list| - 1].key := list[|list| - 1].target]
  }

  /** Change `n` does something: a Remove hits a live key, an Insert an absent one. */
  ghost predicate Effective(log: seq<Change>, n: nat)
    requires n < |log|
  {
    Listed(Fold(log[..n]), log[n].key) <==> log[n].Remove?
  }

  // ----- keys of a list

  lemma ListedNext(log: seq<Change>, change: Change, key: Key)
    ensures Listed(Fold(log + [change]), key) <==> if change.key == key then change.Insert? else Listed(Fold(log), key)
  {
    hide Fold, BornAt, InArrivalOrder;
    FoldCharacterised(log);
    FoldCharacterised(log + [change]);
    ListedIffBorn(log, Fold(log), key);
    ListedIffBorn(log + [change], Fold(log + [change]), key);
    forall i: nat ensures BornAt(log + [change], key, i) <==>
                          if change.key == key then change.Insert? && i == |log| else BornAt(log, key, i)
    {
      BornNext(log, change, key, i);
    }
    BornNext(log, change, key, |log|);
    if Listed(Fold(log), key) && change.key != key {
      var i: nat :| BornAt(log, key, i);
      assert BornAt(log + [change], key, i);
    }
  }

  lemma ListedIffBorn(log: seq<Change>, list: seq<Entry>, key: Key)
    requires Current(log, list)
    ensures Listed(list, key) <==> exists i: nat :: BornAt(log, key, i)
  {
    if Listed(list, key) {
      var a :| 0 <= a < |list| && list[a].key == key;
      assert BornAt(log, key, list[a].birth);
    }
  }

  lemma {:induction false} AsMapOfList(list: seq<Entry>)
    requires UniqueKeys(list)
    ensures forall key :: key in AsMap(list) <==> Listed(list, key)
    ensures forall a | 0 <= a < |list| :: list[a].key in AsMap(list) && AsMap(list)[list[a].key] == list[a].target
  {
    if list != [] {
      var front, last := list[..|list| - 1], list[|list| - 1];
      AsMapOfList(front);
      forall key ensures key in AsMap(list) <==> Listed(list, key) {
        if Listed(front, key) {
          var a :| 0 <= a < |front| && front[a].key == key;
          assert list[a].key == key;
        }
      }
    }
  }

  // ----- a difference

  lemma {:induction false} AfterRemoves(log: seq<Change>, gone: seq<Key>)
    requires NoRepeats(gone) && forall ip | ip in gone :: Listed(Fold(log), ip)
    ensures forall key :: Listed(Fold(log + Removes(gone)), key) <==> Listed(Fold(log), key) && key !in gone
    ensures forall n | |log| <= n < |log + Removes(gone)| :: Effective(log + Removes(gone), n)
  {
    hide Fold;
    var all := log + Removes(gone);
    if gone == [] {
      assert all == log;
    } else {
      var front, last := gone[..|gone| - 1], gone[|gone| - 1];
      AfterRemoves(log, front);
      var before := log + Removes(front);
      assert all == before + [Remove(last)];
      forall key ensures Listed(Fold(all), key) <==> Listed(Fold(log), key) && key !in gone {
        ListedNext(before, Remove(last), key);
        assert gone == front + [last];
      }
      EffectiveNext(before, Remove(last), |log|);
    }
  }

  lemma EffectiveNext(log: seq<Change>, change: Change, from: nat)
    requires from <= |log| && forall n | from <= n < |log| :: Effective(log, n)
    requires Listed(Fold(log), change.key) <==> change.Remove?
    ensures forall n | from <= n < |log + [change]| :: Effective(log + [change], n)
  {
    hide Fold, Listed;
    var log' := log + [change];
    forall n | from <= n < |log'| ensures Effective(log', n) {
      if n < |log| {
        assert Effective(log, n);
        assert log'[..n] == log[..n];
      } else {
        assert log'[..n] == log;
      }
    }
  }

  lemma {:induction false} AfterInserts(config: Config, log: seq<Change>, come: seq<Key>)
    requires NoRepeats(come) && forall ip | ip in come :: !Listed(Fold(log), ip)
    ensures var all := log + Inserts(config, come);
            && (forall key :: Listed(Fold(all), key) <==> Listed(Fold(log), key) || key in come)
            && (forall n | |log| <= n < |all| :: Effective(all, n))
  {
    hide Fold;
    var all := log + Inserts(config, come);
    if come == [] {
      assert all == log;
    } else {
      var front, last := come[..|come| - 1], come[|come| - 1];
      AfterInserts(config, log, front);
      var before := log + Inserts(config, front);
      var change := Insert(last, Url(config, last));
      assert all == before + [change];
      forall key ensures Listed(Fold(all), key) <==> Listed(Fold(log), key) || key in come {
        ListedNext(before, change, key);
        assert come == front + [last];
      }
      EffectiveNext(before, change, |log|);
    }
  }

  // ----- what every step keeps

  ghost predicate Targeted(config: Config, log: seq<Change>) {
    forall n | 0 <= n < |log| && log[n].Insert? :: log[n].target == Url(config, log[n].key)
  }

  ghost predicate Inv(config: Config, s: State) {
    && (forall key :: Listed(Fold(Total(s)), key) <==> key in s.services)
    && Targeted(config, Total(s))
    && (forall n | 0 <= n < |Total(s)| :: Effective(Total(s), n))
  }

  function ChangesOf(event: Event): seq<Change> { match event case Some(change) => [change] case None => [] }

  lemma ChangesOfOne(event: Event)
    ensures Changes([event]) == ChangesOf(event)
  {
    assert [event][..0] == [];
  }

  lemma SendKeepsTotal(s: State)
    requires s.unsent != []
    ensures Total(s.(channel := s.channel + [Some(s.unsent[0])], unsent := s.unsent[1..])) == Total(s)
  {
    hide Changes;
    ChangesConcat(s.channel, [Some(s.unsent[0])]);
    ChangesOfOne(Some(s.unsent[0]));
    assert s.unsent == [s.unsent[0]] + s.unsent[1..];
  }

  lemma ReceiveKeepsTotal(s: State)
    requires s.channel != []
    ensures Total(s.(channel := s.channel[1..], consumed := s.consumed + ChangesOf(s.channel[0]))) == Total(s)
  {
    hide Changes, ChangesOf;
    assert s.channel == [s.channel[0]] + s.channel[1..];
    ChangesConcat([s.channel[0]], s.channel[1..]);
    ChangesOfOne(s.channel[0]);
  }

  lemma FailKeepsTotal(s: State)
    ensures Total(s.(channel := s.channel + [None])) == Total(s)
  {
    hide Changes;
    ChangesConcat(s.channel, [None]);
    ChangesOfOne(None);
  }

  /** Sending, receiving and failing move changes along but neither make nor lose any. */
  lemma MovesKeepTotal(config: Config, s: State, step: Step)
    requires !step.Resolve?
    ensures Total(Next(config, s, step)) == Total(s) && Next(config, s, step).services == s.services
  {
    hide Total;
    match step
    case Fail => FailKeepsTotal(s);
    case Send => if s.unsent != [] { SendKeepsTotal(s); }
    case Receive => if s.channel != [] { ReceiveKeepsTotal(s); }
  }

  lemma DiffKeeps(config: Config, log: seq<Change>, before: set<Key>, after: set<Key>, gone: seq<Key>, come: seq<Key>)
    requires forall key :: Listed(Fold(log), key) <==> key in before
    requires Targeted(config, log) && forall n | 0 <= n < |log| :: Effective(log, n)
    requires Orders(gone, before - after) && Orders(come, after - before)
    ensures var log' := log + (Removes(gone) + Inserts(config, come));
            && (forall key :: Listed(Fold(log'), key) <==> key in after)
            && Targeted(config, log')
            && (forall n | 0 <= n < |log'| :: Effective(log', n))
  {
    hide Fold, Listed;
    var mid := log + Removes(gone);
    var log' := log + (Removes(gone) + Inserts(config, come));
    assert log' == mid + Inserts(config, come);
    AfterRemoves(log, gone);
    AfterInserts(config, mid, come);
    forall n | 0 <= n < |log'| ensures Effective(log', n) {
      if n < |log| {
        assert log'[..n] == log[..n];
        assert Effective(log, n);
      } else if n < |mid| {
        assert log'[..n] == mid[..n];
        assert Effective(mid, n);
      }
    }
  }

  lemma NextKeeps(config: Config, s: State, step: Step)
    requires Inv(config, s)
    ensures Inv(config, Next(config, s, step))
  {
    hide Fold, Listed, Orders, Effective, Targeted;
    match step
    case Resolve(ips, gone, come) =>
      if s.unsent == [] && Orders(gone, s.services - ips) && Orders(come, ips - s.services) {
        DiffKeeps(config, Total(s), s.services, ips, gone, come);
        assert Total(Next(config, s, step)) == Total(s) + (Removes(gone) + Inserts(config, come));
      }
    case _ => MovesKeepTotal(config, s, step);
  }

  lemma {:induction false} AlwaysInv(config: Config, steps: seq<Step>)
    ensures Inv(config, Execute(config, steps))
  {
    hide Next, Effective;
    if steps == [] {
      assert Total(INITIAL) == [];
    } else {
      AlwaysInv(config, steps[..|steps| - 1]);
      NextKeeps(config, Execute(config, steps[..|steps| - 1]), steps[|steps| - 1]);
    }
  }

  // ----- the results

  /** Replaying what is still under way over the consumer's endpoints gives exactly the services of the last lookup. */
  lemma ReplayAgrees(config: Config, steps: seq<Step>)
    ensures var s := Execute(config, steps); AsMap(Fold(Total(s))) == UrlMap(config, s.services)
  {
    hide Execute, Fold, Effective, InArrivalOrder;
    AlwaysInv(config, steps);
    var s := Execute(config, steps);
    var list := Fold(Total(s));
    FoldCharacterised(Total(s));
    AsMapOfList(list);
    forall key | key in AsMap(list) ensures key in s.services && AsMap(list)[key] == Url(config, key) {
      var a :| 0 <= a < |list| && list[a].key == key;
      assert BornAt(Total(s), list[a].key, list[a].birth);
    }
  }

  /** Every target that the consumer lists reads back as the configured scheme, the key's address and the port. */
  lemma TargetsRead(config: Config, steps: seq<Step>, a: nat)
    requires a < |Fold(Execute(config, steps).consumed)|
    ensures var entry := Fold(Execute(config, steps).consumed)[a];
            Parts(entry.target) == Some((if config.useHttps then "https" else "http", entry.key, config.port))
  {
    hide Execute, Fold, Effective, InArrivalOrder, Parts;
    AlwaysInv(config, steps);
    var log := Execute(config, steps).consumed;
    var entry := Fold(log)[a];
    FoldCharacterised(log);
    assert BornAt(log, entry.key, entry.birth);
    assert Total(Execute(config, steps))[entry.birth] == log[entry.birth];
    UrlReads(config, entry.key);
  }

  // ----- the consumer catches up

  lemma {:induction false} ReceiveAll(config: Config, steps: seq<Step>) returns (more: seq<Step>)
    ensures forall step | step in more :: step == Receive
    ensures var s := Execute(config, steps);
            Execute(config, steps + more) == s.(channel := [], consumed := s.consumed + Changes(s.channel))
    decreases |Execute(config, steps).channel|
  {
    hide Changes, ChangesOf;
    var s := Execute(config, steps);
    if s.channel == [] {
      more := [];
      assert steps + more == steps;
      assert Changes([]) == [] by { NoChanges(); }
    } else {
      assert (steps + [Receive])[..|steps|] == steps;
      var rest := ReceiveAll(config, steps + [Receive]);
      more := [Receive] + rest;
      assert steps + more == (steps + [Receive]) + rest;
      assert s.channel == [s.channel[0]] + s.channel[1..];
      ChangesConcat([s.channel[0]], s.channel[1..]);
      ChangesOfOne(s.channel[0]);
    }
  }

  lemma NoChanges()
    ensures Changes([]) == []
  {
  }

  /**
   From every state the pending sends and receives alone bring the consumer's
   list to exactly the services of the last lookup.
   */
  lemma CatchesUp(config: Config, steps: seq<Step>) returns (more: seq<Step>)
    ensures forall step | step in more :: step == Send || step == Receive
    ensures var s, s' := Execute(config, steps), Execute(config, steps + more);
            && s'.services == s.services && s'.unsent == [] && s'.channel == []
            && AsMap(Fold(s'.consumed)) == UrlMap(config, s.services)
  {
    hide Execute, Fold, AsMap;
    var sends := SendAll(config, steps);
    var receives := ReceiveAll(config, steps + sends);
    more := sends + receives;
    assert steps + more == steps + sends + receives;
    ReplayAgrees(config, steps + more);
    var s' := Execute(config, steps + more);
    assert Changes([]) == [] by { NoChanges(); }
    assert Total(s') == s'.consumed;
  }

  // ----- the producer's method is a run of the system

  lemma SentConcat(a: seq<Change>, b: seq<Change>)
    ensures Sent(a + b) == Sent(a) + Sent(b)
  {
  }

  /** Sending what is left, one change a step. */
  lemma {:induction false} SendAll(config: Config, steps: seq<Step>) returns (sends: seq<Step>)
    ensures forall step | step in sends :: step == Send
    ensures Execute(config, steps + sends) == AllSent(Execute(config, steps))
    decreases |Execute(config, steps).unsent|
  {
    hide AllSent;
    var s := Execute(config, steps);
    if s.unsent == [] {
      sends := [];
      assert steps + sends == steps;
      assert AllSent(s) == s by { NothingLeft(s); }
    } else {
      assert (steps + [Send])[..|steps|] == steps;
      var rest := SendAll(config, steps + [Send]);
      sends := [Send] + rest;
      assert steps + sends == (steps + [Send]) + rest;
      OneSent(config, s);
    }
  }

  function AllSent(s: State): State { s.(unsent := [], channel := s.channel + Sent(s.unsent)) }

  lemma NothingLeft(s: State)
    requires s.unsent == []
    ensures AllSent(s) == s
  {
  }

  lemma OneSent(config: Config, s: State)
    requires s.unsent != []
    ensures AllSent(Next(config, s, Send)) == AllSent(s)
  {
    hide Sent;
    assert s.unsent == [s.unsent[0]] + s.unsent[1..];
    SentConcat([s.unsent[0]], s.unsent[1..]);
    SentOne(s.unsent[0]);
  }

  lemma SentOne(change: Change)
    ensures Sent([change]) == [Some(change)]
  {
  }

  /** Whatever `Refresh` may do to the services and the channel is some run of steps. */
  lemma RefreshIsARun(config: Config, steps: seq<Step>, lookup: Option<set<Key>>, changes: seq<Change>)
    returns (more: seq<Step>)
    requires Execute(config, steps).unsent == []
    requires lookup.Some? ==> IsDiff(config, changes, Execute(config, steps).services, lookup.value)
    ensures var s := Execute(config, steps);
            Execute(config, steps + more) ==
            match lookup
            case None => s.(channel := s.channel + [None])
            case Some(ips) => s.(services := ips, channel := s.channel + Sent(changes))
  {
    hide Orders, Sent;
    var s := Execute(config, steps);
    if lookup.None? {
      more := [Fail];
      assert (steps + more)[..|steps|] == steps;
    } else {
      var gone, come: seq<Key> :| Orders(gone, s.services - lookup.value) && Orders(come, lookup.value - s.services)
                                  && changes == Removes(gone) + Inserts(config, come);
      var resolve := Resolve(lookup.value, gone, come);
      assert (steps + [resolve])[..|steps|] == steps;
      var sends := SendAll(config, steps + [resolve]);
      more := [resolve] + sends;
      assert steps + more == (steps + [resolve]) + sends;
    }
  }

  /** Each change still under way will remove a live key or add an absent one when its turn comes. */
  lemma QueuedChangesAreEffective(config: Config, steps: seq<Step>, n: nat)
    requires var s := Execute(config, steps); |s.consumed| <= n < |Total(s)|
    ensures Effective(Total(Execute(config, steps)), n)
  {
    hide Execute, Effective;
    AlwaysInv(config, steps);
  }

  /** Every lookup among the steps finds the address. */
  ghost predicate AlwaysFound(steps: seq<Step>, ip: Key) {
    forall i | 0 <= i < |steps| && steps[i].Resolve? :: ip in steps[i].ips
  }

  lemma BornPast(log: seq<Change>, more: seq<Change>, key: Key, i: nat)
    requires BornAt(log, key, i) && forall n | 0 <= n < |more| :: more[n].key != key
    ensures BornAt(log + more, key, i)
  {
  }

  /** An address found by all later successful lookups keeps the Insert, and so the metrics object, it has. */
  lemma {:induction false} KeepsItsInsert(config: Config, steps: seq<Step>, more: seq<Step>, ip: Key, i: nat)
    requires ip in Execute(config, steps).services && AlwaysFound(more, ip)
    requires BornAt(Total(Execute(config, steps)), ip, i)
    ensures ip in Execute(config, steps + more).services
    ensures BornAt(Total(Execute(config, steps + more)), ip, i)
  {
    hide BornAt, Orders, Total;
    if more == [] {
      assert steps + more == steps;
    } else {
      var front, last := more[..|more| - 1], more[|more| - 1];
      KeepsItsInsert(config, steps, front, ip, i);
      assert (steps + more)[..|steps + more| - 1] == steps + front;
      var s := Execute(config, steps + front);
      if last.Resolve? {
        assert last == more[|more| - 1];
        ResolveSpares(config, s, last, ip, i);
      } else {
        MovesKeepTotal(config, s, last);
      }
    }
  }

  lemma ResolveSpares(config: Config, s: State, step: Step, ip: Key, i: nat)
    requires step.Resolve? && ip in s.services && ip in step.ips && BornAt(Total(s), ip, i)
    ensures BornAt(Total(Next(config, s, step)), ip, i)
  {
    hide BornAt;
    if s.unsent == [] && Orders(step.gone, s.services - step.ips) && Orders(step.come, step.ips - s.services) {
      var more := Removes(step.gone) + Inserts(config, step.come);
      assert Total(Next(config, s, step)) == Total(s) + more;
      forall n | 0 <= n < |more| ensures more[n].key != ip {
        if n < |step.gone| {
          assert more[n].key in step.gone;
        } else {
          assert more[n].key in step.come;
        }
      }
      BornPast(Total(s), more, ip, i);
    }
  }

  /** The consumer's view of that: once it has handled the Insert it lists the address with it. */
  lemma ConsumerKeepsMetrics(config: Config, steps: seq<Step>, more: seq<Step>, ip: Key, i: nat)
    requires ip in Execute(config, steps).services && AlwaysFound(more, ip)
    requires BornAt(Total(Execute(config, steps)), ip, i)
    requires i < |Execute(config, steps + more).consumed|
    ensures var list := Fold(Execute(config, steps + more).consumed);
            exists a | 0 <= a < |list| :: list[a].key == ip && list[a].birth == i
  {
    hide Execute, Fold;
    KeepsItsInsert(config, steps, more, ip, i);
    var s := Execute(config, steps + more);
    assert s.consumed == Total(s)[..|s.consumed|];
    assert BornAt(s.consumed, ip, i);
    BornIsListed(s.consumed, ip, i);
  }

  lemma BornIsListed(log: seq<Change>, key: Key, i: nat)
    requires BornAt(log, key, i)
    ensures exists a | 0 <= a < |Fold(log)| :: Fold(log)[a].key == key && Fold(log)[a].birth == i
  {
    hide Fold;
    FoldCharacterised(log);
    var a :| 0 <= a < |Fold(log)| && Fold(log)[a].key == key;
    assert BornAt(log, key, Fold(log)[a].birth);
    BornOnce(log, key, i, Fold(log)[a].birth);
  }

  lemma BornOnce(log: seq<Change>, key: Key, i: nat, j: nat)
    requires BornAt(log, key, i) && BornAt(log, key, j)
    ensures i == j
  {
  }
}
