/** The background task that turns changes into published snapshots. */
module EndpointList {
  import opened Basics
  import opened Discovery
  import opened Metrics

  datatype Endpoint = Endpoint(target: string, metrics: ServiceMetrics)

  function FindKey(endpoints: seq<(Key, Endpoint)>, key: Key): (i: nat)
    ensures i <= |endpoints|
  {
    if endpoints == [] || endpoints[0].0 == key then 0 else 1 + FindKey(endpoints[1..], key)
  }

  /** `retain` with every key but this one. */
  function Retained(endpoints: seq<(Key, Endpoint)>, key: Key): seq<(Key, Endpoint)> {
    if endpoints == [] then []
    else
      var last := endpoints[|endpoints| - 1];
      Retained(endpoints[..|endpoints| - 1], key) + (if last.0 == key then [] else [last])
  }

  function Snapshot(endpoints: seq<(Key, Endpoint)>): seq<Endpoint> {
    seq(|endpoints|, i requires 0 <= i < |endpoints| => endpoints[i].1)
  }

  // ----- objects and entries

  ghost predicate Known(endpoints: seq<(Key, Endpoint)>, births: map<ServiceMetrics, nat>) {
    forall i | 0 <= i < |endpoints| :: endpoints[i].1.metrics in births
  }

  /** The entries that the endpoints stand for, given which Insert made which metrics object. */
  ghost function Entries(endpoints: seq<(Key, Endpoint)>, births: map<ServiceMetrics, nat>): seq<Entry>
    requires Known(endpoints, births)
  {
    seq(|endpoints|, i requires 0 <= i < |endpoints| =>
      Entry(endpoints[i].0, endpoints[i].1.target, births[endpoints[i].1.metrics]))
  }

  lemma {:induction false} FindKeyIsIndexOf(endpoints: seq<(Key, Endpoint)>, births: map<ServiceMetrics, nat>, key: Key)
    requires Known(endpoints, births)
    ensures FindKey(endpoints, key) == IndexOf(Entries(endpoints, births), key)
  {
    if endpoints != [] {
      assert Entries(endpoints, births)[1..] == Entries(endpoints[1..], births);
      FindKeyIsIndexOf(endpoints[1..], births, key);
    }
  }

  lemma {:induction false} RetainedIsWithout(endpoints: seq<(Key, Endpoint)>, births: map<ServiceMetrics, nat>,
                                             key: Key)
    requires Known(endpoints, births)
    ensures Known(Retained(endpoints, key), births)
    ensures Entries(Retained(endpoints, key), births) == Without(Entries(endpoints, births), key)
  {
    if endpoints != [] {
      var front := endpoints[..|endpoints| - 1];
      assert Entries(endpoints, births)[..|endpoints| - 1] == Entries(front, births);
      RetainedIsWithout(front, births, key);
    }
  }

  /** A snapshot shows a list: same targets, and the metrics objects made by the same Inserts. */
  ghost predicate Shows(snapshot: seq<Endpoint>, list: seq<Entry>, births: map<ServiceMetrics, nat>) {
    && |snapshot| == |list|
    && forall i | 0 <= i < |list| ::
         && snapshot[i].target == list[i].target
         && snapshot[i].metrics in births && births[snapshot[i].metrics] == list[i].birth
  }

  /** The metrics objects of the log's Inserts: one object for one Insert. */
  ghost predicate Distinct(births: map<ServiceMetrics, nat>, length: nat) {
    && (forall m, m' | m in births && m' in births && births[m] == births[m'] :: m == m')
    && (forall m | m in births :: births[m] < length)
  }

  lemma BirthAdded(endpoints: seq<(Key, Endpoint)>, births: map<ServiceMetrics, nat>, m: ServiceMetrics, length: nat)
    requires Known(endpoints, births) && Distinct(births, length) && m !in births
    ensures var births' := births[m := length];
            && Known(endpoints, births') && Distinct(births', length + 1)
            && Entries(endpoints, births') == Entries(endpoints, births)
  {
  }

  lemma DistinctLonger(births: map<ServiceMetrics, nat>, length: nat)
    requires Distinct(births, length)
    ensures Distinct(births, length + 1)
  {
  }

  ghost predicate History(published: seq<seq<Endpoint>>, log: seq<Change>, births: map<ServiceMetrics, nat>) {
    && |published| == |log| + 1
    && (forall n | 0 <= n <= |log| :: Shows(published[n], Fold(log[..n]), births))
  }

  lemma HistoryNext(published: seq<seq<Endpoint>>, log: seq<Change>, births: map<ServiceMetrics, nat>,
                    snapshot: seq<Endpoint>, change: Change, births': map<ServiceMetrics, nat>)
    requires History(published, log, births) && Shows(snapshot, Fold(log + [change]), births')
    requires forall m | m in births :: m in births' && births'[m] == births[m]
    ensures History(published + [snapshot], log + [change], births')
  {
    hide Fold;
    var log' := log + [change];
    forall n | 0 <= n <= |log'| ensures Shows((published + [snapshot])[n], Fold(log'[..n]), births') {
      if n <= |log| {
        assert log'[..n] == log[..n];
      } else {
        assert log'[..n] == log';
      }
    }
  }

  function Put(endpoints: seq<(Key, Endpoint)>, key: Key, endpoint: Endpoint): seq<(Key, Endpoint)> {
    var at := FindKey(endpoints, key);
    if at < |endpoints| then endpoints[at := (key, endpoint)] else endpoints + [(key, endpoint)]
  }

  lemma PutIsReplaced(endpoints: seq<(Key, Endpoint)>, births: map<ServiceMetrics, nat>, key: Key, endpoint: Endpoint)
    requires Known(endpoints, births) && endpoint.metrics in births
    ensures Known(Put(endpoints, key, endpoint), births)
    ensures Entries(Put(endpoints, key, endpoint), births) ==
            Replaced(Entries(endpoints, births), Entry(key, endpoint.target, births[endpoint.metrics]))
  {
    FindKeyIsIndexOf(endpoints, births, key);
  }

  lemma FoldNext(log: seq<Change>, change: Change)
    ensures Fold(log + [change]) == Applied(Fold(log), change, |log|)
  {
    assert (log + [change])[..|log|] == log;
  }

  lemma SnapshotShows(endpoints: seq<(Key, Endpoint)>, births: map<ServiceMetrics, nat>)
    requires Known(endpoints, births)
    ensures Shows(Snapshot(endpoints), Entries(endpoints, births), births)
  {
  }

  class DiscoveryTask {
    var endpoints: seq<(Key, Endpoint)>
    var snapshot: seq<Endpoint>
    ghost var log: seq<Change>                     // the changes handled so far
    ghost var births: map<ServiceMetrics, nat>     // the Insert that made each metrics object
    ghost var published: seq<seq<Endpoint>>        // published[n] is the snapshot after n changes

    ghost predicate Valid()
      reads this
    {
      && Known(endpoints, births) && Entries(endpoints, births) == Fold(log)
      && Distinct(births, |log|)
      && History(published, log, births) && published != [] && published[|published| - 1] == snapshot
    }

    constructor ()
      ensures Valid() && log == [] && snapshot == [] && published == [[]]
    {
      endpoints, snapshot := [], [];
      log, births, published := [], map[], [[]];
    }

    /** One turn of the discovery loop; None is a discovery error. */
    method Handle(event: Option<Change>, now: nat)
      requires Valid()
      modifies this
      ensures Valid()
      ensures event == None ==> log == old(log) && snapshot == old(snapshot) && published == old(published)
      ensures event.Some? ==> log == old(log) + [event.value] && published == old(published) + [snapshot]
      ensures births.Keys >= old(births).Keys && forall m | m in old(births) :: births[m] == old(births)[m]
    {
      hide Fold, Shows, FindKey, Entries, Known, Distinct, History, Retained, Put;
      if event.None? {
        return;
      }
      ghost var births' := births;
      FoldNext(log, event.value);
      match event.value {
        case Insert(key, target) =>
          var metrics := new ServiceMetrics(now);
          assert metrics !in births;
          births' := births[metrics := |log|];
          BirthAdded(endpoints, births, metrics, |log|);
          PutIsReplaced(endpoints, births', key, Endpoint(target, metrics));
          endpoints := Put(endpoints, key, Endpoint(target, metrics));
        case Remove(key) =>
          RetainedIsWithout(endpoints, births, key);
          DistinctLonger(births, |log|);
          endpoints := Retained(endpoints, key);
      }
      snapshot := Snapshot(endpoints);
      SnapshotShows(endpoints, births');
      HistoryNext(published, log, births, snapshot, event.value, births');
      log, births, published := log + [event.value], births', published + [snapshot];
    }

    /** Two entries of any two published snapshots share their metrics exactly if they come from the same Insert. */
    lemma SharedMetrics(n: nat, a: nat, m: nat, b: nat)
      requires Valid() && n <= |log| && m <= |log|
      requires a < |published[n]| && b < |published[m]|
      ensures a < |Fold(log[..n])| && b < |Fold(log[..m])|
      ensures published[n][a].metrics == published[m][b].metrics <==> Fold(log[..n])[a].birth == Fold(log[..m])[b].birth
    {
      assert Shows(published[n], Fold(log[..n]), births) && Shows(published[m], Fold(log[..m]), births);
    }
  }

  /** The discovery loop over a stream of events that ends: the snapshot is the fold of its changes. */
  method Discover(events: seq<Option<Change>>, clock: nat -> nat) returns (task: DiscoveryTask)
    ensures task.Valid() && task.log == Changes(events)
    ensures Shows(task.snapshot, Fold(Changes(events)), task.births)
  {
    task := new DiscoveryTask();
    for i := 0 to |events|
      invariant fresh(task) && task.Valid() && task.log == Changes(events[..i])
    {
      assert events[..i + 1][..i] == events[..i];
      task.Handle(events[i], clock(i));
    }
    assert events[..|events|] == events && task.log[..|task.log|] == task.log;
  }
}
