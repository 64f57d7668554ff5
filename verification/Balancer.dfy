/** Admitting a request under power of two choices, on the shared metrics objects. */
module Balancer {
  import opened Basics
  import opened Discovery
  import opened EndpointList
  import opened Metrics
  import PowerOfTwo
  import Pending

  function Loads(snapshot: seq<Endpoint>): (loads: seq<nat>)
    reads set e | e in snapshot :: e.metrics
    ensures |loads| == |snapshot|
    ensures forall i | 0 <= i < |snapshot| :: loads[i] == snapshot[i].metrics.pendingRequests
  {
    if snapshot == [] then [] else [snapshot[0].metrics.pendingRequests] + Loads(snapshot[1..])
  }

  ghost predicate DistinctMetrics(snapshot: seq<Endpoint>) {
    forall i, j | 0 <= i < j < |snapshot| :: snapshot[i].metrics != snapshot[j].metrics
  }

  /** Every snapshot ever published has one metrics object an endpoint. */
  lemma PublishedAreDistinct(task: DiscoveryTask, n: nat)
    requires task.Valid() && n <= |task.log|
    ensures DistinctMetrics(task.published[n])
  {
    hide Fold;
    var log, snapshot := task.log[..n], task.published[n];
    assert Shows(snapshot, Fold(log), task.births);
    FoldCharacterised(log);
    forall i, j | 0 <= i < j < |snapshot| ensures snapshot[i].metrics != snapshot[j].metrics {
      task.SharedMetrics(n, i, n, j);
      assert BornAt(log, Fold(log)[i].key, Fold(log)[i].birth) && BornAt(log, Fold(log)[j].key, Fold(log)[j].birth);
    }
  }

  /**
   A request that nobody interferes with raises the counter of one endpoint of
   its snapshot: one admission of the power-of-two process. On an empty
   snapshot there is none.
   */
  method Admit(snapshot: seq<Endpoint>, draw: (nat, nat)) returns (guard: PendingRequestGuard?)
    requires snapshot != [] ==> PowerOfTwo.LegalDraw(|snapshot|, draw)
    requires DistinctMetrics(snapshot) && forall load | load in Loads(snapshot) :: load < WORD - 1
    modifies (set e | e in snapshot :: e.metrics)`pendingRequests
    ensures guard == null <==> snapshot == []
    ensures guard != null ==>
              && guard.metrics == snapshot[PowerOfTwo.P2cSelect(old(Loads(snapshot)), draw)].metrics
              && Loads(snapshot) == PowerOfTwo.Admit(old(Loads(snapshot)), draw)
  {
    hide PowerOfTwo.P2cSelect;
    if snapshot == [] {
      return null;
    }
    var loads := Loads(snapshot);
    var i := PowerOfTwo.P2cSelect(loads, draw);
    assert loads[i] in loads;
    assert Increment(loads[i]) == loads[i] + 1;
    guard := Raise(snapshot, i);
    assert Loads(snapshot) == loads[i := loads[i] + 1];
  }

  /** The increment and the guard of one endpoint. */
  method Raise(snapshot: seq<Endpoint>, i: nat) returns (guard: PendingRequestGuard)
    requires i < |snapshot| && DistinctMetrics(snapshot)
    modifies snapshot[i].metrics`pendingRequests
    ensures fresh(guard) && guard.metrics == snapshot[i].metrics
    ensures Loads(snapshot) == old(Loads(snapshot))[i := Increment(old(Loads(snapshot))[i])]
  {
    hide Increment;
    ghost var before := Loads(snapshot);
    guard := new PendingRequestGuard(snapshot[i].metrics);
    forall j | 0 <= j < |snapshot| && j != i ensures snapshot[j].metrics.pendingRequests == before[j] {
      assert snapshot[j].metrics != snapshot[i].metrics;
    }
    assert Loads(snapshot) == before[i := Increment(before[i])];
  }

  /** A request that has started and ended leaves every counter as it was. */
  method RaiseAndDrop(snapshot: seq<Endpoint>, i: nat)
    requires i < |snapshot| && DistinctMetrics(snapshot) && Loads(snapshot)[i] < WORD
    modifies snapshot[i].metrics`pendingRequests
    ensures Loads(snapshot) == old(Loads(snapshot))
  {
    hide Increment, Decrement;
    ghost var before := Loads(snapshot);
    var guard := new PendingRequestGuard(snapshot[i].metrics);
    guard.Drop();
    IncrementThenDecrement(before[i]);
    forall j | 0 <= j < |snapshot| ensures snapshot[j].metrics.pendingRequests == before[j] {
      assert j != i ==> snapshot[j].metrics != snapshot[i].metrics;
    }
    assert Loads(snapshot) == before;
  }

  // ----- the objects and the interleavings

  /** The counters of these objects are those of the state of the transition system. */
  ghost predicate Reflects(births: map<ServiceMetrics, nat>, s: Pending.State)
    reads births.Keys
  {
    forall m | m in births :: m.pendingRequests == Pending.Load(s, births[m])
  }

  /** Counting a request on its endpoint is the increment and then the guard of that request's task. */
  method StartCounting(metrics: ServiceMetrics, ghost births: map<ServiceMetrics, nat>, ghost length: nat,
                       ghost s: Pending.State, ghost t: nat)
    returns (guard: PendingRequestGuard, ghost s': Pending.State)
    requires metrics in births && Distinct(births, length) && Reflects(births, s)
    requires t < |s.tasks| && s.tasks[t] == Pending.Chosen(births[metrics])
    modifies metrics`pendingRequests
    ensures guard.metrics == metrics
    ensures s' == Pending.Next(Pending.Next(s, Pending.At(t, Pending.Raise)), Pending.At(t, Pending.MakeGuard))
    ensures Reflects(births, s') && s'.tasks[t] == Pending.Guarded(births[metrics])
  {
    hide Increment;
    guard := new PendingRequestGuard(metrics);
    ghost var raised := Pending.Next(s, Pending.At(t, Pending.Raise));
    s' := Pending.Next(raised, Pending.At(t, Pending.MakeGuard));
    assert raised.tasks[t] == Pending.Raised(births[metrics]);
  }

  /** And dropping the guard is the drop of that task, whatever others did in between. */
  method StopCounting(guard: PendingRequestGuard, ghost births: map<ServiceMetrics, nat>, ghost length: nat,
                      ghost s: Pending.State, ghost t: nat)
    returns (ghost s': Pending.State)
    requires guard.metrics in births && Distinct(births, length) && Reflects(births, s)
    requires t < |s.tasks| && s.tasks[t] == Pending.Guarded(births[guard.metrics])
    modifies guard.metrics`pendingRequests
    ensures s' == Pending.Next(s, Pending.At(t, Pending.Drop))
    ensures Reflects(births, s') && s'.tasks[t] == Pending.Finished
  {
    hide Decrement;
    guard.Drop();
    s' := Pending.Next(s, Pending.At(t, Pending.Drop));
  }
}
