/** The per-endpoint metrics that requests share, as objects updated in place. */
module Metrics {
  import opened Basics
  import opened Ewma

  /** The average and the time of its last update. */
  datatype Reading = Reading(value: nat, stamp: nat)

  /** What is there after the interferences of other callers; None is no interference. */
  function Left(start: Reading, others: seq<Option<Reading>>): Reading {
    if others == [] then start
    else match others[|others| - 1] case Some(r) => r case None => Left(start, others[..|others| - 1])
  }

  /** `Instant::elapsed` is never negative. */
  function Elapsed(now: nat, stamp: nat): (elapsed: nat)
    ensures stamp <= now ==> stamp + elapsed == now
    ensures now <= stamp ==> elapsed == 0
  {
    if now <= stamp then 0 else now - stamp
  }

  class ServiceMetrics {
    var pendingRequests: nat
    var peakEwmaMicros: nat
    var lastUpdate: nat

    constructor (now: nat)
      ensures pendingRequests == 0 && peakEwmaMicros == 0 && lastUpdate == now
    {
      pendingRequests, peakEwmaMicros, lastUpdate := 0, 0, now;
    }

    function Now(): Reading
      reads this
    {
      Reading(peakEwmaMicros, lastUpdate)
    }

    /**
     The compare-and-swap loop of one call. Between its k-th load and its k-th
     swap other callers may leave `others[k]`; the k-th attempt reads the clock
     at `clock(2 * k)`, and `decay` is what the time gone by makes of a value.
     The stored value is one update of the value that was there when the swap
     succeeded, the time is stamped then, and a swap fails exactly if the others
     changed the value.
     */
    method UpdateEwma(latencyMicros: nat, others: seq<Option<Reading>>, clock: nat -> nat, decay: (nat, nat) -> nat)
      returns (fails: nat)
      requires forall elapsed, v :: decay(elapsed, v) <= v
      modifies this`peakEwmaMicros, this`lastUpdate
      ensures fails <= |others|
      ensures forall k | 0 <= k < fails ::
                Left(old(Now()), others[..k + 1]).value != Left(old(Now()), others[..k]).value
      ensures var now := Left(old(Now()), if fails < |others| then others[..fails + 1] else others);
              && now.value == Left(old(Now()), others[..fails]).value
              && var decayed := decay(Elapsed(clock(2 * fails), now.stamp), now.value);
              && peakEwmaMicros == Updated(now.value, decayed, latencyMicros % WORD)
              && peakEwmaMicros <= Max(now.value, latencyMicros % WORD)
              && lastUpdate == clock(2 * fails + 1)
    {
      fails := 0;
      ghost var start := Now();
      while true
        invariant fails <= |others|
        invariant Now() == Left(start, others[..fails])
        invariant forall k | 0 <= k < fails :: Left(start, others[..k + 1]).value != Left(start, others[..k]).value
        decreases |others| - fails
      {
        var current := peakEwmaMicros;
        if fails < |others| {
          assert others[..fails + 1][..fails] == others[..fails];
          if others[fails].Some? {
            peakEwmaMicros, lastUpdate := others[fails].value.value, others[fails].value.stamp;
          }
        } else {
          assert others[..fails] == others;
        }
        var decayed := decay(Elapsed(clock(2 * fails), lastUpdate), current);
        var next := Updated(current, decayed, latencyMicros % WORD);
        UpdatedBounds(current, decayed, latencyMicros % WORD);
        if peakEwmaMicros == current {
          peakEwmaMicros, lastUpdate := next, clock(2 * fails + 1);
          return;
        }
        fails := fails + 1;
      }
    }
  }

  /** Counts a request from its construction until it is dropped. */
  class PendingRequestGuard {
    const metrics: ServiceMetrics

    /** The increment comes first, then the guard. */
    constructor (metrics: ServiceMetrics)
      modifies metrics`pendingRequests
      ensures this.metrics == metrics
      ensures metrics.pendingRequests == Increment(old(metrics.pendingRequests))
    {
      this.metrics := metrics;
      new;
      metrics.pendingRequests := Increment(metrics.pendingRequests);
    }

    method Drop()
      modifies metrics`pendingRequests
      ensures metrics.pendingRequests == Decrement(old(metrics.pendingRequests))
    {
      metrics.pendingRequests := Decrement(metrics.pendingRequests);
    }
  }
}
