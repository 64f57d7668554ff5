/**
 The latency average, updated by a compare-and-swap loop, under every
 interleaving of any number of calls. One step is one atomic access: the load,
 taking the time lock, the swap, and stamping the time. Decay is any value
 between zero and the value loaded; the average is computed in integers.
 */
module Ewma {
  import opened Basics

  function Max(a: nat, b: nat): nat { if a >= b then a else b }

  /** The value stored for a sample when `current` was there and has decayed to `decayed`. */
  function Updated(current: nat, decayed: nat, sample: nat): nat {
    if current == 0 then sample else (Max(decayed, sample) + 3 * decayed) / 4
  }

  /** An update is at least the decayed old value and a quarter of the sample, and at most the larger of the two. */
  lemma UpdatedBounds(current: nat, decayed: nat, sample: nat)
    requires decayed <= current
    ensures var v := Updated(current, decayed, sample);
            v <= Max(decayed, sample) && (current != 0 ==> v >= decayed && v >= sample / 4)
  {
  }

  /** The average as the source writes it, without the rounding of doubles. */
  lemma UpdatedOverReals(current: nat, decayed: nat, sample: nat)
    requires current != 0
    ensures Updated(current, decayed, sample) == (Max(decayed, sample) as real * 0.25 + decayed as real * 0.75).Floor
  {
    var total := Max(decayed, sample) + 3 * decayed;
    assert Max(decayed, sample) as real * 0.25 + decayed as real * 0.75 == total as real / 4.0;
    assert total == 4 * (total / 4) + total % 4;
    assert total as real / 4.0 == (total / 4) as real + (total % 4) as real / 4.0;
  }

  /** Decay by any factor between zero and one is one of the values that the system allows. */
  lemma DecayOverReals(current: nat, factor: real)
    requires 0.0 <= factor <= 1.0
    ensures 0 <= (current as real * factor).Floor <= current
  {
    assert 0.0 <= current as real * factor <= current as real;
  }

  // ----- the system

  /** `seen` is the number of swaps that had succeeded when the value was loaded; `fails` counts failed swaps. */
  datatype Task =
    | Ready(sample: nat, fails: nat)
    | Loaded(sample: nat, fails: nat, current: nat, seen: nat)
    | Locked(sample: nat, fails: nat, current: nat, seen: nat, decayed: nat)  // holds the time lock
    | Stamping(sample: nat, fails: nat)     // first measurement stored, time not yet set
    | Done(sample: nat, fails: nat)

  /** A successful swap. */
  datatype Update = Update(task: nat, decayed: nat, sample: nat)

  datatype State = State(value: nat, lock: Option<nat>, tasks: seq<Task>, history: seq<Update>)

  datatype Act = Load | TakeLock(decayed: nat) | Swap | Stamp

  datatype Step = Call(latencyMicros: nat) | At(t: nat, act: Act)

  const INITIAL: State := State(0, None, [], [])

  function Advance(s: State, t: nat, act: Act): State
    requires t < |s.tasks|
  {
    match (act, s.tasks[t])
    case (Load, Ready(sample, fails)) =>
      s.(tasks := s.tasks[t := Loaded(sample, fails, s.value, |s.history|)])
    case (TakeLock(decayed), Loaded(sample, fails, current, seen)) =>
      if current != 0 && decayed <= current && s.lock.None?
      then s.(tasks := s.tasks[t := Locked(sample, fails, current, seen, decayed)], lock := Some(t))
      else s
    case (Swap, Loaded(sample, fails, current, seen)) =>
      if current != 0 then s
      else if s.value == 0
      then s.(value := sample, tasks := s.tasks[t := Stamping(sample, fails)],
              history := s.history + [Update(t, 0, sample)])
      else s.(tasks := s.tasks[t := Ready(sample, fails + 1)])
    case (Swap, Locked(sample, fails, current, seen, decayed)) =>
      if s.value == current
      then s.(value := Updated(current, decayed, sample), lock := None, tasks := s.tasks[t := Done(sample, fails)],
              history := s.history + [Update(t, decayed, sample)])
      else s.(lock := None, tasks := s.tasks[t := Ready(sample, fails + 1)])
    case (Stamp, Stamping(sample, fails)) =>
      if s.lock.None? then s.(tasks := s.tasks[t := Done(sample, fails)]) else s
    case _ => s
  }

  function Next(s: State, step: Step): State {
    match step
    case Call(latency) => s.(tasks := s.tasks + [Ready(latency % WORD, 0)])
    case At(t, act) => if t < |s.tasks| then Advance(s, t, act) else s
  }

  function Execute(steps: seq<Step>): State {
    if steps == [] then INITIAL else Next(Execute(steps[..|steps| - 1]), steps[|steps| - 1])
  }

  // ----- what holds in every interleaving

  /** The value after the successful swaps, applied one after the other. */
  function FoldUpdates(history: seq<Update>): nat {
    if history == [] then 0
    else Updated(FoldUpdates(history[..|history| - 1]), history[|history| - 1].decayed, history[|history| - 1].sample)
  }

  /** The task's swap has succeeded. */
  predicate Swapped(task: Task) { task.Stamping? || task.Done? }

  ghost predicate InHistory(history: seq<Update>, t: nat, sample: nat) {
    exists k | 0 <= k < |history| :: history[k].task == t && history[k].sample == sample
  }

  /** A loaded value is the fold of the swaps seen, and every failure so far saw a further swap. */
  ghost predicate TaskOk(s: State, t: nat)
    requires t < |s.tasks|
  {
    match s.tasks[t]
    case Ready(_, fails) => fails <= |s.history|
    case Loaded(_, fails, current, seen) => fails <= seen <= |s.history| && current == FoldUpdates(s.history[..seen])
    case Locked(_, fails, current, seen, decayed) =>
      fails <= seen <= |s.history| && current == FoldUpdates(s.history[..seen]) && decayed <= current && current != 0
    case Stamping(sample, fails) => fails < |s.history| && InHistory(s.history, t, sample)
    case Done(sample, fails) => fails < |s.history| && InHistory(s.history, t, sample)
  }

  ghost predicate Inv(s: State) {
    && s.value == FoldUpdates(s.history)
    && (forall t | 0 <= t < |s.tasks| :: TaskOk(s, t))
    && (forall k | 0 <= k < |s.history| ::
          s.history[k].task < |s.tasks| && Swapped(s.tasks[s.history[k].task])
          && s.history[k].sample == s.tasks[s.history[k].task].sample
          && s.history[k].decayed <= FoldUpdates(s.history[..k]))
    && (forall k, l | 0 <= k < l < |s.history| :: s.history[k].task != s.history[l].task)
    && (forall t | 0 <= t < |s.tasks| :: s.tasks[t].Locked? <==> s.lock == Some(t))
    && (s.lock.Some? ==> s.lock.value < |s.tasks|)
  }

  /** What holds of a task goes on holding when others move. */
  lemma UntouchedOk(s: State, s': State, t: nat)
    requires t < |s.tasks| && t < |s'.tasks| && s'.tasks[t] == s.tasks[t] && TaskOk(s, t)
    requires s.history <= s'.history
    ensures TaskOk(s', t)
  {
    hide FoldUpdates;
    match s.tasks[t]
    case Loaded(_, _, _, seen) => assert s'.history[..seen] == s.history[..seen];
    case Locked(_, _, _, seen, _) => assert s'.history[..seen] == s.history[..seen];
    case Stamping(sample, _) => StaysInHistory(s.history, s'.history, t, sample);
    case Done(sample, _) => StaysInHistory(s.history, s'.history, t, sample);
    case _ =>
  }

  lemma StaysInHistory(history: seq<Update>, history': seq<Update>, t: nat, sample: nat)
    requires history <= history' && InHistory(history, t, sample)
    ensures InHistory(history', t, sample)
  {
    var k :| 0 <= k < |history| && history[k].task == t && history[k].sample == sample;
    assert history'[k] == history[k];
  }

  /** A task whose swap has not succeeded is not in the history. */
  lemma UnswappedAbsent(s: State, t: nat)
    requires Inv(s) && t < |s.tasks| && !Swapped(s.tasks[t])
    ensures forall k | 0 <= k < |s.history| :: s.history[k].task != t
  {
  }

  /** A swap can only fail because another one succeeded since the load. */
  lemma FailureMeansProgress(s: State, seen: nat, current: nat)
    requires s.value == FoldUpdates(s.history) && seen <= |s.history| && current == FoldUpdates(s.history[..seen])
    requires s.value != current
    ensures seen < |s.history|
  {
    assert s.history[..|s.history|] == s.history;
  }

  /** A successful swap of task `t`. */
  lemma SuccessKeeps(s: State, t: nat, decayed: nat, s': State)
    requires Inv(s) && t < |s.tasks| && !Swapped(s.tasks[t]) && decayed <= s.value
    requires s.tasks[t].fails <= |s.history|
    requires var task := s.tasks[t];
             && s'.value == Updated(s.value, decayed, task.sample)
             && s'.history == s.history + [Update(t, decayed, task.sample)]
             && s'.tasks == s.tasks[t := if task.Locked? then Done(task.sample, task.fails)
                                         else Stamping(task.sample, task.fails)]
             && s'.lock == if task.Locked? then None else s.lock
    ensures Inv(s')
  {
    hide FoldUpdates, Updated;
    UnswappedAbsent(s, t);
    var u := Update(t, decayed, s.tasks[t].sample);
    FoldNext(s.history, u);
    assert s'.history[|s.history|] == u;
    forall i | 0 <= i < |s'.tasks| ensures TaskOk(s', i) {
      if i != t { UntouchedOk(s, s', i); }
    }
    forall k | 0 <= k < |s'.history| ensures s'.history[k].decayed <= FoldUpdates(s'.history[..k]) {
      if k < |s.history| {
        assert s'.history[..k] == s.history[..k];
      } else {
        assert s'.history[..k] == s.history;
      }
    }
  }

  lemma FoldNext(history: seq<Update>, u: Update)
    ensures FoldUpdates(history + [u]) == Updated(FoldUpdates(history), u.decayed, u.sample)
  {
    assert (history + [u])[..|history|] == history;
  }

  /** A step of task `t` that swaps nothing. */
  lemma QuietKeeps(s: State, t: nat, s': State)
    requires Inv(s) && t < |s.tasks|
    requires s'.value == s.value && s'.history == s.history
    requires |s'.tasks| == |s.tasks| && (forall i | 0 <= i < |s.tasks| && i != t :: s'.tasks[i] == s.tasks[i])
    requires TaskOk(s', t) && (Swapped(s'.tasks[t]) <==> Swapped(s.tasks[t])) && s'.tasks[t].sample == s.tasks[t].sample
    requires s'.lock == (if s'.tasks[t].Locked? then Some(t) else if s.tasks[t].Locked? then None else s.lock)
    requires s'.tasks[t].Locked? && !s.tasks[t].Locked? ==> s.lock.None?
    ensures Inv(s')
  {
    hide FoldUpdates;
    forall i | 0 <= i < |s'.tasks| ensures TaskOk(s', i) {
      if i != t { UntouchedOk(s, s', i); }
    }
  }

  lemma AdvanceKeeps(s: State, t: nat, act: Act)
    requires Inv(s) && t < |s.tasks|
    ensures Inv(Advance(s, t, act))
  {
    hide FoldUpdates, Updated;
    var s' := Advance(s, t, act);
    assert TaskOk(s, t);
    match (act, s.tasks[t])
    case (Load, Ready(_, _)) =>
      assert s.history[..|s.history|] == s.history;
      QuietKeeps(s, t, s');
    case (TakeLock(_), Loaded(_, _, _, _)) =>
      if s' != s { QuietKeeps(s, t, s'); }
    case (Swap, Loaded(_, _, current, seen)) =>
      if s'.history != s.history {
        FirstUpdate(s.tasks[t].sample);
        SuccessKeeps(s, t, 0, s');
      } else if s' != s {
        FailureMeansProgress(s, seen, current);
        QuietKeeps(s, t, s');
      }
    case (Swap, Locked(_, _, current, seen, decayed)) =>
      if s.value == current {
        SuccessKeeps(s, t, decayed, s');
      } else {
        FailureMeansProgress(s, seen, current);
        QuietKeeps(s, t, s');
      }
    case (Stamp, Stamping(_, _)) =>
      if s' != s { QuietKeeps(s, t, s'); }
    case _ =>
  }

  lemma FirstUpdate(sample: nat)
    ensures Updated(0, 0, sample) == sample
  {
  }

  lemma CallKeeps(s: State, latency: nat)
    requires Inv(s)
    ensures Inv(Next(s, Call(latency)))
  {
    hide FoldUpdates;
    var s' := Next(s, Call(latency));
    forall i | 0 <= i < |s'.tasks| ensures TaskOk(s', i) {
      if i < |s.tasks| { UntouchedOk(s, s', i); }
    }
  }

  lemma {:induction false} AlwaysInv(steps: seq<Step>)
    ensures Inv(Execute(steps))
  {
    hide Advance, FoldUpdates;
    if steps == [] {
      EmptyFold();
    } else {
      var s, step := Execute(steps[..|steps| - 1]), steps[|steps| - 1];
      AlwaysInv(steps[..|steps| - 1]);
      match step
      case Call(latency) => CallKeeps(s, latency);
      case At(t, act) => if t < |s.tasks| { AdvanceKeeps(s, t, act); }
    }
  }

  lemma EmptyFold()
    ensures FoldUpdates([]) == 0
  {
  }

  // ----- the results

  /**
   No update is lost and none applied twice: the value is the fold of the
   successful swaps, one for each finished call.
   */
  lemma NoLostUpdate(steps: seq<Step>)
    ensures var s := Execute(steps);
            && s.value == FoldUpdates(s.history)
            && (forall k, l | 0 <= k < l < |s.history| :: s.history[k].task != s.history[l].task)
            && (forall t | 0 <= t < |s.tasks| ::
                  Swapped(s.tasks[t]) <==> exists k | 0 <= k < |s.history| :: s.history[k].task == t)
            && (forall k | 0 <= k < |s.history| ::
                  s.history[k].task < |s.tasks| && s.history[k].sample == s.tasks[s.history[k].task].sample
                  && s.history[k].decayed <= FoldUpdates(s.history[..k]))
  {
    hide Execute, FoldUpdates;
    AlwaysInv(steps);
    var s := Execute(steps);
    forall t | 0 <= t < |s.tasks| && Swapped(s.tasks[t])
      ensures exists k | 0 <= k < |s.history| :: s.history[k].task == t
    {
      assert TaskOk(s, t);
      var k :| 0 <= k < |s.history| && s.history[k].task == t && s.history[k].sample == s.tasks[t].sample;
    }
  }

  /** Each stored value is bounded by the largest latency recorded so far. */
  lemma {:induction false} FoldBounded(history: seq<Update>, bound: nat)
    requires forall k | 0 <= k < |history| ::
               history[k].sample <= bound && history[k].decayed <= FoldUpdates(history[..k])
    ensures FoldUpdates(history) <= bound
  {
    if history != [] {
      var front, last := history[..|history| - 1], history[|history| - 1];
      forall k | 0 <= k < |front| ensures front[k].sample <= bound && front[k].decayed <= FoldUpdates(front[..k]) {
        assert front[..k] == history[..k];
      }
      FoldBounded(front, bound);
      UpdatedBounds(FoldUpdates(front), last.decayed, last.sample);
    }
  }

  lemma NeverAboveTheLargestLatency(steps: seq<Step>, bound: nat)
    requires forall t | 0 <= t < |Execute(steps).tasks| :: Execute(steps).tasks[t].sample <= bound
    ensures Execute(steps).value <= bound
  {
    hide Execute, FoldUpdates;
    NoLostUpdate(steps);
    FoldBounded(Execute(steps).history, bound);
  }

  /** Among k calls none fails its swap more than k - 1 times. */
  lemma FewFailures(steps: seq<Step>, t: nat)
    requires t < |Execute(steps).tasks|
    ensures Execute(steps).tasks[t].fails <= |Execute(steps).tasks| - 1
  {
    hide Execute, FoldUpdates;
    AlwaysInv(steps);
    var s := Execute(steps);
    assert TaskOk(s, t);
    var all := Below(|s.tasks|);
    BelowSize(|s.tasks|);
    var winners := seq(|s.history|, k requires 0 <= k < |s.history| => s.history[k].task);
    if Swapped(s.tasks[t]) {
      DistinctLength(winners, all);
    } else {
      UnswappedAbsent(s, t);
      DistinctLength(winners, all - {t});
    }
  }

  /** The time lock is held only inside one step sequence of its holder, who can always go on: no deadlock. */
  lemma SomeoneCanMove(steps: seq<Step>, t: nat)
    requires var s := Execute(steps); t < |s.tasks| && !s.tasks[t].Done?
    ensures exists u: nat, act: Act :: Next(Execute(steps), At(u, act)) != Execute(steps)
  {
    hide Execute, FoldUpdates, Updated;
    AlwaysInv(steps);
    var s := Execute(steps);
    var u := if s.lock.Some? then s.lock.value else t;
    var act := match s.tasks[u]
               case Ready(_, _) => Load
               case Loaded(_, _, current, _) => if current == 0 then Swap else TakeLock(0)
               case Locked(_, _, _, _, _) => Swap
               case _ => Stamp;
    var s' := Next(s, At(u, act));
    assert s'.tasks[u] != s.tasks[u];
  }

  /** While one call holds the lock no other has it, gets it, or stamps the time. */
  lemma LockExcludes(steps: seq<Step>, u: nat, t: nat, act: Act)
    requires u < |Execute(steps).tasks| && t < |Execute(steps).tasks| && t != u && Execute(steps).tasks[u].Locked?
    ensures !Execute(steps).tasks[t].Locked?
    ensures act.TakeLock? || act == Stamp ==> Next(Execute(steps), At(t, act)) == Execute(steps)
  {
    hide Execute, FoldUpdates, Updated;
    AlwaysInv(steps);
  }

  // ----- one attempt of the loop

  lemma {:induction false} OthersLeave(steps: seq<Step>, others: seq<Step>, t: nat)
    requires t < |Execute(steps).tasks|
    requires forall step | step in others :: !(step.At? && step.t == t)
    ensures t < |Execute(steps + others).tasks| && Execute(steps + others).tasks[t] == Execute(steps).tasks[t]
  {
    if others == [] {
      assert steps + others == steps;
    } else {
      var front, last := others[..|others| - 1], others[|others| - 1];
      assert last in others && (steps + others)[..|steps + others| - 1] == steps + front;
      OthersLeave(steps, front, t);
    }
  }

  lemma ExecuteNext(steps: seq<Step>, step: Step)
    ensures Execute(steps + [step]) == Next(Execute(steps), step)
  {
    assert (steps + [step])[..|steps|] == steps;
  }

  /** A call records its latency, cut to 64 bits; a step of another call leaves it alone. */
  lemma CallRecords(steps: seq<Step>, latencyMicros: nat)
    ensures Execute(steps + [Call(latencyMicros)]).tasks ==
            Execute(steps).tasks + [Ready(latencyMicros % 0x1_0000_0000_0000_0000, 0)]
    ensures Execute(steps + [Call(latencyMicros)]).value == Execute(steps).value
  {
    hide Execute;
    ExecuteNext(steps, Call(latencyMicros));
  }

  /**
   One turn of the loop is a load, what others do meanwhile, the lock unless the
   value was zero, and the swap. It succeeds exactly if the others left the value
   as it was, and then stores one update of it.
   */
  lemma AttemptIsARun(steps: seq<Step>, others: seq<Step>, t: nat, decayed: nat)
    requires t < |Execute(steps).tasks| && Execute(steps).tasks[t].Ready? && decayed <= Execute(steps).value
    requires forall step | step in others :: !(step.At? && step.t == t)
    requires Execute(steps).value != 0 ==> Execute(steps + [At(t, Load)] + others).lock.None?
    ensures var s, after := Execute(steps), Execute(steps + [At(t, Load)] + others);
            var own := if s.value == 0 then [At(t, Swap)] else [At(t, TakeLock(decayed)), At(t, Swap)];
            var s' := Execute(steps + [At(t, Load)] + others + own);
            var sample, fails := s.tasks[t].sample, s.tasks[t].fails;
            && t < |s'.tasks|
            && (after.value == s.value ==>
                  && s'.value == Updated(s.value, decayed, sample)
                  && s'.tasks[t] == if s.value == 0 then Stamping(sample, fails) else Done(sample, fails))
            && (after.value != s.value ==> s'.value == after.value && s'.tasks[t] == Ready(sample, fails + 1))
  {
    hide Execute, Updated, FoldUpdates;
    var s := Execute(steps);
    var loaded := steps + [At(t, Load)];
    ExecuteNext(steps, At(t, Load));
    OthersLeave(loaded, others, t);
    var before := loaded + others;
    assert Execute(before).tasks[t] == Loaded(s.tasks[t].sample, s.tasks[t].fails, s.value, |s.history|);
    if s.value == 0 {
      ExecuteNext(before, At(t, Swap));
      assert Updated(0, decayed, s.tasks[t].sample) == s.tasks[t].sample by { FirstUpdate(s.tasks[t].sample); }
    } else {
      ExecuteNext(before, At(t, TakeLock(decayed)));
      ExecuteNext(before + [At(t, TakeLock(decayed))], At(t, Swap));
      assert before + [At(t, TakeLock(decayed)), At(t, Swap)] == before + [At(t, TakeLock(decayed))] + [At(t, Swap)];
    }
  }
}
