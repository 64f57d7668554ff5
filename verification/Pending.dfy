/**
 The pending-request counters under every interleaving: the discovery task
 changes and publishes the list, requests start on whatever snapshot they got,
 choose an endpoint by two separate loads, raise its counter, create the guard,
 and drop it when they complete, fail, are cancelled or unwind.
 */
module Pending {
  import opened Basics
  import opened Discovery
  import PowerOfTwo

  /** A request. `prefix` says how much of the log its snapshot reflects; metrics objects are named by their birth. */
  datatype Task =
    | Called(prefix: nat)
    | Drawn(prefix: nat, i: nat, j: nat)
    | ReadOne(prefix: nat, i: nat, j: nat, load1: nat)
    | Chosen(metrics: nat)
    | Raised(metrics: nat)              // after the increment, before the guard exists
    | Guarded(metrics: nat)
    | Finished

  datatype State = State(log: seq<Change>, published: nat, pending: map<nat, nat>, tasks: seq<Task>)

  datatype Act =
    | Draw(i: nat, j: nat)
    | ReadFirst
    | ReadSecond
    | Raise
    | MakeGuard
    | Drop                              // of the guard, or of a request never polled

  datatype Step =
    | Discover(change: Change)
    | Publish
    | Call
    | At(t: nat, act: Act)

  const INITIAL: State := State([], 0, map[], [])

  function Load(s: State, m: nat): nat { if m in s.pending then s.pending[m] else 0 }

  function SnapshotOf(s: State, prefix: nat): seq<Entry> {
    if prefix <= |s.log| then Fold(s.log[..prefix]) else []
  }

  function Moved(s: State, task: Task, act: Act): Task {
    match (act, task)
    case (Draw(i, j), Called(prefix)) =>
      var snapshot := SnapshotOf(s, prefix);
      if snapshot == [] then Finished
      else if |snapshot| == 1 then Chosen(snapshot[0].birth)
      else if i != j && i < |snapshot| && j < |snapshot| then Drawn(prefix, i, j)
      else task
    case (ReadFirst, Drawn(prefix, i, j)) =>
      var snapshot := SnapshotOf(s, prefix);
      if i < |snapshot| then ReadOne(prefix, i, j, Load(s, snapshot[i].birth)) else task
    case (ReadSecond, ReadOne(prefix, i, j, load1)) =>
      var snapshot := SnapshotOf(s, prefix);
      if i < |snapshot| && j < |snapshot|
      then Chosen(snapshot[PowerOfTwo.Choose(i, load1, j, Load(s, snapshot[j].birth))].birth)
      else task
    case (Raise, Chosen(m)) => Raised(m)
    case (MakeGuard, Raised(m)) => Guarded(m)
    case (Drop, Guarded(m)) => Finished
    case (Drop, Called(_)) => Finished
    case _ => task
  }

  /** The atomic effect on the counters: `fetch_add` and `fetch_sub` wrap. */
  function Counted(s: State, task: Task, act: Act): map<nat, nat> {
    match (act, task)
    case (Raise, Chosen(m)) => s.pending[m := Increment(Load(s, m))]
    case (Drop, Guarded(m)) => s.pending[m := Decrement(Load(s, m))]
    case _ => s.pending
  }

  function Next(s: State, step: Step): State {
    match step
    case Discover(change) => if s.published == |s.log| then s.(log := s.log + [change]) else s
    case Publish => s.(published := |s.log|)
    case Call => s.(tasks := s.tasks + [Called(s.published)])
    case At(t, act) =>
      if t < |s.tasks|
      then s.(tasks := s.tasks[t := Moved(s, s.tasks[t], act)], pending := Counted(s, s.tasks[t], act))
      else s
  }

  function Execute(s: State, steps: seq<Step>): State {
    if steps == [] then s else Next(Execute(s, steps[..|steps| - 1]), steps[|steps| - 1])
  }

  // ----- the counters

  function Counts(m: nat): Task -> nat {
    (task: Task) => if task == Raised(m) || task == Guarded(m) then 1 else 0
  }

  /** Live guards of a metrics object, and requests between its increment and their guard. */
  ghost function InFlight(s: State, m: nat): nat { Sum(s.tasks, Counts(m)) }

  ghost predicate Exact(s: State) { forall m: nat :: Load(s, m) == InFlight(s, m) % WORD }

  /** How a move changes the number of requests a counter stands for, and the counter. */
  lemma MoveCounts(s: State, task: Task, act: Act, m: nat)
    ensures var load' := if m in Counted(s, task, act) then Counted(s, task, act)[m] else 0;
            if act == Raise && task == Chosen(m)
            then Counts(m)(Moved(s, task, act)) == Counts(m)(task) + 1 && load' == (Load(s, m) + 1) % WORD
            else if act == Drop && task == Guarded(m)
            then Counts(m)(Moved(s, task, act)) + 1 == Counts(m)(task) && load' == (Load(s, m) + WORD - 1) % WORD
            else Counts(m)(Moved(s, task, act)) == Counts(m)(task) && load' == Load(s, m)
  {
    hide SnapshotOf;
  }

  lemma WrapUp(load: nat, count: nat)
    requires load == count % WORD
    ensures (load + 1) % WORD == (count + 1) % WORD
    ensures count >= 1 ==> (load + WORD - 1) % WORD == (count - 1) % WORD
  {
  }

  lemma StepExact(s: State, t: nat, act: Act, m: nat)
    requires t < |s.tasks| && Load(s, m) == InFlight(s, m) % WORD
    ensures Load(Next(s, At(t, act)), m) == InFlight(Next(s, At(t, act)), m) % WORD
  {
    hide SnapshotOf, Moved, Counted, Counts;
    MoveCounts(s, s.tasks[t], act, m);
    SumUpdate(s.tasks, t, Moved(s, s.tasks[t], act), Counts(m));
    WrapUp(Load(s, m), InFlight(s, m));
  }

  lemma {:induction false} AlwaysExact(steps: seq<Step>)
    ensures Exact(Execute(INITIAL, steps))
  {
    hide Counts, Moved, Counted, SnapshotOf;
    if steps == [] {
      assert forall m: nat :: InFlight(INITIAL, m) == 0;
    } else {
      var s, step := Execute(INITIAL, steps[..|steps| - 1]), steps[|steps| - 1];
      AlwaysExact(steps[..|steps| - 1]);
      forall m: nat ensures Load(Next(s, step), m) == InFlight(Next(s, step), m) % WORD {
        assert Load(s, m) == InFlight(s, m) % WORD;
        match step
        case Discover(_) =>
        case Publish =>
        case Call => CallCounts(s, m);
        case At(t, act) => if t < |s.tasks| { StepExact(s, t, act, m); }
      }
    }
  }

  lemma CallCounts(s: State, m: nat)
    ensures InFlight(Next(s, Call), m) == InFlight(s, m)
  {
    SumAppend(s.tasks, Called(s.published), Counts(m));
  }

  lemma InsideWord(count: nat)
    requires 1 <= count < WORD
    ensures count % WORD == count && (count + WORD - 1) % WORD == count - 1
  {
  }

  /** With fewer than 2^64 requests in flight a counter is their number, and no decrement goes below zero. */
  lemma NoUnderflow(steps: seq<Step>, t: nat)
    requires var s := Execute(INITIAL, steps);
             t < |s.tasks| && s.tasks[t].Guarded? && InFlight(s, s.tasks[t].metrics) < WORD
    ensures var s := Execute(INITIAL, steps); var m := s.tasks[t].metrics;
            Load(s, m) == InFlight(s, m) >= 1 && Load(Next(s, At(t, Drop)), m) == Load(s, m) - 1
  {
    hide Execute, Moved, Counted, SnapshotOf;
    AlwaysExact(steps);
    var s := Execute(INITIAL, steps);
    var m := s.tasks[t].metrics;
    SumAtLeast(s.tasks, t, Counts(m));
    assert Load(s, m) == InFlight(s, m) % WORD;
    InsideWord(InFlight(s, m));
    MoveCounts(s, s.tasks[t], Drop, m);
  }

  // ----- removed endpoints

  /** How much of the log a request that has not chosen yet relies on. */
  function Prefix(task: Task): Option<nat> {
    match task
    case Called(prefix) => Some(prefix)
    case Drawn(prefix, _, _) => Some(prefix)
    case ReadOne(prefix, _, _, _) => Some(prefix)
    case _ => None
  }

  ghost predicate Mentions(list: seq<Entry>, m: nat) { exists a | 0 <= a < |list| :: list[a].birth == m }

  /** The task may still come to use this metrics object. */
  ghost predicate MayUse(s: State, task: Task, m: nat) {
    match Prefix(task)
    case Some(prefix) => Mentions(SnapshotOf(s, prefix), m)
    case None => task == Chosen(m) || task == Raised(m) || task == Guarded(m)
  }

  ghost predicate WellFormed(s: State) {
    && s.published <= |s.log|
    && forall t | 0 <= t < |s.tasks| && Prefix(s.tasks[t]).Some? :: Prefix(s.tasks[t]).value <= s.published
  }

  /** The object was made once, and is neither listed nor published any more. */
  ghost predicate Removed(s: State, m: nat) {
    m < |s.log| && !Mentions(Fold(s.log), m) && !Mentions(SnapshotOf(s, s.published), m)
  }

  /** The requests that may still come to use it, or use it now. */
  ghost function Users(s: State, m: nat): set<nat> {
    set t | 0 <= t < |s.tasks| && MayUse(s, s.tasks[t], m)
  }

  /** The list mentions an object exactly as long as no later change is about the key it was inserted for. */
  lemma MentionedIff(log: seq<Change>, m: nat)
    requires m < |log|
    ensures Mentions(Fold(log), m) <==> BornAt(log, log[m].key, m)
  {
    hide Fold, InArrivalOrder, Departed;
    FoldCharacterised(log);
    var list := Fold(log);
    if Mentions(list, m) {
      var a :| 0 <= a < |list| && list[a].birth == m;
      assert BornAt(log, list[a].key, list[a].birth);
    }
    if BornAt(log, log[m].key, m) {
      var a :| 0 <= a < |list| && list[a].key == log[m].key;
      assert BornAt(log, list[a].key, list[a].birth);
    }
  }

  lemma AppliedEntry(list: seq<Entry>, change: Change, birth: nat, a: nat) returns (a': nat)
    requires a < |Applied(list, change, birth)| && Applied(list, change, birth)[a].birth != birth
    ensures a' < |list| && list[a'] == Applied(list, change, birth)[a]
  {
    match change
    case Insert(key, target) =>
      a' := a;
      assert a < |list|;
    case Remove(key) =>
      a' := WithoutEntry(list, key, a);
  }

  /** A list only ever gains the entry made by the newest change. */
  lemma MentionedBefore(log: seq<Change>, change: Change, m: nat)
    requires Mentions(Fold(log + [change]), m)
    ensures Mentions(Fold(log), m) || m == |log|
  {
    hide Applied;
    assert (log + [change])[..|log|] == log;
    var list' := Applied(Fold(log), change, |log|);
    var a :| 0 <= a < |list'| && list'[a].birth == m;
    if m != |log| {
      var a' := AppliedEntry(Fold(log), change, |log|, a);
      assert Fold(log)[a'].birth == m;
    }
  }

  lemma SameSnapshots(s: State, step: Step, prefix: nat)
    requires prefix <= |s.log|
    ensures SnapshotOf(Next(s, step), prefix) == SnapshotOf(s, prefix)
  {
    hide Moved, Counted, Fold;
    if step.Discover? {
      assert (s.log + [step.change])[..prefix] == s.log[..prefix];
    }
  }

  lemma MovedPrefix(s: State, task: Task, act: Act)
    ensures Prefix(Moved(s, task, act)).Some? ==> Prefix(Moved(s, task, act)) == Prefix(task)
  {
    hide SnapshotOf, Load;
  }

  lemma {:induction false} AlwaysWellFormed(steps: seq<Step>)
    ensures WellFormed(Execute(INITIAL, steps))
  {
    hide Moved, Counted;
    if steps != [] {
      var s, step := Execute(INITIAL, steps[..|steps| - 1]), steps[|steps| - 1];
      AlwaysWellFormed(steps[..|steps| - 1]);
      if step.At? && step.t < |s.tasks| { MovedPrefix(s, s.tasks[step.t], step.act); }
    }
  }

  /** A task that moves can use nothing it could not use before. */
  lemma MovedUses(s: State, task: Task, act: Act, m: nat)
    ensures MayUse(s, Moved(s, task, act), m) ==> MayUse(s, task, m)
  {
    hide SnapshotOf, Load;
  }

  lemma RemovedNext(s: State, step: Step, m: nat)
    requires WellFormed(s) && Removed(s, m)
    ensures Removed(Next(s, step), m)
  {
    hide Moved, Counted, Fold, Mentions;
    var s' := Next(s, step);
    assert !Mentions(Fold(s'.log), m) by {
      if step.Discover? && s.published == |s.log| && Mentions(Fold(s'.log), m) {
        MentionedBefore(s.log, step.change, m);
      }
    }
    SameSnapshots(s, step, s.published);
    assert s'.log[..|s'.log|] == s'.log && s.log[..|s.log|] == s.log;
  }

  /** No step gives a removed object a new user. */
  lemma UsersNext(s: State, step: Step, m: nat)
    requires WellFormed(s) && Removed(s, m)
    ensures Users(Next(s, step), m) <= Users(s, m)
  {
    hide Next, MayUse, Removed, WellFormed;
    forall t | t in Users(Next(s, step), m) ensures t in Users(s, m) {
      UserBefore(s, step, m, t);
    }
  }

  lemma UserBefore(s: State, step: Step, m: nat, t: nat)
    requires WellFormed(s) && Removed(s, m)
    requires t < |Next(s, step).tasks| && MayUse(Next(s, step), Next(s, step).tasks[t], m)
    ensures t < |s.tasks| && MayUse(s, s.tasks[t], m)
  {
    hide Moved, Counted, Fold, Mentions, SnapshotOf;
    var task := Next(s, step).tasks[t];
    if t < |s.tasks| && step.At? && step.t == t {
      MovedUses(s, s.tasks[t], step.act, m);
      MovedPrefix(s, s.tasks[t], step.act);
    }
    if Prefix(task).Some? {
      SameSnapshots(s, step, Prefix(task).value);
    }
  }

  // ----- what a request starts on, and which endpoint it gets

  lemma ExecuteNext(steps: seq<Step>, step: Step)
    ensures Execute(INITIAL, steps + [step]) == Next(Execute(INITIAL, steps), step)
  {
    assert (steps + [step])[..|steps|] == steps;
  }

  /** A snapshot, once taken, never changes. */
  lemma {:induction false} SnapshotKeeps(steps: seq<Step>, more: seq<Step>, prefix: nat)
    requires prefix <= |Execute(INITIAL, steps).log|
    ensures prefix <= |Execute(INITIAL, steps + more).log|
    ensures SnapshotOf(Execute(INITIAL, steps + more), prefix) == SnapshotOf(Execute(INITIAL, steps), prefix)
  {
    hide SnapshotOf, Moved, Counted;
    if more == [] {
      assert steps + more == steps;
    } else {
      var front, last := more[..|more| - 1], more[|more| - 1];
      SnapshotKeeps(steps, front, prefix);
      assert (steps + more)[..|steps + more| - 1] == steps + front;
      SameSnapshots(Execute(INITIAL, steps + front), last, prefix);
    }
  }

  lemma {:induction false} PublishedStays(steps: seq<Step>, more: seq<Step>)
    requires Publish !in more
    ensures Execute(INITIAL, steps + more).published == Execute(INITIAL, steps).published
  {
    hide Moved, Counted;
    if more == [] {
      assert steps + more == steps;
    } else {
      var front, last := more[..|more| - 1], more[|more| - 1];
      assert last in more && (steps + more)[..|steps + more| - 1] == steps + front;
      PublishedStays(steps, front);
    }
  }

  /**
   A request starts on the list published last, whatever was logged since, and
   on no endpoint before the first publication.
   */
  lemma StartsOnPublished(steps: seq<Step>, between: seq<Step>)
    requires Publish !in between
    ensures var log := Execute(INITIAL, steps).log;
            var before := Execute(INITIAL, steps + [Publish] + between);
            var after := Execute(INITIAL, steps + [Publish] + between + [Call]);
            && after.tasks == before.tasks + [Called(|log|)]
            && SnapshotOf(after, |log|) == Fold(log)
    ensures Execute(INITIAL, between + [Call]).tasks == Execute(INITIAL, between).tasks + [Called(0)]
    ensures SnapshotOf(Execute(INITIAL, between + [Call]), 0) == []
  {
    hide Execute, Moved, Counted, Fold;
    var log := Execute(INITIAL, steps).log;
    ExecuteNext(steps, Publish);
    PublishedStays(steps + [Publish], between);
    ExecuteNext(steps + [Publish] + between, Call);
    SnapshotKeeps(steps + [Publish], between + [Call], |log|);
    assert steps + [Publish] + (between + [Call]) == steps + [Publish] + between + [Call];
    assert log[..|log|] == log;
    NothingExecuted();
    assert [] + between == between;
    PublishedStays([], between);
    ExecuteNext(between, Call);
    NothingFolded(Execute(INITIAL, between + [Call]));
  }

  lemma NothingExecuted()
    ensures Execute(INITIAL, []) == INITIAL
  {
  }

  lemma NothingFolded(s: State)
    ensures SnapshotOf(s, 0) == []
  {
  }

  /** One change and its publication: the next request sees an inserted endpoint, and no removed one. */
  lemma ChangeIsSeen(steps: seq<Step>, change: Change)
    requires Execute(INITIAL, steps).published == |Execute(INITIAL, steps).log|
    ensures var s, s' := Execute(INITIAL, steps), Execute(INITIAL, steps + [Discover(change), Publish, Call]);
            && s'.tasks == s.tasks + [Called(|s.log| + 1)]
            && match change
               case Insert(key, target) => Entry(key, target, |s.log|) in SnapshotOf(s', |s.log| + 1)
               case Remove(key) => !Discovery.Listed(SnapshotOf(s', |s.log| + 1), key)
  {
    hide Execute, Moved, Counted, Fold, Current, InArrivalOrder;
    var s := Execute(INITIAL, steps);
    ExecuteNext(steps, Discover(change));
    StartsOnPublished(steps + [Discover(change)], []);
    var log' := s.log + [change];
    assert steps + [Discover(change)] + [Publish] + [] == steps + [Discover(change)] + [Publish];
    assert steps + [Discover(change), Publish, Call] == steps + [Discover(change)] + [Publish] + [Call];
    ExecuteNext(steps + [Discover(change)], Publish);
    ChangeListed(s.log, change);
  }

  lemma ChangeListed(log: seq<Change>, change: Change)
    ensures match change
            case Insert(key, target) => Entry(key, target, |log|) in Fold(log + [change])
            case Remove(key) => !Discovery.Listed(Fold(log + [change]), key)
  {
    hide InArrivalOrder;
    assert (log + [change])[..|log|] == log;
    match change
    case Insert(key, target) =>
      var entry := Entry(key, target, |log|);
      assert Replaced(Fold(log), entry)[IndexOf(Fold(log), key)] == entry;
    case Remove(key) =>
      var list := Without(Fold(log), key);
      forall a | 0 <= a < |list| ensures list[a].key != key { var a' := WithoutEntry(Fold(log), key, a); }
  }

  /** Steps of others leave a task alone. */
  lemma {:induction false} OthersLeave(steps: seq<Step>, others: seq<Step>, t: nat)
    requires t < |Execute(INITIAL, steps).tasks|
    requires forall step | step in others :: !(step.At? && step.t == t)
    ensures t < |Execute(INITIAL, steps + others).tasks|
    ensures Execute(INITIAL, steps + others).tasks[t] == Execute(INITIAL, steps).tasks[t]
  {
    hide Moved, Counted;
    if others == [] {
      assert steps + others == steps;
    } else {
      var front, last := others[..|others| - 1], others[|others| - 1];
      assert last in others && (steps + others)[..|steps + others| - 1] == steps + front;
      OthersLeave(steps, front, t);
    }
  }

  lemma OwnStep(steps: seq<Step>, others: seq<Step>, t: nat, act: Act)
    requires t < |Execute(INITIAL, steps).tasks|
    requires forall step | step in others :: !(step.At? && step.t == t)
    ensures t < |Execute(INITIAL, steps + others + [At(t, act)]).tasks|
    ensures Execute(INITIAL, steps + others + [At(t, act)]).tasks[t] ==
            Moved(Execute(INITIAL, steps + others), Execute(INITIAL, steps).tasks[t], act)
  {
    hide Execute, Moved, Counted;
    OthersLeave(steps, others, t);
    ExecuteNext(steps + others, At(t, act));
  }

  /** On its snapshot a request finishes without an endpoint, takes the only one, or draws two. */
  lemma DrawIsARun(steps: seq<Step>, others: seq<Step>, t: nat, prefix: nat, i: nat, j: nat)
    requires t < |Execute(INITIAL, steps).tasks| && Execute(INITIAL, steps).tasks[t] == Called(prefix)
    requires forall step | step in others :: !(step.At? && step.t == t)
    ensures var snapshot := SnapshotOf(Execute(INITIAL, steps), prefix);
            var s' := Execute(INITIAL, steps + others + [At(t, Draw(i, j))]);
            && t < |s'.tasks|
            && (snapshot == [] ==> s'.tasks[t] == Finished)
            && (|snapshot| == 1 ==> s'.tasks[t] == Chosen(snapshot[0].birth))
            && (i != j && i < |snapshot| && j < |snapshot| ==> s'.tasks[t] == Drawn(prefix, i, j))
  {
    hide Execute, SnapshotOf, WellFormed;
    AlwaysWellFormed(steps);
    assert prefix <= |Execute(INITIAL, steps).log| by { TaskPrefix(Execute(INITIAL, steps), t); }
    SnapshotKeeps(steps, others, prefix);
    OwnStep(steps, others, t, Draw(i, j));
  }

  lemma TaskPrefix(s: State, t: nat)
    requires WellFormed(s) && t < |s.tasks| && Prefix(s.tasks[t]).Some?
    ensures Prefix(s.tasks[t]).value <= |s.log|
  {
  }

  /**
   Whatever others do meanwhile, a request takes one of the two endpoints that
   it has drawn: the first exactly if the load it read for it was at most the
   load that it read, later, for the second.
   */
  lemma ChoiceIsARun(steps: seq<Step>, others: seq<Step>, later: seq<Step>, t: nat, prefix: nat, i: nat, j: nat)
    requires t < |Execute(INITIAL, steps).tasks| && Execute(INITIAL, steps).tasks[t] == Drawn(prefix, i, j)
    requires forall step | step in others + later :: !(step.At? && step.t == t)
    ensures var snapshot := SnapshotOf(Execute(INITIAL, steps), prefix);
            var one := steps + others;
            var two := one + [At(t, ReadFirst)] + later;
            var s' := Execute(INITIAL, two + [At(t, ReadSecond)]);
            && i < |snapshot| && j < |snapshot| && t < |s'.tasks|
            && var load1 := Load(Execute(INITIAL, one), snapshot[i].birth);
               var load2 := Load(Execute(INITIAL, two), snapshot[j].birth);
               s'.tasks[t] == Chosen(snapshot[if load1 <= load2 then i else j].birth)
  {
    hide Execute, SnapshotOf, WellFormed, Load;
    var snapshot := SnapshotOf(Execute(INITIAL, steps), prefix);
    AlwaysInRange(steps, t);
    AlwaysWellFormed(steps);
    TaskPrefix(Execute(INITIAL, steps), t);
    assert forall step | step in others :: step in others + later;
    assert forall step | step in later :: step in others + later;
    SnapshotKeeps(steps, others, prefix);
    OwnStep(steps, others, t, ReadFirst);
    var one := steps + others;
    ExecuteNext(one, At(t, ReadFirst));
    SnapshotKeeps(one, [At(t, ReadFirst)], prefix);
    SnapshotKeeps(one + [At(t, ReadFirst)], later, prefix);
    OwnStep(one + [At(t, ReadFirst)], later, t, ReadSecond);
  }

  /** What is chosen is counted, then guarded, whatever others do in between. */
  lemma CountIsARun(steps: seq<Step>, others: seq<Step>, later: seq<Step>, t: nat, m: nat)
    requires t < |Execute(INITIAL, steps).tasks| && Execute(INITIAL, steps).tasks[t] == Chosen(m)
    requires forall step | step in others + later :: !(step.At? && step.t == t)
    ensures var one := steps + others + [At(t, Raise)];
            var s' := Execute(INITIAL, one + later + [At(t, MakeGuard)]);
            && Load(Execute(INITIAL, one), m) == Increment(Load(Execute(INITIAL, steps + others), m))
            && t < |s'.tasks| && s'.tasks[t] == Guarded(m)
  {
    hide Execute, SnapshotOf, Increment;
    assert forall step | step in others :: step in others + later;
    assert forall step | step in later :: step in others + later;
    OthersLeave(steps, others, t);
    OwnStep(steps, others, t, Raise);
    ExecuteNext(steps + others, At(t, Raise));
    OwnStep(steps + others + [At(t, Raise)], later, t, MakeGuard);
  }

  /** From every state in which endpoints are published a new request can come to be guarded on one of them. */
  lemma CanBeServed(steps: seq<Step>) returns (more: seq<Step>, a: nat)
    requires SnapshotOf(Execute(INITIAL, steps), Execute(INITIAL, steps).published) != []
    ensures var s := Execute(INITIAL, steps);
            var snapshot, s' := SnapshotOf(s, s.published), Execute(INITIAL, steps + more);
            && a < |snapshot| && |s.tasks| < |s'.tasks| && s'.tasks[|s.tasks|] == Guarded(snapshot[a].birth)
  {
    hide Execute, SnapshotOf, WellFormed, Load;
    var s := Execute(INITIAL, steps);
    var t, snapshot := |s.tasks|, SnapshotOf(s, s.published);
    assert s.published <= |s.log| by { AlwaysWellFormed(steps); PublishedInLog(s); }
    ExecuteNext(steps, Call);
    SnapshotKeeps(steps, [Call], s.published);
    var called := steps + [Call];
    DrawIsARun(called, [], t, s.published, 0, 1);
    assert called + [] == called;
    var chosen := called + [At(t, Draw(0, 1))];
    a := 0;
    if |snapshot| > 1 {
      SnapshotKeeps(called, [At(t, Draw(0, 1))], s.published);
      ChoiceIsARun(chosen, [], [], t, s.published, 0, 1);
      var two := chosen + [At(t, ReadFirst)];
      assert chosen + [] == chosen && two + [] == two;
      var load1 := Load(Execute(INITIAL, chosen), snapshot[0].birth);
      var load2 := Load(Execute(INITIAL, two), snapshot[1].birth);
      a := if load1 <= load2 then 0 else 1;
      chosen := two + [At(t, ReadSecond)];
    }
    CountIsARun(chosen, [], [], t, snapshot[a].birth);
    var raised := chosen + [At(t, Raise)];
    assert chosen + [] == chosen && raised + [] == raised;
    more := (raised + [At(t, MakeGuard)])[|steps|..];
    assert steps + more == raised + [At(t, MakeGuard)];
  }

  lemma PublishedInLog(s: State)
    requires WellFormed(s)
    ensures s.published <= |s.log|
  {
  }

  // ----- what is in flight is bounded by the users

  lemma {:induction false} SumCount<T>(xs: seq<T>, weight: T -> nat, hits: set<nat>)
    requires forall i | 0 <= i < |xs| && weight(xs[i]) != 0 :: weight(xs[i]) == 1 && i in hits
    ensures Sum(xs, weight) <= |hits|
  {
    if xs != [] {
      var front, last := xs[..|xs| - 1], |xs| - 1;
      assert xs == front + [xs[last]];
      SumAppend(front, xs[last], weight);
      SumCount(front, weight, hits - {last});
    }
  }

  lemma InFlightUses(s: State, m: nat)
    ensures InFlight(s, m) <= |Users(s, m)|
  {
    hide SnapshotOf, Mentions;
    SumCount(s.tasks, Counts(m), Users(s, m));
  }

  // ----- every user can finish

  /** The indices that a request has drawn lie inside its snapshot. */
  ghost predicate InRange(s: State, task: Task) {
    match task
    case Drawn(prefix, i, j) => i < |SnapshotOf(s, prefix)| && j < |SnapshotOf(s, prefix)|
    case ReadOne(prefix, i, j, _) => i < |SnapshotOf(s, prefix)| && j < |SnapshotOf(s, prefix)|
    case _ => true
  }

  lemma MovedInRange(s: State, task: Task, act: Act)
    requires InRange(s, task)
    ensures InRange(s, Moved(s, task, act))
  {
    hide SnapshotOf, Load;
  }

  lemma SameRange(s: State, step: Step, task: Task)
    requires InRange(s, task) && (Prefix(task).Some? ==> Prefix(task).value <= |s.log|)
    ensures InRange(Next(s, step), task)
  {
    hide Next, SnapshotOf;
    if Prefix(task).Some? { SameSnapshots(s, step, Prefix(task).value); }
  }

  lemma {:induction false} AlwaysInRange(steps: seq<Step>, t: nat)
    requires t < |Execute(INITIAL, steps).tasks|
    ensures InRange(Execute(INITIAL, steps), Execute(INITIAL, steps).tasks[t])
  {
    hide InRange, Moved, Counted;
    if steps != [] {
      var s, step := Execute(INITIAL, steps[..|steps| - 1]), steps[|steps| - 1];
      AlwaysWellFormed(steps[..|steps| - 1]);
      AlwaysWellFormed(steps);
      var task := Execute(INITIAL, steps).tasks[t];
      assert InRange(s, task) by {
        if t < |s.tasks| {
          AlwaysInRange(steps[..|steps| - 1], t);
          if step.At? && step.t == t { MovedInRange(s, s.tasks[t], step.act); }
        } else {
          NewInRange(s, s.published);
        }
      }
      if t < |s.tasks| && step.At? && step.t == t { MovedPrefix(s, s.tasks[t], step.act); }
      SameRange(s, step, task);
    }
  }

  lemma NewInRange(s: State, prefix: nat)
    ensures InRange(s, Called(prefix))
  {
  }

  /** How many steps a request has left at most, and the next one that brings it nearer to its end. */
  function Left(task: Task): nat {
    match task
    case Called(_) => 1
    case Drawn(_, _, _) => 5
    case ReadOne(_, _, _, _) => 4
    case Chosen(_) => 3
    case Raised(_) => 2
    case Guarded(_) => 1
    case Finished => 0
  }

  function Onward(task: Task): Act {
    match task
    case Drawn(_, _, _) => ReadFirst
    case ReadOne(_, _, _, _) => ReadSecond
    case Chosen(_) => Raise
    case Raised(_) => MakeGuard
    case _ => Drop
  }

  lemma OnwardLeaves(s: State, task: Task)
    requires InRange(s, task) && task != Finished
    ensures Left(Moved(s, task, Onward(task))) < Left(task)
  {
    hide SnapshotOf, Load;
  }

  /** Every request can finish by steps of its own, whatever else goes on. */
  lemma {:induction false} CanFinish(steps: seq<Step>, t: nat) returns (more: seq<Step>)
    requires t < |Execute(INITIAL, steps).tasks|
    ensures forall step | step in more :: step.At? && step.t == t
    ensures |more| <= Left(Execute(INITIAL, steps).tasks[t])
    ensures Execute(INITIAL, steps + more).tasks == Execute(INITIAL, steps).tasks[t := Finished]
    decreases Left(Execute(INITIAL, steps).tasks[t])
  {
    hide Moved, Counted, Left, Onward, InRange;
    var s := Execute(INITIAL, steps);
    if s.tasks[t] == Finished {
      more := [];
      assert steps + more == steps;
    } else {
      var step := At(t, Onward(s.tasks[t]));
      AlwaysInRange(steps, t);
      OnwardLeaves(s, s.tasks[t]);
      assert (steps + [step])[..|steps|] == steps;
      var rest := CanFinish(steps + [step], t);
      more := [step] + rest;
      assert steps + more == (steps + [step]) + rest;
    }
  }

  // ----- draining

  /**
   A removed endpoint drains: from its removal on no request comes to use it,
   so what its counter stands for is bounded by the requests that could use it
   then, and once those are through it is zero for good.
   */
  lemma {:induction false} RemovedDrains(steps: seq<Step>, more: seq<Step>, m: nat)
    requires Removed(Execute(INITIAL, steps), m)
    ensures var s, s' := Execute(INITIAL, steps), Execute(INITIAL, steps + more);
            && Removed(s', m) && Users(s', m) <= Users(s, m)
            && Load(s', m) <= InFlight(s', m) <= |Users(s', m)|
  {
    hide Next, Removed, WellFormed, Users;
    AlwaysExact(steps + more);
    InFlightUses(Execute(INITIAL, steps + more), m);
    assert Load(Execute(INITIAL, steps + more), m) == InFlight(Execute(INITIAL, steps + more), m) % WORD;
    if more == [] {
      assert steps + more == steps;
    } else {
      var front := more[..|more| - 1];
      RemovedDrains(steps, front, m);
      AlwaysWellFormed(steps + front);
      assert (steps + more)[..|steps + more| - 1] == steps + front;
      RemovedNext(Execute(INITIAL, steps + front), more[|more| - 1], m);
      UsersNext(Execute(INITIAL, steps + front), more[|more| - 1], m);
    }
  }

  /** Once the requests that could use it at its removal are through, the counter is zero for good. */
  lemma DrainedForGood(steps: seq<Step>, more: seq<Step>, later: seq<Step>, m: nat)
    requires Removed(Execute(INITIAL, steps), m)
    requires forall t | t in Users(Execute(INITIAL, steps), m) ::
               t < |Execute(INITIAL, steps + more).tasks| && Execute(INITIAL, steps + more).tasks[t] == Finished
    ensures Load(Execute(INITIAL, steps + more + later), m) == 0
  {
    hide Execute, Removed, SnapshotOf, Mentions;
    RemovedDrains(steps, more, m);
    assert Users(Execute(INITIAL, steps + more), m) == {};
    RemovedDrains(steps + more, later, m);
  }

  /** From every state after a removal the old users alone can bring the counter to zero, where it stays. */
  lemma {:induction false} CanDrain(steps: seq<Step>, m: nat) returns (more: seq<Step>)
    requires Removed(Execute(INITIAL, steps), m)
    ensures forall step | step in more :: step.At? && step.t in Users(Execute(INITIAL, steps), m)
    ensures Users(Execute(INITIAL, steps + more), m) == {}
    ensures forall later :: Load(Execute(INITIAL, steps + more + later), m) == 0
    decreases |Users(Execute(INITIAL, steps), m)|
  {
    hide Execute, Removed, Users;
    var users := Users(Execute(INITIAL, steps), m);
    if users == {} {
      more := [];
      assert steps + more == steps;
      forall later ensures Load(Execute(INITIAL, steps + more + later), m) == 0 {
        RemovedDrains(steps, later, m);
      }
    } else {
      var t :| t in users;
      var ends := OneLess(steps, m, t);
      var rest := CanDrain(steps + ends, m);
      more := ends + rest;
      assert steps + more == (steps + ends) + rest;
    }
  }

  lemma OneLess(steps: seq<Step>, m: nat, t: nat) returns (ends: seq<Step>)
    requires Removed(Execute(INITIAL, steps), m) && t in Users(Execute(INITIAL, steps), m)
    ensures forall step | step in ends :: step.At? && step.t in Users(Execute(INITIAL, steps), m)
    ensures Removed(Execute(INITIAL, steps + ends), m)
    ensures Users(Execute(INITIAL, steps + ends), m) <= Users(Execute(INITIAL, steps), m)
    ensures |Users(Execute(INITIAL, steps + ends), m)| < |Users(Execute(INITIAL, steps), m)|
  {
    hide Execute, Removed, SnapshotOf, Mentions;
    ends := CanFinish(steps, t);
    RemovedDrains(steps, ends, m);
    var users, left := Users(Execute(INITIAL, steps), m), Users(Execute(INITIAL, steps + ends), m);
    assert t in users - left && users == left + (users - left);
  }
}
