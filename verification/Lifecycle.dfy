/**
 The life of one request resource: from the shared slot of a `TunnelGuard`
 through forwarding to a response body or an upgraded tunnel, and released at
 the end. First the objects, then all interleavings of the tasks that may hold
 a clone of the guard.
 */
module Lifecycle {
  import opened Basics

  // ----- the objects

  /** The slot that all clones of one guard share. */
  class TunnelGuard<R> {
    var slot: Option<R>

    constructor (resource: R)
      ensures slot == Some(resource)
    {
      slot := Some(resource);
    }

    /** Taken under the lock, so in one step. */
    method Take() returns (taken: Option<R>)
      modifies this
      ensures taken == old(slot) && slot == None
      ensures forall s: State, t: nat | t < |s.tasks| && s.slot == old(slot).Some? ::
                Started(s, t, true).slot == slot.Some? && Started(s, t, true).tasks[t] == Checking(taken.Some?)
    {
      taken := slot;
      slot := None;
    }
  }

  /** What polling a body for a frame yields; `End` is `Ready(None)`. */
  datatype Poll = Pending | Data | Trailers | Failed | End

  predicate Final(poll: Poll) { poll == End || poll == Failed }

  /** A body whose polls are arbitrary; after each one it may say that its stream has ended. */
  class Body {
    var script: seq<(Poll, bool)>
    var endStream: bool

    constructor (script: seq<(Poll, bool)>, endStream: bool)
      ensures this.script == script && this.endStream == endStream
    {
      this.script := script;
      this.endStream := endStream;
    }

    method PollFrame() returns (frame: Poll)
      modifies this
      ensures old(script) == [] ==> frame == End && endStream && script == []
      ensures old(script) != [] ==> (frame, endStream) == old(script)[0] && script == old(script)[1..]
    {
      if script == [] {
        frame, endStream := End, true;
      } else {
        frame, endStream, script := script[0].0, script[0].1, script[1..];
      }
    }
  }

  class GuardedBody<R> {
    const body: Body
    var guard: Option<R>
    ghost var yielded: seq<Poll>
    ghost var ended: bool              // the stream has said that it has ended

    /** The guard is held only while nothing final was yielded and the stream has not ended. */
    ghost predicate Valid()
      reads this, body
    {
      guard.Some? ==> !ended && !body.endStream && forall poll | poll in yielded :: !Final(poll)
    }

    /** This body as a task of the system below. */
    ghost function AsTask(): Task
      reads this
    {
      Streaming(guard.Some?, exists poll | poll in yielded :: Final(poll), ended)
    }

    constructor (body: Body, guard: Option<R>)
      requires !body.endStream
      ensures Valid() && this.body == body && this.guard == guard && yielded == []
      ensures AsTask() == Streaming(guard.Some?, false, false)
    {
      this.body := body;
      this.guard := guard;
      yielded, ended := [], false;
    }

    method PollFrame() returns (frame: Poll)
      requires Valid()
      modifies this, body
      ensures Valid() && yielded == old(yielded) + [frame]
      ensures guard == if Final(frame) || body.endStream then None else old(guard)
      ensures old(body.script) != [] ==>
                (frame, body.endStream) == old(body.script)[0] && body.script == old(body.script)[1..]
      ensures AsTask() == Moved(old(AsTask()), PollBody(frame, body.endStream))
    {
      frame := body.PollFrame();
      if Final(frame) || body.endStream {
        guard := None;
      }
      assert forall poll :: poll in yielded + [frame] <==> poll in yielded || poll == frame;
      yielded, ended := yielded + [frame], ended || body.endStream;
    }
  }

  /** A body is wrapped only when there is something to hold and something left to stream. */
  method Retain<R>(body: Body, guard: Option<R>) returns (wrapped: GuardedBody?<R>)
    ensures wrapped == null <==> guard.None? || body.endStream
    ensures wrapped != null ==> fresh(wrapped) && wrapped.Valid() && wrapped.body == body && wrapped.guard == guard
    ensures Moved(Sending(guard.Some?), Respond(body.endStream)) ==
            if wrapped == null then Streaming(false, false, body.endStream) else wrapped.AsTask()
  {
    if guard.None? || body.endStream {
      return null;
    }
    wrapped := new GuardedBody(body, guard);
  }

  // ----- all interleavings

  /** A local variable of the tunnel task: the guard, or the tunnel future with the transports handed to it. */
  datatype Local = GuardLocal(held: bool) | FutureLocal(downstream: bool, upstream: bool)

  datatype Task =
    | Queued(handle: bool)                       // a request not polled yet; its extensions may hold a clone
    | Checking(guard: bool)                      // polled, nothing sent
    | Sending(guard: bool)                       // awaiting the response headers
    | Streaming(guard: bool, final: bool, ended: bool)  // the response body, and what it has yielded or said
    | Tunnel(scope: seq<Local>, leaving: bool)   // the locals in declaration order
    | Over

  /** `spare` counts the clones outside requests, `takers` the tasks that found the slot full. */
  datatype State = State(slot: bool, spare: nat, tasks: seq<Task>, released: nat, takers: seq<nat>)

  datatype Step =
    | CloneSpare | DropSpare
    | Submit(withHandle: bool)               // a request, or a retry attempt, with or without a clone
    | At(t: nat, act: Act)

  datatype Act =
    | Start                                  // first poll: the slot is emptied, the clone dropped
    | Send
    | GiveUp                                 // refused, failed, timed out, bad upgrade, cancelled or unwound
    | Respond(endStream: bool)
    | PollBody(poll: Poll, endStream: bool)
    | Bridge                                 // a valid 101: the guard moves into the tunnel task
    | HandOver(toDownstream: bool)           // hyper hands over one transport
    | Leave                                  // end of copying, failed upgrade, cancellation or unwinding
    | DropLocal                              // the last declared local is dropped first

  ghost predicate HoldsGuard(task: Task) {
    match task
    case Queued(_) => false
    case Checking(guard) => guard
    case Sending(guard) => guard
    case Streaming(guard, _, _) => guard
    case Tunnel(scope, _) => scope != [] && scope[0] == GuardLocal(true)
    case Over => false
  }

  ghost predicate HoldsTransport(task: Task) {
    task.Tunnel? && exists local | local in task.scope :: local.FutureLocal? && (local.downstream || local.upstream)
  }

  ghost const GuardWeight: Task -> nat := (task: Task) => if HoldsGuard(task) then 1 else 0
  ghost const HandleWeight: Task -> nat := (task: Task) => if task == Queued(true) then 1 else 0

  ghost function Clones(s: State): nat { s.spare + Sum(s.tasks, HandleWeight) }

  ghost function Held(s: State): nat { Sum(s.tasks, GuardWeight) }

  /** Dropping the last clone drops a resource that was never taken. */
  ghost function AfterDrop(s: State): State {
    if Clones(s) == 0 && s.slot then s.(slot := false, released := s.released + 1) else s
  }

  /** What a request that has been polled does. */
  function Moved(task: Task, act: Act): Task {
    match (act, task)
    case (Send, Checking(guard)) => Sending(guard)
    case (GiveUp, Checking(_)) => Over
    case (GiveUp, Sending(_)) => Over
    case (Respond(endStream), Sending(guard)) => Streaming(guard && !endStream, false, endStream)
    case (Bridge, Sending(guard)) => Tunnel([GuardLocal(guard), FutureLocal(false, false)], false)
    case (PollBody(poll, endStream), Streaming(guard, final, ended)) =>
      Streaming(guard && !Final(poll) && !endStream, final || Final(poll), ended || endStream)
    case (GiveUp, Streaming(_, _, _)) => Over
    case (HandOver(toDownstream), Tunnel(scope, leaving)) =>
      if leaving || |scope| != 2 || !scope[1].FutureLocal? then task
      else if toDownstream then Tunnel([scope[0], FutureLocal(true, scope[1].upstream)], false)
      else Tunnel([scope[0], FutureLocal(scope[1].downstream, true)], false)
    case (Leave, Tunnel(scope, _)) => Tunnel(scope, true)
    case (DropLocal, Tunnel(scope, leaving)) =>
      if !leaving then task else if scope == [] then Over else Tunnel(scope[..|scope| - 1], true)
    case _ => task
  }

  /** Whatever a task no longer holds after a move has been released. */
  ghost function Become(s: State, t: nat, task: Task): State
    requires t < |s.tasks|
  {
    s.(tasks := s.tasks[t := task],
       released := if HoldsGuard(s.tasks[t]) && !HoldsGuard(task) then s.released + 1 else s.released)
  }

  /** The first poll removes the clone from the request, takes what is in the slot, and drops the clone. */
  ghost function Started(s: State, t: nat, handle: bool): State
    requires t < |s.tasks|
  {
    if handle
    then s.(slot := false, tasks := s.tasks[t := Checking(s.slot)],
            takers := if s.slot then s.takers + [t] else s.takers)
    else s.(tasks := s.tasks[t := Checking(false)])
  }

  /** One step; a step that is not possible changes nothing. */
  ghost function Next(s: State, step: Step): State {
    match step
    case CloneSpare => if s.spare > 0 then s.(spare := s.spare + 1) else s
    case DropSpare => if s.spare > 0 then AfterDrop(s.(spare := s.spare - 1)) else s
    case Submit(withHandle) =>
      if withHandle && Clones(s) == 0 then s else s.(tasks := s.tasks + [Queued(withHandle)])
    case At(t, act) =>
      if t >= |s.tasks| then s
      else match s.tasks[t]
           case Queued(handle) =>
             if act == Start then Started(s, t, handle)
             else if act == GiveUp then AfterDrop(s.(tasks := s.tasks[t := Over]))
             else s
           case task => Become(s, t, Moved(task, act))
  }

  /** The state after a whole schedule. */
  ghost function Execute(s: State, steps: seq<Step>): State {
    if steps == [] then s else Next(Execute(s, steps[..|steps| - 1]), steps[|steps| - 1])
  }

  /** A new guard: a full slot and one clone. */
  const FRESH: State := State(true, 1, [], 0, [])

  // ----- what every step keeps

  ghost predicate TaskOk(task: Task) {
    match task
    case Streaming(guard, final, ended) => guard ==> !final && !ended
    case Tunnel(scope, leaving) =>
      && |scope| <= 2 && (!leaving ==> |scope| == 2)
      && (|scope| > 0 ==> scope[0].GuardLocal?)
      && (|scope| > 1 ==> scope[1].FutureLocal?)
    case _ => true
  }

  /** A taker of the resource has not yet come to a point at which it is to be released. */
  ghost predicate Open(task: Task) {
    match task
    case Queued(_) => false
    case Checking(_) => true
    case Sending(_) => true
    case Streaming(_, final, ended) => !final && !ended
    case Tunnel(scope, _) => scope != []
    case Over => false
  }

  /** The resource is in exactly one place: the slot, one task, or released. */
  ghost predicate OnePlace(s: State) {
    (if s.slot then 1 else 0) + Held(s) + s.released == 1
  }

  ghost predicate Inv(s: State) {
    && OnePlace(s)
    && (s.slot ==> Clones(s) > 0 && s.takers == [])
    && |s.takers| <= 1
    && (forall t | 0 <= t < |s.tasks| :: TaskOk(s.tasks[t]))
    && (forall t | 0 <= t < |s.tasks| && HoldsGuard(s.tasks[t]) :: s.takers == [t])
    && (forall t | t in s.takers ::
          t < |s.tasks| && !s.tasks[t].Queued? && (HoldsGuard(s.tasks[t]) <==> Open(s.tasks[t])))
  }

  lemma MovedOk(task: Task, act: Act)
    requires TaskOk(task) && !task.Queued?
    ensures TaskOk(Moved(task, act)) && !Moved(task, act).Queued?
    ensures HoldsGuard(Moved(task, act)) ==> HoldsGuard(task)
    ensures (HoldsGuard(task) <==> Open(task)) ==> (HoldsGuard(Moved(task, act)) <==> Open(Moved(task, act)))
  {
  }

  lemma BecomeKeeps(s: State, t: nat, task: Task)
    requires Inv(s) && t < |s.tasks| && TaskOk(task)
    requires HoldsGuard(task) ==> HoldsGuard(s.tasks[t])
    requires (HoldsGuard(s.tasks[t]) <==> Open(s.tasks[t])) ==> (HoldsGuard(task) <==> Open(task))
    requires !s.tasks[t].Queued? && !task.Queued?
    ensures Inv(Become(s, t, task))
  {
    SumUpdate(s.tasks, t, task, GuardWeight);
    SumUpdate(s.tasks, t, task, HandleWeight);
  }

  lemma StartKeeps(s: State, t: nat)
    requires Inv(s) && t < |s.tasks| && s.tasks[t].Queued?
    ensures Inv(Started(s, t, s.tasks[t].handle))
  {
    var s' := Started(s, t, s.tasks[t].handle);
    SumUpdate(s.tasks, t, s'.tasks[t], GuardWeight);
    SumUpdate(s.tasks, t, s'.tasks[t], HandleWeight);
    if s.slot {
      SumZero(s.tasks, GuardWeight);
    }
  }

  lemma CancelKeeps(s: State, t: nat)
    requires Inv(s) && t < |s.tasks| && s.tasks[t].Queued?
    ensures Inv(AfterDrop(s.(tasks := s.tasks[t := Over])))
  {
    SumUpdate(s.tasks, t, Over, GuardWeight);
    SumUpdate(s.tasks, t, Over, HandleWeight);
  }

  lemma SubmitKeeps(s: State, handle: bool)
    requires Inv(s) && (handle ==> Clones(s) > 0)
    ensures Inv(s.(tasks := s.tasks + [Queued(handle)]))
  {
    SumAppend(s.tasks, Queued(handle), GuardWeight);
    SumAppend(s.tasks, Queued(handle), HandleWeight);
  }

  lemma NextKeeps(s: State, step: Step)
    requires Inv(s)
    ensures Inv(Next(s, step))
  {
    match step
    case CloneSpare =>
    case DropSpare =>
    case Submit(handle) =>
      if handle ==> Clones(s) > 0 { SubmitKeeps(s, handle); }
    case At(t, act) =>
      if t < |s.tasks| {
        if s.tasks[t].Queued? {
          if act == Start {
            StartKeeps(s, t);
          } else if act == GiveUp {
            CancelKeeps(s, t);
          }
        } else {
          MovedOk(s.tasks[t], act);
          BecomeKeeps(s, t, Moved(s.tasks[t], act));
        }
      }
  }

  lemma {:induction false} ExecuteKeeps(steps: seq<Step>)
    ensures Inv(Execute(FRESH, steps))
  {
    if steps != [] {
      ExecuteKeeps(steps[..|steps| - 1]);
      NextKeeps(Execute(FRESH, steps[..|steps| - 1]), steps[|steps| - 1]);
    } else {
      assert Held(FRESH) == 0 && Clones(FRESH) == 1;
    }
  }

  // ----- what follows for whole runs

  /** Under every schedule the resource is in one place only, and released at most once. */
  lemma AlwaysOnePlace(steps: seq<Step>)
    ensures OnePlace(Execute(FRESH, steps)) && Execute(FRESH, steps).released <= 1
    ensures |Execute(FRESH, steps).takers| <= 1
  {
    ExecuteKeeps(steps);
  }

  /** Nothing leaks: when no clone and no holder is left, the resource has been released. */
  lemma NothingLeaks(steps: seq<Step>)
    requires var s := Execute(FRESH, steps); Clones(s) == 0 && Held(s) == 0
    ensures Execute(FRESH, steps).released == 1
  {
    ExecuteKeeps(steps);
  }

  /** Once some task has taken the resource, no later attempt, whatever clone it carries, ever holds it. */
  lemma {:induction false} OnlyTheTakerHolds(steps: seq<Step>, more: seq<Step>, t: nat)
    requires t in Execute(FRESH, steps).takers
    ensures var s := Execute(FRESH, steps + more);
            s.takers == [t] && !s.slot && forall u | 0 <= u < |s.tasks| && HoldsGuard(s.tasks[u]) :: u == t
  {
    ExecuteKeeps(steps);
    if more == [] {
      assert steps + more == steps;
    } else {
      var front := more[..|more| - 1];
      OnlyTheTakerHolds(steps, front, t);
      ExecuteKeeps(steps + front);
      ExecuteKeeps(steps + more);
      assert (steps + more)[..|steps + more| - 1] == steps + front;
      NextKeepsTakers(Execute(FRESH, steps + front), more[|more| - 1]);
    }
  }

  lemma NextKeepsTakers(s: State, step: Step)
    ensures s.takers <= Next(s, step).takers
    ensures !s.slot ==> !Next(s, step).slot
  {
  }

  // ----- retention: where the resource is taken, and where it is released

  /** The first poll of a request with a clone takes the resource if it is still there. */
  lemma StartTakes(s: State, t: nat)
    requires t < |s.tasks| && s.tasks[t] == Queued(true)
    ensures var s' := Next(s, At(t, Start));
            && !s'.slot && s'.released == s.released && s'.tasks[t] == Checking(s.slot)
            && s'.takers == if s.slot then s.takers + [t] else s.takers
  {
  }

  /** The slot is emptied by the first such poll, or by the drop of the last clone, and by nothing else. */
  lemma SlotEmpties(steps: seq<Step>, step: Step)
    requires Execute(FRESH, steps).slot
    ensures var s := Execute(FRESH, steps);
            !Next(s, step).slot <==>
            || (Clones(s) == 1 && step == DropSpare && s.spare > 0)
            || (step.At? && step.t < |s.tasks| && s.tasks[step.t] == Queued(true)
                && (step.act == Start || (step.act == GiveUp && Clones(s) == 1)))
  {
    hide Execute, Moved;
    ExecuteKeeps(steps);
    var s := Execute(FRESH, steps);
    if step.At? && step.t < |s.tasks| {
      SumUpdate(s.tasks, step.t, Over, HandleWeight);
    }
  }

  /**
   A task holds the resource exactly if it took it and is still open: it is
   checking or sending, its body has yielded neither end nor error and never
   said that it has ended, or its tunnel is not yet torn down.
   */
  lemma HeldWhileOpen(steps: seq<Step>, t: nat)
    requires t < |Execute(FRESH, steps).tasks|
    ensures var s := Execute(FRESH, steps); HoldsGuard(s.tasks[t]) <==> t in s.takers && Open(s.tasks[t])
  {
    hide Execute, OnePlace;
    ExecuteKeeps(steps);
  }

  /** The moves at which a holder lets go. */
  predicate ReleasePoint(task: Task, act: Act) {
    match (task, act)
    case (Checking(_), GiveUp) => true
    case (Sending(_), GiveUp) => true
    case (Sending(_), Respond(endStream)) => endStream
    case (Streaming(_, _, _), GiveUp) => true
    case (Streaming(_, _, _), PollBody(poll, endStream)) => Final(poll) || endStream
    case (Tunnel(scope, leaving), DropLocal) => leaving && scope == [GuardLocal(true)]
    case _ => false
  }

  /** A holder lets go exactly at its own release points, whatever the others do. */
  lemma ReleasePoints(steps: seq<Step>, step: Step, t: nat)
    requires var s := Execute(FRESH, steps); t < |s.tasks| && HoldsGuard(s.tasks[t])
    ensures var s := Execute(FRESH, steps);
            && t < |Next(s, step).tasks|
            && (!HoldsGuard(Next(s, step).tasks[t]) <==> step.At? && step.t == t && ReleasePoint(s.tasks[t], step.act))
  {
    hide Execute, OnePlace;
    ExecuteKeeps(steps);
    var s := Execute(FRESH, steps);
    assert TaskOk(s.tasks[t]);
  }

  /** Step `k` of the schedule is the one at which task `t` lets go. */
  ghost predicate LetsGoAt(steps: seq<Step>, t: nat, k: nat) {
    && k < |steps| && steps[k].At? && steps[k].t == t
    && t < |Execute(FRESH, steps[..k]).tasks|
    && HoldsGuard(Execute(FRESH, steps[..k]).tasks[t])
    && ReleasePoint(Execute(FRESH, steps[..k]).tasks[t], steps[k].act)
  }

  lemma LetsGoPrefix(steps: seq<Step>, step: Step, t: nat, k: nat)
    ensures LetsGoAt(steps + [step], t, k) <==>
            if k == |steps| then LetsGoAt(steps + [step], t, |steps|) else LetsGoAt(steps, t, k)
  {
    hide Execute, ReleasePoint;
    if k < |steps| {
      assert (steps + [step])[..k] == steps[..k];
    }
  }

  /** The one that took the resource holds it until it comes to a release point, and no longer. */
  lemma {:induction false} HeldUntilLetGo(steps: seq<Step>, t: nat)
    requires t in Execute(FRESH, steps).takers
    ensures var s := Execute(FRESH, steps);
            && t < |s.tasks| && (HoldsGuard(s.tasks[t]) <==> !exists k: nat :: LetsGoAt(steps, t, k))
            && (s.released == 1 <==> exists k: nat :: LetsGoAt(steps, t, k))
  {
    hide LetsGoAt, Moved, Open, ReleasePoint;
    ExecuteKeeps(steps);
    OnlyTheTakerHolds(steps, [], t);
    assert steps + [] == steps;
    var front, last := steps[..|steps| - 1], steps[|steps| - 1];
    assert front + [last] == steps;
    var s, s' := Execute(FRESH, front), Execute(FRESH, steps);
    if t in s.takers {
      HeldUntilLetGo(front, t);
      LetGoNext(front, last, t);
    } else {
      ExecuteKeeps(front);
      TakenNow(s, last, t);
      forall k: nat ensures !LetsGoAt(steps, t, k) {
        NotBeforeTaken(front, last, t, k);
      }
    }
    HolderOrReleased(s', t);
  }

  lemma LetGoNext(front: seq<Step>, last: Step, t: nat)
    requires t in Execute(FRESH, front).takers && t < |Execute(FRESH, front).tasks|
    requires HoldsGuard(Execute(FRESH, front).tasks[t]) <==> !exists k: nat :: LetsGoAt(front, t, k)
    ensures var s' := Execute(FRESH, front + [last]);
            t < |s'.tasks| && (HoldsGuard(s'.tasks[t]) <==> !exists k: nat :: LetsGoAt(front + [last], t, k))
  {
    hide Moved, Open, ReleasePoint, LetsGoAt;
    var s := Execute(FRESH, front);
    assert (front + [last])[..|front|] == front;
    ExecuteKeeps(front);
    forall k: nat ensures LetsGoAt(front + [last], t, k) <==>
                          if k == |front| then LetsGoAt(front + [last], t, |front|) else LetsGoAt(front, t, k)
    {
      LetsGoPrefix(front, last, t, k);
    }
    LetsGoLast(front, last, t);
    if HoldsGuard(s.tasks[t]) {
      ReleasePoints(front, last, t);
    } else {
      StaysLetGo(s, last, t);
      var k: nat :| LetsGoAt(front, t, k);
      assert LetsGoAt(front + [last], t, k) by { LetsGoPast(front, last, t, k); }
    }
  }

  lemma LetsGoPast(steps: seq<Step>, step: Step, t: nat, k: nat)
    requires LetsGoAt(steps, t, k)
    ensures LetsGoAt(steps + [step], t, k)
  {
    hide Execute, ReleasePoint;
    LetsGoPrefix(steps, step, t, k);
  }

  lemma LetsGoLast(front: seq<Step>, last: Step, t: nat)
    requires t < |Execute(FRESH, front).tasks|
    ensures LetsGoAt(front + [last], t, |front|) <==>
            && last.At? && last.t == t && HoldsGuard(Execute(FRESH, front).tasks[t])
            && ReleasePoint(Execute(FRESH, front).tasks[t], last.act)
  {
    hide Execute, ReleasePoint;
    assert (front + [last])[..|front|] == front;
  }

  lemma StaysLetGo(s: State, step: Step, t: nat)
    requires Inv(s) && t in s.takers && !HoldsGuard(s.tasks[t])
    ensures t < |Next(s, step).tasks| && !HoldsGuard(Next(s, step).tasks[t])
  {
    hide OnePlace, Open;
    if step.At? && step.t == t {
      MovedOk(s.tasks[t], step.act);
    }
  }

  /** A task that becomes the taker with this step holds the resource after it, and did not before. */
  lemma TakenNow(s: State, step: Step, t: nat)
    requires Inv(s) && t !in s.takers && t in Next(s, step).takers
    ensures t < |s.tasks| && s.tasks[t] == Queued(true)
    ensures t < |Next(s, step).tasks| && HoldsGuard(Next(s, step).tasks[t])
  {
    hide Moved, OnePlace;
  }

  lemma NotBeforeTaken(front: seq<Step>, last: Step, t: nat, k: nat)
    requires t !in Execute(FRESH, front).takers
    requires t < |Execute(FRESH, front).tasks| && !HoldsGuard(Execute(FRESH, front).tasks[t])
    ensures !LetsGoAt(front + [last], t, k)
  {
    hide Execute, ReleasePoint;
    assert k <= |front| ==> (front + [last])[..k] == front[..k];
    assert front[..|front|] == front;
    assert k < |front| ==> front[..k] + front[k..] == front;
    if k < |front| && t < |Execute(FRESH, front[..k]).tasks| && HoldsGuard(Execute(FRESH, front[..k]).tasks[t]) {
      ExecuteKeeps(front[..k]);
      OnlyTheTakerHolds(front[..k], front[k..], t);
    }
  }

  lemma HolderOrReleased(s: State, t: nat)
    requires Inv(s) && s.takers == [t] && !s.slot
    ensures t < |s.tasks| && (s.released == 1 <==> !HoldsGuard(s.tasks[t]))
  {
    hide Open;
    SumZero(s.tasks, GuardWeight);
    SumAtLeast(s.tasks, t, GuardWeight);
  }

  /** A resource that nobody took is released exactly when it leaves its slot, so by the drop of the last clone. */
  lemma UntakenInSlot(steps: seq<Step>)
    requires Execute(FRESH, steps).takers == []
    ensures Execute(FRESH, steps).slot <==> Execute(FRESH, steps).released == 0
  {
    hide Execute;
    ExecuteKeeps(steps);
    SumZero(Execute(FRESH, steps).tasks, GuardWeight);
  }

  /** The taker's body holds the resource exactly while it has yielded no end and no error and has not ended. */
  lemma BodyHoldsWhileOpen(steps: seq<Step>, t: nat)
    requires var s := Execute(FRESH, steps); t < |s.tasks| && s.tasks[t].Streaming?
    ensures var s := Execute(FRESH, steps);
            s.tasks[t].guard <==> t in s.takers && !s.tasks[t].final && !s.tasks[t].ended
  {
    HeldWhileOpen(steps, t);
  }

  lemma LastLocalIsTheGuard(task: Task, act: Act)
    requires TaskOk(task) && task.Tunnel? && HoldsGuard(task) && !HoldsGuard(Moved(task, act))
    ensures task.leaving && task.scope == [GuardLocal(true)] && Moved(task, act) == Tunnel([], true)
  {
  }

  /** A tunnel lets go of the resource only when it holds no transport any more. */
  lemma TunnelDropsTransportsFirst(steps: seq<Step>, step: Step, t: nat)
    requires var s := Execute(FRESH, steps); t < |s.tasks| && s.tasks[t].Tunnel? && HoldsGuard(s.tasks[t])
    requires !HoldsGuard(Next(Execute(FRESH, steps), step).tasks[t])
    ensures var s := Execute(FRESH, steps); !HoldsTransport(s.tasks[t]) && !HoldsTransport(Next(s, step).tasks[t])
  {
    hide Moved, Execute, OnePlace;
    ExecuteKeeps(steps);
    var s := Execute(FRESH, steps);
    assert TaskOk(s.tasks[t]);
    LastLocalIsTheGuard(s.tasks[t], step.act);
  }

  // ----- clones, phases, and the ends of them

  /** Which steps make a clone, and which drop one. */
  lemma ClonesNext(s: State, step: Step)
    ensures var made := (step == CloneSpare && s.spare > 0) || (step == Submit(true) && Clones(s) > 0);
            var dropped := || (step == DropSpare && s.spare > 0)
                           || (step.At? && step.t < |s.tasks| && s.tasks[step.t] == Queued(true)
                               && (step.act == Start || step.act == GiveUp));
            Clones(Next(s, step)) + (if dropped then 1 else 0) == Clones(s) + (if made then 1 else 0)
  {
    match step
    case Submit(handle) => SumAppend(s.tasks, Queued(handle), HandleWeight);
    case At(t, act) =>
      if t < |s.tasks| {
        SumUpdate(s.tasks, t, Next(s, step).tasks[t], HandleWeight);
        if !s.tasks[t].Queued? { NeverQueuedAgain(s.tasks[t], act); }
      }
    case _ =>
  }

  lemma NeverQueuedAgain(task: Task, act: Act)
    requires !task.Queued?
    ensures !Moved(task, act).Queued?
  {
  }

  /** A request, with a clone if there is one to copy, waits to be polled. */
  lemma SubmitQueues(s: State, handle: bool)
    requires handle ==> Clones(s) > 0
    ensures Next(s, Submit(handle)).tasks == s.tasks + [Queued(handle)]
  {
  }

  lemma ExecuteNext(steps: seq<Step>, step: Step)
    ensures Execute(FRESH, steps + [step]) == Next(Execute(FRESH, steps), step)
  {
    assert (steps + [step])[..|steps|] == steps;
  }

  /** A move of a task that has been polled. */
  lemma MoveNext(steps: seq<Step>, t: nat, act: Act)
    requires t < |Execute(FRESH, steps).tasks| && !Execute(FRESH, steps).tasks[t].Queued?
    ensures var tasks := Execute(FRESH, steps).tasks;
            Execute(FRESH, steps + [At(t, act)]).tasks == tasks[t := Moved(tasks[t], act)]
  {
    hide Execute, Moved;
    ExecuteNext(steps, At(t, act));
  }

  /** The first request with a clone can come to stream its response with the resource in the body, */
  lemma CanStream(steps: seq<Step>, t: nat)
    requires var s := Execute(FRESH, steps); s.slot && t < |s.tasks| && s.tasks[t] == Queued(true)
    ensures var s' := Execute(FRESH, steps + [At(t, Start)] + [At(t, Send)] + [At(t, Respond(false))]);
            t < |s'.tasks| && s'.tasks[t] == Streaming(true, false, false)
  {
    hide Execute;
    ExecuteNext(steps, At(t, Start));
    MoveNext(steps + [At(t, Start)], t, Send);
    MoveNext(steps + [At(t, Start)] + [At(t, Send)], t, Respond(false));
  }

  /** or to be a tunnel that holds the resource and both transports. */
  lemma CanTunnel(steps: seq<Step>, t: nat)
    requires var s := Execute(FRESH, steps); s.slot && t < |s.tasks| && s.tasks[t] == Queued(true)
    ensures var sent := steps + [At(t, Start)] + [At(t, Send)];
            var s' := Execute(FRESH, sent + [At(t, Bridge)] + [At(t, HandOver(true))] + [At(t, HandOver(false))]);
            t < |s'.tasks| && s'.tasks[t] == Tunnel([GuardLocal(true), FutureLocal(true, true)], false)
  {
    hide Execute;
    ExecuteNext(steps, At(t, Start));
    MoveNext(steps + [At(t, Start)], t, Send);
    var sent := steps + [At(t, Start)] + [At(t, Send)];
    MoveNext(sent, t, Bridge);
    MoveNext(sent + [At(t, Bridge)], t, HandOver(true));
    MoveNext(sent + [At(t, Bridge)] + [At(t, HandOver(true))], t, HandOver(false));
  }

  /** The moves of its own by which a holder releases: for a tunnel to leave and to drop its locals, last one first. */
  function Exit(task: Task): seq<Act> {
    match task
    case Streaming(_, _, _) => [PollBody(End, true)]
    case Tunnel(scope, leaving) =>
      (if leaving then [] else [Leave]) + (if |scope| > 1 then [DropLocal, DropLocal] else [DropLocal])
    case _ => [GiveUp]
  }

  function Acts(t: nat, acts: seq<Act>): seq<Step> {
    seq(|acts|, i requires 0 <= i < |acts| => At(t, acts[i]))
  }

  function MovedBy(task: Task, acts: seq<Act>): Task
    decreases |acts|
  {
    if acts == [] then task else MovedBy(Moved(task, acts[0]), acts[1..])
  }

  lemma {:induction false} ActsMove(steps: seq<Step>, t: nat, acts: seq<Act>)
    requires t < |Execute(FRESH, steps).tasks| && !Execute(FRESH, steps).tasks[t].Queued?
    ensures t < |Execute(FRESH, steps + Acts(t, acts)).tasks|
    ensures Execute(FRESH, steps + Acts(t, acts)).tasks[t] == MovedBy(Execute(FRESH, steps).tasks[t], acts)
    decreases |acts|
  {
    hide Execute, Moved;
    if acts == [] {
      assert steps + Acts(t, acts) == steps;
    } else {
      MoveNext(steps, t, acts[0]);
      NeverQueuedAgain(Execute(FRESH, steps).tasks[t], acts[0]);
      assert steps + Acts(t, acts) == (steps + [At(t, acts[0])]) + Acts(t, acts[1..]);
      ActsMove(steps + [At(t, acts[0])], t, acts[1..]);
    }
  }

  lemma ExitReleases(task: Task)
    requires TaskOk(task) && HoldsGuard(task)
    ensures !HoldsGuard(MovedBy(task, Exit(task)))
  {
    if task.Tunnel? {
      var left := if task.leaving then task else Moved(task, Leave);
      var drops := if |task.scope| > 1 then [DropLocal, DropLocal] else [DropLocal];
      assert drops[1..] == [] || drops[1..] == [DropLocal];
      assert [DropLocal][1..] == [];
      assert ([Leave] + drops)[1..] == drops && [] + drops == drops;
      assert MovedBy(task, Exit(task)) == MovedBy(left, drops);
      if |task.scope| > 1 {
        assert MovedBy(left, drops) == MovedBy(Moved(left, DropLocal), [DropLocal]);
      }
      assert MovedBy(Moved(left, DropLocal), []) == Moved(left, DropLocal);
      assert MovedBy(Moved(Moved(left, DropLocal), DropLocal), []) == Moved(Moved(left, DropLocal), DropLocal);
    } else {
      assert Exit(task)[1..] == [];
    }
  }

  /** Every holder can release the resource by steps of its own, in every reachable state. */
  lemma CanRelease(steps: seq<Step>, t: nat)
    requires t < |Execute(FRESH, steps).tasks| && HoldsGuard(Execute(FRESH, steps).tasks[t])
    ensures var s' := Execute(FRESH, steps + Acts(t, Exit(Execute(FRESH, steps).tasks[t])));
            t < |s'.tasks| && !HoldsGuard(s'.tasks[t]) && s'.released == 1
  {
    hide Execute, OnePlace, Exit, Open, LetsGoAt, MovedBy;
    ExecuteKeeps(steps);
    var task := Execute(FRESH, steps).tasks[t];
    ActsMove(steps, t, Exit(task));
    assert TaskOk(task);
    ExitReleases(task);
    HeldWhileOpen(steps, t);
    OnlyTheTakerHolds(steps, Acts(t, Exit(task)), t);
    HeldUntilLetGo(steps + Acts(t, Exit(task)), t);
  }

  /** One transport has been handed to the tunnel, and the future that owns it is still there. */
  predicate HoldsSide(task: Task, downstream: bool) {
    task.Tunnel? && |task.scope| == 2 && task.scope[1].FutureLocal?
    && if downstream then task.scope[1].downstream else task.scope[1].upstream
  }

  /** A transport is held from its hand-over, */
  lemma HandOverHolds(steps: seq<Step>, t: nat, downstream: bool)
    requires var s := Execute(FRESH, steps); t < |s.tasks| && s.tasks[t].Tunnel? && !s.tasks[t].leaving
    ensures var s' := Execute(FRESH, steps + [At(t, HandOver(downstream))]);
            t < |s'.tasks| && HoldsSide(s'.tasks[t], downstream)
  {
    hide Execute, OnePlace;
    ExecuteKeeps(steps);
    assert TaskOk(Execute(FRESH, steps).tasks[t]);
    MoveNext(steps, t, HandOver(downstream));
  }

  /** until the future of a tunnel that is leaving is dropped, and no longer. */
  lemma TransportKept(steps: seq<Step>, step: Step, t: nat, downstream: bool)
    requires var s := Execute(FRESH, steps); t < |s.tasks| && HoldsSide(s.tasks[t], downstream)
    ensures var s := Execute(FRESH, steps);
            && t < |Next(s, step).tasks|
            && (!HoldsSide(Next(s, step).tasks[t], downstream) <==> step == At(t, DropLocal) && s.tasks[t].leaving)
  {
    hide Execute, OnePlace;
  }
}
