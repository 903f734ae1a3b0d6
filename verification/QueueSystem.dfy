/** The blocking work queue `abs_queue` as a transition system.

    Any number of threads share one queue.  Every thread has a program counter
    that names the next atomic action of the C++ member function it is in; an
    event performs one such action of one thread.  A lock acquisition, an access
    to a `std::atomic`, a notification and the release-and-park of a condition
    variable are separate actions, so a run is an arbitrary interleaving.

    `ready` is written only while `mylock` is held, so the several reads of it
    inside one critical section of `pop` see one value and are one action with
    the (single, racy) read of `blocked`.

    The three counters are 32-bit atomics that wrap.  The state keeps the number
    of increments; the stored value is `Wrap` of it, and that is what the code
    compares. */
module QueueSystem {
  import opened Options

  const WORD := 0x1_0000_0000

  /** The 32-bit value stored after `n` increments from zero. */
  function Wrap(n: nat): nat { n % WORD }

  /** Where a thread is inside `push`.  An item of the queue is a work packet, a
      sequence of jobs. */
  datatype PushPc<J> =
    | PushStart(item: seq<J>)    // about to read `ready`
    | PushReady(item: seq<J>)    // about to increment `in_count`
    | PushCounted(item: seq<J>)  // about to lock `mylock`
    | PushLocked(item: seq<J>)   // holds `mylock`, about to enqueue
    | PushStored                 // holds `mylock`, about to unlock
    | PushSignal                 // about to read `blocked`
    | PushNotify                 // about to call `signal.notify_one`

  datatype PopPc<J> =
    | PopStart                   // about to lock `mylock`
    | PopTest                    // holds `mylock`, about to evaluate the wait condition
    | PopSleep                   // holds `mylock`, about to wait
    | PopParked                  // waiting on `signal`
    | PopWoken                   // woken, about to lock `mylock` again
    | PopTake                    // holds `mylock`, about to take the front item
    | PopCount(item: seq<J>)     // holds `mylock`, about to increment `out_count`
    | PopLeave(item: seq<J>)     // holds `mylock`, about to unlock and return
    | PopFail                    // holds `mylock`, about to unlock and throw

  /** All but the first hold `mylock`. */
  datatype ShutPc = ShutStart | ShutLocked | ShutDrain | ShutNotify | ShutLeave

  datatype JoinPc =
    | JoinStart                  // about to lock `joinlock`
    | JoinTest                   // holds `joinlock`, about to read a first counter
    | JoinSawDone(seen: nat)     // read `completed`, about to read `in_count`
    | JoinSawIn(seen: nat)       // read `in_count`, about to read `completed`
    | JoinSleep                  // holds `joinlock`, about to wait
    | JoinParked                 // waiting on `sigdone`
    | JoinWoken                  // woken, about to lock `joinlock` again
    | JoinLeave                  // holds `joinlock`, about to unlock and return

  datatype DonePc =
    | DoneStart                  // about to increment `completed`
    | DoneTest                   // about to read a first counter
    | DoneSawDone(seen: nat)
    | DoneSawIn(seen: nat)
    | DoneLock                   // about to lock `joinlock`
    | DoneNotify                 // holds `joinlock`, about to call `sigdone.notify_all`
    | DoneLeave                  // holds `joinlock`, about to unlock

  /** Where a thread is: outside the queue, or inside a member function. */
  datatype Pc<J> =
    | Idle
    | Busy(item: seq<J>, next: nat)  // `pop` returned; the first `next` jobs are done
    | Joined                         // `join` returned
    | InPush(push: PushPc<J>)
    | InPop(pop: PopPc<J>)
    | InRelease(andThen: Option<seq<J>>)  // about to notify; `bot_mk1::unlock` pushes next
    | InShut(shut: ShutPc)
    | InJoin(join: JoinPc)
    | InDone(done: DonePc)

  /** The queue's fields, and five histories: every item put in the buffer, every
      item taken out by `pop`, every item thrown away by `shutdown`, the
      unprocessed rest of every packet whose consumer never calls `task_done`,
      and every job performed. */
  datatype Queue<J> = Queue(
    buffer: seq<seq<J>>, inCount: nat, outCount: nat, completed: nat,
    ready: bool, blocked: bool,
    mylock: Option<nat>, joinlock: Option<nat>,
    enqueued: seq<seq<J>>, delivered: seq<seq<J>>, lost: seq<seq<J>>,
    dropped: seq<seq<J>>, log: seq<J>)

  /** The queue and one program counter per thread. */
  datatype Sys<J> = Sys(q: Queue<J>, pc: seq<Pc<J>>)

  function Init<J>(threads: nat): Sys<J> {
    Sys(Queue([], 0, 0, 0, true, false, None, None, [], [], [], [], []), seq(threads, _ => Idle))
  }

  datatype Op<J> = Push(item: seq<J>) | Pop | Hold | Release | Unlock(item: seq<J>) | Shutdown | Join

  datatype Event<J> =
    | Call(t: nat, op: Op<J>)    // an idle thread calls a member function
    | Go(t: nat)                 // a thread performs its next action
    | Swap(t: nat)               // a comparison of the counters reads `in_count` first
    | Notify(t: nat, w: nat)     // notify_one picks the waiter w
    | Spurious(t: nat)           // a wait returns without a notification
    | Work(t: nat)               // a consumer performs the next job of its packet
    | Finish(t: nat)             // a consumer that did every job calls `task_done`
    | Drop(t: nat)               // a consumer gives up its packet without `task_done`

  predicate Enabled<J>(s: Sys<J>, e: Event<J>) {
    && e.t < |s.pc|
    && Possible(s.q, s.pc[e.t], e)
    && (e.Notify? ==> e.w < |s.pc| && s.pc[e.w] == InPop(PopParked))
    // notify_one does nothing only when nobody waits.
    && (e.Go? && s.pc[e.t] == InPush(PushNotify) ==> forall w :: 0 <= w < |s.pc| ==> s.pc[w] != InPop(PopParked))
  }

  /** The event suits the thread's program counter, and a lock it takes is free. */
  predicate Possible<J>(q: Queue<J>, p: Pc<J>, e: Event<J>) {
    match e
    case Call(_, _) => p.Idle? || p.Joined?
    case Go(_) => CanGo(q, p)
    case Swap(_) => p == InJoin(JoinTest) || p == InDone(DoneTest)
    case Notify(_, _) => p == InPush(PushNotify)
    case Spurious(_) => p == InPop(PopParked) || p == InJoin(JoinParked)
    case Work(_) => p.Busy? && p.next < |p.item|
    case Finish(_) => p.Busy? && p.next == |p.item|
    case Drop(_) => p.Busy? && p.next <= |p.item|
  }

  predicate CanGo<J>(q: Queue<J>, p: Pc<J>) {
    match p
    case Idle | Joined | Busy(_, _) => false
    case InPush(c) => c.PushCounted? ==> q.mylock.None?
    case InPop(c) =>
      c != PopParked && (c == PopStart || c == PopWoken ==> q.mylock.None?) && (c == PopTake ==> |q.buffer| > 0)
    case InRelease(_) => true
    case InShut(c) => c == ShutStart ==> q.mylock.None?
    case InJoin(c) => c != JoinParked && (c == JoinStart || c == JoinWoken ==> q.joinlock.None?)
    case InDone(c) => c == DoneLock ==> q.joinlock.None?
  }

  /** What the event does to the queue, and where it leaves the acting thread. */
  function Act<J>(q: Queue<J>, p: Pc<J>, e: Event<J>): (Queue<J>, Pc<J>)
    requires Possible(q, p, e)
  {
    match e
    case Call(_, op) => Begin(q, op)
    case Go(t) => Advance(q, p, t)
    case Swap(_) => (q, if p.InJoin? then InJoin(JoinSawIn(q.inCount)) else InDone(DoneSawIn(q.inCount)))
    case Notify(_, _) => (q, Idle)
    case Spurious(_) => (q, if p.InPop? then InPop(PopWoken) else InJoin(JoinWoken))
    case Work(_) => (q.(log := q.log + [p.item[p.next]]), Busy(p.item, p.next + 1))
    case Finish(_) => (q, InDone(DoneStart))
    case Drop(_) => (q.(dropped := q.dropped + [p.item[p.next..]]), Idle)
  }

  function Begin<J>(q: Queue<J>, op: Op<J>): (Queue<J>, Pc<J>) {
    match op
    case Push(item) => (q, InPush(PushStart(item)))
    case Pop => (q, InPop(PopStart))
    case Hold => (q.(blocked := true), Idle)
    case Release => (q.(blocked := false), InRelease(None))
    case Unlock(item) => (q.(blocked := false), InRelease(Some(item)))
    case Shutdown => (q, InShut(ShutStart))
    case Join => (q, InJoin(JoinStart))
  }

  /** The next action of thread t, at program counter p. */
  function Advance<J>(q: Queue<J>, p: Pc<J>, t: nat): (Queue<J>, Pc<J>)
    requires CanGo(q, p)
  {
    match p
    case InPush(c) => AdvancePush(q, c, t)
    case InPop(c) => AdvancePop(q, c, t)
    case InRelease(andThen) => (q, if andThen.Some? then InPush(PushStart(andThen.value)) else Idle)
    case InShut(c) => AdvanceShut(q, c, t)
    case InJoin(c) => AdvanceJoin(q, c, t)
    case InDone(c) => AdvanceDone(q, c, t)
  }

  function AdvancePush<J>(q: Queue<J>, c: PushPc<J>, t: nat): (Queue<J>, Pc<J>) {
    match c
    case PushStart(item) => (q, if q.ready then InPush(PushReady(item)) else Idle)
    case PushReady(item) => (q.(inCount := q.inCount + 1), InPush(PushCounted(item)))
    case PushCounted(item) => (q.(mylock := Some(t)), InPush(PushLocked(item)))
    case PushLocked(item) =>
      (q.(buffer := q.buffer + [item], enqueued := q.enqueued + [item]), InPush(PushStored))
    case PushStored => (q.(mylock := None), InPush(PushSignal))
    case PushSignal => (q, if q.blocked then Idle else InPush(PushNotify))
    case PushNotify => (q, Idle)
  }

  function AdvancePop<J>(q: Queue<J>, c: PopPc<J>, t: nat): (Queue<J>, Pc<J>)
    requires c != PopParked && (c == PopTake ==> |q.buffer| > 0)
  {
    match c
    case PopStart => (q.(mylock := Some(t)), InPop(PopTest))
    case PopTest =>
      (q, if (|q.buffer| == 0 && q.ready) || (q.blocked && q.ready) then InPop(PopSleep)
          else if q.ready then InPop(PopTake) else InPop(PopFail))
    case PopSleep => (q.(mylock := None), InPop(PopParked))
    case PopWoken => (q.(mylock := Some(t)), InPop(PopTest))
    case PopTake =>
      (q.(buffer := q.buffer[1..], delivered := q.delivered + [q.buffer[0]]), InPop(PopCount(q.buffer[0])))
    case PopCount(item) => (q.(outCount := q.outCount + 1), InPop(PopLeave(item)))
    case PopLeave(item) => (q.(mylock := None), Busy(item, 0))
    case PopFail => (q.(mylock := None), Idle)
  }

  function AdvanceShut<J>(q: Queue<J>, c: ShutPc, t: nat): (Queue<J>, Pc<J>) {
    match c
    case ShutStart => (q.(mylock := Some(t)), InShut(ShutLocked))
    case ShutLocked => (q.(ready := false), InShut(ShutDrain))
    case ShutDrain => (q.(lost := q.lost + q.buffer, buffer := []), InShut(ShutNotify))
    case ShutNotify => (q, InShut(ShutLeave))
    case ShutLeave => (q.(mylock := None), Idle)
  }

  function AdvanceJoin<J>(q: Queue<J>, c: JoinPc, t: nat): (Queue<J>, Pc<J>)
    requires c != JoinParked
  {
    match c
    case JoinStart => (q.(joinlock := Some(t)), InJoin(JoinTest))
    case JoinTest => (q, InJoin(JoinSawDone(q.completed)))
    case JoinSawDone(seen) => (q, InJoin(if Wrap(seen) != Wrap(q.inCount) then JoinSleep else JoinLeave))
    case JoinSawIn(seen) => (q, InJoin(if Wrap(q.completed) != Wrap(seen) then JoinSleep else JoinLeave))
    case JoinSleep => (q.(joinlock := None), InJoin(JoinParked))
    case JoinWoken => (q.(joinlock := Some(t)), InJoin(JoinTest))
    case JoinLeave => (q.(joinlock := None), Joined)
  }

  function AdvanceDone<J>(q: Queue<J>, c: DonePc, t: nat): (Queue<J>, Pc<J>) {
    match c
    case DoneStart => (q.(completed := q.completed + 1), InDone(DoneTest))
    case DoneTest => (q, InDone(DoneSawDone(q.completed)))
    case DoneSawDone(seen) => (q, if Wrap(seen) == Wrap(q.inCount) then InDone(DoneLock) else Idle)
    case DoneSawIn(seen) => (q, if Wrap(q.completed) == Wrap(seen) then InDone(DoneLock) else Idle)
    case DoneLock => (q.(joinlock := Some(t)), InDone(DoneNotify))
    case DoneNotify => (q, InDone(DoneLeave))
    case DoneLeave => (q.(joinlock := None), Idle)
  }

  /** Where a thread other than the acting one ends up: notify_all wakes every
      waiter of its condition variable, notify_one wakes one. */
  function Signalled<J>(actor: Pc<J>, e: Event<J>, i: nat, p: Pc<J>): Pc<J> {
    if e.Notify? && i == e.w then InPop(PopWoken)
    else if e.Go? && (actor.InRelease? || actor == InShut(ShutNotify)) && p == InPop(PopParked) then InPop(PopWoken)
    else if e.Go? && actor == InDone(DoneNotify) && p == InJoin(JoinParked) then InJoin(JoinWoken)
    else p
  }

  function Next<J>(s: Sys<J>, e: Event<J>): Sys<J>
    requires Enabled(s, e)
  {
    var (q, p) := Act(s.q, s.pc[e.t], e);
    Sys(q, seq(|s.pc|, i requires 0 <= i < |s.pc| =>
      if i == e.t then p else Signalled(s.pc[e.t], e, i, s.pc[i])))
  }

  /** A run performs the events one after the other; every state on the way,
      the first and the last included, satisfies `ok`. */
  ghost predicate Legal<J(!new)>(s: Sys<J>, events: seq<Event<J>>, ok: Sys<J> -> bool)
    decreases |events|
  {
    ok(s) && (events == [] || (Enabled(s, events[0]) && Legal(Next(s, events[0]), events[1..], ok)))
  }

  ghost function After<J(!new)>(s: Sys<J>, events: seq<Event<J>>, ok: Sys<J> -> bool): (s': Sys<J>)
    requires Legal(s, events, ok)
    ensures |s'.pc| == |s.pc|
    decreases |events|
  {
    if events == [] then s else After(Next(s, events[0]), events[1..], ok)
  }
}
