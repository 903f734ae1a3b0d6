/** Wakeups of a single waiting consumer, as in `bot_mk1`, whose queue is held and
    released: `release` does not take the lock, so its notification can come too
    early; exactly when, and why `unlock` is safe. */
module QueueWakeup {
  import opened Options
  import opened QueueSystem
  import opened QueueInvariants

  /** Only thread c pops. */
  ghost predicate SoleConsumer<J>(s: Sys<J>, c: nat) {
    c < |s.pc| && forall t :: 0 <= t < |s.pc| && t != c ==> !s.pc[t].InPop?
  }

  /** Unblocked, ready and non-empty: a waiting consumer ought to be woken. */
  ghost predicate Ripe<J>(q: Queue<J>) {
    q.ready && !q.blocked && |q.buffer| > 0
  }

  /** The thread is inside a push, or inside a release before its notification. */
  ghost predicate WillNotify<J>(p: Pc<J>) {
    p.InPush? || p.InRelease?
  }

  /** It will push and has not enqueued its item yet, so it needs `mylock` first. */
  ghost predicate BeforeLock<J>(p: Pc<J>) {
    (p.InRelease? && p.andThen.Some?) ||
    (p.InPush? && (p.push.PushStart? || p.push.PushReady? || p.push.PushCounted?))
  }

  ghost predicate SomeBeforeLock<J>(s: Sys<J>) {
    exists t :: 0 <= t < |s.pc| && BeforeLock(s.pc[t])
  }

  /** A consumer parked beside a ripe queue will be notified; one that is about to
      park will be notified after it has parked. */
  ghost predicate UnlockInv<J>(s: Sys<J>, c: nat) {
    && c < |s.pc|
    && (s.pc[c] == InPop(PopParked) && Ripe(s.q) ==> exists t :: 0 <= t < |s.pc| && WillNotify(s.pc[t]))
    && (s.pc[c] == InPop(PopSleep) && Ripe(s.q) ==> SomeBeforeLock(s))
  }

  // ----- one step -----

  predicate IsRelease<J>(e: Event<J>) { e.Call? && e.op.Release? }

  /** The moment at which a release that no push follows comes too early: the queue
      is held and has something to give, and the consumer, which has seen it held,
      has not parked yet. */
  ghost predicate TooEarly<J>(s: Sys<J>, c: nat) {
    && c < |s.pc| && s.pc[c] == InPop(PopSleep)
    && s.q.ready && s.q.blocked && |s.q.buffer| > 0
    && !SomeBeforeLock(s)
  }

  /** The state becomes ripe only by a thread that will notify. */
  lemma RipensAct<J>(q: Queue<J>, p: Pc<J>, e: Event<J>)
    requires Possible(q, p, e)
    ensures var (q', p') := Act(q, p, e);
            Ripe(q') && !Ripe(q) ==> WillNotify(p') && (HoldsMy(p) || BeforeLock(p') || IsRelease(e))
  {
  }

  /** A thread that will notify does so, unless it finds the queue held or shut down. */
  lemma NotifierAct<J>(q: Queue<J>, p: Pc<J>, e: Event<J>)
    requires Possible(q, p, e) && WillNotify(p)
    ensures var (q', p') := Act(q, p, e);
            Ripe(q') ==>
              && (WillNotify(p') || p == InPush(PushNotify) || p.InRelease?)
              && (BeforeLock(p) && q.mylock.Some? ==> BeforeLock(p'))
  {
  }

  /** A consumer goes to sleep only when it sees nothing to take. */
  lemma SleeperAct<J>(q: Queue<J>, p: Pc<J>, e: Event<J>)
    requires Possible(q, p, e)
    ensures var (q', p') := Act(q, p, e);
            && (p' == InPop(PopSleep) ==> !Ripe(q'))
            && (p' == InPop(PopParked) ==> p == InPop(PopSleep) && Ripe(q') == Ripe(q))
  {
  }

  /** A thread that notifies wakes the only waiter. */
  lemma NotifyReaches<J(!new)>(s: Sys<J>, e: Event<J>, c: nat)
    requires Enabled(s, e) && SoleConsumer(s, c) && s.pc[c] == InPop(PopParked)
    requires s.pc[e.t] == InPush(PushNotify) || s.pc[e.t].InRelease?
    ensures Next(s, e).pc[c] == InPop(PopWoken)
  {
  }

  lemma ParkedStep<J(!new)>(s: Sys<J>, e: Event<J>, c: nat)
    requires UnlockInv(s, c) && Enabled(s, e) && SoleConsumer(s, c)
    requires Ripe(Next(s, e).q) && Next(s, e).pc[c] == InPop(PopParked)
    ensures exists t :: 0 <= t < |s.pc| && WillNotify(Next(s, e).pc[t])
  {
    var s' := Next(s, e);
    var t := e.t;
    NextParts(s, e);
    if !Ripe(s.q) {
      RipensAct(s.q, s.pc[t], e);
      assert WillNotify(s'.pc[t]);
    } else if c == t {
      SleeperAct(s.q, s.pc[t], e);
      var w :| 0 <= w < |s.pc| && BeforeLock(s.pc[w]);
      assert WillNotify(s'.pc[w]);
    } else {
      var w :| 0 <= w < |s.pc| && WillNotify(s.pc[w]);
      if w == t {
        NotifierAct(s.q, s.pc[t], e);
        if s.pc[t] == InPush(PushNotify) || s.pc[t].InRelease? {
          NotifyReaches(s, e, c);
          assert false;
        }
      }
      assert WillNotify(s'.pc[w]);
    }
  }

  lemma SleepStep<J(!new)>(s: Sys<J>, e: Event<J>, c: nat)
    requires LockInv(s) && UnlockInv(s, c) && Enabled(s, e) && (IsRelease(e) ==> !TooEarly(s, c))
    requires Ripe(Next(s, e).q) && Next(s, e).pc[c] == InPop(PopSleep)
    ensures SomeBeforeLock(Next(s, e))
  {
    var s' := Next(s, e);
    var t := e.t;
    NextParts(s, e);
    SleeperAct(s.q, s.pc[t], e);
    assert c != t && s.pc[c] == InPop(PopSleep);
    assert HoldsMy(s.pc[c]) && s.q.mylock == Some(c);
    assert HoldsMy(s.pc[t]) <==> s.q.mylock == Some(t);
    if !Ripe(s.q) && !IsRelease(e) {
      RipensAct(s.q, s.pc[t], e);
      assert BeforeLock(s'.pc[t]);
    } else {
      var w :| 0 <= w < |s.pc| && BeforeLock(s.pc[w]);
      if w == t {
        NotifierAct(s.q, s.pc[t], e);
      }
      assert BeforeLock(s'.pc[w]);
    }
  }

  lemma UnlockStep<J(!new)>(s: Sys<J>, e: Event<J>, c: nat)
    requires QueueInv(s) && UnlockInv(s, c) && Enabled(s, e) && SoleConsumer(s, c)
    requires IsRelease(e) ==> !TooEarly(s, c)
    ensures UnlockInv(Next(s, e), c)
  {
    if Ripe(Next(s, e).q) {
      if Next(s, e).pc[c] == InPop(PopParked) {
        ParkedStep(s, e, c);
      } else if Next(s, e).pc[c] == InPop(PopSleep) {
        SleepStep(s, e, c);
      }
    }
  }

  // ----- exactly when a release is safe -----

  lemma ReleaseLeaves<J(!new)>(s: Sys<J>, t: nat)
    requires Enabled(s, Call(t, Release))
    ensures var s' := Next(s, Call(t, Release));
            && s'.q == s.q.(blocked := false) && s'.pc == s.pc[t := InRelease(None)]
            && (SomeBeforeLock(s') <==> SomeBeforeLock(s))
  {
    var s' := Next(s, Call(t, Release));
    assert s'.pc == s.pc[t := InRelease(None)];
    forall w | 0 <= w < |s.pc| ensures BeforeLock(s'.pc[w]) == BeforeLock(s.pc[w]) {
    }
  }

  /** A release keeps the promise to the consumer if and only if it does not come
      too early. */
  lemma ReleaseKeepsIff<J(!new)>(s: Sys<J>, t: nat, c: nat)
    requires QueueInv(s) && UnlockInv(s, c) && SoleConsumer(s, c) && Enabled(s, Call(t, Release))
    ensures UnlockInv(Next(s, Call(t, Release)), c) <==> !TooEarly(s, c)
  {
    if TooEarly(s, c) {
      ReleaseLeaves(s, t);
      assert t != c;
    } else {
      UnlockStep(s, Call(t, Release), c);
    }
  }

  /** The same seen from its second half: the notification of a bare release is
      wasted if and only if the consumer is still about to park beside a ripe queue
      and nobody will push. */
  lemma NotificationKeepsIff<J(!new)>(s: Sys<J>, t: nat, c: nat)
    requires QueueInv(s) && SoleConsumer(s, c) && t < |s.pc| && t != c && s.pc[t] == InRelease(None)
    ensures UnlockInv(Next(s, Go(t)), c) <==>
            !(s.pc[c] == InPop(PopSleep) && Ripe(s.q) && !SomeBeforeLock(s))
  {
    var s' := Next(s, Go(t));
    forall w | 0 <= w < |s.pc| ensures BeforeLock(s'.pc[w]) == BeforeLock(s.pc[w]) {
    }
    assert s'.q == s.q && s'.pc[c] != InPop(PopParked);
    assert s'.pc[c] == InPop(PopSleep) <==> s.pc[c] == InPop(PopSleep);
  }

  /** The consumer sleeps on a ripe queue and nobody will notify it. */
  ghost predicate WakeupLost<J>(s: Sys<J>, c: nat) {
    && c < |s.pc| && s.pc[c] == InPop(PopParked) && Ripe(s.q)
    && forall t :: 0 <= t < |s.pc| ==> !WillNotify(s.pc[t])
  }

  /** No release of the run comes too early. */
  ghost predicate NoneTooEarly<J(!new)>(s: Sys<J>, events: seq<Event<J>>, ok: Sys<J> -> bool, c: nat)
    requires Legal(s, events, ok)
    decreases |events|
  {
    events == [] || ((IsRelease(events[0]) ==> !TooEarly(s, c)) && NoneTooEarly(Next(s, events[0]), events[1..], ok, c))
  }

  lemma {:induction false} UnlockRun<J(!new)>(s: Sys<J>, events: seq<Event<J>>, ok: Sys<J> -> bool, c: nat)
    requires QueueInv(s) && UnlockInv(s, c) && Legal(s, events, ok) && NoneTooEarly(s, events, ok, c)
    requires forall x :: ok(x) ==> SoleConsumer(x, c)
    ensures QueueInv(After(s, events, ok)) && UnlockInv(After(s, events, ok), c)
    decreases |events|
  {
    if events != [] {
      assert ok(s);
      QueueStep(s, events[0]);
      UnlockStep(s, events[0], c);
      UnlockRun(Next(s, events[0]), events[1..], ok, c);
    }
  }

  /** With one consumer and any number of producers, a run from the initial state in
      which no release comes too early loses no wakeup: whenever the consumer is
      parked beside a ripe queue, some thread is inside a push or has yet to notify. */
  lemma TimelyReleasesLoseNoWakeup<J(!new)>(threads: nat, events: seq<Event<J>>, ok: Sys<J> -> bool, c: nat)
    requires c < threads && Legal(Init(threads), events, ok) && NoneTooEarly(Init(threads), events, ok, c)
    requires forall x :: ok(x) ==> SoleConsumer(x, c)
    ensures UnlockInv(After(Init(threads), events, ok), c) && !WakeupLost(After(Init(threads), events, ok), c)
  {
    QueueInit<J>(threads);
    UnlockRun(Init(threads), events, ok, c);
  }

  /** Every release is the one inside `bot_mk1::unlock`, which goes on to push. */
  ghost predicate NoBareRelease<J>(s: Sys<J>) {
    forall t :: 0 <= t < |s.pc| && s.pc[t].InRelease? ==> s.pc[t].andThen.Some?
  }

  lemma {:induction false} UnlocksAreTimely<J(!new)>(s: Sys<J>, events: seq<Event<J>>, ok: Sys<J> -> bool, c: nat)
    requires Legal(s, events, ok) && forall x :: ok(x) ==> NoBareRelease(x)
    ensures NoneTooEarly(s, events, ok, c)
    decreases |events|
  {
    if events != [] {
      var s' := Next(s, events[0]);
      assert ok(s');
      if IsRelease(events[0]) {
        NextParts(s, events[0]);
        assert false;
      }
      UnlocksAreTimely(s', events[1..], ok, c);
    }
  }

  /** With every release followed by a push, as in `bot_mk1::unlock`, no wakeup is
      ever lost. */
  lemma UnlockLosesNoWakeup<J(!new)>(threads: nat, events: seq<Event<J>>, ok: Sys<J> -> bool, c: nat)
    requires c < threads && Legal(Init(threads), events, ok)
    requires forall x :: ok(x) ==> SoleConsumer(x, c) && NoBareRelease(x)
    ensures UnlockInv(After(Init(threads), events, ok), c) && !WakeupLost(After(Init(threads), events, ok), c)
  {
    UnlocksAreTimely(Init(threads), events, ok, c);
    TimelyReleasesLoseNoWakeup(threads, events, ok, c);
  }

  // ----- a release that comes too early can be fatal -----

  /** A thread that notifies without taking the lock first. */
  ghost predicate Hasty<J>(p: Pc<J>) { p.InRelease? || p == InPush(PushSignal) || p == InPush(PushNotify) }

  /** The consumer is about to park beside a ripe queue and whoever will notify
      does not need the lock that it holds. */
  ghost predicate Doomed<J(!new)>(s: Sys<J>, c: nat) {
    && QueueInv(s) && SoleConsumer(s, c) && s.pc[c] == InPop(PopSleep) && Ripe(s.q) && !SomeBeforeLock(s)
  }

  /** One action of one such thread, which finds nobody to wake. */
  lemma HastyStep<J(!new)>(s: Sys<J>, c: nat, t: nat)
    requires Doomed(s, c) && t < |s.pc| && Hasty(s.pc[t])
    ensures Enabled(s, Go(t)) && Doomed(Next(s, Go(t)), c)
    ensures var p' := if s.pc[t] == InPush(PushSignal) then InPush(PushNotify) else Idle;
            Next(s, Go(t)).pc == s.pc[t := p']
  {
    var p' := if s.pc[t] == InPush(PushSignal) then InPush(PushNotify) else Idle;
    assert s.pc[t].InRelease? ==> !BeforeLock(s.pc[t]);
    assert forall w :: 0 <= w < |s.pc| ==> s.pc[w] != InPop(PopParked);
    assert Next(s, Go(t)).pc == s.pc[t := p'];
    QueueStep(s, Go(t));
  }

  /** How many actions such threads still have. */
  ghost function Haste<J>(p: Pc<J>): nat {
    if p == InPush(PushSignal) then 2 else if Hasty(p) then 1 else 0
  }

  lemma HasteFalls<J(!new)>(s: Sys<J>, c: nat, t: nat)
    requires Doomed(s, c) && t < |s.pc| && Hasty(s.pc[t])
    ensures Enabled(s, Go(t)) && Sum(Next(s, Go(t)).pc, Haste) < Sum(s.pc, Haste)
  {
    HastyStep(s, c, t);
    SumUpdate(s.pc, t, if s.pc[t] == InPush(PushSignal) then InPush(PushNotify) else Idle, Haste);
  }

  lemma NotifiersAreHasty<J(!new)>(s: Sys<J>, c: nat)
    requires Doomed(s, c) && forall t :: 0 <= t < |s.pc| ==> !Hasty(s.pc[t])
    ensures forall t :: 0 <= t < |s.pc| ==> !WillNotify(s.pc[t])
  {
    assert HoldsMy(s.pc[c]) && s.q.mylock == Some(c);
    forall t | 0 <= t < |s.pc| ensures !WillNotify(s.pc[t]) {
      assert !BeforeLock(s.pc[t]) && (t != c ==> !HoldsMy(s.pc[t]));
    }
  }

  /** From a doomed state the remaining notifications are wasted one by one, and
      then the consumer parks for good. */
  lemma {:induction false} DoomedIsLost<J(!new)>(s: Sys<J>, c: nat, ok: Sys<J> -> bool) returns (events: seq<Event<J>>)
    requires Doomed(s, c) && forall x :: SoleConsumer(x, c) ==> ok(x)
    ensures Legal(s, events, ok) && WakeupLost(After(s, events, ok), c)
    decreases Sum(s.pc, Haste)
  {
    if t :| 0 <= t < |s.pc| && Hasty(s.pc[t]) {
      HastyStep(s, c, t);
      HasteFalls(s, c, t);
      var rest := DoomedIsLost(Next(s, Go(t)), c, ok);
      RunFrom(s, Go(t), rest, ok);
      events := [Go(t)] + rest;
    } else {
      NotifiersAreHasty(s, c);
      ParksForGood(s, c);
      RunFrom(s, Go(c), [], ok);
      events := [Go(c)] + [];
    }
  }

  lemma ParksForGood<J(!new)>(s: Sys<J>, c: nat)
    requires Doomed(s, c) && forall t :: 0 <= t < |s.pc| ==> !WillNotify(s.pc[t])
    ensures Enabled(s, Go(c)) && WakeupLost(Next(s, Go(c)), c) && SoleConsumer(Next(s, Go(c)), c)
  {
    assert Next(s, Go(c)).pc == s.pc[c := InPop(PopParked)];
  }

  /** After a release that comes too early the wakeup can be lost: some way for the
      threads to go on ends with the consumer parked beside a ripe queue and nobody
      left who would notify it. */
  lemma TooEarlyCanBeFatal<J(!new)>(s: Sys<J>, t: nat, c: nat, ok: Sys<J> -> bool) returns (events: seq<Event<J>>)
    requires QueueInv(s) && SoleConsumer(s, c) && Enabled(s, Call(t, Release)) && TooEarly(s, c)
    requires forall x :: SoleConsumer(x, c) ==> ok(x)
    ensures Legal(s, events, ok) && events != [] && events[0] == Call(t, Release)
    ensures WakeupLost(After(s, events, ok), c)
  {
    var e := Call(t, Release);
    QueueStep(s, e);
    ReleaseLeaves(s, t);
    assert t != c;
    var rest := DoomedIsLost(Next(s, e), c, ok);
    RunFrom(s, e, rest, ok);
    events := [e] + rest;
  }

  // ----- what a caller can check -----

  /** Whatever the other threads are doing, a release now does not come too early. */
  ghost predicate SafeToRelease<J(!new)>(buffer: seq<seq<J>>, ready: bool, blocked: bool) {
    forall s: Sys<J>, c: nat | QueueInv(s) && SoleConsumer(s, c) ::
      s.q.buffer == buffer && s.q.ready == ready && s.q.blocked == blocked ==> !TooEarly(s, c)
  }

  /** A consumer about to park on a held queue. */
  ghost function AboutToPark<J>(buffer: seq<seq<J>>): Sys<J> {
    Sys(Queue(buffer, |buffer|, 0, 0, true, true, Some(0), None, buffer, [], [], [], []), [InPop(PopSleep), Idle])
  }

  lemma AboutToParkCounts<J(!new)>(buffer: seq<seq<J>>)
    ensures CountInv(AboutToPark(buffer)) && JobInv(AboutToPark(buffer))
  {
    var s := AboutToPark(buffer);
    SumZero(s.pc, Counted);
    SumZero(s.pc, Taken);
    SumZero(s.pc, Held);
    forall j ensures Sum(s.pc, OwesOf(j)) == 0 {
      SumZero(s.pc, OwesOf(j));
    }
  }

  lemma AboutToParkIsPossible<J(!new)>(buffer: seq<seq<J>>)
    ensures QueueInv(AboutToPark(buffer)) && SoleConsumer(AboutToPark(buffer), 0)
    ensures buffer != [] ==> TooEarly(AboutToPark(buffer), 0)
  {
    AboutToParkCounts(buffer);
    assert [] + [] + buffer == buffer;
  }

  /** A caller of `release` that looks at the queue alone is safe exactly if the
      queue is empty, shut down or not held; otherwise it has to push, as `unlock`
      does. */
  lemma SafeToReleaseIff<J(!new)>(buffer: seq<seq<J>>, ready: bool, blocked: bool)
    ensures SafeToRelease(buffer, ready, blocked) <==> buffer == [] || !ready || !blocked
  {
    AboutToParkIsPossible(buffer);
    if buffer != [] && ready && blocked {
      var s := AboutToPark(buffer);
      assert s.q.buffer == buffer && s.q.ready == ready && s.q.blocked == blocked && TooEarly(s, 0);
    }
  }

  // ----- a run in which a bare release loses the wakeup -----

  ghost predicate ConsumerIsZero<J>(s: Sys<J>) { SoleConsumer(s, 0) }

  /** Three threads, an item already in the buffer if `stored`. */
  function Three(stored: bool, count: nat, blocked: bool, lock: Option<nat>,
                 consumer: Pc<int>, producer: Pc<int>, engine: Pc<int>): Sys<int>
  {
    var b := if stored then [[7]] else [];
    Sys(Queue(b, count, 0, 0, true, blocked, lock, None, b, [], [], [], []), [consumer, producer, engine])
  }

  /** The engine (thread 2) holds the queue; the producer (thread 1) pushes and
      skips its notification; the consumer (thread 0) finds the queue held; the
      engine releases and notifies before the consumer is parked. */
  function LostRun(): seq<Event<int>> {
    [Call(2, Hold), Call(1, Push([7])), Go(1), Go(1), Go(1), Go(1), Go(1), Go(1),
     Call(0, Pop), Go(0), Go(0), Call(2, Release), Go(2), Go(0)]
  }

  /** The state before event k of that run. */
  function LostState(k: nat): Sys<int> {
    match k
    case 0 => Init(3)
    case 1 => Three(false, 0, true, None, Idle, Idle, Idle)
    case 2 => Three(false, 0, true, None, Idle, InPush(PushStart([7])), Idle)
    case 3 => Three(false, 0, true, None, Idle, InPush(PushReady([7])), Idle)
    case 4 => Three(false, 1, true, None, Idle, InPush(PushCounted([7])), Idle)
    case 5 => Three(false, 1, true, Some(1), Idle, InPush(PushLocked([7])), Idle)
    case 6 => Three(true, 1, true, Some(1), Idle, InPush(PushStored), Idle)
    case 7 => Three(true, 1, true, None, Idle, InPush(PushSignal), Idle)
    case 8 => Three(true, 1, true, None, Idle, Idle, Idle)
    case 9 => Three(true, 1, true, None, InPop(PopStart), Idle, Idle)
    case 10 => Three(true, 1, true, Some(0), InPop(PopTest), Idle, Idle)
    case 11 => Three(true, 1, true, Some(0), InPop(PopSleep), Idle, Idle)
    case 12 => Three(true, 1, false, Some(0), InPop(PopSleep), Idle, InRelease(None))
    case 13 => Three(true, 1, false, Some(0), InPop(PopSleep), Idle, Idle)
    case _ => Three(true, 1, false, None, InPop(PopParked), Idle, Idle)
  }

  lemma LostPush(k: nat)
    requires k < 8
    ensures Enabled(LostState(k), LostRun()[k]) && Next(LostState(k), LostRun()[k]) == LostState(k + 1)
  {
  }

  lemma LostPop(k: nat)
    requires 8 <= k < 14
    ensures Enabled(LostState(k), LostRun()[k]) && Next(LostState(k), LostRun()[k]) == LostState(k + 1)
  {
  }

  lemma LostOk(k: nat)
    ensures ConsumerIsZero(LostState(k))
  {
  }

  /** A list of states, each the next of the one before, is a run. */
  lemma {:induction false} Follow<J(!new)>(states: nat -> Sys<J>, events: seq<Event<J>>, ok: Sys<J> -> bool, k: nat)
    requires forall i: nat :: i < |events| ==>
      Enabled(states(i), events[i]) && Next(states(i), events[i]) == states(i + 1)
    requires forall i: nat :: ok(states(i))
    requires k <= |events|
    ensures Legal(states(k), events[k..], ok) && After(states(k), events[k..], ok) == states(|events|)
    decreases |events| - k
  {
    if k < |events| {
      Follow(states, events, ok, k + 1);
      assert events[k..][1..] == events[k + 1..];
    }
  }

  lemma LostEnd()
    ensures WakeupLost(LostState(14), 0)
  {
  }

  /** Its release is the one that comes too early. */
  lemma LostTooEarly()
    ensures IsRelease(LostRun()[11]) && TooEarly(LostState(11), 0)
  {
  }

  lemma LostSteps()
    ensures |LostRun()| == 14
    ensures forall k: nat :: k < 14 ==>
              Enabled(LostState(k), LostRun()[k]) && Next(LostState(k), LostRun()[k]) == LostState(k + 1)
  {
    forall k: nat | k < 14
      ensures Enabled(LostState(k), LostRun()[k]) && Next(LostState(k), LostRun()[k]) == LostState(k + 1)
    {
      if k < 8 { LostPush(k); } else { LostPop(k); }
    }
  }

  /** `release` on its own loses a wakeup: in this run nobody is left who would
      notify, and the only consumer is parked beside a waiting item. */
  lemma ReleaseLosesAWakeup(events: seq<Event<int>>)
    requires events == LostRun()
    ensures Legal(LostState(0), events, ConsumerIsZero) && LostState(0) == Init(3)
    ensures WakeupLost(After(LostState(0), events, ConsumerIsZero), 0)
  {
    LostSteps();
    forall k: nat ensures ConsumerIsZero(LostState(k)) { LostOk(k); }
    Follow(LostState, events, ConsumerIsZero, 0);
    assert events[0..] == events;
    LostEnd();
  }
}
