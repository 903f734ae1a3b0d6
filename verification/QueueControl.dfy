/** `push`, `pop`, `hold`, `release` and `shutdown` of `abs_queue` over whole runs:
    order and conservation, what a hold lets through, what a shutdown lets
    through, and when a release can lose a wakeup. */
module QueueControl {
  import opened Options
  import opened QueueSystem
  import opened QueueInvariants

  ghost predicate Any<J>(s: Sys<J>) { true }

  lemma WrapSum(m: nat, n: nat)
    ensures Wrap(m + n) == (Wrap(m) + n) % WORD
  {
    assert (m + n) % WORD == (m % WORD + n) % WORD;
  }

  /** The number of pushers that have counted their item but not yet enqueued it. */
  ghost function Entering<J>(s: Sys<J>): nat { Sum(s.pc, Counted) }

  lemma Conservation<J(!new)>(s: Sys<J>)
    requires QueueInv(s) && s.q.ready && s.q.mylock.None?
    ensures s.q.inCount == s.q.outCount + |s.q.buffer| + Entering(s)
  {
    forall t | 0 <= t < |s.pc| ensures Taken(s.pc[t]) == 0 {
      assert HoldsMy(s.pc[t]) <==> s.q.mylock == Some(t);
    }
    SumZero(s.pc, Taken);
    assert |s.q.enqueued| == |s.q.delivered| + |s.q.buffer|;
  }

  /** The items put in are the items taken out, followed by what a shutdown threw
      away, followed by the buffer.  With `mylock` free and before a shutdown, the
      stored counters differ by the buffer and by the pushers that have counted
      but not yet enqueued, modulo the 32-bit word. */
  ghost predicate Conserves<J>(s: Sys<J>) {
    && s.q.enqueued == s.q.delivered + s.q.lost + s.q.buffer
    && (s.q.ready ==> s.q.enqueued == s.q.delivered + s.q.buffer)
    && (s.q.ready && s.q.mylock.None? ==>
          Wrap(s.q.inCount) == (Wrap(s.q.outCount) + |s.q.buffer| + Entering(s)) % WORD)
  }

  lemma InvConserves<J(!new)>(s: Sys<J>)
    requires QueueInv(s)
    ensures Conserves(s)
  {
    if s.q.ready && s.q.mylock.None? {
      Conservation(s);
      WrapSum(s.q.outCount, |s.q.buffer| + Entering(s));
    }
  }

  /** For any number of threads and any interleaving. */
  lemma FifoAndConservation<J(!new)>(threads: nat, events: seq<Event<J>>)
    requires Legal(Init(threads), events, Any)
    ensures Conserves(After(Init(threads), events, Any))
  {
    QueueInit<J>(threads);
    QueueRun(Init(threads), events, Any);
    InvConserves(After(Init(threads), events, Any));
  }

  // ----- hold -----

  /** Threads that will take an item without looking at `blocked` again. */
  ghost function Taking<J>(p: Pc<J>): nat { One(p == InPop(PopTake)) }

  lemma HoldAct<J>(q: Queue<J>, p: Pc<J>, e: Event<J>)
    requires Possible(q, p, e) && q.blocked
    ensures var (q', p') := Act(q, p, e); |q'.delivered| + Taking(p') <= |q.delivered| + Taking(p)
  {
  }

  /** While the queue is held, items taken plus threads about to take one never
      grow, so no more leave than there were such threads when the hold began. */
  lemma {:induction false} HoldRun<J(!new)>(s: Sys<J>, events: seq<Event<J>>, ok: Sys<J> -> bool)
    requires Legal(s, events, ok) && forall x :: ok(x) ==> x.q.blocked
    ensures var s' := After(s, events, ok); |s'.q.delivered| + Sum(s'.pc, Taking) <= |s.q.delivered| + Sum(s.pc, Taking)
    decreases |events|
  {
    if events != [] {
      var e := events[0];
      HoldAct(s.q, s.pc[e.t], e);
      StepMoves(s, e);
      NextParts(s, e);
      SumMove(s, Next(s, e), e.t, Taking);
      HoldRun(Next(s, e), events[1..], ok);
    }
  }

  lemma {:induction false} AtMostOneHolder<J(!new)>(s: Sys<J>, n: nat)
    requires LockInv(s) && n <= |s.pc|
    ensures Sum(s.pc[..n], Taking) <= 1
    ensures s.q.mylock.None? || s.q.mylock.value >= n || s.pc[s.q.mylock.value] != InPop(PopTake) ==>
              Sum(s.pc[..n], Taking) == 0
  {
    if n > 0 {
      AtMostOneHolder(s, n - 1);
      assert s.pc[..n][..n - 1] == s.pc[..n - 1];
      assert HoldsMy(s.pc[n - 1]) <==> s.q.mylock == Some(n - 1);
    }
  }

  /** From the moment `hold` has set `blocked` until `blocked` is cleared, at most
      one further item is taken in total, by all consumers together, whatever
      wakes up and whatever is pushed or shut down in between; none if no thread
      had already passed its test. */
  lemma HoldLetsOneThrough<J(!new)>(threads: nat, before: seq<Event<J>>, events: seq<Event<J>>, held: Sys<J> -> bool)
    requires Legal(Init(threads), before, Any)
    requires Legal(After(Init(threads), before, Any), events, held)
    requires forall x :: held(x) ==> x.q.blocked
    ensures var s := After(Init(threads), before, Any);
            var s' := After(s, events, held);
            && |s.q.delivered| <= |s'.q.delivered| <= |s.q.delivered| + 1
            && ((forall t :: 0 <= t < |s.pc| ==> s.pc[t] != InPop(PopTake)) ==> s'.q.delivered == s.q.delivered)
  {
    var s := After(Init(threads), before, Any);
    QueueInit<J>(threads);
    QueueRun(Init(threads), before, Any);
    AtMostOneHolder(s, |s.pc|);
    assert s.pc[..|s.pc|] == s.pc;
    SumZero(s.pc, Taking);
    HoldRun(s, events, held);
    DeliveredGrows(s, events, held);
  }

  lemma DeliveredAct<J>(q: Queue<J>, p: Pc<J>, e: Event<J>)
    requires Possible(q, p, e)
    ensures q.delivered <= Act(q, p, e).0.delivered
  {
  }

  lemma {:induction false} DeliveredGrows<J(!new)>(s: Sys<J>, events: seq<Event<J>>, ok: Sys<J> -> bool)
    requires Legal(s, events, ok)
    ensures s.q.delivered <= After(s, events, ok).q.delivered
    decreases |events|
  {
    if events != [] {
      DeliveredAct(s.q, s.pc[events[0].t], events[0]);
      NextParts(s, events[0]);
      DeliveredGrows(Next(s, events[0]), events[1..], ok);
    }
  }

  // ----- shutdown -----

  lemma ShutAct<J>(q: Queue<J>, p: Pc<J>, e: Event<J>)
    requires Possible(q, p, e) && !q.ready && p != InPop(PopTake)
    ensures var q' := Act(q, p, e).0; !q'.ready && q'.delivered == q.delivered
  {
  }

  /** Once `ready` is false it stays false and no item is ever delivered, even
      one that a pusher which had already seen `ready` enqueues afterwards. */
  lemma {:induction false} NothingAfterShutdown<J(!new)>(s: Sys<J>, events: seq<Event<J>>, ok: Sys<J> -> bool)
    requires QueueInv(s) && !s.q.ready && Legal(s, events, ok)
    ensures !After(s, events, ok).q.ready && After(s, events, ok).q.delivered == s.q.delivered
    decreases |events|
  {
    if events != [] {
      var e := events[0];
      assert FifoAt(s.q, s.pc[e.t]);
      ShutAct(s.q, s.pc[e.t], e);
      NextParts(s, e);
      QueueStep(s, e);
      NothingAfterShutdown(Next(s, e), events[1..], ok);
    }
  }
}
