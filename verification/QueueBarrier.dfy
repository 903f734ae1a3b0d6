/** The barrier of `abs_queue`: `join` and `task_done`.

    No wakeup is lost, and when the sole producer's `join` returns every job of
    every packet it ever pushed has been performed exactly once, although the two
    counters are read one after the other, outside any lock that their writers
    take, and wrap at 32 bits. */
module QueueBarrier {
  import opened QueueSystem
  import opened QueueInvariants

  /** Fewer than 2^32 packets are outstanding. */
  ghost predicate Bounded<J>(s: Sys<J>) {
    s.q.inCount < s.q.completed + WORD
  }

  lemma WrapSame(m: nat, n: nat)
    requires m <= n < m + WORD
    ensures Wrap(m) == Wrap(n) <==> m == n
  {
  }

  lemma CompletedAtMostIn<J(!new)>(s: Sys<J>)
    requires QueueInv(s)
    ensures s.q.completed <= |s.q.delivered| <= |s.q.enqueued| <= s.q.inCount
  {
  }

  // ----- no lost wakeup -----

  /** The stored counters agree. */
  ghost predicate Settled<J>(q: Queue<J>) {
    Wrap(q.completed) == Wrap(q.inCount)
  }

  /** A joiner that is parked, or has read counters that will make it park. */
  ghost predicate Waiting<J>(q: Queue<J>, p: Pc<J>) {
    p.InJoin? &&
    match p.join
    case JoinSleep | JoinParked => true
    case JoinSawDone(seen) => Wrap(seen) != Wrap(q.inCount)
    case JoinSawIn(seen) => Wrap(q.completed) != Wrap(seen)
    case _ => false
  }

  /** A worker between its increment of `completed` and its notify_all, which
      has not read counters that would make it skip the notification. */
  ghost predicate Waker<J>(q: Queue<J>, p: Pc<J>) {
    p.InDone? &&
    match p.done
    case DoneTest | DoneLock | DoneNotify => true
    case DoneSawDone(seen) => Wrap(seen) == Wrap(q.inCount)
    case DoneSawIn(seen) => Wrap(q.completed) == Wrap(seen)
    case _ => false
  }

  ghost predicate WakeInv<J>(s: Sys<J>) {
    Settled(s.q) && (exists j :: 0 <= j < |s.pc| && Waiting(s.q, s.pc[j])) ==>
    exists w :: 0 <= w < |s.pc| && Waker(s.q, s.pc[w])
  }

  lemma CounterAct<J>(q: Queue<J>, p: Pc<J>, e: Event<J>)
    requires Possible(q, p, e)
    ensures var (q', p') := Act(q, p, e);
            || (q'.inCount == q.inCount && q'.completed == q.completed)
            || (q'.inCount == q.inCount + 1 && q'.completed == q.completed)
            || (q'.inCount == q.inCount && q'.completed == q.completed + 1 && p' == InDone(DoneTest))
  {
  }

  /** With settled counters that stay, nobody begins to wait, and a waker
      remains one until it has notified. */
  lemma WakeAct<J>(q: Queue<J>, p: Pc<J>, e: Event<J>)
    requires Possible(q, p, e) && Settled(q)
    ensures var (q', p') := Act(q, p, e);
            q'.inCount == q.inCount && q'.completed == q.completed ==>
              && (Waiting(q', p') ==> Waiting(q, p))
              && (Waker(q, p) ==> Waker(q', p') || p == InDone(DoneNotify))
  {
  }

  lemma WakeStep<J(!new)>(s: Sys<J>, e: Event<J>)
    requires QueueInv(s) && WakeInv(s) && Enabled(s, e) && Bounded(Next(s, e))
    ensures WakeInv(Next(s, e))
  {
    var s' := Next(s, e);
    var t := e.t;
    NextParts(s, e);
    CounterAct(s.q, s.pc[t], e);
    if Settled(s'.q) && exists j :: 0 <= j < |s'.pc| && Waiting(s'.q, s'.pc[j]) {
      var j :| 0 <= j < |s'.pc| && Waiting(s'.q, s'.pc[j]);
      if s'.q.completed == s.q.completed + 1 {
        assert Waker(s'.q, s'.pc[t]);
      } else if s'.q.inCount == s.q.inCount + 1 {
        CompletedAtMostIn(s);
        WrapSame(s'.q.completed, s'.q.inCount);
        assert false;
      } else {
        WakeAct(s.q, s.pc[t], e);
        assert StaysOrWakes(s.pc[j], s'.pc[j]) || j == t;
        assert Waiting(s.q, s.pc[j]);
        var w :| 0 <= w < |s.pc| && Waker(s.q, s.pc[w]);
        WakerStays(s, e, j, w);
      }
    }
  }

  lemma WakerStays<J(!new)>(s: Sys<J>, e: Event<J>, j: nat, w: nat)
    requires LockInv(s) && Enabled(s, e) && Settled(s.q) && j < |s.pc| && w < |s.pc|
    requires var s' := Next(s, e); s'.q.inCount == s.q.inCount && s'.q.completed == s.q.completed
    requires Waiting(s.q, s.pc[j]) && Waiting(Next(s, e).q, Next(s, e).pc[j]) && Waker(s.q, s.pc[w])
    ensures Waker(Next(s, e).q, Next(s, e).pc[w])
  {
  }

  lemma {:induction false} WakeRun<J(!new)>(s: Sys<J>, events: seq<Event<J>>, ok: Sys<J> -> bool)
    requires QueueInv(s) && WakeInv(s) && Legal(s, events, ok)
    requires forall x :: ok(x) ==> Bounded(x)
    ensures QueueInv(After(s, events, ok)) && WakeInv(After(s, events, ok))
    decreases |events|
  {
    if events != [] {
      var s' := Next(s, events[0]);
      assert ok(s');
      QueueStep(s, events[0]);
      WakeStep(s, events[0]);
      WakeRun(s', events[1..], ok);
    }
  }

  /** No wakeup is lost: in every reachable state in which some joiner is parked,
      or has seen counters that will make it park, although the counters agree,
      some worker is between its increment of `completed` and its notify_all. */
  lemma NoLostWakeup<J(!new)>(threads: nat, events: seq<Event<J>>, ok: Sys<J> -> bool, j: nat)
    requires Legal(Init(threads), events, ok) && forall x :: ok(x) ==> Bounded(x)
    requires var s := After(Init(threads), events, ok);
             j < |s.pc| && Waiting(s.q, s.pc[j]) && Wrap(s.q.completed) == Wrap(s.q.inCount)
    ensures var s := After(Init(threads), events, ok);
            exists w :: 0 <= w < |s.pc| && Waker(s.q, s.pc[w])
  {
    QueueInit<J>(threads);
    WakeRun(Init(threads), events, ok);
  }

  // ----- what the return of join means -----

  /** Threads other than e do not push, alone or after a release. */
  ghost predicate SoleProducer<J>(s: Sys<J>, e: nat) {
    forall t :: 0 <= t < |s.pc| && t != e ==> !s.pc[t].InPush? && !s.pc[t].InRelease?
  }

  /** What the sole producer knows while it joins. */
  ghost predicate JoinInv<J>(s: Sys<J>, e: nat) {
    e < |s.pc| &&
    match s.pc[e]
    case Joined => s.q.completed == s.q.inCount
    case InJoin(JoinLeave) => s.q.completed == s.q.inCount
    case InJoin(JoinSawDone(seen)) => seen <= s.q.completed && s.q.inCount < seen + WORD
    case InJoin(JoinSawIn(seen)) => seen == s.q.inCount
    case _ => true
  }

  /** Only a pushing thread counts an item in, and `completed` never decreases. */
  lemma ProducerAct<J>(q: Queue<J>, p: Pc<J>, e: Event<J>)
    requires Possible(q, p, e)
    ensures var (q', p') := Act(q, p, e);
            (p.InPush? || q'.inCount == q.inCount) && q'.completed >= q.completed
  {
  }

  /** The joiner's own action. */
  lemma JoinerAct<J>(q: Queue<J>, p: Pc<J>, e: Event<J>)
    requires Possible(q, p, e)
    ensures var (q', p') := Act(q, p, e);
            match p'
            case Joined => p == InJoin(JoinLeave) && q'.completed == q.completed && q'.inCount == q.inCount
            case InJoin(JoinSawDone(seen)) => seen == q'.completed && q' == q
            case InJoin(JoinSawIn(seen)) => seen == q'.inCount && q' == q
            case InJoin(JoinLeave) =>
              && q' == q && p.InJoin?
              && ((p.join.JoinSawDone? && Wrap(p.join.seen) == Wrap(q.inCount)) ||
                  (p.join.JoinSawIn? && Wrap(p.join.seen) == Wrap(q.completed)))
            case _ => true
  {
  }

  lemma JoinStep<J(!new)>(s: Sys<J>, ev: Event<J>, e: nat)
    requires QueueInv(s) && JoinInv(s, e) && Enabled(s, ev)
    requires Bounded(s) && Bounded(Next(s, ev)) && SoleProducer(s, e)
    ensures JoinInv(Next(s, ev), e)
  {
    var s' := Next(s, ev);
    NextParts(s, ev);
    QueueStep(s, ev);
    CompletedAtMostIn(s);
    CompletedAtMostIn(s');
    ProducerAct(s.q, s.pc[ev.t], ev);
    if ev.t == e {
      JoinerAct(s.q, s.pc[e], ev);
      var p := s.pc[e];
      if s'.pc[e] == InJoin(JoinLeave) {
        if p.join.JoinSawDone? {
          WrapSame(p.join.seen, s.q.inCount);
        } else {
          WrapSame(s.q.completed, s.q.inCount);
        }
      }
    } else {
      assert StaysOrWakes(s.pc[e], s'.pc[e]);
    }
  }

  /** Everything the producer pushed has been delivered, worked on to the last
      job, and reported. */
  ghost predicate AllDone<J(!new)>(s: Sys<J>) {
    && s.q.completed == s.q.inCount
    && s.q.buffer == [] && s.q.delivered == s.q.enqueued
    && multiset(s.q.log) == Jobs(s.q.enqueued)
  }

  lemma SettledIsDone<J(!new)>(s: Sys<J>)
    requires QueueInv(s) && s.q.completed == s.q.inCount
    ensures AllDone(s)
    ensures forall t :: 0 <= t < |s.pc| ==> !IsHeld(s.pc[t]) && !IsCounted(s.pc[t])
  {
    SumZero(s.pc, Held);
    SumZero(s.pc, Counted);
    assert s.q.delivered == s.q.enqueued;
    forall t | 0 <= t < |s.pc| ensures !IsHeld(s.pc[t]) && !IsCounted(s.pc[t]) {
      assert Held(s.pc[t]) == 0 && Counted(s.pc[t]) == 0;
    }
    forall j ensures multiset(s.q.log)[j] == Jobs(s.q.enqueued)[j] {
      assert forall t :: 0 <= t < |s.pc| ==> Owes(s.pc[t]) == [];
      SumZero(s.pc, OwesOf(j));
      assert s.q.dropped == [];
    }
  }

  lemma {:induction false} JoinRun<J(!new)>(s: Sys<J>, events: seq<Event<J>>, ok: Sys<J> -> bool, e: nat)
    requires QueueInv(s) && JoinInv(s, e) && Legal(s, events, ok)
    requires forall x :: ok(x) ==> Bounded(x) && SoleProducer(x, e)
    ensures var s' := After(s, events, ok);
            QueueInv(s') && JoinInv(s', e) && (s'.pc[e].Joined? ==> AllDone(s'))
    decreases |events|
  {
    if events != [] {
      assert ok(Next(s, events[0]));
      QueueStep(s, events[0]);
      JoinStep(s, events[0], e);
      JoinRun(Next(s, events[0]), events[1..], ok, e);
    } else if s.pc[e].Joined? {
      SettledIsDone(s);
    }
  }

  /** For any number of threads and any interleaving: whenever the sole producer's
      `join` has returned, every job of every packet it ever pushed has been
      performed exactly once and the buffer is empty. */
  lemma JoinMeansDone<J(!new)>(threads: nat, events: seq<Event<J>>, ok: Sys<J> -> bool, e: nat)
    requires e < threads && Legal(Init(threads), events, ok)
    requires forall x :: ok(x) ==> Bounded(x) && SoleProducer(x, e)
    ensures After(Init(threads), events, ok).pc[e].Joined? ==> AllDone(After(Init(threads), events, ok))
  {
    QueueInit<J>(threads);
    JoinRun(Init(threads), events, ok, e);
  }

  /** Histories only grow. */
  lemma HistoryAct<J>(q: Queue<J>, p: Pc<J>, e: Event<J>)
    requires Possible(q, p, e)
    ensures var q' := Act(q, p, e).0;
            q.log <= q'.log && q.enqueued <= q'.enqueued && q.delivered <= q'.delivered && q.lost <= q'.lost
  {
    LogAct(q, p, e);
    ItemsAct(q, p, e);
  }

  lemma LogAct<J>(q: Queue<J>, p: Pc<J>, e: Event<J>)
    requires Possible(q, p, e)
    ensures var q' := Act(q, p, e).0; q.log <= q'.log && q.enqueued <= q'.enqueued
  {
  }

  lemma ItemsAct<J>(q: Queue<J>, p: Pc<J>, e: Event<J>)
    requires Possible(q, p, e)
    ensures var q' := Act(q, p, e).0; q.delivered <= q'.delivered && q.lost <= q'.lost
  {
  }

  lemma {:induction false} HistoryRun<J(!new)>(s: Sys<J>, events: seq<Event<J>>, ok: Sys<J> -> bool)
    requires Legal(s, events, ok)
    ensures var s' := After(s, events, ok);
            && s.q.log <= s'.q.log && s.q.enqueued <= s'.q.enqueued
            && s.q.delivered <= s'.q.delivered && s.q.lost <= s'.q.lost
    decreases |events|
  {
    if events != [] {
      HistoryAct(s.q, s.pc[events[0].t], events[0]);
      HistoryRun(Next(s, events[0]), events[1..], ok);
    }
  }

  lemma {:induction false} JobsSplit<J>(a: seq<seq<J>>, b: seq<seq<J>>)
    ensures Jobs(a + b) == Jobs(a) + Jobs(b)
  {
    if b == [] {
      assert a + b == a;
    } else {
      var n := |b| - 1;
      JobsSplit(a, b[..n]);
      assert a + b == (a + b[..n]) + [b[n]];
      JobsAppend(a + b[..n], b[n]);
    }
  }

  lemma LogPart<J>(before: seq<J>, after: seq<J>, done: multiset<J>, more: multiset<J>)
    requires before <= after && multiset(before) == done && multiset(after) == done + more
    ensures multiset(after[|before|..]) == more
  {
    var rest := after[|before|..];
    assert after == before + rest;
    assert multiset(after) == multiset(before) + multiset(rest);
    assert multiset(rest) == multiset(after) - multiset(before);
  }

  /** From one return of `join` to a later one: the jobs performed in between
      are exactly those of the packets pushed in between, each once. */
  lemma PhaseBarrier<J(!new)>(s: Sys<J>, events: seq<Event<J>>, ok: Sys<J> -> bool, e: nat, packets: seq<seq<J>>)
    requires QueueInv(s) && e < |s.pc| && Legal(s, events, ok)
    requires forall x :: ok(x) ==> Bounded(x) && SoleProducer(x, e)
    requires s.pc[e].Joined? || s.pc[e].Idle?
    requires s.q.completed == s.q.inCount
    requires After(s, events, ok).pc[e].Joined?
    requires After(s, events, ok).q.enqueued == s.q.enqueued + packets
    ensures var s' := After(s, events, ok);
            && AllDone(s') && s.q.log <= s'.q.log
            && multiset(s'.q.log[|s.q.log|..]) == Jobs(packets)
  {
    var s' := After(s, events, ok);
    SettledIsDone(s);
    JoinRun(s, events, ok, e);
    HistoryRun(s, events, ok);
    JobsSplit(s.q.enqueued, packets);
    LogPart(s.q.log, s'.q.log, Jobs(s.q.enqueued), Jobs(packets));
  }
}
