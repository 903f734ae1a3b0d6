/** What every step of the queue keeps: mutual exclusion, FIFO order, the
    counters as counts of threads, and the account of jobs. */
module QueueInvariants {
  import opened Options
  import opened QueueSystem

  // ----- threads classified by program counter -----

  predicate HoldsMy<J>(p: Pc<J>) {
    match p
    case InPush(c) => c.PushLocked? || c.PushStored?
    case InPop(c) => !(c.PopStart? || c.PopParked? || c.PopWoken?)
    case InShut(c) => !c.ShutStart?
    case _ => false
  }

  predicate HoldsJoin<J>(p: Pc<J>) {
    match p
    case InJoin(c) => !(c.JoinStart? || c.JoinParked? || c.JoinWoken?)
    case InDone(c) => c.DoneNotify? || c.DoneLeave?
    case _ => false
  }

  /** Between its increment of `in_count` and its enqueue. */
  predicate IsCounted<J>(p: Pc<J>) { p.InPush? && (p.push.PushCounted? || p.push.PushLocked?) }

  /** Between taking an item and its increment of `out_count`. */
  predicate IsTaken<J>(p: Pc<J>) { p.InPop? && p.pop.PopCount? }

  /** Has an item it has not reported: taken, and `completed` not yet incremented. */
  predicate IsHeld<J>(p: Pc<J>) {
    p.Busy? || (p.InPop? && (p.pop.PopCount? || p.pop.PopLeave?)) || (p.InDone? && p.done.DoneStart?)
  }

  /** The jobs the thread still has to perform. */
  function Owes<J>(p: Pc<J>): seq<J> {
    if p.Busy? && p.next <= |p.item| then p.item[p.next..]
    else if p.InPop? && (p.pop.PopCount? || p.pop.PopLeave?) then p.pop.item
    else []
  }

  // ----- sums over the threads -----

  ghost function Sum<J>(pc: seq<Pc<J>>, w: Pc<J> -> nat): nat {
    if pc == [] then 0 else Sum(pc[..|pc| - 1], w) + w(pc[|pc| - 1])
  }

  /** Weights that count threads, and one that counts the debts for one job. */
  ghost function One(b: bool): nat { if b then 1 else 0 }
  ghost function Counted<J>(p: Pc<J>): nat { One(IsCounted(p)) }
  ghost function Taken<J>(p: Pc<J>): nat { One(IsTaken(p)) }
  ghost function Held<J>(p: Pc<J>): nat { One(IsHeld(p)) }
  ghost function OwesOf<J>(j: J): Pc<J> -> nat { (p: Pc<J>) => multiset(Owes(p))[j] }

  lemma {:induction false} SumUpdate<J>(pc: seq<Pc<J>>, t: nat, p: Pc<J>, w: Pc<J> -> nat)
    requires t < |pc|
    ensures Sum(pc[t := p], w) == Sum(pc, w) - w(pc[t]) + w(p)
  {
    var n := |pc| - 1;
    if t == n {
      assert pc[t := p][..n] == pc[..n];
    } else {
      assert pc[t := p][..n] == pc[..n][t := p];
      SumUpdate(pc[..n], t, p, w);
    }
  }

  /** A sum does not see a change that its weight does not see. */
  lemma {:induction false} SumSame<J>(pc: seq<Pc<J>>, qc: seq<Pc<J>>, w: Pc<J> -> nat)
    requires |pc| == |qc| && forall i :: 0 <= i < |pc| ==> w(pc[i]) == w(qc[i])
    ensures Sum(pc, w) == Sum(qc, w)
  {
    if pc != [] {
      var n := |pc| - 1;
      assert forall i :: 0 <= i < n ==> w(pc[..n][i]) == w(qc[..n][i]);
      SumSame(pc[..n], qc[..n], w);
    }
  }

  lemma {:induction false} SumZero<J>(pc: seq<Pc<J>>, w: Pc<J> -> nat)
    ensures Sum(pc, w) == 0 <==> forall i :: 0 <= i < |pc| ==> w(pc[i]) == 0
  {
    if pc != [] {
      var n := |pc| - 1;
      SumZero(pc[..n], w);
      assert forall i :: 0 <= i < n ==> pc[..n][i] == pc[i];
      assert Sum(pc, w) == 0 ==> w(pc[n]) == 0;
    }
  }

  /** The jobs of some packets. */
  ghost function Jobs<J>(packets: seq<seq<J>>): multiset<J> {
    if packets == [] then multiset{} else Jobs(packets[..|packets| - 1]) + multiset(packets[|packets| - 1])
  }

  lemma JobsAppend<J>(packets: seq<seq<J>>, p: seq<J>)
    ensures Jobs(packets + [p]) == Jobs(packets) + multiset(p)
  {
    assert (packets + [p])[..|packets|] == packets;
  }

  // ----- what one action of one thread does, without the other threads -----

  /** A lock changes hands only to and from the acting thread. */
  ghost predicate MyLocal<J>(q: Queue<J>, p: Pc<J>, q': Queue<J>, p': Pc<J>, t: nat) {
    && ((HoldsMy(p) <==> q.mylock == Some(t)) ==> (HoldsMy(p') <==> q'.mylock == Some(t)))
    && (q'.mylock == q.mylock || (q.mylock.None? && HoldsMy(p')) || (HoldsMy(p) && q'.mylock.None?))
  }

  ghost predicate JoinLocal<J>(q: Queue<J>, p: Pc<J>, q': Queue<J>, p': Pc<J>, t: nat) {
    && ((HoldsJoin(p) <==> q.joinlock == Some(t)) ==> (HoldsJoin(p') <==> q'.joinlock == Some(t)))
    && (q'.joinlock == q.joinlock || (q.joinlock.None? && HoldsJoin(p')) || (HoldsJoin(p) && q'.joinlock.None?))
  }

  /** The part of FifoInv that concerns one thread. */
  ghost predicate FifoAt<J>(q: Queue<J>, p: Pc<J>) {
    && q.enqueued == q.delivered + q.lost + q.buffer
    && (q.ready ==> q.lost == [])
    && (p == InPop(PopTake) ==> q.ready && |q.buffer| > 0)
    && (p == InShut(ShutDrain) ==> !q.ready)
  }

  /** A consumer is never past the end of its packet. */
  predicate BusyOk<J>(p: Pc<J>) { p.Busy? ==> p.next <= |p.item| }

  ghost predicate FifoLocal<J>(q: Queue<J>, p: Pc<J>, q': Queue<J>, p': Pc<J>) {
    FifoAt(q, p) ==> FifoAt(q', p')
  }

  /** The buffer and `ready` belong to the holder of `mylock`. */
  ghost predicate GuardLocal<J>(q: Queue<J>, p: Pc<J>, q': Queue<J>) {
    && (HoldsMy(p) || (q'.buffer == q.buffer && q'.ready == q.ready))
    && (q'.ready ==> q.ready)
  }

  ghost predicate InLocal<J>(q: Queue<J>, p: Pc<J>, q': Queue<J>, p': Pc<J>) {
    q'.inCount + |q.enqueued| + Counted(p) == q.inCount + |q'.enqueued| + Counted(p')
  }

  ghost predicate OutLocal<J>(q: Queue<J>, p: Pc<J>, q': Queue<J>, p': Pc<J>) {
    q'.outCount + |q.delivered| + Taken(p') == q.outCount + |q'.delivered| + Taken(p)
  }

  ghost predicate DoneLocal<J>(q: Queue<J>, p: Pc<J>, q': Queue<J>, p': Pc<J>) {
    q'.completed + |q'.dropped| + |q.delivered| + Held(p') == q.completed + |q.dropped| + |q'.delivered| + Held(p)
  }

  /** A job leaves the debts exactly when it is performed or given up. */
  ghost predicate JobLocal<J>(q: Queue<J>, p: Pc<J>, q': Queue<J>, p': Pc<J>, j: J) {
    multiset(q'.log)[j] + multiset(Owes(p'))[j] + Jobs(q'.dropped)[j] + Jobs(q.delivered)[j]
    == multiset(q.log)[j] + multiset(Owes(p))[j] + Jobs(q.dropped)[j] + Jobs(q'.delivered)[j]
  }

  lemma MyAct<J>(q: Queue<J>, p: Pc<J>, e: Event<J>)
    requires Possible(q, p, e)
    ensures var (q', p') := Act(q, p, e); MyLocal(q, p, q', p', e.t)
  {
  }

  lemma JoinAct<J>(q: Queue<J>, p: Pc<J>, e: Event<J>)
    requires Possible(q, p, e)
    ensures var (q', p') := Act(q, p, e); JoinLocal(q, p, q', p', e.t)
  {
  }

  lemma FifoAct<J>(q: Queue<J>, p: Pc<J>, e: Event<J>)
    requires Possible(q, p, e)
    ensures var (q', p') := Act(q, p, e); FifoLocal(q, p, q', p')
  {
    if e.Go? {
      match p
      case InPush(c) => FifoPush(q, c, e.t);
      case InPop(c) => FifoPop(q, c, e.t);
      case InShut(c) => FifoShut(q, c, e.t);
      case _ => FifoRest(q, p, e);
    } else {
      FifoRest(q, p, e);
    }
  }

  lemma FifoRest<J>(q: Queue<J>, p: Pc<J>, e: Event<J>)
    requires Possible(q, p, e) && !(e.Go? && (p.InPush? || p.InPop? || p.InShut?))
    ensures var (q', p') := Act(q, p, e); FifoLocal(q, p, q', p')
  {
  }

  lemma FifoPush<J>(q: Queue<J>, c: PushPc<J>, t: nat)
    requires CanGo(q, InPush(c))
    ensures var (q', p') := AdvancePush(q, c, t); FifoLocal(q, InPush(c), q', p')
  {
  }

  lemma FifoPop<J>(q: Queue<J>, c: PopPc<J>, t: nat)
    requires CanGo(q, InPop(c))
    ensures var (q', p') := AdvancePop(q, c, t); FifoLocal(q, InPop(c), q', p')
  {
  }

  lemma FifoShut<J>(q: Queue<J>, c: ShutPc, t: nat)
    requires CanGo(q, InShut(c))
    ensures var (q', p') := AdvanceShut(q, c, t); FifoLocal(q, InShut(c), q', p')
  {
  }

  lemma GuardAct<J>(q: Queue<J>, p: Pc<J>, e: Event<J>)
    requires Possible(q, p, e)
    ensures GuardLocal(q, p, Act(q, p, e).0)
  {
  }

  lemma InAct<J>(q: Queue<J>, p: Pc<J>, e: Event<J>)
    requires Possible(q, p, e)
    ensures var (q', p') := Act(q, p, e); InLocal(q, p, q', p')
  {
  }

  lemma OutAct<J>(q: Queue<J>, p: Pc<J>, e: Event<J>)
    requires Possible(q, p, e)
    ensures var (q', p') := Act(q, p, e); OutLocal(q, p, q', p')
  {
  }

  lemma DoneAct<J>(q: Queue<J>, p: Pc<J>, e: Event<J>)
    requires Possible(q, p, e)
    ensures var (q', p') := Act(q, p, e); DoneLocal(q, p, q', p')
  {
  }

  predicate Quiet<J>(p: Pc<J>, e: Event<J>) {
    !e.Work? && !e.Drop? && !(e.Go? && p == InPop(PopTake))
  }

  /** Most actions touch neither the job histories nor the acting thread's debt. */
  lemma QuietAct<J>(q: Queue<J>, p: Pc<J>, e: Event<J>)
    requires Possible(q, p, e) && Quiet(p, e)
    ensures var (q', p') := Act(q, p, e);
            q'.log == q.log && q'.dropped == q.dropped && q'.delivered == q.delivered && Owes(p') == Owes(p)
  {
  }

  lemma TakeAct<J>(q: Queue<J>, t: nat, j: J)
    requires |q.buffer| > 0
    ensures var (q', p') := AdvancePop(q, PopTake, t); JobLocal(q, InPop(PopTake), q', p', j)
  {
  }

  lemma WorkAct<J>(q: Queue<J>, p: Pc<J>, e: Event<J>, j: J)
    requires Possible(q, p, e) && e.Work?
    ensures var (q', p') := Act(q, p, e); JobLocal(q, p, q', p', j)
  {
    var (q', p') := Act(q, p, e);
    var x := p.item[p.next];
    assert p.item[p.next..] == [x] + p.item[p.next + 1..];
    assert q'.log == q.log + [x] && Owes(p) == [x] + Owes(p');
  }

  lemma DropAct<J>(q: Queue<J>, p: Pc<J>, e: Event<J>, j: J)
    requires Possible(q, p, e) && e.Drop?
    ensures var (q', p') := Act(q, p, e); JobLocal(q, p, q', p', j)
  {
  }

  lemma JobActs<J(!new)>(q: Queue<J>, p: Pc<J>, e: Event<J>)
    requires Possible(q, p, e)
    ensures var (q', p') := Act(q, p, e); forall j :: JobLocal(q, p, q', p', j)
  {
    var (q', p') := Act(q, p, e);
    forall j ensures JobLocal(q, p, q', p', j) {
      if Quiet(p, e) {
        QuietAct(q, p, e);
      } else if e.Go? {
        TakeAct(q, e.t, j);
      } else if e.Work? {
        WorkAct(q, p, e, j);
      } else {
        DropAct(q, p, e, j);
      }
    }
  }

  // ----- one step -----

  /** Thread i is where it was, or a waiter that was woken. */
  ghost predicate StaysOrWakes<J>(p: Pc<J>, p': Pc<J>) {
    || p' == p
    || (p == InPop(PopParked) && p' == InPop(PopWoken))
    || (p == InJoin(JoinParked) && p' == InJoin(JoinWoken))
  }

  /** A step of thread t, seen without its case analysis. */
  ghost predicate Moves<J(!new)>(s: Sys<J>, s': Sys<J>, t: nat) {
    && t < |s.pc| == |s'.pc|
    && (forall i :: 0 <= i < |s.pc| && i != t ==> StaysOrWakes(s.pc[i], s'.pc[i]))
    && MyLocal(s.q, s.pc[t], s'.q, s'.pc[t], t)
    && JoinLocal(s.q, s.pc[t], s'.q, s'.pc[t], t)
    && FifoLocal(s.q, s.pc[t], s'.q, s'.pc[t])
    && GuardLocal(s.q, s.pc[t], s'.q)
    && InLocal(s.q, s.pc[t], s'.q, s'.pc[t])
    && OutLocal(s.q, s.pc[t], s'.q, s'.pc[t])
    && DoneLocal(s.q, s.pc[t], s'.q, s'.pc[t])
    && (BusyOk(s.pc[t]) ==> BusyOk(s'.pc[t]))
    && (forall j :: JobLocal(s.q, s.pc[t], s'.q, s'.pc[t], j))
  }

  lemma NextParts<J(!new)>(s: Sys<J>, e: Event<J>)
    requires Enabled(s, e)
    ensures var s' := Next(s, e);
            && |s'.pc| == |s.pc| && (s'.q, s'.pc[e.t]) == Act(s.q, s.pc[e.t], e)
            && forall i :: 0 <= i < |s.pc| && i != e.t ==> StaysOrWakes(s.pc[i], s'.pc[i])
  {
  }

  lemma MovesFrom<J(!new)>(s: Sys<J>, s': Sys<J>, t: nat, q': Queue<J>, p': Pc<J>)
    requires t < |s.pc| == |s'.pc| && s'.q == q' && s'.pc[t] == p'
    requires forall i :: 0 <= i < |s.pc| && i != t ==> StaysOrWakes(s.pc[i], s'.pc[i])
    requires MyLocal(s.q, s.pc[t], q', p', t) && JoinLocal(s.q, s.pc[t], q', p', t)
    requires FifoLocal(s.q, s.pc[t], q', p') && GuardLocal(s.q, s.pc[t], q')
    requires InLocal(s.q, s.pc[t], q', p') && OutLocal(s.q, s.pc[t], q', p') && DoneLocal(s.q, s.pc[t], q', p')
    requires BusyOk(s.pc[t]) ==> BusyOk(p')
    requires forall j :: JobLocal(s.q, s.pc[t], q', p', j)
    ensures Moves(s, s', t)
  {
  }

  lemma StepMoves<J(!new)>(s: Sys<J>, e: Event<J>)
    requires Enabled(s, e)
    ensures Moves(s, Next(s, e), e.t)
  {
    var p := s.pc[e.t];
    NextParts(s, e);
    MyAct(s.q, p, e);
    JoinAct(s.q, p, e);
    FifoAct(s.q, p, e);
    GuardAct(s.q, p, e);
    InAct(s.q, p, e);
    OutAct(s.q, p, e);
    DoneAct(s.q, p, e);
    BusyAct(s.q, p, e);
    JobActs(s.q, p, e);
    MovesFrom(s, Next(s, e), e.t, Act(s.q, p, e).0, Act(s.q, p, e).1);
  }

  lemma BusyAct<J>(q: Queue<J>, p: Pc<J>, e: Event<J>)
    requires Possible(q, p, e)
    ensures BusyOk(p) ==> BusyOk(Act(q, p, e).1)
  {
  }

  /** A weight that does not tell a parked thread from a woken one. */
  ghost predicate Blind<J>(w: Pc<J> -> nat) {
    w(InPop(PopParked)) == w(InPop(PopWoken)) && w(InJoin(JoinParked)) == w(InJoin(JoinWoken))
  }

  /** A step moves the acting thread's share of a sum and nothing else, if the
      weight does not see who is woken. */
  lemma SumMoveSeen<J(!new)>(s: Sys<J>, s': Sys<J>, t: nat, w: Pc<J> -> nat)
    requires t < |s.pc| == |s'.pc|
    requires forall i :: 0 <= i < |s.pc| && i != t ==> w(s.pc[i]) == w(s'.pc[i])
    ensures Sum(s'.pc, w) == Sum(s.pc, w) - w(s.pc[t]) + w(s'.pc[t])
  {
    SumUpdate(s'.pc, t, s.pc[t], w);
    SumSame(s'.pc[t := s.pc[t]], s.pc, w);
  }

  lemma SumMove<J(!new)>(s: Sys<J>, s': Sys<J>, t: nat, w: Pc<J> -> nat)
    requires Moves(s, s', t) && Blind(w)
    ensures Sum(s'.pc, w) == Sum(s.pc, w) - w(s.pc[t]) + w(s'.pc[t])
  {
    SumMoveSeen(s, s', t, w);
  }

  // ----- the invariants -----

  /** Exactly the holder of a lock is inside its critical section. */
  ghost predicate LockInv<J>(s: Sys<J>) {
    && (forall t :: 0 <= t < |s.pc| ==> (HoldsMy(s.pc[t]) <==> s.q.mylock == Some(t)))
    && (forall t :: 0 <= t < |s.pc| ==> (HoldsJoin(s.pc[t]) <==> s.q.joinlock == Some(t)))
    && (s.q.mylock.Some? ==> s.q.mylock.value < |s.pc|)
    && (s.q.joinlock.Some? ==> s.q.joinlock.value < |s.pc|)
  }

  /** Items leave in the order they entered; `shutdown` alone loses any; a
      thread about to take an item finds one, and finds the queue ready. */
  ghost predicate FifoInv<J>(s: Sys<J>) {
    && s.q.enqueued == s.q.delivered + s.q.lost + s.q.buffer
    && (s.q.ready ==> s.q.lost == [])
    && (forall t :: 0 <= t < |s.pc| ==> FifoAt(s.q, s.pc[t]))
    && (forall t :: 0 <= t < |s.pc| ==> BusyOk(s.pc[t]))
  }

  /** Every counter is a history plus or minus the threads in between. */
  ghost predicate CountInv<J>(s: Sys<J>) {
    && s.q.inCount == |s.q.enqueued| + Sum(s.pc, Counted)
    && s.q.outCount + Sum(s.pc, Taken) == |s.q.delivered|
    && s.q.completed + Sum(s.pc, Held) + |s.q.dropped| == |s.q.delivered|
  }

  /** Every job of every delivered packet is performed, owed by the thread that
      holds the packet, or given up. */
  ghost predicate JobInv<J(!new)>(s: Sys<J>) {
    forall j :: multiset(s.q.log)[j] + Sum(s.pc, OwesOf(j)) + Jobs(s.q.dropped)[j] == Jobs(s.q.delivered)[j]
  }

  ghost predicate QueueInv<J(!new)>(s: Sys<J>) {
    LockInv(s) && FifoInv(s) && CountInv(s) && JobInv(s)
  }

  lemma LockStep<J(!new)>(s: Sys<J>, s': Sys<J>, t: nat)
    requires LockInv(s) && Moves(s, s', t)
    ensures LockInv(s')
  {
  }

  lemma FifoStep<J(!new)>(s: Sys<J>, s': Sys<J>, t: nat)
    requires LockInv(s) && FifoInv(s) && Moves(s, s', t)
    ensures FifoInv(s')
  {
  }

  lemma CountStep<J(!new)>(s: Sys<J>, s': Sys<J>, t: nat)
    requires CountInv(s) && Moves(s, s', t)
    ensures CountInv(s')
  {
    SumMove(s, s', t, Counted);
    SumMove(s, s', t, Taken);
    SumMove(s, s', t, Held);
  }

  lemma JobStep<J(!new)>(s: Sys<J>, s': Sys<J>, t: nat)
    requires JobInv(s) && Moves(s, s', t)
    ensures JobInv(s')
  {
    forall j
      ensures multiset(s'.q.log)[j] + Sum(s'.pc, OwesOf(j)) + Jobs(s'.q.dropped)[j] == Jobs(s'.q.delivered)[j]
    {
      SumMove(s, s', t, OwesOf(j));
      assert JobLocal(s.q, s.pc[t], s'.q, s'.pc[t], j);
      assert multiset(s.q.log)[j] + Sum(s.pc, OwesOf(j)) + Jobs(s.q.dropped)[j] == Jobs(s.q.delivered)[j];
    }
  }

  lemma QueueStep<J(!new)>(s: Sys<J>, e: Event<J>)
    requires QueueInv(s) && Enabled(s, e)
    ensures QueueInv(Next(s, e))
  {
    StepMoves(s, e);
    LockStep(s, Next(s, e), e.t);
    FifoStep(s, Next(s, e), e.t);
    CountStep(s, Next(s, e), e.t);
    JobStep(s, Next(s, e), e.t);
  }

  lemma QueueInit<J(!new)>(threads: nat)
    ensures QueueInv(Init<J>(threads))
  {
    var s := Init<J>(threads);
    SumZero(s.pc, Counted);
    SumZero(s.pc, Taken);
    SumZero(s.pc, Held);
    forall j ensures Sum(s.pc, OwesOf(j)) == 0 {
      SumZero(s.pc, OwesOf(j));
    }
  }

  /** A run one event longer. */
  lemma RunFrom<J(!new)>(s: Sys<J>, e: Event<J>, rest: seq<Event<J>>, ok: Sys<J> -> bool)
    requires ok(s) && Enabled(s, e) && Legal(Next(s, e), rest, ok)
    ensures Legal(s, [e] + rest, ok) && After(s, [e] + rest, ok) == After(Next(s, e), rest, ok)
  {
    assert ([e] + rest)[1..] == rest;
  }

  /** Every reachable state satisfies the invariants. */
  lemma {:induction false} QueueRun<J(!new)>(s: Sys<J>, events: seq<Event<J>>, ok: Sys<J> -> bool)
    requires QueueInv(s) && Legal(s, events, ok)
    ensures QueueInv(After(s, events, ok)) && ok(After(s, events, ok))
    decreases |events|
  {
    if events != [] {
      QueueStep(s, events[0]);
      QueueRun(Next(s, events[0]), events[1..], ok);
    }
  }
}
