/** Linearisation: every interleaved run of the queue has the results of calls that
    take effect one at a time, each between its start and its return. */
module QueueLinear {
  import opened Options
  import opened QueueSystem
  import opened QueueInvariants
  import opened AbsQueues

  ghost predicate AllAllowed<J>(f: Face<J>, deeds: seq<Deed<J>>)
    decreases |deeds|
  {
    deeds == [] || (Allowed(f, deeds[0]) && AllAllowed(Do(f, deeds[0]), deeds[1..]))
  }

  ghost function DoAll<J>(f: Face<J>, deeds: seq<Deed<J>>): Face<J>
    requires AllAllowed(f, deeds)
    decreases |deeds|
  {
    if deeds == [] then f else DoAll(Do(f, deeds[0]), deeds[1..])
  }

  /** The items that the pops among the deeds return. */
  ghost function Given<J>(deeds: seq<Deed<J>>): seq<seq<J>> {
    if deeds == [] then []
    else (if deeds[0].Popped? && deeds[0].r.Some? then [deeds[0].r.value] else []) + Given(deeds[1..])
  }

  // ----- where the calls take effect -----

  /** A pusher that has seen the queue ready, and has not enqueued its item yet. */
  ghost predicate IsLate<J>(p: Pc<J>) {
    p.InPush? && (p.push.PushReady? || p.push.PushCounted? || p.push.PushLocked?)
  }

  ghost function Late<J>(p: Pc<J>): nat { One(IsLate(p)) }

  /** The pushes under way, in some order. */
  ghost function LatePushes<J>(pc: seq<Pc<J>>): seq<Deed<J>> {
    if pc == [] then []
    else
      var p := pc[|pc| - 1];
      LatePushes(pc[..|pc| - 1]) + if IsLate(p) then [Pushed(p.push.item, true)] else []
  }

  /** A push takes effect when its item is stored, or is refused when it sees that
      the queue is not ready; a pop when its test succeeds; `hold`, `release` and
      `task_done` at their writes. */
  ghost function OwnDeed<J>(q: Queue<J>, p: Pc<J>, e: Event<J>): seq<Deed<J>> {
    match e
    case Call(_, op) => if op.Hold? then [Held] else if op.Release? || op.Unlock? then [Released] else []
    case Go(_) =>
      if p.InPush? then
        match p.push
        case PushStart(item) => if q.ready then [] else [Pushed(item, false)]
        case PushLocked(item) => if q.ready then [Pushed(item, true)] else []
        case _ => []
      else if p == InPop(PopTest) then
        if !q.ready then [Popped(None)]
        else if |q.buffer| > 0 && !q.blocked then [Popped(Some(q.buffer[0]))]
        else []
      else if p == InDone(DoneStart) then [Reported]
      else []
    case _ => []
  }

  predicate Shuts<J>(p: Pc<J>, e: Event<J>) { e.Go? && p == InShut(ShutLocked) }

  /** A shutdown takes effect when it clears `ready`; the pushes that have seen the
      queue ready and have not stored their items take effect just before it. */
  ghost function DeedsOf<J>(s: Sys<J>, e: Event<J>): seq<Deed<J>>
    requires e.t < |s.pc|
  {
    if Shuts(s.pc[e.t], e) then (if s.q.ready then LatePushes(s.pc) else []) + [ShutDown]
    else OwnDeed(s.q, s.pc[e.t], e)
  }

  ghost function Deeds<J(!new)>(s: Sys<J>, events: seq<Event<J>>, ok: Sys<J> -> bool): seq<Deed<J>>
    requires Legal(s, events, ok)
    decreases |events|
  {
    if events == [] then [] else DeedsOf(s, events[0]) + Deeds(Next(s, events[0]), events[1..], ok)
  }

  // ----- the state of the calls made so far, and the state of the threads -----

  /** `taking`: the holder of the lock has passed its test and not taken its item. */
  ghost predicate Agrees<J>(q: Queue<J>, f: Face<J>, given: seq<seq<J>>, taking: bool) {
    && f.ready == q.ready && f.blocked == q.blocked && f.completed == q.completed
    && (taking ==> q.ready && |q.buffer| > 0)
    && f.buffer == (if !q.ready then [] else if taking then q.buffer[1..] else q.buffer)
    && given == q.delivered + (if taking then [q.buffer[0]] else [])
    && f.outs == |given|
  }

  ghost predicate InsAgree<J>(s: Sys<J>, f: Face<J>) {
    f.ins == |s.q.enqueued| + if s.q.ready then 0 else Sum(s.pc, Late)
  }

  ghost predicate Taking<J>(s: Sys<J>) {
    exists t :: 0 <= t < |s.pc| && s.pc[t] == InPop(PopTake)
  }

  ghost predicate Linear<J>(s: Sys<J>, f: Face<J>, given: seq<seq<J>>) {
    Agrees(s.q, f, given, Taking(s)) && InsAgree(s, f)
  }

  /** The calls made so far explain the state of the threads. */
  ghost predicate Explains<J>(f: Face<J>, given: seq<seq<J>>, deeds: seq<Deed<J>>, s: Sys<J>) {
    AllAllowed(f, deeds) && Linear(s, DoAll(f, deeds), given + Given(deeds))
  }

  /** After an action of a thread at p, where a thread is taking if `taking`. */
  ghost function TakingNext<J>(p: Pc<J>, p': Pc<J>, taking: bool): bool {
    if HoldsMy(p) || HoldsMy(p') then p' == InPop(PopTake) else taking
  }

  /** The pushes counted, in the calls and in the run. */
  ghost predicate InsGo<J>(q: Queue<J>, p: Pc<J>, deeds: seq<Deed<J>>, q': Queue<J>, p': Pc<J>, f: Face<J>) {
    && q'.ready == q.ready
    && (AllAllowed(f, deeds) ==>
          DoAll(f, deeds).ins == f.ins + (if q.ready then |q'.enqueued| - |q.enqueued| else 0))
    && (!q.ready ==> |q'.enqueued| + Late(p') == |q.enqueued| + Late(p))
  }

  ghost predicate DeedGoes<J>(
      q: Queue<J>, p: Pc<J>, deeds: seq<Deed<J>>, q': Queue<J>, p': Pc<J>,
      f: Face<J>, given: seq<seq<J>>, taking: bool)
  {
    && AllAllowed(f, deeds)
    && Agrees(q', DoAll(f, deeds), given + Given(deeds), TakingNext(p, p', taking))
  }

  lemma PushDeed<J>(q: Queue<J>, c: PushPc<J>, e: Event<J>, f: Face<J>, given: seq<seq<J>>, taking: bool)
    requires e.Go? && CanGo(q, InPush(c)) && Agrees(q, f, given, taking)
    requires (HoldsMy<J>(InPush(c)) ==> !taking) && (taking ==> q.mylock.Some?)
    ensures var (q', p') := AdvancePush(q, c, e.t);
            && DeedGoes(q, InPush(c), OwnDeed(q, InPush(c), e), q', p', f, given, taking)
            && InsGo(q, InPush(c), OwnDeed(q, InPush(c), e), q', p', f)
  {
  }

  lemma PopDeed<J>(q: Queue<J>, c: PopPc<J>, e: Event<J>, f: Face<J>, given: seq<seq<J>>, taking: bool)
    requires e.Go? && CanGo(q, InPop(c)) && FifoAt(q, InPop(c)) && Agrees(q, f, given, taking)
    requires (HoldsMy<J>(InPop(c)) ==> (taking <==> c == PopTake)) && (taking ==> q.mylock.Some?)
    ensures var (q', p') := AdvancePop(q, c, e.t);
            && DeedGoes(q, InPop(c), OwnDeed(q, InPop(c), e), q', p', f, given, taking)
            && InsGo(q, InPop(c), OwnDeed(q, InPop(c), e), q', p', f)
  {
  }

  /** What the other actions leave alone, and the calls that take effect in them. */
  ghost predicate RestGoes<J>(q: Queue<J>, p: Pc<J>, deeds: seq<Deed<J>>, q': Queue<J>, p': Pc<J>) {
    && q'.ready == q.ready && q'.enqueued == q.enqueued && q'.delivered == q.delivered
    && (q'.buffer == q.buffer || (!q.ready && q'.buffer == []))
    && Late(p') == Late(p)
    && (|| (deeds == [] && q'.blocked == q.blocked && q'.completed == q.completed)
        || (deeds == [Held] && q'.blocked && q'.completed == q.completed)
        || (deeds == [Released] && !q'.blocked && q'.completed == q.completed)
        || (deeds == [Reported] && q'.blocked == q.blocked && q'.completed == q.completed + 1))
  }

  lemma RestAct<J>(q: Queue<J>, p: Pc<J>, e: Event<J>)
    requires Possible(q, p, e) && !Shuts(p, e) && !(e.Go? && (p.InPush? || p.InPop?)) && FifoAt(q, p)
    ensures var (q', p') := Act(q, p, e); RestGoes(q, p, OwnDeed(q, p, e), q', p')
  {
  }

  lemma RestTaking<J>(q: Queue<J>, p: Pc<J>, e: Event<J>, taking: bool)
    requires Possible(q, p, e) && !(e.Go? && (p.InPush? || p.InPop?))
    requires (HoldsMy(p) ==> (taking <==> p == InPop(PopTake))) && (taking ==> q.mylock.Some?)
    ensures TakingNext(p, Act(q, p, e).1, taking) == taking
  {
  }

  lemma RestDeed<J>(q: Queue<J>, p: Pc<J>, deeds: seq<Deed<J>>, q': Queue<J>, p': Pc<J>,
                    f: Face<J>, given: seq<seq<J>>, taking: bool)
    requires RestGoes(q, p, deeds, q', p') && TakingNext(p, p', taking) == taking && Agrees(q, f, given, taking)
    ensures DeedGoes(q, p, deeds, q', p', f, given, taking) && InsGo(q, p, deeds, q', p', f)
  {
    assert Given(deeds) == [] && given + [] == given;
  }

  lemma OwnDeedAct<J>(q: Queue<J>, p: Pc<J>, e: Event<J>, f: Face<J>, given: seq<seq<J>>, taking: bool)
    requires Possible(q, p, e) && !Shuts(p, e) && FifoAt(q, p) && Agrees(q, f, given, taking)
    requires (HoldsMy(p) ==> (taking <==> p == InPop(PopTake))) && (taking ==> q.mylock.Some?)
    ensures var (q', p') := Act(q, p, e);
            && DeedGoes(q, p, OwnDeed(q, p, e), q', p', f, given, taking)
            && InsGo(q, p, OwnDeed(q, p, e), q', p', f)
  {
    if e.Go? && p.InPush? {
      PushDeed(q, p.push, e, f, given, taking);
    } else if e.Go? && p.InPop? {
      PopDeed(q, p.pop, e, f, given, taking);
    } else {
      var (q', p') := Act(q, p, e);
      RestAct(q, p, e);
      RestTaking(q, p, e, taking);
      RestDeed(q, p, OwnDeed(q, p, e), q', p', f, given, taking);
    }
  }

  /** Who is taking, from one state to the next. */
  lemma TakingMoves<J(!new)>(s: Sys<J>, e: Event<J>)
    requires QueueInv(s) && Enabled(s, e)
    ensures Taking(Next(s, e)) == TakingNext(s.pc[e.t], Next(s, e).pc[e.t], Taking(s))
    ensures Taking(s) ==> s.q.mylock.Some?
    ensures HoldsMy(s.pc[e.t]) ==> (Taking(s) <==> s.pc[e.t] == InPop(PopTake))
  {
    var s' := Next(s, e);
    NextParts(s, e);
    QueueStep(s, e);
    OneHolder(s, e.t);
    OneHolder(s', e.t);
    forall t | 0 <= t < |s.pc| && t != e.t
      ensures s.pc[t] == InPop(PopTake) <==> s'.pc[t] == InPop(PopTake)
    {
      assert StaysOrWakes(s.pc[t], s'.pc[t]);
    }
  }

  lemma OneHolder<J>(s: Sys<J>, t: nat)
    requires LockInv(s) && t < |s.pc|
    ensures HoldsMy(s.pc[t]) ==> (Taking(s) <==> s.pc[t] == InPop(PopTake))
    ensures Taking(s) ==> s.q.mylock.Some?
  {
    if Taking(s) {
      var w :| 0 <= w < |s.pc| && s.pc[w] == InPop(PopTake);
      assert HoldsMy(s.pc[w]) <==> s.q.mylock == Some(w);
      assert HoldsMy(s.pc[t]) <==> s.q.mylock == Some(t);
    }
  }

  lemma OwnStep<J(!new)>(s: Sys<J>, e: Event<J>, f: Face<J>, given: seq<seq<J>>)
    requires QueueInv(s) && Enabled(s, e) && !Shuts(s.pc[e.t], e) && Linear(s, f, given)
    ensures Explains(f, given, DeedsOf(s, e), Next(s, e))
  {
    var s' := Next(s, e);
    assert FifoAt(s.q, s.pc[e.t]);
    NextParts(s, e);
    TakingMoves(s, e);
    OwnDeedAct(s.q, s.pc[e.t], e, f, given, Taking(s));
    StepMoves(s, e);
    SumMove(s, s', e.t, Late);
  }

  // ----- a shutdown -----

  lemma {:induction false} DoAllAppend<J>(f: Face<J>, a: seq<Deed<J>>, b: seq<Deed<J>>)
    requires AllAllowed(f, a) && AllAllowed(DoAll(f, a), b)
    ensures AllAllowed(f, a + b) && DoAll(f, a + b) == DoAll(DoAll(f, a), b)
    decreases |a|
  {
    if a == [] {
      assert a + b == b;
    } else {
      assert (a + b)[1..] == a[1..] + b;
      DoAllAppend(Do(f, a[0]), a[1..], b);
    }
  }

  lemma {:induction false} GivenAppend<J>(a: seq<Deed<J>>, b: seq<Deed<J>>)
    ensures Given(a + b) == Given(a) + Given(b)
    decreases |a|
  {
    if a == [] {
      assert a + b == b;
    } else {
      assert (a + b)[1..] == a[1..] + b;
      GivenAppend(a[1..], b);
    }
  }

  /** The late pushes only lengthen the buffer. */
  lemma {:induction false} LatePushesGo<J>(f: Face<J>, pc: seq<Pc<J>>)
    requires f.ready
    ensures AllAllowed(f, LatePushes(pc)) && Given(LatePushes(pc)) == []
    ensures var g := DoAll(f, LatePushes(pc)); g == f.(buffer := g.buffer, ins := f.ins + Sum(pc, Late))
    decreases |pc|
  {
    if pc != [] {
      var n := |pc| - 1;
      LatePushesGo(f, pc[..n]);
      if IsLate(pc[n]) {
        DoAllAppend(f, LatePushes(pc[..n]), [Pushed(pc[n].push.item, true)]);
        GivenAppend(LatePushes(pc[..n]), [Pushed(pc[n].push.item, true)]);
      } else {
        assert LatePushes(pc) == LatePushes(pc[..n]);
      }
    }
  }

  lemma ShutDeeds<J>(f: Face<J>, pc: seq<Pc<J>>)
    ensures var deeds := (if f.ready then LatePushes(pc) else []) + [ShutDown];
            && AllAllowed(f, deeds) && Given(deeds) == []
            && DoAll(f, deeds) == f.(ready := false, buffer := [], ins := f.ins + if f.ready then Sum(pc, Late) else 0)
  {
    var before := if f.ready then LatePushes(pc) else [];
    if f.ready {
      LatePushesGo(f, pc);
    }
    DoAllAppend(f, before, [ShutDown]);
    GivenAppend(before, [ShutDown]);
  }

  lemma ShutStep<J(!new)>(s: Sys<J>, e: Event<J>, f: Face<J>, given: seq<seq<J>>)
    requires QueueInv(s) && Enabled(s, e) && Shuts(s.pc[e.t], e) && Linear(s, f, given)
    ensures Explains(f, given, DeedsOf(s, e), Next(s, e))
  {
    var s' := Next(s, e);
    assert s'.pc == s.pc[e.t := InShut(ShutDrain)] && s'.q == s.q.(ready := false);
    SumUpdate(s.pc, e.t, InShut(ShutDrain), Late);
    TakingMoves(s, e);
    ShutDeeds(f, s.pc);
    assert given + [] == given;
  }

  // ----- whole runs -----

  lemma LinearStep<J(!new)>(s: Sys<J>, e: Event<J>, f: Face<J>, given: seq<seq<J>>)
    requires QueueInv(s) && Enabled(s, e) && Linear(s, f, given)
    ensures Explains(f, given, DeedsOf(s, e), Next(s, e))
  {
    if Shuts(s.pc[e.t], e) {
      ShutStep(s, e, f, given);
    } else {
      OwnStep(s, e, f, given);
    }
  }

  lemma ExplainsAppend<J>(f: Face<J>, given: seq<seq<J>>, own: seq<Deed<J>>, rest: seq<Deed<J>>, s: Sys<J>)
    requires AllAllowed(f, own) && Explains(DoAll(f, own), given + Given(own), rest, s)
    ensures Explains(f, given, own + rest, s)
  {
    DoAllAppend(f, own, rest);
    GivenAppend(own, rest);
    assert given + Given(own) + Given(rest) == given + (Given(own) + Given(rest));
  }

  lemma {:induction false} LinearRun<J(!new)>(
      s: Sys<J>, events: seq<Event<J>>, ok: Sys<J> -> bool, f: Face<J>, given: seq<seq<J>>)
    requires QueueInv(s) && Linear(s, f, given) && Legal(s, events, ok)
    ensures Explains(f, given, Deeds(s, events, ok), After(s, events, ok))
    decreases |events|
  {
    if events == [] {
      assert given + [] == given;
    } else {
      var e := events[0];
      var own := DeedsOf(s, e);
      LinearStep(s, e, f, given);
      QueueStep(s, e);
      LinearRun(Next(s, e), events[1..], ok, DoAll(f, own), given + Given(own));
      ExplainsAppend(f, given, own, Deeds(Next(s, e), events[1..], ok), After(s, events, ok));
    }
  }

  /** Nobody holds the lock or is inside a push. */
  ghost predicate Resting<J>(s: Sys<J>) {
    s.q.mylock.None? && forall t :: 0 <= t < |s.pc| ==> !s.pc[t].InPush?
  }

  ghost function FaceAtRest<J>(q: Queue<J>): Face<J> {
    Face(if q.ready then q.buffer else [], q.inCount, q.outCount, q.completed, q.ready, q.blocked)
  }

  /** For any number of threads and any interleaving: made one at a time in the order
      in which they take effect, the calls are all allowed with the results they have
      in the run.  The pops return the delivered items in order; and when nobody holds
      the lock or is inside a push, `ready`, `blocked`, the counters and, before a
      shutdown, the buffer are those of the calls made one at a time. */
  lemma RunsAreLinear<J(!new)>(threads: nat, events: seq<Event<J>>, ok: Sys<J> -> bool)
    requires Legal(Init(threads), events, ok)
    ensures var s, deeds := After(Init(threads), events, ok), Deeds(Init(threads), events, ok);
            && Explains(NewFace(), [], deeds, s)
            && (Resting(s) ==> Given(deeds) == s.q.delivered && DoAll(NewFace(), deeds) == FaceAtRest(s.q))
  {
    var s0 := Init<J>(threads);
    QueueInit<J>(threads);
    LinearRun(s0, events, ok, NewFace(), []);
    QueueRun(s0, events, ok);
    var s, deeds := After(s0, events, ok), Deeds(s0, events, ok);
    assert [] + Given(deeds) == Given(deeds);
    if Resting(s) {
      AtRestAgrees(s, DoAll(NewFace(), deeds), Given(deeds));
    }
  }

  lemma AtRestAgrees<J(!new)>(s: Sys<J>, f: Face<J>, given: seq<seq<J>>)
    requires QueueInv(s) && Linear(s, f, given) && Resting(s)
    ensures given == s.q.delivered
    ensures f == FaceAtRest(s.q)
  {
    forall t | 0 <= t < |s.pc| ensures s.pc[t] != InPop(PopTake) && Taken(s.pc[t]) == 0 {
      assert HoldsMy(s.pc[t]) <==> s.q.mylock == Some(t);
    }
    SumZero(s.pc, Late);
    SumZero(s.pc, Counted);
    SumZero(s.pc, Taken);
  }
}
