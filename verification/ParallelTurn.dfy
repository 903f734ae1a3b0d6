/** The worker phases of one turn refine the sequential loops: the queue's barrier,
    the round-robin packets and the commuting jobs put together. */
module ParallelTurn {
  import opened QueueSystem
  import opened QueueInvariants
  import opened QueueBarrier
  import opened Schedule
  import opened SimWorld
  import opened SimRun

  /** The engine e is at rest: before its first push, or after a join. */
  ghost predicate AtRest<J(!new)>(s: Sys<J>, e: nat) {
    QueueInv(s) && e < |s.pc| && (s.pc[e].Joined? || s.pc[e].Idle?) && s.q.completed == s.q.inCount
  }

  lemma StartsAtRest<J(!new)>(threads: nat, e: nat)
    requires e < threads
    ensures AtRest(Init<J>(threads), e)
  {
    QueueInit<J>(threads);
  }

  /** A run in which the engine, the only producer, pushes the packets of the jobs
      and its join returns. */
  ghost predicate PushesAndJoins<J(!new)>(
      s: Sys<J>, events: seq<Event<J>>, ok: Sys<J> -> bool, e: nat, jobs: seq<J>, workers: nat)
  {
    && e < |s.pc| && workers > 0 && Legal(s, events, ok)
    && (forall x :: ok(x) ==> Bounded(x) && SoleProducer(x, e))
    && After(s, events, ok).pc[e].Joined?
    && After(s, events, ok).q.enqueued == s.q.enqueued + Packets(jobs, workers)
  }

  ghost predicate Phase<J(!new)>(
      s: Sys<J>, events: seq<Event<J>>, ok: Sys<J> -> bool, e: nat, jobs: seq<J>, workers: nat)
  {
    AtRest(s, e) && PushesAndJoins(s, events, ok, e, jobs, workers)
  }

  /** The jobs performed during the phase, in the order of their execution. */
  ghost function Performed<J(!new)>(s: Sys<J>, events: seq<Event<J>>, ok: Sys<J> -> bool): seq<J>
    requires Legal(s, events, ok)
  {
    HistoryRun(s, events, ok);
    After(s, events, ok).q.log[|s.q.log|..]
  }

  /** The phase performs each job exactly once and leaves the engine at rest, ready
      for the next phase on the same queue. */
  lemma PhasePerformsEachJobOnce<J(!new)>(
      s: Sys<J>, events: seq<Event<J>>, ok: Sys<J> -> bool, e: nat, jobs: seq<J>, workers: nat)
    requires Phase(s, events, ok, e, jobs, workers)
    ensures multiset(Performed(s, events, ok)) == multiset(jobs)
    ensures AtRest(After(s, events, ok), e)
  {
    PhaseBarrier(s, events, ok, e, Packets(jobs, workers));
    PacketsHoldEveryJob(jobs, workers);
    JoinRun(s, events, ok, e);
  }

  /** The use of one queue in one turn. */
  datatype Round<J> = Round(events: seq<Event<J>>, jobs: seq<J>)

  /** Turn after turn on the same queue. */
  ghost predicate Rounds<J(!new)>(s: Sys<J>, rounds: seq<Round<J>>, ok: Sys<J> -> bool, e: nat, workers: nat)
    decreases |rounds|
  {
    rounds == [] ||
    (PushesAndJoins(s, rounds[0].events, ok, e, rounds[0].jobs, workers) &&
     Rounds(After(s, rounds[0].events, ok), rounds[1..], ok, e, workers))
  }

  ghost predicate EachPerformed<J(!new)>(s: Sys<J>, rounds: seq<Round<J>>, ok: Sys<J> -> bool, e: nat, workers: nat)
    requires Rounds(s, rounds, ok, e, workers)
    decreases |rounds|
  {
    rounds == [] ||
    (multiset(Performed(s, rounds[0].events, ok)) == multiset(rounds[0].jobs) &&
     EachPerformed(After(s, rounds[0].events, ok), rounds[1..], ok, e, workers))
  }

  lemma {:induction false} EveryRound<J(!new)>(
      s: Sys<J>, rounds: seq<Round<J>>, ok: Sys<J> -> bool, e: nat, workers: nat)
    requires AtRest(s, e) && Rounds(s, rounds, ok, e, workers)
    ensures EachPerformed(s, rounds, ok, e, workers)
    decreases |rounds|
  {
    if rounds != [] {
      PhasePerformsEachJobOnce(s, rounds[0].events, ok, e, rounds[0].jobs, workers);
      EveryRound(After(s, rounds[0].events, ok), rounds[1..], ok, e, workers);
    }
  }

  /** The barrier stays right across turns: on a queue used from the start for any
      number of turns, every turn performs exactly its own jobs, each once, although
      the counters are never reset. */
  lemma RoundsFromStart<J(!new)>(
      threads: nat, rounds: seq<Round<J>>, ok: Sys<J> -> bool, e: nat, workers: nat)
    requires e < threads && Rounds(Init(threads), rounds, ok, e, workers)
    ensures EachPerformed(Init(threads), rounds, ok, e, workers)
  {
    StartsAtRest<J>(threads, e);
    EveryRound(Init(threads), rounds, ok, e, workers);
  }

  /** For every number of workers and every interleaving of engine and workers,
      the parallel tick leaves the world of the sequential tick. */
  lemma ParallelTick(
      s: Sys<nat>, events: seq<Event<nat>>, ok: Sys<nat> -> bool, e: nat, workers: nat,
      r: Rules, objects: Objects, ids: seq<nat>)
    requires Phase(s, events, ok, e, ids, workers) && Enumerates(ids, objects)
    ensures Perform(OneTick(r), objects, Performed(s, events, ok)) == TickAll(r, objects)
  {
    PhasePerformsEachJobOnce(s, events, ok, e, ids, workers);
    AnyTickOrder(r, objects, ids, Performed(s, events, ok));
  }

  lemma ParallelApply(
      s: Sys<nat>, events: seq<Event<nat>>, ok: Sys<nat> -> bool, e: nat, workers: nat,
      r: Rules, objects: Objects, ids: seq<nat>)
    requires Phase(s, events, ok, e, ids, workers) && Enumerates(ids, objects)
    ensures Perform(OneApply(r), objects, Performed(s, events, ok)) == ApplyAll(r, objects)
  {
    PhasePerformsEachJobOnce(s, events, ok, e, ids, workers);
    AnyApplyOrder(r, objects, ids, Performed(s, events, ok));
  }

  /** And the collisions recorded by the workers are the colliding pairs. */
  lemma ParallelCheck(
      s: Sys<(nat, nat)>, events: seq<Event<(nat, nat)>>, ok: Sys<(nat, nat)> -> bool, e: nat, workers: nat,
      r: Rules, objects: Objects, ids: seq<nat>)
    requires Enumerates(ids, objects) && Phase(s, events, ok, e, AllPairs(ids, |ids|), workers)
    ensures Recorded(r, objects, Perform(OneCheck(r, objects), multiset{}, Performed(s, events, ok)))
  {
    PhasePerformsEachJobOnce(s, events, ok, e, AllPairs(ids, |ids|), workers);
    AnyCheckOrder(r, objects, ids, Performed(s, events, ok));
  }

  lemma TickKeepsIds(r: Rules, objects: Objects, ids: seq<nat>)
    requires Enumerates(ids, objects)
    ensures Enumerates(ids, TickAll(r, objects))
  {
  }

  /** A whole turn on the three queues, from any state of the engine: whatever the
      interleavings of its workers, the world that resolution finds is the one the
      sequential loops leave, and whatever order the records are in, they are valid
      records, so the turn is one of those that the whole-run results are about. */
  lemma WholeTurn(
      ticks: Sys<nat>, tickEvents: seq<Event<nat>>, tickOk: Sys<nat> -> bool,
      checks: Sys<(nat, nat)>, checkEvents: seq<Event<(nat, nat)>>, checkOk: Sys<(nat, nat)> -> bool,
      applies: Sys<nat>, applyEvents: seq<Event<nat>>, applyOk: Sys<nat> -> bool,
      e: nat, workers: nat, r: Rules, c: Core, ids: seq<nat>, ticked: Objects, recs: seq<(nat, nat)>)
    requires Enumerates(ids, Started(c))
    requires Phase(ticks, tickEvents, tickOk, e, ids, workers)
    requires Phase(checks, checkEvents, checkOk, e, AllPairs(ids, |ids|), workers)
    requires Phase(applies, applyEvents, applyOk, e, ids, workers)
    requires ticked == Perform(OneTick(r), Started(c), Performed(ticks, tickEvents, tickOk))
    requires multiset(recs) == Perform(OneCheck(r, ticked), multiset{}, Performed(checks, checkEvents, checkOk))
    ensures ValidRecords(r, c, recs)
    ensures Perform(OneApply(r), ticked, Performed(applies, applyEvents, applyOk)) == Moved(r, c)
  {
    ParallelTick(ticks, tickEvents, tickOk, e, workers, r, Started(c), ids);
    TickKeepsIds(r, Started(c), ids);
    ParallelCheck(checks, checkEvents, checkOk, e, workers, r, ticked, ids);
    ParallelApply(applies, applyEvents, applyOk, e, workers, r, ticked, ids);
  }
}
