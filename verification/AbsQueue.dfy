/** The queue as its callers see it: calls that take effect one at a time.  The class
    runs them on the fields of `abs_queue`; `QueueLinear` shows that threads that
    interleave inside the calls get the same results. */
module AbsQueues {
  import opened Options
  import opened QueueSystem

  /** The fields, with the counters as true counts. */
  datatype Face<J> = Face(
    buffer: seq<seq<J>>, ins: nat, outs: nat, completed: nat, ready: bool, blocked: bool)

  function NewFace<J>(): Face<J> { Face([], 0, 0, 0, true, false) }

  /** A call with its result; false and None are `queue_not_ready`. */
  datatype Deed<J> =
    | Pushed(item: seq<J>, ok: bool)
    | Popped(r: Option<seq<J>>)
    | Held
    | Released
    | ShutDown
    | Reported  // `task_done`

  /** The call can take effect now, without waiting, and with this result. */
  ghost predicate Allowed<J>(f: Face<J>, d: Deed<J>) {
    match d
    case Pushed(_, ok) => ok == f.ready
    case Popped(r) => if f.ready then !f.blocked && f.buffer != [] && r == Some(f.buffer[0]) else r == None
    case _ => true
  }

  ghost function Do<J>(f: Face<J>, d: Deed<J>): Face<J>
    requires Allowed(f, d)
  {
    match d
    case Pushed(item, ok) => if ok then f.(buffer := f.buffer + [item], ins := f.ins + 1) else f
    case Popped(r) => if r.Some? then f.(buffer := f.buffer[1..], outs := f.outs + 1) else f
    case Held => f.(blocked := true)
    case Released => f.(blocked := false)
    case ShutDown => f.(ready := false, buffer := [])
    case Reported => f.(completed := f.completed + 1)
  }

  class AbsQueue<J> {
    var buffer: seq<seq<J>>
    // 32-bit words
    var in_count: nat
    var out_count: nat
    var completed: nat
    var ready: bool
    var blocked: bool
    ghost var face: Face<J>

    ghost predicate Valid()
      reads this
    {
      && face.buffer == buffer && face.ready == ready && face.blocked == blocked
      && in_count == Wrap(face.ins) && out_count == Wrap(face.outs) && completed == Wrap(face.completed)
    }

    constructor ()
      ensures Valid() && face == NewFace<J>()
    {
      buffer, in_count, out_count, completed, ready, blocked := [], 0, 0, 0, true, false;
      face := NewFace<J>();
    }

    method Push(item: seq<J>) returns (ok: bool)
      requires Valid()
      modifies this
      ensures Valid() && Allowed(old(face), Pushed(item, ok)) && face == Do(old(face), Pushed(item, ok))
    {
      if ready {
        in_count := (in_count + 1) % WORD;
        buffer := buffer + [item];
        ok := true;
      } else {
        ok := false;
      }
      face := Do(face, Pushed(item, ok));
    }

    /** The call must not have to wait. */
    method Pop() returns (r: Option<seq<J>>)
      requires Valid() && (ready ==> buffer != [] && !blocked)
      modifies this
      ensures Valid() && Allowed(old(face), Popped(r)) && face == Do(old(face), Popped(r))
    {
      if ready {
        var returnme := buffer[0];
        buffer := buffer[1..];
        out_count := (out_count + 1) % WORD;
        r := Some(returnme);
      } else {
        r := None;
      }
      face := Do(face, Popped(r));
    }

    method Hold()
      requires Valid()
      modifies this
      ensures Valid() && face == Do(old(face), Held)
    {
      blocked := true;
      face := Do(face, Held);
    }

    method Release()
      requires Valid()
      modifies this
      ensures Valid() && face == Do(old(face), Released)
    {
      blocked := false;
      face := Do(face, Released);
    }

    method Shutdown()
      requires Valid()
      modifies this
      ensures Valid() && face == Do(old(face), ShutDown)
    {
      ready := false;
      while |buffer| > 0
        invariant !ready && face == old(face) && blocked == face.blocked
        invariant in_count == Wrap(face.ins) && out_count == Wrap(face.outs) && completed == Wrap(face.completed)
      {
        buffer := buffer[1..];
      }
      face := Do(face, ShutDown);
    }

    /** `last` says that the caller of `join` is to be notified. */
    method TaskDone() returns (last: bool)
      requires Valid()
      modifies this
      ensures Valid() && face == Do(old(face), Reported)
      ensures last <==> Wrap(face.completed) == Wrap(face.ins)
    {
      completed := (completed + 1) % WORD;
      last := completed == in_count;
      face := Do(face, Reported);
    }
  }
}
