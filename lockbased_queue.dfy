/**
 * Model of the lock-based queue (src/queue/lockbased_queue.h): a FIFO
 * buffer paired with a one-way shutdown flag. The mutex and the condition
 * variable are not modelled; every call runs alone on the current state.
 *
 * The step functions give the effect of each operation on a
 * `ThreadSafeQueue.QueueState`; the class `LockBasedQueue` updates its
 * fields in place and is proved to follow them, and the lemmas at the end
 * prove what the queue promises over whole runs of calls.
 */
module LockBased {
  import opened Wrappers
  import opened ThreadSafeQueue

  /** The result of a dequeuing call and the state it leaves. */
  datatype Step<T> = Step(result: Option<T>, state: QueueState<T>)

  /** The result of `tryDequeue`: the returned flag, the out parameter and the state left. */
  datatype TryStep<T> = TryStep(ok: bool, item: T, state: QueueState<T>)

  /** The predicate both `dequeue` and `waitDequeue` wait for. */
  predicate WaitPredicate<T>(s: QueueState<T>) {
    s.shutDown || s.items != []
  }

  /** `enqueue`: a shut-down queue drops the item, a live one appends it. */
  function EnqueueStep<T>(s: QueueState<T>, x: T): QueueState<T> {
    if s.shutDown then s else s.(items := s.items + [x])
  }

  /** `front()` then `pop()` on a non-empty buffer. */
  function PopFront<T>(s: QueueState<T>): Step<T>
    requires s.items != []
  {
    Step(Some(s.items[0]), s.(items := s.items[1..]))
  }

  /**
   * `dequeue`: once the wait is over, an empty buffer (the queue was shut
   * down) yields none, otherwise the front item is taken.
   */
  function DequeueStep<T>(s: QueueState<T>): Step<T>
    requires WaitPredicate(s)
  {
    if s.items == [] then Step(None, s) else PopFront(s)
  }

  /** `tryDequeue`: never waits and ignores the shutdown flag. */
  function TryDequeueStep<T>(s: QueueState<T>, prev: T): TryStep<T> {
    if s.items == [] then TryStep(false, prev, s)
    else TryStep(true, s.items[0], s.(items := s.items[1..]))
  }

  /**
   * `waitDequeue`: when the wait predicate does not hold the wait times out
   * and yields none; otherwise it behaves like `dequeue`.
   */
  function WaitDequeueStep<T>(s: QueueState<T>): Step<T> {
    if !WaitPredicate(s) then Step(None, s)
    else if s.items == [] then Step(None, s)
    else PopFront(s)
  }

  /** `clear`: swaps the buffer with an empty one. */
  function ClearStep<T>(s: QueueState<T>): QueueState<T> {
    s.(items := [])
  }

  /** `shutdown`: raises the flag. */
  function ShutdownStep<T>(s: QueueState<T>): QueueState<T> {
    s.(shutDown := true)
  }

  /** The queue object: the buffer `m_queue` and the flag `m_shutdown`. */
  class LockBasedQueue<T> {
    var buffer: seq<T>
    var shutDown: bool

    function State(): QueueState<T>
      reads this
    {
      QueueState(buffer, shutDown)
    }

    /** A new queue is empty and not shut down. */
    constructor ()
      ensures State() == Fresh()
    {
      buffer := [];
      shutDown := false;
    }

    /** Both `enqueue` overloads (copy and move). */
    method Enqueue(item: T)
      modifies this
      ensures State() == EnqueueStep(old(State()), item)
      ensures EnqueueContract(old(State()), item, State())
    {
      if shutDown {
        return;
      }
      buffer := buffer + [item];
    }

    /**
     * `dequeue`. The call blocks until the queue is shut down or non-empty;
     * in this sequential model a call that would block forever is excluded.
     */
    method Dequeue() returns (r: Option<T>)
      requires shutDown || buffer != []
      modifies this
      ensures Step(r, State()) == DequeueStep(old(State()))
      ensures DequeueContract(old(State()), r, State())
    {
      if buffer == [] {
        return None;
      }
      r := Some(buffer[0]);
      buffer := buffer[1..];
    }

    /** `tryDequeue(item)`: `prev` is the value of `item` before the call. */
    method TryDequeue(prev: T) returns (ok: bool, item: T)
      modifies this
      ensures TryStep(ok, item, State()) == TryDequeueStep(old(State()), prev)
      ensures TryDequeueContract(old(State()), prev, ok, item, State())
    {
      if buffer == [] {
        return false, prev;
      }
      item := buffer[0];
      buffer := buffer[1..];
      ok := true;
    }

    /**
     * `waitDequeue(timeout)`. No other thread runs during the wait, so it
     * times out exactly when the wait predicate is false on entry.
     */
    method WaitDequeue() returns (r: Option<T>)
      modifies this
      ensures Step(r, State()) == WaitDequeueStep(old(State()))
      ensures WaitDequeueContract(old(State()), !WaitPredicate(old(State())), r, State())
    {
      var ready := shutDown || buffer != [];
      if !ready {
        return None;
      }
      if buffer == [] {
        return None;
      }
      r := Some(buffer[0]);
      buffer := buffer[1..];
    }

    function Empty(): (r: bool)
      reads this
      ensures EmptyContract(State(), r)
    {
      buffer == []
    }

    function Size(): (r: nat)
      reads this
      ensures SizeContract(State(), r)
    {
      |buffer|
    }

    method Clear()
      modifies this
      ensures State() == ClearStep(old(State()))
      ensures ClearContract(old(State()), State())
    {
      buffer := [];
    }

    method Shutdown()
      modifies this
      ensures State() == ShutdownStep(old(State()))
      ensures ShutdownContract(old(State()), State())
    {
      shutDown := true;
    }

    function IsShutDown(): (r: bool)
      reads this
      ensures IsShutDownContract(State(), r)
    {
      shutDown
    }
  }

  /** The step functions meet the interface's contract, call by call. */
  lemma StepsMeetInterface<T>(s: QueueState<T>, x: T, prev: T)
    ensures EnqueueContract(s, x, EnqueueStep(s, x))
    ensures WaitPredicate(s) ==> DequeueContract(s, DequeueStep(s).result, DequeueStep(s).state)
    ensures var st := TryDequeueStep(s, prev); TryDequeueContract(s, prev, st.ok, st.item, st.state)
    ensures WaitDequeueContract(s, !WaitPredicate(s), WaitDequeueStep(s).result, WaitDequeueStep(s).state)
    ensures ClearContract(s, ClearStep(s))
    ensures ShutdownContract(s, ShutdownStep(s))
  {
  }

  /**
   * `dequeue` returns none only on an empty, shut-down queue, and keeps
   * handing out pending items after shutdown.
   */
  lemma DequeueAfterShutdown<T>(s: QueueState<T>)
    requires WaitPredicate(s)
    ensures DequeueStep(s).result.None? <==> s.items == [] && s.shutDown
    ensures DequeueStep(s).result.None? ==> DequeueStep(s).state == s
    ensures s.items != [] ==> DequeueStep(s).result == Some(s.items[0])
  {
  }

  /** `waitDequeue` times out (none, buffer untouched) only on an empty live queue, and otherwise is `dequeue`. */
  lemma WaitDequeueIsDequeueUnlessTimeout<T>(s: QueueState<T>)
    ensures !WaitPredicate(s) ==> WaitDequeueStep(s) == Step(None, s)
    ensures WaitPredicate(s) ==> WaitDequeueStep(s) == DequeueStep(s)
  {
  }

  /** `shutdown` is idempotent, and `clear` leaves the shutdown state alone. */
  lemma ShutdownIdempotentClearKeepsFlag<T>(s: QueueState<T>)
    ensures ShutdownStep(ShutdownStep(s)) == ShutdownStep(s)
    ensures ClearStep(s).shutDown == s.shutDown
    ensures ClearStep(ShutdownStep(s)).shutDown
  {
  }

  /** Enqueues one after another, each on the state the previous one left. */
  function EnqueueAll<T>(s: QueueState<T>, xs: seq<T>): QueueState<T>
    decreases |xs|
  {
    if xs == [] then s else EnqueueAll(EnqueueStep(s, xs[0]), xs[1..])
  }

  /** Dequeues until the buffer is empty and collects what comes out. */
  function Drain<T>(s: QueueState<T>): seq<T>
    decreases |s.items|
  {
    if s.items == [] then []
    else
      var st := DequeueStep(s);
      [st.result.value] + Drain(st.state)
  }

  lemma {:induction false} EnqueueAllAppends<T>(s: QueueState<T>, xs: seq<T>)
    ensures !s.shutDown ==> EnqueueAll(s, xs) == s.(items := s.items + xs)
    ensures s.shutDown ==> EnqueueAll(s, xs) == s
    decreases |xs|
  {
    if xs != [] {
      EnqueueAllAppends(EnqueueStep(s, xs[0]), xs[1..]);
      assert s.items + [xs[0]] + xs[1..] == s.items + xs;
    }
  }

  lemma {:induction false} DrainYieldsBuffer<T>(s: QueueState<T>)
    ensures Drain(s) == s.items
    decreases |s.items|
  {
    if s.items != [] {
      DrainYieldsBuffer(DequeueStep(s).state);
    }
  }

  /**
   * FIFO: items enqueued one after another on a new queue come out, when
   * the queue is drained, in the order they went in.
   */
  lemma Fifo<T>(xs: seq<T>)
    ensures Drain(EnqueueAll(Fresh(), xs)) == xs
  {
    EnqueueAllAppends(Fresh(), xs);
    DrainYieldsBuffer(EnqueueAll(Fresh(), xs));
  }

  /** One call on the queue, as a single thread issues it. */
  datatype Op<T> =
    | EnqueueOp(x: T)
    | DequeueOp
    | TryDequeueOp(prev: T)
    | WaitDequeueOp
    | ClearOp
    | ShutdownOp

  /**
   * The outcome of a run of calls: the items taken out (in order), the
   * items the queue accepted (in order), and the final state.
   */
  datatype Trace<T> = Trace(taken: seq<T>, accepted: seq<T>, state: QueueState<T>)

  /**
   * Runs the calls in order. A `dequeue` on an empty live queue would block
   * forever, so the run stops there.
   */
  function Run<T>(s: QueueState<T>, ops: seq<Op<T>>): Trace<T>
    decreases |ops|
  {
    if ops == [] then Trace([], [], s)
    else
      var rest := ops[1..];
      match ops[0]
      case EnqueueOp(x) =>
        var r := Run(EnqueueStep(s, x), rest);
        Trace(r.taken, (if s.shutDown then [] else [x]) + r.accepted, r.state)
      case DequeueOp =>
        if !WaitPredicate(s) then Trace([], [], s)
        else
          var st := DequeueStep(s);
          var r := Run(st.state, rest);
          Trace((if st.result.Some? then [st.result.value] else []) + r.taken, r.accepted, r.state)
      case TryDequeueOp(prev) =>
        var st := TryDequeueStep(s, prev);
        var r := Run(st.state, rest);
        Trace((if st.ok then [st.item] else []) + r.taken, r.accepted, r.state)
      case WaitDequeueOp =>
        var st := WaitDequeueStep(s);
        var r := Run(st.state, rest);
        Trace((if st.result.Some? then [st.result.value] else []) + r.taken, r.accepted, r.state)
      case ClearOp => Run(ClearStep(s), rest)
      case ShutdownOp => Run(ShutdownStep(s), rest)
  }

  predicate NoClear<T>(ops: seq<Op<T>>) {
    forall i :: 0 <= i < |ops| ==> !ops[i].ClearOp?
  }

  /** Taking the front item first and the rest later keeps the overall order. */
  lemma TakeFrontKeepsOrder<T>(items: seq<T>, taken: seq<T>, left: seq<T>, accepted: seq<T>)
    requires items != []
    requires taken + left == items[1..] + accepted
    ensures ([items[0]] + taken) + left == items + accepted
  {
    calc {
      ([items[0]] + taken) + left;
      [items[0]] + (taken + left);
      [items[0]] + (items[1..] + accepted);
      ([items[0]] + items[1..]) + accepted;
      { assert [items[0]] + items[1..] == items; }
      items + accepted;
    }
  }

  /**
   * FIFO over any interleaving of calls without `clear`: what was taken out,
   * followed by what is still pending, is exactly what was pending at the
   * start followed by every accepted item, in enqueue order.
   */
  lemma {:induction false} RunPreservesOrder<T>(s: QueueState<T>, ops: seq<Op<T>>)
    requires NoClear(ops)
    ensures Run(s, ops).taken + Run(s, ops).state.items == s.items + Run(s, ops).accepted
    decreases |ops|
  {
    if ops != [] {
      var rest := ops[1..];
      assert NoClear(rest) by {
        forall i | 0 <= i < |rest| ensures !rest[i].ClearOp? {
          assert rest[i] == ops[i + 1];
        }
      }
      match ops[0]
      case EnqueueOp(x) =>
        RunPreservesOrder(EnqueueStep(s, x), rest);
        var r := Run(EnqueueStep(s, x), rest);
        if !s.shutDown {
          assert r.taken + r.state.items == s.items + ([x] + r.accepted);
        }
      case DequeueOp =>
        if WaitPredicate(s) {
          var st := DequeueStep(s);
          RunPreservesOrder(st.state, rest);
          var r := Run(st.state, rest);
          if s.items != [] {
            assert Run(s, ops) == Trace([s.items[0]] + r.taken, r.accepted, r.state);
            TakeFrontKeepsOrder(s.items, r.taken, r.state.items, r.accepted);
          } else {
            assert Run(s, ops) == Trace(r.taken, r.accepted, r.state);
          }
        }
      case TryDequeueOp(prev) =>
        var st := TryDequeueStep(s, prev);
        RunPreservesOrder(st.state, rest);
        var r := Run(st.state, rest);
        if s.items != [] {
          assert Run(s, ops) == Trace([s.items[0]] + r.taken, r.accepted, r.state);
          TakeFrontKeepsOrder(s.items, r.taken, r.state.items, r.accepted);
        } else {
          assert Run(s, ops) == Trace(r.taken, r.accepted, r.state);
        }
      case WaitDequeueOp =>
        var st := WaitDequeueStep(s);
        RunPreservesOrder(st.state, rest);
        var r := Run(st.state, rest);
        if s.items != [] {
          assert Run(s, ops) == Trace([s.items[0]] + r.taken, r.accepted, r.state);
          TakeFrontKeepsOrder(s.items, r.taken, r.state.items, r.accepted);
        } else {
          assert Run(s, ops) == Trace(r.taken, r.accepted, r.state);
        }
      case ClearOp =>
        assert false;
      case ShutdownOp =>
        RunPreservesOrder(ShutdownStep(s), rest);
    }
  }

  /**
   * Shutdown is permanent and closes the queue: from a shut-down state, any
   * run of calls leaves it shut down, accepts nothing, and only ever removes
   * items from the front, so what is left is a suffix of what was pending.
   */
  lemma {:induction false} ShutdownIsPermanent<T>(s: QueueState<T>, ops: seq<Op<T>>)
    requires s.shutDown
    ensures Run(s, ops).state.shutDown
    ensures Run(s, ops).accepted == []
    ensures |Run(s, ops).state.items| <= |s.items|
    ensures Run(s, ops).state.items == s.items[|s.items| - |Run(s, ops).state.items|..]
    decreases |ops|
  {
    if ops != [] {
      var rest := ops[1..];
      match ops[0]
      case EnqueueOp(x) =>
        ShutdownIsPermanent(EnqueueStep(s, x), rest);
      case DequeueOp =>
        ShutdownIsPermanent(DequeueStep(s).state, rest);
      case TryDequeueOp(prev) =>
        ShutdownIsPermanent(TryDequeueStep(s, prev).state, rest);
      case WaitDequeueOp =>
        ShutdownIsPermanent(WaitDequeueStep(s).state, rest);
      case ClearOp =>
        ShutdownIsPermanent(ClearStep(s), rest);
      case ShutdownOp =>
        ShutdownIsPermanent(ShutdownStep(s), rest);
    }
  }

  /** A client of the class: enqueued items come back in order, even across shutdown. */
  method FifoThroughShutdown<T>(a: T, b: T, c: T) returns (first: Option<T>, second: Option<T>, third: Option<T>)
    ensures first == Some(a) && second == Some(b) && third == None
  {
    var q := new LockBasedQueue<T>();
    q.Enqueue(a);
    q.Enqueue(b);
    q.Shutdown();
    q.Enqueue(c);
    first := q.Dequeue();
    second := q.Dequeue();
    third := q.Dequeue();
  }
}
