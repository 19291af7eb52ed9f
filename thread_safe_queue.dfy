/**
 * The contract of the abstract queue interface
 * (include/assessment/queue/thread_safe_queue.h). A queue is observed as an
 * ordered buffer of pending items and a shutdown flag; each predicate below
 * is the documented promise of one pure-virtual method (made precise where
 * the doc-comment is silent, as noted at the predicate), relating the state
 * before the call, its result and the state after it. Any implementation
 * must make these hold; `LockBased.LockBasedQueue` does.
 */
module ThreadSafeQueue {
  import opened Wrappers

  /** The observable state of a queue: pending items, oldest first, and the shutdown flag. */
  datatype QueueState<T> = QueueState(items: seq<T>, shutDown: bool)

  /** A freshly constructed queue. */
  function Fresh<T>(): (s: QueueState<T>)
    ensures s.items == [] && !s.shutDown
  {
    QueueState([], false)
  }

  /**
   * `enqueue(item)` adds the item at the tail; once the queue is shut down an
   * implementation may drop it instead. The shutdown flag is not touched.
   */
  ghost predicate EnqueueContract<T>(s: QueueState<T>, x: T, t: QueueState<T>) {
    t.shutDown == s.shutDown &&
    (t.items == s.items + [x] || (s.shutDown && t.items == s.items))
  }

  /** Taking the front item out of `s` leaves `t`. */
  ghost predicate TookFront<T>(s: QueueState<T>, x: T, t: QueueState<T>) {
    s.items != [] && x == s.items[0] && t == s.(items := s.items[1..])
  }

  /**
   * `dequeue()` yields the front item, or none only if the queue is shut
   * down, in which case nothing changes.
   */
  ghost predicate DequeueContract<T>(s: QueueState<T>, r: Option<T>, t: QueueState<T>) {
    match r
    case Some(x) => TookFront(s, x, t)
    case None => s.shutDown && t == s
  }

  /**
   * `tryDequeue(item)` returns true exactly when the front item was removed
   * and written to `item`. The interface does not say what happens to `item`
   * on false; this predicate adds what the lock-based queue does
   * (src/queue/lockbased_queue.h:59-60): `item` keeps its previous value
   * and the queue is unchanged.
   */
  ghost predicate TryDequeueContract<T>(s: QueueState<T>, prev: T, ok: bool, item: T, t: QueueState<T>) {
    if ok then TookFront(s, item, t) else item == prev && t == s
  }

  /**
   * `waitDequeue(timeout)` yields the front item, or none on timeout or when
   * the queue is shut down, in which case nothing changes.
   */
  ghost predicate WaitDequeueContract<T>(s: QueueState<T>, timedOut: bool, r: Option<T>, t: QueueState<T>) {
    match r
    case Some(x) => TookFront(s, x, t)
    case None => (timedOut || s.shutDown) && t == s
  }

  /** `empty()` is true exactly when there is no pending item. */
  ghost predicate EmptyContract<T>(s: QueueState<T>, r: bool) {
    r <==> |s.items| == 0
  }

  /** `size()` is the number of pending items. */
  ghost predicate SizeContract<T>(s: QueueState<T>, r: nat) {
    r == |s.items|
  }

  /** After `clear()` the queue is empty; the shutdown state is not affected. */
  ghost predicate ClearContract<T>(s: QueueState<T>, t: QueueState<T>) {
    t.items == [] && t.shutDown == s.shutDown
  }

  /** After `shutdown()`, `isShutDown()` is true; the pending items stay. */
  ghost predicate ShutdownContract<T>(s: QueueState<T>, t: QueueState<T>) {
    t.shutDown && t.items == s.items
  }

  /** `isShutDown()` reports the flag. */
  ghost predicate IsShutDownContract<T>(s: QueueState<T>, r: bool) {
    r == s.shutDown
  }
}
