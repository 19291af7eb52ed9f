/**
 * Model of the event value type (include/assessment/event/event.h):
 * priorities, event types, the event record, its deadline and the
 * priority ordering used to sort events.
 */
module Events {
  import opened Wrappers

  /** A 64-bit unsigned event identifier. */
  newtype Id = x: int | 0 <= x < 0x1_0000_0000_0000_0000

  const TimeMin: int := -0x8000_0000_0000_0000
  const TimeMax: int := 0x7FFF_FFFF_FFFF_FFFF

  /**
   * A reading of the monotonic clock, as a signed 64-bit tick count.
   * `TimeMax` is `time_point::max()`, which the event uses as its
   * "no deadline" sentinel.
   */
  type TimePoint = t: int | TimeMin <= t <= TimeMax

  /** Priority levels, declared in increasing order of urgency. */
  datatype Priority = Low | Medium | High | Critical

  datatype EventType = HardwareInterrupt | Timer | UserInput | System

  /** The position of a priority in its declaration, as the enum's underlying value. */
  function Rank(p: Priority): (r: nat)
    ensures r < 4
  {
    match p
    case Low => 0
    case Medium => 1
    case High => 2
    case Critical => 3
  }

  /** Strict priority order: LOW < MEDIUM < HIGH < CRITICAL. */
  predicate PriorityLess(a: Priority, b: Priority) {
    Rank(a) < Rank(b)
  }

  /** The priorities in increasing order; an index into it is the rank. */
  const Priorities: seq<Priority> := [Low, Medium, High, Critical]

  lemma PriorityOrderIsDeclarationOrder(p: Priority)
    ensures Priorities[Rank(p)] == p
    ensures forall i, j :: 0 <= i < j < |Priorities| ==> PriorityLess(Priorities[i], Priorities[j])
  {
  }

  /** `<` on priorities is a strict total order: irreflexive, transitive and total. */
  lemma PriorityLessIsStrictTotalOrder(a: Priority, b: Priority, c: Priority)
    ensures !PriorityLess(a, a)
    ensures PriorityLess(a, b) && PriorityLess(b, c) ==> PriorityLess(a, c)
    ensures a == b || PriorityLess(a, b) || PriorityLess(b, a)
    ensures !(PriorityLess(a, b) && PriorityLess(b, a))
  {
  }

  /**
   * One event. The clock fields hold `TimePoint`s; a `deadline` equal to
   * `TimeMax` means the event has no deadline.
   */
  datatype Event = Event(
    id: Id,
    eventType: EventType,
    priority: Priority,
    payload: string,
    timestamp: TimePoint,
    deadline: TimePoint)
  {
    /** The deadline as an optional instant: None for the sentinel. */
    function Deadline(): (d: Option<TimePoint>)
      ensures d.None? <==> deadline == TimeMax
      ensures d.Some? ==> d.value == deadline
    {
      if deadline == TimeMax then None else Some(deadline)
    }

    /**
     * True when the event has a deadline and the clock reading `now` is
     * strictly later than it.
     */
    function IsPastDeadline(now: TimePoint): (past: bool)
      ensures past <==> Deadline().Some? && now > Deadline().value
    {
      deadline != TimeMax && now > deadline
    }

    /** Replaces the deadline and nothing else. */
    function SetDeadline(d: TimePoint): (e: Event)
      ensures e.deadline == d
      ensures e.id == id && e.eventType == eventType && e.priority == priority
      ensures e.payload == payload && e.timestamp == timestamp
    {
      this.(deadline := d)
    }
  }

  /**
   * The event constructor: the given id, type, priority and payload, the
   * creation instant `now`, and no deadline.
   */
  function NewEvent(id: Id, eventType: EventType, priority: Priority, payload: string, now: TimePoint): (e: Event)
    ensures e.id == id && e.eventType == eventType && e.priority == priority && e.payload == payload
    ensures e.timestamp == now
    ensures e.Deadline() == None
    ensures forall t: TimePoint :: !e.IsPastDeadline(t)
  {
    Event(id, eventType, priority, payload, now, TimeMax)
  }

  /** `lhs < rhs`: the events compare by priority alone. */
  predicate EventLess(lhs: Event, rhs: Event) {
    PriorityLess(lhs.priority, rhs.priority)
  }

  /** `lhs > rhs`: the events compare by priority alone. */
  predicate EventGreater(lhs: Event, rhs: Event) {
    PriorityLess(rhs.priority, lhs.priority)
  }

  /**
   * The two operators are mirror images, order by priority, and leave two
   * events of equal priority unordered (there is no tie-break).
   */
  lemma EventOrderByPriority(a: Event, b: Event, c: Event)
    ensures EventGreater(a, b) <==> EventLess(b, a)
    ensures EventLess(a, b) <==> Rank(a.priority) < Rank(b.priority)
    ensures !EventLess(a, b) && !EventLess(b, a) <==> a.priority == b.priority
    ensures EventLess(a, b) && EventLess(b, c) ==> EventLess(a, c)
    ensures !EventLess(a, a)
  {
  }

  /** An event with no deadline is never past it, whatever the clock says. */
  lemma NoDeadlineNeverPast(e: Event, now: TimePoint)
    requires e.deadline == TimeMax
    ensures !e.IsPastDeadline(now)
  {
  }

  /**
   * After `SetDeadline(d)` with a real deadline, the event is past it exactly
   * when the clock is strictly later than `d`; a deadline equal to now is not past.
   */
  lemma SetDeadlineThenPast(e: Event, d: TimePoint, now: TimePoint)
    requires d != TimeMax
    ensures e.SetDeadline(d).IsPastDeadline(now) <==> now > d
    ensures !e.SetDeadline(d).IsPastDeadline(d)
  {
  }

  /** Setting a deadline twice keeps only the second. */
  lemma SetDeadlineLastWins(e: Event, d1: TimePoint, d2: TimePoint)
    ensures e.SetDeadline(d1).SetDeadline(d2) == e.SetDeadline(d2)
  {
  }
}
