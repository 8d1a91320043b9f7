/**
 * The execution queue: a clock and the pending items, each stamped with the
 * time it is due. Instructions enter the queue stamped `now + delay`; the
 * simulation pops every item due exactly now and moves the clock to the
 * earliest pending stamp.
 *
 * Queue items are distinct objects in the source even when their fields
 * agree, so each item here carries an identity drawn from `nextId`.
 */
module ExecutionQueue {
  import opened Wrappers
  import opened Counters
  import opened Objects
  import opened Seqs
  import opened Nets
  import opened Events
  import opened Instructions

  const Unsupported := "Instruction type not supported."

  datatype ScheduleType = Fixed | ArrivalRate

  datatype Payload =
    | EndEventItem(event: Event, execution: Execution)
    | StartEventItem(activity: string, inputBinding: Binding, eventDuration: Option<int>)
    | ObjectCreationItem(otype: Option<string>, attributes: map<string, AttrValue>, quantities: Counter,
                         location: Option<set<nat>>, addToBinding: bool, scheduleType: Option<ScheduleType>,
                         o2o: map<Token, string>)
    | AttributeChangeItem(obj: Token, attributeChanges: map<string, AttrValue>)
    | QuantityChangeItem(obj: Token, quantityChanges: Counter)
    | StatusChangeItem(obj: Token, status: Status)

  datatype QueueItem = QueueItem(id: nat, time: int, payload: Payload)

  datatype Queue = Queue(items: seq<QueueItem>, now: int, nextId: nat)

  /** Every pending item has its own identity, drawn before `nextId`. */
  ghost predicate Valid(q: Queue) {
    && Distinct(q.items)
    && (forall i | 0 <= i < |q.items| :: q.items[i].id < q.nextId)
    && (forall i, j | 0 <= i < j < |q.items| :: q.items[i].id != q.items[j].id)
  }

  /** `ExecutionQueue(config)`: the clock at the configured initial time, nothing pending. */
  function NewQueue(initialTime: int, firstId: nat): (q: Queue)
    ensures q.items == [] && q.now == initialTime
    ensures Valid(q)
  {
    Queue([], initialTime, firstId)
  }

  // ---------------------------------------------------------------------------
  // add_instruction

  /**
   * The queue item an instruction becomes: each of the six instruction kinds
   * has its own item kind, a schedule type is recorded on object creations
   * only, and any other instruction raises.
   */
  function PayloadOf(ins: Instruction, schedule: Option<ScheduleType>): (r: Result<Payload>)
    ensures r.Err? <==> ins.PlainInstruction?
    ensures r.Err? ==> r.error == ValueError(Unsupported)
  {
    match ins
    case ExecuteEvent(_, activity, input, duration, _, _, _) => Ok(StartEventItem(activity, input, duration))
    case ObjectCreation(_, ot, attrs, qs, loc, add, o2o) =>
      Ok(ObjectCreationItem(ot, attrs, qs, loc, add, schedule, o2o))
    case TerminateEvent(_, e, x) => Ok(EndEventItem(e, x))
    case ObjectStatusUpdate(_, o, st) => Ok(StatusChangeItem(o, st))
    case ObjectAttributeUpdate(_, o, changes) => Ok(AttributeChangeItem(o, changes))
    case ObjectQuantityUpdate(_, o, changes) => Ok(QuantityChangeItem(o, changes))
    case PlainInstruction(_) => Err(ValueError(Unsupported))
  }

  /** The instruction an item was made from, read back (the delay is the stamp minus the time it was added). */
  function InstructionOf(p: Payload, delay: int): Instruction {
    match p
    case StartEventItem(activity, input, duration) => ExecuteEvent(delay, activity, input, duration, None, {}, map[])
    case ObjectCreationItem(ot, attrs, qs, loc, add, _, o2o) => ObjectCreation(delay, ot, attrs, qs, loc, add, o2o)
    case EndEventItem(e, x) => TerminateEvent(delay, e, x)
    case StatusChangeItem(o, st) => ObjectStatusUpdate(delay, o, st)
    case AttributeChangeItem(o, changes) => ObjectAttributeUpdate(delay, o, changes)
    case QuantityChangeItem(o, changes) => ObjectQuantityUpdate(delay, o, changes)
  }

  /**
   * The item keeps everything the instruction carries: reading it back gives
   * the instruction, save for the event-start fields that only exist once
   * the event runs.
   */
  lemma PayloadRoundTrip(ins: Instruction, schedule: Option<ScheduleType>)
    requires !ins.PlainInstruction?
    ensures ins.ExecuteEvent? ==>
      InstructionOf(PayloadOf(ins, schedule).value, ins.delay)
        == ins.(eventSlot := None, additionalObjects := {}, finalBinding := map[])
    ensures !ins.ExecuteEvent? ==> InstructionOf(PayloadOf(ins, schedule).value, ins.delay) == ins
    ensures ins.ObjectCreation? <==> PayloadOf(ins, schedule).value.ObjectCreationItem?
    ensures ins.ObjectCreation? ==> PayloadOf(ins, schedule).value.scheduleType == schedule
  {
  }

  /** `add_instruction`: appends one item, due at the current time plus the instruction's delay. */
  function AddInstruction(q: Queue, ins: Instruction, schedule: Option<ScheduleType>): (r: Result<Queue>)
    ensures r.Ok? <==> !ins.PlainInstruction?
    ensures r.Err? ==> r.error == ValueError(Unsupported)
    ensures r.Ok? ==>
      && r.value.now == q.now
      && r.value.nextId == q.nextId + 1
      && r.value.items == q.items + [QueueItem(q.nextId, q.now + ins.delay, PayloadOf(ins, schedule).value)]
  {
    var p :- PayloadOf(ins, schedule);
    Ok(q.(items := q.items + [QueueItem(q.nextId, q.now + ins.delay, p)], nextId := q.nextId + 1))
  }

  /** Adding keeps the queue valid. */
  lemma AddInstructionValid(q: Queue, ins: Instruction, schedule: Option<ScheduleType>)
    requires Valid(q) && !ins.PlainInstruction?
    ensures Valid(AddInstruction(q, ins, schedule).value)
  {
    var it := QueueItem(q.nextId, q.now + ins.delay, PayloadOf(ins, schedule).value);
    var items := AddInstruction(q, ins, schedule).value.items;
    assert items == q.items + [it];
    forall i | 0 <= i < |q.items| ensures q.items[i] != it {
    }
    DistinctAppend(q.items, it);
  }

  lemma DistinctAppend<T>(s: seq<T>, x: T)
    requires Distinct(s)
    requires forall i | 0 <= i < |s| :: s[i] != x
    ensures Distinct(s + [x])
  {
    forall i, j | 0 <= i < j < |s + [x]| ensures (s + [x])[i] != (s + [x])[j] {
      if j < |s| {
        assert (s + [x])[i] == s[i] && (s + [x])[j] == s[j];
      }
    }
  }

  // ---------------------------------------------------------------------------
  // Popping the items due now

  /** `get_current_items`: the pending items due exactly now. */
  function CurrentItems(q: Queue): (r: set<QueueItem>)
    ensures forall it :: it in r <==> it in q.items && it.time == q.now
  {
    set it | it in q.items && it.time == q.now
  }

  /** The items not due at `t`, in queue order. */
  function NotDueAt(items: seq<QueueItem>, t: int): (r: seq<QueueItem>)
    decreases |items|
  {
    if items == [] then []
    else if items[0].time == t then NotDueAt(items[1..], t)
    else [items[0]] + NotDueAt(items[1..], t)
  }

  lemma {:induction false} NotDueAtMeaning(items: seq<QueueItem>, t: int)
    ensures forall it :: it in NotDueAt(items, t) <==> it in items && it.time != t
    ensures Distinct(items) ==> Distinct(NotDueAt(items, t))
    decreases |items|
  {
    if items != [] {
      NotDueAtMeaning(items[1..], t);
      assert forall it :: it in items <==> it == items[0] || it in items[1..];
      if Distinct(items) {
        DistinctTail(items);
        if items[0].time != t {
          assert items[0] !in items[1..] by {
            forall i | 0 <= i < |items[1..]| ensures items[1..][i] != items[0] {
              assert items[1..][i] == items[i + 1];
            }
          }
          DistinctPrepend(items[0], NotDueAt(items[1..], t));
        }
      }
    }
  }

  lemma DistinctPrepend<T>(x: T, s: seq<T>)
    requires Distinct(s) && x !in s
    ensures Distinct([x] + s)
  {
    forall i, j | 0 <= i < j < |[x] + s| ensures ([x] + s)[i] != ([x] + s)[j] {
      if i == 0 {
        assert ([x] + s)[j] == s[j - 1];
      } else {
        assert ([x] + s)[i] == s[i - 1] && ([x] + s)[j] == s[j - 1];
      }
    }
  }

  /** `get_and_remove_current_items`: the items due now, and the queue without them. */
  function GetAndRemoveCurrentItems(q: Queue): (r: (set<QueueItem>, Queue))
  {
    (CurrentItems(q), q.(items := NotDueAt(q.items, q.now)))
  }

  /**
   * Popping splits the pending items: those due now are returned, every
   * other one stays queued, nothing is lost or invented, and the clock does
   * not move.
   */
  lemma GetAndRemoveMeaning(q: Queue)
    ensures var (popped, q2) := GetAndRemoveCurrentItems(q);
      && q2.now == q.now && q2.nextId == q.nextId
      && (forall it :: it in popped <==> it in q.items && it.time == q.now)
      && (forall it :: it in q2.items <==> it in q.items && it.time != q.now)
      && (forall it :: it in q.items <==> it in popped || it in q2.items)
      && CurrentItems(q2) == {}
    ensures Valid(q) ==> Valid(GetAndRemoveCurrentItems(q).1)
  {
    NotDueAtMeaning(q.items, q.now);
  }

  /** Two items due at 10 are popped together at 10 while the one due at 15 stays. */
  lemma PopTwoOfThree(a: Payload, b: Payload, c: Payload)
    ensures var q := Queue([QueueItem(0, 10, a), QueueItem(1, 15, b), QueueItem(2, 10, c)], 10, 3);
      && GetAndRemoveCurrentItems(q).0 == {QueueItem(0, 10, a), QueueItem(2, 10, c)}
      && GetAndRemoveCurrentItems(q).1.items == [QueueItem(1, 15, b)]
  {
    var q := Queue([QueueItem(0, 10, a), QueueItem(1, 15, b), QueueItem(2, 10, c)], 10, 3);
    var s := q.items;
    assert s[1..][1..][1..] == [];
    assert NotDueAt(s[1..][1..], 10) == [];
    assert NotDueAt(s[1..], 10) == [QueueItem(1, 15, b)];
  }

  // ---------------------------------------------------------------------------
  // update_time

  /** The smallest stamp of a non-empty list of items. */
  function MinTime(items: seq<QueueItem>): (m: int)
    requires items != []
    decreases |items|
  {
    if |items| == 1 then items[0].time
    else var rest := MinTime(items[1..]); if items[0].time < rest then items[0].time else rest
  }

  lemma {:induction false} MinTimeMeaning(items: seq<QueueItem>)
    requires items != []
    ensures forall i | 0 <= i < |items| :: MinTime(items) <= items[i].time
    ensures exists i | 0 <= i < |items| :: items[i].time == MinTime(items)
    decreases |items|
  {
    if |items| == 1 {
      assert items[0].time == MinTime(items);
    } else {
      MinTimeMeaning(items[1..]);
      var j :| 0 <= j < |items[1..]| && items[1..][j].time == MinTime(items[1..]);
      assert items[j + 1] == items[1..][j];
      if items[0].time < MinTime(items[1..]) {
        assert items[0].time == MinTime(items);
      } else {
        assert items[j + 1].time == MinTime(items);
      }
      forall i | 1 <= i < |items| ensures MinTime(items) <= items[i].time {
        assert items[i] == items[1..][i - 1];
      }
    }
  }

  /** `update_time`: the clock moves to the earliest pending stamp; an empty queue keeps its time. */
  function UpdateTime(q: Queue): (r: Queue)
    ensures r.items == q.items && r.nextId == q.nextId
    ensures q.items == [] ==> r.now == q.now
  {
    if q.items == [] then q else q.(now := MinTime(q.items))
  }

  /**
   * After the update no pending item is overdue and, unless the queue is
   * empty, some item is due now, so the next pop returns something. The
   * clock never moves back while nothing pending is overdue.
   */
  lemma UpdateTimeMeaning(q: Queue)
    ensures forall i | 0 <= i < |q.items| :: UpdateTime(q).now <= q.items[i].time
    ensures q.items != [] ==> CurrentItems(UpdateTime(q)) != {}
    ensures (forall i | 0 <= i < |q.items| :: q.now <= q.items[i].time) ==> q.now <= UpdateTime(q).now
  {
    if q.items != [] {
      MinTimeMeaning(q.items);
      var i :| 0 <= i < |q.items| && q.items[i].time == MinTime(q.items);
      assert q.items[i] in CurrentItems(UpdateTime(q));
    }
  }

  /** An instruction with no delay is popped at the very next step. */
  lemma ImmediateInstructionPopped(q: Queue, ins: Instruction, schedule: Option<ScheduleType>)
    requires !ins.PlainInstruction? && ins.delay == 0
    ensures var q2 := AddInstruction(q, ins, schedule).value;
      QueueItem(q.nextId, q.now, PayloadOf(ins, schedule).value) in GetAndRemoveCurrentItems(q2).0
  {
  }

  // ---------------------------------------------------------------------------
  // The `queue` view

  predicate SortedByTime(s: seq<QueueItem>) {
    forall i, j | 0 <= i < j < |s| :: s[i].time <= s[j].time
  }

  /** Places `x` before the first item due no earlier than it. */
  function InsertByTime(x: QueueItem, s: seq<QueueItem>): (r: seq<QueueItem>)
    requires SortedByTime(s)
    ensures SortedByTime(r)
    ensures multiset(r) == multiset(s) + multiset{x}
    decreases |s|
  {
    if s == [] || x.time <= s[0].time then [x] + s
    else
      var rest := InsertByTime(x, s[1..]);
      assert multiset(s) == multiset{s[0]} + multiset(s[1..]) by {
        assert s == [s[0]] + s[1..];
      }
      assert forall k | 0 <= k < |rest| :: s[0].time <= rest[k].time by {
        forall k | 0 <= k < |rest| ensures s[0].time <= rest[k].time {
          assert rest[k] in multiset(rest);
          assert rest[k] == x || rest[k] in multiset(s[1..]);
          if rest[k] != x {
            var j :| 0 <= j < |s[1..]| && s[1..][j] == rest[k];
            assert s[j + 1] == rest[k];
          }
        }
      }
      [s[0]] + rest
  }

  /** `queue`: the pending items sorted by due time (an insertion sort, equal stamps in queue order). */
  function SortedQueue(items: seq<QueueItem>): (r: seq<QueueItem>)
    ensures SortedByTime(r)
    ensures multiset(r) == multiset(items)
    decreases |items|
  {
    if items == [] then []
    else
      assert items == [items[0]] + items[1..];
      InsertByTime(items[0], SortedQueue(items[1..]))
  }

  /** The sorted view starts with the items due first: with the clock updated, its head is due now. */
  lemma SortedQueueHeadIsDue(q: Queue)
    requires q.items != []
    ensures SortedQueue(q.items)[0].time == UpdateTime(q).now
  {
    var s := SortedQueue(q.items);
    assert |s| == |multiset(q.items)| == |q.items|;
    MinTimeMeaning(q.items);
    assert s[0] in multiset(q.items);
    var i :| 0 <= i < |q.items| && q.items[i].time == MinTime(q.items);
    assert q.items[i] in multiset(s);
    var j :| 0 <= j < |s| && s[j] == q.items[i];
    assert s[0].time <= s[j].time;
  }
}
