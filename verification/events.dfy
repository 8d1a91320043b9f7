/**
 * Events of the log: the record an activity execution leaves behind.
 *
 * An event is named after the global event count at its construction, is
 * linked to the objects of the binding it starts with, and on termination
 * checks that the execution it ends binds exactly those objects before
 * taking over the execution's collected quantity operations. The hooks
 * `_execute_event_start` / `_execute_event_end` are user code; their
 * returned instructions are not part of the event's own state.
 */
module Events {
  import opened Wrappers
  import opened Objects
  import opened Places
  import opened Transitions
  import opened Nets
  import Decimal

  const BindingChanged := "Binding function used to terminate event does not contain the same objects as the one used to initiate the event."

  /** Times and durations are integers in one unit (a timedelta's total count). */
  datatype Event = Event(
    activity: string,
    name: string,
    lbl: Option<string>,
    timestamp: int,
    objects: set<Token>,
    quantityOps: CollectionCounter,
    endTimestamp: Option<int>,
    duration: int,
    logEvent: bool)

  /** The name of the event created when the global event count is `count`. */
  function EventName(count: nat): string {
    "ev-" + Decimal.NatToString(count)
  }

  /** Events created from distinct counts carry distinct names. */
  lemma EventNamesDistinct(m: nat, n: nat)
    requires m != n
    ensures EventName(m) != EventName(n)
  {
    Decimal.PrefixedNameInjective("ev-", m, n);
  }

  /**
   * `Event(timestamp, label, properties, duration)` of the activity
   * `activity` when the global count is `count`; returns the event and the
   * incremented count. A missing (or zero) duration is zero; an empty label
   * is no label.
   */
  function NewEvent(count: nat, activity: string, logActivity: bool, timestamp: int,
                    lbl: Option<string>, duration: Option<int>): (r: (Event, nat))
    ensures r.1 == count + 1
    ensures r.0.name == EventName(count) && r.0.activity == activity && r.0.timestamp == timestamp
    ensures r.0.objects == {} && r.0.quantityOps == map[] && r.0.endTimestamp.None?
    ensures r.0.duration == (if duration.Some? then duration.value else 0)
    ensures r.0.lbl.Some? <==> lbl.Some? && lbl.value != ""
    ensures r.0.logEvent == logActivity
  {
    var l := if lbl.Some? && lbl.value != "" then lbl else None;
    var d := if duration.Some? && duration.value != 0 then duration.value else 0;
    (Event(activity, EventName(count), l, timestamp, {}, map[], None, d, logActivity), count + 1)
  }

  /** `add_end_timestamp`: overwrites the end timestamp. */
  function AddEndTimestamp(e: Event, timestamp: int): (r: Event)
    ensures r.endTimestamp == Some(timestamp)
  {
    e.(endTimestamp := Some(timestamp))
  }

  /** `add_duration`: overwrites the duration. */
  function AddDuration(e: Event, duration: int): (r: Event)
    ensures r.duration == duration
  {
    e.(duration := duration)
  }

  /** Only the last duration and end timestamp written are kept, and each setter touches only its own field. */
  lemma SettersOverwrite(e: Event, d1: int, d2: int, t1: int, t2: int)
    ensures AddDuration(AddDuration(e, d1), d2) == AddDuration(e, d2)
    ensures AddEndTimestamp(AddEndTimestamp(e, t1), t2) == AddEndTimestamp(e, t2)
    ensures AddDuration(AddEndTimestamp(e, t1), d1) == AddEndTimestamp(AddDuration(e, d1), t1)
    ensures AddDuration(e, e.duration) == e
  {
  }

  /**
   * `start_event`: links every object of the binding to the event (the
   * user hook's instructions are returned by the caller).
   */
  function StartEvent(e: Event, b: Binding): (r: Event)
    ensures r == e.(objects := r.objects)
    ensures forall o :: o in r.objects <==> o in e.objects || exists ot | ot in b :: o in b[ot]
  {
    e.(objects := e.objects + BoundObjects(b))
  }

  /**
   * `end_event`: raises unless the event's objects are exactly those bound by
   * the execution, and otherwise takes over the execution's collected
   * quantity operations.
   */
  function EndEvent(e: Event, x: Execution): (r: Result<Event>)
    ensures r.Ok? <==> e.objects == BoundObjects(x.texec.binding)
    ensures r.Err? ==> r.error == ValueError(BindingChanged)
    ensures r.Ok? ==> r.value == e.(quantityOps := x.texec.ops)
  {
    if e.objects <= BoundObjects(x.texec.binding) && BoundObjects(x.texec.binding) <= e.objects then
      Ok(e.(quantityOps := x.texec.ops))
    else Err(ValueError(BindingChanged))
  }

  /**
   * An event started with a binding ends without complaint with an
   * execution of that same binding and then records the execution's
   * quantity operations; an execution that binds one more object is refused.
   */
  lemma StartThenEndEvent(e: Event, b: Binding, x: Execution, extra: Token, ot: string)
    requires e.objects == {}
    requires x.texec.binding == b
    ensures EndEvent(StartEvent(e, b), x) == Ok(StartEvent(e, b).(quantityOps := x.texec.ops))
    ensures extra !in BoundObjects(b) ==>
      EndEvent(StartEvent(e, b), x.(texec := x.texec.(binding := b[ot := (if ot in b then b[ot] else {}) + {extra}]))).Err?
  {
    var s := StartEvent(e, b);
    assert s.objects == BoundObjects(b);
    if extra !in BoundObjects(b) {
      var b2 := b[ot := (if ot in b then b[ot] else {}) + {extra}];
      assert extra in b2[ot];
      assert extra in BoundObjects(b2);
    }
  }
}
