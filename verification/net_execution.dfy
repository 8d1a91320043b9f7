/**
 * The simulation's use of the net: which activities can start with
 * objects that are all active, starting and terminating an event (firing
 * the transition, moving the objects' statuses, scheduling the end), the
 * final markings objects are checked against, and the object counts the
 * initial-marking configuration asks for.
 *
 * The activity classes and object-type classes the source creates at run
 * time are their names here: `identify_activity` raises for a name that is
 * not a registered activity and otherwise returns it, and
 * `identify_object_type` turns a name that is not a registered object type
 * into `None`.
 */
module NetExecution {
  import opened Wrappers
  import opened Counters
  import opened Objects
  import opened Elements
  import opened Places
  import opened Seqs
  import opened Transitions
  import opened TransitionBindings
  import opened TransitionFiring
  import opened Nets
  import opened NetFiring
  import opened NetMarkings
  import opened Events
  import opened Instructions

  const TypeNotFound := "Object type not found."
  const ActivityNotFound := "Passed activity cannot be identified within simulation."

  /**
   * The part of the simulation state the execution steps touch, with the
   * names of the registered activities and object types.
   */
  datatype Sim = Sim(
    net: Net,
    status: map<Token, Status>,
    finalMarkings: map<string, seq<set<Name>>>,
    logged: seq<Event>,
    activities: set<string>,
    objectTypes: set<string>)

  /** `identify_activity` on a transition's activity name: a name that is not a registered activity raises. */
  predicate Registered(activities: set<string>, n: Name) {
    n.Str? && n.s in activities
  }

  /**
   * The loop over the instructions a hook returns: an event start names its
   * activity, which must be registered, and an object creation's type is
   * identified, becoming `None` when it is not a registered object type.
   */
  function IdentifyReturned(activities: set<string>, objectTypes: set<string>, ins: seq<Instruction>): (r: Result<seq<Instruction>>)
    ensures r.Ok? <==> forall i | 0 <= i < |ins| && ins[i].ExecuteEvent? :: ins[i].activity in activities
    ensures r.Err? ==> r.error == ValueError(ActivityNotFound)
    ensures r.Ok? ==> |r.value| == |ins|
    ensures r.Ok? ==> forall i | 0 <= i < |ins| && !ins[i].ObjectCreation? :: r.value[i] == ins[i]
    ensures r.Ok? ==> forall i | 0 <= i < |ins| && ins[i].ObjectCreation? ::
      r.value[i] == ins[i].(otype := if ins[i].otype.Some? && ins[i].otype.value in objectTypes then ins[i].otype else None)
    decreases |ins|
  {
    if ins == [] then Ok([])
    else
      var x := ins[0];
      if x.ExecuteEvent? && x.activity !in activities then Err(ValueError(ActivityNotFound))
      else
        var rest :- IdentifyReturned(activities, objectTypes, ins[1..]);
        assert forall i | 1 <= i < |ins| :: ins[i] == ins[1..][i - 1];
        var y := if x.ObjectCreation? && !(x.otype.Some? && x.otype.value in objectTypes) then x.(otype := None) else x;
        Ok([y] + rest)
  }

  /** Identifying the returned instructions a second time changes nothing. */
  lemma IdentifyReturnedIdempotent(activities: set<string>, objectTypes: set<string>, ins: seq<Instruction>)
    requires IdentifyReturned(activities, objectTypes, ins).Ok?
    ensures IdentifyReturned(activities, objectTypes, IdentifyReturned(activities, objectTypes, ins).value)
      == IdentifyReturned(activities, objectTypes, ins)
  {
    var once := IdentifyReturned(activities, objectTypes, ins).value;
    var twice := IdentifyReturned(activities, objectTypes, once).value;
    assert |twice| == |once|;
    forall i | 0 <= i < |once| ensures twice[i] == once[i] {
    }
  }

  /** An object counts as active when its recorded status is `Active`. */
  predicate IsActive(status: map<Token, Status>, o: Token) {
    o in status && status[o] == Active
  }

  function ActiveObjects(status: map<Token, Status>): (r: set<Token>)
    ensures forall o :: o in r <==> IsActive(status, o)
  {
    set o | o in status && status[o] == Active
  }

  predicate AllActive(b: Binding, status: map<Token, Status>) {
    forall o | o in BoundObjects(b) :: IsActive(status, o)
  }

  /**
   * `check_object_status_in_enabled_binding`: walks the bound objects and
   * answers false at the first one that is not active.
   */
  method CheckObjectStatusInBinding(b: Binding, status: map<Token, Status>) returns (r: bool)
    ensures r <==> forall ot, o | ot in b && o in b[ot] :: IsActive(status, o)
  {
    var todo := BoundObjects(b);
    var seen: set<Token> := {};
    while todo != {}
      invariant todo + seen == BoundObjects(b)
      invariant forall o | o in seen :: IsActive(status, o)
      decreases |todo|
    {
      var o :| o in todo;
      if !IsActive(status, o) {
        return false;
      }
      todo := todo - {o};
      seen := seen + {o};
    }
    return true;
  }

  // ---------------------------------------------------------------------------
  // get_enabled_activities

  /** The activity a transition stands for: its label when it has one, else its name. */
  function ActivityName(t: Transition): Name {
    if t.lbl.Some? then t.lbl.value else t.name
  }

  /** No two transitions stand for the same activity. */
  predicate UniqueActivityNames(net: Net) {
    forall id1, id2 | id1 in net.transitions && id2 in net.transitions && id1 != id2 ::
      ActivityName(net.transitions[id1]) != ActivityName(net.transitions[id2])
  }

  /** The dict comprehension re-keying the bindings by activity, over the transitions in the order `ids`. */
  function KeyByActivity(net: Net, m: map<nat, seq<Binding>>, ids: seq<nat>): (r: map<Name, seq<Binding>>)
    decreases |ids|
  {
    if ids == [] then map[]
    else
      var last := ids[|ids| - 1];
      var acc := KeyByActivity(net, m, ids[..|ids| - 1]);
      if last in m && last in net.transitions then acc[ActivityName(net.transitions[last]) := m[last]] else acc
  }

  /** With unique activity names, every transition listed keeps its bindings under its activity, and nothing else appears. */
  lemma {:induction false} KeyByActivityMeaning(net: Net, m: map<nat, seq<Binding>>, ids: seq<nat>)
    requires UniqueActivityNames(net)
    ensures forall id | id in ids && id in m && id in net.transitions ::
      ActivityName(net.transitions[id]) in KeyByActivity(net, m, ids)
      && KeyByActivity(net, m, ids)[ActivityName(net.transitions[id])] == m[id]
    ensures forall k | k in KeyByActivity(net, m, ids) ::
      exists id | id in ids && id in m && id in net.transitions :: ActivityName(net.transitions[id]) == k
    decreases |ids|
  {
    if ids != [] {
      var front := ids[..|ids| - 1];
      KeyByActivityMeaning(net, m, front);
      assert forall id :: id in ids <==> id in front || id == ids[|ids| - 1] by {
        assert ids == front + [ids[|ids| - 1]];
      }
    }
  }

  /** The bindings whose objects are all active, in order. */
  function FilterActive(bs: seq<Binding>, status: map<Token, Status>): (r: seq<Binding>)
    ensures forall b :: b in r <==> b in bs && AllActive(b, status)
    decreases |bs|
  {
    if bs == [] then []
    else
      assert forall b :: b in bs <==> b == bs[0] || b in bs[1..];
      (if AllActive(bs[0], status) then [bs[0]] else []) + FilterActive(bs[1..], status)
  }

  /** When every binding is all-active, filtering keeps the list as it is. */
  lemma {:induction false} FilterActiveKeepsAll(bs: seq<Binding>, status: map<Token, Status>)
    requires forall i | 0 <= i < |bs| :: AllActive(bs[i], status)
    ensures FilterActive(bs, status) == bs
    decreases |bs|
  {
    if bs != [] {
      FilterActiveKeepsAll(bs[1..], status);
      assert bs == [bs[0]] + bs[1..];
    }
  }

  /**
   * `get_enabled_activities`: the enabled bindings of every transition,
   * keyed by activity, restricted to bindings whose objects are all active,
   * dropping activities left with none.
   */
  ghost function GetEnabledActivities(net: Net, activities: set<string>, status: map<Token, Status>): Result<map<Name, seq<Binding>>> {
    var m :- EnabledBindingsAllTransitions(net, ActiveObjects(status));
    if exists id | id in m && id in net.transitions :: !Registered(activities, ActivityName(net.transitions[id])) then
      Err(ValueError(ActivityNotFound))
    else
      var named := KeyByActivity(net, m, SetToSeq(m.Keys));
      Ok(map k | k in named && FilterActive(named[k], status) != [] :: FilterActive(named[k], status))
  }

  /** An enumerated binding only binds eligible objects, so all of them are active. */
  lemma EnumerableIsAllActive(t: Transition, places: map<nat, Place>, status: map<Token, Status>, b: Binding)
    requires Enumerable(t, places, ActiveObjects(status), b)
    ensures AllActive(b, status)
  {
    forall o | o in BoundObjects(b) ensures IsActive(status, o) {
      var ot :| ot in b && o in b[ot];
      assert TypeAdmissible(t, places, ActiveObjects(status), ot, b[ot]);
      assert o in Eligible(t, places, ActiveObjects(status), ot);
    }
  }

  /**
   * The activities raise exactly when some enumeration raises or some
   * transition with enabled bindings stands for an unregistered activity;
   * when no enumeration raises, the raise is the `ValueError` of
   * `identify_activity`.
   */
  lemma GetEnabledActivitiesRaises(net: Net, activities: set<string>, status: map<Token, Status>)
    ensures GetEnabledActivities(net, activities, status).Ok? <==>
      && (forall id' | Scanned(net, id') :: Enumeration(net, ActiveObjects(status), id').Ok?)
      && (forall id' | Scanned(net, id') && Enumeration(net, ActiveObjects(status), id').Ok? && Enumeration(net, ActiveObjects(status), id').value.Some? ::
            Registered(activities, ActivityName(net.transitions[id'])))
    ensures (forall id' | Scanned(net, id') :: Enumeration(net, ActiveObjects(status), id').Ok?) ==>
      GetEnabledActivities(net, activities, status).Err? ==> GetEnabledActivities(net, activities, status).error == ValueError(ActivityNotFound)
  {
    var active := ActiveObjects(status);
    EnabledBindingsAllTransitionsRaises(net, active);
    if EnabledBindingsAllTransitions(net, active).Ok? {
      var m := EnabledBindingsAllTransitions(net, active).value;
      KeyedTransitions(net, active);
      if exists id | id in m && id in net.transitions :: !Registered(activities, ActivityName(net.transitions[id])) {
        var id :| id in m && id in net.transitions && !Registered(activities, ActivityName(net.transitions[id]));
        assert GetEnabledActivities(net, activities, status) == Err(ValueError(ActivityNotFound));
        assert Scanned(net, id) && Enumeration(net, active, id).value.Some?;
      } else {
        assert GetEnabledActivities(net, activities, status).Ok?;
        forall id' | Scanned(net, id') && Enumeration(net, active, id').Ok? && Enumeration(net, active, id').value.Some?
          ensures Registered(activities, ActivityName(net.transitions[id']))
        {
          assert id' in m;
        }
      }
    }
  }

  /** The enabled-bindings map has a key exactly for the scanned transitions whose enumeration is not `None`. */
  lemma KeyedTransitions(net: Net, active: set<Token>)
    requires EnabledBindingsAllTransitions(net, active).Ok?
    ensures forall id' :: id' in EnabledBindingsAllTransitions(net, active).value <==>
      Scanned(net, id') && Enumeration(net, active, id').Ok? && Enumeration(net, active, id').value.Some?
  {
    EnabledBindingsAllTransitionsRaises(net, active);
    forall id' ensures id' in EnabledBindingsAllTransitions(net, active).value <==>
      Scanned(net, id') && Enumeration(net, active, id').Ok? && Enumeration(net, active, id').value.Some?
    {
      EnabledBindingsAllTransitionsMeaning(net, active, id', map[]);
    }
  }

  /**
   * With unique activity names: the activities raise exactly when some
   * enumeration does, or when a transition with enabled bindings stands for
   * an activity that is not registered, and the latter raises `ValueError`.
   * The activity of a transition not started by hand is offered exactly when
   * some binding of active objects is enumerable for it, and then with
   * exactly those bindings; a transition started by hand is never offered.
   */
  lemma GetEnabledActivitiesMeaning(net: Net, activities: set<string>, status: map<Token, Status>, id: nat, b: Binding)
    requires UniqueActivityNames(net)
    requires id in net.transitions
    ensures GetEnabledActivities(net, activities, status).Ok? <==>
      && (forall id' | Scanned(net, id') :: Enumeration(net, ActiveObjects(status), id').Ok?)
      && (forall id' | Scanned(net, id') && Enumeration(net, ActiveObjects(status), id').Ok? && Enumeration(net, ActiveObjects(status), id').value.Some? ::
            Registered(activities, ActivityName(net.transitions[id'])))
    ensures (forall id' | Scanned(net, id') :: Enumeration(net, ActiveObjects(status), id').Ok?) ==>
      GetEnabledActivities(net, activities, status).Err? ==> GetEnabledActivities(net, activities, status).error == ValueError(ActivityNotFound)
    ensures GetEnabledActivities(net, activities, status).Ok? ==>
      var r := GetEnabledActivities(net, activities, status).value;
      var t := net.transitions[id];
      && (ActivityName(t) in r <==>
            !t.manuallyInitiated && exists b' :: Enumerable(t, net.places, ActiveObjects(status), b'))
      && (ActivityName(t) in r ==> (b in r[ActivityName(t)] <==> Enumerable(t, net.places, ActiveObjects(status), b)))
  {
    GetEnabledActivitiesRaises(net, activities, status);
    OfferedActivity(net, activities, status, id, b);
  }

  /** The activity of transition `id` is offered exactly when it is enumerable and not started by hand, and then with `b` exactly when `b` is enumerable. */
  ghost predicate OfferedAsEnumerated(net: Net, activities: set<string>, status: map<Token, Status>, id: nat, b: Binding)
    requires id in net.transitions
  {
    GetEnabledActivities(net, activities, status).Ok? ==>
      var r := GetEnabledActivities(net, activities, status).value;
      var t := net.transitions[id];
      && (ActivityName(t) in r <==>
            !t.manuallyInitiated && exists b' :: Enumerable(t, net.places, ActiveObjects(status), b'))
      && (ActivityName(t) in r ==> (b in r[ActivityName(t)] <==> Enumerable(t, net.places, ActiveObjects(status), b)))
  }

  /** When the activities do not raise, the activity of one transition is offered with exactly its bindings of active objects. */
  lemma OfferedActivity(net: Net, activities: set<string>, status: map<Token, Status>, id: nat, b: Binding)
    requires UniqueActivityNames(net)
    requires id in net.transitions
    ensures OfferedAsEnumerated(net, activities, status, id, b)
  {
    var active := ActiveObjects(status);
    if GetEnabledActivities(net, activities, status).Ok? {
      if id in EnabledBindingsAllTransitions(net, active).value {
        OfferedKeyed(net, activities, status, id, b);
      } else {
        OfferedUnkeyed(net, activities, status, id, b);
      }
    }
  }

  /** A transition keyed in the enabled bindings is offered under its activity with all its bindings. */
  lemma OfferedKeyed(net: Net, activities: set<string>, status: map<Token, Status>, id: nat, b: Binding)
    requires UniqueActivityNames(net)
    requires id in net.transitions
    requires GetEnabledActivities(net, activities, status).Ok?
    requires id in EnabledBindingsAllTransitions(net, ActiveObjects(status)).value
    ensures OfferedAsEnumerated(net, activities, status, id, b)
  {
    KeyedOffersAll(net, activities, status, id);
    OfferOfKeyed(net, ActiveObjects(status), id, b, EnabledBindingsAllTransitions(net, ActiveObjects(status)).value,
      GetEnabledActivities(net, activities, status).value);
  }

  /** An offer listing exactly a keyed transition's enabled bindings lists exactly its enumerable bindings. */
  lemma OfferOfKeyed(net: Net, active: set<Token>, id: nat, b: Binding, m: map<nat, seq<Binding>>, r: map<Name, seq<Binding>>)
    requires id in net.transitions
    requires EnabledBindingsAllTransitions(net, active).Ok? && m == EnabledBindingsAllTransitions(net, active).value
    requires id in m
    requires ActivityName(net.transitions[id]) in r <==> m[id] != []
    requires ActivityName(net.transitions[id]) in r ==> r[ActivityName(net.transitions[id])] == m[id]
    ensures var t := net.transitions[id];
      && (ActivityName(t) in r <==> !t.manuallyInitiated && exists b' :: Enumerable(t, net.places, active, b'))
      && (ActivityName(t) in r ==> (b in r[ActivityName(t)] <==> Enumerable(t, net.places, active, b)))
  {
    var t := net.transitions[id];
    EnabledBindingsAllTransitionsMeaning(net, active, id, b);
    if exists b' :: Enumerable(t, net.places, active, b') {
      var b' :| Enumerable(t, net.places, active, b');
      EnabledBindingsAllTransitionsMeaning(net, active, id, b');
      assert b' in m[id];
    }
    if m[id] != [] {
      EnabledBindingsAllTransitionsMeaning(net, active, id, m[id][0]);
    }
  }

  /** A keyed transition's activity is offered with its enabled bindings unfiltered, since they bind active objects only. */
  lemma KeyedOffersAll(net: Net, activities: set<string>, status: map<Token, Status>, id: nat)
    requires UniqueActivityNames(net)
    requires id in net.transitions
    requires GetEnabledActivities(net, activities, status).Ok?
    requires id in EnabledBindingsAllTransitions(net, ActiveObjects(status)).value
    ensures var m := EnabledBindingsAllTransitions(net, ActiveObjects(status)).value;
      var r := GetEnabledActivities(net, activities, status).value;
      var a := ActivityName(net.transitions[id]);
      && (a in r <==> m[id] != [])
      && (a in r ==> r[a] == m[id])
  {
    var active := ActiveObjects(status);
    var m := EnabledBindingsAllTransitions(net, active).value;
    var ids := SetToSeq(m.Keys);
    var named := KeyByActivity(net, m, ids);
    var t := net.transitions[id];
    KeyByActivityMeaning(net, m, ids);
    forall i | 0 <= i < |m[id]| ensures AllActive(m[id][i], status) {
      EnabledBindingsAllTransitionsMeaning(net, active, id, m[id][i]);
      EnumerableIsAllActive(t, net.places, status, m[id][i]);
    }
    FilterActiveKeepsAll(m[id], status);
    assert named[ActivityName(t)] == m[id];
  }

  /** A transition without enabled bindings offers no activity, and it has no enumerable binding unless it is started by hand. */
  lemma OfferedUnkeyed(net: Net, activities: set<string>, status: map<Token, Status>, id: nat, b: Binding)
    requires UniqueActivityNames(net)
    requires id in net.transitions
    requires GetEnabledActivities(net, activities, status).Ok?
    requires id !in EnabledBindingsAllTransitions(net, ActiveObjects(status)).value
    ensures OfferedAsEnumerated(net, activities, status, id, b)
  {
    var active := ActiveObjects(status);
    var m := EnabledBindingsAllTransitions(net, active).value;
    var ids := SetToSeq(m.Keys);
    var named := KeyByActivity(net, m, ids);
    var t := net.transitions[id];
    KeyByActivityMeaning(net, m, ids);
    EnabledBindingsAllTransitionsMeaning(net, active, id, b);
    forall id' | id' in ids && id' in m && id' in net.transitions
      ensures ActivityName(net.transitions[id']) != ActivityName(t)
    {
      assert id' != id;
    }
    assert ActivityName(t) !in named;
    if !t.manuallyInitiated {
      forall b' ensures !Enumerable(t, net.places, active, b') {
        var e := DetermineNewBindingFunctions(t, net.places, active);
        assert e == Enumeration(net, active, id);
        DetermineNewBindingFunctionsMeaning(t, net.places, active, b');
      }
    }
  }

  // ---------------------------------------------------------------------------
  // execute_event_start

  /** Every object of `objs` gets status `Active`; every other status stays. */
  function SetActive(status: map<Token, Status>, objs: set<Token>): (r: map<Token, Status>)
    ensures forall o | o in objs :: IsActive(r, o)
    ensures forall o | o !in objs :: (o in r <==> o in status) && (o in status ==> r[o] == status[o])
  {
    map o | o in status.Keys + objs :: if o in objs then Active else status[o]
  }

  /**
   * `execute_event_start`: the objects of the final binding become active,
   * the transition of the activity starts firing with that binding, the
   * event takes over the execution's quantity operations and links the
   * bound objects, and the start hook's instructions, once identified, are
   * followed by the instruction to terminate the event after its duration.
   * The hook is handed the binding and the net's quantity state, which
   * shares the collection points' counters and so already shows the
   * operations.
   */
  ghost function ExecuteEventStart(sim: Sim, ins: Instruction, execId: nat,
                                   hook: (Binding, CollectionCounter) -> seq<Instruction>): Result<(Sim, seq<Instruction>)>
    requires ins.ExecuteEvent?
  {
    var b := ins.finalBinding;
    var started :- StartFiringTransition(sim.net, NodeText(ins.activity), b, execId);
    if ins.eventSlot.None? then Err(AttributeError)
    else
      var e := StartEvent(ins.eventSlot.value.(quantityOps := started.1.texec.ops), b);
      var returned :- IdentifyReturned(sim.activities, sim.objectTypes, hook(b, NetQuantityState(started.0)));
      Ok((sim.(net := started.0, status := SetActive(sim.status, BoundObjects(b))),
          returned + [NewTerminateEvent(e, started.1)]))
  }

  /**
   * A start succeeds exactly when the instruction carries an event, the
   * transition starts and every event start the hook returns names a
   * registered activity; the last failure raises `ValueError`. Then the
   * bound objects are active and no other status moves, the execution is
   * registered, and the instructions are the hook's, handed the resulting
   * quantity state and identified, followed by one termination of the event
   * (now linked to the bound objects and holding the execution's
   * operations) due after the event's duration.
   */
  lemma ExecuteEventStartMeaning(sim: Sim, ins: Instruction, execId: nat,
                                 hook: (Binding, CollectionCounter) -> seq<Instruction>)
    requires ins.ExecuteEvent?
    ensures ExecuteEventStart(sim, ins, execId, hook).Ok? <==>
      && ins.eventSlot.Some?
      && StartFiringTransition(sim.net, NodeText(ins.activity), ins.finalBinding, execId).Ok?
      && var net2 := StartFiringTransition(sim.net, NodeText(ins.activity), ins.finalBinding, execId).value.0;
         IdentifyReturned(sim.activities, sim.objectTypes, hook(ins.finalBinding, NetQuantityState(net2))).Ok?
    ensures (&& ins.eventSlot.Some?
             && StartFiringTransition(sim.net, NodeText(ins.activity), ins.finalBinding, execId).Ok?
             && ExecuteEventStart(sim, ins, execId, hook).Err?) ==>
      ExecuteEventStart(sim, ins, execId, hook).error == ValueError(ActivityNotFound)
    ensures ExecuteEventStart(sim, ins, execId, hook).Ok? ==>
      var (sim2, out) := ExecuteEventStart(sim, ins, execId, hook).value;
      var b := ins.finalBinding;
      && |out| >= 1
      && out[..|out| - 1] == IdentifyReturned(sim.activities, sim.objectTypes, hook(b, NetQuantityState(sim2.net))).value
      && var term := out[|out| - 1];
      && term.TerminateEvent?
      && term.delay == ins.eventSlot.value.duration
      && term.execution.texec.id == execId && term.execution.texec.binding == b
      && sim2.net.executions == sim.net.executions + [term.execution]
      && term.event == ins.eventSlot.value.(objects := term.event.objects, quantityOps := term.execution.texec.ops)
      && term.event.objects == ins.eventSlot.value.objects + BoundObjects(b)
      && (forall o | o in BoundObjects(b) :: IsActive(sim2.status, o))
      && (forall o | o !in BoundObjects(b) :: (o in sim2.status <==> o in sim.status) && (o in sim.status ==> sim2.status[o] == sim.status[o]))
      && sim2.finalMarkings == sim.finalMarkings && sim2.logged == sim.logged
      && sim2.activities == sim.activities && sim2.objectTypes == sim.objectTypes
  {
    if ExecuteEventStart(sim, ins, execId, hook).Ok? {
      StartFiringTransitionRecords(sim.net, NodeText(ins.activity), ins.finalBinding, execId);
      var out := ExecuteEventStart(sim, ins, execId, hook).value.1;
      var started := StartFiringTransition(sim.net, NodeText(ins.activity), ins.finalBinding, execId).value;
      assert out[|out| - 1].execution == started.1;
    }
  }

  /**
   * The quantity state the start hook is handed shows, at every collection
   * point of the net, the stock before the start plus the operations the
   * execution collected there.
   */
  lemma StartHookSeesOperations(sim: Sim, ins: Instruction, execId: nat,
                                hook: (Binding, CollectionCounter) -> seq<Instruction>, p: nat, k: string)
    requires ins.ExecuteEvent?
    requires ExecuteEventStart(sim, ins, execId, hook).Ok?
    requires IsCollectionPointIn(sim.net.places, p)
    ensures var (sim2, out) := ExecuteEventStart(sim, ins, execId, hook).value;
      var ops := out[|out| - 1].execution.texec.ops;
      && p in NetQuantityState(sim2.net)
      && Get(NetQuantityState(sim2.net)[p], k) == Get(sim.net.places[p].data.stock, k) + (if p in ops then Get(ops[p], k) else 0)
  {
    var q := NodeText(ins.activity);
    var b := ins.finalBinding;
    ExecuteEventStartMeaning(sim, ins, execId, hook);
    var out := ExecuteEventStart(sim, ins, execId, hook).value.1;
    assert out[|out| - 1].execution == StartFiringTransition(sim.net, q, b, execId).value.1;
    StartShowsOperations(sim.net, q, b, execId, p, k);
  }

  /** After a start, each collection point holds its old stock plus the execution's operations there. */
  lemma StartShowsOperations(net: Net, q: NodeQuery, b: Binding, execId: nat, p: nat, k: string)
    requires StartFiringTransition(net, q, b, execId).Ok?
    requires IsCollectionPointIn(net.places, p)
    ensures var (net2, ex) := StartFiringTransition(net, q, b, execId).value;
      && p in NetQuantityState(net2)
      && Get(NetQuantityState(net2)[p], k) == Get(net.places[p].data.stock, k) + (if p in ex.texec.ops then Get(ex.texec.ops[p], k) else 0)
  {
    StartFiringTransitionMeaning(net, q, b, execId);
    var (net2, ex) := StartFiringTransition(net, q, b, execId).value;
    var t := net.transitions[ex.transition];
    var removed := RemoveBound(t, net.places, b);
    assert !BoundPlace(net.places, InputPlaces(t, net.places), b, p);
    assert removed[p] == net.places[p];
    assert net2.places == ExecuteQuantityOperations(removed, ex.texec.ops);
  }

  /**
   * The termination a start schedules passes the event's binding check:
   * an event that starts with no objects ends with exactly the execution's
   * objects, and ending keeps the operations it already holds.
   */
  lemma StartedEventEndsCleanly(sim: Sim, ins: Instruction, execId: nat,
                                hook: (Binding, CollectionCounter) -> seq<Instruction>)
    requires ins.ExecuteEvent? && ins.eventSlot.Some? && ins.eventSlot.value.objects == {}
    requires ExecuteEventStart(sim, ins, execId, hook).Ok?
    ensures var out := ExecuteEventStart(sim, ins, execId, hook).value.1;
      var term := out[|out| - 1];
      EndEvent(term.event, term.execution) == Ok(term.event)
  {
    ExecuteEventStartMeaning(sim, ins, execId, hook);
  }

  // ---------------------------------------------------------------------------
  // Final markings and execute_event_termination

  /** `get_location_of_object`: the names of the places holding the object. */
  function LocationNames(net: Net, o: Token): (r: set<Name>)
    ensures forall n :: n in r <==> exists id | id in LocationsOfObject(net, o) :: net.places[id].name == n
  {
    set id | id in LocationsOfObject(net, o) :: net.places[id].name
  }

  /** `check_if_object_in_final_marking`: raises for a type without final markings. */
  function CheckIfObjectInFinalMarking(net: Net, finals: map<string, seq<set<Name>>>, o: Token): (r: Result<bool>)
    ensures r.Err? <==> o.otype !in finals
    ensures r.Err? ==> r.error == KeyError
  {
    if o.otype !in finals then Err(KeyError) else Ok(LocationNames(net, o) in finals[o.otype])
  }

  /** The object is one of `objs` and its location names are one of its type's final markings. */
  predicate Finishes(net: Net, finals: map<string, seq<set<Name>>>, objs: set<Token>, o: Token) {
    o in objs && CheckIfObjectInFinalMarking(net, finals, o) == Ok(true)
  }

  /**
   * The loop at the end of `execute_event_termination`: every object of
   * `objs` in its final marking becomes terminated; a type without final
   * markings raises.
   */
  method TerminateFinishedObjects(net: Net, finals: map<string, seq<set<Name>>>, status: map<Token, Status>, objs: set<Token>)
    returns (r: Result<map<Token, Status>>)
    ensures r.Ok? <==> forall o | o in objs :: o.otype in finals
    ensures r.Err? ==> r.error == KeyError
    ensures r.Ok? ==> forall o | Finishes(net, finals, objs, o) :: o in r.value && r.value[o] == Terminated
    ensures r.Ok? ==> forall o | !Finishes(net, finals, objs, o) ::
      (o in r.value <==> o in status) && (o in status ==> r.value[o] == status[o])
  {
    var todo := objs;
    var acc := status;
    while todo != {}
      invariant todo <= objs
      invariant forall o | o in objs && o !in todo :: o.otype in finals
      invariant forall o | o !in todo && Finishes(net, finals, objs, o) :: o in acc && acc[o] == Terminated
      invariant forall o | !(o !in todo && Finishes(net, finals, objs, o)) ::
        (o in acc <==> o in status) && (o in status ==> acc[o] == status[o])
      decreases |todo|
    {
      var o :| o in todo;
      var check := CheckIfObjectInFinalMarking(net, finals, o);
      if check.Err? {
        return Err(check.error);
      }
      if check.value {
        acc := acc[o := Terminated];
      }
      todo := todo - {o};
    }
    return Ok(acc);
  }

  /**
   * `execute_event_termination`: the event checks its binding, the
   * instructions its end hook hands back (`returned`) are identified, the
   * transition ends the execution, the event is logged, and every bound
   * object that reached a final marking is terminated.
   */
  method ExecuteEventTermination(sim: Sim, ins: Instruction, returned: seq<Instruction>)
    returns (r: Result<(Sim, seq<Instruction>)>)
    requires ins.TerminateEvent?
    ensures r.Ok? <==>
      && EndEvent(ins.event, ins.execution).Ok?
      && (forall i | 0 <= i < |returned| && returned[i].ExecuteEvent? :: returned[i].activity in sim.activities)
      && EndFiringTransition(sim.net, NetByExecution(ins.execution)).Ok?
      && forall o | o in BoundObjects(ins.execution.texec.binding) :: o.otype in sim.finalMarkings
    ensures r.Ok? ==>
      var (sim2, out) := r.value;
      var bound := BoundObjects(ins.execution.texec.binding);
      && out == IdentifyReturned(sim.activities, sim.objectTypes, returned).value
      && sim2.net == EndFiringTransition(sim.net, NetByExecution(ins.execution)).value
      && sim2.logged == sim.logged + [ins.event.(quantityOps := ins.execution.texec.ops)]
      && sim2.finalMarkings == sim.finalMarkings && sim2.activities == sim.activities && sim2.objectTypes == sim.objectTypes
      && (forall o | Finishes(sim2.net, sim.finalMarkings, bound, o) :: o in sim2.status && sim2.status[o] == Terminated)
      && (forall o | !Finishes(sim2.net, sim.finalMarkings, bound, o) ::
            (o in sim2.status <==> o in sim.status) && (o in sim.status ==> sim2.status[o] == sim.status[o]))
  {
    var ended := EndEvent(ins.event, ins.execution);
    if ended.Err? {
      return Err(ended.error);
    }
    var identified := IdentifyReturned(sim.activities, sim.objectTypes, returned);
    if identified.Err? {
      return Err(identified.error);
    }
    var net2 := EndFiringTransition(sim.net, NetByExecution(ins.execution));
    if net2.Err? {
      return Err(net2.error);
    }
    var status2 := TerminateFinishedObjects(net2.value, sim.finalMarkings, sim.status, BoundObjects(ins.execution.texec.binding));
    if status2.Err? {
      return Err(status2.error);
    }
    return Ok((sim.(net := net2.value, status := status2.value, logged := sim.logged + [ended.value]), identified.value));
  }

  /** The default final markings of a type: one single-name marking per final place of the type. */
  predicate DefaultFinalMarkings(net: Net, ot: string, ms: seq<set<Name>>) {
    |ms| == |FinalPlacesOfType(net, ot)| && Elems(ms) == FinalPlaceMarkings(net, ot)
  }

  /** The single-name markings of the final places of a type. */
  function FinalPlaceMarkings(net: Net, ot: string): (r: set<set<Name>>)
    ensures forall m :: m in r <==> exists id | id in FinalPlacesOfType(net, ot) :: m == {net.places[id].name}
  {
    set id | id in FinalPlacesOfType(net, ot) :: {net.places[id].name}
  }

  /** The inner loop of `update_final_markings` for one unspecified type. */
  method FinalMarkingsOfType(net: Net, ot: string) returns (ms: seq<set<Name>>)
    ensures DefaultFinalMarkings(net, ot, ms)
  {
    var todo := FinalPlacesOfType(net, ot);
    var done: set<nat> := {};
    ms := [];
    while todo != {}
      invariant todo + done == FinalPlacesOfType(net, ot) && todo !! done
      invariant |ms| == |done|
      invariant Elems(ms) == set id | id in done :: {net.places[id].name}
      decreases |todo|
    {
      var id :| id in todo;
      ms := ms + [{net.places[id].name}];
      todo := todo - {id};
      done := done + {id};
    }
  }

  /**
   * `update_final_markings`: the configured final markings of the known
   * object types are kept, and every type without one gets its defaults.
   */
  method UpdateFinalMarkings(net: Net, objectTypes: set<string>, configured: map<string, seq<set<Name>>>)
    returns (r: map<string, seq<set<Name>>>)
    ensures r.Keys == objectTypes
    ensures forall ot | ot in objectTypes && ot in configured :: r[ot] == configured[ot]
    ensures forall ot | ot in objectTypes && ot !in configured :: DefaultFinalMarkings(net, ot, r[ot])
  {
    var kept := map ot | ot in configured && ot in objectTypes :: configured[ot];
    r := AddDefaultFinalMarkings(net, objectTypes - configured.Keys, kept);
  }

  /** The outer loop of `update_final_markings`: the defaults of every type of `types` are added. */
  method AddDefaultFinalMarkings(net: Net, types: set<string>, r0: map<string, seq<set<Name>>>)
    returns (r: map<string, seq<set<Name>>>)
    ensures forall ot :: ot in r <==> ot in r0 || ot in types
    ensures forall ot | ot in r0 && ot !in types :: r[ot] == r0[ot]
    ensures forall ot | ot in types :: DefaultFinalMarkings(net, ot, r[ot])
  {
    r := r0;
    var todo := types;
    ghost var done: set<string> := {};
    while todo != {}
      invariant todo <= types && done <= types && todo !! done
      invariant forall ot | ot in types :: ot in todo || ot in done
      invariant forall ot :: ot in r <==> ot in r0 || ot in done
      invariant forall ot | ot in r0 && ot !in types :: r[ot] == r0[ot]
      invariant forall ot | ot in done :: DefaultFinalMarkings(net, ot, r[ot])
      decreases |todo|
    {
      var ot :| ot in todo;
      var ms := FinalMarkingsOfType(net, ot);
      r := r[ot := ms];
      todo := todo - {ot};
      done := done + {ot};
    }
  }

  /**
   * Under the default final markings, an object is in its final marking
   * exactly when the names of the places holding it are the name of one
   * final place of its type.
   */
  lemma DefaultFinalMarkingMeaning(net: Net, finals: map<string, seq<set<Name>>>, o: Token)
    requires o.otype in finals && DefaultFinalMarkings(net, o.otype, finals[o.otype])
    ensures CheckIfObjectInFinalMarking(net, finals, o) == Ok(true) <==>
      exists id | id in FinalPlacesOfType(net, o.otype) :: LocationNames(net, o) == {net.places[id].name}
  {
  }

  /** An object held by a single place, a final place of its type, is in its default final marking. */
  lemma AtFinalPlaceIsFinished(net: Net, finals: map<string, seq<set<Name>>>, o: Token, id: nat)
    requires o.otype in finals && DefaultFinalMarkings(net, o.otype, finals[o.otype])
    requires id in FinalPlacesOfType(net, o.otype) && LocationsOfObject(net, o) == {id}
    ensures CheckIfObjectInFinalMarking(net, finals, o) == Ok(true)
  {
    DefaultFinalMarkingMeaning(net, finals, o);
    assert LocationNames(net, o) == {net.places[id].name};
  }

  // ---------------------------------------------------------------------------
  // get_number_required_objects_per_type

  /** `identify_object_type` on a name: the type if it is one, else nothing. */
  function IdentifyObjectType(objectTypes: set<string>, name: string): Option<string> {
    if name in objectTypes then Some(name) else None
  }

  /** The count the type configuration gives `key`: its last entry's, or 0 without one. */
  function LastCount(typeCfg: seq<(string, int)>, key: Option<string>): (r: int)
    ensures (forall i | 0 <= i < |typeCfg| :: Some(typeCfg[i].0) != key) ==> r == 0
    decreases |typeCfg|
  {
    if typeCfg == [] then 0
    else if Some(typeCfg[|typeCfg| - 1].0) == key then typeCfg[|typeCfg| - 1].1
    else LastCount(typeCfg[..|typeCfg| - 1], key)
  }

  /** The count of a type is that of the last entry naming it: later entries overwrite earlier ones. */
  lemma {:induction false} LastCountIsLastEntry(typeCfg: seq<(string, int)>, i: nat)
    requires i < |typeCfg|
    requires forall j | i < j < |typeCfg| :: typeCfg[j].0 != typeCfg[i].0
    ensures LastCount(typeCfg, Some(typeCfg[i].0)) == typeCfg[i].1
    decreases |typeCfg|
  {
    if i < |typeCfg| - 1 {
      var front := typeCfg[..|typeCfg| - 1];
      assert front[i] == typeCfg[i];
      LastCountIsLastEntry(front, i);
    }
  }

  /** The type the place configuration's entry contributes to, if its place has a configured type. */
  predicate CountsFor(objectTypes: set<string>, placeTypes: map<string, string>, place: string, key: Option<string>) {
    place in placeTypes && IdentifyObjectType(objectTypes, placeTypes[place]) == key
  }

  /** The sum of the place configuration's counts whose place has type `key`. */
  function PlaceSum(objectTypes: set<string>, placeTypes: map<string, string>, placeCfg: seq<(string, int)>, key: Option<string>): int
    decreases |placeCfg|
  {
    if placeCfg == [] then 0
    else
      var last := placeCfg[|placeCfg| - 1];
      PlaceSum(objectTypes, placeTypes, placeCfg[..|placeCfg| - 1], key)
        + (if CountsFor(objectTypes, placeTypes, last.0, key) then last.1 else 0)
  }

  /** The first loop of `get_number_required_objects_per_type`: the counts per configured type. */
  method TypeCounts(objectTypes: set<string>, typeCfg: seq<(string, int)>) returns (r: Result<map<Option<string>, int>>)
    ensures r.Err? <==> exists i | 0 <= i < |typeCfg| :: typeCfg[i].0 !in objectTypes
    ensures r.Err? ==> r.error == ValueError(TypeNotFound)
    ensures r.Ok? ==> forall key :: key in r.value <==> exists i | 0 <= i < |typeCfg| :: Some(typeCfg[i].0) == key
    ensures r.Ok? ==> forall key | key in r.value :: r.value[key] == LastCount(typeCfg, key)
  {
    var acc: map<Option<string>, int> := map[];
    var i := 0;
    while i < |typeCfg|
      invariant 0 <= i <= |typeCfg|
      invariant forall j | 0 <= j < i :: typeCfg[j].0 in objectTypes
      invariant forall key :: key in acc <==> exists j | 0 <= j < i :: Some(typeCfg[j].0) == key
      invariant forall key | key in acc :: acc[key] == LastCount(typeCfg[..i], key)
    {
      var name := typeCfg[i].0;
      if name !in objectTypes {
        return Err(ValueError(TypeNotFound));
      }
      assert typeCfg[..i + 1][..i] == typeCfg[..i];
      acc := acc[Some(name) := typeCfg[i].1];
      i := i + 1;
    }
    assert typeCfg[..i] == typeCfg;
    return Ok(acc);
  }

  /** The second loop: every configured place adds its count to its type's. */
  method AddPlaceCounts(objectTypes: set<string>, placeTypes: map<string, string>, placeCfg: seq<(string, int)>,
                        base: map<Option<string>, int>) returns (r: Result<map<Option<string>, int>>)
    ensures r.Err? <==> exists i | 0 <= i < |placeCfg| :: placeCfg[i].0 !in placeTypes
    ensures r.Err? ==> r.error == KeyError
    ensures r.Ok? ==> forall key :: key in r.value <==>
      key in base || exists i | 0 <= i < |placeCfg| :: CountsFor(objectTypes, placeTypes, placeCfg[i].0, key)
    ensures r.Ok? ==> forall key | key in r.value ::
      r.value[key] == (if key in base then base[key] else 0) + PlaceSum(objectTypes, placeTypes, placeCfg, key)
  {
    var acc := base;
    var k := 0;
    while k < |placeCfg|
      invariant 0 <= k <= |placeCfg|
      invariant forall j | 0 <= j < k :: placeCfg[j].0 in placeTypes
      invariant forall key :: key in acc <==>
        key in base || exists j | 0 <= j < k :: CountsFor(objectTypes, placeTypes, placeCfg[j].0, key)
      invariant forall key | key in acc ::
        acc[key] == (if key in base then base[key] else 0) + PlaceSum(objectTypes, placeTypes, placeCfg[..k], key)
      invariant forall key | key !in acc :: PlaceSum(objectTypes, placeTypes, placeCfg[..k], key) == 0
    {
      var place := placeCfg[k].0;
      if place !in placeTypes {
        return Err(KeyError);
      }
      var key := IdentifyObjectType(objectTypes, placeTypes[place]);
      assert placeCfg[..k + 1][..k] == placeCfg[..k];
      acc := acc[key := (if key in acc then acc[key] else 0) + placeCfg[k].1];
      k := k + 1;
    }
    assert placeCfg[..k] == placeCfg;
    return Ok(acc);
  }

  /**
   * `get_number_required_objects_per_type` over the configuration dicts in
   * insertion order: an unknown type name raises `ValueError`, a place
   * without a configured type raises `KeyError`; otherwise each type is
   * asked for its configured count plus the counts of the places of that
   * type (a place whose type name is unknown counts under no type).
   */
  method GetNumberRequiredObjectsPerType(objectTypes: set<string>, typeCfg: seq<(string, int)>,
                                         placeCfg: seq<(string, int)>, placeTypes: map<string, string>)
    returns (r: Result<map<Option<string>, int>>)
    ensures r.Err? <==>
      (exists i | 0 <= i < |typeCfg| :: typeCfg[i].0 !in objectTypes)
      || (exists i | 0 <= i < |placeCfg| :: placeCfg[i].0 !in placeTypes)
    ensures r.Err? ==> r.error == if exists i | 0 <= i < |typeCfg| :: typeCfg[i].0 !in objectTypes
                                  then ValueError(TypeNotFound) else KeyError
    ensures r.Ok? ==> forall key :: key in r.value <==>
      (exists i | 0 <= i < |typeCfg| :: Some(typeCfg[i].0) == key)
      || (exists i | 0 <= i < |placeCfg| :: CountsFor(objectTypes, placeTypes, placeCfg[i].0, key))
    ensures r.Ok? ==> forall key | key in r.value ::
      r.value[key] == LastCount(typeCfg, key) + PlaceSum(objectTypes, placeTypes, placeCfg, key)
  {
    var base := TypeCounts(objectTypes, typeCfg);
    if base.Err? {
      return base;
    }
    r := AddPlaceCounts(objectTypes, placeTypes, placeCfg, base.value);
  }
}
