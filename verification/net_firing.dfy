/**
 * Firing at the level of the net. `start_firing_transition` finds the
 * transition, starts it and appends one record to the net's execution
 * registry; `end_firing_transition` finds a registered execution and ends it
 * at its transition, leaving the registry as it was. Also the map of enabled
 * bindings over all transitions that are not started by hand.
 */
module NetFiring {
  import opened Wrappers
  import opened Objects
  import opened Elements
  import opened Places
  import opened Seqs
  import opened Transitions
  import opened TransitionBindings
  import opened TransitionFiring
  import opened Nets

  const BadExecution := "Passed execution is not a valid execution or execution item."

  // ---------------------------------------------------------------------------
  // Starting

  /** A node found by a lookup is a node of the net. */
  lemma IdentifiedInNet(net: Net, q: NodeQuery, et: ElementType)
    ensures IdentifyNodeCorrected(net, q, et).Ok? && IdentifyNodeCorrected(net, q, et).value.Some? ==>
      InNet(net, IdentifyNodeCorrected(net, q, et).value.value)
  {
  }

  /**
   * `start_firing_transition`: the transition is looked up among the
   * transitions; a query that finds none raises. The firing starts with
   * execution id `execId`, and its record is appended to the registry and
   * returned.
   */
  ghost function StartFiringTransition(net: Net, q: NodeQuery, b: Binding, execId: nat): (r: Result<(Net, Execution)>)
    ensures IdentifyNodeCorrected(net, q, TypeName("transition")) == Ok(None) ==> r == Err(ValueError(NotPartOfNet))
    ensures r.Ok? ==> r.value.0.executions == net.executions + [r.value.1]
  {
    IdentifiedInNet(net, q, TypeName("transition"));
    var found :- IdentifyNodeCorrected(net, q, TypeName("transition"));
    if found.None? || !found.value.kind.TransitionKind? then Err(ValueError(NotPartOfNet))
    else
      var id := found.value.id;
      var started :- StartFiring(net.transitions[id], net.places, b, execId);
      var ex := Execution(started.2, id);
      Ok((net.(transitions := net.transitions[id := started.0], places := started.1, executions := net.executions + [ex]), ex))
  }

  /** A successful start is the start of the transition found, at that transition only, with the places it leaves. */
  lemma StartFiringTransitionMeaning(net: Net, q: NodeQuery, b: Binding, execId: nat)
    requires StartFiringTransition(net, q, b, execId).Ok?
    ensures var (net2, ex) := StartFiringTransition(net, q, b, execId).value;
      && IdentifyNodeCorrected(net, q, TypeName("transition")) == Ok(Some(NodeRef(ex.transition, TransitionKind)))
      && ex.transition in net.transitions && net2.transitions.Keys == net.transitions.Keys
      && StartFiring(net.transitions[ex.transition], net.places, b, execId)
           == Ok((net2.transitions[ex.transition], net2.places, ex.texec))
      && (forall id | id in net.transitions && id != ex.transition :: net2.transitions[id] == net.transitions[id])
      && net2.arcs == net.arcs && net2.nextId == net.nextId
  {
    IdentifiedInNet(net, q, TypeName("transition"));
  }

  /** A started firing is recorded both at its transition and in the registry, under the given id. */
  lemma StartFiringTransitionRecords(net: Net, q: NodeQuery, b: Binding, execId: nat)
    requires StartFiringTransition(net, q, b, execId).Ok?
    ensures var (net2, ex) := StartFiringTransition(net, q, b, execId).value;
      && ex.texec.id == execId && ex.texec.binding == b
      && net2.transitions[ex.transition].executions == net.transitions[ex.transition].executions + [ex.texec]
      && |net2.executions| == |net.executions| + 1 && net2.executions[|net.executions|] == ex
  {
  }

  /** A transition that is found starts exactly when the binding is enabled over all its object types. */
  lemma StartFiringTransitionAccepts(net: Net, q: NodeQuery, b: Binding, execId: nat, id: nat)
    requires id in net.transitions
    requires IdentifyNodeCorrected(net, q, TypeName("transition")) == Ok(Some(NodeRef(id, TransitionKind)))
    ensures StartFiringTransition(net, q, b, execId).Ok? <==> Enabled(net.transitions[id], net.places, b, false) == Ok(true)
  {
  }

  /**
   * `transition_enabled`: a transition of the net (given by its id) is asked
   * whether the binding is enabled; a transition outside the net raises.
   */
  ghost function TransitionEnabled(net: Net, id: nat, b: Binding): (r: Result<bool>)
    ensures id !in net.transitions ==> r == Err(ValueError(NotPartOfNet))
    ensures r == Ok(true) ==> BindingEnabled(net.transitions[id], net.places, b, false) == Ok(true)
  {
    if id in net.transitions then Enabled(net.transitions[id], net.places, b, false)
    else Err(ValueError(NotPartOfNet))
  }

  /** A transition of the net that is found starts firing with a binding exactly when the net reports the binding enabled. */
  lemma StartFiringWhenEnabled(net: Net, q: NodeQuery, b: Binding, execId: nat, id: nat)
    requires IdentifyNodeCorrected(net, q, TypeName("transition")) == Ok(Some(NodeRef(id, TransitionKind)))
    ensures id in net.transitions
    ensures StartFiringTransition(net, q, b, execId).Ok? <==> TransitionEnabled(net, id, b) == Ok(true)
  {
    IdentifiedInNet(net, q, TypeName("transition"));
    StartFiringTransitionAccepts(net, q, b, execId, id);
  }

  // ---------------------------------------------------------------------------
  // Identifying a registered execution

  /** What the net's `_identify_execution` is handed. */
  datatype NetExecRef =
    | NetByTransitionExecution(e: TransitionExecution)
    | NetByExecution(x: Execution)
    | NetByUuid(id: nat)
    | NetUnidentifiable

  /**
   * The net's `_identify_execution` as written: the comprehensions read an
   * attribute `execution` that the records do not have, so a lookup by
   * transition execution or by id raises `AttributeError` as soon as the
   * registry holds a record, and finds nothing in an empty one.
   */
  function IdentifyNetExecution(execs: seq<Execution>, ref: NetExecRef): (r: Result<Execution>)
    ensures ref.NetByExecution? ==> r == Ok(ref.x)
    ensures !ref.NetByExecution? ==> r.Err?
    ensures (ref.NetByTransitionExecution? || ref.NetByUuid?) && |execs| > 0 ==> r == Err(AttributeError)
  {
    match ref
    case NetByTransitionExecution(_) => if |execs| == 0 then Err(ValueError(NoExecution)) else Err(AttributeError)
    case NetByExecution(x) => Ok(x)
    case NetByUuid(_) => if |execs| == 0 then Err(ValueError(NoExecution)) else Err(AttributeError)
    case NetUnidentifiable => Err(ValueError(BadExecution))
  }

  /** A record matches a lookup by transition execution or by id. */
  predicate Matches(x: Execution, ref: NetExecRef) {
    match ref
    case NetByTransitionExecution(e) => x.texec == e
    case NetByUuid(id) => x.texec.id == id
    case _ => false
  }

  /** The matching records, in registry order. */
  function Matching(execs: seq<Execution>, ref: NetExecRef): (r: seq<Execution>)
    ensures forall x :: x in r <==> x in execs && Matches(x, ref)
    decreases |execs|
  {
    if |execs| == 0 then []
    else
      var rest := Matching(execs[1..], ref);
      assert forall x :: x in execs <==> x == execs[0] || x in execs[1..];
      if Matches(execs[0], ref) then [execs[0]] + rest else rest
  }

  /** The net's `_identify_execution` as evidently intended: the records are matched on their transition execution. */
  function IdentifyNetExecutionCorrected(execs: seq<Execution>, ref: NetExecRef): (r: Result<Execution>)
    ensures ref.NetByExecution? ==> r == Ok(ref.x)
    ensures ref.NetByTransitionExecution? || ref.NetByUuid? ==>
      && (r.Ok? <==> |Matching(execs, ref)| == 1)
      && (r.Ok? ==> r.value in execs && Matches(r.value, ref))
    ensures ref.NetUnidentifiable? ==> r.Err?
    ensures r.Err? ==> r.error.ValueError?
  {
    match ref
    case NetByExecution(x) => Ok(x)
    case NetUnidentifiable => Err(ValueError(BadExecution))
    case _ =>
      var m := Matching(execs, ref);
      if |m| == 1 then
        assert m[0] in m;
        Ok(m[0])
      else Err(ValueError(NoExecution))
  }

  /** When only the record at index `i` matches, the matching records are just that one. */
  lemma {:induction false} MatchingOnly(execs: seq<Execution>, ref: NetExecRef, i: nat)
    requires i < |execs| && Matches(execs[i], ref)
    requires forall j | 0 <= j < |execs| && j != i :: !Matches(execs[j], ref)
    ensures Matching(execs, ref) == [execs[i]]
    decreases |execs|
  {
    if i == 0 {
      MatchingNone(execs[1..], ref);
    } else {
      assert !Matches(execs[0], ref);
      forall j | 0 <= j < |execs[1..]| && j != i - 1 ensures !Matches(execs[1..][j], ref) {
        assert execs[1..][j] == execs[j + 1];
      }
      MatchingOnly(execs[1..], ref, i - 1);
    }
  }

  /** No record matches: nothing is listed. */
  lemma {:induction false} MatchingNone(execs: seq<Execution>, ref: NetExecRef)
    requires forall j | 0 <= j < |execs| :: !Matches(execs[j], ref)
    ensures Matching(execs, ref) == []
    decreases |execs|
  {
    if |execs| > 0 {
      assert !Matches(execs[0], ref);
      forall j | 0 <= j < |execs[1..]| ensures !Matches(execs[1..][j], ref) {
        assert execs[1..][j] == execs[j + 1];
      }
      MatchingNone(execs[1..], ref);
    }
  }

  /** In a registry whose execution ids differ, every record is found by its id and by its transition execution. */
  lemma RegisteredExecutionFound(execs: seq<Execution>, i: nat)
    requires i < |execs|
    requires forall j, k | 0 <= j < k < |execs| :: execs[j].texec.id != execs[k].texec.id
    ensures IdentifyNetExecutionCorrected(execs, NetByUuid(execs[i].texec.id)) == Ok(execs[i])
    ensures IdentifyNetExecutionCorrected(execs, NetByTransitionExecution(execs[i].texec)) == Ok(execs[i])
  {
    forall j | 0 <= j < |execs| && j != i ensures execs[j].texec.id != execs[i].texec.id {
      if j < i {
        assert execs[j].texec.id != execs[i].texec.id;
      } else {
        assert execs[i].texec.id != execs[j].texec.id;
      }
    }
    MatchingOnly(execs, NetByUuid(execs[i].texec.id), i);
    MatchingOnly(execs, NetByTransitionExecution(execs[i].texec), i);
  }

  /**
   * As written, a registered execution cannot be found by its transition
   * execution or its id; the corrected lookup finds it.
   */
  lemma IdentifyNetExecutionMissesRegistered(ex: Execution)
    ensures IdentifyNetExecution([ex], NetByTransitionExecution(ex.texec)) == Err(AttributeError)
    ensures IdentifyNetExecution([ex], NetByUuid(ex.texec.id)) == Err(AttributeError)
    ensures IdentifyNetExecutionCorrected([ex], NetByTransitionExecution(ex.texec)) == Ok(ex)
    ensures IdentifyNetExecutionCorrected([ex], NetByUuid(ex.texec.id)) == Ok(ex)
  {
    RegisteredExecutionFound([ex], 0);
  }

  /** Both versions return a record handed in directly, unchecked. */
  lemma IdentifyNetExecutionAgreesOnRecords(execs: seq<Execution>, x: Execution)
    ensures IdentifyNetExecution(execs, NetByExecution(x)) == IdentifyNetExecutionCorrected(execs, NetByExecution(x)) == Ok(x)
  {
  }

  // ---------------------------------------------------------------------------
  // Ending

  /**
   * `end_firing_transition`: the record is looked up (with the corrected
   * lookup) and its transition ends the execution; the record stays in the
   * registry.
   */
  function EndFiringTransition(net: Net, ref: NetExecRef): (r: Result<Net>)
    ensures r.Ok? ==> IdentifyNetExecutionCorrected(net.executions, ref).Ok?
    ensures r.Ok? ==> r.value.executions == net.executions && r.value.transitions.Keys == net.transitions.Keys
    ensures r.Ok? ==>
      var x := IdentifyNetExecutionCorrected(net.executions, ref).value;
      && x.transition in net.transitions
      && EndFiring(net.transitions[x.transition], net.places, ByExecution(x.texec))
           == Ok((r.value.transitions[x.transition], r.value.places))
      && (forall id | id in net.transitions && id != x.transition :: r.value.transitions[id] == net.transitions[id])
    ensures r.Ok? ==> r.value.arcs == net.arcs && r.value.nextId == net.nextId
  {
    var x :- IdentifyNetExecutionCorrected(net.executions, ref);
    if x.transition !in net.transitions then Err(ValueError(NotPartOfNet))
    else
      var ended :- EndFiring(net.transitions[x.transition], net.places, ByExecution(x.texec));
      Ok(net.(transitions := net.transitions[x.transition := ended.0], places := ended.1))
  }

  /** Every record has an id that no in-flight execution of any transition uses. */
  predicate FreshExecId(net: Net, execId: nat) {
    forall id | id in net.transitions :: execId !in ExecutionIds(net.transitions[id].executions)
  }

  /**
   * Starting a firing and ending it through its record puts the
   * transition's in-flight list back as it was, while the registry keeps the
   * record: the registry only grows.
   */
  lemma StartThenEndFiringTransition(net: Net, q: NodeQuery, b: Binding, execId: nat)
    requires FreshExecId(net, execId)
    requires StartFiringTransition(net, q, b, execId).Ok?
    ensures var (net1, ex) := StartFiringTransition(net, q, b, execId).value;
      EndFiringTransition(net1, NetByExecution(ex)).Ok? ==>
        var net2 := EndFiringTransition(net1, NetByExecution(ex)).value;
        && net2.executions == net.executions + [ex]
        && net2.transitions[ex.transition].executions == net.transitions[ex.transition].executions
  {
    var (net1, ex) := StartFiringTransition(net, q, b, execId).value;
    var t := net.transitions[ex.transition];
    if EndFiringTransition(net1, NetByExecution(ex)).Ok? {
      assert CompleteFiring(t, net.places, b, execId).Ok?;
      CompleteFiringRestoresExecutions(t, net.places, b, execId);
    }
  }

  // ---------------------------------------------------------------------------
  // Enabled bindings of all transitions

  /**
   * The loop of `get_enabled_bindings_all_transitions_for_input_types` over
   * the transitions in the order `ids`: `scan` tells the transitions not
   * started by hand, `enum` gives a transition's enumeration.
   */
  ghost function CollectEnabledBindings(scan: nat -> bool, enum: nat -> Result<Option<seq<Binding>>>, ids: seq<nat>): Result<map<nat, seq<Binding>>>
    decreases |ids|
  {
    if ids == [] then Ok(map[])
    else if !scan(ids[0]) then CollectEnabledBindings(scan, enum, ids[1..])
    else
      var bs :- enum(ids[0]);
      var rest :- CollectEnabledBindings(scan, enum, ids[1..]);
      Ok(if bs.Some? then rest[ids[0] := bs.value] else rest)
  }

  /** The loop raises exactly when some scanned enumeration raises; otherwise it keys exactly the scanned transitions with some binding, under their bindings. */
  lemma {:induction false} CollectEnabledBindingsMeaning(scan: nat -> bool, enum: nat -> Result<Option<seq<Binding>>>, ids: seq<nat>)
    ensures CollectEnabledBindings(scan, enum, ids).Ok? <==> forall i | 0 <= i < |ids| && scan(ids[i]) :: enum(ids[i]).Ok?
    ensures CollectEnabledBindings(scan, enum, ids).Ok? ==>
      var m := CollectEnabledBindings(scan, enum, ids).value;
      && (forall id :: id in m <==> id in ids && scan(id) && enum(id).Ok? && enum(id).value.Some?)
      && (forall id | id in m :: m[id] == enum(id).value.value)
    decreases |ids|
  {
    if ids != [] {
      CollectEnabledBindingsMeaning(scan, enum, ids[1..]);
      assert forall id :: id in ids <==> id == ids[0] || id in ids[1..];
      forall i | 0 <= i < |ids[1..]| ensures ids[1..][i] == ids[i + 1] {
      }
      forall i | 1 <= i < |ids| ensures ids[i] == ids[1..][i - 1] {
      }
    }
  }

  /** The transitions the map covers: those of the net not started by hand. */
  ghost predicate Scanned(net: Net, id: nat) {
    id in net.transitions && !net.transitions[id].manuallyInitiated
  }

  /** The enumeration of the transition `id`. */
  ghost function Enumeration(net: Net, active: set<Token>, id: nat): Result<Option<seq<Binding>>> {
    if id in net.transitions then DetermineNewBindingFunctions(net.transitions[id], net.places, active) else Ok(None)
  }

  /**
   * `get_enabled_bindings_all_transitions_for_input_types`: the enabled
   * bindings of every transition not started by hand, keyed by transition;
   * `active` holds the objects whose status is active.
   */
  ghost function EnabledBindingsAllTransitions(net: Net, active: set<Token>): Result<map<nat, seq<Binding>>> {
    CollectEnabledBindings((id: nat) => Scanned(net, id), (id: nat) => Enumeration(net, active, id), SetToSeq(net.transitions.Keys))
  }

  /**
   * The map raises exactly when the enumeration of some transition not
   * started by hand raises; otherwise it holds a key exactly for those
   * transitions whose enumeration yields some binding, and under it exactly
   * the bindings the enumeration can produce.
   */
  lemma EnabledBindingsAllTransitionsMeaning(net: Net, active: set<Token>, id: nat, b: Binding)
    ensures EnabledBindingsAllTransitions(net, active).Ok? <==>
      forall id' | Scanned(net, id') :: Enumeration(net, active, id').Ok?
    ensures EnabledBindingsAllTransitions(net, active).Ok? ==>
      var m := EnabledBindingsAllTransitions(net, active).value;
      && (id in m <==> Scanned(net, id) && Enumeration(net, active, id).value.Some?)
      && (id in m ==> (b in m[id] <==> Enumerable(net.transitions[id], net.places, active, b)))
  {
    EnabledBindingsAllTransitionsRaises(net, active);
    var ids := SetToSeq(net.transitions.Keys);
    var scan := (id: nat) => Scanned(net, id);
    var enum := (id: nat) => Enumeration(net, active, id);
    CollectEnabledBindingsMeaning(scan, enum, ids);
    assert id in ids <==> id in net.transitions;
    if EnabledBindingsAllTransitions(net, active).Ok? && Scanned(net, id) && Enumeration(net, active, id).value.Some? {
      DetermineNewBindingFunctionsMeaning(net.transitions[id], net.places, active, b);
    }
  }

  /** The map raises exactly when the enumeration of some transition not started by hand raises. */
  lemma EnabledBindingsAllTransitionsRaises(net: Net, active: set<Token>)
    ensures EnabledBindingsAllTransitions(net, active).Ok? <==>
      forall id | Scanned(net, id) :: Enumeration(net, active, id).Ok?
  {
    var ids := SetToSeq(net.transitions.Keys);
    var scan := (id: nat) => Scanned(net, id);
    var enum := (id: nat) => Enumeration(net, active, id);
    CollectEnabledBindingsMeaning(scan, enum, ids);
    if CollectEnabledBindings(scan, enum, ids).Ok? {
      forall id | Scanned(net, id) ensures Enumeration(net, active, id).Ok? {
        assert id in net.transitions.Keys;
        var i :| 0 <= i < |ids| && ids[i] == id;
      }
    }
  }
}
