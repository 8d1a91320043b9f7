/**
 * Firing a transition in two halves. `start_firing` checks the binding,
 * takes the bound objects out of every input place of their type, applies the
 * qalculator's quantity operations to the collection points once, and records
 * a `TransitionExecution`; `end_firing` puts the bound objects into every
 * output place of their type and retires the execution.
 */
module TransitionFiring {
  import opened Wrappers
  import opened Counters
  import opened Objects
  import opened Places
  import opened Qalculators
  import opened Seqs
  import opened Transitions
  import opened TransitionBindings

  const NotEnabled := "Binding function is not enabled for transition."
  const NotIdentifiable := "Execution cannot be identified -- passed element must be execution id (uuid) or execution object."
  const NoSuchId := "No execution with id is active in transition."

  /** The object places of `ps` whose type is bound in `b`. */
  predicate BoundPlace(places: map<nat, Place>, ps: set<nat>, b: Binding, p: nat) {
    p in ps && IsObjectPlaceIn(places, p) && places[p].data.otype in b
  }

  /** The bound objects taken out of every input place of their type; every other place is untouched. */
  function RemoveBound(t: Transition, places: map<nat, Place>, b: Binding): (r: map<nat, Place>)
    ensures r.Keys == places.Keys
    ensures forall p | p in places && BoundPlace(places, InputPlaces(t, places), b, p) ::
      r[p] == places[p].(data := places[p].data.(tokens := places[p].data.tokens - b[places[p].data.otype]))
    ensures forall p | p in places && !BoundPlace(places, InputPlaces(t, places), b, p) :: r[p] == places[p]
  {
    map p | p in places ::
      if BoundPlace(places, InputPlaces(t, places), b, p)
      then places[p].(data := places[p].data.(tokens := places[p].data.tokens - b[places[p].data.otype]))
      else places[p]
  }

  /**
   * Taking the bound objects out one at a time with `remove_tokens`, in any
   * order, never raises when they are all in the place, and ends where
   * `RemoveBound` does.
   */
  lemma RemoveBoundIsRemoveTokens(t: Transition, places: map<nat, Place>, b: Binding, p: nat)
    requires p in places && BoundPlace(places, InputPlaces(t, places), b, p)
    requires b[places[p].data.otype] <= places[p].data.tokens
    ensures var r := RemoveTokens(places[p], SetToSeq(b[places[p].data.otype]));
      r.error.None? && r.state == RemoveBound(t, places, b)[p]
  {
    var ts := SetToSeq(b[places[p].data.otype]);
    RemoveTokensPresent(places[p], ts);
  }

  /** `execute_quantity_operations`: each operation is added, signed, to its collection point's marking. */
  function ExecuteQuantityOperations(places: map<nat, Place>, ops: CollectionCounter): (r: map<nat, Place>)
    ensures r.Keys == places.Keys
    ensures forall p | p in places && p in ops && IsCollectionPointIn(places, p) ::
      && r[p].data.PointData?
      && r[p].conn == places[p].conn
      && (forall k :: Get(r[p].data.stock, k) == Get(places[p].data.stock, k) + Get(ops[p], k))
      && r[p].data.itemTypes == places[p].data.itemTypes + ops[p].Keys
    ensures forall p | p in places && !(p in ops && IsCollectionPointIn(places, p)) :: r[p] == places[p]
  {
    map p | p in places ::
      if p in ops && IsCollectionPointIn(places, p) then UpdateMarking(places[p], PyCounter(ops[p])).value
      else places[p]
  }

  /** Removing objects leaves the collection points, and so the quantity state, as they were. */
  lemma RemoveBoundKeepsQuantityState(t: Transition, places: map<nat, Place>, b: Binding)
    ensures QuantityState(t, RemoveBound(t, places, b)) == QuantityState(t, places)
  {
    var removed := RemoveBound(t, places, b);
    forall p ensures IsCollectionPointIn(removed, p) <==> IsCollectionPointIn(places, p) {
      if p in places && BoundPlace(places, InputPlaces(t, places), b, p) {
        assert places[p].data.ObjectData?;
      }
    }
    assert ConnectedCounters(t, removed) == ConnectedCounters(t, places);
  }

  /**
   * `start_firing`: raises unless the binding is enabled over all object
   * types; otherwise consumes the bound objects, applies the quantity
   * operations and appends one execution with id `execId`.
   */
  ghost function StartFiring(t: Transition, places: map<nat, Place>, b: Binding, execId: nat): (r: Result<(Transition, map<nat, Place>, TransitionExecution)>)
    ensures r.Ok? <==> Enabled(t, places, b, false) == Ok(true)
    ensures Enabled(t, places, b, false) == Ok(false) ==> r.Err? && r.error.ValueError?
    ensures r.Ok? ==> r.value.2 == TransitionExecution(execId, b, DetermineQuantityOperations(t.qalculator, QuantityState(t, places), b))
    ensures r.Ok? ==> r.value.0 == t.(executions := t.executions + [r.value.2])
    ensures r.Ok? ==> r.value.1 == ExecuteQuantityOperations(RemoveBound(t, places, b), r.value.2.ops)
  {
    var enabled :- Enabled(t, places, b, false);
    if !enabled then Err(ValueError(NotEnabled))
    else
      var removed := RemoveBound(t, places, b);
      RemoveBoundKeepsQuantityState(t, places, b);
      var ops := DetermineQuantityOperations(t.qalculator, QuantityState(t, removed), b);
      var ex := TransitionExecution(execId, b, ops);
      Ok((t.(executions := t.executions + [ex]), ExecuteQuantityOperations(removed, ops), ex))
  }

  /** After a successful start every input place of a bound type has lost exactly the bound objects of its type. */
  lemma StartFiringConsumes(t: Transition, places: map<nat, Place>, b: Binding, execId: nat, p: nat)
    requires StartFiring(t, places, b, execId).Ok?
    requires p in places && BoundPlace(places, InputPlaces(t, places), b, p)
    ensures var after := StartFiring(t, places, b, execId).value.1;
      p in after && after[p].data.ObjectData? && after[p].data.tokens == places[p].data.tokens - b[places[p].data.otype]
      && b[places[p].data.otype] <= places[p].data.tokens
  {
    var ot := places[p].data.otype;
    assert p in InputPlacesOfType(t, places, ot);
    BindingEnabledPasses(t, places, b, false);
  }

  // ---------------------------------------------------------------------------
  // Ending a firing

  /** What `end_firing` is handed: an execution object, an execution id, or anything else. */
  datatype ExecRef = ByExecution(e: TransitionExecution) | ByUuid(id: nat) | Unidentifiable

  /**
   * `_identify_execution` as written: an id is compared with the first
   * execution only, any other first execution raising; with no executions the
   * loop finds nothing, `None` comes back and the caller's attribute access
   * raises.
   */
  function IdentifyExecution(execs: seq<TransitionExecution>, ref: ExecRef): (r: Result<TransitionExecution>)
    ensures ref.ByExecution? ==> (r.Ok? <==> ref.e in execs) && (r.Ok? ==> r.value == ref.e)
    ensures ref.ByUuid? ==> (r.Ok? <==> |execs| > 0 && execs[0].id == ref.id)
    ensures ref.ByUuid? && r.Ok? ==> r.value == execs[0]
    ensures ref.ByUuid? && |execs| == 0 ==> r == Err(AttributeError)
    ensures ref.Unidentifiable? ==> r.Err?
  {
    match ref
    case ByExecution(e) =>
      if e in execs then Ok(e)
      else Err(ValueError(NotIdentifiable))
    case ByUuid(id) =>
      if |execs| == 0 then Err(AttributeError)
      else if execs[0].id == id then Ok(execs[0])
      else Err(ValueError(NoSuchId))
    case Unidentifiable =>
      Err(ValueError(NotIdentifiable))
  }

  /** The execution with id `id` that comes first in `execs`, if any. */
  function FindById(execs: seq<TransitionExecution>, id: nat): (r: Option<TransitionExecution>)
    ensures r.Some? <==> exists i | 0 <= i < |execs| :: execs[i].id == id
    ensures r.Some? ==> r.value in execs && r.value.id == id
    decreases |execs|
  {
    if |execs| == 0 then None
    else if execs[0].id == id then Some(execs[0])
    else
      var rest := FindById(execs[1..], id);
      assert (exists i | 0 <= i < |execs| :: execs[i].id == id) ==> exists j | 0 <= j < |execs[1..]| :: execs[1..][j].id == id by {
        if exists i | 0 <= i < |execs| :: execs[i].id == id {
          var i :| 0 <= i < |execs| && execs[i].id == id;
          assert execs[1..][i - 1] == execs[i];
        }
      }
      rest
  }

  /** `_identify_execution` as evidently intended: an id is looked up among all executions, and a missing one raises. */
  function IdentifyExecutionCorrected(execs: seq<TransitionExecution>, ref: ExecRef): (r: Result<TransitionExecution>)
    ensures r.Ok? ==> r.value in execs
    ensures ref.ByExecution? ==> (r.Ok? <==> ref.e in execs) && (r.Ok? ==> r.value == ref.e)
    ensures ref.ByUuid? ==> (r.Ok? <==> exists i | 0 <= i < |execs| :: execs[i].id == ref.id)
    ensures ref.ByUuid? && r.Ok? ==> r.value.id == ref.id
    ensures ref.Unidentifiable? ==> r.Err?
    ensures r.Err? ==> r.error.ValueError?
  {
    match ref
    case ByExecution(e) =>
      if e in execs then Ok(e)
      else Err(ValueError(NotIdentifiable))
    case ByUuid(id) =>
      var found := FindById(execs, id);
      if found.Some? then Ok(found.value)
      else Err(ValueError(NoSuchId))
    case Unidentifiable =>
      Err(ValueError(NotIdentifiable))
  }

  /**
   * With two executions in flight, the second one cannot be ended by its id:
   * the source raises on comparing with the first, the corrected lookup
   * finds it.
   */
  lemma IdentifyExecutionMissesLaterIds(e1: TransitionExecution, e2: TransitionExecution)
    requires e1.id != e2.id
    ensures IdentifyExecution([e1, e2], ByUuid(e2.id)).Err?
    ensures IdentifyExecutionCorrected([e1, e2], ByUuid(e2.id)) == Ok(e2)
  {
    assert FindById([e1, e2], e2.id) == FindById([e2], e2.id) by {
      assert [e1, e2][1..] == [e2];
    }
  }

  /** The two lookups agree on execution objects, and on the id of the oldest execution. */
  lemma IdentifyExecutionAgreesOnFirst(execs: seq<TransitionExecution>, ref: ExecRef)
    requires ref.ByExecution? || (ref.ByUuid? && |execs| > 0 && execs[0].id == ref.id)
    ensures IdentifyExecution(execs, ref) == IdentifyExecutionCorrected(execs, ref)
  {
  }

  /** Some output place of type `ot` is bound objects not of type `ot`: `add_token` raises there. */
  predicate WrongTypeForOutput(t: Transition, places: map<nat, Place>, b: Binding, ot: string) {
    ot in b && ot in OutputObjectTypes(t, places) && exists x | x in b[ot] :: x.otype != ot
  }

  /** The end half of the token game: the bound objects added to every output place of their type; a wrongly typed object raises. */
  function AddBound(t: Transition, places: map<nat, Place>, b: Binding): (r: Result<map<nat, Place>>)
    ensures r.Err? <==> exists ot | ot in b :: WrongTypeForOutput(t, places, b, ot)
    ensures r.Err? ==> r.error.ValueError?
    ensures r.Ok? ==> r.value.Keys == places.Keys
    ensures r.Ok? ==> forall p | p in places && BoundPlace(places, OutputPlaces(t, places), b, p) ::
      r.value[p] == places[p].(data := places[p].data.(tokens := places[p].data.tokens + b[places[p].data.otype]))
    ensures r.Ok? ==> forall p | p in places && !BoundPlace(places, OutputPlaces(t, places), b, p) :: r.value[p] == places[p]
  {
    if exists ot | ot in b :: WrongTypeForOutput(t, places, b, ot) then
      Err(ValueError(WrongObjectType))
    else
      Ok(map p | p in places ::
           if BoundPlace(places, OutputPlaces(t, places), b, p)
           then places[p].(data := places[p].data.(tokens := places[p].data.tokens + b[places[p].data.otype]))
           else places[p])
  }

  /**
   * Adding the bound objects one at a time with `add_tokens`, in any order,
   * raises exactly when `AddBound` does for that place, and otherwise ends
   * where `AddBound` does.
   */
  lemma AddBoundIsAddTokens(t: Transition, places: map<nat, Place>, b: Binding, p: nat)
    requires p in places && BoundPlace(places, OutputPlaces(t, places), b, p)
    requires !WrongTypeForOutput(t, places, b, places[p].data.otype)
    ensures AddBound(t, places, b).Ok? ==>
      var r := AddTokens(places[p], SetToSeq(b[places[p].data.otype]));
      r.error.None? && r.state == AddBound(t, places, b).value[p]
  {
    var ot := places[p].data.otype;
    var ts := SetToSeq(b[ot]);
    assert ot in OutputObjectTypes(t, places) by {
      assert p in OutputPlacesOfType(t, places, ot);
    }
    AddTokensMeaning(places[p], ts);
    forall i | 0 <= i < |ts| ensures ts[i].otype == ot {
      assert ts[i] in b[ot];
    }
    assert ts[..FirstWrongType(ts, ot)] == ts;
  }

  /**
   * `end_firing`: finds the execution (with the corrected lookup), adds its
   * objects to the output places and removes it from the in-flight list.
   */
  function EndFiring(t: Transition, places: map<nat, Place>, ref: ExecRef): (r: Result<(Transition, map<nat, Place>)>)
    ensures r.Ok? <==> IdentifyExecutionCorrected(t.executions, ref).Ok?
                       && AddBound(t, places, IdentifyExecutionCorrected(t.executions, ref).value.binding).Ok?
    ensures r.Ok? ==> var ex := IdentifyExecutionCorrected(t.executions, ref).value;
      && r.value.0 == t.(executions := RemoveFirst(t.executions, ex))
      && |r.value.0.executions| == |t.executions| - 1
      && r.value.1 == AddBound(t, places, ex.binding).value
  {
    var ex :- IdentifyExecutionCorrected(t.executions, ref);
    var added :- AddBound(t, places, ex.binding);
    Ok((t.(executions := RemoveFirst(t.executions, ex)), added))
  }

  /** `execute_complete_firing`: the start half and then the end half of the execution it created. */
  ghost function CompleteFiring(t: Transition, places: map<nat, Place>, b: Binding, execId: nat): (r: Result<(Transition, map<nat, Place>)>)
    ensures r.Ok? ==> StartFiring(t, places, b, execId).Ok?
  {
    var (t1, places1, ex) :- StartFiring(t, places, b, execId);
    EndFiring(t1, places1, ByExecution(ex))
  }

  /** Ids of the executions in flight. */
  function ExecutionIds(execs: seq<TransitionExecution>): (r: set<nat>)
    ensures forall i | 0 <= i < |execs| :: execs[i].id in r
  {
    set i | 0 <= i < |execs| :: execs[i].id
  }

  /** A start with a fresh id followed by the end of that execution leaves the in-flight list as it was. */
  lemma CompleteFiringRestoresExecutions(t: Transition, places: map<nat, Place>, b: Binding, execId: nat)
    requires execId !in ExecutionIds(t.executions)
    requires CompleteFiring(t, places, b, execId).Ok?
    ensures CompleteFiring(t, places, b, execId).value.0.executions == t.executions
  {
    var (t1, places1, ex) := StartFiring(t, places, b, execId).value;
    assert ex !in t.executions by {
      forall i | 0 <= i < |t.executions| ensures t.executions[i] != ex {
        assert t.executions[i].id in ExecutionIds(t.executions);
      }
    }
    RemoveFirstAppended(t.executions, ex);
  }

  /**
   * A complete firing takes the bound objects out of a place that is only an
   * input of the transition and puts them into a place that is only an
   * output; a place on both sides ends with its marking unchanged.
   */
  lemma CompleteFiringMovesObjects(t: Transition, places: map<nat, Place>, b: Binding, execId: nat, p: nat)
    requires CompleteFiring(t, places, b, execId).Ok?
    requires p in places && IsObjectPlaceIn(places, p) && places[p].data.otype in b
    ensures var after := CompleteFiring(t, places, b, execId).value.1;
      var ot := places[p].data.otype;
      && p in after && after[p].data.ObjectData?
      && (p in InputPlaces(t, places) && p !in OutputPlaces(t, places) ==> after[p].data.tokens == places[p].data.tokens - b[ot])
      && (p !in InputPlaces(t, places) && p in OutputPlaces(t, places) ==> after[p].data.tokens == places[p].data.tokens + b[ot])
      && (p in InputPlaces(t, places) && p in OutputPlaces(t, places) ==> after[p].data.tokens == places[p].data.tokens)
  {
    CompleteFiringObjectPlace(t, places, b, execId, p);
  }

  /** The marking of a bound object place after a complete firing: first the bound objects out if it is an input, then in if it is an output. */
  lemma CompleteFiringObjectPlace(t: Transition, places: map<nat, Place>, b: Binding, execId: nat, p: nat)
    requires CompleteFiring(t, places, b, execId).Ok?
    requires p in places && IsObjectPlaceIn(places, p) && places[p].data.otype in b
    ensures var after := CompleteFiring(t, places, b, execId).value.1;
      var ot := places[p].data.otype;
      var taken := if p in InputPlaces(t, places) then places[p].data.tokens - b[ot] else places[p].data.tokens;
      && p in after && after[p].data.ObjectData?
      && after[p].data.tokens == (if p in OutputPlaces(t, places) then taken + b[ot] else taken)
      && (p in InputPlaces(t, places) ==> b[ot] <= places[p].data.tokens)
  {
    var (t1, places1, ex) := StartFiring(t, places, b, execId).value;
    if p in InputPlaces(t, places) {
      StartFiringConsumes(t, places, b, execId, p);
    }
    StartFiringObjectPlace(t, places, b, execId, p);
    SameOutputPlaces(t, places, places1);
    assert OutputPlaces(t1, places1) == OutputPlaces(t, places1);
    EndFiringObjectPlace(t1, places1, ex, p);
  }

  /** The start half leaves an object place as `RemoveBound` leaves it; the quantity operations touch only collection points. */
  lemma StartFiringObjectPlace(t: Transition, places: map<nat, Place>, b: Binding, execId: nat, p: nat)
    requires StartFiring(t, places, b, execId).Ok?
    requires p in places && IsObjectPlaceIn(places, p)
    ensures var after := StartFiring(t, places, b, execId).value.1;
      && after.Keys == places.Keys
      && after[p] == RemoveBound(t, places, b)[p]
      && (forall q | q in places :: after[q].data.ObjectData? == places[q].data.ObjectData?)
      && (forall q | q in places && places[q].data.ObjectData? :: after[q].data.otype == places[q].data.otype)
  {
    var ex := StartFiring(t, places, b, execId).value.2;
    ConsumeThenOperate(t, places, b, ex.ops, p);
  }

  /** Applying quantity operations after removing objects keeps every place's kind and object type, and leaves object places as the removal did. */
  lemma ConsumeThenOperate(t: Transition, places: map<nat, Place>, b: Binding, ops: CollectionCounter, p: nat)
    requires p in places && IsObjectPlaceIn(places, p)
    ensures var after := ExecuteQuantityOperations(RemoveBound(t, places, b), ops);
      && after.Keys == places.Keys
      && after[p] == RemoveBound(t, places, b)[p]
      && (forall q | q in places :: after[q].data.ObjectData? == places[q].data.ObjectData?)
      && (forall q | q in places && places[q].data.ObjectData? :: after[q].data.otype == places[q].data.otype)
  {
    var removed := RemoveBound(t, places, b);
    assert removed[p].data.ObjectData?;
    forall q | q in places
      ensures removed[q].data.ObjectData? == places[q].data.ObjectData?
      ensures places[q].data.ObjectData? ==> removed[q].data.otype == places[q].data.otype
      ensures removed[q].data.PointData? == places[q].data.PointData?
    {
    }
  }

  /** The end half of an execution in flight leaves an object place as `AddBound` leaves it. */
  lemma EndFiringObjectPlace(t: Transition, places: map<nat, Place>, ex: TransitionExecution, p: nat)
    requires ex in t.executions
    requires EndFiring(t, places, ByExecution(ex)).Ok?
    requires p in places && IsObjectPlaceIn(places, p)
    ensures var after := EndFiring(t, places, ByExecution(ex)).value.1;
      var ot := places[p].data.otype;
      && p in after && after[p].data.ObjectData?
      && (p in OutputPlaces(t, places) && ot in ex.binding ==> after[p].data.tokens == places[p].data.tokens + ex.binding[ot])
      && (!(p in OutputPlaces(t, places) && ot in ex.binding) ==> after[p] == places[p])
  {
  }

  /** Firing changes markings only, so the transition sees the same output places before and after. */
  lemma SameOutputPlaces(t: Transition, places: map<nat, Place>, places1: map<nat, Place>)
    requires places1.Keys == places.Keys
    requires forall p | p in places :: places1[p].data.ObjectData? == places[p].data.ObjectData?
    requires forall p | p in places && places[p].data.ObjectData? :: places1[p].data.otype == places[p].data.otype
    ensures OutputPlaces(t, places1) == OutputPlaces(t, places)
  {
  }
}
