/**
 * Transitions of a quantity net: their object types and binding quantities,
 * the check of a binding function, the enumeration of enabled bindings, and
 * firing in two halves (start consumes, end produces).
 *
 * A transition reaches its places through its arcs; the places themselves
 * live in the net, so every operation here takes the net's places by id and
 * returns them updated.
 */
module Transitions {
  import opened Wrappers
  import opened Counters
  import opened Objects
  import opened Elements
  import opened Places
  import opened Guards
  import opened Qalculators
  import opened Seqs
  import opened Combinations

  const TypesMismatch := "Object types referred to in passed binding object quantities does not match with transition object types."
  const MaxBelowBfq := "Maximum binding quantities must be greater or equal to the binding quantities."

  /** A started firing: its id, binding and the quantity operations it performed. */
  datatype TransitionExecution = TransitionExecution(id: nat, binding: Binding, ops: CollectionCounter)

  /**
   * A transition. The three quantity maps are the explicitly set ones; an
   * empty map is falsy and falls back to the default.
   */
  datatype Transition = Transition(
    conn: Connected,
    name: Name,
    lbl: Option<Name>,
    silentFlag: Option<bool>,
    executions: seq<TransitionExecution>,
    guard: Guard,
    bfq: map<string, int>,
    maxQ: map<string, int>,
    minQ: map<string, int>,
    qalculator: Qalculator,
    manuallyInitiated: bool)

  /** `Transition(name, label, qalculator)`: no arcs, no executions, an empty guard, default quantities. */
  function NewTransition(id: nat, name: Option<string>, lbl: Option<string>, q: Option<Qalculator>): (t: Transition)
    ensures t.conn == NewConnected(NodeRef(id, TransitionKind))
    ensures t.executions == [] && t.guard == EmptyGuard && !t.manuallyInitiated
    ensures t.bfq == map[] && t.maxQ == map[] && t.minQ == map[]
    ensures q.Some? ==> t.qalculator == q.value.(connected := {})
    ensures q.None? ==> t.qalculator == NewQalculator(DefaultQ)
    ensures Silent(t) <==> !Given(lbl)
  {
    var qal := if q.Some? then q.value.(connected := {}) else NewQalculator(DefaultQ);
    Transition(NewConnected(NodeRef(id, TransitionKind)), ElementName(name, id), ElementLabel(lbl),
               if Given(lbl) then Some(false) else None, [], EmptyGuard, map[], map[], map[], qal, false)
  }

  /** `silent`: the explicit flag once set, otherwise the absence of a label. */
  predicate Silent(t: Transition) {
    if t.silentFlag.None? then !LabelSet(t.lbl) else t.silentFlag.value
  }

  /** The `label` setter: a label makes the transition visible; a falsy one only makes it silent and keeps the old label. */
  function SetLabel(t: Transition, l: Option<string>): (r: Transition)
    ensures Given(l) ==> r.lbl == Some(Str(l.value)) && !Silent(r)
    ensures !Given(l) ==> r.lbl == t.lbl && Silent(r)
    ensures r.conn == t.conn && r.executions == t.executions
  {
    if Given(l) then t.(silentFlag := Some(false), lbl := Some(Str(l.value)))
    else t.(silentFlag := Some(true))
  }

  /** The `silent` setter overrides the label from then on. */
  function SetSilent(t: Transition, silent: bool): (r: Transition)
    ensures Silent(r) == silent && r.lbl == t.lbl
  {
    t.(silentFlag := Some(silent))
  }

  // ---------------------------------------------------------------------------
  // Surrounding places

  predicate IsObjectPlaceIn(places: map<nat, Place>, id: nat) {
    id in places && places[id].data.ObjectData?
  }

  predicate IsCollectionPointIn(places: map<nat, Place>, id: nat) {
    id in places && places[id].data.PointData?
  }

  /** `input_places`: the object places at the sources of the input arcs. */
  function InputPlaces(t: Transition, places: map<nat, Place>): (r: set<nat>)
    ensures forall p | p in r :: IsObjectPlaceIn(places, p)
  {
    set a | a in t.conn.inputArcs && a.source.kind.ObjectPlaceKind? && IsObjectPlaceIn(places, a.source.id) :: a.source.id
  }

  /** `output_places`: the object places at the targets of the output arcs. */
  function OutputPlaces(t: Transition, places: map<nat, Place>): (r: set<nat>)
    ensures forall p | p in r :: IsObjectPlaceIn(places, p)
  {
    set a | a in t.conn.outputArcs && a.target.kind.ObjectPlaceKind? && IsObjectPlaceIn(places, a.target.id) :: a.target.id
  }

  /** `connected_counters`: the collection points on either side. */
  function ConnectedCounters(t: Transition, places: map<nat, Place>): (r: set<nat>)
    ensures forall p | p in r :: IsCollectionPointIn(places, p)
  {
    (set a | a in t.conn.inputArcs && a.source.kind.CollectionPointKind? && IsCollectionPointIn(places, a.source.id) :: a.source.id)
    + (set a | a in t.conn.outputArcs && a.target.kind.CollectionPointKind? && IsCollectionPointIn(places, a.target.id) :: a.target.id)
  }

  /** `quantity_state`: the marking of every connected collection point. */
  function QuantityState(t: Transition, places: map<nat, Place>): (r: CollectionCounter)
    ensures r.Keys == ConnectedCounters(t, places)
    ensures forall cp | cp in r :: r[cp] == places[cp].data.stock
  {
    map cp | cp in ConnectedCounters(t, places) :: places[cp].data.stock
  }

  function OTypes(places: map<nat, Place>, ps: set<nat>): (r: set<string>)
    requires forall p | p in ps :: IsObjectPlaceIn(places, p)
    ensures forall ot :: ot in r <==> exists p | p in ps && IsObjectPlaceIn(places, p) :: places[p].data.otype == ot
  {
    set p | p in ps && IsObjectPlaceIn(places, p) :: places[p].data.otype
  }

  /** `input_object_types`. */
  function InputObjectTypes(t: Transition, places: map<nat, Place>): set<string> {
    OTypes(places, InputPlaces(t, places))
  }

  /** `output_object_types`. */
  function OutputObjectTypes(t: Transition, places: map<nat, Place>): set<string> {
    OTypes(places, OutputPlaces(t, places))
  }

  /** `object_types`: the types of the object places on either side. */
  function ObjectTypes(t: Transition, places: map<nat, Place>): (r: set<string>)
    ensures r == InputObjectTypes(t, places) + OutputObjectTypes(t, places)
  {
    OTypes(places, InputPlaces(t, places) + OutputPlaces(t, places))
  }

  /** `get_input_places_of_otype`. */
  function InputPlacesOfType(t: Transition, places: map<nat, Place>, ot: string): (r: set<nat>)
    ensures forall p | p in r :: IsObjectPlaceIn(places, p) && places[p].data.otype == ot
    ensures r != {} <==> ot in InputObjectTypes(t, places)
  {
    var r := set p | p in InputPlaces(t, places) && places[p].data.otype == ot;
    assert ot in InputObjectTypes(t, places) ==> r != {} by {
      if ot in InputObjectTypes(t, places) {
        var p :| p in InputPlaces(t, places) && places[p].data.otype == ot;
        assert p in r;
      }
    }
    r
  }

  /** `get_output_places_of_otype`. */
  function OutputPlacesOfType(t: Transition, places: map<nat, Place>, ot: string): (r: set<nat>)
    ensures forall p | p in r :: IsObjectPlaceIn(places, p) && places[p].data.otype == ot
    ensures r != {} <==> ot in OutputObjectTypes(t, places)
  {
    var r := set p | p in OutputPlaces(t, places) && places[p].data.otype == ot;
    assert ot in OutputObjectTypes(t, places) ==> r != {} by {
      if ot in OutputObjectTypes(t, places) {
        var p :| p in OutputPlaces(t, places) && places[p].data.otype == ot;
        assert p in r;
      }
    }
    r
  }

  // ---------------------------------------------------------------------------
  // Binding quantities

  /** `binding_function_quantities`: the set map, or one object of every object type. */
  function Bfq(t: Transition, places: map<nat, Place>): (r: map<string, int>)
    ensures t.bfq == map[] ==> r.Keys == ObjectTypes(t, places) && forall ot | ot in r :: r[ot] == 1
    ensures t.bfq != map[] ==> r == t.bfq
  {
    if t.bfq != map[] then t.bfq else map ot | ot in ObjectTypes(t, places) :: 1
  }

  /** `maximum_binding_function_quantities`: the set map, or the binding quantities. */
  function MaxQ(t: Transition, places: map<nat, Place>): (r: map<string, int>)
    ensures t.maxQ == map[] ==> r == Bfq(t, places)
    ensures t.maxQ != map[] ==> r == t.maxQ
  {
    if t.maxQ != map[] then t.maxQ else Bfq(t, places)
  }

  /** `minimum_binding_function_quantities`: the set map, or the binding quantities. */
  function MinQ(t: Transition, places: map<nat, Place>): (r: map<string, int>)
    ensures t.minQ == map[] ==> r == Bfq(t, places)
    ensures t.minQ != map[] ==> r == t.minQ
  {
    if t.minQ != map[] then t.minQ else Bfq(t, places)
  }

  /** `variable_object_types`: the types for which the binding does not take exactly one object. */
  function VariableObjectTypes(t: Transition, places: map<nat, Place>): (r: set<string>)
    ensures forall ot :: ot in r <==> ot in Bfq(t, places) && Bfq(t, places)[ot] != 1
  {
    set ot | ot in Bfq(t, places) && Bfq(t, places)[ot] != 1
  }

  /** `output_types_not_input_types`: how many objects each output-only type takes; a type without an entry raises. */
  function OutputTypesNotInputTypes(t: Transition, places: map<nat, Place>): (r: Result<map<string, int>>)
    ensures r.Ok? <==> ObjectTypes(t, places) - InputObjectTypes(t, places) <= Bfq(t, places).Keys
    ensures r.Ok? ==> r.value.Keys == ObjectTypes(t, places) - InputObjectTypes(t, places)
    ensures r.Ok? ==> forall ot | ot in r.value :: r.value[ot] == Bfq(t, places)[ot]
  {
    var only := ObjectTypes(t, places) - InputObjectTypes(t, places);
    if only <= Bfq(t, places).Keys then Ok(map ot | ot in only :: Bfq(t, places)[ot]) else Err(KeyError)
  }

  /** A fresh transition takes one object of each of its types: no type is variable. */
  lemma DefaultQuantitiesAreOne(t: Transition, places: map<nat, Place>)
    requires t.bfq == map[] && t.maxQ == map[] && t.minQ == map[]
    ensures VariableObjectTypes(t, places) == {}
    ensures forall ot | ot in ObjectTypes(t, places) :: Bfq(t, places)[ot] == 1 && MaxQ(t, places)[ot] == 1 && MinQ(t, places)[ot] == 1
  {
  }

  /** The `binding_function_quantities` setter: the keys must be exactly the object types. */
  function SetBfq(t: Transition, places: map<nat, Place>, q: map<string, int>): (r: Result<Transition>)
    ensures r.Ok? <==> q.Keys == ObjectTypes(t, places)
    ensures r.Ok? ==> r.value == t.(bfq := q)
  {
    if q.Keys == ObjectTypes(t, places) then Ok(t.(bfq := q))
    else Err(ValueError(TypesMismatch))
  }

  /** Every object type has a binding quantity and its maximum in `q` is at least that quantity. */
  predicate MaxCoversBfq(ots: set<string>, bfq: map<string, int>, q: map<string, int>) {
    && q.Keys == ots
    && ots <= bfq.Keys
    && forall ot | ot in ots :: q[ot] >= bfq[ot]
  }

  /** Every object type has a maximum and its minimum in `q` does not exceed a non-zero maximum. */
  predicate MinBelowMax(ots: set<string>, mx: map<string, int>, q: map<string, int>) {
    && q.Keys == ots
    && ots <= mx.Keys
    && forall ot | ot in ots && mx[ot] != 0 :: q[ot] <= mx[ot]
  }

  /** The checks of the maximum setter, in the source's order. */
  function CheckMax(ots: set<string>, bfq: map<string, int>, q: map<string, int>): (r: Result<bool>)
    ensures r.Ok? <==> MaxCoversBfq(ots, bfq, q)
    ensures q.Keys == ots && !(ots <= bfq.Keys) ==> r == Err(KeyError)
  {
    if q.Keys != ots then Err(ValueError(TypesMismatch))
    else if !(ots <= bfq.Keys) then Err(KeyError)
    else if forall ot | ot in ots :: q[ot] >= bfq[ot] then Ok(true)
    else Err(ValueError(MaxBelowBfq))
  }

  /** The checks of the minimum setter, in the source's order. */
  function CheckMin(ots: set<string>, mx: map<string, int>, q: map<string, int>): (r: Result<bool>)
    ensures r.Ok? <==> MinBelowMax(ots, mx, q)
  {
    if q.Keys != ots then Err(ValueError(TypesMismatch))
    else if !(ots <= mx.Keys) then Err(KeyError)
    else if forall ot | ot in ots && mx[ot] != 0 :: q[ot] <= mx[ot] then Ok(true)
    else Err(ValueError(MaxBelowBfq))
  }

  /** The maximum setter: the keys must be the object types and no maximum may be below the binding quantity. */
  function SetMaxQ(t: Transition, places: map<nat, Place>, q: map<string, int>): (r: Result<Transition>)
    ensures r.Ok? <==> MaxCoversBfq(ObjectTypes(t, places), Bfq(t, places), q)
    ensures r.Ok? ==> r.value == t.(maxQ := q)
  {
    var _ :- CheckMax(ObjectTypes(t, places), Bfq(t, places), q);
    Ok(t.(maxQ := q))
  }

  /** The minimum setter: the keys must be the object types and no minimum may exceed a non-zero maximum. */
  function SetMinQ(t: Transition, places: map<nat, Place>, q: map<string, int>): (r: Result<Transition>)
    ensures r.Ok? <==> MinBelowMax(ObjectTypes(t, places), MaxQ(t, places), q)
    ensures r.Ok? ==> r.value == t.(minQ := q)
  {
    var _ :- CheckMin(ObjectTypes(t, places), MaxQ(t, places), q);
    Ok(t.(minQ := q))
  }

  /** Setting the binding quantities first and a maximum of at least as much second always succeeds. */
  lemma SetQuantitiesInOrder(t: Transition, places: map<nat, Place>, q: map<string, int>, mx: map<string, int>)
    requires q.Keys == ObjectTypes(t, places) && q != map[]
    requires mx.Keys == q.Keys && forall ot | ot in q :: mx[ot] >= q[ot]
    ensures SetBfq(t, places, q).Ok?
    ensures SetMaxQ(SetBfq(t, places, q).value, places, mx).Ok?
  {
    var t1 := SetBfq(t, places, q).value;
    assert t1.conn == t.conn;
    assert ObjectTypes(t1, places) == ObjectTypes(t, places);
    assert Bfq(t1, places) == q;
  }
}
