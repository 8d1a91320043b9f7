/**
 * Instructions: what the user hooks of an activity hand back to the
 * simulation — create an object, start or end an event, change an object's
 * status, attributes or quantities — each due a delay after now.
 */
module Instructions {
  import opened Wrappers
  import opened Counters
  import opened Objects
  import opened Nets
  import opened Events

  const NoEventYet := "Event has to be created before adding objects."

  /** An object creation's type is `None` once the simulation failed to identify the type name it carried. */
  datatype Instruction =
    | ObjectCreation(delay: int, otype: Option<string>, attributes: map<string, AttrValue>, quantities: Counter,
                     location: Option<set<nat>>, addToBinding: bool, o2o: map<Token, string>)
    | ExecuteEvent(delay: int, activity: string, inputBinding: Binding, eventDuration: Option<int>,
                   eventSlot: Option<Event>, additionalObjects: set<Token>, finalBinding: Binding)
    | TerminateEvent(delay: int, event: Event, execution: Execution)
    | ObjectStatusUpdate(delay: int, obj: Token, newStatus: Status)
    | ObjectAttributeUpdate(delay: int, obj: Token, attributeChanges: map<string, AttrValue>)
    | ObjectQuantityUpdate(delay: int, obj: Token, quantityChanges: Counter)
      /** An instance of the base class itself, which no queue path accepts. */
    | PlainInstruction(delay: int)

  /**
   * `InstructionObjectCreation(...)`: missing attributes, quantities and o2o
   * default to empty, and an empty location set is no location.
   */
  function NewObjectCreation(delay: int, otype: string, attributes: Option<map<string, AttrValue>>,
                             quantities: Option<Counter>, location: Option<set<nat>>, addToBinding: bool,
                             o2o: Option<map<Token, string>>): (r: Instruction)
    ensures r.ObjectCreation? && r.delay == delay && r.otype == Some(otype) && r.addToBinding == addToBinding
    ensures r.attributes == (if attributes.Some? then attributes.value else map[])
    ensures r.quantities == (if quantities.Some? then quantities.value else map[])
    ensures r.o2o == (if o2o.Some? then o2o.value else map[])
    ensures r.location.Some? <==> location.Some? && location.value != {}
    ensures r.location.Some? ==> r.location == location
  {
    ObjectCreation(delay, Some(otype),
      if attributes.Some? && attributes.value != map[] then attributes.value else map[],
      if quantities.Some? && quantities.value != map[] then quantities.value else map[],
      if location.Some? && location.value != {} then location else None,
      addToBinding,
      if o2o.Some? && o2o.value != map[] then o2o.value else map[])
  }

  /**
   * `InstructionExecuteEvent(...)`: a missing binding is empty, a missing or
   * zero duration is no duration, and there is no event, no additional
   * object and an empty final binding yet.
   */
  function NewExecuteEvent(delay: int, activity: string, inputBinding: Option<Binding>, duration: Option<int>): (r: Instruction)
    ensures r.ExecuteEvent? && r.delay == delay && r.activity == activity
    ensures r.inputBinding == (if inputBinding.Some? then inputBinding.value else map[])
    ensures r.eventDuration.Some? <==> duration.Some? && duration.value != 0
    ensures r.eventDuration.Some? ==> r.eventDuration == duration
    ensures r.eventSlot.None? && r.additionalObjects == {} && r.finalBinding == map[]
  {
    ExecuteEvent(delay, activity,
      if inputBinding.Some? && inputBinding.value != map[] then inputBinding.value else map[],
      if duration.Some? && duration.value != 0 then duration else None,
      None, {}, map[])
  }

  /** `InstructionTerminateEvent(event, execution)`: due after the event's duration. */
  function NewTerminateEvent(e: Event, x: Execution): (r: Instruction)
    ensures r.TerminateEvent? && r.event == e && r.execution == x
    ensures r.delay == e.duration
  {
    TerminateEvent(e.duration, e, x)
  }

  /** `add_objects`: raises until an event is attached, then collects the objects. */
  function AddObjects(ins: Instruction, objs: set<Token>): (r: Result<Instruction>)
    requires ins.ExecuteEvent?
    ensures r.Ok? <==> ins.eventSlot.Some?
    ensures r.Err? ==> r.error == ValueError(NoEventYet)
    ensures r.Ok? ==> r.value.ExecuteEvent? && r.value == ins.(additionalObjects := r.value.additionalObjects)
    ensures r.Ok? ==> forall o :: o in r.value.additionalObjects <==> o in ins.additionalObjects || o in objs
  {
    if ins.eventSlot.Some? then Ok(ins.(additionalObjects := ins.additionalObjects + objs))
    else Err(ValueError(NoEventYet))
  }

  /** The additional objects of type `ot`. */
  function OfType(objs: set<Token>, ot: string): set<Token> {
    set o | o in objs && o.otype == ot
  }

  /**
   * `create_final_binding_function`: a copy of the input binding in which
   * every type present among the additional objects is bound to exactly
   * those objects.
   */
  function FinalBinding(input: Binding, additional: set<Token>): (r: Binding)
  {
    var types := set o | o in additional :: o.otype;
    (map ot | ot in input && ot !in types :: input[ot]) + (map ot | ot in types :: OfType(additional, ot))
  }

  /** The instruction keeps its input binding: the final binding is built on a copy. */
  function CreateFinalBindingFunction(ins: Instruction): (r: Instruction)
    requires ins.ExecuteEvent?
    ensures r.ExecuteEvent? && r == ins.(finalBinding := r.finalBinding)
    ensures r.inputBinding == ins.inputBinding
    ensures forall o | o in ins.additionalObjects :: o.otype in r.finalBinding && o in r.finalBinding[o.otype]
  {
    FinalBindingMeaning(ins.inputBinding, ins.additionalObjects, "");
    ins.(finalBinding := FinalBinding(ins.inputBinding, ins.additionalObjects))
  }

  /**
   * The final binding keeps every input type no additional object has,
   * replaces the others by exactly the additional objects of that type, and
   * binds each additional object under its own type.
   */
  lemma FinalBindingMeaning(input: Binding, additional: set<Token>, ot: string)
    ensures ot in FinalBinding(input, additional) <==> ot in input || exists o | o in additional :: o.otype == ot
    ensures ot in FinalBinding(input, additional) ==>
      FinalBinding(input, additional)[ot] == if (exists o | o in additional :: o.otype == ot) then OfType(additional, ot) else input[ot]
    ensures forall o | o in additional :: o.otype in FinalBinding(input, additional) && o in FinalBinding(input, additional)[o.otype]
  {
    var types := set o | o in additional :: o.otype;
    assert (exists o | o in additional :: o.otype == ot) <==> ot in types;
    forall o | o in additional ensures o.otype in types {
    }
  }

  /**
   * The objects of the final binding are the additional ones together with
   * the input's objects of the types no additional object has.
   */
  lemma FinalBindingObjects(input: Binding, additional: set<Token>, o: Token)
    requires forall ot | ot in input :: forall x | x in input[ot] :: x.otype == ot
    ensures o in BoundObjects(FinalBinding(input, additional)) <==>
      o in additional || (o in BoundObjects(input) && forall a | a in additional :: a.otype != o.otype)
  {
    var f := FinalBinding(input, additional);
    if o in additional {
      FinalBindingMeaning(input, additional, o.otype);
    }
    if o in BoundObjects(input) && forall a | a in additional :: a.otype != o.otype {
      var ot :| ot in input && o in input[ot];
      FinalBindingMeaning(input, additional, ot);
      assert o in f[ot];
    }
    if o in BoundObjects(f) {
      var ot :| ot in f && o in f[ot];
      FinalBindingMeaning(input, additional, ot);
    }
  }

  /** Without additional objects the final binding is the input binding. */
  lemma FinalBindingWithoutAdditions(input: Binding)
    ensures FinalBinding(input, {}) == input
  {
    var f := FinalBinding(input, {});
    forall ot ensures ot in f <==> ot in input {
      FinalBindingMeaning(input, {}, ot);
    }
    forall ot | ot in f ensures f[ot] == input[ot] {
      FinalBindingMeaning(input, {}, ot);
    }
  }
}
