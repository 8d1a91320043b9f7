# Quantity net execution in Dafny

A model of the execution semantics of `qel_simulation`, a simulator of
object-centric quantity Petri nets, together with the discrete-event queue
that drives it.

A quantity net has three kinds of node:
- object places, which hold typed objects;
- collection points, which hold a counter of items per item type;
- transitions, which stand for activities.

Object arcs join an object place and a transition. Quantity arcs join a
collection point and a transition.

Firing has two phases:
- **Start.** The transition chooses a binding: per input object type, a
  set of active objects found in every input place of that type. The
  binding must meet the transition's quantities and its guard. Starting
  removes the bound objects from the input places and applies the
  qalculator's quantity operations to the connected collection points. It
  records one execution in the transition and in the net's registry.
- **End.** The execution's objects go to every output place of their type.
  The transition forgets the execution.

On top of the net sit:
- triggers: thresholds on marking sizes, in-flight execution counts and
  stock levels;
- instructions, which the activity hooks hand back;
- events, which log an execution;
- the execution queue, which stamps each instruction with its due time and
  pops whatever is due now;
- the simulation steps: offering the enabled activities, starting and
  terminating an event, final markings, and the initial object counts.

How the model represents the source:
- One Dafny module per component: `Counters` for Python's `Counter`,
  `Places`, `Arcs`, `Guards`, `Qalculators`, `Transitions`, `Nets`,
  `Triggers`, `Instructions`, `Events`, `ExecutionQueue` and
  `NetExecution`, with helpers for results, sequences and decimal names.
- Python objects compared by identity are values with a natural-number id.
  Explicit counters in the state hand out fresh ids, in place of `uuid4`
  and the global counts.
- Markings and bindings are finite sets.
- Counters are `map<string, int>`, with each of Python's sign rules
  written out.
- Times and durations are integers.
- A call that raises returns `Err` with the exception kind and, for a
  `ValueError`, its message. Where the source's message interpolates
  values (an f-string naming the transition, binding or execution), the
  model keeps only the fixed wording, without the interpolated values.
- Python's set iteration order, which the source relies on in a few
  places, is an arbitrary but fixed ordering (`Seqs.SetToSeq`). A function
  that depends on it is ghost.
- User-supplied callables are parameters. These are the object guards, the
  custom quantity guards, the qalculators and the event hooks.

## Model

| member | source | states |
|---|---|---|
| Counters.Project | qel_simulation/components/net_elements/guard.py:49-52 | the projection of a counter onto a set of item types has exactly the item types that are both in the set and in the counter, each with its original count |
| Counters.UpdateMeaning | qel_simulation/qnet_elements/qalculator.py:134 | `Counter.update` adds every item type's count of the operand to the current one, with missing item types read as 0 and signed results kept |
| Counters.SubtractMeaning | qel_simulation/qnet_elements/qalculator.py:112-116 | `Counter.subtract` takes every item type's count of the operand off the current one, keeping zero and negative results |
| Counters.UpdateThenSubtract | qel_simulation/qnet_elements/qalculator.py:134-140 | subtracting the operations just added restores every item type's count |
| Counters.MinusMeaning | qel_simulation/qnet_elements/qalculator.py:138 | binary `-` keeps exactly the item types whose difference is positive, with that difference |
| Counters.PosMeaning | qel_simulation/qnet_elements/qalculator.py:135 | unary `+` keeps exactly the positive item types, unchanged |
| Counters.NegMeaning | qel_simulation/qnet_elements/qalculator.py:123 | unary `-` keeps exactly the negative item types, negated |
| Counters.LeMeaning | qel_simulation/qnet_elements/qalculator.py:130 | `<=` on counters holds exactly when every item type, present or not, compares |
| Elements.ElementName | src/components/base_element.py:6-8 | a non-empty given name is kept; a missing or empty name falls back to the element's own id |
| Elements.ElementLabel | src/components/base_element.py:9 | a label is stored only when it is a non-empty string; otherwise there is none |
| Elements.NewConnected | src/components/base_element.py:76-80 | a new connected element starts without input or output arcs |
| Elements.AllArcs | src/components/base_element.py:82-84 | an element's arcs are exactly its input arcs together with its output arcs |
| Elements.Inputs | src/components/base_element.py:102-107 | the inputs are exactly the connected elements that are the source of some input arc |
| Elements.Outputs | src/components/base_element.py:109-114 | the outputs are exactly the connected elements that are the target of some output arc |
| Elements.AddInputArc | src/components/base_element.py:116-124 | an input arc is accepted exactly when its source is not an instance of its target's class and the element is its target; it is then added and nothing else changes; otherwise ValueError |
| Elements.AddOutputArc | src/components/base_element.py:126-134 | an output arc is accepted exactly when its endpoints' classes differ and the element is its source; it is then added and nothing else changes; otherwise ValueError |
| Elements.AddArcTwice | src/components/base_element.py:116-134 | adding an arc a second time changes nothing, because the arcs are kept in sets |
| Elements.InputOutputChecksDiffer | src/components/base_element.py:117-127 | the two class checks disagree: an arc from an object place into a plain place passes the output check but fails the input check |
| Elements.ChecksAgreeOnTransitionPlaceArcs | src/components/base_element.py:116-134 | between a transition and a place, in either direction, both the source's output check and the target's input check accept the arc |
| Places.NewPlainPlace | src/components/net_elements/place.py:6-12 | a new plain place has no arcs and no marking yet, and is therefore both initial and final |
| Places.NewObjectPlace | qel_simulation/qnet_elements/object_place.py:8-14 | a new object place has no arcs, an empty marking, and the given object type or `DefaultObject` when none is given |
| Places.NewCollectionPoint | qel_simulation/components/collection_point.py:7-10 | a new collection point has no arcs, an empty stock counter and no item types |
| Places.InitialFlagCannotHide | src/components/net_elements/place.py:17-31 | a place without input arcs is initial whether its explicit flag is set true or false, because a false flag falls through to inference |
| Places.InferredEnds | src/components/net_elements/place.py:17-43 | without explicit flags a place is initial exactly when it has no input arcs and final exactly when it has no output arcs |
| Places.PlainAddToken | src/components/net_elements/place.py:53-57 | adding to a plain place succeeds exactly for an integer on a place that has a marking, and adds it; a non-integer raises ValueError and a missing marking raises TypeError |
| Places.PlainRemoveToken | src/components/net_elements/place.py:59-63 | removing from a plain place succeeds exactly for an integer no larger than the marking, and subtracts it; a missing marking raises TypeError |
| Places.PlainRemoveKeepsNonNegative | src/components/net_elements/place.py:59-63 | a successful removal never takes a non-negative marking below zero |
| Places.PlainAddOnFreshPlaceFails | src/components/net_elements/place.py:12-57 | adding to a freshly built plain place always raises, because its marking is still unset |
| Places.AddToken | qel_simulation/qnet_elements/object_place.py:27-32 | an object is added exactly when it has the place's object type; otherwise ValueError and nothing else changes |
| Places.RemoveToken | qel_simulation/qnet_elements/object_place.py:34-39 | an object is removed exactly when it is in the marking; otherwise ValueError |
| Places.AddTokens | qel_simulation/qnet_elements/object_place.py:45-47 | adding several objects changes only the place's marking, even when it raises part way |
| Places.AddTokensMeaning | qel_simulation/qnet_elements/object_place.py:45-47 | the objects before the first one of the wrong type are added, and an error is raised exactly when such an object exists |
| Places.RemoveTokens | qel_simulation/qnet_elements/object_place.py:41-43 | removing several objects only ever shrinks the marking and changes nothing else |
| Places.RemoveTokensPresent | qel_simulation/qnet_elements/object_place.py:41-43 | removing distinct objects that are all present raises nothing and takes out exactly those objects |
| Places.RemoveTokensStopsAtMissing | qel_simulation/qnet_elements/object_place.py:34-43 | a missing object raises after the earlier objects have already been removed |
| Places.UpdateMarking | qel_simulation/components/collection_point.py:51-59 | a Counter is added to the stock item type by item type, without a lower bound, and its item types join the point's item types; anything else raises |
| Places.UpdateMarkingCanGoNegative | qel_simulation/components/collection_point.py:51-53 | a removal larger than the stock is applied in full, leaving a negative stock |
| Places.PointAddToken | qel_simulation/components/collection_point.py:41-44 | adding tokens to a collection point always raises ValueError |
| Places.PointRemoveToken | qel_simulation/components/collection_point.py:46-49 | removing tokens from a collection point always raises ValueError |
| Places.SetPointSilent | qel_simulation/components/collection_point.py:34-39 | making a point silent clears its label; making it not silent labels it with its name; nothing else changes |
| Places.SetPointSilentReadBack | qel_simulation/components/collection_point.py:27-39 | reading `silent` back gives the value set, for any point whose name is not empty |
| Places.SetItemTypes | qel_simulation/components/collection_point.py:16-25 | a string becomes a one-element set, a set is kept, a list or tuple is collected into a set, and anything else raises; the stock is untouched |
| Places.MakeCollectionCounter | qel_simulation/components/collection_counter.py:7-13 | the counter is built exactly when every key is a collection point and every value a Counter, and then maps each key to its value; otherwise the error is the message for the first invalid entry: a key that is not a collection point, else a value that is not a Counter |
| Places.SetCounter | qel_simulation/components/collection_counter.py:15-20 | an entry is set exactly when its key is a collection point and its value a Counter; every other entry is unchanged |
| Arcs.NewArc | qel_simulation/qnet_elements/arc.py:7-23 | an arc is built exactly when one endpoint is a place and the other is not; it keeps the given name or is named "(source, target)"; otherwise ValueError |
| Arcs.PlaceAndTransitionSplitEndpoints | qel_simulation/qnet_elements/arc.py:25-37 | on a well-formed arc, `place` and `transition` are the two endpoints, the first a place and the second not |
| Arcs.NewObjectArc | src/components/net_elements/object_arc.py:5-14 | an object arc is built exactly when the plain arc checks pass and its place is an object place; it starts not explicitly variable |
| Arcs.Variable | src/components/net_elements/object_arc.py:16-30 | an explicitly variable arc is variable; otherwise the transition's objects-per-firing for the arc's type decides (variable unless it is 1), and a missing entry raises KeyError |
| Arcs.SetVariable | src/components/net_elements/object_arc.py:32-34 | the setter stores the flag and keeps the endpoints |
| Arcs.VariableDecidedByTransition | src/components/net_elements/object_arc.py:16-30 | with the flag unset, the arc is variable exactly when the transition takes other than one object of its type; with the flag set, it always is |
| Arcs.NewQarc | qel_simulation/qnet_elements/qarc.py:6-13 | a quantity arc is built exactly when one endpoint is a collection point and the plain arc checks pass; the collection-point check comes first |
| Arcs.QarcNeedsATransition | qel_simulation/qnet_elements/qarc.py:6-13 | two collection points can never be joined by a quantity arc, because both are places |
| Objects.NewObject | src/components/log_elements/object.py:63-105 | a new object takes the next object count (which is incremented), is named "o-<count>", starts Created and not active, with no changed attributes, both change times set to its creation time, and the default attributes overridden by the keyword arguments |
| Objects.ObjectNamesDistinct | src/components/log_elements/object.py:94-105 | objects created at distinct counts carry distinct names |
| Objects.ApplyChanges | src/components/log_elements/object.py:145-150 | applying attribute changes never adds or removes an attribute |
| Objects.ChangedNames | src/components/log_elements/object.py:144-148 | the recorded changed attributes are all changeable and no more numerous than the requests |
| Objects.ApplyChangesMeaning | src/components/log_elements/object.py:145-150 | after the changes, each attribute holds the last value requested for it when it is present and not built in, and its old value otherwise |
| Objects.LastRequestedSplit | src/components/log_elements/object.py:145-148 | the last request for an attribute is the last one in the remaining requests, or else the first request when only that one names it |
| Objects.ChangeObjectAttributes | src/components/log_elements/object.py:140-154 | each attribute ends with its last changeable request, exactly the changeable requested names are recorded, one per request and in request order, the attribute change time is the given time, and status and quantities are untouched |
| Objects.ChangedNamesInOrder | src/components/log_elements/object.py:144-148 | the recorded names are the changeable requests, one per request, in the order they were made |
| Objects.ChangedNamesComplete | src/components/log_elements/object.py:144-148 | every changeable attribute named in a request is recorded as changed |
| Objects.AllAttributesMeaning | src/components/log_elements/object.py:145-150 | the per-attribute meaning of the changes holds for every attribute at once |
| Objects.ChangeObjectQuantity | src/components/log_elements/object.py:156-166 | a non-Counter raises; otherwise every item type's quantity moves by the update, signed, the quantity change time is the given time, and attributes and status are untouched |
| Objects.ClearChangedAttributes | src/components/log_elements/object.py:171-172 | clearing empties the changed-attribute list and touches nothing else |
| Objects.MakeMultisetObject | src/components/log_elements/object.py:183-189 | building the multiset raises exactly when some element is not an object; otherwise each object's multiplicity is the number of times it was given |
| Objects.MultisetAdd | src/components/log_elements/object.py:191-195 | adding raises exactly for a non-object; otherwise that object's multiplicity grows by one and no other changes |
| Objects.BoundObjects | src/components/log_elements/object.py:198-199 | the objects of a binding are exactly those bound under some object type |
| Guards.AboveThreshold | qel_simulation/components/net_elements/guard.py:117-123 | the item types left after subtracting the threshold from the projected level are exactly the threshold's item types whose level is strictly above their threshold |
| Guards.ItemTypesAny | qel_simulation/components/net_elements/guard.py:113-129 | the "any" check holds exactly when some threshold item type is at or below its threshold |
| Guards.ItemTypesAll | qel_simulation/components/net_elements/guard.py:131-147 | the "all" check holds exactly when every threshold item type is at or below its threshold |
| Guards.EmptyThreshold | qel_simulation/components/net_elements/guard.py:113-147 | with an empty threshold the "any" check fails (zero equals zero) and the "all" check holds |
| Guards.NewSmallStock | qel_simulation/components/net_elements/guard.py:62-71 | given item-type modes are kept when non-empty; otherwise every threshold collection point gets "any" mode; thresholds and the collection-point mode are stored |
| Guards.CheckCounter | qel_simulation/components/net_elements/guard.py:84-87 | one collection point's check succeeds exactly when the point has a mode and a state, and is then its "all" or "any" item-type check as its mode says; otherwise KeyError |
| Guards.CountersAllMeaning | qel_simulation/components/net_elements/guard.py:80-94 | when every point resolves, "all" mode raises nothing and holds exactly when every point's check holds |
| Guards.CountersAnyMeaning | qel_simulation/components/net_elements/guard.py:96-111 | when every point resolves, "any" mode raises nothing and holds exactly when some point's check holds |
| Guards.AllModeStopsEarly | qel_simulation/components/net_elements/guard.py:89-92 | "all" mode returns False at the first point that is not low, before a later point with no state could raise |
| Guards.SmallStockCall | qel_simulation/components/net_elements/guard.py:73-78 | calling the guard runs the "all" or the "any" collection-point check as its mode says |
| Guards.DefaultModesResolve | qel_simulation/components/net_elements/guard.py:69-70 | with default modes, every threshold collection point has a mode, so the guard never fails a mode lookup |
| Guards.CheckObjects | qel_simulation/components/net_elements/guard.py:183-187 | the object check is the object guard's answer, or True when there is none |
| Guards.CheckQuantities | qel_simulation/components/net_elements/guard.py:189-194 | the quantity check is the quantity guard's answer (a base quantity guard always answers True), or True when there is none |
| Guards.Call | qel_simulation/components/net_elements/guard.py:196-202 | the guard answers True exactly when both checks pass, False when the object check fails, and None when only the quantity check fails |
| Guards.EmptyGuardAccepts | qel_simulation/components/net_elements/guard.py:153-156 | a guard without sub-guards answers True for every binding and state |
| Guards.DetermineAvailableItems | qel_simulation/components/net_elements/guard.py:29-47 | when everything demanded is in stock the demand is returned; otherwise each demanded item type gets the negated stock that would be left after the full demand |
| Guards.DetermineAvailableItemsRemovesNothing | qel_simulation/components/net_elements/guard.py:43-47 | when one item type is demanded and only part of it is in stock, the helper removes nothing |
| Guards.DetermineAvailableItemsReturnsRemainder | qel_simulation/components/net_elements/guard.py:43-47 | with 2 of 5 and 7 of 4 demanded, the helper proposes removing 3 (the remainder) of the first and none of the second |
| Guards.DetermineAvailableItemsCorrected | qel_simulation/qnet_elements/qalculator.py:118-142 | the corrected helper removes, per demanded item type, what is in stock up to the demand, and never takes a non-negative stock below zero |
| Qalculators.NewQalculator | qel_simulation/qnet_elements/qalculator.py:10-11 | a new qalculator is connected to no collection point |
| Qalculators.SetConnectedCounters | qel_simulation/qnet_elements/qalculator.py:17-22 | the connected collection points are replaced exactly when a set is given; anything else raises ValueError |
| Qalculators.DetermineQuantityOperations | qel_simulation/qnet_elements/qalculator.py:148-154 | the default qalculator decides no quantity operation; a user qalculator's decision is passed through |
| Qalculators.RemainingDemand | qel_simulation/qnet_elements/qalculator.py:112-116 | the remaining demand has an entry for every item type of the full or the possible demand |
| Qalculators.RemainingDemandCompletes | qel_simulation/qnet_elements/qalculator.py:112-116 | the possible demand and the remaining demand add back up to the full demand, item type by item type |
| Qalculators.QuantityUpdateRemovingAvailableItems | qel_simulation/qnet_elements/qalculator.py:118-142 | the update only names demanded item types; each demanded item type loses what is in stock up to what is demanded; when everything is in stock the update is the demand itself, and otherwise every entry is a strict removal |
| Qalculators.RemovalWhenAllAvailable | qel_simulation/qnet_elements/qalculator.py:129-131 | when everything demanded is in stock, the demand already equals the feasible removal for every demanded item type |
| Qalculators.RemovalWhenShort | qel_simulation/qnet_elements/qalculator.py:132-142 | in a shortage, the stock before minus the positive stock after is a strict removal of the feasible amount for every demanded item type |
| Qalculators.RemovalKeepsStockNonNegative | qel_simulation/qnet_elements/qalculator.py:118-142 | applying the update to a non-negative stock never leaves it negative |
| Transitions.NewTransition | src/components/net_elements/transition.py:24-40 | a new transition has no arcs, no executions, an empty guard, no explicit quantities and is not manually initiated; its qalculator (the default one when none is given) is connected to no collection point; it is silent exactly when it has no label |
| Transitions.SetLabel | src/components/net_elements/transition.py:135-141 | a non-empty label is stored and makes the transition visible; an empty one only makes it silent and keeps the old label |
| Transitions.SetSilent | src/components/net_elements/transition.py:87-99 | the silent flag, once set, is what `silent` reads back, whatever the label |
| Transitions.InputPlaces | src/components/net_elements/transition.py:153-155 | the input places are object places of the net |
| Transitions.OutputPlaces | src/components/net_elements/transition.py:169-171 | the output places are object places of the net |
| Transitions.ConnectedCounters | src/components/net_elements/transition.py:157-167 | the connected counters are collection points of the net |
| Transitions.QuantityState | src/components/net_elements/transition.py:83-85 | the quantity state maps exactly the connected collection points to their current stock |
| Transitions.OTypes | src/components/net_elements/transition.py:106-116 | an object type is listed exactly when one of the given object places has it |
| Transitions.ObjectTypes | src/components/net_elements/transition.py:105-108 | a transition's object types are its input object types together with its output object types |
| Transitions.InputPlacesOfType | src/components/net_elements/transition.py:238-239 | the input places of a type all have that type, and there is one exactly when the type is an input object type |
| Transitions.OutputPlacesOfType | src/components/net_elements/transition.py:241-242 | the output places of a type all have that type, and there is one exactly when the type is an output object type |
| Transitions.Bfq | src/components/net_elements/transition.py:178-186 | without explicit binding quantities every object type takes one object; otherwise the explicit ones apply |
| Transitions.MaxQ | src/components/net_elements/transition.py:197-203 | without an explicit maximum the binding quantities are the maximum |
| Transitions.MinQ | src/components/net_elements/transition.py:218-223 | without an explicit minimum the binding quantities are the minimum |
| Transitions.VariableObjectTypes | src/components/net_elements/transition.py:126-129 | an object type is variable exactly when its binding quantity is other than one |
| Transitions.OutputTypesNotInputTypes | src/components/net_elements/transition.py:173-176 | the output-only object types map to their binding quantities, and a missing binding quantity raises KeyError |
| Transitions.DefaultQuantitiesAreOne | src/components/net_elements/transition.py:178-223 | on a transition without explicit quantities, no object type is variable and binding, maximum and minimum quantities are all one |
| Transitions.SetBfq | src/components/net_elements/transition.py:188-195 | binding quantities are stored exactly when their object types are the transition's object types; otherwise ValueError |
| Transitions.CheckMax | src/components/net_elements/transition.py:208-216 | the maximum check passes exactly when the maximum names every object type and is at least each binding quantity; an object type without binding quantity raises KeyError |
| Transitions.CheckMin | src/components/net_elements/transition.py:228-236 | the minimum check passes exactly when the minimum names every object type and is at most each non-zero maximum |
| Transitions.SetMaxQ | src/components/net_elements/transition.py:205-216 | a maximum is stored exactly when it passes the maximum check |
| Transitions.SetMinQ | src/components/net_elements/transition.py:225-236 | a minimum is stored exactly when it passes the minimum check |
| Transitions.SetQuantitiesInOrder | src/components/net_elements/transition.py:188-216 | setting the binding quantities and then a maximum at least as large both succeed |
| Combinations.KSubsetsCount | src/components/net_elements/transition.py:296-297 | `combinations` of n elements of size k yields n choose k sets |
| Combinations.KSubsetsSound | src/components/net_elements/transition.py:296-297 | every combination of distinct elements is a k-element subset of them |
| Combinations.KSubsetsComplete | src/components/net_elements/transition.py:296-297 | every k-element subset of the elements is produced |
| Combinations.KSubsetsDistinct | src/components/net_elements/transition.py:296-297 | over distinct elements, no combination is produced twice |
| Combinations.KSubsetsRangeMembers | src/components/net_elements/transition.py:278-290 | the combinations of every size in a range are exactly the subsets whose size lies in the range |
| Combinations.KSubsetsRangeDistinct | src/components/net_elements/transition.py:278-290 | the combinations of every size in a range list no subset twice |
| Combinations.ProductSound | src/components/net_elements/transition.py:311-318 | every binding built from the product picks one listed option for every object type |
| Combinations.ProductComplete | src/components/net_elements/transition.py:311-318 | every binding that picks one listed option for every object type is built |
| Combinations.ProductMeaning | src/components/net_elements/transition.py:307-318 | the product holds exactly the bindings that pick one listed option per object type (one empty binding when there is no type) |
| TransitionBindings.MarkingIntersection | src/components/net_elements/transition.py:387-394 | an object is in the intersection exactly when the type has input places and the object is in every one of them |
| TransitionBindings.Eligible | src/components/net_elements/transition.py:269-270 | the objects offered for a type are exactly the active objects of the marking intersection |
| TransitionBindings.SizeCheck | src/components/net_elements/transition.py:423-441 | a non-zero binding quantity demands exactly that many objects; a zero one with a zero maximum accepts any number, and otherwise a number between minimum and maximum; a missing quantity raises KeyError |
| TransitionBindings.TypeCheck | src/components/net_elements/transition.py:417-456 | one object type's check raises ValueError when the binding lacks the type, and otherwise passes exactly when the size rule holds and an input type's objects lie in every input place of the type |
| TransitionBindings.AllChecksMeaning | src/components/net_elements/transition.py:417-458 | the loop over the object types passes exactly when every check passes, and raises only when some check raises |
| TransitionBindings.ConsideredTypes | src/components/net_elements/transition.py:416 | the check considers the input object types only, or all object types |
| TransitionBindings.QuantitiesCoverWhenKeyedByTypes | src/components/net_elements/transition.py:178-236 | quantity maps that are unset or keyed by exactly the object types give every object type all three quantities |
| TransitionBindings.BindingEnabledMeaning | src/components/net_elements/transition.py:397-458 | the binding check passes exactly when every considered type passes its check, and raises only for a considered type the binding lacks |
| TransitionBindings.TypeCheckPassed | src/components/net_elements/transition.py:417-456 | a passed type check means the binding names the type and, for an input type, binds only objects present in every input place of the type |
| TransitionBindings.BindingEnabledPasses | src/components/net_elements/transition.py:397-458 | a passed binding check names every considered type and binds only objects present in every matching input place |
| TransitionBindings.TypeCheckMeaning | src/components/net_elements/transition.py:417-456 | with the type's quantities defined, the check passes exactly when the type is fine, and raises only when the binding lacks the type |
| TransitionBindings.AllChecksOverSet | src/components/net_elements/transition.py:416-417 | the outcome of the loop does not depend on the order in which the set of types is visited |
| TransitionBindings.Enabled | src/components/net_elements/transition.py:460-469 | an enabled binding passes the binding check and the guard accepts it on the current quantity state |
| TransitionBindings.EnabledMeaning | src/components/net_elements/transition.py:460-469 | a binding is enabled exactly when every considered type passes its check and the guard answers True |
| TransitionBindings.EnabledNeedsOutputTypes | src/components/net_elements/transition.py:416-421 | the full check never passes a binding that lacks one of the transition's object types, output-only ones included |
| TransitionBindings.CandidateSets | src/components/net_elements/transition.py:273-298 | building the candidate sets raises exactly when a negative size is asked of `combinations` |
| TransitionBindings.CandidateSetsCorrected | src/components/net_elements/transition.py:273-298 | the corrected candidate sets raise in exactly the same cases |
| TransitionBindings.CandidateSetsCorrectedMeaning | src/components/net_elements/transition.py:273-298 | the corrected candidates are exactly the admissible sets among the eligible objects, each listed once |
| TransitionBindings.CandidateSetsListsEmptyTwice | src/components/net_elements/transition.py:276-294 | with no required objects and a minimum of zero, the source lists the empty set first as the size-0 combination and then once more at the end |
| TransitionBindings.CandidateSetsOtherwiseAgree | src/components/net_elements/transition.py:273-298 | in every other case the source's candidate list is the corrected one |
| TransitionBindings.OptionsFor | src/components/net_elements/transition.py:261-304 | for one input type, the enumeration raises only for a missing or negative quantity, gives up when too few objects are eligible (and then no set is a candidate), and otherwise lists exactly the candidate sets |
| TransitionBindings.CollectOptions | src/components/net_elements/transition.py:258-305 | the collected lists follow the input types in order and each lists exactly its type's candidates; giving up means some type has no candidate |
| TransitionBindings.FilterGuard | src/components/net_elements/transition.py:320-323 | the filter keeps exactly the bindings the guard answers True for, and raises only when the guard raises for one of them |
| TransitionBindings.DetermineNewBindingFunctionsMeaning | src/components/net_elements/transition.py:244-328 | the enumeration returns exactly the bindings that pick one candidate set per input type and are accepted by the guard, and None when there is none |
| TransitionBindings.NoCandidatesNoBinding | src/components/net_elements/transition.py:302-304 | when one input type has no candidate, no binding is enabled by the enumeration's rules |
| TransitionBindings.ProductOfCandidates | src/components/net_elements/transition.py:307-318 | the cross product of the collected lists holds exactly the bindings that pick a candidate for every input type |
| TransitionBindings.EnumeratedBindingsAreEnabled | src/components/net_elements/transition.py:244-328 | every binding the enumeration can produce passes the input-only enabled check |
| TransitionFiring.RemoveBound | src/components/net_elements/transition.py:481-486 | every input place of a bound type loses exactly the objects bound for its type, and every other place is untouched |
| TransitionFiring.RemoveBoundIsRemoveTokens | src/components/net_elements/transition.py:485-486 | removing the bound objects one at a time, in any order, raises nothing when they are all present and ends where the set removal does |
| TransitionFiring.ExecuteQuantityOperations | src/components/net_elements/transition.py:547-553 | every collection point with an operation gets it added to its stock, signed; every other place is untouched |
| TransitionFiring.RemoveBoundKeepsQuantityState | src/components/net_elements/transition.py:481-490 | taking the objects out first leaves the quantity state the qalculator is shown unchanged |
| TransitionFiring.StartFiring | src/components/net_elements/transition.py:471-499 | starting succeeds exactly when the binding is enabled over all object types (a disabled one raises ValueError); it then consumes the bound objects, applies the qalculator's operations once and appends one execution that records the binding and those operations |
| TransitionFiring.StartFiringConsumes | src/components/net_elements/transition.py:476-486 | after a successful start every input place of a bound type held the bound objects and has lost exactly them |
| TransitionFiring.IdentifyExecution | src/components/net_elements/transition.py:527-539 | an execution object is found exactly when it is in flight; an id is found exactly when it is the id of the first execution in flight; with none in flight the caller fails on None |
| TransitionFiring.FindById | src/components/net_elements/transition.py:532-534 | an execution is found exactly when some execution in flight has the id, and the one found has it |
| TransitionFiring.IdentifyExecutionCorrected | src/components/net_elements/transition.py:527-539 | the corrected lookup finds an execution object exactly when it is in flight and an id exactly when some execution in flight has it; every failure is a ValueError |
| TransitionFiring.IdentifyExecutionMissesLaterIds | src/components/net_elements/transition.py:532-536 | with two executions in flight, the second cannot be found by its id as written, and is found by the corrected lookup |
| TransitionFiring.IdentifyExecutionAgreesOnFirst | src/components/net_elements/transition.py:527-536 | both lookups agree on execution objects and on the id of the oldest execution |
| TransitionFiring.AddBound | src/components/net_elements/transition.py:506-511 | the bound objects are added to every output place of their type, and nothing else changes; it raises ValueError exactly when some output place is bound an object of another type |
| TransitionFiring.AddBoundIsAddTokens | src/components/net_elements/transition.py:510-511 | adding the bound objects one at a time, in any order, raises nothing and ends where the set addition does |
| TransitionFiring.EndFiring | src/components/net_elements/transition.py:501-514 | ending succeeds exactly when the corrected lookup finds the execution and its objects can be added; the objects go to the output places and one copy of the execution leaves the in-flight list |
| TransitionFiring.CompleteFiring | src/components/net_elements/transition.py:541-545 | a complete firing succeeds only when its start half does |
| TransitionFiring.CompleteFiringRestoresExecutions | src/components/net_elements/transition.py:541-545 | a complete firing with a fresh execution id leaves the in-flight list as it was |
| TransitionFiring.CompleteFiringMovesObjects | src/components/net_elements/transition.py:471-514 | a complete firing takes the bound objects out of an input-only place, puts them into an output-only place, and leaves a place on both sides as it was |
| TransitionFiring.CompleteFiringObjectPlace | src/components/net_elements/transition.py:471-514 | after a complete firing a bound object place has lost the bound objects if it is an input and gained them if it is an output |
| TransitionFiring.StartFiringObjectPlace | src/components/net_elements/transition.py:481-493 | the start half leaves an object place as the removal leaves it; the quantity operations touch only collection points |
| TransitionFiring.ConsumeThenOperate | src/components/net_elements/transition.py:481-493 | applying quantity operations after the removal keeps every place's kind and object type and leaves object places as the removal did |
| TransitionFiring.EndFiringObjectPlace | src/components/net_elements/transition.py:506-514 | the end half leaves an object place as the set addition leaves it |
| TransitionFiring.SameOutputPlaces | src/components/net_elements/transition.py:169-171 | firing changes markings only, so the transition has the same output places before and after |
| Nets.NewNet | qel_simulation/components/quantity_net.py:23-28 | a new net has no place, no transition, no arc and no registered execution |
| Nets.Unique | qel_simulation/components/quantity_net.py:855-863 | a lookup yields the single match, `None` when nothing matches, and raises `ValueError` when the match is not unique |
| Nets.IdentifyNode | qel_simulation/components/quantity_net.py:743-782 | a node object comes back exactly when it belongs to the net; anything but a node or a string raises; a string found by name among the nodes the element type selects is that node, and an ambiguous name raises; whatever is found carries the string as its name or label |
| Nets.IdentifyNodeRejectsShortSpellings | qel_simulation/components/quantity_net.py:851-877 | as written, the element types "p" and "places" raise in the lookup by name, and "t" raises in the lookup by label, for any string that names no node |
| Nets.IdentifyNodeCorrected | qel_simulation/components/quantity_net.py:743-935 | with the spellings evidently intended, the lookup returns the unique node named or labelled by the string within the selected nodes and `None` when neither name nor label matches |
| Nets.IdentifyNodeCorrectedAcceptsShortSpellings | qel_simulation/components/quantity_net.py:851-911 | with the intended spellings, "p" and "places" select the places and "t" the transitions, like "place" and "transition" |
| Nets.IdentifyNodeAgreesOnCommonSpellings | qel_simulation/components/quantity_net.py:851-935 | on every spelling both lists share, and with no element type, the lookup as written and the corrected one agree |
| Nets.PrefixKind | qel_simulation/components/quantity_net.py:648-662 | a name names a node class exactly when it starts with `t`, `p` or `c`; `t` means a transition, the others an object place or a collection point |
| Nets.CreateAndAddNode | qel_simulation/components/quantity_net.py:630-662 | a name with a class prefix yields a new node of that class with a fresh identity, added to the net with arcs and executions untouched; any other name raises `ValueError` |
| Nets.CreateAndAddNodeRecord | qel_simulation/components/quantity_net.py:648-659 | the created node carries the given name, no label and no arcs, as the constructors of its class build it |
| Nets.CreateAndAddNodeFresh | qel_simulation/components/quantity_net.py:648-659 | the created node was not in the net before, and the net keeps its identities fresh |
| Nets.CreateAndAddNodeKeeps | qel_simulation/components/quantity_net.py:648-659 | the created node is the only node added and every other node is left as it was |
| Nets.AddArc | qel_simulation/components/quantity_net.py:709-729 | an arc is added exactly when it is an object or quantity arc, both endpoints belong to the net and both accept it; it joins the net's arcs, and failures raise `ValueError` |
| Nets.AddArcRecords | qel_simulation/components/quantity_net.py:722-727 | the source's output arcs and the target's input arcs gain the arc, and the set of nodes is unchanged |
| Nets.AddArcKeepsOtherNodes | qel_simulation/components/quantity_net.py:709-729 | nodes other than the arc's two endpoints are left exactly as they were |
| Nets.AddableBetweenPlaceAndTransition | qel_simulation/components/quantity_net.py:709-729 | in a net with fresh identities, an object or quantity arc between a place and a transition of the net is always accepted |
| Nets.CreateAndAddObjectArc | qel_simulation/components/quantity_net.py:670-701 | an object arc is created only between a place and a transition of the net, one being an object place; it is a non-variable arc with a fresh identity and a default name from its endpoints, added as `_add_arc` adds it; failures raise `ValueError` |
| Nets.CreateAndAddObjectArcAccepts | qel_simulation/components/quantity_net.py:670-701 | in a net with fresh identities, an object arc between an object place and a transition of the net is always created |
| Nets.CreateAndAddQuantityArc | qel_simulation/components/quantity_net.py:602-627 | a quantity arc is created only between nodes of the net of which one is a collection point and one a transition; it has a fresh identity and is added as `_add_arc` adds it; failures raise `ValueError` |
| Nets.CreateAndAddQuantityArcAccepts | qel_simulation/components/quantity_net.py:602-627 | in a net with fresh identities, a quantity arc between a collection point and a transition of the net is always created |
| Nets.StructureLookupKind | qel_simulation/components/quantity_net.py:475-501 | in a consistently built net, looking up a prefixed name by the word of its class never raises, and finds a node of that class exactly when the name is taken |
| Nets.EnsureNodeFound | qel_simulation/components/quantity_net.py:503-515 | a node already found is reused: the net is untouched and nothing is reported as created |
| Nets.EnsureNodeCreated | qel_simulation/components/quantity_net.py:503-515 | a name not found creates exactly one node, reported as created, and keeps the net's structure consistent |
| Nets.ConnectPairMeaning | qel_simulation/components/quantity_net.py:517-531 | one transition and one place of the net are always joined, by an object arc exactly when the place is an object place and otherwise by a quantity arc |
| Nets.AddPairRejects | qel_simulation/components/quantity_net.py:476-524 | a pair that lacks a class prefix, or does not name exactly one transition, raises |
| Nets.PairNodesMeaning | qel_simulation/components/quantity_net.py:473-515 | both names of an accepted pair are looked up before either is created; missing nodes are created source first and reported in that order |
| Nets.AddPairShape | qel_simulation/components/quantity_net.py:471-531 | one accepted pair keeps the net's arcs recorded at their endpoints and its places unflagged |
| Nets.AddPairAddsNodes | qel_simulation/components/quantity_net.py:503-515 | one pair creates only new nodes, each carrying one of the pair's names |
| Nets.AddPairAddsArc | qel_simulation/components/quantity_net.py:517-531 | one pair adds exactly one new arc, from the node named first to the node named second |
| Nets.BuildStructureAccepts | qel_simulation/components/quantity_net.py:471-531 | the loop over the pairs succeeds exactly when every pair is one transition name and one place name, each with its class prefix |
| Nets.BuildStructureShape | qel_simulation/components/quantity_net.py:471-531 | the loop keeps every arc recorded at both endpoints |
| Nets.BuildStructureNodes | qel_simulation/components/quantity_net.py:503-515 | the nodes the loop creates are new, distinct, and each carries a name of some pair |
| Nets.BuildStructureArcs | qel_simulation/components/quantity_net.py:517-531 | the loop adds one new arc per pair, in order, from the node named first to the node named second |
| Nets.BuildStructureErrors | qel_simulation/components/quantity_net.py:485-524 | the loop fails only with `ValueError` |
| Nets.StructuredConns | qel_simulation/components/quantity_net.py:722-727 | in a consistently built net a node's input and output arcs are exactly the net's arcs ending and starting there |
| Nets.MarkEndsKeeps | qel_simulation/components/quantity_net.py:533-543 | flagging initial and final places changes no node, name, arc set, arc or execution |
| Nets.ResetStructure | qel_simulation/components/quantity_net.py:463-466 | the structure is emptied before the pairs are read, and the execution registry stays |
| Nets.SetNetStructureAccepts | qel_simulation/components/quantity_net.py:442-545 | the pairs are accepted exactly when each names one transition and one place with their class prefixes; otherwise `ValueError` |
| Nets.SetNetStructureNodes | qel_simulation/components/quantity_net.py:442-545 | the new nodes are exactly those created, pairwise differently named, each named in some pair; the execution registry stays |
| Nets.SetNetStructureArcs | qel_simulation/components/quantity_net.py:442-545 | the new arcs are one per pair in pair order, from the node named first to the node named second, an object arc exactly when it touches an object place |
| Nets.SetNetStructureConns | qel_simulation/components/quantity_net.py:522-531 | every arc of the new structure is recorded at both its endpoints and nowhere else |
| Nets.SetNetStructureEnds | qel_simulation/components/quantity_net.py:533-543 | an object place is initial exactly when no arc ends at it and final exactly when none starts there; collection points carry neither flag |
| NetFiring.StartFiringTransition | qel_simulation/components/quantity_net.py:1016-1031 | a transition the query does not find raises `ValueError`; a started firing appends exactly one record to the net's execution registry |
| NetFiring.StartFiringTransitionMeaning | qel_simulation/components/quantity_net.py:1019-1024 | a successful start is the transition's own `start_firing` on the transition found, changing no other transition, arc or identity counter |
| NetFiring.StartFiringTransitionRecords | qel_simulation/components/quantity_net.py:1022-1031 | the new execution carries the given id and binding, is appended to the transition's in-flight list, and is the registry's new last record |
| NetFiring.StartFiringTransitionAccepts | qel_simulation/components/quantity_net.py:1016-1026 | a transition that is found starts exactly when the binding is enabled at it |
| NetFiring.TransitionEnabled | qel_simulation/components/quantity_net.py:1009-1014 | a transition outside the net raises `ValueError`; a binding reported enabled passes the transition's size, type and marking checks |
| NetFiring.StartFiringWhenEnabled | qel_simulation/components/quantity_net.py:1009-1026 | a transition the query finds starts firing with a binding exactly when `transition_enabled` reports that binding enabled |
| NetFiring.IdentifyNetExecution | qel_simulation/components/quantity_net.py:1037-1053 | as written, a record handed in is returned unchecked, and a lookup by transition execution or by id fails (with `AttributeError` as soon as the registry holds a record) |
| NetFiring.Matching | qel_simulation/components/quantity_net.py:1039-1047 | the records a lookup by transition execution or by id can match are exactly the registry's records that carry it |
| NetFiring.IdentifyNetExecutionCorrected | qel_simulation/components/quantity_net.py:1037-1053 | with the record attribute evidently intended, a lookup succeeds exactly when one record matches and returns that record; anything else raises `ValueError` |
| NetFiring.RegisteredExecutionFound | qel_simulation/components/quantity_net.py:1037-1051 | in a registry whose execution ids differ, the corrected lookup finds every record both by its id and by its transition execution |
| NetFiring.IdentifyNetExecutionMissesRegistered | qel_simulation/components/quantity_net.py:1039-1047 | for a registry holding one record, the lookup as written raises by transition execution and by id, where the corrected one returns the record |
| NetFiring.IdentifyNetExecutionAgreesOnRecords | qel_simulation/components/quantity_net.py:1044-1045 | both versions return a record handed in directly |
| NetFiring.EndFiringTransition | qel_simulation/components/quantity_net.py:1055-1059 | ending a registered execution is its transition's own `end_firing`, changes no other transition, and leaves the registry as it was |
| NetFiring.StartThenEndFiringTransition | qel_simulation/components/quantity_net.py:1016-1059 | starting a firing and ending it through its record restores the transition's in-flight list, while the registry keeps the record: the registry only grows |
| NetFiring.CollectEnabledBindingsMeaning | qel_simulation/components/quantity_net.py:1068-1081 | the loop raises exactly when an enumeration it runs raises; otherwise it keys exactly the transitions scanned whose enumeration yields bindings, under those bindings |
| NetFiring.EnabledBindingsAllTransitionsMeaning | qel_simulation/components/quantity_net.py:1061-1081 | the map skips transitions started by hand, holds a key exactly for those whose enumeration is not `None`, and under it exactly the bindings the enumeration can produce |
| NetFiring.EnabledBindingsAllTransitionsRaises | qel_simulation/components/quantity_net.py:1061-1081 | the map raises exactly when the enumeration of some transition not started by hand raises |
| NetMarkings.NetQuantityState | qel_simulation/components/quantity_net.py:142-147 | the quantity state has a key for exactly the net's collection points |
| NetMarkings.TransitionSeesNetQuantityState | qel_simulation/components/quantity_net.py:142-147 | the quantity state a transition sees is the net's, restricted to the collection points it is connected to |
| NetMarkings.InitialPlacesOfType | qel_simulation/components/quantity_net.py:1171-1174 | the initial places of a type are object places of that type |
| NetMarkings.FinalPlacesOfType | qel_simulation/components/quantity_net.py:1176-1179 | the final places of a type are object places of that type |
| NetMarkings.EndsOfBuiltStructure | qel_simulation/components/quantity_net.py:533-543 | in a net built from name pairs, the initial object places of a type are exactly those no arc ends at, and the final ones those no arc starts from |
| NetMarkings.LocationsOfObject | qel_simulation/components/quantity_net.py:1199-1209 | an object is located exactly at the object places whose marking holds it |
| NetMarkings.ResolvePlace | qel_simulation/components/quantity_net.py:1105-1123 | a place object is accepted exactly when it is of the required class and in the net; a name resolves only to a place of the required class that carries it as name or label; anything else raises |
| NetMarkings.ResolvePlaceFindsNamed | qel_simulation/components/quantity_net.py:1106-1109 | a name that exactly one place of the required class carries stands for that place |
| NetMarkings.MarkingObjects | qel_simulation/components/quantity_net.py:1125-1133 | a set stands for itself, one object for its singleton, a list for the set of its elements; anything else raises |
| NetMarkings.AddObjectsAtGrows | qel_simulation/components/quantity_net.py:1135-1136 | one entry adds to one object place only; it goes through exactly when every object has the place's type, and the place then holds its old marking and the objects |
| NetMarkings.AddObjectsToPlacesGrows | qel_simulation/components/quantity_net.py:1101-1136 | the walk, even when it raises midway, only adds objects to object places and changes nothing else |
| NetMarkings.AddObjectsToPlacesMeaning | qel_simulation/components/quantity_net.py:1101-1136 | the walk raises exactly when some entry does not resolve or holds an object of the wrong type; otherwise each object place holds exactly its old marking and what the entries put there |
| NetMarkings.AddedObjectsAreLocated | qel_simulation/components/quantity_net.py:1101-1209 | after a walk without a raise, every object of every entry is located at that entry's place |
| NetMarkings.UpdateAtMeaning | qel_simulation/components/quantity_net.py:1168-1169 | one entry changes one collection point's stock by the counter, signed, adds its keys to the item types, and leaves every other place as it was |
| NetMarkings.UpdateMarkingsChangesStocks | qel_simulation/components/quantity_net.py:1138-1169 | the walk, even when it raises midway, changes only the data of collection points |
| NetMarkings.UpdateMarkingsRaises | qel_simulation/components/quantity_net.py:1138-1169 | the walk raises exactly when some entry does not name a collection point or does not carry a Counter |
| NetMarkings.UpdateMarkingsMeaning | qel_simulation/components/quantity_net.py:1138-1169 | without a raise, each collection point's stock has changed, per item type, by the sum of the counters the entries give it |
| NetMarkings.UpdateMarkingsItemTypes | qel_simulation/components/quantity_net.py:1138-1169 | without a raise, each collection point's item types have gained exactly the keys of the counters the entries give it |
| NetMarkings.UpdatesAddUp | qel_simulation/components/quantity_net.py:1138-1169 | two updates of one point, by name and by object, of +2 and -5 screws lower its stock by 3, below zero if need be |
| Triggers.Considered | qel_simulation/simulation/triggers.py:226-227 | the stock restricted to the small stock's item types keeps exactly those types with their quantities, and raises `KeyError` when the stock lacks one of them |
| Triggers.AllBelowSmallStockMeaning | qel_simulation/simulation/triggers.py:218-234 | the all-types trigger raises `KeyError` exactly when the stock lacks a small-stock item type, and otherwise fires exactly when every such type's quantity is at most its small stock |
| Triggers.ItemTypesBelowThresholdMeaning | qel_simulation/simulation/triggers.py:236-252 | the types reported below threshold are exactly those whose quantity is at most a non-negative small stock; a negative small stock is never reported |
| Triggers.ItemTypesBelowNonNegative | qel_simulation/simulation/triggers.py:236-252 | with non-negative small stocks, the result is exactly the item types at or below their small stock |
| Triggers.AnyBelowSmallStockAlwaysFires | qel_simulation/simulation/triggers.py:262-274 | as written, the any-type trigger fires whenever it does not raise, because the low types are always among the item types |
| Triggers.AnyBelowSmallStockFiresOnFullStock | qel_simulation/simulation/triggers.py:262-274 | a stock of 10 screws against a small stock of 2 has no low type, yet the any-type trigger as written fires |
| Triggers.AnyBelowSmallStockCorrectedMeaning | qel_simulation/simulation/triggers.py:255-274 | as its documentation describes it, the any-type trigger fires exactly when some item type's quantity is at most its small stock, and raises exactly where the as-written one does |
| Triggers.AllBelowImpliesAnyBelow | qel_simulation/simulation/triggers.py:255-300 | with a non-empty small stock, the all-types trigger firing implies the corrected any-type trigger fires |
| Triggers.SingleItemTypeAgrees | qel_simulation/simulation/triggers.py:212-300 | with one item type, the all-types trigger and the corrected any-type trigger agree |
| Triggers.Gather | qel_simulation/simulation/triggers.py:46-57 | the sub-trigger results are all evaluated: the list succeeds exactly when every result does, and a failure is some sub-trigger's |
| Triggers.MultiTriggerMeaning | qel_simulation/simulation/triggers.py:39-57 | an any-trigger fires exactly when every sub-trigger answers and one fires; an all-trigger fires exactly when every sub-trigger fires; a raise comes from a sub-trigger |
| Triggers.EmptyMultiTriggers | qel_simulation/simulation/triggers.py:39-57 | an empty any-trigger never fires and an empty all-trigger always does |
| Triggers.MaxIsNotMinAbove | qel_simulation/simulation/triggers.py:107-171 | a marking-size or execution-count maximum trigger fires exactly when the minimum trigger one above it does not |
| Triggers.MarkingTriggersAfterAddedObjects | qel_simulation/simulation/triggers.py:107-124 | adding objects to places only grows markings: a minimum-size trigger that fired still fires, and a maximum-size trigger that fires afterwards already fired before |
| Triggers.ExecutionTriggersAfterStart | qel_simulation/simulation/triggers.py:154-171 | after a firing starts, its transition's execution-count triggers answer as they did before with the threshold lowered by one |
| Instructions.NewObjectCreation | src/components/quantity_net_simulation/instructions.py:19-32 | missing attributes, quantities and object-to-object relations become empty, an absent or empty location is no location, and the delay, type and binding flag are kept |
| Instructions.NewExecuteEvent | src/components/quantity_net_simulation/instructions.py:43-53 | the input binding is the given one or empty, a missing or zero duration is no duration, and there is no event, no additional object and an empty final binding yet |
| Instructions.NewTerminateEvent | src/components/quantity_net_simulation/instructions.py:105-109 | the termination is due after the event's duration and carries the event and the execution |
| Instructions.AddObjects | src/components/quantity_net_simulation/instructions.py:77-85 | objects are refused with `ValueError` until an event is attached; afterwards the additional objects become their union with the new ones and nothing else changes |
| Instructions.CreateFinalBindingFunction | src/components/quantity_net_simulation/instructions.py:88-100 | only the final binding changes, the input binding is kept, and every additional object is bound under its own type |
| Instructions.FinalBindingMeaning | src/components/quantity_net_simulation/instructions.py:88-100 | the final binding keys the input's types and the additional objects' types; a type some additional object has is bound to exactly the additional objects of that type, any other keeps its input entry |
| Instructions.FinalBindingObjects | src/components/quantity_net_simulation/instructions.py:88-100 | the objects of the final binding are the additional ones together with the input's objects of the types no additional object has |
| Instructions.FinalBindingWithoutAdditions | src/components/quantity_net_simulation/instructions.py:88-100 | without additional objects the final binding is the input binding |
| Events.EventNamesDistinct | qel_simulation/components/log_elements/event.py:78-89 | events created at distinct values of the global count carry distinct names |
| Events.NewEvent | qel_simulation/components/log_elements/event.py:76-89 | a new event is named "ev-" and the global count, increments the count, has no objects, no quantity operations and no end timestamp, and a zero duration unless one is given |
| Events.AddEndTimestamp | qel_simulation/components/log_elements/event.py:135-136 | the end timestamp is the one given |
| Events.AddDuration | qel_simulation/components/log_elements/event.py:142-143 | the duration is the one given |
| Events.SettersOverwrite | qel_simulation/components/log_elements/event.py:135-143 | only the last duration and end timestamp written are kept, each setter touches only its own field, and the two commute |
| Events.StartEvent | qel_simulation/components/log_elements/event.py:149-158 | the event's objects become its old objects together with every object of the binding, and nothing else changes |
| Events.EndEvent | qel_simulation/components/log_elements/event.py:160-177 | ending raises `ValueError` unless the event's objects are exactly those bound by the execution, and otherwise records the execution's collected quantity operations |
| Events.StartThenEndEvent | qel_simulation/components/log_elements/event.py:149-177 | an event started with a binding ends without complaint with an execution of that binding, and is refused with an execution that binds one more object |
| ExecutionQueue.NewQueue | qel_simulation/simulation/execution_queue.py:136-139 | the clock starts at the configured initial time and nothing is pending |
| ExecutionQueue.PayloadOf | qel_simulation/simulation/execution_queue.py:239-254 | each of the six instruction kinds becomes a queue item, and any other instruction raises `ValueError` |
| ExecutionQueue.PayloadRoundTrip | qel_simulation/simulation/execution_queue.py:181-275 | the queue item keeps everything the instruction carries, so reading it back gives the instruction (save for the event-start fields that only exist once the event runs); only an object creation records the schedule type |
| ExecutionQueue.AddInstruction | qel_simulation/simulation/execution_queue.py:178-275 | an accepted instruction appends exactly one item, due at the current time plus the instruction's delay, and leaves the clock where it was; an unsupported one raises `ValueError` |
| ExecutionQueue.AddInstructionValid | qel_simulation/simulation/execution_queue.py:150-155 | every pending item keeps an identity of its own after an addition |
| ExecutionQueue.CurrentItems | qel_simulation/simulation/execution_queue.py:160-162 | the current items are exactly the pending items due at the current time |
| ExecutionQueue.NotDueAtMeaning | qel_simulation/simulation/execution_queue.py:175-176 | removing the current items leaves exactly the pending items not due at that time |
| ExecutionQueue.GetAndRemoveMeaning | qel_simulation/simulation/execution_queue.py:164-176 | popping returns exactly the items due now and keeps exactly the others; no item is lost or invented, the clock does not move, and nothing due now remains |
| ExecutionQueue.PopTwoOfThree | qel_simulation/simulation/execution_queue.py:164-176 | two items due at 10 are popped together at time 10 while the one due at 15 stays |
| ExecutionQueue.MinTimeMeaning | qel_simulation/simulation/execution_queue.py:158 | the earliest stamp is at most every pending stamp and is the stamp of some pending item |
| ExecutionQueue.UpdateTime | qel_simulation/simulation/execution_queue.py:157-158 | updating the time touches only the clock, and an empty queue keeps its time |
| ExecutionQueue.UpdateTimeMeaning | qel_simulation/simulation/execution_queue.py:157-162 | after the update no pending item is overdue, some item is due unless the queue is empty, and the clock never moves back while nothing pending is overdue |
| ExecutionQueue.ImmediateInstructionPopped | qel_simulation/simulation/execution_queue.py:160-179 | an instruction with no delay is among the items popped at the very next step |
| ExecutionQueue.InsertByTime | qel_simulation/simulation/execution_queue.py:146-148 | inserting into a list sorted by due time keeps it sorted and adds exactly the one item |
| ExecutionQueue.SortedQueue | qel_simulation/simulation/execution_queue.py:146-148 | the `queue` view is sorted ascending by due time and is a permutation of the pending items |
| ExecutionQueue.SortedQueueHeadIsDue | qel_simulation/simulation/execution_queue.py:146-158 | the head of the sorted view is due at the time `update_time` moves the clock to |
| NetExecution.ActiveObjects | qel_simulation/simulation/quantity_net_execution.py:18-28 | the objects the simulation treats as active are exactly those whose recorded status is active |
| NetExecution.CheckObjectStatusInBinding | qel_simulation/simulation/quantity_net_execution.py:18-28 | a binding passes exactly when every object bound under every type is active; one inactive object anywhere fails it |
| NetExecution.KeyByActivityMeaning | qel_simulation/simulation/quantity_net_execution.py:500-505 | when no two transitions share an activity name (label, else name), re-keying by activity keeps every transition's bindings under its own activity and invents no activity |
| NetExecution.FilterActive | qel_simulation/simulation/quantity_net_execution.py:507-509 | a binding survives the filter exactly when it was listed and all its objects are active |
| NetExecution.FilterActiveKeepsAll | qel_simulation/simulation/quantity_net_execution.py:507-509 | a list of bindings whose objects are all active passes the filter unchanged, order included |
| NetExecution.EnumerableIsAllActive | qel_simulation/simulation/quantity_net_execution.py:500-509 | a binding enumerated over the active objects binds only active objects, so the status filter never drops it |
| NetExecution.IdentifyReturned | qel_simulation/simulation/quantity_net_execution.py:541-548 | identifying the returned instructions raises `ValueError` exactly when some event names an activity that is not registered; otherwise every instruction is kept in place, and an object creation keeps its type only when that type is registered |
| NetExecution.IdentifyReturnedIdempotent | qel_simulation/simulation/quantity_net_execution.py:559-566 | identifying instructions a second time changes nothing |
| NetExecution.KeyedTransitions | qel_simulation/simulation/quantity_net_execution.py:500-503 | the enabled bindings are keyed by exactly the scanned transitions whose enumeration found a binding |
| NetExecution.GetEnabledActivitiesRaises | qel_simulation/simulation/quantity_net_execution.py:500-505 | offering the activities raises exactly when some enumeration raises or some transition with a binding carries an unregistered activity name, and the latter raise is a `ValueError` |
| NetExecution.GetEnabledActivitiesMeaning | qel_simulation/simulation/quantity_net_execution.py:500-514 | the activities raise when some transition's enumeration raises, and otherwise raise `ValueError` exactly when some transition with a binding carries an activity name the simulation has not registered; an activity is offered exactly when its transition is not started by hand and has a binding of active objects, and then with exactly those bindings |
| NetExecution.SetActive | qel_simulation/simulation/quantity_net_execution.py:522-524 | every object of the binding ends active and no other object's status appears, vanishes or changes |
| NetExecution.ExecuteEventStartMeaning | qel_simulation/simulation/quantity_net_execution.py:516-552 | starting an event succeeds exactly when it has an event, the transition starts and every event the hook returns names a registered activity (otherwise `ValueError`); then the bound objects are active and nothing else moves, the execution is registered, the event holds the execution's operations and the bound objects, and the hook's instructions, with unknown object types of object creations replaced by None, are followed by exactly one termination due after the event's duration |
| NetExecution.StartHookSeesOperations | qel_simulation/simulation/quantity_net_execution.py:519-535 | the quantity state handed to the start hook shows at every collection point the stock before the start plus the operations the execution collected there |
| NetExecution.StartShowsOperations | qel_simulation/simulation/quantity_net_execution.py:519-531 | after a transition starts, each collection point holds its old stock plus the execution's operations there |
| NetExecution.StartedEventEndsCleanly | qel_simulation/simulation/quantity_net_execution.py:534-557 | the termination an event start schedules passes the event's binding check and keeps the operations the event already holds |
| NetExecution.LocationNames | qel_simulation/simulation/quantity_net_execution.py:640-646 | a name is among the object's locations exactly when some place holding the object carries it |
| NetExecution.CheckIfObjectInFinalMarking | qel_simulation/simulation/quantity_net_execution.py:648-654 | the check raises `KeyError` exactly when the object's type has no final markings |
| NetExecution.TerminateFinishedObjects | qel_simulation/simulation/quantity_net_execution.py:574-579 | the loop succeeds exactly when every object's type has final markings; then the objects in a final marking are terminated and every other status stays as it was |
| NetExecution.ExecuteEventTermination | qel_simulation/simulation/quantity_net_execution.py:554-581 | a termination succeeds exactly when the event's binding check passes, the execution is found, every bound type has final markings and every event the hook returns names a registered activity; then the execution is ended, the event is logged with the execution's operations, the bound objects that finished are terminated, no other status moves and the hook's instructions are handed back, with unknown object types of object creations replaced by None |
| NetExecution.FinalPlaceMarkings | qel_simulation/simulation/quantity_net_execution.py:630-634 | a default marking is exactly the one-name set of a final place of the type |
| NetExecution.FinalMarkingsOfType | qel_simulation/simulation/quantity_net_execution.py:630-634 | one single-name marking per final place of the type, and every final place contributes one |
| NetExecution.UpdateFinalMarkings | qel_simulation/simulation/quantity_net_execution.py:612-638 | every known object type gets final markings: the configured ones where given, otherwise one per final place of the type |
| NetExecution.AddDefaultFinalMarkings | qel_simulation/simulation/quantity_net_execution.py:626-634 | every type left unspecified gains its default markings while the configured types keep theirs |
| NetExecution.DefaultFinalMarkingMeaning | qel_simulation/simulation/quantity_net_execution.py:626-654 | under the default markings an object has finished exactly when the names of its locations are the name of one final place of its type |
| NetExecution.AtFinalPlaceIsFinished | qel_simulation/simulation/quantity_net_execution.py:626-654 | an object held only by a final place of its type has finished under the default markings |
| NetExecution.LastCount | qel_simulation/simulation/quantity_net_execution.py:345-348 | a type no configuration entry names is asked for no objects |
| NetExecution.LastCountIsLastEntry | qel_simulation/simulation/quantity_net_execution.py:345-348 | a type's count is that of the last entry naming it: later entries overwrite earlier ones |
| NetExecution.TypeCounts | qel_simulation/simulation/quantity_net_execution.py:343-350 | the first loop raises `ValueError` exactly when some configured name is not an object type; otherwise it records every configured type with its last count |
| NetExecution.AddPlaceCounts | qel_simulation/simulation/quantity_net_execution.py:355-362 | the second loop raises `KeyError` exactly when some configured place has no type; otherwise every type gains the sum of its places' counts |
| NetExecution.GetNumberRequiredObjectsPerType | qel_simulation/simulation/quantity_net_execution.py:339-367 | the required objects raise `ValueError` for an unknown type name before `KeyError` for an untyped place; otherwise each type asks for its configured count plus the counts of its places |

## Left out

- Multiplicities: the source's markings and bindings use a third-party multiset type. Its callers only pass sets, so the model uses finite sets.
- Partial updates before a raise: a Python method that raises midway keeps the changes it made before the raise. The model discards them, except in `add_tokens`/`remove_tokens` and the two marking setters of the net, where the source's element-by-element order is modelled.
- NetExecution.ExecuteEventStartMeaning: when the transition refuses to start, the source has already set the bound objects active and keeps them so (quantity_net_execution.py:523-528). The model returns the error and changes no status.
- Lookups by `uuid`: `_identify_node_by_id` and `identify_arc` (quantity_net.py:784-842, 937-1007) are not modelled. Node lookups by name and label are modelled.
- The enabled-binding cache and the binding-selection hook (transition.py:330-385) are not modelled. They are an optimisation and an external policy on top of binding enumeration, which is modelled.
- The net's configuration setters are not modelled: initial and final places, labels, guards, binding quantities, binding selection, qalculators, place types, silent and manually initiated transitions, and variable arcs (quantity_net.py:149-441, 547-600, 1251). They only write the fields the model takes as given.
- `_remove_execution`, `get_quantity_operations_of_execution`, `get_subnet_*` and the derived node views of `QuantityNet` are not modelled. Nothing in the modelled firing path calls them. The `get_subnet_*` views rest on a `places` setter that writes transitions.
- `create_activity` and `create_object_type` build classes at run time. Here an activity is its name and an object type is a type tag; the simulation keeps the registered names as sets, and `identify_activity` and `identify_object_type` are membership tests on them.
- `add_number_of_objects_to_net_according_to_config`, `execute_object_creation`, `get_additional_requirements_for_bindings` and the other configuration plumbing of `QuantityNetExecution` are not modelled.
- The simulation loop and its random draws (`simulation.py`) are not modelled, nor are durations as floats or arrival sampling. They only consume the modelled operations.
- The event log's data frames and its SQLite export (`quantity_event_log.py`) are not modelled. Logging an event is an append to a sequence.
- `datetime` and `timedelta` values are integers in one unit.
- Each element's `properties` dictionary and the printed diagnostics are not modelled.
- TransitionBindings.OptionsFor uses the corrected candidate sets (see Findings). With no required objects and a minimum of zero the source lists the empty set twice; the model lists it once.
- TransitionBindings.CollectOptions builds on OptionsFor and so lists the empty set once where the source lists it twice.
- TransitionBindings.DetermineNewBindingFunctionsMeaning describes the enumeration over the corrected candidate sets. Where the source lists the empty set twice, it offers the same empty binding twice; the model offers it once.
- TransitionFiring.EndFiring identifies the execution with the corrected lookup (see Findings). As written, ending by the id of an execution that is not the oldest one in flight raises `ValueError`; the model ends it.
- NetFiring.EndFiringTransition identifies the execution with the corrected lookup of the registry (see Findings). With the lookup as written, every lookup of a registered execution by transition execution or by id raises.
- NetFiring.StartFiringTransition uses the corrected node lookup (see Findings). `Nets.IdentifyNodeAgreesOnCommonSpellings` shows that the two lookups agree on every spelling the simulation passes. The same holds for NetMarkings.ResolvePlace.

## Findings

| source | as written | input that shows it | evidently intended | confidence | as-written member | corrected member |
|---|---|---|---|---|---|---|
| qel_simulation/components/net_elements/guard.py:29-47 | When the demand cannot be met, `determine_available_items` adds the demand to the projected stock. It then negates the positive part of the result, which is the stock left after removal and not the amount removed. | demand `{A: -7}` against availability `{A: 4}`: the leftover is `{A: -3}`, its positive part is empty, and the update `{}` removes nothing | remove what is available: `{A: -4}`, as `quantity_update_removing_available_items` in qalculator.py:118-142 computes | not executed | Guards.DetermineAvailableItemsRemovesNothing | Guards.DetermineAvailableItemsCorrected |
| qel_simulation/simulation/triggers.py:262-274 | `AnyItemTypeSmallStock` fires when the number of item types at or below the small stock is at most the number of small-stock item types. That is always so. | stock `{screw: 10}` with small stock `{screw: 2}`: no item type is low, yet the trigger fires | fire when at least one item type is at or below its small stock | not executed | Triggers.AnyBelowSmallStockAlwaysFires | Triggers.AnyBelowSmallStockCorrectedMeaning |
| src/components/net_elements/transition.py:527-539 | The lookup of an execution by id raises in the loop's `else` branch, so it only ever compares against the first in-flight execution. | two in-flight executions, looked up by the second one's id | return whichever in-flight execution has the id, and raise only when none has it | not executed | TransitionFiring.IdentifyExecutionMissesLaterIds | TransitionFiring.IdentifyExecutionCorrected |
| qel_simulation/components/quantity_net.py:1037-1053 | The registry lookup compares `item.execution`, but a registry entry holds its execution as `transition_execution`. Every lookup by transition execution or by id raises `AttributeError`. | a registry holding one execution, looked up by its own transition execution or by its id | return the one registered entry whose transition execution (or id) matches | not executed | NetFiring.IdentifyNetExecutionMissesRegistered | NetFiring.IdentifyNetExecutionCorrected |
| src/components/net_elements/transition.py:276-294 | With required quantity 0 and minimum 0, the size-0 combination already yields the empty set, and the code then appends another `set()`. | no required objects, minimum 0: the candidates list the empty subset twice, so every empty binding is offered twice | each subset listed once | not executed | TransitionBindings.CandidateSetsListsEmptyTwice | TransitionBindings.CandidateSetsCorrected |
| qel_simulation/components/quantity_net.py:851-911 | Missing commas concatenate the accepted element-type spellings `"places" "p"` into `"placesp"` (lines 851 and 898) and `"transitions" "t"` into `"transitionst"` (line 911). | `identify_node("p9", element_type="p")` (or `"places"`) raises `ValueError` instead of looking up place `p9`; `identify_node("t9", element_type="t")` raises when no transition is named `t9` instead of trying the labels | accept `"places"` and `"p"` (and, by label, `"transitions"` and `"t"`) as separate spellings | not executed | Nets.IdentifyNodeRejectsShortSpellings | Nets.IdentifyNodeCorrected |
