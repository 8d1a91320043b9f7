/**
 * Arcs of a quantity net: the plain arc between a place and a transition,
 * the object arc at an object place, and the quantity arc (Qarc) at a
 * collection point.
 */
module Arcs {
  import opened Wrappers
  import opened Elements

  const NotPlaceTransitionPair := "Arcs may only connect a place to a transition or a transition to a place."
  const ObjectArcNeedsObjectPlace := "Only arcs connected to ObjectPlaces can be ObjectArcs."
  const QuantityArcNeedsCollectionPoint := "Only arcs connected to a collection point can be QuantityArc."

  /** The default name of an arc: "(<source name>, <target name>)". */
  function DefaultArcName(srcName: Name, tgtName: Name): string {
    "(" + NameText(srcName) + ", " + NameText(tgtName) + ")"
  }

  /** Exactly one endpoint is a place. */
  predicate PlaceTransitionPair(src: NodeRef, tgt: NodeRef) {
    (IsPlace(src.kind) && !IsPlace(tgt.kind)) || (IsPlace(tgt.kind) && !IsPlace(src.kind))
  }

  /**
   * `Arc(source, target, name)`: exactly one endpoint must be a place; a
   * falsy name is replaced by the endpoint names.
   */
  function NewArc(id: nat, src: NodeRef, srcName: Name, tgt: NodeRef, tgtName: Name,
                  name: Option<string>, cls: ArcClass): (r: Result<Arc>)
    ensures r.Ok? <==> PlaceTransitionPair(src, tgt)
    ensures r.Ok? ==> r.value.source == src && r.value.target == tgt && r.value.cls == cls && !r.value.variableFlag
    ensures r.Ok? && Given(name) ==> r.value.name == Str(name.value)
    ensures r.Ok? && !Given(name) ==> r.value.name == Str(DefaultArcName(srcName, tgtName))
  {
    if !PlaceTransitionPair(src, tgt) then
      Err(ValueError(NotPlaceTransitionPair))
    else
      var n := if Given(name) then name.value else DefaultArcName(srcName, tgtName);
      Ok(Arc(id, src, tgt, Str(n), cls, false))
  }

  /** `Arc.place`: the endpoint that is a place. */
  function ArcPlace(a: Arc): NodeRef {
    if IsPlace(a.source.kind) then a.source else a.target
  }

  /** `Arc.transition`: the other endpoint. */
  function ArcTransition(a: Arc): NodeRef {
    if IsPlace(a.source.kind) then a.target else a.source
  }

  /** On a well-formed arc, `place` and `transition` split the two endpoints between them. */
  lemma PlaceAndTransitionSplitEndpoints(a: Arc)
    requires PlaceTransitionPair(a.source, a.target)
    ensures {ArcPlace(a), ArcTransition(a)} == {a.source, a.target}
    ensures IsPlace(ArcPlace(a).kind) && !IsPlace(ArcTransition(a).kind)
  {
  }

  /** `ObjectArc(source, target)`: an arc whose place is an object place; not variable by default. */
  function NewObjectArc(id: nat, src: NodeRef, srcName: Name, tgt: NodeRef, tgtName: Name,
                        name: Option<string>): (r: Result<Arc>)
    ensures r.Ok? <==> PlaceTransitionPair(src, tgt) && (src.kind.ObjectPlaceKind? || tgt.kind.ObjectPlaceKind?)
    ensures r.Ok? ==> r.value.cls == ObjectArcClass && !r.value.variableFlag
    ensures r.Ok? ==> ArcPlace(r.value).kind.ObjectPlaceKind?
    ensures r.Ok? ==> r.value.source == src && r.value.target == tgt
  {
    var a :- NewArc(id, src, srcName, tgt, tgtName, name, ObjectArcClass);
    if ArcPlace(a).kind.ObjectPlaceKind? then Ok(a)
    else Err(ValueError(ObjectArcNeedsObjectPlace))
  }

  /**
   * `ObjectArc.variable`: true when the flag was set; otherwise true exactly
   * when the transition does not require exactly one object of the arc's type
   * (`bfq` is the transition's number of objects per type). A type the
   * transition does not list raises.
   */
  function Variable(a: Arc, otype: string, bfq: map<string, int>): (r: Result<bool>)
    ensures a.variableFlag ==> r == Ok(true)
    ensures !a.variableFlag && otype !in bfq ==> r == Err(KeyError)
    ensures !a.variableFlag && otype in bfq ==> r == Ok(bfq[otype] != 1)
  {
    if a.variableFlag then Ok(true)
    else if otype !in bfq then Err(KeyError)
    else Ok(bfq[otype] != 1)
  }

  /** `variable = v`. */
  function SetVariable(a: Arc, v: bool): (r: Arc)
    ensures r.variableFlag == v && r.source == a.source && r.target == a.target
  {
    a.(variableFlag := v)
  }

  /** An unset flag is decided by the transition: one object per firing means a non-variable arc. */
  lemma VariableDecidedByTransition(a: Arc, otype: string, n: int)
    ensures Variable(a.(variableFlag := false), otype, map[otype := n]) == Ok(n != 1)
    ensures Variable(a.(variableFlag := true), otype, map[otype := n]) == Ok(true)
  {
  }

  /**
   * `Qarc(source, target)`: one endpoint must be a collection point, checked
   * before the checks of a plain arc.
   */
  function NewQarc(id: nat, src: NodeRef, srcName: Name, tgt: NodeRef, tgtName: Name,
                   name: Option<string>): (r: Result<Arc>)
    ensures r.Ok? <==> (src.kind.CollectionPointKind? || tgt.kind.CollectionPointKind?) && PlaceTransitionPair(src, tgt)
    ensures !(src.kind.CollectionPointKind? || tgt.kind.CollectionPointKind?) ==>
      r == Err(ValueError(QuantityArcNeedsCollectionPoint))
    ensures r.Ok? ==> r.value.cls == QarcClass && ArcPlace(r.value).kind.CollectionPointKind?
  {
    if !(src.kind.CollectionPointKind? || tgt.kind.CollectionPointKind?) then
      Err(ValueError(QuantityArcNeedsCollectionPoint))
    else
      NewArc(id, src, srcName, tgt, tgtName, name, QarcClass)
  }

  /** A collection point is a place, so a Qarc can never join two collection points. */
  lemma QarcNeedsATransition(id: nat, src: nat, tgt: nat, n: Name)
    ensures NewQarc(id, NodeRef(src, CollectionPointKind), n, NodeRef(tgt, CollectionPointKind), n, None).Err?
  {
  }
}
