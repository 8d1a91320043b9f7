/**
 * Base elements of a quantity net: names and labels, node identity and class,
 * arcs, and the arc bookkeeping every connected element (place or transition)
 * carries.
 *
 * Python compares elements by identity. The model gives every element a
 * numeric id drawn from a counter, so `NodeRef(id, kind)` plays the role of the
 * object reference and `kind` plays the role of its class.
 */
module Elements {
  import opened Wrappers
  import Decimal

  const InputArcKinds := "Input arcs must be connecting elements and the source and target must be of different types."
  const InputArcNotOwn := "Only arcs connected to the elements itsself can be added as input arcs."
  const OutputArcKinds := "Output arcs must be connecting elements and the source and target must be of different types."
  const OutputArcNotOwn := "Only arcs connected to the elements itsself can be added as output arcs."

  /** An element's name: the string it was given, or its own id when it was given none. */
  datatype Name = Str(s: string) | IdName(id: nat)

  /** Python truthiness of an optional string argument. */
  predicate Given(s: Option<string>) {
    s.Some? && s.value != ""
  }

  /** Python truthiness of a stored label, which is a string or (after `silent := False`) a name. */
  predicate LabelSet(l: Option<Name>) {
    l.Some? && l.value != Str("")
  }

  /** `name if name else self.id`. */
  function ElementName(given: Option<string>, id: nat): (r: Name)
    ensures Given(given) <==> r.Str?
    ensures Given(given) ==> r.s == given.value
    ensures !Given(given) ==> r == IdName(id)
  {
    if Given(given) then Str(given.value) else IdName(id)
  }

  /** `label if label else None`. */
  function ElementLabel(given: Option<string>): (r: Option<Name>)
    ensures r.Some? <==> Given(given)
    ensures r.Some? ==> r.value == Str(given.value)
    ensures !LabelSet(r) <==> r.None?
  {
    if Given(given) then Some(Str(given.value)) else None
  }

  /** The text of a name inside a composed string; an id prints as its number. */
  function NameText(n: Name): string {
    match n
    case Str(s) => s
    case IdName(id) => Decimal.NatToString(id)
  }

  /**
   * The class of a node. `NotConnected` stands for any value that is not a
   * connected element (an arc endpoint can be anything in the program).
   */
  datatype Kind = TransitionKind | PlainPlaceKind | ObjectPlaceKind | CollectionPointKind | NotConnected

  /** `isinstance(x, Place)`: object places and collection points are places too. */
  predicate IsPlace(k: Kind) {
    k.PlainPlaceKind? || k.ObjectPlaceKind? || k.CollectionPointKind?
  }

  /** `isinstance(x, ConnectedElement)`. */
  predicate IsConnected(k: Kind) {
    !k.NotConnected?
  }

  /** `isinstance(x, cls)` for a value of class `k`, following the class hierarchy. */
  predicate InstanceOf(k: Kind, cls: Kind) {
    k == cls || (cls.PlainPlaceKind? && (k.ObjectPlaceKind? || k.CollectionPointKind?))
  }

  datatype NodeRef = NodeRef(id: nat, kind: Kind)

  datatype ArcClass = PlainArcClass | ObjectArcClass | QarcClass

  /** An arc; `variableFlag` is an object arc's explicitly set `variable` flag. */
  datatype Arc = Arc(id: nat, source: NodeRef, target: NodeRef, name: Name, cls: ArcClass, variableFlag: bool)

  /** The arc sets of a connected element `self`. */
  datatype Connected = Connected(self: NodeRef, inputArcs: set<Arc>, outputArcs: set<Arc>)

  function NewConnected(self: NodeRef): (r: Connected)
    ensures r.self == self && r.inputArcs == {} && r.outputArcs == {}
  {
    Connected(self, {}, {})
  }

  /** `arcs`: every arc at the element, in either direction. */
  function AllArcs(c: Connected): (r: set<Arc>)
    ensures forall a :: a in r <==> a in c.inputArcs || a in c.outputArcs
  {
    c.inputArcs + c.outputArcs
  }

  /** `inputs`: the connected sources of the input arcs. */
  function Inputs(c: Connected): (r: set<NodeRef>)
    ensures forall n :: n in r <==> IsConnected(n.kind) && exists a | a in c.inputArcs :: a.source == n
  {
    set a | a in c.inputArcs && IsConnected(a.source.kind) :: a.source
  }

  /** `outputs`: the connected targets of the output arcs. */
  function Outputs(c: Connected): (r: set<NodeRef>)
    ensures forall n :: n in r <==> IsConnected(n.kind) && exists a | a in c.outputArcs :: a.target == n
  {
    set a | a in c.outputArcs && IsConnected(a.target.kind) :: a.target
  }

  /**
   * `add_input_arc`: the arc's source must not be an instance of the target's
   * class, and the element must be the arc's target.
   */
  function AddInputArc(c: Connected, a: Arc): (r: Result<Connected>)
    ensures r.Ok? <==> !InstanceOf(a.source.kind, a.target.kind) && c.self == a.target
    ensures r.Ok? ==> a in r.value.inputArcs
    ensures r.Ok? ==> r.value == c.(inputArcs := c.inputArcs + {a})
  {
    if InstanceOf(a.source.kind, a.target.kind) then
      Err(ValueError(InputArcKinds))
    else if c.self != a.target then
      Err(ValueError(InputArcNotOwn))
    else
      Ok(c.(inputArcs := c.inputArcs + {a}))
  }

  /**
   * `add_output_arc`: the endpoints' classes must differ exactly, and the
   * element must be the arc's source.
   */
  function AddOutputArc(c: Connected, a: Arc): (r: Result<Connected>)
    ensures r.Ok? <==> a.source.kind != a.target.kind && c.self == a.source
    ensures r.Ok? ==> a in r.value.outputArcs
    ensures r.Ok? ==> r.value == c.(outputArcs := c.outputArcs + {a})
  {
    if a.source.kind == a.target.kind then
      Err(ValueError(OutputArcKinds))
    else if c.self != a.source then
      Err(ValueError(OutputArcNotOwn))
    else
      Ok(c.(outputArcs := c.outputArcs + {a}))
  }

  /** The arc sets are sets: adding the same arc again changes nothing. */
  lemma AddArcTwice(c: Connected, a: Arc)
    ensures AddInputArc(c, a).Ok? ==> AddInputArc(AddInputArc(c, a).value, a) == AddInputArc(c, a)
    ensures AddOutputArc(c, a).Ok? ==> AddOutputArc(AddOutputArc(c, a).value, a) == AddOutputArc(c, a)
  {
  }

  /**
   * The two checks disagree: an arc from an object place into a plain place
   * passes the output check (different classes) but fails the input check (an
   * object place is an instance of `Place`).
   */
  lemma InputOutputChecksDiffer(id: nat, src: nat, tgt: nat, name: Name)
    ensures var a := Arc(id, NodeRef(src, ObjectPlaceKind), NodeRef(tgt, PlainPlaceKind), name, PlainArcClass, false);
      AddOutputArc(NewConnected(a.source), a).Ok? && AddInputArc(NewConnected(a.target), a).Err?
  {
  }

  /** Between a transition and a place both checks agree, whatever the direction. */
  lemma ChecksAgreeOnTransitionPlaceArcs(a: Arc)
    requires (a.source.kind.TransitionKind? && IsPlace(a.target.kind)) || (IsPlace(a.source.kind) && a.target.kind.TransitionKind?)
    ensures AddOutputArc(NewConnected(a.source), a).Ok?
    ensures AddInputArc(NewConnected(a.target), a).Ok?
  {
    assert a.source.kind != a.target.kind;
    assert !InstanceOf(a.source.kind, a.target.kind);
  }
}
