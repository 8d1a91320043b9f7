/**
 * The quantity net: its places, transitions and arcs, how a structure is
 * built from `(source, target)` name pairs, how nodes are looked up, the
 * net-level execution registry, the enabled-bindings map and the two marking
 * setters.
 *
 * Nodes are referred to by `NodeRef(id, kind)`; the net keeps every place and
 * every transition in a map keyed by id, and each node's arc sets live in the
 * node itself, as in the program.
 */
module Nets {
  import opened Wrappers
  import opened Counters
  import opened Objects
  import opened Elements
  import opened Arcs
  import opened Places
  import opened Seqs
  import opened Transitions
  import opened TransitionBindings
  import opened TransitionFiring

  const NotUnique := "Passed node cannot be uniquely identified."
  const UnknownElementType := "Element type not identified. Valid types: place, transition, collection point, arc, quantity arc"
  const BadQuery := "To identify object you must pass either object, string or uuid."
  const BadPrefix := "Passed node names must either begin wit p (to create an object place) or t (for a transition)."
  const OneTransition := "Every arc must contain exactly one transition."
  const NotObjects := "Arcs can only be created if source element and target elements are objects."
  const MissingNodes := "Arcs must connect existing nodes."
  const NeedsObjectPlace := "Arc must be connected to either an object place or a collection point."
  const QarcEnds := "Qarcs connnect transitions and collection points."
  const NotAnArc := "Passed arc is neither object arc nor quantity arc."
  const NotPartOfNet := "Passed element is not part of the net."
  const NoExecution := "Execution not part of the net."
  const WrongPlaceClass := "Passed place cannot be marked this way."
  const BadMarking := "Passed marking does not match with type of place."

  /** A net-level execution record: a started transition execution and the id of its transition. */
  datatype Execution = Execution(texec: TransitionExecution, transition: nat)

  /** A quantity net; `nextId` is the next fresh identity for a node or an arc. */
  datatype Net = Net(
    places: map<nat, Place>,
    transitions: map<nat, Transition>,
    arcs: set<Arc>,
    executions: seq<Execution>,
    nextId: nat)

  /** `QuantityNet(name)`: no places, transitions, arcs or executions. */
  function NewNet(nextId: nat): (net: Net)
    ensures Nodes(net) == {} && net.arcs == {} && net.executions == []
  {
    Net(map[], map[], {}, [], nextId)
  }

  // ---------------------------------------------------------------------------
  // Nodes

  /** `node in self.nodes`: a transition of the net, or a place of the net of the given class. */
  predicate InNet(net: Net, n: NodeRef) {
    if n.kind.TransitionKind? then n.id in net.transitions
    else IsPlace(n.kind) && n.id in net.places && KindOf(net.places[n.id].data) == n.kind
  }

  function PlaceNodes(net: Net): (r: set<NodeRef>)
    ensures forall n :: n in r <==> IsPlace(n.kind) && InNet(net, n)
  {
    set id | id in net.places :: NodeRef(id, KindOf(net.places[id].data))
  }

  function TransitionNodes(net: Net): (r: set<NodeRef>)
    ensures forall n :: n in r <==> n.kind.TransitionKind? && InNet(net, n)
  {
    set id | id in net.transitions :: NodeRef(id, TransitionKind)
  }

  /** `nodes`: places and transitions. */
  function Nodes(net: Net): (r: set<NodeRef>)
    ensures forall n :: n in r <==> InNet(net, n)
  {
    PlaceNodes(net) + TransitionNodes(net)
  }

  function NodeName(net: Net, n: NodeRef): Name
    requires InNet(net, n)
  {
    if n.kind.TransitionKind? then net.transitions[n.id].name else net.places[n.id].name
  }

  function NodeLabel(net: Net, n: NodeRef): Option<Name>
    requires InNet(net, n)
  {
    if n.kind.TransitionKind? then net.transitions[n.id].lbl else net.places[n.id].lbl
  }

  function NodeConn(net: Net, n: NodeRef): Connected
    requires InNet(net, n)
  {
    if n.kind.TransitionKind? then net.transitions[n.id].conn else net.places[n.id].conn
  }

  /** Node `n` of `net2` is node `n` of `net` unchanged. */
  ghost predicate SameNode(net: Net, net2: Net, n: NodeRef)
    requires InNet(net, n)
  {
    InNet(net2, n)
    && (n.kind.TransitionKind? ==> net2.transitions[n.id] == net.transitions[n.id])
    && (!n.kind.TransitionKind? ==> net2.places[n.id] == net.places[n.id])
  }

  /** Replaces the arc sets of node `n`. */
  function SetConn(net: Net, n: NodeRef, c: Connected): Net
    requires InNet(net, n)
  {
    if n.kind.TransitionKind? then net.(transitions := net.transitions[n.id := net.transitions[n.id].(conn := c)])
    else net.(places := net.places[n.id := net.places[n.id].(conn := c)])
  }

  /** Identities are fresh and every node knows itself. */
  predicate Wf(net: Net) {
    && (forall id | id in net.places :: id < net.nextId && net.places[id].conn.self == NodeRef(id, KindOf(net.places[id].data)))
    && (forall id | id in net.transitions ::
          id < net.nextId && id !in net.places && net.transitions[id].conn.self == NodeRef(id, TransitionKind))
    && (forall a | a in net.arcs :: a.id < net.nextId)
  }

  lemma WfConnSelf(net: Net, n: NodeRef)
    requires Wf(net) && InNet(net, n)
    ensures NodeConn(net, n).self == n
  {
  }

  // ---------------------------------------------------------------------------
  // Identifying nodes

  /** What `identify_node` is handed: a node object, a string, or anything else. */
  datatype NodeQuery = NodeObj(n: NodeRef) | NodeText(s: string) | NodeOther

  /** The optional `element_type`: absent, a string, or one of the node classes. */
  datatype ElementType = NoType | TypeName(s: string) | TypeClass(k: Kind)

  /** Which nodes a lookup searches. */
  datatype Scope = AllNodes | PlacesOnly | TransitionsOnly

  /** The element-type strings a lookup accepts for places and for transitions. */
  datatype Spellings = Spellings(placeWords: set<string>, transitionWords: set<string>)

  /**
   * The place spellings as the lookups list them: a missing comma joins
   * "places" and "p" into the single string "placesp".
   */
  const PlaceWords: set<string> :=
    {"place", "placesp", "object place", "objectplace", "ObjectPlace", "object_place",
     "collection point", "collection points", "collection_point", "collection_points", "cp", "cps"}

  /** The lookup by name accepts "transition", "transitions" and "t". */
  const NameSpellings: Spellings := Spellings(PlaceWords, {"transition", "transitions", "t"})

  /** The lookup by label has the same missing comma: "transitions" and "t" become "transitionst". */
  const LabelSpellings: Spellings := Spellings(PlaceWords, {"transition", "transitionst"})

  /** The spellings evidently intended, for both lookups. */
  const IntendedSpellings: Spellings :=
    Spellings(PlaceWords - {"placesp"} + {"places", "p"}, {"transition", "transitions", "t"})

  /** The nodes an element type selects; a truthy type that is not listed raises. */
  function ResolveScope(sp: Spellings, et: ElementType): (r: Result<Scope>)
    ensures et.NoType? || et == TypeName("") ==> r == Ok(AllNodes)
    ensures et.TypeName? && et.s != "" ==>
      r == (if et.s in sp.placeWords then Ok(PlacesOnly)
            else if et.s in sp.transitionWords then Ok(TransitionsOnly)
            else Err(ValueError(UnknownElementType)))
    ensures et.TypeClass? ==> (r.Ok? <==> IsConnected(et.k))
    ensures et.TypeClass? && r.Ok? ==> (r.value == TransitionsOnly <==> et.k.TransitionKind?)
  {
    match et
    case NoType => Ok(AllNodes)
    case TypeName(s) =>
      if s == "" then Ok(AllNodes)
      else if s in sp.placeWords then Ok(PlacesOnly)
      else if s in sp.transitionWords then Ok(TransitionsOnly)
      else Err(ValueError(UnknownElementType))
    case TypeClass(k) =>
      if IsPlace(k) then Ok(PlacesOnly)
      else if k.TransitionKind? then Ok(TransitionsOnly)
      else Err(ValueError(UnknownElementType))
  }

  function ScopeNodes(net: Net, sc: Scope): (r: set<NodeRef>)
    ensures r <= Nodes(net)
  {
    match sc
    case AllNodes => Nodes(net)
    case PlacesOnly => PlaceNodes(net)
    case TransitionsOnly => TransitionNodes(net)
  }

  /** The nodes in scope whose name is the string `s`. */
  function NamedIn(net: Net, sc: Scope, s: string): (r: set<NodeRef>)
    ensures forall n :: n in r <==> n in ScopeNodes(net, sc) && NodeName(net, n) == Str(s)
  {
    set n | n in ScopeNodes(net, sc) && NodeName(net, n) == Str(s)
  }

  /** The nodes in scope whose label is the string `s`. */
  function LabelledIn(net: Net, sc: Scope, s: string): (r: set<NodeRef>)
    ensures forall n :: n in r <==> n in ScopeNodes(net, sc) && NodeLabel(net, n) == Some(Str(s))
  {
    set n | n in ScopeNodes(net, sc) && NodeLabel(net, n) == Some(Str(s))
  }

  /** One match is returned, none gives `None`, several raise. */
  function Unique(s: set<NodeRef>): (r: Result<Option<NodeRef>>)
    ensures r.Ok? <==> |s| <= 1
    ensures s == {} ==> r == Ok(None)
    ensures r.Ok? && r.value.Some? ==> s == {r.value.value}
    ensures r.Err? ==> r.error.ValueError?
  {
    if s == {} then Ok(None)
    else if |s| == 1 then
      var x :| x in s;
      assert s == {x} by {
        assert |s - {x}| == 0;
      }
      Ok(Some(x))
    else Err(ValueError(NotUnique))
  }

  /** `_identify_node_by_name`. */
  function IdentifyByName(sp: Spellings, net: Net, s: string, et: ElementType): Result<Option<NodeRef>> {
    var sc :- ResolveScope(sp, et);
    Unique(NamedIn(net, sc, s))
  }

  /** `_identify_node_by_label`. */
  function IdentifyByLabel(sp: Spellings, net: Net, s: string, et: ElementType): Result<Option<NodeRef>> {
    var sc :- ResolveScope(sp, et);
    Unique(LabelledIn(net, sc, s))
  }

  /**
   * `identify_node` over the given spellings: a node object is returned iff
   * it belongs to the net; a string is looked up by name first and by label
   * only when no name matches.
   */
  function IdentifyNodeWith(byName: Spellings, byLabel: Spellings, net: Net, q: NodeQuery, et: ElementType): Result<Option<NodeRef>> {
    match q
    case NodeObj(n) =>
      if !IsConnected(n.kind) then Err(ValueError(BadQuery))
      else if InNet(net, n) then Ok(Some(n))
      else Ok(None)
    case NodeText(s) =>
      var byN :- IdentifyByName(byName, net, s, et);
      if byN.Some? then Ok(byN) else IdentifyByLabel(byLabel, net, s, et)
    case NodeOther => Err(ValueError(BadQuery))
  }

  /** `identify_node` as written. */
  function IdentifyNode(net: Net, q: NodeQuery, et: ElementType): (r: Result<Option<NodeRef>>)
    ensures q.NodeObj? && IsConnected(q.n.kind) ==> r == Ok(if InNet(net, q.n) then Some(q.n) else None)
    ensures q.NodeOther? || (q.NodeObj? && !IsConnected(q.n.kind)) ==> r.Err?
    ensures q.NodeText? && r.Ok? && r.value.Some? ==>
      InNet(net, r.value.value) && (NodeName(net, r.value.value) == Str(q.s) || NodeLabel(net, r.value.value) == Some(Str(q.s)))
    ensures q.NodeText? && ResolveScope(NameSpellings, et).Ok? ==>
      var named := NamedIn(net, ResolveScope(NameSpellings, et).value, q.s);
      && (|named| == 1 ==> r == Ok(Some(PickOne(named))))
      && (|named| > 1 ==> r.Err?)
  {
    IdentifyNodeWith(NameSpellings, LabelSpellings, net, q, et)
  }

  /** The only element of a singleton. */
  function PickOne(s: set<NodeRef>): (r: NodeRef)
    requires |s| == 1
    ensures s == {r}
  {
    Unique(s).value.value
  }

  /** `identify_node` with the element-type spellings evidently intended. */
  function IdentifyNodeCorrected(net: Net, q: NodeQuery, et: ElementType): (r: Result<Option<NodeRef>>)
    ensures q.NodeObj? && IsConnected(q.n.kind) ==> r == Ok(if InNet(net, q.n) then Some(q.n) else None)
    ensures q.NodeOther? || (q.NodeObj? && !IsConnected(q.n.kind)) ==> r.Err?
    ensures q.NodeText? && r.Ok? && r.value.Some? ==>
      InNet(net, r.value.value) && (NodeName(net, r.value.value) == Str(q.s) || NodeLabel(net, r.value.value) == Some(Str(q.s)))
    ensures q.NodeText? && ResolveScope(IntendedSpellings, et).Ok? ==>
      var sc := ResolveScope(IntendedSpellings, et).value;
      && (|NamedIn(net, sc, q.s)| == 1 ==> r == Ok(Some(PickOne(NamedIn(net, sc, q.s)))))
      && (|NamedIn(net, sc, q.s)| > 1 ==> r.Err?)
      && (NamedIn(net, sc, q.s) == {} && LabelledIn(net, sc, q.s) == {} ==> r == Ok(None))
  {
    IdentifyNodeWith(IntendedSpellings, IntendedSpellings, net, q, et)
  }

  /**
   * As written, "p" and "places" are not accepted as element types, and the
   * lookup by label does not accept "t": a name that matches nothing then
   * raises instead of coming back as `None`.
   */
  lemma IdentifyNodeRejectsShortSpellings(net: Net, s: string)
    requires NamedIn(net, AllNodes, s) == {}
    ensures IdentifyNode(net, NodeText(s), TypeName("p")).Err?
    ensures IdentifyNode(net, NodeText(s), TypeName("places")).Err?
    ensures IdentifyNode(net, NodeText(s), TypeName("t")).Err?
  {
    assert IdentifyByName(NameSpellings, net, s, TypeName("p")).Err?;
    assert IdentifyByName(NameSpellings, net, s, TypeName("places")).Err?;
    assert NamedIn(net, TransitionsOnly, s) <= NamedIn(net, AllNodes, s);
    assert IdentifyByName(NameSpellings, net, s, TypeName("t")) == Ok(None);
    assert IdentifyByLabel(LabelSpellings, net, s, TypeName("t")).Err?;
  }

  /** With the intended spellings, "p" and "places" look among the places and "t" among the transitions. */
  lemma IdentifyNodeCorrectedAcceptsShortSpellings(net: Net, q: NodeQuery)
    ensures IdentifyNodeCorrected(net, q, TypeName("p")) == IdentifyNodeCorrected(net, q, TypeName("place"))
    ensures IdentifyNodeCorrected(net, q, TypeName("places")) == IdentifyNodeCorrected(net, q, TypeName("place"))
    ensures IdentifyNodeCorrected(net, q, TypeName("t")) == IdentifyNodeCorrected(net, q, TypeName("transition"))
  {
    assert ResolveScope(IntendedSpellings, TypeName("p")) == Ok(PlacesOnly);
    assert ResolveScope(IntendedSpellings, TypeName("places")) == Ok(PlacesOnly);
    assert ResolveScope(IntendedSpellings, TypeName("place")) == Ok(PlacesOnly);
    assert ResolveScope(IntendedSpellings, TypeName("t")) == Ok(TransitionsOnly);
    assert ResolveScope(IntendedSpellings, TypeName("transition")) == Ok(TransitionsOnly);
  }

  /** On the spellings both lists share, the two versions agree. */
  lemma IdentifyNodeAgreesOnCommonSpellings(net: Net, q: NodeQuery, w: string)
    requires w in {"", "place", "object place", "objectplace", "ObjectPlace", "object_place",
                   "collection point", "collection points", "collection_point", "collection_points", "cp", "cps", "transition"}
    ensures IdentifyNode(net, q, TypeName(w)) == IdentifyNodeCorrected(net, q, TypeName(w))
    ensures IdentifyNode(net, q, NoType) == IdentifyNodeCorrected(net, q, NoType)
  {
  }

  // ---------------------------------------------------------------------------
  // Creating nodes and arcs

  /** The class a node name asks for by its first letter: t, p or c. */
  function PrefixKind(s: string): (r: Option<Kind>)
    ensures r.Some? <==> |s| > 0 && s[0] in {'t', 'p', 'c'}
    ensures r.Some? ==> IsConnected(r.value) && !r.value.PlainPlaceKind?
    ensures r == Some(TransitionKind) <==> |s| > 0 && s[0] == 't'
  {
    if |s| > 0 && s[0] == 't' then Some(TransitionKind)
    else if |s| > 0 && s[0] == 'p' then Some(ObjectPlaceKind)
    else if |s| > 0 && s[0] == 'c' then Some(CollectionPointKind)
    else None
  }

  /**
   * `create_and_add_node`: the first letter of the name chooses a transition,
   * an object place or a collection point; the node gets the next id and no arcs.
   */
  function CreateAndAddNode(net: Net, name: string): (r: Result<(Net, NodeRef)>)
    ensures r.Ok? <==> PrefixKind(name).Some?
    ensures r.Err? ==> r.error.ValueError?
    ensures r.Ok? ==>
      && r.value.1 == NodeRef(net.nextId, PrefixKind(name).value)
      && InNet(r.value.0, r.value.1)
      && r.value.0.nextId == net.nextId + 1 && r.value.0.arcs == net.arcs && r.value.0.executions == net.executions
  {
    var id := net.nextId;
    if |name| > 0 && name[0] == 't' then
      var t := NewTransition(id, Some(name), None, None);
      Ok((net.(transitions := net.transitions[id := t], nextId := id + 1), NodeRef(id, TransitionKind)))
    else if |name| > 0 && name[0] == 'p' then
      var p := NewObjectPlace(id, Some(name), None, None);
      Ok((net.(places := net.places[id := p], nextId := id + 1), NodeRef(id, ObjectPlaceKind)))
    else if |name| > 0 && name[0] == 'c' then
      var p := NewCollectionPoint(id, Some(name), None);
      Ok((net.(places := net.places[id := p], nextId := id + 1), NodeRef(id, CollectionPointKind)))
    else
      Err(ValueError(BadPrefix))
  }

  /** The created node is a fresh transition, object place or collection point carrying the given name and no label. */
  lemma CreateAndAddNodeRecord(net: Net, name: string)
    requires PrefixKind(name).Some?
    ensures var (net2, n) := CreateAndAddNode(net, name).value;
      && NodeName(net2, n) == Str(name) && NodeLabel(net2, n).None? && NodeConn(net2, n) == NewConnected(n)
      && (n.kind.TransitionKind? ==> net2.transitions[n.id] == NewTransition(n.id, Some(name), None, None))
      && (n.kind.ObjectPlaceKind? ==> net2.places[n.id] == NewObjectPlace(n.id, Some(name), None, None))
      && (n.kind.CollectionPointKind? ==> net2.places[n.id] == NewCollectionPoint(n.id, Some(name), None))
  {
  }

  /** On a net with fresh identities the new node is fresh and the identities stay fresh. */
  lemma CreateAndAddNodeFresh(net: Net, name: string)
    requires Wf(net) && PrefixKind(name).Some?
    ensures var (net2, n) := CreateAndAddNode(net, name).value;
      Wf(net2) && n !in Nodes(net)
  {
    CreateAndAddNodeRecord(net, name);
  }

  /** The new node is the one node added, and every other node is left as it was. */
  lemma CreateAndAddNodeKeeps(net: Net, name: string)
    requires Wf(net) && PrefixKind(name).Some?
    ensures var (net2, n) := CreateAndAddNode(net, name).value;
      && Nodes(net2) == Nodes(net) + {n}
      && forall m | InNet(net, m) :: SameNode(net, net2, m)
  {
    var (net2, n) := CreateAndAddNode(net, name).value;
    forall m | InNet(net, m) ensures SameNode(net, net2, m) {
      assert m.id < net.nextId;
    }
    forall m | InNet(net2, m) ensures m == n || InNet(net, m) {
    }
  }

  /** The checks `_add_arc` and the endpoints' `add_output_arc` / `add_input_arc` make. */
  predicate ArcAddable(net: Net, a: Arc) {
    && a.cls != PlainArcClass
    && InNet(net, a.source) && InNet(net, a.target)
    && AddOutputArc(NodeConn(net, a.source), a).Ok?
    && AddInputArc(NodeConn(net, a.target), a).Ok?
  }

  /**
   * `_add_arc`: both endpoints must be in the net, the arc classes must be
   * accepted by the endpoints, and the arc joins the net's arcs.
   */
  function AddArc(net: Net, a: Arc): (r: Result<Net>)
    ensures r.Ok? <==> ArcAddable(net, a)
    ensures r.Err? ==> r.error.ValueError?
    ensures r.Ok? ==> r.value.arcs == net.arcs + {a} && r.value.executions == net.executions && r.value.nextId == net.nextId
  {
    if a.cls == PlainArcClass then Err(ValueError(NotAnArc))
    else if !(InNet(net, a.source) && InNet(net, a.target)) then Err(ValueError(MissingNodes))
    else
      var out :- AddOutputArc(NodeConn(net, a.source), a);
      var net1 := SetConn(net, a.source, out);
      assert a.source != a.target;
      var inp :- AddInputArc(NodeConn(net1, a.target), a);
      Ok(SetConn(net1, a.target, inp).(arcs := net.arcs + {a}))
  }

  /** The arc `_add_arc` records at its endpoints: the source's output arcs and the target's input arcs gain it. */
  lemma AddArcRecords(net: Net, a: Arc)
    requires ArcAddable(net, a)
    ensures var r := AddArc(net, a).value;
      && Nodes(r) == Nodes(net)
      && NodeConn(r, a.source) == NodeConn(net, a.source).(outputArcs := NodeConn(net, a.source).outputArcs + {a})
      && NodeConn(r, a.target) == NodeConn(net, a.target).(inputArcs := NodeConn(net, a.target).inputArcs + {a})
  {
    var out := AddOutputArc(NodeConn(net, a.source), a).value;
    var net1 := SetConn(net, a.source, out);
    assert a.source != a.target;
    assert NodeConn(net1, a.target) == NodeConn(net, a.target);
    var inp := AddInputArc(NodeConn(net1, a.target), a).value;
    var net2 := SetConn(net1, a.target, inp);
    assert AddArc(net, a).value == net2.(arcs := net.arcs + {a});
    assert NodeConn(net2, a.source) == out;
    assert net2.places.Keys == net.places.Keys && net2.transitions.Keys == net.transitions.Keys;
    forall n ensures InNet(net2, n) <==> InNet(net, n) {
      if IsPlace(n.kind) && n.id in net.places {
        assert KindOf(net2.places[n.id].data) == KindOf(net.places[n.id].data);
      }
    }
  }

  /** Nodes other than the arc's endpoints are left exactly as they were. */
  lemma AddArcKeepsOtherNodes(net: Net, a: Arc)
    requires ArcAddable(net, a)
    ensures var r := AddArc(net, a).value;
      forall n | InNet(net, n) && n != a.source && n != a.target :: SameNode(net, r, n)
  {
    var out := AddOutputArc(NodeConn(net, a.source), a).value;
    var net1 := SetConn(net, a.source, out);
    var inp := AddInputArc(NodeConn(net1, a.target), a).value;
    var net2 := SetConn(net1, a.target, inp);
    assert AddArc(net, a).value == net2.(arcs := net.arcs + {a});
    forall n | InNet(net, n) && n != a.source && n != a.target ensures SameNode(net, net2, n) {
      assert SameNode(net, net1, n);
      assert SameNode(net1, net2, n);
    }
  }

  /** On a net with fresh identities an arc between one place and one transition of the net is always accepted. */
  lemma AddableBetweenPlaceAndTransition(net: Net, a: Arc)
    ensures (Wf(net) && a.cls != PlainArcClass && InNet(net, a.source) && InNet(net, a.target)
             && PlaceTransitionPair(a.source, a.target)) ==> ArcAddable(net, a)
  {
    if Wf(net) && a.cls != PlainArcClass && InNet(net, a.source) && InNet(net, a.target)
       && PlaceTransitionPair(a.source, a.target) {
      WfConnSelf(net, a.source);
      WfConnSelf(net, a.target);
      assert a.source.kind != a.target.kind;
      assert !InstanceOf(a.source.kind, a.target.kind);
    }
  }

  /** `create_and_add_object_arc`: the endpoints must be nodes of the net and one of them an object place. */
  function CreateAndAddObjectArc(net: Net, src: NodeRef, tgt: NodeRef): (r: Result<(Net, Arc)>)
    ensures r.Ok? ==> PlaceTransitionPair(src, tgt) && (src.kind.ObjectPlaceKind? || tgt.kind.ObjectPlaceKind?)
    ensures r.Err? ==> r.error.ValueError?
    ensures r.Ok? ==>
      var a := r.value.1;
      && a.source == src && a.target == tgt && a.cls == ObjectArcClass && !a.variableFlag && a.id == net.nextId
      && InNet(net, src) && InNet(net, tgt)
      && a.name == Str(DefaultArcName(NodeName(net, src), NodeName(net, tgt)))
      && AddArc(net.(nextId := net.nextId + 1), a) == Ok(r.value.0)
  {
    if !(IsConnected(src.kind) && IsConnected(tgt.kind)) then Err(ValueError(NotObjects))
    else if !(InNet(net, src) && InNet(net, tgt)) then Err(ValueError(MissingNodes))
    else if !(src.kind.ObjectPlaceKind? || tgt.kind.ObjectPlaceKind?) then Err(ValueError(NeedsObjectPlace))
    else
      var a :- NewObjectArc(net.nextId, src, NodeName(net, src), tgt, NodeName(net, tgt), None);
      var net2 :- AddArc(net.(nextId := net.nextId + 1), a);
      Ok((net2, a))
  }

  /** On a net with fresh identities, an object arc between an object place and a transition of the net is always created. */
  lemma CreateAndAddObjectArcAccepts(net: Net, src: NodeRef, tgt: NodeRef)
    requires Wf(net) && InNet(net, src) && InNet(net, tgt)
    requires (src.kind.ObjectPlaceKind? && tgt.kind.TransitionKind?) || (src.kind.TransitionKind? && tgt.kind.ObjectPlaceKind?)
    ensures CreateAndAddObjectArc(net, src, tgt).Ok?
  {
    var bumped := net.(nextId := net.nextId + 1);
    assert Wf(bumped);
    assert PlaceTransitionPair(src, tgt);
    var oa := NewObjectArc(net.nextId, src, NodeName(net, src), tgt, NodeName(net, tgt), None);
    assert oa.Ok?;
    var a := oa.value;
    AddableBetweenPlaceAndTransition(bumped, a);
    assert AddArc(bumped, a).Ok?;
  }

  /** `create_and_add_quantity_arc`: the endpoints must be nodes of the net, a collection point and a transition. */
  function CreateAndAddQuantityArc(net: Net, src: NodeRef, tgt: NodeRef): (r: Result<(Net, Arc)>)
    ensures r.Ok? ==> InNet(net, src) && InNet(net, tgt)
                      && (src.kind.CollectionPointKind? || tgt.kind.CollectionPointKind?)
                      && (src.kind.TransitionKind? || tgt.kind.TransitionKind?)
    ensures r.Err? ==> r.error.ValueError?
    ensures r.Ok? ==>
      var a := r.value.1;
      && a.source == src && a.target == tgt && a.cls == QarcClass && a.id == net.nextId
      && AddArc(net.(nextId := net.nextId + 1), a) == Ok(r.value.0)
  {
    if !(IsConnected(src.kind) && IsConnected(tgt.kind)) then Err(ValueError(NotObjects))
    else if !(InNet(net, src) && InNet(net, tgt)) then Err(ValueError(MissingNodes))
    else if !(src.kind.CollectionPointKind? || tgt.kind.CollectionPointKind?) then Err(ValueError(QarcEnds))
    else if !(src.kind.TransitionKind? || tgt.kind.TransitionKind?) then Err(ValueError(QarcEnds))
    else
      var a :- NewQarc(net.nextId, src, NodeName(net, src), tgt, NodeName(net, tgt), None);
      var net2 :- AddArc(net.(nextId := net.nextId + 1), a);
      Ok((net2, a))
  }

  /** On a net with fresh identities, a quantity arc between a collection point and a transition of the net is always created. */
  lemma CreateAndAddQuantityArcAccepts(net: Net, src: NodeRef, tgt: NodeRef)
    requires Wf(net) && InNet(net, src) && InNet(net, tgt)
    requires (src.kind.CollectionPointKind? && tgt.kind.TransitionKind?) || (src.kind.TransitionKind? && tgt.kind.CollectionPointKind?)
    ensures CreateAndAddQuantityArc(net, src, tgt).Ok?
  {
    var bumped := net.(nextId := net.nextId + 1);
    assert Wf(bumped);
    assert PlaceTransitionPair(src, tgt);
    var qa := NewQarc(net.nextId, src, NodeName(net, src), tgt, NodeName(net, tgt), None);
    assert qa.Ok?;
    var a := qa.value;
    assert a == NewArc(net.nextId, src, NodeName(net, src), tgt, NodeName(net, tgt), None, QarcClass).value;
    AddableBetweenPlaceAndTransition(bumped, a);
    assert AddArc(bumped, a).Ok?;
  }

  // ---------------------------------------------------------------------------
  // Building a structure from name pairs

  /** An arc as `set_net_structure` creates it: one transition and one place, an object arc exactly when the place is an object place. */
  predicate ArcShaped(a: Arc) {
    && ((a.source.kind.TransitionKind? && IsPlace(a.target.kind)) || (IsPlace(a.source.kind) && a.target.kind.TransitionKind?))
    && a.cls != PlainArcClass
    && (a.cls == ObjectArcClass <==> a.source.kind.ObjectPlaceKind? || a.target.kind.ObjectPlaceKind?)
  }

  /** A node as `set_net_structure` leaves it: named by its class prefix, unlabelled, its arcs arcs of the net that end or start at it. */
  predicate NodeShaped(net: Net, n: NodeRef)
    requires InNet(net, n)
  {
    && NodeName(net, n).Str? && PrefixKind(NodeName(net, n).s) == Some(n.kind)
    && NodeLabel(net, n).None?
    && (forall a | a in NodeConn(net, n).inputArcs :: a in net.arcs && a.target == n)
    && (forall a | a in NodeConn(net, n).outputArcs :: a in net.arcs && a.source == n)
  }

  /** An arc of the net is recorded at both of its endpoints. */
  predicate ArcRecorded(net: Net, a: Arc) {
    && InNet(net, a.source) && InNet(net, a.target)
    && a in NodeConn(net, a.source).outputArcs && a in NodeConn(net, a.target).inputArcs
  }

  /** No two nodes share a name. */
  ghost predicate UniqueNames(net: Net) {
    forall n, m | InNet(net, n) && InNet(net, m) && NodeName(net, n) == NodeName(net, m) :: n == m
  }

  /** The invariant `set_net_structure` keeps while it builds. */
  ghost predicate Structured(net: Net) {
    && Wf(net)
    && (forall n | InNet(net, n) :: NodeShaped(net, n))
    && (forall a | a in net.arcs :: ArcShaped(a) && ArcRecorded(net, a))
    && UniqueNames(net)
  }

  /** No place carries an explicit initial or final flag. */
  predicate Unmarked(net: Net) {
    forall id | id in net.places :: !net.places[id].initialFlag && !net.places[id].finalFlag
  }

  /** No node of the net is named `s`. */
  ghost predicate NameFree(net: Net, s: string) {
    forall n | InNet(net, n) :: NodeName(net, n) != Str(s)
  }

  /** `net2` keeps every node of `net` under its name and every arc of `net`. */
  ghost predicate Extends(net: Net, net2: Net) {
    && (forall n | InNet(net, n) :: InNet(net2, n) && NodeName(net2, n) == NodeName(net, n))
    && net.arcs <= net2.arcs
  }

  lemma ExtendsTransitive(net: Net, net1: Net, net2: Net)
    requires Extends(net, net1) && Extends(net1, net2)
    ensures Extends(net, net2)
  {
  }

  /** The element type `set_net_structure` looks a name up with: "transition", "place" or "collection point". */
  function KindWord(k: Kind): (r: string)
    ensures k.TransitionKind? ==> ResolveScope(IntendedSpellings, TypeName(r)) == Ok(TransitionsOnly)
    ensures !k.TransitionKind? ==> ResolveScope(IntendedSpellings, TypeName(r)) == Ok(PlacesOnly)
  {
    match k
    case TransitionKind => "transition"
    case ObjectPlaceKind => "place"
    case _ => "collection point"
  }

  /** The lookup of one name of a pair: its prefix must be t, p or c, and it is searched among nodes of that class. */
  function StructureLookup(net: Net, s: string): Result<Option<NodeRef>> {
    match PrefixKind(s)
    case None => Err(ValueError(BadPrefix))
    case Some(k) => IdentifyNodeCorrected(net, NodeText(s), TypeName(KindWord(k)))
  }

  /** In a structured net a name finds the node of that name. */
  lemma StructureLookupNamed(net: Net, s: string, n: NodeRef)
    requires Structured(net) && InNet(net, n) && NodeName(net, n) == Str(s)
    ensures StructureLookup(net, s) == Ok(Some(n))
  {
    assert NodeShaped(net, n);
    var sc := ResolveScope(IntendedSpellings, TypeName(KindWord(n.kind))).value;
    var named := NamedIn(net, sc, s);
    assert n in named;
    assert named == {n} by {
      forall m | m in named ensures m == n {
      }
    }
  }

  /** In a structured net a name with a class prefix that no node carries finds nothing. */
  lemma StructureLookupUnnamed(net: Net, s: string)
    requires Structured(net) && PrefixKind(s).Some? && NameFree(net, s)
    ensures StructureLookup(net, s) == Ok(None)
  {
    var sc := ResolveScope(IntendedSpellings, TypeName(KindWord(PrefixKind(s).value))).value;
    assert NamedIn(net, sc, s) == {};
    assert LabelledIn(net, sc, s) == {};
  }

  /** A node keeps its name, label and arc sets when nothing but other nodes changes. */
  lemma SameNodeSame(net: Net, net2: Net, n: NodeRef)
    requires InNet(net, n) && SameNode(net, net2, n)
    ensures NodeName(net2, n) == NodeName(net, n) && NodeLabel(net2, n) == NodeLabel(net, n)
    ensures NodeConn(net2, n) == NodeConn(net, n)
  {
  }

  /** Creating a node under an unused name keeps every node and arc of a structured net in shape. */
  lemma CreateKeepsShape(net: Net, s: string)
    requires Structured(net) && PrefixKind(s).Some?
    ensures var (net2, n) := CreateAndAddNode(net, s).value;
      && Wf(net2)
      && (forall m | InNet(net2, m) :: NodeShaped(net2, m))
      && (forall a | a in net2.arcs :: ArcShaped(a) && ArcRecorded(net2, a))
  {
    var (net2, n) := CreateAndAddNode(net, s).value;
    CreateAndAddNodeFresh(net, s);
    CreateAndAddNodeKeeps(net, s);
    CreateAndAddNodeRecord(net, s);
    forall m | InNet(net2, m) ensures NodeShaped(net2, m) {
      if m != n {
        assert InNet(net, m);
        SameNodeSame(net, net2, m);
        assert NodeShaped(net, m);
      }
    }
    forall a | a in net2.arcs ensures ArcShaped(a) && ArcRecorded(net2, a) {
      assert ArcRecorded(net, a);
      SameNodeSame(net, net2, a.source);
      SameNodeSame(net, net2, a.target);
    }
  }

  /** Creating a node keeps every old node under its name. */
  lemma CreateExtends(net: Net, s: string)
    requires Wf(net) && PrefixKind(s).Some?
    ensures Extends(net, CreateAndAddNode(net, s).value.0)
  {
    var (net2, n) := CreateAndAddNode(net, s).value;
    CreateAndAddNodeKeeps(net, s);
    forall m | InNet(net, m) ensures InNet(net2, m) && NodeName(net2, m) == NodeName(net, m) {
      SameNodeSame(net, net2, m);
    }
  }

  /** A node created under an unused name keeps the names unique. */
  lemma CreateKeepsUnique(net: Net, s: string)
    requires Wf(net) && UniqueNames(net) && PrefixKind(s).Some? && NameFree(net, s)
    ensures UniqueNames(CreateAndAddNode(net, s).value.0)
  {
    var (net2, n) := CreateAndAddNode(net, s).value;
    CreateAndAddNodeKeeps(net, s);
    CreateAndAddNodeRecord(net, s);
    CreateExtends(net, s);
    forall m | InNet(net2, m) && m != n ensures InNet(net, m) {
    }
  }

  /** Creating a node named `s` leaves every other name free that was free. */
  lemma CreateKeepsNameFree(net: Net, s: string, t: string)
    requires Wf(net) && PrefixKind(s).Some? && NameFree(net, t) && t != s
    ensures NameFree(CreateAndAddNode(net, s).value.0, t)
  {
    var (net2, n) := CreateAndAddNode(net, s).value;
    CreateAndAddNodeKeeps(net, s);
    CreateAndAddNodeRecord(net, s);
    CreateExtends(net, s);
    forall m | InNet(net2, m) && m != n ensures InNet(net, m) {
    }
  }

  /** A name free in a net stays free when no node is added and none is renamed. */
  lemma NameFreeKept(net: Net, net2: Net, t: string)
    requires Extends(net, net2) && Nodes(net2) == Nodes(net) && NameFree(net, t)
    ensures NameFree(net2, t)
  {
    forall m | InNet(net2, m) ensures InNet(net, m) {
      assert m in Nodes(net2);
    }
  }

  /** The created node carries no explicit initial or final flag. */
  lemma CreateKeepsUnmarked(net: Net, s: string)
    requires Wf(net) && Unmarked(net) && PrefixKind(s).Some?
    ensures Unmarked(CreateAndAddNode(net, s).value.0)
  {
    CreateAndAddNodeRecord(net, s);
  }

  /** `net2` differs from `net` at most in the nodes' arc sets. */
  ghost predicate OnlyArcSetsChange(net: Net, net2: Net) {
    && net2.places.Keys == net.places.Keys && net2.transitions.Keys == net.transitions.Keys
    && (forall id | id in net.places :: net2.places[id] == net.places[id].(conn := net2.places[id].conn))
    && (forall id | id in net.transitions :: net2.transitions[id] == net.transitions[id].(conn := net2.transitions[id].conn))
    && (forall id | id in net.places :: net2.places[id].conn.self == net.places[id].conn.self)
    && (forall id | id in net.transitions :: net2.transitions[id].conn.self == net.transitions[id].conn.self)
    && net2.nextId == net.nextId
  }

  lemma SetConnOnlyArcSets(net: Net, n: NodeRef, c: Connected)
    requires InNet(net, n) && c.self == NodeConn(net, n).self
    ensures OnlyArcSetsChange(net, SetConn(net, n, c))
  {
  }

  lemma OnlyArcSetsTransitive(net: Net, net1: Net, net2: Net)
    requires OnlyArcSetsChange(net, net1) && OnlyArcSetsChange(net1, net2)
    ensures OnlyArcSetsChange(net, net2)
  {
  }

  /** Changing arc sets keeps the nodes, their names and their labels. */
  lemma OnlyArcSetsKeepNodes(net: Net, net2: Net)
    requires OnlyArcSetsChange(net, net2)
    ensures forall n :: InNet(net2, n) <==> InNet(net, n)
    ensures forall n | InNet(net, n) :: NodeName(net2, n) == NodeName(net, n) && NodeLabel(net2, n) == NodeLabel(net, n)
  {
    forall n ensures InNet(net2, n) <==> InNet(net, n) {
      if !n.kind.TransitionKind? && n.id in net.places {
        assert net2.places[n.id].data == net.places[n.id].data;
      }
    }
  }

  /** Changing arc sets keeps the set of names and their uniqueness. */
  lemma OnlyArcSetsKeepNames(net: Net, net2: Net)
    requires OnlyArcSetsChange(net, net2)
    ensures UniqueNames(net) ==> UniqueNames(net2)
  {
    OnlyArcSetsKeepNodes(net, net2);
  }

  /** Changing arc sets keeps fresh identities and the absence of flags. */
  lemma OnlyArcSetsKeepWf(net: Net, net2: Net)
    requires OnlyArcSetsChange(net, net2)
    ensures Wf(net) && (forall a | a in net2.arcs :: a.id < net2.nextId) ==> Wf(net2)
    ensures Unmarked(net) ==> Unmarked(net2)
  {
    if Wf(net) {
      forall id | id in net2.places
        ensures net2.places[id].conn.self == NodeRef(id, KindOf(net2.places[id].data))
      {
        assert net2.places[id].data == net.places[id].data;
      }
    }
    if Unmarked(net) {
      forall id | id in net2.places ensures !net2.places[id].initialFlag && !net2.places[id].finalFlag {
        assert net2.places[id] == net.places[id].(conn := net2.places[id].conn);
      }
    }
  }

  /** `_add_arc` changes nothing but arc sets of the net's nodes. */
  lemma AddArcOnlyArcSets(net: Net, a: Arc)
    requires ArcAddable(net, a)
    ensures OnlyArcSetsChange(net, AddArc(net, a).value)
  {
    var out := AddOutputArc(NodeConn(net, a.source), a).value;
    var net1 := SetConn(net, a.source, out);
    SetConnOnlyArcSets(net, a.source, out);
    OnlyArcSetsKeepNodes(net, net1);
    assert a.source != a.target;
    assert NodeConn(net1, a.target) == NodeConn(net, a.target);
    var inp := AddInputArc(NodeConn(net1, a.target), a).value;
    SetConnOnlyArcSets(net1, a.target, inp);
    OnlyArcSetsTransitive(net, net1, SetConn(net1, a.target, inp));
    assert AddArc(net, a).value == SetConn(net1, a.target, inp).(arcs := net.arcs + {a});
  }

  /** `_add_arc` keeps every node under its name and every arc. */
  lemma AddArcExtends(net: Net, a: Arc)
    requires ArcAddable(net, a)
    ensures Extends(net, AddArc(net, a).value)
  {
    AddArcOnlyArcSets(net, a);
    OnlyArcSetsKeepNodes(net, AddArc(net, a).value);
  }

  /** `_add_arc` keeps the names of the nodes unique. */
  lemma AddArcKeepsNames(net: Net, a: Arc)
    requires ArcAddable(net, a)
    ensures UniqueNames(net) ==> UniqueNames(AddArc(net, a).value)
  {
    AddArcOnlyArcSets(net, a);
    OnlyArcSetsKeepNames(net, AddArc(net, a).value);
  }

  /** `_add_arc` of an arc with an issued identity keeps identities fresh and flags absent. */
  lemma AddArcKeepsWf(net: Net, a: Arc)
    requires Wf(net) && ArcAddable(net, a) && a.id < net.nextId
    ensures Wf(AddArc(net, a).value)
    ensures Unmarked(net) ==> Unmarked(AddArc(net, a).value)
  {
    AddArcOnlyArcSets(net, a);
    OnlyArcSetsKeepWf(net, AddArc(net, a).value);
  }

  /** After `_add_arc` an endpoint of the arc is still in shape. */
  lemma AddArcEndpointShaped(net: Net, a: Arc, m: NodeRef)
    requires Wf(net) && ArcAddable(net, a) && (m == a.source || m == a.target) && NodeShaped(net, m)
    ensures NodeShaped(AddArc(net, a).value, m)
  {
    var r := AddArc(net, a).value;
    assert NodeName(r, m) == NodeName(net, m) && NodeLabel(r, m) == NodeLabel(net, m) by {
      AddArcOnlyArcSets(net, a);
      OnlyArcSetsKeepNodes(net, r);
    }
    AddArcRecords(net, a);
    WfConnSelf(net, a.source);
    WfConnSelf(net, a.target);
  }

  /** After `_add_arc` a node that is not an endpoint of the arc is still in shape. */
  lemma AddArcOtherShaped(net: Net, a: Arc, m: NodeRef)
    requires ArcAddable(net, a) && InNet(net, m) && m != a.source && m != a.target && NodeShaped(net, m)
    ensures NodeShaped(AddArc(net, a).value, m)
  {
    AddArcKeepsOtherNodes(net, a);
    SameNodeSame(net, AddArc(net, a).value, m);
  }

  /** `_add_arc` keeps every node of a structured net in shape. */
  lemma AddArcKeepsNodeShape(net: Net, a: Arc)
    requires Structured(net) && ArcAddable(net, a)
    ensures var r := AddArc(net, a).value;
      forall m | InNet(r, m) :: NodeShaped(r, m)
  {
    var r := AddArc(net, a).value;
    AddArcOnlyArcSets(net, a);
    OnlyArcSetsKeepNodes(net, r);
    forall m | InNet(r, m) ensures NodeShaped(r, m) {
      assert NodeShaped(net, m);
      if m == a.source || m == a.target {
        AddArcEndpointShaped(net, a, m);
      } else {
        AddArcOtherShaped(net, a, m);
      }
    }
  }

  /** `_add_arc` only ever adds to the arc sets of the nodes. */
  lemma AddArcConnsGrow(net: Net, a: Arc)
    requires ArcAddable(net, a)
    ensures var r := AddArc(net, a).value;
      forall n | InNet(net, n) ::
        InNet(r, n) && NodeConn(net, n).inputArcs <= NodeConn(r, n).inputArcs
        && NodeConn(net, n).outputArcs <= NodeConn(r, n).outputArcs
  {
    var r := AddArc(net, a).value;
    AddArcRecords(net, a);
    AddArcKeepsOtherNodes(net, a);
    forall n | InNet(net, n)
      ensures InNet(r, n) && NodeConn(net, n).inputArcs <= NodeConn(r, n).inputArcs
              && NodeConn(net, n).outputArcs <= NodeConn(r, n).outputArcs
    {
      if n != a.source && n != a.target {
        SameNodeSame(net, r, n);
      }
    }
  }

  /** `_add_arc` with a well-shaped arc keeps every arc, old and new, shaped and recorded. */
  lemma AddArcKeepsArcs(net: Net, a: Arc)
    requires Structured(net) && ArcAddable(net, a) && ArcShaped(a)
    ensures var r := AddArc(net, a).value;
      forall b | b in r.arcs :: ArcShaped(b) && ArcRecorded(r, b)
  {
    var r := AddArc(net, a).value;
    assert ArcRecorded(r, a) by {
      AddArcRecords(net, a);
    }
    forall b | b in net.arcs ensures ArcShaped(b) && ArcRecorded(r, b) {
      assert ArcShaped(b) && ArcRecorded(net, b);
      AddArcConnsGrow(net, a);
    }
  }

  /** `_add_arc` of a fresh, well-shaped arc keeps a structured net structured. */
  lemma AddArcKeepsStructured(net: Net, a: Arc)
    requires Structured(net) && ArcAddable(net, a) && ArcShaped(a) && a.id < net.nextId
    ensures var r := AddArc(net, a).value;
      && Structured(r) && Extends(net, r)
      && (Unmarked(net) ==> Unmarked(r))
  {
    AddArcExtends(net, a);
    AddArcKeepsNames(net, a);
    AddArcKeepsWf(net, a);
    AddArcKeepsNodeShape(net, a);
    AddArcKeepsArcs(net, a);
  }

  /** A lookup in a structured net never raises, and finds a node of the prefix's class exactly when the name is taken. */
  lemma StructureLookupKind(net: Net, s: string)
    requires Structured(net) && PrefixKind(s).Some?
    ensures var r := StructureLookup(net, s);
      && r.Ok? && (r.value.None? <==> NameFree(net, s))
      && (r.value.Some? ==> InNet(net, r.value.value) && NodeName(net, r.value.value) == Str(s)
                            && r.value.value.kind == PrefixKind(s).value)
  {
    if !NameFree(net, s) {
      var n :| InNet(net, n) && NodeName(net, n) == Str(s);
      StructureLookupNamed(net, s, n);
      assert NodeShaped(net, n);
    } else {
      StructureLookupUnnamed(net, s);
    }
  }

  /** Creating a node under an unused name keeps a structured, unflagged net so and adds exactly that node and name. */
  lemma CreateKeepsStructured(net: Net, s: string)
    requires Structured(net) && Unmarked(net) && PrefixKind(s).Some? && NameFree(net, s)
    ensures var (net2, n) := CreateAndAddNode(net, s).value;
      && Structured(net2) && Unmarked(net2) && Extends(net, net2)
      && Nodes(net2) == Nodes(net) + {n} && n !in Nodes(net)
      && NodeName(net2, n) == Str(s)
  {
    CreateKeepsShape(net, s);
    CreateKeepsUnique(net, s);
    CreateExtends(net, s);
    CreateKeepsUnmarked(net, s);
    CreateAndAddNodeFresh(net, s);
    CreateAndAddNodeKeeps(net, s);
    CreateAndAddNodeRecord(net, s);
  }

  /** The node a pair's name stands for: the one found, or else a new one; the second component lists what was created. */
  function EnsureNode(net: Net, found: Option<NodeRef>, s: string): (r: Result<(Net, NodeRef, seq<NodeRef>)>)
    ensures found.Some? ==> r == Ok((net, found.value, []))
    ensures found.None? ==> (r.Ok? <==> PrefixKind(s).Some?)
    ensures found.None? && r.Ok? ==> r.value.2 == [r.value.1]
  {
    if found.Some? then Ok((net, found.value, []))
    else
      var c :- CreateAndAddNode(net, s);
      Ok((c.0, c.1, [c.1]))
  }

  /** The result of `EnsureNode` for a looked-up name: the node named `s`, of its prefix's class, and at most that node created. */
  ghost predicate EnsuredFrame(net: Net, s: string, r: (Net, NodeRef, seq<NodeRef>)) {
    var (net2, n, created) := r;
    && Extends(net, net2)
    && InNet(net2, n) && NodeName(net2, n) == Str(s) && PrefixKind(s) == Some(n.kind)
    && Nodes(net2) == Nodes(net) + Elems(created) && Distinct(created)
    && (forall m | m in created :: m == n && m !in Nodes(net))
    && net2.arcs == net.arcs && net2.executions == net.executions && net2.nextId >= net.nextId
  }

  /** A name already taken stands for its node, and nothing changes. */
  lemma EnsureNodeFound(net: Net, s: string, n: NodeRef)
    requires InNet(net, n) && NodeName(net, n) == Str(s) && PrefixKind(s) == Some(n.kind)
    ensures EnsureNode(net, Some(n), s) == Ok((net, n, []))
    ensures EnsuredFrame(net, s, (net, n, []))
  {
    assert Elems<NodeRef>([]) == {};
  }

  /** A name not yet taken gets a new node of its prefix's class. */
  lemma EnsureNodeCreated(net: Net, s: string)
    requires Structured(net) && Unmarked(net) && PrefixKind(s).Some? && NameFree(net, s)
    ensures EnsureNode(net, None, s).Ok?
    ensures Structured(EnsureNode(net, None, s).value.0) && Unmarked(EnsureNode(net, None, s).value.0)
    ensures EnsuredFrame(net, s, EnsureNode(net, None, s).value)
  {
    CreateKeepsStructured(net, s);
    var (net2, n) := CreateAndAddNode(net, s).value;
    assert Elems([n]) == {n};
  }

  /** Exactly one endpoint is a transition and the other a place. */
  predicate OneTransitionOnePlace(src: NodeRef, tgt: NodeRef) {
    (src.kind.TransitionKind? && IsPlace(tgt.kind)) || (IsPlace(src.kind) && tgt.kind.TransitionKind?)
  }

  /** The arc for a pair: an object arc when an endpoint is an object place, else a quantity arc. */
  function ConnectPair(net: Net, src: NodeRef, tgt: NodeRef): (r: Result<(Net, Arc)>)
    ensures r.Ok? ==> r.value.1.source == src && r.value.1.target == tgt
    ensures r.Ok? ==> (r.value.1.cls == ObjectArcClass <==> src.kind.ObjectPlaceKind? || tgt.kind.ObjectPlaceKind?)
  {
    if src.kind.ObjectPlaceKind? || tgt.kind.ObjectPlaceKind? then CreateAndAddObjectArc(net, src, tgt)
    else CreateAndAddQuantityArc(net, src, tgt)
  }

  /** What connecting `src` to `tgt` leaves: a structured net, unflagged if it was. */
  ghost predicate JoinedShape(net: Net, net2: Net) {
    Structured(net2) && (Unmarked(net) ==> Unmarked(net2))
  }

  /** What connecting `src` to `tgt` leaves: one new, well-shaped arc between them and no other change to nodes or names. */
  ghost predicate JoinedFrame(net: Net, src: NodeRef, tgt: NodeRef, net2: Net, a: Arc) {
    && Extends(net, net2) && Nodes(net2) == Nodes(net)
    && net2.arcs == net.arcs + {a} && a !in net.arcs
    && a.source == src && a.target == tgt && ArcShaped(a)
    && net2.executions == net.executions && net2.nextId == net.nextId + 1
  }

  /** Issuing an identity keeps a net structured. */
  lemma BumpKeepsStructured(net: Net)
    requires Structured(net)
    ensures Structured(net.(nextId := net.nextId + 1))
  {
    var bumped := net.(nextId := net.nextId + 1);
    forall n | InNet(bumped, n) ensures NodeShaped(bumped, n) {
      assert NodeShaped(net, n);
    }
    forall a | a in bumped.arcs ensures ArcShaped(a) && ArcRecorded(bumped, a) {
      assert ArcRecorded(net, a);
    }
    forall n, m | InNet(bumped, n) && InNet(bumped, m) && NodeName(bumped, n) == NodeName(bumped, m) ensures n == m {
      assert NodeName(net, n) == NodeName(net, m);
    }
  }

  /** The arc `_add_arc` adds to a structured net after an identity was issued for it keeps the net structured. */
  lemma AddIssuedArcShape(net: Net, a: Arc)
    requires Structured(net) && a.id == net.nextId && ArcShaped(a)
    requires AddArc(net.(nextId := net.nextId + 1), a).Ok?
    ensures JoinedShape(net, AddArc(net.(nextId := net.nextId + 1), a).value)
  {
    BumpKeepsStructured(net);
    AddArcKeepsStructured(net.(nextId := net.nextId + 1), a);
  }

  /** The arc `_add_arc` adds after an identity was issued for it is new, and nothing else about the nodes changes. */
  lemma AddIssuedArcFrame(net: Net, a: Arc)
    requires Wf(net) && a.id == net.nextId && ArcShaped(a)
    requires AddArc(net.(nextId := net.nextId + 1), a).Ok?
    ensures JoinedFrame(net, a.source, a.target, AddArc(net.(nextId := net.nextId + 1), a).value, a)
  {
    var bumped := net.(nextId := net.nextId + 1);
    var r := AddArc(bumped, a).value;
    assert Extends(r, r) && Extends(net, bumped);
    assert Extends(bumped, r) by {
      AddArcExtends(bumped, a);
      AddArcKeepsNames(bumped, a);
    }
    assert Nodes(r) == Nodes(bumped) by {
      AddArcRecords(bumped, a);
    }
    assert a !in net.arcs;
  }

  /** In a structured net, an object place and a transition of the net are always connected by an object arc. */
  lemma ConnectObjectArc(net: Net, src: NodeRef, tgt: NodeRef)
    requires Structured(net) && InNet(net, src) && InNet(net, tgt)
    requires (src.kind.ObjectPlaceKind? && tgt.kind.TransitionKind?) || (src.kind.TransitionKind? && tgt.kind.ObjectPlaceKind?)
    ensures CreateAndAddObjectArc(net, src, tgt).Ok?
    ensures var (net2, a) := CreateAndAddObjectArc(net, src, tgt).value;
      JoinedShape(net, net2) && JoinedFrame(net, src, tgt, net2, a)
  {
    CreateAndAddObjectArcAccepts(net, src, tgt);
    var (net2, a) := CreateAndAddObjectArc(net, src, tgt).value;
    assert AddArc(net.(nextId := net.nextId + 1), a) == Ok(net2);
    assert ArcShaped(a);
    AddIssuedArcShape(net, a);
    AddIssuedArcFrame(net, a);
  }

  /** In a structured net, a collection point and a transition of the net are always connected by a quantity arc. */
  lemma ConnectQuantityArc(net: Net, src: NodeRef, tgt: NodeRef)
    requires Structured(net) && InNet(net, src) && InNet(net, tgt)
    requires (src.kind.CollectionPointKind? && tgt.kind.TransitionKind?) || (src.kind.TransitionKind? && tgt.kind.CollectionPointKind?)
    ensures CreateAndAddQuantityArc(net, src, tgt).Ok?
    ensures var (net2, a) := CreateAndAddQuantityArc(net, src, tgt).value;
      JoinedShape(net, net2) && JoinedFrame(net, src, tgt, net2, a)
  {
    CreateAndAddQuantityArcAccepts(net, src, tgt);
    var (net2, a) := CreateAndAddQuantityArc(net, src, tgt).value;
    assert AddArc(net.(nextId := net.nextId + 1), a) == Ok(net2);
    assert ArcShaped(a);
    AddIssuedArcShape(net, a);
    AddIssuedArcFrame(net, a);
  }

  /** In a structured net, one transition and one place of the net are always connected. */
  lemma ConnectPairMeaning(net: Net, src: NodeRef, tgt: NodeRef)
    requires Structured(net) && InNet(net, src) && InNet(net, tgt) && OneTransitionOnePlace(src, tgt)
    ensures ConnectPair(net, src, tgt).Ok?
    ensures var (net2, a) := ConnectPair(net, src, tgt).value;
      JoinedShape(net, net2) && JoinedFrame(net, src, tgt, net2, a)
  {
    assert NodeShaped(net, src) && NodeShaped(net, tgt);
    if src.kind.ObjectPlaceKind? || tgt.kind.ObjectPlaceKind? {
      ConnectObjectArc(net, src, tgt);
    } else {
      ConnectQuantityArc(net, src, tgt);
    }
  }

  /** Both names carry a class prefix and exactly one of them names a transition. */
  predicate PairOk(pair: (string, string)) {
    && PrefixKind(pair.0).Some? && PrefixKind(pair.1).Some?
    && (PrefixKind(pair.0) == Some(TransitionKind) <==> PrefixKind(pair.1) != Some(TransitionKind))
  }

  /**
   * The two nodes of one iteration of `set_net_structure`: both names are
   * looked up first, then missing nodes are created, source first; the last
   * component lists the nodes created.
   */
  function PairNodes(net: Net, pair: (string, string)): Result<(Net, NodeRef, NodeRef, seq<NodeRef>)> {
    var f0 :- StructureLookup(net, pair.0);
    var f1 :- StructureLookup(net, pair.1);
    var e0 :- EnsureNode(net, f0, pair.0);
    var e1 :- EnsureNode(e0.0, f1, pair.1);
    Ok((e1.0, e0.1, e1.1, e0.2 + e1.2))
  }

  /** One iteration of `set_net_structure`: the pair's nodes, joined by an arc when one is a transition and the other a place. */
  function AddPair(net: Net, pair: (string, string)): Result<(Net, seq<NodeRef>, Arc)> {
    var m :- PairNodes(net, pair);
    if !OneTransitionOnePlace(m.1, m.2) then Err(ValueError(OneTransition))
    else
      var c :- ConnectPair(m.0, m.1, m.2);
      Ok((c.0, m.3, c.1))
  }

  /** Whichever node a looked-up name stands for, it has the class its prefix asks for. */
  lemma EnsureNodeKind(net: Net, found: Option<NodeRef>, s: string)
    requires PrefixKind(s).Some?
    requires found.Some? ==> found.value.kind == PrefixKind(s).value
    ensures EnsureNode(net, found, s).Ok? && EnsureNode(net, found, s).value.1.kind == PrefixKind(s).value
  {
  }

  /** A pair that is not one transition name and one place name is rejected with `ValueError`. */
  lemma AddPairRejectsWith(net: Net, pair: (string, string))
    requires Structured(net) && !PairOk(pair)
    ensures AddPair(net, pair).Err? && AddPair(net, pair).error.ValueError?
  {
    AddPairRejects(net, pair);
    PairNodesErrors(net, pair);
  }

  /** The lookups and creations of a pair fail only with `ValueError`. */
  lemma PairNodesErrors(net: Net, pair: (string, string))
    ensures PairNodes(net, pair).Err? ==> PairNodes(net, pair).error.ValueError?
  {
  }

  /** A pair that is not one transition name and one place name is rejected. */
  lemma AddPairRejects(net: Net, pair: (string, string))
    requires Structured(net) && !PairOk(pair)
    ensures AddPair(net, pair).Err?
  {
    if PrefixKind(pair.0).Some? && PrefixKind(pair.1).Some? {
      StructureLookupKind(net, pair.0);
      StructureLookupKind(net, pair.1);
      var f0 := StructureLookup(net, pair.0).value;
      var f1 := StructureLookup(net, pair.1).value;
      EnsureNodeKind(net, f0, pair.0);
      var e0 := EnsureNode(net, f0, pair.0).value;
      EnsureNodeKind(e0.0, f1, pair.1);
    }
  }

  /** The nodes of a valid pair: what the two lookups and creations leave. */
  ghost predicate PairNodesFrame(net: Net, pair: (string, string), m: (Net, NodeRef, NodeRef, seq<NodeRef>)) {
    var (net2, src, tgt, created) := m;
    && Extends(net, net2) && Nodes(net2) == Nodes(net) + Elems(created) && Distinct(created)
    && (forall n | n in created :: n !in Nodes(net) && (n == src || n == tgt))
    && InNet(net2, src) && NodeName(net2, src) == Str(pair.0) && PrefixKind(pair.0) == Some(src.kind)
    && InNet(net2, tgt) && NodeName(net2, tgt) == Str(pair.1) && PrefixKind(pair.1) == Some(tgt.kind)
    && net2.arcs == net.arcs && net2.executions == net.executions && net2.nextId >= net.nextId
  }

  /** The first name of a valid pair. */
  lemma PairNodesFirst(net: Net, pair: (string, string))
    requires Structured(net) && Unmarked(net) && PairOk(pair)
    ensures StructureLookup(net, pair.0).Ok? && StructureLookup(net, pair.1).Ok?
    ensures var e0 := EnsureNode(net, StructureLookup(net, pair.0).value, pair.0);
      && e0.Ok? && Structured(e0.value.0) && Unmarked(e0.value.0) && EnsuredFrame(net, pair.0, e0.value)
      && (StructureLookup(net, pair.1).value.None? ==> NameFree(e0.value.0, pair.1))
  {
    StructureLookupKind(net, pair.0);
    StructureLookupKind(net, pair.1);
    var f0 := StructureLookup(net, pair.0).value;
    if f0.Some? {
      EnsureNodeFound(net, pair.0, f0.value);
    } else {
      EnsureNodeCreated(net, pair.0);
      if StructureLookup(net, pair.1).value.None? {
        CreateKeepsNameFree(net, pair.0, pair.1);
      }
    }
  }

  /** The second name of a valid pair, once the first was resolved. */
  lemma PairNodesSecond(net: Net, pair: (string, string), net1: Net)
    requires Structured(net) && PairOk(pair) && Extends(net, net1) && Structured(net1) && Unmarked(net1)
    requires StructureLookup(net, pair.1).Ok?
    requires StructureLookup(net, pair.1).value.None? ==> NameFree(net1, pair.1)
    ensures var e1 := EnsureNode(net1, StructureLookup(net, pair.1).value, pair.1);
      && e1.Ok? && Structured(e1.value.0) && Unmarked(e1.value.0) && EnsuredFrame(net1, pair.1, e1.value)
  {
    StructureLookupKind(net, pair.1);
    var f1 := StructureLookup(net, pair.1).value;
    if f1.Some? {
      EnsureNodeFound(net1, pair.1, f1.value);
    } else {
      EnsureNodeCreated(net1, pair.1);
    }
  }

  /** A valid pair's nodes exist after the lookups and creations, and the net stays structured. */
  lemma PairNodesMeaning(net: Net, pair: (string, string))
    requires Structured(net) && Unmarked(net) && PairOk(pair)
    ensures PairNodes(net, pair).Ok?
    ensures Structured(PairNodes(net, pair).value.0) && Unmarked(PairNodes(net, pair).value.0)
    ensures PairNodesFrame(net, pair, PairNodes(net, pair).value)
  {
    PairNodesFirst(net, pair);
    var e0 := EnsureNode(net, StructureLookup(net, pair.0).value, pair.0).value;
    PairNodesSecond(net, pair, e0.0);
    var e1 := EnsureNode(e0.0, StructureLookup(net, pair.1).value, pair.1).value;
    assert PairNodes(net, pair) == Ok((e1.0, e0.1, e1.1, e0.2 + e1.2));
    EnsuredFramesCompose(net, pair, e0, e1);
  }

  /** Resolving the two names one after the other: the frames of both steps add up. */
  lemma EnsuredFramesCompose(net: Net, pair: (string, string), e0: (Net, NodeRef, seq<NodeRef>), e1: (Net, NodeRef, seq<NodeRef>))
    requires EnsuredFrame(net, pair.0, e0) && EnsuredFrame(e0.0, pair.1, e1)
    ensures PairNodesFrame(net, pair, (e1.0, e0.1, e1.1, e0.2 + e1.2))
  {
    ExtendsTransitive(net, e0.0, e1.0);
    ElemsConcat(e0.2, e1.2);
    DistinctConcat(e0.2, e1.2);
  }

  /** The nodes a pair adds: the created ones are new and carry one of the pair's names. */
  ghost predicate AddedNodes(net: Net, pair: (string, string), net2: Net, created: seq<NodeRef>) {
    && Extends(net, net2) && Nodes(net2) == Nodes(net) + Elems(created) && Distinct(created)
    && (forall m | m in created :: m !in Nodes(net) && InNet(net2, m) && NodeName(net2, m) in {Str(pair.0), Str(pair.1)})
    && net2.executions == net.executions && net2.nextId > net.nextId
  }

  /** The arc a pair adds: new, well-shaped, from the node named first to the node named second. */
  ghost predicate AddedArc(net: Net, pair: (string, string), net2: Net, a: Arc) {
    && net2.arcs == net.arcs + {a} && a !in net.arcs && ArcShaped(a)
    && InNet(net2, a.source) && InNet(net2, a.target)
    && NodeName(net2, a.source) == Str(pair.0) && NodeName(net2, a.target) == Str(pair.1)
  }

  /** A valid pair is accepted, and keeps a structured, unflagged net so. */
  lemma AddPairShape(net: Net, pair: (string, string))
    requires Structured(net) && Unmarked(net) && PairOk(pair)
    ensures AddPair(net, pair).Ok? && Structured(AddPair(net, pair).value.0) && Unmarked(AddPair(net, pair).value.0)
  {
    PairNodesMeaning(net, pair);
    var m := PairNodes(net, pair).value;
    ConnectPairMeaning(m.0, m.1, m.2);
  }

  /** A valid pair adds the nodes it names that were missing, and nothing else. */
  lemma AddPairAddsNodes(net: Net, pair: (string, string))
    requires Structured(net) && Unmarked(net) && PairOk(pair)
    ensures AddPair(net, pair).Ok?
    ensures var (net2, created, _) := AddPair(net, pair).value;
      AddedNodes(net, pair, net2, created)
  {
    AddPairShape(net, pair);
    var m := PairNodes(net, pair).value;
    assert PairNodesFrame(net, pair, m) by {
      PairNodesMeaning(net, pair);
    }
    var (net3, a) := ConnectPair(m.0, m.1, m.2).value;
    assert JoinedFrame(m.0, m.1, m.2, net3, a) by {
      PairNodesMeaning(net, pair);
      ConnectPairMeaning(m.0, m.1, m.2);
    }
    JoinedNodesCompose(net, pair, m, net3, a);
  }

  /** Joining the pair's nodes adds no node: the nodes added are those the lookups created. */
  lemma JoinedNodesCompose(net: Net, pair: (string, string), m: (Net, NodeRef, NodeRef, seq<NodeRef>), net3: Net, a: Arc)
    requires PairNodesFrame(net, pair, m) && JoinedFrame(m.0, m.1, m.2, net3, a)
    ensures AddedNodes(net, pair, net3, m.3)
  {
    ExtendsTransitive(net, m.0, net3);
  }

  /** A valid pair adds one new arc, from the node named first to the node named second. */
  lemma AddPairAddsArc(net: Net, pair: (string, string))
    requires Structured(net) && Unmarked(net) && PairOk(pair)
    ensures AddPair(net, pair).Ok?
    ensures var (net2, _, a) := AddPair(net, pair).value;
      AddedArc(net, pair, net2, a)
  {
    AddPairShape(net, pair);
    var m := PairNodes(net, pair).value;
    assert PairNodesFrame(net, pair, m) by {
      PairNodesMeaning(net, pair);
    }
    var (net3, a) := ConnectPair(m.0, m.1, m.2).value;
    assert JoinedFrame(m.0, m.1, m.2, net3, a) by {
      PairNodesMeaning(net, pair);
      ConnectPairMeaning(m.0, m.1, m.2);
    }
  }

  /** The loop of `set_net_structure` over the pairs in iteration order: the nodes created and the arcs added, each in order of creation. */
  function BuildStructure(net: Net, pairs: seq<(string, string)>): Result<(Net, seq<NodeRef>, seq<Arc>)>
    decreases |pairs|
  {
    if pairs == [] then Ok((net, [], []))
    else
      var p :- AddPair(net, pairs[0]);
      var rest :- BuildStructure(p.0, pairs[1..]);
      Ok((rest.0, p.1 + rest.1, [p.2] + rest.2))
  }

  /** `nm` is one of the names the pairs mention. */
  ghost predicate NamedInPairs(pairs: seq<(string, string)>, nm: Name) {
    exists i | 0 <= i < |pairs| :: nm == Str(pairs[i].0) || nm == Str(pairs[i].1)
  }

  /** The loop accepts the pairs exactly when every pair is one transition name and one place name. */
  lemma {:induction false} BuildStructureAccepts(net: Net, pairs: seq<(string, string)>)
    requires Structured(net) && Unmarked(net)
    ensures BuildStructure(net, pairs).Ok? <==> forall i | 0 <= i < |pairs| :: PairOk(pairs[i])
    decreases |pairs|
  {
    if pairs != [] {
      if !PairOk(pairs[0]) {
        AddPairRejects(net, pairs[0]);
      } else {
        AddPairShape(net, pairs[0]);
        var p := AddPair(net, pairs[0]).value;
        BuildStructureAccepts(p.0, pairs[1..]);
        if forall i | 0 <= i < |pairs[1..]| :: PairOk(pairs[1..][i]) {
          forall i | 0 <= i < |pairs| ensures PairOk(pairs[i]) {
            if i > 0 {
              assert pairs[i] == pairs[1..][i - 1];
            }
          }
        } else {
          var i :| 0 <= i < |pairs[1..]| && !PairOk(pairs[1..][i]);
          assert pairs[i + 1] == pairs[1..][i];
        }
      }
    }
  }

  /** The loop keeps a structured, unflagged net so. */
  lemma {:induction false} BuildStructureShape(net: Net, pairs: seq<(string, string)>)
    requires Structured(net) && Unmarked(net)
    ensures BuildStructure(net, pairs).Ok? ==>
      Structured(BuildStructure(net, pairs).value.0) && Unmarked(BuildStructure(net, pairs).value.0)
    decreases |pairs|
  {
    if pairs != [] && !PairOk(pairs[0]) {
      AddPairRejects(net, pairs[0]);
    } else if pairs != [] {
      AddPairShape(net, pairs[0]);
      BuildStructureShape(AddPair(net, pairs[0]).value.0, pairs[1..]);
    }
  }

  /** The nodes the loop leaves: those of `net` under their names, and the created ones, each new and named in some pair. */
  ghost predicate BuiltNodes(net: Net, pairs: seq<(string, string)>, net2: Net, created: seq<NodeRef>) {
    && Extends(net, net2) && Nodes(net2) == Nodes(net) + Elems(created) && Distinct(created)
    && (forall m | m in created :: m !in Nodes(net) && InNet(net2, m) && NamedInPairs(pairs, NodeName(net2, m)))
    && net2.executions == net.executions
  }

  /** The arcs the loop leaves: those of `net` and one new arc per pair, from the node named first to the node named second. */
  ghost predicate BuiltArcs(net: Net, pairs: seq<(string, string)>, net2: Net, arcs: seq<Arc>) {
    && net2.arcs == net.arcs + Elems(arcs) && |arcs| == |pairs| && Distinct(arcs)
    && (forall a | a in arcs :: a !in net.arcs)
    && (forall i | 0 <= i < |arcs| ::
          && ArcShaped(arcs[i]) && InNet(net2, arcs[i].source) && InNet(net2, arcs[i].target)
          && NodeName(net2, arcs[i].source) == Str(pairs[i].0) && NodeName(net2, arcs[i].target) == Str(pairs[i].1))
  }

  /** The nodes of one pair followed by those of the rest. */
  lemma BuiltNodesCompose(net: Net, pairs: seq<(string, string)>, net1: Net, c1: seq<NodeRef>, net2: Net, c2: seq<NodeRef>)
    requires |pairs| > 0
    requires AddedNodes(net, pairs[0], net1, c1) && BuiltNodes(net1, pairs[1..], net2, c2)
    ensures BuiltNodes(net, pairs, net2, c1 + c2)
  {
    ExtendsTransitive(net, net1, net2);
    ElemsConcat(c1, c2);
    DistinctConcat(c1, c2);
    forall m | m in c1 + c2
      ensures m !in Nodes(net) && InNet(net2, m) && NamedInPairs(pairs, NodeName(net2, m))
    {
      if m in c1 {
        assert NodeName(net2, m) == Str(pairs[0].0) || NodeName(net2, m) == Str(pairs[0].1);
      } else {
        var i :| 0 <= i < |pairs[1..]| && (NodeName(net2, m) == Str(pairs[1..][i].0) || NodeName(net2, m) == Str(pairs[1..][i].1));
        assert pairs[1..][i] == pairs[i + 1];
      }
    }
  }

  /** The arc of one pair followed by those of the rest. */
  lemma BuiltArcsCompose(net: Net, pairs: seq<(string, string)>, net1: Net, a: Arc, net2: Net, as2: seq<Arc>)
    requires |pairs| > 0
    requires AddedArc(net, pairs[0], net1, a) && Extends(net1, net2) && BuiltArcs(net1, pairs[1..], net2, as2)
    ensures BuiltArcs(net, pairs, net2, [a] + as2)
  {
    var as1 := [a] + as2;
    ElemsConcat([a], as2);
    assert Elems([a]) == {a};
    DistinctConcat([a], as2);
    forall i | 0 <= i < |as1|
      ensures && ArcShaped(as1[i]) && InNet(net2, as1[i].source) && InNet(net2, as1[i].target)
              && NodeName(net2, as1[i].source) == Str(pairs[i].0) && NodeName(net2, as1[i].target) == Str(pairs[i].1)
    {
      if i > 0 {
        assert as1[i] == as2[i - 1] && pairs[i] == pairs[1..][i - 1];
      }
    }
  }

  /** The nodes the loop creates are new, and each carries a name of some pair. */
  lemma {:induction false} BuildStructureNodes(net: Net, pairs: seq<(string, string)>)
    requires Structured(net) && Unmarked(net)
    ensures BuildStructure(net, pairs).Ok? ==>
      var (net2, created, _) := BuildStructure(net, pairs).value;
      BuiltNodes(net, pairs, net2, created)
    decreases |pairs|
  {
    if pairs == [] {
      assert Elems<NodeRef>([]) == {};
    } else if !PairOk(pairs[0]) {
      AddPairRejects(net, pairs[0]);
    } else {
      AddPairShape(net, pairs[0]);
      AddPairAddsNodes(net, pairs[0]);
      var p := AddPair(net, pairs[0]).value;
      BuildStructureNodes(p.0, pairs[1..]);
      if BuildStructure(p.0, pairs[1..]).Ok? {
        var rest := BuildStructure(p.0, pairs[1..]).value;
        BuiltNodesCompose(net, pairs, p.0, p.1, rest.0, rest.1);
      }
    }
  }

  /** The loop adds one new arc per pair, in order, from the node named first to the node named second. */
  lemma {:induction false} BuildStructureArcs(net: Net, pairs: seq<(string, string)>)
    requires Structured(net) && Unmarked(net)
    ensures BuildStructure(net, pairs).Ok? ==>
      var (net2, _, arcs) := BuildStructure(net, pairs).value;
      BuiltArcs(net, pairs, net2, arcs)
    decreases |pairs|
  {
    if pairs == [] {
      assert Elems<Arc>([]) == {};
    } else if !PairOk(pairs[0]) {
      AddPairRejects(net, pairs[0]);
    } else {
      AddPairShape(net, pairs[0]);
      AddPairAddsArc(net, pairs[0]);
      var p := AddPair(net, pairs[0]).value;
      BuildStructureArcs(p.0, pairs[1..]);
      if BuildStructure(p.0, pairs[1..]).Ok? {
        var rest := BuildStructure(p.0, pairs[1..]).value;
        BuildStructureNodes(p.0, pairs[1..]);
        BuiltArcsCompose(net, pairs, p.0, p.2, rest.0, rest.2);
      }
    }
  }

  /** In a structured net a node's arc sets are exactly the net's arcs ending and starting there. */
  lemma StructuredConns(net: Net, n: NodeRef)
    requires Structured(net) && InNet(net, n)
    ensures NodeConn(net, n).inputArcs == set a | a in net.arcs && a.target == n
    ensures NodeConn(net, n).outputArcs == set a | a in net.arcs && a.source == n
  {
    assert NodeShaped(net, n);
    forall a | a in net.arcs && a.target == n ensures a in NodeConn(net, n).inputArcs {
      assert ArcRecorded(net, a);
    }
    forall a | a in net.arcs && a.source == n ensures a in NodeConn(net, n).outputArcs {
      assert ArcRecorded(net, a);
    }
  }

  /** The end of `set_net_structure` for one place: an object place without input arcs becomes initial, one without output arcs final. */
  function MarkEnd(p: Place): Place {
    if p.data.ObjectData? then
      p.(initialFlag := p.initialFlag || p.conn.inputArcs == {}, finalFlag := p.finalFlag || p.conn.outputArcs == {})
    else p
  }

  /** The end of `set_net_structure`: every place marked. */
  function MarkEnds(net: Net): Net {
    net.(places := map id | id in net.places :: MarkEnd(net.places[id]))
  }

  /** Marking the ends changes flags only: nodes, names, labels, arc sets, arcs and executions stay. */
  lemma MarkEndsKeeps(net: Net)
    ensures forall n :: InNet(MarkEnds(net), n) <==> InNet(net, n)
    ensures forall n | InNet(net, n) ::
      NodeName(MarkEnds(net), n) == NodeName(net, n) && NodeConn(MarkEnds(net), n) == NodeConn(net, n)
    ensures MarkEnds(net).arcs == net.arcs && MarkEnds(net).executions == net.executions
  {
  }

  /** The structure part of a net emptied: no places, transitions or arcs; the execution registry stays. */
  function ResetStructure(net: Net): (r: Net)
    ensures Structured(r) && Unmarked(r) && Nodes(r) == {} && r.arcs == {} && r.executions == net.executions
  {
    net.(places := map[], transitions := map[], arcs := {})
  }

  /**
   * `set_net_structure(arcs)`: the net's nodes and arcs are replaced by
   * those the name pairs describe, visited in the order of `pairs`; returns
   * the net with the nodes created and the arcs added, each in order of
   * creation.
   */
  function SetNetStructure(net: Net, pairs: seq<(string, string)>): Result<(Net, seq<NodeRef>, seq<Arc>)> {
    var b :- BuildStructure(ResetStructure(net), pairs);
    Ok((MarkEnds(b.0), b.1, b.2))
  }

  /** The pairs are accepted exactly when each is one transition name and one place name, each with its class prefix. */
  lemma SetNetStructureAccepts(net: Net, pairs: seq<(string, string)>)
    ensures SetNetStructure(net, pairs).Ok? <==> forall i | 0 <= i < |pairs| :: PairOk(pairs[i])
    ensures SetNetStructure(net, pairs).Err? ==> SetNetStructure(net, pairs).error.ValueError?
  {
    BuildStructureAccepts(ResetStructure(net), pairs);
    BuildStructureErrors(ResetStructure(net), pairs);
  }

  /** The loop fails only with `ValueError`. */
  lemma {:induction false} BuildStructureErrors(net: Net, pairs: seq<(string, string)>)
    requires Structured(net) && Unmarked(net)
    ensures BuildStructure(net, pairs).Err? ==> BuildStructure(net, pairs).error.ValueError?
    decreases |pairs|
  {
    if pairs != [] && PairOk(pairs[0]) {
      AddPairShape(net, pairs[0]);
      BuildStructureErrors(AddPair(net, pairs[0]).value.0, pairs[1..]);
    } else if pairs != [] {
      AddPairRejectsWith(net, pairs[0]);
    }
  }

  /** The nodes of the new structure: exactly those created, pairwise differently named, each carrying a name of some pair; the execution registry stays. */
  lemma SetNetStructureNodes(net: Net, pairs: seq<(string, string)>)
    ensures SetNetStructure(net, pairs).Ok? ==>
      var (net2, created, _) := SetNetStructure(net, pairs).value;
      && Nodes(net2) == Elems(created) && Distinct(created) && UniqueNames(net2)
      && (forall n | InNet(net2, n) :: NamedInPairs(pairs, NodeName(net2, n)))
      && net2.executions == net.executions
  {
    var net0 := ResetStructure(net);
    if BuildStructure(net0, pairs).Ok? {
      var (net1, created, _) := BuildStructure(net0, pairs).value;
      BuildStructureNodes(net0, pairs);
      BuildStructureShape(net0, pairs);
      MarkEndsKeeps(net1);
    }
  }

  /** The arcs of the new structure: one per pair, in order, from the node named first to the node named second; an object arc exactly when it touches an object place. */
  lemma SetNetStructureArcs(net: Net, pairs: seq<(string, string)>)
    ensures SetNetStructure(net, pairs).Ok? ==>
      var (net2, _, arcs) := SetNetStructure(net, pairs).value;
      && net2.arcs == Elems(arcs) && |arcs| == |pairs| && Distinct(arcs)
      && (forall i | 0 <= i < |arcs| ::
            && ArcShaped(arcs[i]) && InNet(net2, arcs[i].source) && InNet(net2, arcs[i].target)
            && NodeName(net2, arcs[i].source) == Str(pairs[i].0) && NodeName(net2, arcs[i].target) == Str(pairs[i].1))
  {
    var net0 := ResetStructure(net);
    if BuildStructure(net0, pairs).Ok? {
      var (net1, _, arcs) := BuildStructure(net0, pairs).value;
      BuildStructureArcs(net0, pairs);
      MarkEndsKeeps(net1);
    }
  }

  /** Every arc of the new structure is recorded at both its endpoints, and nowhere else. */
  lemma SetNetStructureConns(net: Net, pairs: seq<(string, string)>, n: NodeRef)
    requires SetNetStructure(net, pairs).Ok? && InNet(SetNetStructure(net, pairs).value.0, n)
    ensures var net2 := SetNetStructure(net, pairs).value.0;
      && NodeConn(net2, n).inputArcs == (set a | a in net2.arcs && a.target == n)
      && NodeConn(net2, n).outputArcs == (set a | a in net2.arcs && a.source == n)
  {
    var net0 := ResetStructure(net);
    var net1 := BuildStructure(net0, pairs).value.0;
    BuildStructureShape(net0, pairs);
    MarkEndsKeeps(net1);
    StructuredConns(net1, n);
  }

  /** An object place of the new structure is initial exactly when no arc ends at it and final exactly when none starts there; other places carry no flag. */
  lemma SetNetStructureEnds(net: Net, pairs: seq<(string, string)>, id: nat)
    requires SetNetStructure(net, pairs).Ok? && id in SetNetStructure(net, pairs).value.0.places
    ensures var net2 := SetNetStructure(net, pairs).value.0;
      var p := net2.places[id];
      && (p.data.ObjectData? ==>
            && (p.initialFlag <==> forall a | a in net2.arcs :: a.target != NodeRef(id, ObjectPlaceKind))
            && (p.finalFlag <==> forall a | a in net2.arcs :: a.source != NodeRef(id, ObjectPlaceKind)))
      && (!p.data.ObjectData? ==> !p.initialFlag && !p.finalFlag)
  {
    var net0 := ResetStructure(net);
    var net1 := BuildStructure(net0, pairs).value.0;
    BuildStructureShape(net0, pairs);
    var n := NodeRef(id, KindOf(net1.places[id].data));
    assert InNet(net1, n);
    StructuredConns(net1, n);
    var p := net1.places[id];
    if p.data.ObjectData? {
      if p.conn.inputArcs != {} {
        var a :| a in p.conn.inputArcs;
        assert a in net1.arcs && a.target == n;
      }
      if p.conn.outputArcs != {} {
        var a :| a in p.conn.outputArcs;
        assert a in net1.arcs && a.source == n;
      }
    }
  }
}
