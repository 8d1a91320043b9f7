/**
 * The net's markings: the quantity state over all collection points, the
 * initial and final object places of a type, the places holding an object,
 * and the two setters `add_objects_to_places` and
 * `update_markings_collection_points`, which walk a dict of place → marking
 * and stop at the first raise with the earlier entries applied.
 */
module NetMarkings {
  import opened Wrappers
  import opened Counters
  import opened Objects
  import opened Elements
  import opened Places
  import opened Seqs
  import opened Transitions
  import opened Nets

  const NotAPlace := "Passed place is not a Place in the net."
  const NotACounter := "Passed marking has to be a counter."

  // ---------------------------------------------------------------------------
  // Queries

  /** `quantity_state`: the marking of every collection point of the net. */
  function NetQuantityState(net: Net): (r: CollectionCounter)
    ensures forall id :: id in r <==> IsCollectionPointIn(net.places, id)
  {
    map id | id in net.places && net.places[id].data.PointData? :: net.places[id].data.stock
  }

  /** What a transition sees of the quantity state is the net's, restricted to the collection points it is connected to. */
  lemma TransitionSeesNetQuantityState(t: Transition, net: Net)
    ensures QuantityState(t, net.places).Keys <= NetQuantityState(net).Keys
    ensures forall cp | cp in QuantityState(t, net.places) :: QuantityState(t, net.places)[cp] == NetQuantityState(net)[cp]
  {
  }

  /** `get_initial_places_object_type`: the object places of type `ot` that are initial. */
  function InitialPlacesOfType(net: Net, ot: string): (r: set<nat>)
    ensures forall id | id in r :: IsObjectPlaceIn(net.places, id) && net.places[id].data.otype == ot
  {
    set id | id in net.places && net.places[id].Initial() && net.places[id].data.ObjectData? && net.places[id].data.otype == ot
  }

  /** `get_final_places_object_type`: the object places of type `ot` that are final. */
  function FinalPlacesOfType(net: Net, ot: string): (r: set<nat>)
    ensures forall id | id in r :: IsObjectPlaceIn(net.places, id) && net.places[id].data.otype == ot
  {
    set id | id in net.places && net.places[id].Final() && net.places[id].data.ObjectData? && net.places[id].data.otype == ot
  }

  /**
   * In a net built by `set_net_structure`, the initial object places of a
   * type are exactly those that no arc ends at, and the final ones those
   * that no arc starts from.
   */
  lemma EndsOfBuiltStructure(net: Net, pairs: seq<(string, string)>, ot: string, id: nat)
    requires SetNetStructure(net, pairs).Ok?
    ensures var net2 := SetNetStructure(net, pairs).value.0;
      && (id in InitialPlacesOfType(net2, ot) <==>
            IsObjectPlaceIn(net2.places, id) && net2.places[id].data.otype == ot
            && forall a | a in net2.arcs :: a.target != NodeRef(id, ObjectPlaceKind))
      && (id in FinalPlacesOfType(net2, ot) <==>
            IsObjectPlaceIn(net2.places, id) && net2.places[id].data.otype == ot
            && forall a | a in net2.arcs :: a.source != NodeRef(id, ObjectPlaceKind))
  {
    var net2 := SetNetStructure(net, pairs).value.0;
    if IsObjectPlaceIn(net2.places, id) {
      var n := NodeRef(id, ObjectPlaceKind);
      assert InNet(net2, n);
      SetNetStructureEnds(net, pairs, id);
      SetNetStructureConns(net, pairs, n);
      var p := net2.places[id];
      assert p.conn == NodeConn(net2, n);
      if p.conn.inputArcs != {} {
        var a :| a in p.conn.inputArcs;
        assert a in net2.arcs && a.target == n;
      }
      if p.conn.outputArcs != {} {
        var a :| a in p.conn.outputArcs;
        assert a in net2.arcs && a.source == n;
      }
    }
  }

  /** `get_locations_of_object`: the object places whose marking holds `o`. */
  function LocationsOfObject(net: Net, o: Token): (r: set<nat>)
    ensures forall id :: id in r <==> IsObjectPlaceIn(net.places, id) && o in net.places[id].data.tokens
  {
    set id | id in net.places && net.places[id].data.ObjectData? && o in net.places[id].data.tokens
  }

  // ---------------------------------------------------------------------------
  // Resolving a place argument

  /** A place argument of the setters: a name, a place object, or anything else. */
  datatype PlaceKey = PlaceName(s: string) | PlaceObj(n: NodeRef) | PlaceOther

  /**
   * The place a setter's key stands for, which must be a place of class `k`:
   * a name is looked up among the places, a place object must be of class
   * `k` and belong to the net.
   */
  function ResolvePlace(net: Net, key: PlaceKey, k: Kind): (r: Result<nat>)
    ensures r.Ok? ==> InNet(net, NodeRef(r.value, k))
    ensures key.PlaceObj? ==> (r.Ok? <==> key.n.kind == k && InNet(net, key.n)) && (r.Ok? ==> r.value == key.n.id)
    ensures key.PlaceName? && r.Ok? ==>
      NodeName(net, NodeRef(r.value, k)) == Str(key.s) || NodeLabel(net, NodeRef(r.value, k)) == Some(Str(key.s))
    ensures key.PlaceOther? ==> r.Err?
  {
    match key
    case PlaceName(s) =>
      var found :- IdentifyNodeCorrected(net, NodeText(s), TypeName("place"));
      if found.None? then Err(ValueError(NotPartOfNet))
      else if found.value.kind != k then Err(ValueError(WrongPlaceClass))
      else Ok(found.value.id)
    case PlaceObj(n) =>
      if n.kind != k then Err(ValueError(NotAPlace))
      else if InNet(net, n) then Ok(n.id)
      else Err(ValueError(NotPartOfNet))
    case PlaceOther => Err(ValueError(NotAPlace))
  }

  /** A name that exactly one place carries, a place of class `k`, stands for that place. */
  lemma ResolvePlaceFindsNamed(net: Net, s: string, id: nat, k: Kind)
    requires NamedIn(net, PlacesOnly, s) == {NodeRef(id, k)}
    ensures ResolvePlace(net, PlaceName(s), k) == Ok(id)
  {
    assert ResolvePlace(net, PlaceName(s), k).Ok?;
  }

  /** `net2` has the nodes of `net` with their names, labels and classes; only markings may differ. */
  ghost predicate SameNodes(net: Net, net2: Net) {
    && net2.transitions == net.transitions
    && net2.places.Keys == net.places.Keys
    && (forall id | id in net.places ::
          && KindOf(net2.places[id].data) == KindOf(net.places[id].data)
          && net2.places[id].name == net.places[id].name && net2.places[id].lbl == net.places[id].lbl)
  }

  /** Nodes, names and labels are those of `net`. */
  lemma SameNodesKeep(net: Net, net2: Net)
    requires SameNodes(net, net2)
    ensures forall n :: InNet(net2, n) <==> InNet(net, n)
    ensures forall n | InNet(net, n) :: NodeName(net2, n) == NodeName(net, n) && NodeLabel(net2, n) == NodeLabel(net, n)
  {
  }

  /** Lookups by name and by label find the same nodes. */
  lemma SameNodesLookups(net: Net, net2: Net, sc: Scope, s: string)
    requires forall n :: InNet(net2, n) <==> InNet(net, n)
    requires forall n | InNet(net, n) :: NodeName(net2, n) == NodeName(net, n) && NodeLabel(net2, n) == NodeLabel(net, n)
    ensures NamedIn(net2, sc, s) == NamedIn(net, sc, s) && LabelledIn(net2, sc, s) == LabelledIn(net, sc, s)
  {
    assert ScopeNodes(net2, sc) == ScopeNodes(net, sc) by {
      assert PlaceNodes(net2) == PlaceNodes(net);
      assert TransitionNodes(net2) == TransitionNodes(net);
    }
  }

  /** Markings do not take part in resolving a place argument. */
  lemma ResolvePlaceSameNodes(net: Net, net2: Net, key: PlaceKey, k: Kind)
    requires SameNodes(net, net2)
    ensures ResolvePlace(net2, key, k) == ResolvePlace(net, key, k)
  {
    SameNodesKeep(net, net2);
    if key.PlaceName? {
      SameNodesLookups(net, net2, PlacesOnly, key.s);
      assert IdentifyNodeCorrected(net2, NodeText(key.s), TypeName("place")) == IdentifyNodeCorrected(net, NodeText(key.s), TypeName("place"));
    }
  }

  // ---------------------------------------------------------------------------
  // add_objects_to_places

  /** A marking argument of `add_objects_to_places`: a set, one object, a list, or anything else. */
  datatype ObjectMarking = MarkSet(objs: set<Token>) | MarkObject(obj: Token) | MarkList(objList: seq<Token>) | MarkOther

  /** The objects a marking argument stands for; anything else raises. */
  function MarkingObjects(m: ObjectMarking): (r: Result<set<Token>>)
    ensures r.Ok? <==> !m.MarkOther?
    ensures m.MarkSet? ==> r == Ok(m.objs)
    ensures m.MarkObject? ==> r == Ok({m.obj})
    ensures m.MarkList? ==> r.Ok? && (forall o :: o in r.value <==> o in m.objList)
  {
    match m
    case MarkSet(s) => Ok(s)
    case MarkObject(o) => Ok({o})
    case MarkList(l) => Ok(Elems(l))
    case MarkOther => Err(ValueError(BadMarking))
  }

  /** Places `objs` into the object place `id`, one at a time in set order, keeping what was added before a raise. */
  ghost function AddObjectsAt(net: Net, id: nat, objs: set<Token>): (r: Partial<Net>)
    requires IsObjectPlaceIn(net.places, id)
  {
    var added := AddTokens(net.places[id], SetToSeq(objs));
    Partial(net.(places := net.places[id := added.state]), added.error)
  }

  /**
   * `add_objects_to_places`, visiting the entries in dict order: each key is
   * resolved to an object place, each marking to a set of objects, which is
   * added to the place; the first raise stops the walk with the earlier
   * additions kept.
   */
  ghost function AddObjectsToPlaces(net: Net, entries: seq<(PlaceKey, ObjectMarking)>): (r: Partial<Net>)
    decreases |entries|
  {
    if entries == [] then Partial(net, None)
    else
      match ResolvePlace(net, entries[0].0, ObjectPlaceKind)
      case Err(e) => Partial(net, Some(e))
      case Ok(id) =>
        match MarkingObjects(entries[0].1)
        case Err(e) => Partial(net, Some(e))
        case Ok(objs) =>
          var step := AddObjectsAt(net, id, objs);
          if step.error.Some? then step else AddObjectsToPlaces(step.state, entries[1..])
  }

  /** `net2` differs from `net` only in the markings of object places, which may only grow. */
  ghost predicate TokensGrow(net: Net, net2: Net) {
    && net2 == net.(places := net2.places)
    && SameNodes(net, net2)
    && (forall id | id in net.places && net.places[id].data.ObjectData? ::
          && net2.places[id].data.ObjectData?
          && net2.places[id] == net.places[id].(data := net.places[id].data.(tokens := net2.places[id].data.tokens))
          && net.places[id].data.tokens <= net2.places[id].data.tokens)
    && (forall id | id in net.places && !net.places[id].data.ObjectData? :: net2.places[id] == net.places[id])
  }

  lemma TokensGrowTransitive(net: Net, net1: Net, net2: Net)
    requires TokensGrow(net, net1) && TokensGrow(net1, net2)
    ensures TokensGrow(net, net2)
  {
  }

  /** Giving one object place more objects, and changing nothing else, only grows the markings. */
  lemma ReplaceTokensGrows(net: Net, id: nat, q: Place)
    requires IsObjectPlaceIn(net.places, id) && q.data.ObjectData?
    requires q == net.places[id].(data := net.places[id].data.(tokens := q.data.tokens))
    requires net.places[id].data.tokens <= q.data.tokens
    ensures TokensGrow(net, net.(places := net.places[id := q]))
  {
    var net2 := net.(places := net.places[id := q]);
    assert forall id' | id' in net.places :: KindOf(net2.places[id'].data) == KindOf(net.places[id'].data);
  }

  /** One step adds to one object place only. */
  lemma AddObjectsAtGrows(net: Net, id: nat, objs: set<Token>)
    requires IsObjectPlaceIn(net.places, id)
    ensures TokensGrow(net, AddObjectsAt(net, id, objs).state)
    ensures AddObjectsAt(net, id, objs).error.None? <==> forall o | o in objs :: o.otype == net.places[id].data.otype
    ensures AddObjectsAt(net, id, objs).error.None? ==>
      AddObjectsAt(net, id, objs).state.places[id].data.tokens == net.places[id].data.tokens + objs
  {
    var ts := SetToSeq(objs);
    var p := net.places[id];
    AddTokensMeaning(p, ts);
    var added := AddTokens(p, ts);
    ReplaceTokensGrows(net, id, added.state);
    var k := FirstWrongType(ts, p.data.otype);
    assert (forall o | o in objs :: o.otype == p.data.otype) <==> k == |ts| by {
      if k < |ts| {
        assert ts[k] in objs;
      } else {
        forall o | o in objs ensures o.otype == p.data.otype {
          var i :| 0 <= i < |ts| && ts[i] == o;
        }
      }
    }
    if k == |ts| {
      assert ts[..k] == ts;
    }
  }

  /** The walk only ever adds objects to object places. */
  lemma {:induction false} AddObjectsToPlacesGrows(net: Net, entries: seq<(PlaceKey, ObjectMarking)>)
    ensures TokensGrow(net, AddObjectsToPlaces(net, entries).state)
    decreases |entries|
  {
    if entries != [] {
      var r := ResolvePlace(net, entries[0].0, ObjectPlaceKind);
      var m := MarkingObjects(entries[0].1);
      if r.Ok? && m.Ok? {
        AddObjectsAtGrows(net, r.value, m.value);
        var step := AddObjectsAt(net, r.value, m.value);
        if step.error.None? {
          AddObjectsToPlacesGrows(step.state, entries[1..]);
          TokensGrowTransitive(net, step.state, AddObjectsToPlaces(step.state, entries[1..]).state);
        }
      }
    }
  }

  /** An entry that goes through: its key names an object place and all its objects are of that place's type. */
  ghost predicate EntryOk(net: Net, e: (PlaceKey, ObjectMarking)) {
    && ResolvePlace(net, e.0, ObjectPlaceKind).Ok?
    && MarkingObjects(e.1).Ok?
    && forall o | o in MarkingObjects(e.1).value :: o.otype == net.places[ResolvePlace(net, e.0, ObjectPlaceKind).value].data.otype
  }

  /** The entry puts `o` into the place `id`. */
  ghost predicate Puts(net: Net, e: (PlaceKey, ObjectMarking), id: nat, o: Token) {
    ResolvePlace(net, e.0, ObjectPlaceKind) == Ok(id) && MarkingObjects(e.1).Ok? && o in MarkingObjects(e.1).value
  }

  /** Growing markings leave entries judged and placed as before. */
  lemma EntrySameAfterGrowth(net: Net, net2: Net, e: (PlaceKey, ObjectMarking), id: nat, o: Token)
    requires TokensGrow(net, net2)
    ensures EntryOk(net2, e) == EntryOk(net, e)
    ensures Puts(net2, e, id, o) == Puts(net, e, id, o)
  {
    ResolvePlaceSameNodes(net, net2, e.0, ObjectPlaceKind);
  }

  /**
   * The walk raises exactly when some entry does not go through. Without a
   * raise, an object place holds afterwards exactly what it held before and
   * what some entry puts there.
   */
  lemma {:induction false} AddObjectsToPlacesMeaning(net: Net, entries: seq<(PlaceKey, ObjectMarking)>, id: nat, o: Token)
    requires IsObjectPlaceIn(net.places, id)
    ensures AddObjectsToPlaces(net, entries).error.None? <==> forall i | 0 <= i < |entries| :: EntryOk(net, entries[i])
    ensures IsObjectPlaceIn(AddObjectsToPlaces(net, entries).state.places, id)
    ensures AddObjectsToPlaces(net, entries).error.None? ==>
      (o in AddObjectsToPlaces(net, entries).state.places[id].data.tokens <==>
         o in net.places[id].data.tokens || exists i | 0 <= i < |entries| :: Puts(net, entries[i], id, o))
    decreases |entries|
  {
    AddObjectsToPlacesGrows(net, entries);
    if entries != [] {
      var r := ResolvePlace(net, entries[0].0, ObjectPlaceKind);
      var m := MarkingObjects(entries[0].1);
      if r.Ok? && m.Ok? {
        AddObjectsAtGrows(net, r.value, m.value);
        var step := AddObjectsAt(net, r.value, m.value);
        if step.error.None? {
          var net1 := step.state;
          AddObjectsToPlacesMeaning(net1, entries[1..], id, o);
          forall i | 0 <= i < |entries[1..]|
            ensures EntryOk(net1, entries[1..][i]) == EntryOk(net, entries[1..][i])
            ensures Puts(net1, entries[1..][i], id, o) == Puts(net, entries[1..][i], id, o)
          {
            EntrySameAfterGrowth(net, net1, entries[1..][i], id, o);
          }
          SplitFirst(net, entries, id, o);
        }
      }
    }
  }

  /** The quantified statements over all entries, split at the first. */
  lemma SplitFirst(net: Net, entries: seq<(PlaceKey, ObjectMarking)>, id: nat, o: Token)
    requires |entries| > 0
    ensures (forall i | 0 <= i < |entries| :: EntryOk(net, entries[i])) <==>
      EntryOk(net, entries[0]) && forall i | 0 <= i < |entries[1..]| :: EntryOk(net, entries[1..][i])
    ensures (exists i | 0 <= i < |entries| :: Puts(net, entries[i], id, o)) <==>
      Puts(net, entries[0], id, o) || exists i | 0 <= i < |entries[1..]| :: Puts(net, entries[1..][i], id, o)
  {
    forall i | 0 <= i < |entries[1..]| ensures entries[1..][i] == entries[i + 1] {
    }
    if exists i | 0 <= i < |entries| :: Puts(net, entries[i], id, o) {
      var i :| 0 <= i < |entries| && Puts(net, entries[i], id, o);
      if i > 0 {
        assert Puts(net, entries[1..][i - 1], id, o);
      }
    }
    if forall i | 0 <= i < |entries[1..]| :: EntryOk(net, entries[1..][i]) {
      forall i | 1 <= i < |entries| ensures EntryOk(net, entries[i]) {
        assert entries[i] == entries[1..][i - 1];
      }
    }
  }

  /** After a walk without a raise, every object of every entry is located at that entry's place. */
  lemma AddedObjectsAreLocated(net: Net, entries: seq<(PlaceKey, ObjectMarking)>, i: nat, o: Token)
    requires i < |entries| && AddObjectsToPlaces(net, entries).error.None?
    requires MarkingObjects(entries[i].1).Ok? && o in MarkingObjects(entries[i].1).value
    ensures ResolvePlace(net, entries[i].0, ObjectPlaceKind).Ok?
    ensures ResolvePlace(net, entries[i].0, ObjectPlaceKind).value in LocationsOfObject(AddObjectsToPlaces(net, entries).state, o)
  {
    AllEntriesOk(net, entries);
    assert EntryOk(net, entries[i]);
    var id := ResolvePlace(net, entries[i].0, ObjectPlaceKind).value;
    assert IsObjectPlaceIn(net.places, id);
    AddObjectsToPlacesMeaning(net, entries, id, o);
    assert Puts(net, entries[i], id, o);
    AddObjectsToPlacesGrows(net, entries);
  }

  /** A walk without a raise went through every entry. */
  lemma AllEntriesOk(net: Net, entries: seq<(PlaceKey, ObjectMarking)>)
    requires AddObjectsToPlaces(net, entries).error.None?
    ensures forall i | 0 <= i < |entries| :: EntryOk(net, entries[i])
  {
    if forall id :: !IsObjectPlaceIn(net.places, id) {
      AllEntriesOkNoPlace(net, entries);
    } else {
      var id :| IsObjectPlaceIn(net.places, id);
      AddObjectsToPlacesMeaning(net, entries, id, Token(0, ""));
    }
  }

  /** Without object places no entry resolves, so the first entry raises. */
  lemma AllEntriesOkNoPlace(net: Net, entries: seq<(PlaceKey, ObjectMarking)>)
    requires forall id :: !IsObjectPlaceIn(net.places, id)
    ensures AddObjectsToPlaces(net, entries).error.None? <==> entries == []
  {
    if entries != [] {
      var r := ResolvePlace(net, entries[0].0, ObjectPlaceKind);
      assert r.Ok? ==> IsObjectPlaceIn(net.places, r.value);
    }
  }

  // ---------------------------------------------------------------------------
  // update_markings_collection_points

  /** `update_marking` at the collection point `id` with the counter `c`. */
  function UpdateAt(net: Net, id: nat, c: Counter): Net
    requires IsCollectionPointIn(net.places, id)
  {
    net.(places := net.places[id := UpdateMarking(net.places[id], PyCounter(c)).value])
  }

  /**
   * `update_markings_collection_points`, visiting the entries in dict order:
   * each key is resolved to a collection point and each marking must be a
   * Counter, which is added to the point's stock; the first raise stops the
   * walk with the earlier updates kept.
   */
  function UpdateMarkingsCollectionPoints(net: Net, entries: seq<(PlaceKey, PyValue)>): (r: Partial<Net>)
    decreases |entries|
  {
    if entries == [] then Partial(net, None)
    else
      match ResolvePlace(net, entries[0].0, CollectionPointKind)
      case Err(e) => Partial(net, Some(e))
      case Ok(id) =>
        if !entries[0].1.PyCounter? then Partial(net, Some(ValueError(NotACounter)))
        else UpdateMarkingsCollectionPoints(UpdateAt(net, id, entries[0].1.c), entries[1..])
  }

  /** `net2` differs from `net` only in the data of collection points. */
  ghost predicate StocksChange(net: Net, net2: Net) {
    && net2 == net.(places := net2.places)
    && SameNodes(net, net2)
    && (forall id | id in net.places ::
          && net2.places[id].conn == net.places[id].conn
          && (!net.places[id].data.PointData? ==> net2.places[id] == net.places[id]))
  }

  lemma StocksChangeTransitive(net: Net, net1: Net, net2: Net)
    requires StocksChange(net, net1) && StocksChange(net1, net2)
    ensures StocksChange(net, net2)
  {
  }

  /** An entry that goes through: its key names a collection point and its marking is a Counter. */
  predicate CounterEntryOk(net: Net, e: (PlaceKey, PyValue)) {
    ResolvePlace(net, e.0, CollectionPointKind).Ok? && e.1.PyCounter?
  }

  /** The entry updates the collection point `id`. */
  predicate Updates(net: Net, e: (PlaceKey, PyValue), id: nat) {
    ResolvePlace(net, e.0, CollectionPointKind) == Ok(id) && e.1.PyCounter?
  }

  /** The total change the entries ask for at the collection point `id`, for item type `k`. */
  function Requested(net: Net, entries: seq<(PlaceKey, PyValue)>, id: nat, k: string): int
    decreases |entries|
  {
    if entries == [] then 0
    else (if Updates(net, entries[0], id) then Get(entries[0].1.c, k) else 0) + Requested(net, entries[1..], id, k)
  }

  /** Changing stocks leaves entries judged as before. */
  lemma {:induction false} RequestedAfterStocksChange(net: Net, net2: Net, entries: seq<(PlaceKey, PyValue)>, id: nat, k: string)
    requires StocksChange(net, net2)
    ensures Requested(net2, entries, id, k) == Requested(net, entries, id, k)
    ensures forall i | 0 <= i < |entries| :: CounterEntryOk(net2, entries[i]) == CounterEntryOk(net, entries[i])
    ensures forall i | 0 <= i < |entries| :: Updates(net2, entries[i], id) == Updates(net, entries[i], id)
    decreases |entries|
  {
    if entries != [] {
      RequestedAfterStocksChange(net, net2, entries[1..], id, k);
      forall i | 0 <= i < |entries| ensures ResolvePlace(net2, entries[i].0, CollectionPointKind) == ResolvePlace(net, entries[i].0, CollectionPointKind) {
        ResolvePlaceSameNodes(net, net2, entries[i].0, CollectionPointKind);
      }
    }
  }

  /** One update changes one collection point's stock by the counter, signed, and adds its keys to the item types. */
  lemma UpdateAtMeaning(net: Net, id: nat, c: Counter)
    requires IsCollectionPointIn(net.places, id)
    ensures StocksChange(net, UpdateAt(net, id, c))
    ensures var p2 := UpdateAt(net, id, c).places[id];
      && p2.data.PointData?
      && (forall k :: Get(p2.data.stock, k) == Get(net.places[id].data.stock, k) + Get(c, k))
      && p2.data.itemTypes == net.places[id].data.itemTypes + c.Keys
    ensures forall id' | id' in net.places && id' != id :: UpdateAt(net, id, c).places[id'] == net.places[id']
  {
  }

  /** The walk only changes collection points' data. */
  lemma {:induction false} UpdateMarkingsChangesStocks(net: Net, entries: seq<(PlaceKey, PyValue)>)
    ensures StocksChange(net, UpdateMarkingsCollectionPoints(net, entries).state)
    decreases |entries|
  {
    if entries != [] && CounterEntryOk(net, entries[0]) {
      var id := ResolvePlace(net, entries[0].0, CollectionPointKind).value;
      UpdateAtMeaning(net, id, entries[0].1.c);
      var net1 := UpdateAt(net, id, entries[0].1.c);
      UpdateMarkingsChangesStocks(net1, entries[1..]);
      StocksChangeTransitive(net, net1, UpdateMarkingsCollectionPoints(net1, entries[1..]).state);
    }
  }

  /** The walk raises exactly when some entry does not go through. */
  lemma {:induction false} UpdateMarkingsRaises(net: Net, entries: seq<(PlaceKey, PyValue)>)
    ensures UpdateMarkingsCollectionPoints(net, entries).error.None? <==> forall i | 0 <= i < |entries| :: CounterEntryOk(net, entries[i])
    decreases |entries|
  {
    if entries != [] && CounterEntryOk(net, entries[0]) {
      var id0 := ResolvePlace(net, entries[0].0, CollectionPointKind).value;
      UpdateAtMeaning(net, id0, entries[0].1.c);
      var net1 := UpdateAt(net, id0, entries[0].1.c);
      UpdateMarkingsRaises(net1, entries[1..]);
      RequestedAfterStocksChange(net, net1, entries[1..], id0, "");
      SplitFirstCounters(net, entries, id0, "");
    }
  }

  /**
   * Without a raise, every collection point's stock has changed, per item
   * type, by the sum of the counters the entries give it.
   */
  lemma {:induction false} UpdateMarkingsMeaning(net: Net, entries: seq<(PlaceKey, PyValue)>, id: nat, k: string)
    requires IsCollectionPointIn(net.places, id)
    ensures IsCollectionPointIn(UpdateMarkingsCollectionPoints(net, entries).state.places, id)
    ensures UpdateMarkingsCollectionPoints(net, entries).error.None? ==>
      Get(UpdateMarkingsCollectionPoints(net, entries).state.places[id].data.stock, k)
        == Get(net.places[id].data.stock, k) + Requested(net, entries, id, k)
    decreases |entries|
  {
    UpdateMarkingsChangesStocks(net, entries);
    if entries != [] && CounterEntryOk(net, entries[0]) {
      var id0 := ResolvePlace(net, entries[0].0, CollectionPointKind).value;
      UpdateAtMeaning(net, id0, entries[0].1.c);
      var net1 := UpdateAt(net, id0, entries[0].1.c);
      UpdateMarkingsMeaning(net1, entries[1..], id, k);
      RequestedAfterStocksChange(net, net1, entries[1..], id, k);
    }
  }

  /** Without a raise, every collection point's item types have gained exactly the keys of the counters the entries give it. */
  lemma {:induction false} UpdateMarkingsItemTypes(net: Net, entries: seq<(PlaceKey, PyValue)>, id: nat, k: string)
    requires IsCollectionPointIn(net.places, id)
    ensures UpdateMarkingsCollectionPoints(net, entries).error.None? ==>
      && IsCollectionPointIn(UpdateMarkingsCollectionPoints(net, entries).state.places, id)
      && (k in UpdateMarkingsCollectionPoints(net, entries).state.places[id].data.itemTypes <==>
            k in net.places[id].data.itemTypes || exists i | 0 <= i < |entries| :: Updates(net, entries[i], id) && k in entries[i].1.c)
    decreases |entries|
  {
    UpdateMarkingsChangesStocks(net, entries);
    if entries != [] && CounterEntryOk(net, entries[0]) {
      var id0 := ResolvePlace(net, entries[0].0, CollectionPointKind).value;
      UpdateAtMeaning(net, id0, entries[0].1.c);
      var net1 := UpdateAt(net, id0, entries[0].1.c);
      assert net1.places[id].data.itemTypes ==
        net.places[id].data.itemTypes + (if Updates(net, entries[0], id) then entries[0].1.c.Keys else {});
      UpdateMarkingsItemTypes(net1, entries[1..], id, k);
      forall i | 0 <= i < |entries[1..]| ensures Updates(net1, entries[1..][i], id) == Updates(net, entries[1..][i], id) {
        ResolvePlaceSameNodes(net, net1, entries[1..][i].0, CollectionPointKind);
      }
      SplitFirstCounters(net, entries, id, k);
    }
  }

  /** The quantified statements over all entries, split at the first. */
  lemma SplitFirstCounters(net: Net, entries: seq<(PlaceKey, PyValue)>, id: nat, k: string)
    requires |entries| > 0
    ensures (forall i | 0 <= i < |entries| :: CounterEntryOk(net, entries[i])) <==>
      CounterEntryOk(net, entries[0]) && forall i | 0 <= i < |entries[1..]| :: CounterEntryOk(net, entries[1..][i])
    ensures (exists i | 0 <= i < |entries| :: Updates(net, entries[i], id) && k in entries[i].1.c) <==>
      (Updates(net, entries[0], id) && k in entries[0].1.c)
      || exists i | 0 <= i < |entries[1..]| :: Updates(net, entries[1..][i], id) && k in entries[1..][i].1.c
  {
    forall i | 0 <= i < |entries[1..]| ensures entries[1..][i] == entries[i + 1] {
    }
    if exists i | 0 <= i < |entries| :: Updates(net, entries[i], id) && k in entries[i].1.c {
      var i :| 0 <= i < |entries| && Updates(net, entries[i], id) && k in entries[i].1.c;
      if i > 0 {
        assert entries[1..][i - 1] == entries[i];
      }
    }
    if forall i | 0 <= i < |entries[1..]| :: CounterEntryOk(net, entries[1..][i]) {
      forall i | 1 <= i < |entries| ensures CounterEntryOk(net, entries[i]) {
        assert entries[i] == entries[1..][i - 1];
      }
    }
  }

  /** Two updates of the same collection point add up: stock may go below zero. */
  lemma UpdatesAddUp(net: Net, s: string, id: nat)
    requires NamedIn(net, PlacesOnly, s) == {NodeRef(id, CollectionPointKind)}
    ensures var entries := [(PlaceName(s), PyCounter(map["screw" := 2])), (PlaceObj(NodeRef(id, CollectionPointKind)), PyCounter(map["screw" := -5]))];
      var r := UpdateMarkingsCollectionPoints(net, entries);
      && r.error.None?
      && IsCollectionPointIn(r.state.places, id)
      && IsCollectionPointIn(net.places, id)
      && Get(r.state.places[id].data.stock, "screw") == Get(net.places[id].data.stock, "screw") - 3
  {
    var entries := [(PlaceName(s), PyCounter(map["screw" := 2])), (PlaceObj(NodeRef(id, CollectionPointKind)), PyCounter(map["screw" := -5]))];
    ResolvePlaceFindsNamed(net, s, id, CollectionPointKind);
    assert NodeRef(id, CollectionPointKind) in NamedIn(net, PlacesOnly, s);
    assert IsCollectionPointIn(net.places, id);
    var net1 := UpdateAt(net, id, map["screw" := 2]);
    UpdateAtMeaning(net, id, map["screw" := 2]);
    ResolvePlaceSameNodes(net, net1, entries[1].0, CollectionPointKind);
    var net2 := UpdateAt(net1, id, map["screw" := -5]);
    UpdateAtMeaning(net1, id, map["screw" := -5]);
    assert entries[1..][1..] == [];
    assert UpdateMarkingsCollectionPoints(net1, entries[1..]) == Partial(net2, None);
  }
}
