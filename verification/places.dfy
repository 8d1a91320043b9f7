/**
 * The three kinds of place: the plain integer place, the object place whose
 * marking is a set of typed object tokens, and the collection point whose
 * marking is an item-type counter. Also the `CollectionCounter`, a map from
 * collection points to counters whose entries are checked on the way in.
 */
module Places {
  import opened Wrappers
  import opened Counters
  import opened Elements
  import opened Objects
  import opened Seqs

  const DecouplingNotInt := "Variable passed to mark decoupling point is not an integer."
  const TooFewLazyTokens := "Trying to remove more lazy tokens from decoupling point than available."
  const WrongObjectType := "Variable passed to changes marking of ObjectPlace is not an object of the correct type."
  const ObjectNotInMarking := "Passed object is not part of place's marking."
  const PointNeedsQuantityOp := "Collection points only update marking according to quantity operation."
  const KeyNotCollectionPoint := "All keys must be a collection points."
  const ValueNotCounter := "All values must be Counter objects."

  /** The object type a new object place gets when none is given. */
  const DefaultObjectType: string := "DefaultObject"

  /** The class-specific state of a place. */
  datatype PlaceData =
    | PlainData(count: Option<int>)
    | ObjectData(otype: string, tokens: set<Token>)
    | PointData(stock: Counter, itemTypes: set<string>)

  datatype Place = Place(
    conn: Connected,
    name: Name,
    lbl: Option<Name>,
    initialFlag: bool,
    finalFlag: bool,
    data: PlaceData)
  {
    /** `initial`: the explicit flag when set, else the absence of input arcs. */
    predicate Initial() {
      initialFlag || |conn.inputArcs| == 0
    }

    /** `final`: the explicit flag when set, else the absence of output arcs. */
    predicate Final() {
      finalFlag || |conn.outputArcs| == 0
    }
  }

  function KindOf(d: PlaceData): Kind {
    match d
    case PlainData(_) => PlainPlaceKind
    case ObjectData(_, _) => ObjectPlaceKind
    case PointData(_, _) => CollectionPointKind
  }

  // ---------------------------------------------------------------------------
  // Construction

  /** `Place(name, label)`: no marking yet and no explicit flags. */
  function NewPlainPlace(id: nat, name: Option<string>, lbl: Option<string>): (p: Place)
    ensures p.conn == NewConnected(NodeRef(id, PlainPlaceKind))
    ensures p.data == PlainData(None)
    ensures p.Initial() && p.Final()
  {
    Place(NewConnected(NodeRef(id, PlainPlaceKind)), ElementName(name, id), ElementLabel(lbl), false, false, PlainData(None))
  }

  /** `ObjectPlace(name, object_type, label)`: empty marking, `DefaultObject` when no type is given. */
  function NewObjectPlace(id: nat, name: Option<string>, otype: Option<string>, lbl: Option<string>): (p: Place)
    ensures p.conn == NewConnected(NodeRef(id, ObjectPlaceKind))
    ensures p.data.ObjectData? && p.data.tokens == {}
    ensures p.data.otype == if Given(otype) then otype.value else DefaultObjectType
  {
    var t := if Given(otype) then otype.value else DefaultObjectType;
    Place(NewConnected(NodeRef(id, ObjectPlaceKind)), ElementName(name, id), ElementLabel(lbl), false, false, ObjectData(t, {}))
  }

  /** `CollectionPoint(name, label)`: empty counter and no item types. */
  function NewCollectionPoint(id: nat, name: Option<string>, lbl: Option<string>): (p: Place)
    ensures p.conn == NewConnected(NodeRef(id, CollectionPointKind))
    ensures p.data == PointData(map[], {})
  {
    Place(NewConnected(NodeRef(id, CollectionPointKind)), ElementName(name, id), ElementLabel(lbl), false, false, PointData(map[], {}))
  }

  /** Setting `initial` to false does not hide inference: a place without input arcs is still initial. */
  lemma InitialFlagCannotHide(p: Place)
    requires |p.conn.inputArcs| == 0
    ensures p.(initialFlag := false).Initial()
    ensures p.(initialFlag := true).Initial()
  {
  }

  /** Without an explicit flag, `initial` and `final` are exactly the absence of input and output arcs. */
  lemma InferredEnds(p: Place)
    requires !p.initialFlag && !p.finalFlag
    ensures p.Initial() <==> p.conn.inputArcs == {}
    ensures p.Final() <==> p.conn.outputArcs == {}
  {
  }

  // ---------------------------------------------------------------------------
  // Plain places

  /** `Place.add_token`: an integer argument is added to the marking; a missing marking cannot be added to. */
  function PlainAddToken(p: Place, v: PyValue): (r: Result<Place>)
    requires p.data.PlainData?
    ensures !IsInt(v) ==> r == Err(ValueError(DecouplingNotInt))
    ensures IsInt(v) && p.data.count.None? ==> r == Err(TypeError)
    ensures r.Ok? <==> IsInt(v) && p.data.count.Some?
    ensures r.Ok? ==> r.value.data.PlainData? && r.value.data.count == Some(p.data.count.value + IntValue(v))
    ensures r.Ok? ==> r.value.conn == p.conn
  {
    if !IsInt(v) then Err(ValueError(DecouplingNotInt))
    else if p.data.count.None? then Err(TypeError)
    else Ok(p.(data := PlainData(Some(p.data.count.value + IntValue(v)))))
  }

  /** `Place.remove_token`: integers up to the current marking are removed; anything else raises. */
  function PlainRemoveToken(p: Place, v: PyValue): (r: Result<Place>)
    requires p.data.PlainData?
    ensures r.Ok? <==> IsInt(v) && p.data.count.Some? && p.data.count.value >= IntValue(v)
    ensures IsInt(v) && p.data.count.None? ==> r == Err(TypeError)
    ensures r.Ok? ==> r.value.data.PlainData? && r.value.data.count == Some(p.data.count.value - IntValue(v))
  {
    if !IsInt(v) then Err(ValueError(TooFewLazyTokens))
    else if p.data.count.None? then Err(TypeError)
    else if p.data.count.value >= IntValue(v) then Ok(p.(data := PlainData(Some(p.data.count.value - IntValue(v)))))
    else Err(ValueError(TooFewLazyTokens))
  }

  /** Removal never takes a marking below zero. */
  lemma PlainRemoveKeepsNonNegative(p: Place, v: PyValue)
    requires p.data.PlainData? && p.data.count.Some? && p.data.count.value >= 0
    ensures PlainRemoveToken(p, v).Ok? ==> PlainRemoveToken(p, v).value.data.count.value >= 0
  {
  }

  /** A place whose marking was never initialised rejects every addition. */
  lemma PlainAddOnFreshPlaceFails(id: nat, v: PyValue)
    ensures PlainAddToken(NewPlainPlace(id, None, None), v).Err?
  {
  }

  // ---------------------------------------------------------------------------
  // Object places

  /** `ObjectPlace.add_token`: the object must have the place's type. */
  function AddToken(p: Place, t: Token): (r: Result<Place>)
    requires p.data.ObjectData?
    ensures r.Ok? <==> t.otype == p.data.otype
    ensures r.Ok? ==> r.value.data == p.data.(tokens := p.data.tokens + {t}) && r.value.conn == p.conn
  {
    if t.otype == p.data.otype then Ok(p.(data := p.data.(tokens := p.data.tokens + {t})))
    else Err(ValueError(WrongObjectType))
  }

  /** `ObjectPlace.remove_token`: the object must be in the marking. */
  function RemoveToken(p: Place, t: Token): (r: Result<Place>)
    requires p.data.ObjectData?
    ensures r.Ok? <==> t in p.data.tokens
    ensures r.Ok? ==> r.value.data == p.data.(tokens := p.data.tokens - {t}) && r.value.conn == p.conn
  {
    if t in p.data.tokens then Ok(p.(data := p.data.(tokens := p.data.tokens - {t})))
    else Err(ValueError(ObjectNotInMarking))
  }

  /** The outcome of a loop that stops at the first raise: the state reached so far and the error, if any. */
  datatype Partial<T> = Partial(state: T, error: Option<Error>)

  /** The index of the first object whose type differs from `otype`, or the length when there is none. */
  function FirstWrongType(ts: seq<Token>, otype: string): (k: nat)
    ensures k <= |ts|
    ensures forall i | 0 <= i < k :: ts[i].otype == otype
    ensures k < |ts| ==> ts[k].otype != otype
  {
    if |ts| == 0 then 0
    else if ts[0].otype != otype then 0
    else 1 + FirstWrongType(ts[1..], otype)
  }

  /** The index of the first object missing from the current marking, counting earlier removals. */
  function FirstMissing(ts: seq<Token>, m: set<Token>): (k: nat)
    ensures k <= |ts|
    decreases |ts|
  {
    if |ts| == 0 then 0
    else if ts[0] !in m then 0
    else 1 + FirstMissing(ts[1..], m - {ts[0]})
  }

  /**
   * `ObjectPlace.add_tokens`, in the iteration order `ts`: objects are added
   * one at a time, and the first of the wrong type raises with the earlier
   * ones already added.
   */
  function AddTokens(p: Place, ts: seq<Token>): (r: Partial<Place>)
    requires p.data.ObjectData?
    ensures r.state.data.ObjectData? && r.state == p.(data := p.data.(tokens := r.state.data.tokens))
    decreases |ts|
  {
    if |ts| == 0 then Partial(p, None)
    else
      match AddToken(p, ts[0])
      case Err(e) => Partial(p, Some(e))
      case Ok(q) => AddTokens(q, ts[1..])
  }

  /** What `AddTokens` leaves behind: everything before the first wrong-typed object, and an error iff there is one. */
  lemma {:induction false} AddTokensMeaning(p: Place, ts: seq<Token>)
    requires p.data.ObjectData?
    ensures var k := FirstWrongType(ts, p.data.otype);
      && AddTokens(p, ts).state.data.tokens == p.data.tokens + Elems(ts[..k])
      && (AddTokens(p, ts).error.None? <==> k == |ts|)
    decreases |ts|
  {
    if |ts| > 0 && ts[0].otype == p.data.otype {
      var q := AddToken(p, ts[0]).value;
      AddTokensMeaning(q, ts[1..]);
      var k := FirstWrongType(ts, p.data.otype);
      assert ts[..k][1..] == ts[1..][..k - 1];
      ElemsCons(ts[..k]);
    }
  }

  /** `ObjectPlace.remove_tokens`, in the iteration order `ts`, stopping at the first missing object. */
  function RemoveTokens(p: Place, ts: seq<Token>): (r: Partial<Place>)
    requires p.data.ObjectData?
    ensures r.state.data.ObjectData? && r.state == p.(data := p.data.(tokens := r.state.data.tokens))
    ensures r.state.data.tokens <= p.data.tokens
    decreases |ts|
  {
    if |ts| == 0 then Partial(p, None)
    else
      match RemoveToken(p, ts[0])
      case Err(e) => Partial(p, Some(e))
      case Ok(q) => RemoveTokens(q, ts[1..])
  }

  /** Removing distinct objects that are all present succeeds and takes exactly those objects out. */
  lemma {:induction false} RemoveTokensPresent(p: Place, ts: seq<Token>)
    requires p.data.ObjectData?
    requires Distinct(ts)
    requires forall i | 0 <= i < |ts| :: ts[i] in p.data.tokens
    ensures RemoveTokens(p, ts).error.None?
    ensures RemoveTokens(p, ts).state.data.tokens == p.data.tokens - Elems(ts)
    decreases |ts|
  {
    if |ts| > 0 {
      var q := RemoveToken(p, ts[0]).value;
      forall i | 0 <= i < |ts[1..]|
        ensures ts[1..][i] in q.data.tokens
      {
        assert ts[1..][i] == ts[i + 1] && ts[i + 1] != ts[0];
      }
      assert Distinct(ts[1..]) by {
        forall i, j | 0 <= i < j < |ts[1..]|
          ensures ts[1..][i] != ts[1..][j]
        {
          assert ts[1..][i] == ts[i + 1] && ts[1..][j] == ts[j + 1];
        }
      }
      RemoveTokensPresent(q, ts[1..]);
      ElemsCons(ts);
    }
  }

  /** A removal that hits a missing object keeps the removals made before it. */
  lemma RemoveTokensStopsAtMissing(p: Place, a: Token, b: Token)
    requires p.data.ObjectData? && a in p.data.tokens && b !in p.data.tokens
    ensures RemoveTokens(p, [a, b]).error.Some?
    ensures RemoveTokens(p, [a, b]).state.data.tokens == p.data.tokens - {a}
  {
    var q := RemoveToken(p, a).value;
    assert [a, b][1..] == [b];
    assert RemoveTokens(q, [b]) == Partial(q, Some(ValueError(ObjectNotInMarking)));
  }

  // ---------------------------------------------------------------------------
  // Collection points

  /**
   * `CollectionPoint.update_marking`: a Counter is added to the stock, signed and
   * without a lower bound, and its keys join the item types; anything else raises.
   */
  function UpdateMarking(p: Place, v: PyValue): (r: Result<Place>)
    requires p.data.PointData?
    ensures r.Err? <==> !v.PyCounter?
    ensures r.Ok? ==> r.value.data.PointData? && r.value.conn == p.conn
    ensures r.Ok? ==> forall k :: Get(r.value.data.stock, k) == Get(p.data.stock, k) + Get(v.c, k)
    ensures r.Ok? ==> r.value.data.itemTypes == p.data.itemTypes + v.c.Keys
  {
    if !v.PyCounter? then Err(ValueError(QuantityUpdateNotCounter))
    else
      UpdateMeaning(p.data.stock, v.c);
      Ok(p.(data := PointData(Update(p.data.stock, v.c), p.data.itemTypes + v.c.Keys)))
  }

  /** Stock can go negative: a removal larger than the stock is applied in full. */
  lemma UpdateMarkingCanGoNegative(id: nat)
    ensures var p := NewCollectionPoint(id, None, None);
      UpdateMarking(p, PyCounter(map["screw" := -3])).Ok?
      && Get(UpdateMarking(p, PyCounter(map["screw" := -3])).value.data.stock, "screw") == -3
  {
    var p := NewCollectionPoint(id, None, None);
    UpdateMeaning(p.data.stock, map["screw" := -3]);
  }

  /** `CollectionPoint.add_token` always raises. */
  function PointAddToken(p: Place, v: PyValue): (r: Result<Place>)
    requires p.data.PointData?
    ensures r.Err? && r.error.ValueError?
  {
    Err(ValueError(PointNeedsQuantityOp))
  }

  /** `CollectionPoint.remove_token` always raises. */
  function PointRemoveToken(p: Place, v: PyValue): (r: Result<Place>)
    requires p.data.PointData?
    ensures r.Err? && r.error.ValueError?
  {
    Err(ValueError(PointNeedsQuantityOp))
  }

  /** `CollectionPoint.silent`: silent exactly when the label is falsy. */
  predicate PointSilent(p: Place) {
    !LabelSet(p.lbl)
  }

  /** The `silent` setter: silent clears the label, not silent makes the name the label. */
  function SetPointSilent(p: Place, silent: bool): (r: Place)
    requires p.data.PointData?
    ensures silent ==> r.lbl.None?
    ensures !silent ==> r.lbl == Some(p.name)
    ensures r.data == p.data && r.conn == p.conn && r.name == p.name
  {
    if silent then p.(lbl := None) else p.(lbl := Some(p.name))
  }

  /** After setting `silent`, reading it back gives the value set, unless the name is the empty string. */
  lemma SetPointSilentReadBack(p: Place, silent: bool)
    requires p.data.PointData? && p.name != Str("")
    ensures PointSilent(SetPointSilent(p, silent)) == silent
  {
  }

  /** The `item_types` setter: a string becomes a singleton, a set is kept, a list or tuple is collected. */
  function SetItemTypes(p: Place, v: PyValue): (r: Result<Place>)
    requires p.data.PointData?
    ensures r.Ok? <==> v.PyStr? || v.PySet? || v.PyList? || v.PyTuple?
    ensures r.Ok? ==> r.value.data.PointData? && r.value.data.stock == p.data.stock && r.value.conn == p.conn
    ensures v.PyStr? ==> r.Ok? && r.value.data.PointData? && r.value.data.itemTypes == {v.s}
    ensures v.PySet? ==> r.Ok? && r.value.data.PointData? && r.value.data.itemTypes == v.elems
    ensures (v.PyList? || v.PyTuple?) ==> r.Ok? && r.value.data.PointData? && forall s :: s in r.value.data.itemTypes <==> s in v.items
  {
    match v
    case PyStr(s) => Ok(p.(data := p.data.(itemTypes := {s})))
    case PySet(e) => Ok(p.(data := p.data.(itemTypes := e)))
    case PyList(items) => Ok(p.(data := p.data.(itemTypes := set x | x in items)))
    case PyTuple(items) => Ok(p.(data := p.data.(itemTypes := set x | x in items)))
    case _ => Err(ValueError("Item types must be a set"))
  }

  // ---------------------------------------------------------------------------
  // Collection counters

  /** A collection counter: collection point id to counter. */
  type CollectionCounter = map<nat, Counter>

  predicate ValidEntry(key: NodeRef, v: PyValue) {
    key.kind.CollectionPointKind? && v.PyCounter?
  }

  /** Entry `i` is the first whose key is not a collection point or whose value is not a Counter. */
  predicate FirstInvalid(entries: seq<(NodeRef, PyValue)>, i: int) {
    0 <= i < |entries| && !ValidEntry(entries[i].0, entries[i].1)
    && forall j | 0 <= j < i :: ValidEntry(entries[j].0, entries[j].1)
  }

  /** The message of an invalid entry: the key is checked before the value. */
  function EntryMessage(key: NodeRef): string {
    if key.kind.CollectionPointKind? then ValueNotCounter else KeyNotCollectionPoint
  }

  /**
   * `CollectionCounter(entries)`: every key must be a collection point and
   * every value a Counter. The entries come from a dict, so keys are distinct.
   */
  function MakeCollectionCounter(entries: seq<(NodeRef, PyValue)>): (r: Result<CollectionCounter>)
    requires forall i, j | 0 <= i < j < |entries| :: entries[i].0.id != entries[j].0.id
    ensures r.Ok? <==> forall i | 0 <= i < |entries| :: ValidEntry(entries[i].0, entries[i].1)
    ensures r.Ok? ==> r.value.Keys == set e | e in entries :: e.0.id
    ensures r.Ok? ==> forall i | 0 <= i < |entries| :: r.value[entries[i].0.id] == entries[i].1.c
    ensures r.Err? ==> exists i | 0 <= i < |entries| :: FirstInvalid(entries, i) && r.error == ValueError(EntryMessage(entries[i].0))
    decreases |entries|
  {
    if |entries| == 0 then Ok(map[])
    else
      var (key, v) := entries[0];
      if !key.kind.CollectionPointKind? then Err(ValueError(KeyNotCollectionPoint))
      else if !v.PyCounter? then Err(ValueError(ValueNotCounter))
      else
        var rest := MakeCollectionCounter(entries[1..]);
        if rest.Err? then
          var j :| 0 <= j < |entries[1..]| && FirstInvalid(entries[1..], j) && rest.error == ValueError(EntryMessage(entries[1..][j].0));
          assert entries[1..][j] == entries[j + 1];
          assert forall k | 1 <= k <= j :: entries[k] == entries[1..][k - 1];
          assert FirstInvalid(entries, j + 1);
          rest
        else
          assert forall i | 1 <= i < |entries| :: ValidEntry(entries[i].0, entries[i].1) by {
            assert forall i | 1 <= i < |entries| :: entries[i] == entries[1..][i - 1];
          }
          CollectionCounterCons(entries, rest.value);
          Ok(rest.value[key.id := v.c])
  }

  /** Storing the first entry on top of the counter built from the others gives the counter of all entries. */
  lemma CollectionCounterCons(entries: seq<(NodeRef, PyValue)>, rest: CollectionCounter)
    requires |entries| > 0 && entries[0].1.PyCounter?
    requires forall i, j | 0 <= i < j < |entries| :: entries[i].0.id != entries[j].0.id
    requires rest.Keys == set e | e in entries[1..] :: e.0.id
    requires forall i | 0 <= i < |entries[1..]| :: entries[1..][i].1.PyCounter? && rest[entries[1..][i].0.id] == entries[1..][i].1.c
    ensures var r := rest[entries[0].0.id := entries[0].1.c];
      && r.Keys == (set e | e in entries :: e.0.id)
      && forall i | 0 <= i < |entries| :: entries[i].1.PyCounter? && r[entries[i].0.id] == entries[i].1.c
  {
    assert forall i | 1 <= i < |entries| :: entries[i] == entries[1..][i - 1];
    ElemsCons(entries);
    assert (set e | e in entries :: e.0.id) == {entries[0].0.id} + set e | e in entries[1..] :: e.0.id;
  }

  /** `CollectionCounter.__setitem__`: both checks, then the value is stored under the key. */
  function SetCounter(cc: CollectionCounter, key: NodeRef, v: PyValue): (r: Result<CollectionCounter>)
    ensures r.Ok? <==> ValidEntry(key, v)
    ensures r.Err? ==> r.error == ValueError(EntryMessage(key))
    ensures r.Ok? ==> key.id in r.value && r.value[key.id] == v.c
    ensures r.Ok? ==> forall k | k != key.id :: (k in r.value <==> k in cc) && (k in cc ==> r.value[k] == cc[k])
  {
    if !key.kind.CollectionPointKind? then Err(ValueError(KeyNotCollectionPoint))
    else if !v.PyCounter? then Err(ValueError(ValueNotCounter))
    else Ok(cc[key.id := v.c])
  }
}
