/**
 * Replenishment triggers: predicates over the current state of one net
 * element (an object place's marking size, a transition's number of
 * in-flight executions, a collection point's stock), composed by any/all.
 *
 * A trigger holds its element by reference in the source; here it holds the
 * element's node id, and `Refers` states that the id names an element of
 * the class the trigger's constructor is typed with.
 */
module Triggers {
  import opened Wrappers
  import opened Counters
  import opened Places
  import opened Transitions
  import opened Nets
  import opened NetMarkings
  import opened Objects
  import opened NetFiring

  datatype Trigger =
    | AnyTrigger(subs: seq<Trigger>)
    | AllTrigger(subs: seq<Trigger>)
    | PlaceMarkingMax(place: nat, threshold: int)
    | PlaceMarkingMin(place: nat, threshold: int)
    | TransitionExecutionsMax(transition: nat, threshold: int)
    | TransitionExecutionsMin(transition: nat, threshold: int)
    | QuantityTriggerMin(point: nat, smallStock: Counter)
    | AnyItemTypeSmallStock(point: nat, smallStock: Counter)
    | AllItemTypesSmallStock(point: nat, smallStock: Counter)

  /** Every element the trigger (or any sub-trigger) watches is an element of its declared class in `net`. */
  predicate Refers(net: Net, t: Trigger) {
    match t
    case AnyTrigger(subs) => forall i | 0 <= i < |subs| :: Refers(net, subs[i])
    case AllTrigger(subs) => forall i | 0 <= i < |subs| :: Refers(net, subs[i])
    case PlaceMarkingMax(p, _) => p in net.places && net.places[p].data.ObjectData?
    case PlaceMarkingMin(p, _) => p in net.places && net.places[p].data.ObjectData?
    case TransitionExecutionsMax(tr, _) => tr in net.transitions
    case TransitionExecutionsMin(tr, _) => tr in net.transitions
    case QuantityTriggerMin(cp, _) => IsCollectionPointIn(net.places, cp)
    case AnyItemTypeSmallStock(cp, _) => IsCollectionPointIn(net.places, cp)
    case AllItemTypesSmallStock(cp, _) => IsCollectionPointIn(net.places, cp)
  }

  // ---------------------------------------------------------------------------
  // Quantity triggers

  /**
   * `Counter({t: dict(marking)[t] for t in item_types})`: the stock restricted
   * to the small stock's item types; a type the stock lacks raises KeyError.
   */
  function Considered(stock: Counter, itemTypes: set<string>): (r: Result<Counter>)
    ensures r.Ok? <==> itemTypes <= stock.Keys
    ensures r.Ok? ==> r.value.Keys == itemTypes && forall k | k in itemTypes :: r.value[k] == stock[k]
    ensures r.Err? ==> r.error == KeyError
  {
    if itemTypes <= stock.Keys then Ok(map k | k in itemTypes :: stock[k]) else Err(KeyError)
  }

  /** `QuantityTriggerMin.check_triggering` (and `AllItemTypesSmallStock`, which repeats it). */
  function AllBelowSmallStock(stock: Counter, smallStock: Counter): Result<bool> {
    match Considered(stock, smallStock.Keys)
    case Err(e) => Err(e)
    case Ok(c) => Ok(Le(c, smallStock))
  }

  /**
   * The all-types trigger raises exactly when the stock lacks one of the
   * small stock's item types, and otherwise fires exactly when every such
   * type's quantity is at most its small stock.
   */
  lemma AllBelowSmallStockMeaning(stock: Counter, smallStock: Counter)
    ensures AllBelowSmallStock(stock, smallStock).Err? <==> !(smallStock.Keys <= stock.Keys)
    ensures AllBelowSmallStock(stock, smallStock).Err? ==> AllBelowSmallStock(stock, smallStock).error == KeyError
    ensures AllBelowSmallStock(stock, smallStock) == Ok(true) <==>
      smallStock.Keys <= stock.Keys && forall k | k in smallStock :: stock[k] <= smallStock[k]
  {
    if smallStock.Keys <= stock.Keys {
      var c := Considered(stock, smallStock.Keys).value;
      LeMeaning(c, smallStock);
      if forall k | k in smallStock :: stock[k] <= smallStock[k] {
        forall k ensures Get(c, k) <= Get(smallStock, k) {
          if k in smallStock {
            assert c[k] == stock[k];
          }
        }
      }
      if Le(c, smallStock) {
        forall k | k in smallStock ensures stock[k] <= smallStock[k] {
          assert Get(c, k) <= Get(smallStock, k);
        }
      }
    }
  }

  /**
   * `get_item_types_below_threshold`: the item types minus the keys left
   * after `(considered | small_stock) - small_stock`.
   */
  function ItemTypesBelowThreshold(stock: Counter, smallStock: Counter): Result<set<string>> {
    match Considered(stock, smallStock.Keys)
    case Err(e) => Err(e)
    case Ok(c) => Ok(smallStock.Keys - Minus(Union(c, smallStock), smallStock).Keys)
  }

  /**
   * The types reported below threshold are exactly those whose quantity is
   * at most a non-negative small stock: a type with a negative small stock
   * is never reported, even when its quantity is lower still.
   */
  lemma ItemTypesBelowThresholdMeaning(stock: Counter, smallStock: Counter)
    ensures ItemTypesBelowThreshold(stock, smallStock).Ok? <==> smallStock.Keys <= stock.Keys
    ensures ItemTypesBelowThreshold(stock, smallStock).Ok? ==>
      forall k :: k in ItemTypesBelowThreshold(stock, smallStock).value <==>
        k in smallStock && stock[k] <= smallStock[k] && smallStock[k] >= 0
  {
    if smallStock.Keys <= stock.Keys {
      var c := Considered(stock, smallStock.Keys).value;
      UnionMeaning(c, smallStock);
      MinusMeaning(Union(c, smallStock), smallStock);
      forall k | k in smallStock
        ensures k in Minus(Union(c, smallStock), smallStock) <==> !(stock[k] <= smallStock[k] && smallStock[k] >= 0)
      {
        assert Get(c, k) == stock[k];
      }
    }
  }

  /** With the non-negative small stocks the source assumes, the result is every type at or below its small stock. */
  lemma ItemTypesBelowNonNegative(stock: Counter, smallStock: Counter)
    requires smallStock.Keys <= stock.Keys
    requires forall k | k in smallStock :: smallStock[k] >= 0
    ensures ItemTypesBelowThreshold(stock, smallStock) == Ok(set k | k in smallStock && stock[k] <= smallStock[k])
  {
    ItemTypesBelowThresholdMeaning(stock, smallStock);
    var low := ItemTypesBelowThreshold(stock, smallStock).value;
    assert low == set k | k in smallStock && stock[k] <= smallStock[k];
  }

  /** `AnyItemTypeSmallStock.check_triggering` as written: compares the count of low types with the count of all types. */
  function AnyBelowSmallStock(stock: Counter, smallStock: Counter): Result<bool> {
    match ItemTypesBelowThreshold(stock, smallStock)
    case Err(e) => Err(e)
    case Ok(low) => Ok(|low| <= |smallStock.Keys|)
  }

  /** The as-written any-type trigger fires whenever it does not raise, however large the stock. */
  lemma AnyBelowSmallStockAlwaysFires(stock: Counter, smallStock: Counter)
    requires smallStock.Keys <= stock.Keys
    ensures AnyBelowSmallStock(stock, smallStock) == Ok(true)
  {
    var low := ItemTypesBelowThreshold(stock, smallStock).value;
    assert low <= smallStock.Keys;
    SubsetCard(low, smallStock.Keys);
  }

  lemma SubsetCard<T>(a: set<T>, b: set<T>)
    requires a <= b
    ensures |a| <= |b|
  {
    assert b == a + (b - a);
  }

  /** A stock of 10 against a small stock of 2 is far from low, yet the as-written trigger fires. */
  lemma AnyBelowSmallStockFiresOnFullStock()
    ensures ItemTypesBelowThreshold(map["screw" := 10], map["screw" := 2]) == Ok({})
    ensures AnyBelowSmallStock(map["screw" := 10], map["screw" := 2]) == Ok(true)
  {
    ItemTypesBelowNonNegative(map["screw" := 10], map["screw" := 2]);
    assert (set k | k in map["screw" := 2] && map["screw" := 10][k] <= map["screw" := 2][k]) == {};
  }

  /** The any-type trigger as its documentation describes it: some item type is low. */
  function AnyBelowSmallStockCorrected(stock: Counter, smallStock: Counter): Result<bool> {
    match ItemTypesBelowThreshold(stock, smallStock)
    case Err(e) => Err(e)
    case Ok(low) => Ok(|low| > 0)
  }

  /**
   * With non-negative small stocks, the corrected trigger fires exactly when
   * some item type's quantity is at most its small stock; it raises exactly
   * where the as-written trigger does.
   */
  lemma AnyBelowSmallStockCorrectedMeaning(stock: Counter, smallStock: Counter)
    requires forall k | k in smallStock :: smallStock[k] >= 0
    ensures AnyBelowSmallStockCorrected(stock, smallStock).Err? <==> AnyBelowSmallStock(stock, smallStock).Err?
    ensures AnyBelowSmallStockCorrected(stock, smallStock) == Ok(true) <==>
      smallStock.Keys <= stock.Keys && exists k | k in smallStock :: stock[k] <= smallStock[k]
  {
    ItemTypesBelowThresholdMeaning(stock, smallStock);
    if smallStock.Keys <= stock.Keys {
      var low := ItemTypesBelowThreshold(stock, smallStock).value;
      if exists k | k in smallStock :: stock[k] <= smallStock[k] {
        var k :| k in smallStock && stock[k] <= smallStock[k];
        assert k in low;
      }
      if |low| > 0 {
        var k :| k in low;
        assert k in smallStock && stock[k] <= smallStock[k];
      }
    }
  }

  /** When every type is low, some type is low: the all-type trigger implies the corrected any-type one. */
  lemma AllBelowImpliesAnyBelow(stock: Counter, smallStock: Counter)
    requires forall k | k in smallStock :: smallStock[k] >= 0
    requires smallStock != map[]
    requires AllBelowSmallStock(stock, smallStock) == Ok(true)
    ensures AnyBelowSmallStockCorrected(stock, smallStock) == Ok(true)
  {
    AllBelowSmallStockMeaning(stock, smallStock);
    AnyBelowSmallStockCorrectedMeaning(stock, smallStock);
    var k :| k in smallStock;
    assert stock[k] <= smallStock[k];
  }

  // ---------------------------------------------------------------------------
  // check_triggering

  /** The first error among the results, or all of the values. */
  function Gather(rs: seq<Result<bool>>): (r: Result<seq<bool>>)
    ensures r.Ok? <==> forall i | 0 <= i < |rs| :: rs[i].Ok?
    ensures r.Ok? ==> |r.value| == |rs| && forall i | 0 <= i < |rs| :: r.value[i] == rs[i].value
    ensures r.Err? ==> exists i | 0 <= i < |rs| :: rs[i] == Err(r.error)
  {
    if rs == [] then Ok([])
    else if rs[0].Err? then Err(rs[0].error)
    else
      match Gather(rs[1..])
      case Err(e) =>
        assert exists i | 0 <= i < |rs[1..]| :: rs[1..][i] == Err(e);
        var i :| 0 <= i < |rs[1..]| && rs[1..][i] == Err(e);
        assert rs[i + 1] == Err(e);
        Err(e)
      case Ok(vs) =>
        assert forall i | 1 <= i < |rs| :: rs[i] == rs[1..][i - 1];
        Ok([rs[0].value] + vs)
  }

  /**
   * `check_triggering`. Any and all evaluate every sub-trigger (the source
   * builds the full list before `any`/`all`), so a raise anywhere propagates.
   */
  function CheckTriggering(net: Net, t: Trigger): Result<bool>
    requires Refers(net, t)
    decreases t
  {
    match t
    case AnyTrigger(subs) =>
      var rs := seq(|subs|, i requires 0 <= i < |subs| => CheckTriggering(net, subs[i]));
      (match Gather(rs)
       case Err(e) => Err(e)
       case Ok(vs) => Ok(true in vs))
    case AllTrigger(subs) =>
      var rs := seq(|subs|, i requires 0 <= i < |subs| => CheckTriggering(net, subs[i]));
      (match Gather(rs)
       case Err(e) => Err(e)
       case Ok(vs) => Ok(false !in vs))
    case PlaceMarkingMax(p, th) => Ok(|net.places[p].data.tokens| <= th)
    case PlaceMarkingMin(p, th) => Ok(|net.places[p].data.tokens| >= th)
    case TransitionExecutionsMax(tr, th) => Ok(|net.transitions[tr].executions| <= th)
    case TransitionExecutionsMin(tr, th) => Ok(|net.transitions[tr].executions| >= th)
    case QuantityTriggerMin(cp, ss) => AllBelowSmallStock(net.places[cp].data.stock, ss)
    case AnyItemTypeSmallStock(cp, ss) => AnyBelowSmallStock(net.places[cp].data.stock, ss)
    case AllItemTypesSmallStock(cp, ss) => AllBelowSmallStock(net.places[cp].data.stock, ss)
  }

  /**
   * Any fires exactly when no sub-trigger raises and one of them fires; all
   * fires exactly when none raises and every one fires. A raise comes from a
   * sub-trigger.
   */
  lemma MultiTriggerMeaning(net: Net, t: Trigger)
    requires t.AnyTrigger? || t.AllTrigger?
    requires Refers(net, t)
    ensures CheckTriggering(net, t).Ok? <==> forall i | 0 <= i < |t.subs| :: CheckTriggering(net, t.subs[i]).Ok?
    ensures CheckTriggering(net, t).Err? ==>
      exists i | 0 <= i < |t.subs| :: CheckTriggering(net, t.subs[i]) == Err(CheckTriggering(net, t).error)
    ensures t.AnyTrigger? ==>
      (CheckTriggering(net, t) == Ok(true) <==>
         CheckTriggering(net, t).Ok? && exists i | 0 <= i < |t.subs| :: CheckTriggering(net, t.subs[i]) == Ok(true))
    ensures t.AllTrigger? ==>
      (CheckTriggering(net, t) == Ok(true) <==> forall i | 0 <= i < |t.subs| :: CheckTriggering(net, t.subs[i]) == Ok(true))
  {
    var rs := seq(|t.subs|, i requires 0 <= i < |t.subs| => CheckTriggering(net, t.subs[i]));
    assert forall i | 0 <= i < |t.subs| :: rs[i] == CheckTriggering(net, t.subs[i]);
    var g := Gather(rs);
    if g.Ok? {
      if t.AnyTrigger? && exists i | 0 <= i < |t.subs| :: CheckTriggering(net, t.subs[i]) == Ok(true) {
        var i :| 0 <= i < |t.subs| && CheckTriggering(net, t.subs[i]) == Ok(true);
        assert g.value[i];
      }
      if t.AllTrigger? && false in g.value {
        var i :| 0 <= i < |g.value| && !g.value[i];
        assert CheckTriggering(net, t.subs[i]) == Ok(false);
      }
    }
  }

  /** An empty any-trigger never fires and an empty all-trigger always does. */
  lemma EmptyMultiTriggers(net: Net)
    ensures CheckTriggering(net, AnyTrigger([])) == Ok(false)
    ensures CheckTriggering(net, AllTrigger([])) == Ok(true)
  {
    MultiTriggerMeaning(net, AnyTrigger([]));
    MultiTriggerMeaning(net, AllTrigger([]));
  }

  /** A maximum threshold is the complement of the minimum threshold one above it. */
  lemma MaxIsNotMinAbove(net: Net, p: nat, tr: nat, th: int)
    requires Refers(net, PlaceMarkingMax(p, th)) && tr in net.transitions
    ensures CheckTriggering(net, PlaceMarkingMax(p, th)).value == !CheckTriggering(net, PlaceMarkingMin(p, th + 1)).value
    ensures CheckTriggering(net, TransitionExecutionsMax(tr, th)).value
      == !CheckTriggering(net, TransitionExecutionsMin(tr, th + 1)).value
  {
  }

  /** A single-item quantity trigger: the all-type variant and `QuantityTriggerMin` agree, and with one item type "any" is "all" once corrected. */
  lemma SingleItemTypeAgrees(stock: Counter, k: string, ss: int)
    requires ss >= 0
    ensures AllBelowSmallStock(stock, map[k := ss]) == AnyBelowSmallStockCorrected(stock, map[k := ss])
  {
    AllBelowSmallStockMeaning(stock, map[k := ss]);
    AnyBelowSmallStockCorrectedMeaning(stock, map[k := ss]);
    ItemTypesBelowThresholdMeaning(stock, map[k := ss]);
  }

  /**
   * Adding objects to places only grows markings: a minimum-size trigger that
   * fired still fires, and a maximum-size trigger that fires afterwards
   * already fired before.
   */
  lemma MarkingTriggersAfterAddedObjects(net: Net, entries: seq<(PlaceKey, ObjectMarking)>, p: nat, th: int)
    requires Refers(net, PlaceMarkingMin(p, th))
    ensures Refers(AddObjectsToPlaces(net, entries).state, PlaceMarkingMin(p, th))
    ensures CheckTriggering(net, PlaceMarkingMin(p, th)) == Ok(true) ==>
      CheckTriggering(AddObjectsToPlaces(net, entries).state, PlaceMarkingMin(p, th)) == Ok(true)
    ensures CheckTriggering(AddObjectsToPlaces(net, entries).state, PlaceMarkingMax(p, th)) == Ok(true) ==>
      CheckTriggering(net, PlaceMarkingMax(p, th)) == Ok(true)
  {
    var net2 := AddObjectsToPlaces(net, entries).state;
    AddObjectsToPlacesGrows(net, entries);
    SubsetCard(net.places[p].data.tokens, net2.places[p].data.tokens);
  }
  /**
   * Starting a firing adds one in-flight execution to its transition: the
   * execution-count triggers afterwards answer as they did before with the
   * threshold lowered by one.
   */
  lemma ExecutionTriggersAfterStart(net: Net, q: NodeQuery, b: Binding, execId: nat, th: int)
    requires StartFiringTransition(net, q, b, execId).Ok?
    ensures var (net2, ex) := StartFiringTransition(net, q, b, execId).value;
      && Refers(net, TransitionExecutionsMin(ex.transition, th)) && Refers(net2, TransitionExecutionsMin(ex.transition, th))
      && CheckTriggering(net2, TransitionExecutionsMin(ex.transition, th)) == CheckTriggering(net, TransitionExecutionsMin(ex.transition, th - 1))
      && CheckTriggering(net2, TransitionExecutionsMax(ex.transition, th)) == CheckTriggering(net, TransitionExecutionsMax(ex.transition, th - 1))
  {
    StartFiringTransitionMeaning(net, q, b, execId);
    StartFiringTransitionRecords(net, q, b, execId);
  }
}
