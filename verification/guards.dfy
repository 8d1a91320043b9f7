/**
 * Guards of transitions: an optional object guard on the binding and an
 * optional quantity guard on the binding and the quantity state. The
 * small-stock quantity guard enables a transition when collection points run
 * low, per item type and per collection point, in "any" or "all" mode.
 */
module Guards {
  import opened Wrappers
  import opened Counters
  import opened Objects
  import opened Places
  import Qalculators
  import opened Seqs

  // ---------------------------------------------------------------------------
  // Threshold checks of one collection point

  /** The threshold item types whose level is strictly above the threshold. */
  function AboveThreshold(level: Counter, threshold: Counter): (r: set<string>)
    ensures r <= threshold.Keys
    ensures forall k :: k in r <==> k in threshold && Get(level, k) > threshold[k]
  {
    var delta := Subtract(Project(level, threshold.Keys), threshold);
    SubtractMeaning(Project(level, threshold.Keys), threshold);
    PosMeaning(delta);
    Pos(delta).Keys
  }

  /** `check_item_types_any`: true unless every threshold item type is above its threshold. */
  function ItemTypesAny(level: Counter, threshold: Counter): (r: bool)
    ensures r <==> exists k | k in threshold :: Get(level, k) <= threshold[k]
  {
    var above := AboveThreshold(level, threshold);
    SubsetOfSameSize(above, threshold.Keys);
    |above| != |threshold.Keys|
  }

  /** `check_item_types_all`: true when no threshold item type is above its threshold. */
  function ItemTypesAll(level: Counter, threshold: Counter): (r: bool)
    ensures r <==> forall k | k in threshold :: Get(level, k) <= threshold[k]
  {
    var above := AboveThreshold(level, threshold);
    assert forall k | k in threshold && Get(level, k) > threshold[k] :: k in above;
    |above| == 0
  }

  /** With an empty threshold the "any" check fails and the "all" check holds. */
  lemma EmptyThreshold(level: Counter)
    ensures !ItemTypesAny(level, map[]) && ItemTypesAll(level, map[])
  {
  }

  // ---------------------------------------------------------------------------
  // Small-stock quantity guard

  /**
   * `QuantityGuardSmallStock`: thresholds per collection point in the
   * dictionary's order, whether each collection point must be low in all item
   * types, and whether all collection points must be low.
   */
  datatype SmallStock = SmallStock(thresholds: seq<(nat, Counter)>, allItemTypes: map<nat, bool>, allCounters: bool)

  /** The keys of the threshold dictionary. */
  function ThresholdKeys(th: seq<(nat, Counter)>): set<nat> {
    set e | e in th :: e.0
  }

  /** Constructs the guard; a falsy item-type mode map defaults to "any" for every collection point. */
  function NewSmallStock(thresholds: seq<(nat, Counter)>, allItemTypes: Option<map<nat, bool>>, allCounters: bool): (g: SmallStock)
    ensures allItemTypes.Some? && allItemTypes.value != map[] ==> g.allItemTypes == allItemTypes.value
    ensures allItemTypes.None? || allItemTypes.value == map[] ==>
      g.allItemTypes.Keys == ThresholdKeys(thresholds) && forall cp | cp in g.allItemTypes :: !g.allItemTypes[cp]
    ensures g.thresholds == thresholds && g.allCounters == allCounters
  {
    var modes := if allItemTypes.Some? && allItemTypes.value != map[] then allItemTypes.value
                 else map cp | cp in ThresholdKeys(thresholds) :: false;
    SmallStock(thresholds, modes, allCounters)
  }

  /** The check of one collection point; a collection point missing from the modes or the state raises. */
  function CheckCounter(modes: map<nat, bool>, cp: nat, threshold: Counter, state: CollectionCounter): (r: Result<bool>)
    ensures r.Ok? <==> cp in modes && cp in state
    ensures r.Ok? ==> r.value == if modes[cp] then ItemTypesAll(state[cp], threshold) else ItemTypesAny(state[cp], threshold)
  {
    if cp !in modes || cp !in state then Err(KeyError)
    else if modes[cp] then Ok(ItemTypesAll(state[cp], threshold))
    else Ok(ItemTypesAny(state[cp], threshold))
  }

  /** Every collection point of a threshold sequence can be looked up. */
  predicate Resolvable(th: seq<(nat, Counter)>, modes: map<nat, bool>, state: CollectionCounter) {
    forall i | 0 <= i < |th| :: th[i].0 in modes && th[i].0 in state
  }

  /** `check_small_stock_counters_all`: stops with False at the first collection point that is not low. */
  function CountersAll(th: seq<(nat, Counter)>, modes: map<nat, bool>, state: CollectionCounter): (r: Result<bool>)
    decreases |th|
  {
    if |th| == 0 then Ok(true)
    else
      var ok :- CheckCounter(modes, th[0].0, th[0].1, state);
      if !ok then Ok(false) else CountersAll(th[1..], modes, state)
  }

  /** `check_small_stock_counters_any`: stops with True at the first collection point that is low. */
  function CountersAny(th: seq<(nat, Counter)>, modes: map<nat, bool>, state: CollectionCounter): (r: Result<bool>)
    decreases |th|
  {
    if |th| == 0 then Ok(false)
    else
      var ok :- CheckCounter(modes, th[0].0, th[0].1, state);
      if ok then Ok(true) else CountersAny(th[1..], modes, state)
  }

  /** When every collection point resolves, "all" mode is the conjunction of the per-point checks. */
  lemma {:induction false} CountersAllMeaning(th: seq<(nat, Counter)>, modes: map<nat, bool>, state: CollectionCounter)
    requires Resolvable(th, modes, state)
    ensures CountersAll(th, modes, state).Ok?
    ensures CountersAll(th, modes, state).value <==>
      forall i | 0 <= i < |th| :: CheckCounter(modes, th[i].0, th[i].1, state).value
    decreases |th|
  {
    if |th| > 0 {
      assert forall i | 0 <= i < |th[1..]| :: th[1..][i] == th[i + 1];
      CountersAllMeaning(th[1..], modes, state);
    }
  }

  /** When every collection point resolves, "any" mode is the disjunction of the per-point checks. */
  lemma {:induction false} CountersAnyMeaning(th: seq<(nat, Counter)>, modes: map<nat, bool>, state: CollectionCounter)
    requires Resolvable(th, modes, state)
    ensures CountersAny(th, modes, state).Ok?
    ensures CountersAny(th, modes, state).value <==>
      exists i | 0 <= i < |th| :: CheckCounter(modes, th[i].0, th[i].1, state).value
    decreases |th|
  {
    if |th| > 0 {
      assert forall i | 0 <= i < |th[1..]| :: th[1..][i] == th[i + 1];
      CountersAnyMeaning(th[1..], modes, state);
      if !CheckCounter(modes, th[0].0, th[0].1, state).value {
        if exists i | 0 <= i < |th| :: CheckCounter(modes, th[i].0, th[i].1, state).value {
          var i :| 0 <= i < |th| && CheckCounter(modes, th[i].0, th[i].1, state).value;
          assert th[1..][i - 1] == th[i];
        }
      }
    }
  }

  /** An early answer hides later lookups: a first point that is not low ends "all" mode before a missing point raises. */
  lemma AllModeStopsEarly(level: Counter, missing: nat)
    requires missing != 0
    ensures var th := [(0, map["A" := 1]), (missing, map["A" := 1])];
      CountersAll(th, map[0 := true], map[0 := map["A" := 5]]) == Ok(false)
  {
    var th := [(0, map["A" := 1]), (missing, map["A" := 1])];
    assert !ItemTypesAll(map["A" := 5], map["A" := 1]) by {
      assert Get(map["A" := 5], "A") > 1;
    }
  }

  /** `QuantityGuardSmallStock.__call__`: the mode picks the conjunction or the disjunction. */
  function SmallStockCall(g: SmallStock, state: CollectionCounter): (r: Result<bool>)
    ensures g.allCounters ==> r == CountersAll(g.thresholds, g.allItemTypes, state)
    ensures !g.allCounters ==> r == CountersAny(g.thresholds, g.allItemTypes, state)
  {
    if g.allCounters then CountersAll(g.thresholds, g.allItemTypes, state)
    else CountersAny(g.thresholds, g.allItemTypes, state)
  }

  /** With the default modes, a resolvable guard never raises: every threshold point has a mode. */
  lemma DefaultModesResolve(thresholds: seq<(nat, Counter)>, allCounters: bool, state: CollectionCounter)
    requires forall i | 0 <= i < |thresholds| :: thresholds[i].0 in state
    ensures Resolvable(thresholds, NewSmallStock(thresholds, None, allCounters).allItemTypes, state)
  {
    var g := NewSmallStock(thresholds, None, allCounters);
    forall i | 0 <= i < |thresholds|
      ensures thresholds[i].0 in g.allItemTypes
    {
      assert thresholds[i] in thresholds;
    }
  }

  // ---------------------------------------------------------------------------
  // Guards

  /** The quantity guards a transition can carry. */
  datatype QuantityGuard =
    | BaseQG
    | CustomQG(f: (Binding, CollectionCounter) -> bool)
    | SmallStockQG(cfg: SmallStock)

  /** A guard: optional object guard and optional quantity guard. */
  datatype Guard = Guard(objectGuard: Option<Binding -> bool>, quantityGuard: Option<QuantityGuard>)

  /** What `Guard.__call__` returns: True, False, or (falling off the end) None. */
  datatype Verdict = Yes | No | NoneReturned

  const EmptyGuard: Guard := Guard(None, None)

  /** `check_objects`: the object guard's answer, or True without one. */
  function CheckObjects(g: Guard, b: Binding): (r: bool)
    ensures g.objectGuard.None? ==> r
    ensures g.objectGuard.Some? ==> r == g.objectGuard.value(b)
  {
    if g.objectGuard.Some? then g.objectGuard.value(b) else true
  }

  /** `check_quantities`: the quantity guard's answer, or True without one; a small-stock guard can raise. */
  function CheckQuantities(g: Guard, b: Binding, state: CollectionCounter): (r: Result<bool>)
    ensures g.quantityGuard.None? ==> r == Ok(true)
    ensures g.quantityGuard == Some(BaseQG) ==> r == Ok(true)
    ensures g.quantityGuard.Some? && g.quantityGuard.value.CustomQG? ==> r == Ok(g.quantityGuard.value.f(b, state))
    ensures g.quantityGuard.Some? && g.quantityGuard.value.SmallStockQG? ==> r == SmallStockCall(g.quantityGuard.value.cfg, state)
  {
    match g.quantityGuard
    case None => Ok(true)
    case Some(BaseQG) => Ok(true)
    case Some(CustomQG(f)) => Ok(f(b, state))
    case Some(SmallStockQG(cfg)) => SmallStockCall(cfg, state)
  }

  /**
   * `Guard.__call__`: the object guard first, the quantity guard only when the
   * object guard passes. A failing quantity guard falls through to None.
   */
  function Call(g: Guard, b: Binding, state: CollectionCounter): (r: Result<Verdict>)
    ensures r == Ok(Yes) <==> CheckObjects(g, b) && CheckQuantities(g, b, state) == Ok(true)
    ensures !CheckObjects(g, b) ==> r == Ok(No)
    ensures CheckObjects(g, b) && CheckQuantities(g, b, state) == Ok(false) ==> r == Ok(NoneReturned)
    ensures r.Err? ==> CheckQuantities(g, b, state).Err?
  {
    if CheckObjects(g, b) then
      var q :- CheckQuantities(g, b, state);
      if q then Ok(Yes) else Ok(NoneReturned)
    else Ok(No)
  }

  /** A guard without sub-guards accepts every binding in every state. */
  lemma EmptyGuardAccepts(b: Binding, state: CollectionCounter)
    ensures Call(EmptyGuard, b, state) == Ok(Yes)
  {
  }

  // ---------------------------------------------------------------------------
  // Helper inherited by user quantity guards

  /**
   * `QuantityGuard.determine_available_items` as written: when not everything
   * is available it returns the negated stock that would be left, not the
   * removal.
   */
  function DetermineAvailableItems(demand: Counter, available: Counter): (r: Counter)
    ensures Le(Neg(demand), Project(available, demand.Keys)) ==> r == demand
    ensures !Le(Neg(demand), Project(available, demand.Keys)) ==>
      forall k :: Get(r, k) == 0 - Max(Get(available, k) + Get(demand, k), 0) || k !in demand
  {
    var level := Project(available, demand.Keys);
    if Le(Neg(demand), level) then demand
    else
      UpdateMeaning(level, demand);
      PosMeaning(Update(level, demand));
      SubtractMeaning(map[], Pos(Update(level, demand)));
      Subtract(map[], Pos(Update(level, demand)))
  }

  /**
   * Whenever one item type is demanded and fewer of it are in stock than
   * demanded (four in stock and seven demanded, say) the helper removes
   * nothing, where the removal it documents takes all that is in stock
   * (the contract of `DetermineAvailableItemsCorrected`).
   */
  lemma DetermineAvailableItemsRemovesNothing(demand: Counter, available: Counter, k: string)
    requires demand.Keys == {k} && k in available && 0 < available[k] < 0 - demand[k]
    ensures DetermineAvailableItems(demand, available) == map[]
  {
    var level := Project(available, demand.Keys);
    assert !Le(Neg(demand), level) by {
      assert Get(level, k) == available[k];
      assert Get(Neg(demand), k) == 0 - demand[k];
    }
    UpdateMeaning(level, demand);
    PosMeaning(Update(level, demand));
    assert Pos(Update(level, demand)) == map[];
  }

  /**
   * With two of five and seven of four demanded, the helper proposes taking
   * three of the first type (what would be left) and none of the second.
   */
  lemma DetermineAvailableItemsReturnsRemainder()
    ensures var r := DetermineAvailableItems(map["A" := -2, "B" := -7], map["A" := 5, "B" := 4]);
      Get(r, "A") == -3 && Get(r, "B") == 0
  {
    var d := map["A" := -2, "B" := -7];
    var a := map["A" := 5, "B" := 4];
    assert !Le(Neg(d), Project(a, d.Keys)) by {
      assert Get(Neg(d), "B") == 7;
      assert Get(Project(a, d.Keys), "B") == 4;
    }
    var r := DetermineAvailableItems(d, a);
    assert Get(r, "A") == 0 - Max(Get(a, "A") + Get(d, "A"), 0);
    assert Get(r, "B") == 0 - Max(Get(a, "B") + Get(d, "B"), 0);
  }

  /** The corrected helper is the qalculator's removal: it takes out what is there, up to the demand. */
  function DetermineAvailableItemsCorrected(demand: Counter, available: Counter): (r: Counter)
    ensures r.Keys <= demand.Keys
    ensures forall k | Get(demand, k) < 0 :: Get(r, k) == 0 - Min(Max(Get(available, k), 0), 0 - Get(demand, k))
    ensures forall k | Get(available, k) >= 0 && Get(demand, k) <= 0 :: Get(available, k) + Get(r, k) >= 0
  {
    var r := Qalculators.QuantityUpdateRemovingAvailableItems(demand, available);
    forall k | Get(available, k) >= 0 && Get(demand, k) <= 0
      ensures Get(available, k) + Get(r, k) >= 0
    {
      Qalculators.RemovalKeepsStockNonNegative(demand, available, k);
    }
    r
  }
}
