/**
 * Qalculators: the component of a transition that decides the quantity
 * operations a firing performs on the collection points it is connected to,
 * together with the shared helpers for turning a demand into a feasible
 * removal.
 *
 * A demand is a counter whose negative entries are items to take out of a
 * collection point. A removal can never take out more than is there.
 */
module Qalculators {
  import opened Wrappers
  import opened Counters
  import opened Objects
  import opened Places

  const CountersNotASet := "Connected counters must be a set."

  /** How the quantity operations are decided: the default decides none, a custom one is a user function. */
  datatype QalculatorKind =
    | DefaultQ
    | CustomQ(f: (CollectionCounter, Binding) -> CollectionCounter)

  /** A qalculator and the ids of the collection points it is connected to. */
  datatype Qalculator = Qalculator(kind: QalculatorKind, connected: set<nat>)

  /** The argument passed to the `connected_counters` setter. */
  datatype CounterSelection = SetOf(cps: set<nat>) | NotASet

  /** A new qalculator is connected to nothing. */
  function NewQalculator(kind: QalculatorKind): (q: Qalculator)
    ensures q.connected == {} && q.kind == kind
  {
    Qalculator(kind, {})
  }

  /** The `connected_counters` setter: only a set is accepted. */
  function SetConnectedCounters(q: Qalculator, v: CounterSelection): (r: Result<Qalculator>)
    ensures r.Ok? <==> v.SetOf?
    ensures r.Ok? ==> r.value.connected == v.cps && r.value.kind == q.kind
  {
    match v
    case SetOf(cps) => Ok(q.(connected := cps))
    case NotASet => Err(ValueError(CountersNotASet))
  }

  /** `determine_quantity_operations`: the default qalculator changes no collection point. */
  function DetermineQuantityOperations(q: Qalculator, state: CollectionCounter, b: Binding): (r: CollectionCounter)
    ensures q.kind.DefaultQ? ==> r == map[]
    ensures q.kind.CustomQ? ==> r == q.kind.f(state, b)
  {
    match q.kind
    case DefaultQ => map[]
    case CustomQ(f) => f(state, b)
  }

  /** `determine_remaining_demand`: the part of the full demand the possible demand leaves open. */
  function RemainingDemand(possible: Counter, full: Counter): (r: Counter)
    ensures r.Keys == full.Keys + possible.Keys
  {
    Subtract(full, possible)
  }

  /** The possible and the remaining demand add back up to the full demand. */
  lemma RemainingDemandCompletes(possible: Counter, full: Counter)
    ensures forall k :: Get(Update(possible, RemainingDemand(possible, full)), k) == Get(full, k)
  {
    UpdateMeaning(possible, RemainingDemand(possible, full));
    SubtractMeaning(full, possible);
  }

  /** The reference meaning of a feasible removal: take out as much as demanded, but never more than is there. */
  function Removable(demand: Counter, available: Counter, k: string): int {
    0 - Min(Max(Get(available, k), 0), 0 - Get(demand, k))
  }

  /**
   * `quantity_update_removing_available_items`: when every demanded item is
   * available the demand itself is the update; otherwise every demanded item
   * type loses what it has, up to what is demanded.
   */
  function QuantityUpdateRemovingAvailableItems(demand: Counter, available: Counter): (r: Counter)
    ensures r.Keys <= demand.Keys
    ensures forall k | Get(demand, k) < 0 :: Get(r, k) == Removable(demand, available, k)
    ensures Le(Neg(demand), Project(available, demand.Keys)) ==> r == demand
    ensures !Le(Neg(demand), Project(available, demand.Keys)) ==> forall k | k in r :: r[k] < 0
  {
    var level := Project(available, demand.Keys);
    if Le(Neg(demand), level) then
      RemovalWhenAllAvailable(demand, available);
      demand
    else
      var removed := Minus(level, Pos(Update(level, demand)));
      RemovalWhenShort(demand, available);
      Subtract(map[], removed)
  }

  lemma RemovalWhenAllAvailable(demand: Counter, available: Counter)
    requires Le(Neg(demand), Project(available, demand.Keys))
    ensures forall k | Get(demand, k) < 0 :: Get(demand, k) == Removable(demand, available, k)
  {
    var level := Project(available, demand.Keys);
    forall k | Get(demand, k) < 0
      ensures Get(demand, k) == Removable(demand, available, k)
    {
      assert k in Neg(demand).Keys;
      assert Get(Neg(demand), k) <= Get(level, k);
    }
  }

  lemma RemovalWhenShort(demand: Counter, available: Counter)
    ensures var level := Project(available, demand.Keys);
      var r := Subtract(map[], Minus(level, Pos(Update(level, demand))));
      && r.Keys <= demand.Keys
      && (forall k | Get(demand, k) < 0 :: Get(r, k) == Removable(demand, available, k))
      && (forall k | k in r :: r[k] < 0)
  {
    var level := Project(available, demand.Keys);
    var removed := Minus(level, Pos(Update(level, demand)));
    var r := Subtract(map[], removed);
    forall k | k in r ensures k in demand && r[k] < 0 {
      RemovalWhenShortAt(demand, available, k);
      SubtractMeaning(map[], removed);
    }
    forall k | Get(demand, k) < 0 ensures Get(r, k) == Removable(demand, available, k) {
      RemovalWhenShortAt(demand, available, k);
      SubtractMeaning(map[], removed);
    }
  }

  /** What the shortage branch takes out of the item type `k`. */
  ghost predicate RemovedAt(demand: Counter, available: Counter, removed: Counter, k: string) {
    && (k in removed ==> k in demand && removed[k] > 0)
    && (Get(demand, k) < 0 ==> Get(removed, k) == 0 - Removable(demand, available, k))
  }

  lemma RemovalWhenShortAt(demand: Counter, available: Counter, k: string)
    ensures var level := Project(available, demand.Keys);
      RemovedAt(demand, available, Minus(level, Pos(Update(level, demand))), k)
  {
    var level := Project(available, demand.Keys);
    var after := Pos(Update(level, demand));
    UpdateMeaning(level, demand);
    PosMeaning(Update(level, demand));
    MinusMeaning(level, after);
    assert Get(level, k) == (if k in demand then Get(available, k) else 0);
  }

  /** A removal from a non-negative stock never leaves a negative stock behind. */
  lemma RemovalKeepsStockNonNegative(demand: Counter, available: Counter, k: string)
    requires Get(available, k) >= 0
    requires Get(demand, k) <= 0
    ensures Get(available, k) + Get(QuantityUpdateRemovingAvailableItems(demand, available), k) >= 0
  {
    var r := QuantityUpdateRemovingAvailableItems(demand, available);
    if Get(demand, k) == 0 && k in r {
      assert k in demand;
    }
  }
}
