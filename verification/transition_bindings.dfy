/**
 * Whether a binding function is enabled at a transition, and the enumeration
 * of every enabled binding function over the transition's input types.
 *
 * Python iterates the input types and the eligible objects in set order; the
 * model fixes that order with `SetToSeq`, so the functions that depend on it
 * are ghost, and the lemmas below show their outcome does not depend on the
 * order chosen.
 */
module TransitionBindings {
  import opened Wrappers
  import opened Objects
  import opened Places
  import opened Guards
  import opened Seqs
  import opened Combinations
  import opened Transitions

  const BindingMissesTypes := "Passed binding function must contain every object type the transition refers to."

  /** `_input_places_marking_intersection`: the objects present in every input place of type `ot`. */
  function MarkingIntersection(t: Transition, places: map<nat, Place>, ot: string): (r: set<Token>)
    ensures forall x :: x in r <==>
      InputPlacesOfType(t, places, ot) != {} && forall p | p in InputPlacesOfType(t, places, ot) :: x in places[p].data.tokens
  {
    var ps := InputPlacesOfType(t, places, ot);
    var r := set p, x | p in ps && x in places[p].data.tokens && (forall q | q in ps :: x in places[q].data.tokens) :: x;
    assert forall x | ps != {} && (forall q | q in ps :: x in places[q].data.tokens) :: x in r by {
      forall x | ps != {} && (forall q | q in ps :: x in places[q].data.tokens)
        ensures x in r
      {
        var p :| p in ps;
        assert x in places[p].data.tokens;
      }
    }
    r
  }

  /** The objects the enumeration may bind for `ot`: the marking intersection restricted to active objects. */
  function Eligible(t: Transition, places: map<nat, Place>, active: set<Token>, ot: string): (r: set<Token>)
    ensures r <= MarkingIntersection(t, places, ot) && r <= active
    ensures forall x | x in MarkingIntersection(t, places, ot) && x in active :: x in r
  {
    MarkingIntersection(t, places, ot) * active
  }

  // ---------------------------------------------------------------------------
  // Checking one binding function

  /** The three quantity lookups for `ot` succeed. */
  predicate QuantitiesDefined(t: Transition, places: map<nat, Place>, ot: string) {
    ot in Bfq(t, places) && ot in MaxQ(t, places) && ot in MinQ(t, places)
  }

  /**
   * The size rule for `n` bound objects: exactly `required` when that is
   * non-zero; otherwise any number when the maximum is 0 too, and else a
   * number between the minimum and the maximum.
   */
  predicate SizeAdmissible(required: int, mn: int, mx: int, n: nat) {
    if required != 0 then n == required
    else mx == 0 || (mn <= n && n <= mx)
  }

  /** The size rule of `_binding_enabled` for `n` objects of type `ot`, with the lookups it makes in its order. */
  function SizeCheck(t: Transition, places: map<nat, Place>, ot: string, n: nat): (r: Result<bool>)
    ensures QuantitiesDefined(t, places, ot) ==>
      r == Ok(SizeAdmissible(Bfq(t, places)[ot], MinQ(t, places)[ot], MaxQ(t, places)[ot], n))
    ensures ot !in Bfq(t, places) ==> r == Err(KeyError)
    ensures r.Err? ==> r == Err(KeyError) && !QuantitiesDefined(t, places, ot)
  {
    var bfq := Bfq(t, places);
    if ot !in bfq then Err(KeyError)
    else if bfq[ot] == 0 then
      var mx := MaxQ(t, places);
      if ot !in mx then Err(KeyError)
      else if mx[ot] == 0 then Ok(true)
      else if n > mx[ot] then Ok(false)
      else
        var mn := MinQ(t, places);
        if ot !in mn then Err(KeyError) else Ok(n >= mn[ot])
    else Ok(n == bfq[ot])
  }

  /** The binding passes the checks for `ot`: it names the type, obeys the size rule, and an input type's objects lie in every input place. */
  predicate TypeOk(t: Transition, places: map<nat, Place>, b: Binding, ot: string) {
    && ot in b
    && QuantitiesDefined(t, places, ot)
    && SizeAdmissible(Bfq(t, places)[ot], MinQ(t, places)[ot], MaxQ(t, places)[ot], |b[ot]|)
    && (ot in InputObjectTypes(t, places) ==> b[ot] <= MarkingIntersection(t, places, ot))
  }

  /** One iteration of `_binding_enabled`'s loop: a type missing from the binding raises `ValueError`. */
  function TypeCheck(t: Transition, places: map<nat, Place>, b: Binding, ot: string): (r: Result<bool>)
    ensures ot !in b ==> r.Err? && r.error.ValueError?
    ensures ot in b && QuantitiesDefined(t, places, ot) ==> r == Ok(TypeOk(t, places, b, ot))
    ensures ot in b && ot !in Bfq(t, places) ==> r == Err(KeyError)
  {
    if ot !in b then
      Err(ValueError(BindingMissesTypes))
    else
      var sized :- SizeCheck(t, places, ot, |b[ot]|);
      if !sized then Ok(false)
      else if ot in InputObjectTypes(t, places) then Ok(b[ot] <= MarkingIntersection(t, places, ot))
      else Ok(true)
  }

  /** A loop of checks over `ots` that stops at the first one that does not answer `True`, and answers as that one did. */
  function AllChecks(check: string -> Result<bool>, ots: seq<string>): Result<bool>
    decreases |ots|
  {
    if |ots| == 0 then Ok(true)
    else
      var ok :- check(ots[0]);
      if !ok then Ok(false) else AllChecks(check, ots[1..])
  }

  /** The loop passes iff every check passes, and it raises only if some check raises. */
  lemma {:induction false} AllChecksMeaning(check: string -> Result<bool>, ots: seq<string>)
    ensures AllChecks(check, ots) == Ok(true) <==> forall i | 0 <= i < |ots| :: check(ots[i]) == Ok(true)
    ensures AllChecks(check, ots).Err? ==> exists i | 0 <= i < |ots| :: check(ots[i]).Err?
    decreases |ots|
  {
    if |ots| > 0 {
      var tail := ots[1..];
      assert forall i | 0 <= i < |tail| :: tail[i] == ots[i + 1];
      AllChecksMeaning(check, tail);
      if check(ots[0]) == Ok(true) && AllChecks(check, tail) == Ok(true) {
        forall i | 0 <= i < |ots| ensures check(ots[i]) == Ok(true) {
          if i > 0 {
            assert ots[i] == tail[i - 1];
          }
        }
      }
    }
  }

  /** The types `_binding_enabled` considers: the input types only, or all object types. */
  function ConsideredTypes(t: Transition, places: map<nat, Place>, onlyInput: bool): (r: set<string>)
    ensures r <= ObjectTypes(t, places)
    ensures onlyInput ==> r == InputObjectTypes(t, places)
    ensures !onlyInput ==> r == ObjectTypes(t, places)
  {
    if onlyInput then InputObjectTypes(t, places) else ObjectTypes(t, places)
  }

  /** `_binding_enabled`, visiting the considered types in set order. */
  ghost function BindingEnabled(t: Transition, places: map<nat, Place>, b: Binding, onlyInput: bool): Result<bool> {
    AllChecks(ot => TypeCheck(t, places, b, ot), SetToSeq(ConsideredTypes(t, places, onlyInput)))
  }

  /** Every object type has all three quantities, as the setters and the defaults guarantee. */
  predicate QuantitiesCover(t: Transition, places: map<nat, Place>) {
    forall ot | ot in ObjectTypes(t, places) :: QuantitiesDefined(t, places, ot)
  }

  /** Quantity maps that are unset or keyed by exactly the object types cover every type. */
  lemma QuantitiesCoverWhenKeyedByTypes(t: Transition, places: map<nat, Place>)
    requires t.bfq == map[] || t.bfq.Keys == ObjectTypes(t, places)
    requires t.maxQ == map[] || t.maxQ.Keys == ObjectTypes(t, places)
    requires t.minQ == map[] || t.minQ.Keys == ObjectTypes(t, places)
    ensures QuantitiesCover(t, places)
  {
  }

  /** The binding check passes iff every considered type passes; it raises only for a considered type the binding lacks. */
  lemma BindingEnabledMeaning(t: Transition, places: map<nat, Place>, b: Binding, onlyInput: bool)
    requires QuantitiesCover(t, places)
    ensures BindingEnabled(t, places, b, onlyInput) == Ok(true) <==>
      forall ot | ot in ConsideredTypes(t, places, onlyInput) :: TypeOk(t, places, b, ot)
    ensures BindingEnabled(t, places, b, onlyInput).Err? ==>
      exists ot | ot in ConsideredTypes(t, places, onlyInput) :: ot !in b
  {
    var types := ConsideredTypes(t, places, onlyInput);
    var check := ot => TypeCheck(t, places, b, ot);
    forall ot | ot in types
      ensures check(ot) == Ok(true) <==> TypeOk(t, places, b, ot)
      ensures check(ot).Err? ==> ot !in b
    {
      TypeCheckMeaning(t, places, b, ot);
    }
    AllChecksOverSet(check, SetToSeq(types), types);
  }

  /** A passing check of one type means the binding names it and, for an input type, binds only objects of every input place. */
  lemma TypeCheckPassed(t: Transition, places: map<nat, Place>, b: Binding, ot: string)
    requires TypeCheck(t, places, b, ot) == Ok(true)
    ensures ot in b
    ensures ot in InputObjectTypes(t, places) ==> b[ot] <= MarkingIntersection(t, places, ot)
  {
  }

  /** A passing binding check names every considered type and binds only objects present in every input place of the type. */
  lemma BindingEnabledPasses(t: Transition, places: map<nat, Place>, b: Binding, onlyInput: bool)
    requires BindingEnabled(t, places, b, onlyInput) == Ok(true)
    ensures forall ot | ot in ConsideredTypes(t, places, onlyInput) ::
      ot in b && (ot in InputObjectTypes(t, places) ==> b[ot] <= MarkingIntersection(t, places, ot))
  {
    var types := ConsideredTypes(t, places, onlyInput);
    var check := ot => TypeCheck(t, places, b, ot);
    AllChecksOverSet(check, SetToSeq(types), types);
    forall ot | ot in types
      ensures ot in b && (ot in InputObjectTypes(t, places) ==> b[ot] <= MarkingIntersection(t, places, ot))
    {
      TypeCheckPassed(t, places, b, ot);
    }
  }

  /** With its quantities defined, the check of one type passes iff the type is fine, and raises only if the binding lacks it. */
  lemma TypeCheckMeaning(t: Transition, places: map<nat, Place>, b: Binding, ot: string)
    requires QuantitiesDefined(t, places, ot)
    ensures TypeCheck(t, places, b, ot) == Ok(true) <==> TypeOk(t, places, b, ot)
    ensures TypeCheck(t, places, b, ot).Err? ==> ot !in b
  {
  }

  /** The loop over any ordering of a set passes iff every check on the set passes, and raises only if one of them raises. */
  lemma AllChecksOverSet(check: string -> Result<bool>, ots: seq<string>, types: set<string>)
    requires Elems(ots) == types
    ensures AllChecks(check, ots) == Ok(true) <==> forall ot | ot in types :: check(ot) == Ok(true)
    ensures AllChecks(check, ots).Err? ==> exists ot | ot in types :: check(ot).Err?
  {
    AllChecksMeaning(check, ots);
    if forall i | 0 <= i < |ots| :: check(ots[i]) == Ok(true) {
      forall ot | ot in types ensures check(ot) == Ok(true) {
        var i :| 0 <= i < |ots| && ots[i] == ot;
      }
    }
  }

  /** `enabled`: the binding check and then the guard on the current quantity state. */
  ghost function Enabled(t: Transition, places: map<nat, Place>, b: Binding, onlyInput: bool): (r: Result<bool>)
    ensures r == Ok(true) ==> BindingEnabled(t, places, b, onlyInput) == Ok(true)
    ensures r == Ok(true) ==> Call(t.guard, b, QuantityState(t, places)) == Ok(Yes)
  {
    var ok :- BindingEnabled(t, places, b, onlyInput);
    if !ok then Ok(false)
    else
      var v :- Call(t.guard, b, QuantityState(t, places));
      Ok(v == Yes)
  }

  /** `enabled` in terms of the per-type rules and the guard. */
  lemma EnabledMeaning(t: Transition, places: map<nat, Place>, b: Binding, onlyInput: bool)
    requires QuantitiesCover(t, places)
    ensures Enabled(t, places, b, onlyInput) == Ok(true) <==>
      (forall ot | ot in ConsideredTypes(t, places, onlyInput) :: TypeOk(t, places, b, ot))
      && Call(t.guard, b, QuantityState(t, places)) == Ok(Yes)
  {
    BindingEnabledMeaning(t, places, b, onlyInput);
  }

  /** A full check of a binding that lacks an output-only type raises, even when the input-only check passes. */
  lemma EnabledNeedsOutputTypes(t: Transition, places: map<nat, Place>, b: Binding, ot: string)
    requires QuantitiesCover(t, places)
    requires ot in ObjectTypes(t, places) && ot !in b
    ensures Enabled(t, places, b, false) != Ok(true)
  {
    EnabledMeaning(t, places, b, false);
  }

  // ---------------------------------------------------------------------------
  // Candidate object sets for one type

  /** The largest subset size the enumeration tries: the maximum, or every eligible object when it is 0. */
  function Upper(n: nat, mx: int): int {
    if mx == 0 then n else mx
  }

  /**
   * A candidate object set for one type: drawn from the eligible objects, of
   * the required size, or, for a required size of 0, of a size between the
   * minimum and the upper bound (and empty when the minimum is 0).
   */
  predicate Admissible(s: set<Token>, elig: set<Token>, required: int, mn: int, mx: int) {
    && s <= elig
    && if required != 0 then |s| == required
       else (mn <= |s| && |s| <= Upper(|elig|, mx)) || (s == {} && mn == 0)
  }

  /**
   * The candidate sets as the source builds them from the eligible objects
   * `xs`: `combinations` raises for a negative size, and for a minimum of 0
   * an empty set is appended after the sizes already listed.
   */
  function CandidateSets(xs: seq<Token>, required: int, mn: int, mx: int): (r: Result<seq<set<Token>>>)
    ensures r.Err? <==> required < 0 || (required == 0 && mn < 0 && mn <= Upper(|xs|, mx))
  {
    if required < 0 then Err(ValueError("r must be non-negative"))
    else if required > 0 then Ok(KSubsets(xs, required))
    else
      var upper := Upper(|xs|, mx);
      if mn <= upper && mn < 0 then Err(ValueError("r must be non-negative"))
      else
        var listed := if mn < 0 then [] else KSubsetsRange(xs, mn, upper);
        Ok(if mn == 0 then listed + [{}] else listed)
  }

  /** The candidate sets with the empty set listed once: it is appended only when no size-0 combination was listed. */
  function CandidateSetsCorrected(xs: seq<Token>, required: int, mn: int, mx: int): (r: Result<seq<set<Token>>>)
    ensures r.Err? <==> required < 0 || (required == 0 && mn < 0 && mn <= Upper(|xs|, mx))
  {
    if required < 0 then Err(ValueError("r must be non-negative"))
    else if required > 0 then Ok(KSubsets(xs, required))
    else
      var upper := Upper(|xs|, mx);
      if mn <= upper && mn < 0 then Err(ValueError("r must be non-negative"))
      else
        var listed := if mn < 0 then [] else KSubsetsRange(xs, mn, upper);
        Ok(if mn == 0 && upper < 0 then listed + [{}] else listed)
  }

  /** The corrected candidates are exactly the admissible sets, each listed once. */
  lemma CandidateSetsCorrectedMeaning(xs: seq<Token>, required: int, mn: int, mx: int)
    requires Distinct(xs)
    requires CandidateSetsCorrected(xs, required, mn, mx).Ok?
    ensures Distinct(CandidateSetsCorrected(xs, required, mn, mx).value)
    ensures forall s :: s in CandidateSetsCorrected(xs, required, mn, mx).value <==> Admissible(s, Elems(xs), required, mn, mx)
  {
    DistinctCard(xs);
    if required > 0 {
      KSubsetsDistinct(xs, required);
      KSubsetsSound(xs, required);
      forall s | Admissible(s, Elems(xs), required, mn, mx)
        ensures s in KSubsets(xs, required)
      {
        KSubsetsComplete(xs, required, s);
      }
    } else {
      var upper := Upper(|xs|, mx);
      if mn >= 0 {
        KSubsetsRangeMembers(xs, mn, upper);
        KSubsetsRangeDistinct(xs, mn, upper);
        if mn == 0 && upper < 0 {
          assert KSubsetsRange(xs, mn, upper) == [];
        }
      }
    }
  }

  /**
   * For a required size of 0 and a minimum of 0, the source's list starts and
   * ends with the empty set, so the empty binding is listed twice: it is the
   * corrected list with one more empty set at the end.
   */
  lemma CandidateSetsListsEmptyTwice(xs: seq<Token>, mx: int)
    requires Upper(|xs|, mx) >= 0
    ensures CandidateSets(xs, 0, 0, mx).Ok? && CandidateSetsCorrected(xs, 0, 0, mx).Ok?
    ensures CandidateSets(xs, 0, 0, mx).value == CandidateSetsCorrected(xs, 0, 0, mx).value + [{}]
    ensures CandidateSetsCorrected(xs, 0, 0, mx).value[0] == {}
    ensures !Distinct(CandidateSets(xs, 0, 0, mx).value)
  {
    var r := CandidateSets(xs, 0, 0, mx).value;
    assert KSubsetsRange(xs, 0, Upper(|xs|, mx)) == [{}] + KSubsetsRange(xs, 1, Upper(|xs|, mx));
    assert r[0] == {} && r[|r| - 1] == {};
  }

  /** Apart from that case, the source's list is the corrected one. */
  lemma CandidateSetsOtherwiseAgree(xs: seq<Token>, required: int, mn: int, mx: int)
    requires !(required == 0 && mn == 0 && Upper(|xs|, mx) >= 0)
    ensures CandidateSets(xs, required, mn, mx) == CandidateSetsCorrected(xs, required, mn, mx)
  {
  }

  // ---------------------------------------------------------------------------
  // Enumeration

  /** `s` is a candidate for `ot`: the type's quantities exist and `s` is admissible among its eligible objects. */
  predicate TypeAdmissible(t: Transition, places: map<nat, Place>, active: set<Token>, ot: string, s: set<Token>) {
    && QuantitiesDefined(t, places, ot)
    && Admissible(s, Eligible(t, places, active, ot), Bfq(t, places)[ot], MinQ(t, places)[ot], MaxQ(t, places)[ot])
  }

  /** `opts` lists exactly the candidates for `ot`. */
  ghost predicate ListsCandidates(t: Transition, places: map<nat, Place>, active: set<Token>, ot: string, opts: seq<set<Token>>) {
    forall s :: s in opts <==> TypeAdmissible(t, places, active, ot, s)
  }

  /** No set is a candidate for `ot`. */
  ghost predicate NoCandidate(t: Transition, places: map<nat, Place>, active: set<Token>, ot: string) {
    forall s :: !TypeAdmissible(t, places, active, ot, s)
  }

  /**
   * One iteration of the enumeration's loop over input types: the three
   * lookups, then `None` when fewer objects are eligible than required, else
   * the candidate sets.
   */
  ghost function OptionsFor(t: Transition, places: map<nat, Place>, active: set<Token>, ot: string): (r: Result<Option<seq<set<Token>>>>)
    ensures r.Err? ==> !QuantitiesDefined(t, places, ot) || Bfq(t, places)[ot] < 0 || MinQ(t, places)[ot] < 0
    ensures r.Ok? && r.value.Some? ==> ListsCandidates(t, places, active, ot, r.value.value) && Distinct(r.value.value)
    ensures r.Ok? && r.value.None? ==> NoCandidate(t, places, active, ot)
  {
    if !QuantitiesDefined(t, places, ot) then Err(KeyError)
    else
      var required := Bfq(t, places)[ot];
      var mn := MinQ(t, places)[ot];
      var mx := MaxQ(t, places)[ot];
      var elig := Eligible(t, places, active, ot);
      if |elig| < required then
        assert NoCandidate(t, places, active, ot) by {
          forall s | s <= elig
            ensures |s| != required
          {
            SubsetNoLarger(s, elig);
          }
        }
        Ok(None)
      else
        var xs := SetToSeq(elig);
        var c :- CandidateSetsCorrected(xs, required, mn, mx);
        CandidateSetsCorrectedMeaning(xs, required, mn, mx);
        Ok(Some(c))
  }

  /** The per-type candidate lists, in the order of `ots`; `None` as soon as one type has too few objects. */
  ghost function CollectOptions(t: Transition, places: map<nat, Place>, active: set<Token>, ots: seq<string>): (r: Result<Option<seq<(string, seq<set<Token>>)>>>)
    ensures r.Ok? && r.value.Some? ==>
      && |r.value.value| == |ots|
      && forall i | 0 <= i < |ots| :: r.value.value[i].0 == ots[i] && ListsCandidates(t, places, active, ots[i], r.value.value[i].1)
    ensures r.Ok? && r.value.None? ==> exists i | 0 <= i < |ots| :: NoCandidate(t, places, active, ots[i])
    decreases |ots|
  {
    if |ots| == 0 then Ok(Some([]))
    else
      var here :- OptionsFor(t, places, active, ots[0]);
      if here.None? then Ok(None)
      else
        var rest :- CollectOptions(t, places, active, ots[1..]);
        if rest.None? then
          assert exists i | 0 <= i < |ots| :: NoCandidate(t, places, active, ots[i]) by {
            var j :| 0 <= j < |ots[1..]| && NoCandidate(t, places, active, ots[1..][j]);
            assert ots[1..][j] == ots[j + 1];
          }
          Ok(None)
        else
          OptionsCons(t, places, active, ots, here.value, rest.value);
          Ok(Some([(ots[0], here.value)] + rest.value))
  }

  /** Candidate lists for the first type and for the remaining types make candidate lists for all of them. */
  lemma OptionsCons(t: Transition, places: map<nat, Place>, active: set<Token>, ots: seq<string>,
                    first: seq<set<Token>>, rest: seq<(string, seq<set<Token>>)>)
    requires |ots| > 0 && ListsCandidates(t, places, active, ots[0], first)
    requires |rest| == |ots| - 1
    requires forall i | 0 <= i < |rest| :: rest[i].0 == ots[i + 1] && ListsCandidates(t, places, active, ots[i + 1], rest[i].1)
    ensures var entries := [(ots[0], first)] + rest;
      forall i | 0 <= i < |ots| :: entries[i].0 == ots[i] && ListsCandidates(t, places, active, ots[i], entries[i].1)
  {
    var entries := [(ots[0], first)] + rest;
    assert forall i | 1 <= i < |ots| :: entries[i] == rest[i - 1];
  }

  /** The guard filter of the enumeration: keeps the bindings the guard accepts, in order; a raising guard propagates. */
  function FilterGuard(g: Guard, bs: seq<Binding>, state: CollectionCounter): (r: Result<seq<Binding>>)
    ensures r.Ok? ==> forall b :: b in r.value <==> b in bs && Call(g, b, state) == Ok(Yes)
    ensures r.Err? ==> exists i | 0 <= i < |bs| :: Call(g, bs[i], state).Err?
    decreases |bs|
  {
    if |bs| == 0 then Ok([])
    else
      var v :- Call(g, bs[0], state);
      var rest := FilterGuard(g, bs[1..], state);
      if rest.Err? then
        assert exists i | 0 <= i < |bs| :: Call(g, bs[i], state).Err? by {
          var j :| 0 <= j < |bs[1..]| && Call(g, bs[1..][j], state).Err?;
          assert bs[1..][j] == bs[j + 1];
        }
        rest
      else
        assert forall b | b in bs :: b == bs[0] || b in bs[1..];
        Ok(if v == Yes then [bs[0]] + rest.value else rest.value)
  }

  /**
   * `determine_new_binding_functions`: the cross product of the per-type
   * candidates, filtered by the guard; `None` when some type has too few
   * objects or the guard accepts none.
   */
  ghost function DetermineNewBindingFunctions(t: Transition, places: map<nat, Place>, active: set<Token>): Result<Option<seq<Binding>>> {
    var collected :- CollectOptions(t, places, active, SetToSeq(InputObjectTypes(t, places)));
    if collected.None? then Ok(None)
    else
      var enabled :- FilterGuard(t.guard, Product(collected.value), QuantityState(t, places));
      Ok(if |enabled| == 0 then None else Some(enabled))
  }

  /** The bindings the enumeration can produce: one candidate set per input type and nothing else, accepted by the guard. */
  predicate Enumerable(t: Transition, places: map<nat, Place>, active: set<Token>, b: Binding) {
    && b.Keys == InputObjectTypes(t, places)
    && (forall ot | ot in b :: TypeAdmissible(t, places, active, ot, b[ot]))
    && Call(t.guard, b, QuantityState(t, places)) == Ok(Yes)
  }

  /** A result of the enumeration lists exactly the enumerable bindings, and is `None` when there are none. */
  lemma DetermineNewBindingFunctionsMeaning(t: Transition, places: map<nat, Place>, active: set<Token>, b: Binding)
    requires DetermineNewBindingFunctions(t, places, active).Ok?
    ensures var r := DetermineNewBindingFunctions(t, places, active).value;
      (r.Some? && b in r.value) <==> Enumerable(t, places, active, b)
  {
    var ots := SetToSeq(InputObjectTypes(t, places));
    var collected := CollectOptions(t, places, active, ots).value;
    if collected.None? {
      NoCandidatesNoBinding(t, places, active, ots, b);
    } else {
      var state := QuantityState(t, places);
      var prod := Product(collected.value);
      var enabled := FilterGuard(t.guard, prod, state).value;
      assert DetermineNewBindingFunctions(t, places, active).value == (if |enabled| == 0 then None else Some(enabled));
      ProductOfCandidates(t, places, active, ots, collected.value, b);
      assert b in enabled <==> b in prod && Call(t.guard, b, state) == Ok(Yes);
    }
  }

  /** When one input type has no candidate, no binding is enumerable. */
  lemma NoCandidatesNoBinding(t: Transition, places: map<nat, Place>, active: set<Token>, ots: seq<string>, b: Binding)
    requires Elems(ots) == InputObjectTypes(t, places)
    requires CollectOptions(t, places, active, ots) == Ok(None)
    ensures !Enumerable(t, places, active, b)
  {
    var i :| 0 <= i < |ots| && NoCandidate(t, places, active, ots[i]);
    assert ots[i] in InputObjectTypes(t, places);
  }

  /** The cross product of the collected candidate lists holds exactly the bindings that pick a candidate for every input type. */
  lemma ProductOfCandidates(t: Transition, places: map<nat, Place>, active: set<Token>, ots: seq<string>,
                            entries: seq<(string, seq<set<Token>>)>, b: Binding)
    requires Distinct(ots) && Elems(ots) == InputObjectTypes(t, places)
    requires CollectOptions(t, places, active, ots) == Ok(Some(entries))
    ensures b in Product(entries) <==>
      b.Keys == InputObjectTypes(t, places) && forall ot | ot in b :: TypeAdmissible(t, places, active, ot, b[ot])
  {
    var ok := (ot, s) => TypeAdmissible(t, places, active, ot, s);
    forall i | 0 <= i < |ots|
      ensures entries[i].0 == ots[i]
      ensures forall s :: s in entries[i].1 <==> ok(ots[i], s)
    {
    }
    PicksPerKey(entries, ots, ok, b);
  }

  /**
   * The cross product of per-key option lists, each listing exactly the
   * values `ok` allows for its key, holds exactly the maps over those keys
   * whose every value is allowed.
   */
  lemma PicksPerKey<V(!new)>(entries: seq<(string, seq<V>)>, ots: seq<string>, ok: (string, V) -> bool, b: map<string, V>)
    requires |entries| == |ots| && Distinct(ots)
    requires forall i | 0 <= i < |ots| :: entries[i].0 == ots[i]
    requires forall i | 0 <= i < |ots| :: forall v :: v in entries[i].1 <==> ok(ots[i], v)
    ensures b in Product(entries) <==> b.Keys == Elems(ots) && forall k | k in b :: ok(k, b[k])
  {
    assert DistinctKeys(entries) by {
      forall i, j | 0 <= i < j < |entries| ensures entries[i].0 != entries[j].0 {
        assert entries[i].0 == ots[i] && entries[j].0 == ots[j];
      }
    }
    assert KeysOf(entries) == Elems(ots) by {
      forall k ensures k in KeysOf(entries) <==> k in ots {
        if k in ots {
          var i :| 0 <= i < |ots| && ots[i] == k;
          assert entries[i].0 == k;
        }
      }
    }
    ProductMeaning(entries, b);
    if b.Keys == Elems(ots) {
      if Picks(entries, b) {
        forall k | k in b ensures ok(k, b[k]) {
          var i :| 0 <= i < |ots| && ots[i] == k;
          assert b[entries[i].0] in entries[i].1;
        }
      }
      if forall k | k in b :: ok(k, b[k]) {
        forall i | 0 <= i < |entries| ensures b[entries[i].0] in entries[i].1 {
          assert entries[i].0 == ots[i] && ots[i] in b;
        }
      }
    }
  }

  /**
   * Every enumerated binding passes `enabled` with `only_input`, provided the
   * quantities cover every type and no variable type has a negative maximum.
   */
  lemma EnumeratedBindingsAreEnabled(t: Transition, places: map<nat, Place>, active: set<Token>, b: Binding)
    requires QuantitiesCover(t, places)
    requires forall ot | ot in ObjectTypes(t, places) :: MaxQ(t, places)[ot] >= 0
    requires Enumerable(t, places, active, b)
    ensures Enabled(t, places, b, true) == Ok(true)
  {
    forall ot | ot in InputObjectTypes(t, places)
      ensures TypeOk(t, places, b, ot)
    {
      assert TypeAdmissible(t, places, active, ot, b[ot]);
      var elig := Eligible(t, places, active, ot);
      SubsetNoLarger(b[ot], elig);
    }
    EnabledMeaning(t, places, b, true);
  }
}
