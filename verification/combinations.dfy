/**
 * `itertools.combinations` and `itertools.product` as the binding enumeration
 * uses them: all `k`-element subsets of an iteration in the library's order,
 * and the cartesian product of one option per object type.
 */
module Combinations {
  import opened Seqs

  /** Adds `x` to every subset of `ss`. */
  function AddToAll<T>(x: T, ss: seq<set<T>>): (r: seq<set<T>>)
    ensures |r| == |ss|
    ensures forall i | 0 <= i < |ss| :: r[i] == {x} + ss[i]
  {
    seq(|ss|, i requires 0 <= i < |ss| => {x} + ss[i])
  }

  /**
   * `combinations(xs, k)`, each combination turned into a set: first the
   * combinations that take `xs[0]`, then those that skip it.
   */
  function KSubsets<T>(xs: seq<T>, k: nat): (r: seq<set<T>>)
    decreases |xs|
  {
    if k == 0 then [{}]
    else if |xs| == 0 then []
    else AddToAll(xs[0], KSubsets(xs[1..], k - 1)) + KSubsets(xs[1..], k)
  }

  /** Pascal's rule. */
  function Binom(n: nat, k: nat): nat {
    if k == 0 then 1 else if n == 0 then 0 else Binom(n - 1, k - 1) + Binom(n - 1, k)
  }

  /** There are n choose k combinations. */
  lemma {:induction false} KSubsetsCount<T>(xs: seq<T>, k: nat)
    ensures |KSubsets(xs, k)| == Binom(|xs|, k)
    decreases |xs|
  {
    if k != 0 && |xs| != 0 {
      KSubsetsCount(xs[1..], k - 1);
      KSubsetsCount(xs[1..], k);
    }
  }

  /** Every combination of distinct elements is a `k`-element subset of them. */
  lemma {:induction false} KSubsetsSound<T(!new)>(xs: seq<T>, k: nat)
    requires Distinct(xs)
    ensures forall s | s in KSubsets(xs, k) :: s <= Elems(xs) && |s| == k
    decreases |xs|
  {
    if k != 0 && |xs| != 0 {
      var tail := xs[1..];
      DistinctTail(xs);
      KSubsetsSound(tail, k - 1);
      KSubsetsSound(tail, k);
      ElemsCons(xs);
      var smaller := KSubsets(tail, k - 1);
      forall s | s in KSubsets(xs, k)
        ensures s <= Elems(xs) && |s| == k
      {
        if s in AddToAll(xs[0], smaller) {
          var i :| 0 <= i < |smaller| && AddToAll(xs[0], smaller)[i] == s;
          assert smaller[i] in smaller;
          assert s == {xs[0]} + smaller[i];
          assert xs[0] !in smaller[i];
        }
      }
    }
  }

  /** Every `k`-element subset of the iterated elements is one of the combinations. */
  lemma {:induction false} KSubsetsComplete<T(!new)>(xs: seq<T>, k: nat, s: set<T>)
    requires s <= Elems(xs) && |s| == k
    ensures s in KSubsets(xs, k)
    decreases |xs|
  {
    if k == 0 {
      assert s == {};
    } else {
      assert s != {};
      var y :| y in s;
      assert y in Elems(xs);
      var x, tail := xs[0], xs[1..];
      ElemsCons(xs);
      if x in s {
        var rest := s - {x};
        assert rest <= Elems(tail);
        KSubsetsComplete(tail, k - 1, rest);
        AddToAllMember(x, KSubsets(tail, k - 1), rest);
        assert {x} + rest == s;
      } else {
        assert s <= Elems(tail);
        KSubsetsComplete(tail, k, s);
      }
    }
  }

  /** Adding `x` to a member of `ss` gives a member of `AddToAll(x, ss)`. */
  lemma AddToAllMember<T>(x: T, ss: seq<set<T>>, s: set<T>)
    requires s in ss
    ensures {x} + s in AddToAll(x, ss)
  {
    var i :| 0 <= i < |ss| && ss[i] == s;
    assert AddToAll(x, ss)[i] == {x} + s;
  }

  /** Over distinct elements no combination is produced twice. */
  lemma {:induction false} KSubsetsDistinct<T(!new)>(xs: seq<T>, k: nat)
    requires Distinct(xs)
    ensures Distinct(KSubsets(xs, k))
    decreases |xs|
  {
    if k != 0 && |xs| != 0 {
      var x := xs[0];
      var tail := xs[1..];
      DistinctTail(xs);
      KSubsetsDistinct(tail, k - 1);
      KSubsetsDistinct(tail, k);
      KSubsetsSound(tail, k - 1);
      KSubsetsSound(tail, k);
      var smaller := KSubsets(tail, k - 1);
      var with := AddToAll(x, smaller);
      var without := KSubsets(tail, k);
      assert Distinct(with) by {
        forall i, j | 0 <= i < j < |with| ensures with[i] != with[j] {
          assert smaller[i] in smaller && smaller[j] in smaller;
          assert with[i] - {x} == smaller[i];
          assert with[j] - {x} == smaller[j];
        }
      }
      forall s | s in with
        ensures s !in without
      {
        var i :| 0 <= i < |with| && with[i] == s;
        assert x in s;
      }
      DistinctConcat(with, without);
    }
  }

  /** All combinations of sizes `lo` to `hi` in increasing size, as the enumeration extends its list. */
  function KSubsetsRange<T>(xs: seq<T>, lo: nat, hi: int): (r: seq<set<T>>)
    decreases hi - lo
  {
    if lo > hi then [] else KSubsets(xs, lo) + KSubsetsRange(xs, lo + 1, hi)
  }

  /** The range holds exactly the subsets whose size lies between the bounds. */
  lemma {:induction false} KSubsetsRangeMembers<T(!new)>(xs: seq<T>, lo: nat, hi: int)
    requires Distinct(xs)
    ensures forall s :: s in KSubsetsRange(xs, lo, hi) <==> s <= Elems(xs) && lo <= |s| <= hi
    decreases hi - lo
  {
    if lo <= hi {
      KSubsetsRangeMembers(xs, lo + 1, hi);
      KSubsetsSound(xs, lo);
      forall s | s <= Elems(xs) && lo <= |s| <= hi
        ensures s in KSubsetsRange(xs, lo, hi)
      {
        if |s| == lo {
          KSubsetsComplete(xs, lo, s);
        }
      }
    }
  }

  /** Each subset in the range is produced once. */
  lemma {:induction false} KSubsetsRangeDistinct<T(!new)>(xs: seq<T>, lo: nat, hi: int)
    requires Distinct(xs)
    ensures Distinct(KSubsetsRange(xs, lo, hi))
    decreases hi - lo
  {
    if lo <= hi {
      KSubsetsRangeDistinct(xs, lo + 1, hi);
      KSubsetsRangeMembers(xs, lo + 1, hi);
      KSubsetsSound(xs, lo);
      KSubsetsDistinct(xs, lo);
      DistinctConcat(KSubsets(xs, lo), KSubsetsRange(xs, lo + 1, hi));
    }
  }

  // ---------------------------------------------------------------------------
  // Cartesian product

  /** The keys of a sequence of (key, options) entries. */
  function KeysOf<K(!new), V>(entries: seq<(K, seq<V>)>): (r: set<K>)
    ensures forall k :: k in r <==> exists i | 0 <= i < |entries| :: entries[i].0 == k
  {
    set i | 0 <= i < |entries| :: entries[i].0
  }

  /** `rest` with `k` bound to `o` in every map. */
  function Prefix<K, V>(k: K, o: V, rest: seq<map<K, V>>): (r: seq<map<K, V>>)
    ensures |r| == |rest|
    ensures forall i | 0 <= i < |rest| :: r[i] == rest[i][k := o]
  {
    seq(|rest|, i requires 0 <= i < |rest| => rest[i][k := o])
  }

  /** One copy of `rest` per option of `k`, the options in order. */
  function Extend<K(!new), V(!new)>(k: K, opts: seq<V>, rest: seq<map<K, V>>): (r: seq<map<K, V>>)
    ensures forall b :: b in r <==> exists o, m | o in opts && m in rest :: b == m[k := o]
    decreases |opts|
  {
    if |opts| == 0 then []
    else
      var p := Prefix(k, opts[0], rest);
      var e := Extend(k, opts[1..], rest);
      forall b | b in p + e
        ensures exists o, m | o in opts && m in rest :: b == m[k := o]
      {
        if b in p {
          var i :| 0 <= i < |p| && p[i] == b;
          assert opts[0] in opts && rest[i] in rest && b == rest[i][k := opts[0]];
        } else {
          var o, m :| o in opts[1..] && m in rest && b == m[k := o];
          assert o in opts;
        }
      }
      forall b | exists o, m | o in opts && m in rest :: b == m[k := o]
        ensures b in p + e
      {
        var o, m :| o in opts && m in rest && b == m[k := o];
        if o == opts[0] {
          var i :| 0 <= i < |rest| && rest[i] == m;
          assert p[i] == b;
          assert b in p;
        } else {
          var j :| 0 <= j < |opts| && opts[j] == o;
          assert opts[1..][j - 1] == o;
          assert o in opts[1..] && m in rest && b == m[k := o];
          assert b in e;
        }
      }
      p + e
  }

  /**
   * `product(*options)` zipped with the keys into maps: the first entry varies
   * slowest. With no entries there is one empty map.
   */
  function Product<K(!new), V(!new)>(entries: seq<(K, seq<V>)>): (r: seq<map<K, V>>)
    decreases |entries|
  {
    if |entries| == 0 then [map[]]
    else Extend(entries[0].0, entries[0].1, Product(entries[1..]))
  }

  predicate DistinctKeys<K(==), V>(entries: seq<(K, seq<V>)>) {
    forall i, j | 0 <= i < j < |entries| :: entries[i].0 != entries[j].0
  }

  /** A map picks one option per entry. */
  predicate Picks<K(!new), V(==)>(entries: seq<(K, seq<V>)>, b: map<K, V>) {
    && b.Keys == KeysOf(entries)
    && forall i | 0 <= i < |entries| :: b[entries[i].0] in entries[i].1
  }

  lemma KeysOfCons<K(!new), V>(entries: seq<(K, seq<V>)>)
    requires |entries| > 0
    ensures KeysOf(entries) == {entries[0].0} + KeysOf(entries[1..])
  {
    var tail := entries[1..];
    forall x | x in KeysOf(entries) ensures x in {entries[0].0} + KeysOf(tail) {
      var i :| 0 <= i < |entries| && entries[i].0 == x;
      if i > 0 {
        assert tail[i - 1] == entries[i];
      }
    }
    forall x | x in KeysOf(tail) ensures x in KeysOf(entries) {
      var i :| 0 <= i < |tail| && tail[i].0 == x;
      assert entries[i + 1] == tail[i];
    }
  }

  lemma DistinctKeysTail<K(!new), V>(entries: seq<(K, seq<V>)>)
    requires DistinctKeys(entries) && |entries| > 0
    ensures DistinctKeys(entries[1..])
    ensures entries[0].0 !in KeysOf(entries[1..])
  {
    var tail := entries[1..];
    forall i, j | 0 <= i < j < |tail| ensures tail[i].0 != tail[j].0 {
      assert tail[i] == entries[i + 1] && tail[j] == entries[j + 1];
    }
    forall i | 0 <= i < |tail|
      ensures tail[i].0 != entries[0].0
    {
      assert tail[i] == entries[i + 1];
    }
  }

  /** Every map of the product picks one option per key. */
  lemma {:induction false} ProductSound<K(!new), V(!new)>(entries: seq<(K, seq<V>)>, b: map<K, V>)
    requires DistinctKeys(entries)
    requires b in Product(entries)
    ensures Picks(entries, b)
    decreases |entries|
  {
    if |entries| > 0 {
      var (k, opts) := entries[0];
      var tail := entries[1..];
      DistinctKeysTail(entries);
      KeysOfCons(entries);
      var o, m :| o in opts && m in Product(tail) && b == m[k := o];
      ProductSound(tail, m);
      forall i | 0 <= i < |entries|
        ensures b[entries[i].0] in entries[i].1
      {
        if i > 0 {
          assert entries[i] == tail[i - 1];
        }
      }
    }
  }

  /** Every map that picks one option per key is in the product. */
  lemma {:induction false} ProductComplete<K(!new), V(!new)>(entries: seq<(K, seq<V>)>, b: map<K, V>)
    requires DistinctKeys(entries)
    requires Picks(entries, b)
    ensures b in Product(entries)
    decreases |entries|
  {
    if |entries| == 0 {
      assert b == map[];
    } else {
      var k := entries[0].0;
      var m := map x | x in b && x != k :: b[x];
      PicksTail(entries, b);
      ProductComplete(entries[1..], m);
      assert b == m[k := b[k]];
    }
  }

  /** Leaving out the first key of a pick gives a pick of the remaining entries. */
  lemma PicksTail<K(!new), V(!new)>(entries: seq<(K, seq<V>)>, b: map<K, V>)
    requires DistinctKeys(entries) && |entries| > 0
    requires Picks(entries, b)
    ensures DistinctKeys(entries[1..])
    ensures Picks(entries[1..], map x | x in b && x != entries[0].0 :: b[x])
    ensures b[entries[0].0] in entries[0].1
  {
    var k := entries[0].0;
    var tail := entries[1..];
    DistinctKeysTail(entries);
    KeysOfCons(entries);
    var m := map x | x in b && x != k :: b[x];
    forall i | 0 <= i < |tail|
      ensures m[tail[i].0] in tail[i].1
    {
      assert tail[i] == entries[i + 1];
    }
  }

  /** The product holds exactly the maps that pick one option for every key. */
  lemma ProductMeaning<K(!new), V(!new)>(entries: seq<(K, seq<V>)>, b: map<K, V>)
    requires DistinctKeys(entries)
    ensures b in Product(entries) <==> Picks(entries, b)
  {
    if b in Product(entries) {
      ProductSound(entries, b);
    }
    if Picks(entries, b) {
      ProductComplete(entries, b);
    }
  }
}
