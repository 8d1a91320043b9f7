/**
 * Python's `collections.Counter` on string keys, as the quantity model uses it.
 *
 * A counter is a finite map from item type to a signed integer. A key may be
 * present with value zero or below; reading a missing key gives 0. Each
 * operation below is written the way CPython computes it (iterate over the
 * left operand, then over the keys only the right operand has), and a lemma
 * next to it states its meaning pointwise, through `Get`, so that the sign
 * rules are explicit.
 */
module Counters {

  type Counter = map<string, int>

  /** `c[k]`: a missing key reads as 0. */
  function Get(c: Counter, k: string): int {
    if k in c then c[k] else 0
  }

  function Max(a: int, b: int): int {
    if a < b then b else a
  }

  function Min(a: int, b: int): int {
    if a < b then a else b
  }

  /** `c.update(d)`: adds every entry of `d`, signed, keeping zero and negative results. */
  function Update(c: Counter, d: Counter): (r: Counter)
    ensures r.Keys == c.Keys + d.Keys
  {
    (map k | k in c && k !in d :: c[k]) + (map k | k in d :: Get(c, k) + d[k])
  }

  /** `c.subtract(d)`: subtracts every entry of `d`, signed. */
  function Subtract(c: Counter, d: Counter): (r: Counter)
    ensures r.Keys == c.Keys + d.Keys
  {
    (map k | k in c && k !in d :: c[k]) + (map k | k in d :: Get(c, k) - d[k])
  }

  /** Binary `c - d`: keeps only positive differences. */
  function Minus(c: Counter, d: Counter): Counter {
    (map k | k in c && c[k] - Get(d, k) > 0 :: c[k] - Get(d, k))
    + (map k | k in d && k !in c && d[k] < 0 :: 0 - d[k])
  }

  /** Unary `+c`: the positive entries. */
  function Pos(c: Counter): Counter {
    map k | k in c && c[k] > 0 :: c[k]
  }

  /** Unary `-c`: the negated negative entries. */
  function Neg(c: Counter): Counter {
    map k | k in c && c[k] < 0 :: 0 - c[k]
  }

  /** `c | d`: per-key maximum, keeping only positive results. */
  function Union(c: Counter, d: Counter): Counter {
    (map k | k in c && Max(c[k], Get(d, k)) > 0 :: Max(c[k], Get(d, k)))
    + (map k | k in d && k !in c && d[k] > 0 :: d[k])
  }

  /** `c <= d`: compares every key of either operand, missing keys read as 0. */
  predicate Le(c: Counter, d: Counter) {
    forall k | k in c.Keys + d.Keys :: Get(c, k) <= Get(d, k)
  }

  /** `Counter({k: c[k] for k in s & set(c)})`: restriction of `c` to the item types `s`. */
  function Project(c: Counter, s: set<string>): (r: Counter)
    ensures r.Keys == s * c.Keys
    ensures forall k | k in r :: r[k] == c[k]
  {
    map k | k in s && k in c :: c[k]
  }

  // ---------------------------------------------------------------------------
  // Pointwise meaning of each operation

  lemma UpdateMeaning(c: Counter, d: Counter)
    ensures forall k :: Get(Update(c, d), k) == Get(c, k) + Get(d, k)
  {
  }

  lemma SubtractMeaning(c: Counter, d: Counter)
    ensures forall k :: Get(Subtract(c, d), k) == Get(c, k) - Get(d, k)
  {
  }

  /** Subtracting what was just added gives back every value. */
  lemma UpdateThenSubtract(c: Counter, d: Counter)
    ensures forall k :: Get(Subtract(Update(c, d), d), k) == Get(c, k)
    ensures Subtract(Update(c, d), d).Keys == c.Keys + d.Keys
  {
  }

  lemma MinusMeaning(c: Counter, d: Counter)
    ensures forall k :: k in Minus(c, d) <==> Get(c, k) > Get(d, k)
    ensures forall k | k in Minus(c, d) :: Minus(c, d)[k] == Get(c, k) - Get(d, k)
  {
  }

  lemma PosMeaning(c: Counter)
    ensures forall k :: k in Pos(c) <==> Get(c, k) > 0
    ensures forall k :: Get(Pos(c), k) == Max(Get(c, k), 0)
  {
  }

  lemma NegMeaning(c: Counter)
    ensures forall k :: k in Neg(c) <==> Get(c, k) < 0
    ensures forall k :: Get(Neg(c), k) == Max(0 - Get(c, k), 0)
  {
  }

  lemma UnionMeaning(c: Counter, d: Counter)
    ensures forall k :: k in Union(c, d) <==> Max(Get(c, k), Get(d, k)) > 0
    ensures forall k :: Get(Union(c, d), k) == Max(Max(Get(c, k), Get(d, k)), 0)
  {
  }

  /** `c <= d` holds exactly when every item type, present or not, compares. */
  lemma LeMeaning(c: Counter, d: Counter)
    ensures Le(c, d) <==> forall k :: Get(c, k) <= Get(d, k)
  {
    if Le(c, d) {
      forall k ensures Get(c, k) <= Get(d, k) {
        if k !in c.Keys + d.Keys {
          assert Get(c, k) == 0 && Get(d, k) == 0;
        }
      }
    }
  }

  /** Unary minus is the positive part of the negated counter. */
  lemma NegIsPosOfNegation(c: Counter)
    ensures Neg(c) == Pos(map k | k in c :: 0 - c[k])
  {
  }
}
