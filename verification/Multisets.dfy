/** Consolidated multisets: zero-free maps from tuples to integer weights, the
    linear operators on them, and the algebra the incremental rules rest on. */
module Multisets {
  import opened Values

  type Multiset = m: map<Tuple, int> | forall t <- m :: m[t] != 0

  function W(m: map<Tuple, int>, t: Tuple): int {
    if t in m then m[t] else 0
  }

  lemma SameWeights(a: Multiset, b: Multiset)
    requires forall t :: W(a, t) == W(b, t)
    ensures a == b
  {
    forall t | t in a.Keys + b.Keys ensures t in a && t in b && a[t] == b[t] {
      assert W(a, t) == W(b, t);
    }
    assert a.Keys == b.Keys;
  }

  // ----- finite sums -----

  ghost function Sum(keys: set<Tuple>, f: Tuple -> int): int {
    if keys == {} then 0 else
    var x :| x in keys;
    f(x) + Sum(keys - {x}, f)
  }

  lemma {:induction false} SumRemove(keys: set<Tuple>, f: Tuple -> int, x: Tuple)
    requires x in keys
    ensures Sum(keys, f) == f(x) + Sum(keys - {x}, f)
    decreases keys
  {
    var y :| y in keys && Sum(keys, f) == f(y) + Sum(keys - {y}, f);
    if x != y {
      SumRemove(keys - {y}, f, x);
      SumRemove(keys - {x}, f, y);
      assert keys - {y} - {x} == keys - {x} - {y};
    }
  }

  lemma SumInsert(keys: set<Tuple>, f: Tuple -> int, x: Tuple)
    requires x !in keys
    ensures Sum(keys + {x}, f) == Sum(keys, f) + f(x)
  {
    SumRemove(keys + {x}, f, x);
    assert keys + {x} - {x} == keys;
  }

  lemma {:induction false} SumAgree(keys: set<Tuple>, f: Tuple -> int, g: Tuple -> int)
    requires forall x <- keys :: f(x) == g(x)
    ensures Sum(keys, f) == Sum(keys, g)
  {
    if keys != {} {
      var x :| x in keys;
      SumRemove(keys, f, x);
      SumRemove(keys, g, x);
      SumAgree(keys - {x}, f, g);
    }
  }

  lemma {:induction false} SumZero(keys: set<Tuple>, f: Tuple -> int)
    requires forall x <- keys :: f(x) == 0
    ensures Sum(keys, f) == 0
  {
    if keys != {} {
      var x :| x in keys;
      SumRemove(keys, f, x);
      SumZero(keys - {x}, f);
    }
  }

  /** Summing over more keys changes nothing when the extra terms are zero. */
  lemma {:induction false} SumWiden(keys: set<Tuple>, more: set<Tuple>, f: Tuple -> int)
    requires keys <= more
    requires forall x <- more - keys :: f(x) == 0
    ensures Sum(more, f) == Sum(keys, f)
    decreases more
  {
    if more - keys == {} {
      assert forall x <- more :: x !in more - keys ==> x in keys;
      assert keys == more;
    } else {
      var x :| x in more - keys;
      SumRemove(more, f, x);
      SumWiden(keys, more - {x}, f);
    }
  }

  lemma {:induction false} SumLinear(keys: set<Tuple>, f: Tuple -> int, g: Tuple -> int, h: Tuple -> int)
    requires forall x <- keys :: h(x) == f(x) + g(x)
    ensures Sum(keys, h) == Sum(keys, f) + Sum(keys, g)
  {
    if keys != {} {
      var x :| x in keys;
      SumRemove(keys, f, x);
      SumRemove(keys, g, x);
      SumRemove(keys, h, x);
      SumLinear(keys - {x}, f, g, h);
    }
  }

  lemma {:induction false} SumNegate(keys: set<Tuple>, f: Tuple -> int, g: Tuple -> int)
    requires forall x <- keys :: g(x) == -f(x)
    ensures Sum(keys, g) == -Sum(keys, f)
  {
    if keys != {} {
      var x :| x in keys;
      SumRemove(keys, f, x);
      SumRemove(keys, g, x);
      SumNegate(keys - {x}, f, g);
    }
  }

  /** A sum of non-negative terms is positive exactly when some term is. */
  lemma {:induction false} SumPositive(keys: set<Tuple>, f: Tuple -> int)
    requires forall x <- keys :: f(x) >= 0
    ensures Sum(keys, f) >= 0
    ensures Sum(keys, f) > 0 <==> exists x <- keys :: f(x) > 0
  {
    if keys != {} {
      var x :| x in keys;
      SumRemove(keys, f, x);
      SumPositive(keys - {x}, f);
      if exists y <- keys :: f(y) > 0 {
        var y :| y in keys && f(y) > 0;
        assert y == x || y in keys - {x};
      }
    }
  }

  // ----- the group of multisets -----

  function Plus(a: Multiset, b: Multiset): (c: Multiset)
    ensures forall t :: W(c, t) == W(a, t) + W(b, t)
  {
    map t | t in a.Keys + b.Keys && W(a, t) + W(b, t) != 0 :: W(a, t) + W(b, t)
  }

  function Negated(a: Multiset): (c: Multiset)
    ensures forall t :: W(c, t) == -W(a, t)
  {
    map t | t in a :: -a[t]
  }

  /** `new - old`: the signed rows that turn `old` into `new`. */
  function Minus(a: Multiset, b: Multiset): (c: Multiset)
    ensures forall t :: W(c, t) == W(a, t) - W(b, t)
  {
    Plus(a, Negated(b))
  }

  /** The rows a predicate keeps. */
  function Keep(a: Multiset, p: Tuple -> bool): (c: Multiset)
    ensures forall t :: W(c, t) == if p(t) then W(a, t) else 0
  {
    map t | t in a && p(t) :: a[t]
  }

  /** Weight 1 for every tuple of positive weight. */
  function DistinctOf(a: Multiset): (c: Multiset)
    ensures forall t :: W(c, t) == if W(a, t) > 0 then 1 else 0
  {
    map t | t in a && a[t] > 0 :: 1
  }

  // ----- the linear operator -----

  /** A product of weights, kept behind a name so that the sums below reason
      about it only through `TimesLaws`. */
  function Times(x: int, y: int): int {
    x * y
  }

  lemma TimesLaws(x: int, y: int, z: int)
    ensures Times(x + y, z) == Times(x, z) + Times(y, z)
    ensures Times(z, x + y) == Times(z, x) + Times(z, y)
    ensures Times(-x, z) == -Times(x, z)
    ensures Times(0, z) == 0 && Times(z, 0) == 0 && Times(1, z) == z && Times(z, 1) == z
    ensures x > 0 && z > 0 ==> Times(x, z) > 0
  {
  }

  /** The weight of `t` when each row `x` of `m` is replaced by the multiset `k(x)`. */
  ghost function SpreadWeight(m: Multiset, k: Tuple -> Multiset, t: Tuple): int {
    Sum(m.Keys, x => Times(W(m, x), W(k(x), t)))
  }

  /** Replace every row `x` of `m` by `k(x)`, weights multiplying, equal rows summed. */
  ghost function Spread(m: Multiset, k: Tuple -> Multiset): (c: Multiset)
    ensures forall t :: W(c, t) == SpreadWeight(m, k, t)
  {
    var support := set x, t | x in m && t in k(x) :: t;
    forall t | t !in support ensures SpreadWeight(m, k, t) == 0 {
      SumZero(m.Keys, x => Times(W(m, x), W(k(x), t)));
    }
    map t | t in support && SpreadWeight(m, k, t) != 0 :: SpreadWeight(m, k, t)
  }

  /** The weights may be summed over more rows than there are. */
  lemma SpreadOver(m: Multiset, keys: set<Tuple>, k: Tuple -> Multiset, t: Tuple)
    requires m.Keys <= keys
    ensures SpreadWeight(m, k, t) == Sum(keys, x => Times(W(m, x), W(k(x), t)))
  {
    hide Times;
    var f := x => Times(W(m, x), W(k(x), t));
    forall x | x !in m ensures f(x) == 0 {
      TimesLaws(0, 0, W(k(x), t));
    }
    SumWiden(m.Keys, keys, f);
  }

  lemma SpreadPlusAt(a: Multiset, b: Multiset, k: Tuple -> Multiset, t: Tuple)
    ensures SpreadWeight(Plus(a, b), k, t) == SpreadWeight(a, k, t) + SpreadWeight(b, k, t)
  {
    hide Times, Plus, SpreadWeight, Sum;
    var c := Plus(a, b);
    var keys := a.Keys + b.Keys;
    assert forall x <- c.Keys :: W(c, x) == W(a, x) + W(b, x) != 0;
    SpreadOver(a, keys, k, t);
    SpreadOver(b, keys, k, t);
    SpreadOver(c, keys, k, t);
    var f := x => Times(W(a, x), W(k(x), t));
    var g := x => Times(W(b, x), W(k(x), t));
    var h := x => Times(W(c, x), W(k(x), t));
    forall x | x in keys ensures h(x) == f(x) + g(x) {
      assert W(c, x) == W(a, x) + W(b, x);
      TimesLaws(W(a, x), W(b, x), W(k(x), t));
    }
    SumLinear(keys, f, g, h);
  }

  lemma SpreadPlus(a: Multiset, b: Multiset, k: Tuple -> Multiset)
    ensures Spread(Plus(a, b), k) == Plus(Spread(a, k), Spread(b, k))
  {
    forall t ensures W(Spread(Plus(a, b), k), t) == W(Plus(Spread(a, k), Spread(b, k)), t) {
      SpreadPlusAt(a, b, k, t);
    }
    SameWeights(Spread(Plus(a, b), k), Plus(Spread(a, k), Spread(b, k)));
  }


  lemma SpreadNegatedAt(a: Multiset, k: Tuple -> Multiset, t: Tuple)
    ensures SpreadWeight(Negated(a), k, t) == -SpreadWeight(a, k, t)
  {
    hide Times;
    var f := x => Times(W(a, x), W(k(x), t));
    var g := x => Times(W(Negated(a), x), W(k(x), t));
    assert Negated(a).Keys == a.Keys;
    forall x | x in a.Keys ensures g(x) == -f(x) {
      TimesLaws(W(a, x), 0, W(k(x), t));
    }
    SumNegate(a.Keys, f, g);
  }

  lemma SpreadNegated(a: Multiset, k: Tuple -> Multiset)
    ensures Spread(Negated(a), k) == Negated(Spread(a, k))
  {
    forall t ensures W(Spread(Negated(a), k), t) == W(Negated(Spread(a, k)), t) {
      SpreadNegatedAt(a, k, t);
    }
    SameWeights(Spread(Negated(a), k), Negated(Spread(a, k)));
  }

  /** Operators that replace rows one by one push differences straight through. */
  lemma SpreadMinus(a: Multiset, b: Multiset, k: Tuple -> Multiset)
    ensures Spread(Minus(a, b), k) == Minus(Spread(a, k), Spread(b, k))
  {
    SpreadPlus(a, Negated(b), k);
    SpreadNegated(b, k);
  }

  lemma SpreadKernelMinusAt(m: Multiset, k: Tuple -> Multiset, j: Tuple -> Multiset, d: Tuple -> Multiset, t: Tuple)
    requires forall x <- m :: d(x) == Minus(k(x), j(x))
    ensures SpreadWeight(m, d, t) == SpreadWeight(m, k, t) - SpreadWeight(m, j, t)
  {
    hide Times, Minus;
    var f := x => Times(W(m, x), W(d(x), t));
    var g := x => Times(W(m, x), W(j(x), t));
    var h := x => Times(W(m, x), W(k(x), t));
    forall x | x in m.Keys ensures h(x) == f(x) + g(x) {
      TimesLaws(W(d(x), t), W(j(x), t), W(m, x));
    }
    SumLinear(m.Keys, f, g, h);
  }

  /** Linearity in what each row is replaced by. */
  lemma SpreadKernelMinus(m: Multiset, k: Tuple -> Multiset, j: Tuple -> Multiset, d: Tuple -> Multiset)
    requires forall x <- m :: d(x) == Minus(k(x), j(x))
    ensures Spread(m, d) == Minus(Spread(m, k), Spread(m, j))
  {
    hide Spread, SpreadWeight, Minus;
    forall t ensures W(Spread(m, d), t) == W(Minus(Spread(m, k), Spread(m, j)), t) {
      SpreadKernelMinusAt(m, k, j, d, t);
    }
    SameWeights(Spread(m, d), Minus(Spread(m, k), Spread(m, j)));
  }

  lemma SpreadAgree(m: Multiset, k: Tuple -> Multiset, j: Tuple -> Multiset)
    requires forall x <- m :: k(x) == j(x)
    ensures Spread(m, k) == Spread(m, j)
  {
    forall t ensures W(Spread(m, k), t) == W(Spread(m, j), t) {
      SumAgree(m.Keys, x => Times(W(m, x), W(k(x), t)), x => Times(W(m, x), W(j(x), t)));
    }
    SameWeights(Spread(m, k), Spread(m, j));
  }

  /** Replacing each row by at most one row. */
  ghost function Image(m: Multiset, g: Tuple -> Option<Tuple>): Multiset {
    Spread(m, Single(g))
  }

  function Single(g: Tuple -> Option<Tuple>): Tuple -> Multiset {
    x => match g(x) case None => map[] case Some(t) => map[t := 1]
  }

  lemma SingleWeight(g: Tuple -> Option<Tuple>, x: Tuple, t: Tuple, w: int)
    ensures Times(w, W(Single(g)(x), t)) == if g(x) == Some(t) then w else 0
  {
    TimesLaws(w, 0, w);
  }

  /** Non-negative inputs give non-negative outputs, supported exactly where some row lands. */
  lemma SpreadSupport(m: Multiset, k: Tuple -> Multiset, t: Tuple)
    requires forall x <- m :: m[x] > 0
    requires forall x <- m, y <- k(x) :: k(x)[y] > 0
    ensures W(Spread(m, k), t) >= 0
    ensures t in Spread(m, k) <==> exists x <- m :: t in k(x)
  {
    var f := x => Times(W(m, x), W(k(x), t));
    forall x | x in m ensures f(x) >= 0 && (f(x) > 0 <==> t in k(x)) {
      if t in k(x) {
        TimesLaws(m[x], 0, k(x)[t]);
      }
    }
    SumPositive(m.Keys, f);
    assert W(Spread(m, k), t) == Sum(m.Keys, f);
  }


  lemma {:induction false} SumScale(keys: set<Tuple>, f: Tuple -> int, g: Tuple -> int, c: int)
    requires forall x <- keys :: g(x) == Times(c, f(x))
    ensures Sum(keys, g) == Times(c, Sum(keys, f))
  {
    if keys != {} {
      var x :| x in keys;
      SumRemove(keys, f, x);
      SumRemove(keys, g, x);
      SumScale(keys - {x}, f, g, c);
    }
  }

  // ----- updating a weighted map in place -----

  /** `acc` with `diff` added at `t`. A weight that cancels to zero stays as an
      entry until `StripZeros` drops it. */
  function Add(acc: map<Tuple, int>, t: Tuple, diff: int): (out: map<Tuple, int>)
    ensures forall u :: W(out, u) == W(acc, u) + if u == t then diff else 0
  {
    if diff == 0 then acc else acc[t := W(acc, t) + diff]
  }

  function StripZeros(acc: map<Tuple, int>): (m: Multiset)
    ensures forall u :: W(m, u) == W(acc, u)
  {
    map t | t in acc && acc[t] != 0 :: acc[t]
  }

  /** The entry-by-entry total of a list of weighted rows. */
  function Tally(pairs: seq<(Tuple, int)>): Multiset {
    if pairs == [] then map[] else
    Plus(Tally(pairs[..|pairs| - 1]), One(pairs[|pairs| - 1].0, pairs[|pairs| - 1].1))
  }

  function One(t: Tuple, diff: int): (m: Multiset)
    ensures forall u :: W(m, u) == if u == t then diff else 0
  {
    if diff == 0 then map[] else map[t := diff]
  }

  method FromPairs(pairs: seq<(Tuple, int)>) returns (m: Multiset)
    ensures m == Tally(pairs)
  {
    var acc: map<Tuple, int> := map[];
    for i := 0 to |pairs|
      invariant forall u :: W(acc, u) == W(Tally(pairs[..i]), u)
    {
      assert pairs[..i + 1][..i] == pairs[..i];
      acc := Add(acc, pairs[i].0, pairs[i].1);
    }
    assert pairs[..|pairs|] == pairs;
    m := StripZeros(acc);
    SameWeights(m, Tally(pairs));
  }
}
