/** How the linear operators meet differences: composition, joins, and the parts
    of a multiset an operator never looks at. */
module LinearLaws {
  import opened Values
  import opened Multisets
  import opened Plans

  // ----- one row at a time -----

  lemma ImageOne(x: Tuple, w: int, g: Tuple -> Option<Tuple>)
    ensures Image(One(x, w), g) == match g(x) case None => map[] case Some(y) => One(y, w)
  {
    var r: Multiset := match g(x) case None => map[] case Some(y) => One(y, w);
    forall t ensures W(Image(One(x, w), g), t) == W(r, t) {
      var f := z => Times(W(One(x, w), z), W(Single(g)(z), t));
      if w == 0 {
        SumZero(One(x, w).Keys, f);
      } else {
        SumRemove({x}, f, x);
        assert One(x, w).Keys == {x};
        SingleWeight(g, x, t, w);
      }
    }
    SameWeights(Image(One(x, w), g), r);
  }

  /** A non-empty multiset is a smaller one plus one of its rows. */
  lemma Decompose(m: Multiset, x: Tuple) returns (rest: Multiset)
    requires x in m
    ensures m == Plus(rest, One(x, m[x])) && rest.Keys == m.Keys - {x}
    ensures forall y <- rest :: rest[y] == m[y]
  {
    rest := map y | y in m && y != x :: m[y];
    SameWeights(m, Plus(rest, One(x, m[x])));
  }

  lemma ImagePlus(a: Multiset, b: Multiset, g: Tuple -> Option<Tuple>)
    ensures Image(Plus(a, b), g) == Plus(Image(a, g), Image(b, g))
  {
    SpreadPlus(a, b, Single(g));
  }

  lemma ImageMinus(a: Multiset, b: Multiset, g: Tuple -> Option<Tuple>)
    ensures Image(Minus(a, b), g) == Minus(Image(a, g), Image(b, g))
  {
    SpreadMinus(a, b, Single(g));
  }

  lemma ImageEmpty(g: Tuple -> Option<Tuple>)
    ensures Image(map[], g) == map[]
  {
    var e: Multiset := map[];
    forall t ensures W(Image(e, g), t) == 0 {
      SumZero({}, z => Times(W(e, z), W(Single(g)(z), t)));
    }
    SameWeights(Image(e, g), e);
  }

  /** Two row-by-row steps are one. */
  lemma {:induction false} ImageCompose(m: Multiset, g: Tuple -> Option<Tuple>, h: Tuple -> Option<Tuple>,
                                        gh: Tuple -> Option<Tuple>)
    requires forall x :: gh(x) == match g(x) case None => None case Some(y) => h(y)
    ensures Image(Image(m, g), h) == Image(m, gh)
    decreases m.Keys
  {
    hide Image;
    if m.Keys == {} {
      ImageEmpty(g);
      ImageEmpty(h);
      ImageEmpty(gh);
    } else {
      var x :| x in m;
      var rest := Decompose(m, x);
      var one := One(x, m[x]);
      ImageCompose(rest, g, h, gh);
      ImagePlus(rest, one, g);
      ImagePlus(Image(rest, g), Image(one, g), h);
      ImagePlus(rest, one, gh);
      ImageOne(x, m[x], g);
      ImageOne(x, m[x], gh);
      match g(x) {
        case None => ImageEmpty(h);
        case Some(y) => ImageOne(y, m[x], h);
      }
    }
  }

  function Sifter(p: Tuple -> bool): Tuple -> Option<Tuple> {
    t => if p(t) then Some(t) else None
  }

  lemma {:induction false} KeepIsImage(m: Multiset, p: Tuple -> bool)
    ensures Keep(m, p) == Image(m, Sifter(p))
    decreases m.Keys
  {
    hide Image;
    if m.Keys == {} {
      ImageEmpty(Sifter(p));
    } else {
      var x :| x in m;
      var rest := Decompose(m, x);
      KeepIsImage(rest, p);
      ImagePlus(rest, One(x, m[x]), Sifter(p));
      ImageOne(x, m[x], Sifter(p));
      SameWeights(Keep(m, p), Plus(Keep(rest, p), if p(x) then One(x, m[x]) else map[]));
    }
  }

  lemma KeepMinus(a: Multiset, b: Multiset, p: Tuple -> bool)
    ensures Keep(Minus(a, b), p) == Minus(Keep(a, p), Keep(b, p))
  {
    SameWeights(Keep(Minus(a, b), p), Minus(Keep(a, p), Keep(b, p)));
  }

  // ----- weights of an image -----

  /** A row of an image comes from some row. */
  lemma ImageSource(m: Multiset, g: Tuple -> Option<Tuple>, t: Tuple)
    requires t in Image(m, g)
    ensures exists x <- m :: g(x) == Some(t)
  {
    if forall x <- m :: g(x) != Some(t) {
      var f := x => Times(W(m, x), W(Single(g)(x), t));
      forall x | x in m ensures f(x) == 0 {
        SingleWeight(g, x, t, m[x]);
      }
      SumZero(m.Keys, f);
      assert false;
    }
  }

  /** If two inputs agree on every row that lands on `t`, so do their images at `t`. */
  lemma ImageAgree(a: Multiset, b: Multiset, g: Tuple -> Option<Tuple>, t: Tuple)
    requires forall x :: g(x) == Some(t) ==> W(a, x) == W(b, x)
    ensures W(Image(a, g), t) == W(Image(b, g), t)
  {
    hide Image, Minus;
    var d := Minus(a, b);
    ImageMinus(a, b, g);
    if t in Image(d, g) {
      ImageSource(d, g, t);
    }
  }

  /** Restricting the input to rows that cover everything landing where `p` holds. */
  lemma ImageRestrict(m: Multiset, g: Tuple -> Option<Tuple>, keep: Tuple -> bool, p: Tuple -> bool)
    requires forall x <- m :: g(x).Some? && p(g(x).value) ==> keep(x)
    ensures Keep(Image(Keep(m, keep), g), p) == Keep(Image(m, g), p)
  {
    forall t ensures W(Keep(Image(Keep(m, keep), g), p), t) == W(Keep(Image(m, g), p), t) {
      if p(t) {
        ImageAgree(Keep(m, keep), m, g, t);
      }
    }
    SameWeights(Keep(Image(Keep(m, keep), g), p), Keep(Image(m, g), p));
  }

  // ----- join -----

  lemma JoinMinusLeft(a: Multiset, b: Multiset, lk: seq<nat>, c: Multiset, rk: seq<nat>)
    ensures JoinOf(Minus(a, b), lk, c, rk) == Minus(JoinOf(a, lk, c, rk), JoinOf(b, lk, c, rk))
  {
    SpreadMinus(a, b, Matches(c, lk, rk));
  }

  lemma JoinMinusRight(a: Multiset, lk: seq<nat>, b: Multiset, c: Multiset, rk: seq<nat>)
    ensures JoinOf(a, lk, Minus(b, c), rk) == Minus(JoinOf(a, lk, b, rk), JoinOf(a, lk, c, rk))
  {
    var d := Matches(Minus(b, c), lk, rk);
    forall x | x in a ensures d(x) == Minus(Matches(b, lk, rk)(x), Matches(c, lk, rk)(x)) {
      ImageMinus(b, c, Pairing(x, lk, rk));
    }
    SpreadKernelMinus(a, Matches(b, lk, rk), Matches(c, lk, rk), d);
  }

  /** Rows of the right side that match nothing on the left do not matter. */
  lemma JoinRestrictRight(a: Multiset, lk: seq<nat>, b: Multiset, rk: seq<nat>, p: Tuple -> bool)
    requires forall x <- a, y <- b :: KeysMatch(x, lk, y, rk) ==> p(y)
    ensures JoinOf(a, lk, Keep(b, p), rk) == JoinOf(a, lk, b, rk)
  {
    forall x | x in a ensures Matches(Keep(b, p), lk, rk)(x) == Matches(b, lk, rk)(x) {
      var g := Pairing(x, lk, rk);
      forall t ensures W(Image(Keep(b, p), g), t) == W(Image(b, g), t) {
        ImageAgree(Keep(b, p), b, g, t);
      }
      SameWeights(Image(Keep(b, p), g), Image(b, g));
    }
    SpreadAgree(a, Matches(Keep(b, p), lk, rk), Matches(b, lk, rk));
  }

  lemma JoinEmptyLeft(lk: seq<nat>, b: Multiset, rk: seq<nat>)
    ensures JoinOf(map[], lk, b, rk) == map[]
  {
    var e: Multiset := map[];
    var k := Matches(b, lk, rk);
    forall t ensures W(Spread(e, k), t) == 0 {
      SumZero({}, z => Times(W(e, z), W(k(z), t)));
    }
    SameWeights(Spread(e, k), e);
  }

  lemma JoinNoMatch(a: Multiset, lk: seq<nat>, b: Multiset, rk: seq<nat>)
    requires forall x <- a, y <- b :: !KeysMatch(x, lk, y, rk)
    ensures JoinOf(a, lk, b, rk) == map[]
  {
    forall x | x in a ensures Matches(b, lk, rk)(x) == Matches(map[], lk, rk)(x) {
      var g := Pairing(x, lk, rk);
      forall t ensures W(Image(b, g), t) == 0 {
        if t in Image(b, g) {
          ImageSource(b, g, t);
        }
      }
      ImageEmpty(g);
      SameWeights(Image(b, g), map[]);
    }
    SpreadAgree(a, Matches(b, lk, rk), Matches(map[], lk, rk));
    JoinEmptyRight(a, lk, rk);
  }

  /** Rows of the left side that match nothing on the right do not matter. */
  lemma JoinRestrictLeft(a: Multiset, lk: seq<nat>, b: Multiset, rk: seq<nat>, p: Tuple -> bool)
    requires forall x <- a, y <- b :: KeysMatch(x, lk, y, rk) ==> p(x)
    ensures JoinOf(Keep(a, p), lk, b, rk) == JoinOf(a, lk, b, rk)
  {
    hide JoinOf;
    var rest := Minus(a, Keep(a, p));
    forall x | x in rest ensures x in a && !p(x) {
      assert W(rest, x) != 0;
    }
    JoinMinusLeft(a, Keep(a, p), lk, b, rk);
    JoinNoMatch(rest, lk, b, rk);
    SameWeights(JoinOf(Keep(a, p), lk, b, rk), JoinOf(a, lk, b, rk));
  }

  lemma JoinEmptyRight(a: Multiset, lk: seq<nat>, rk: seq<nat>)
    ensures JoinOf(a, lk, map[], rk) == map[]
  {
    hide JoinOf;
    var e: Multiset := map[];
    JoinMinusRight(a, lk, e, e, rk);
    SelfMinus(e);
    SelfMinus(JoinOf(a, lk, e, rk));
  }

  lemma SelfMinus(a: Multiset)
    ensures Minus(a, a) == map[]
  {
    SameWeights(Minus(a, a), map[]);
  }

  /** The three-term rule: with both unchanged sides read at the new edition, the
      product of the deltas is counted twice and taken back once. */
  lemma JoinDifference(a0: Multiset, a1: Multiset, da: Multiset, lk: seq<nat>, b0: Multiset, b1: Multiset, db: Multiset,
                       rk: seq<nat>)
    requires da == Minus(a1, a0) && db == Minus(b1, b0)
    ensures Minus(Plus(JoinOf(da, lk, b1, rk), JoinOf(a1, lk, db, rk)), JoinOf(da, lk, db, rk))
         == Minus(JoinOf(a1, lk, b1, rk), JoinOf(a0, lk, b0, rk))
  {
    hide JoinOf;
    JoinMinusLeft(a1, a0, lk, b1, rk);
    JoinMinusRight(a1, lk, b1, b0, rk);
    JoinMinusRight(da, lk, b1, b0, rk);
    JoinMinusLeft(a1, a0, lk, b0, rk);
    SameWeights(Minus(Plus(JoinOf(da, lk, b1, rk), JoinOf(a1, lk, db, rk)), JoinOf(da, lk, db, rk)),
                Minus(JoinOf(a1, lk, b1, rk), JoinOf(a0, lk, b0, rk)));
  }
}
