/** Secondary orderings: the same facts keyed by another column first. */
module Arrangements {
  import opened Values
  import opened Multisets

  /** `t` with column `col` in front, or none when it has no such column. */
  function Rotate(t: Tuple, col: nat): Option<Tuple> {
    if col >= |t| then None else if col == 0 then Some(t) else Some([t[col]] + t[..col] + t[col + 1..])
  }

  function Unrotate(k: Tuple, col: nat): Tuple {
    if col == 0 || col >= |k| then k else k[1..col + 1] + [k[0]] + k[col + 1..]
  }

  /** Rotation is undone, both ways: it loses nothing and mixes nothing up. */
  lemma RotateRoundTrip(t: Tuple, col: nat)
    ensures Rotate(t, col).Some? ==> Unrotate(Rotate(t, col).value, col) == t && |Rotate(t, col).value| == |t|
    ensures col < |t| ==> Rotate(Unrotate(t, col), col) == Some(t)
  {
    if 0 < col < |t| {
      var k, u := [t[col]] + t[..col] + t[col + 1..], t[1..col + 1] + [t[0]] + t[col + 1..];
      assert Unrotate(k, col) == t;
      assert [u[col]] + u[..col] + u[col + 1..] == t;
    }
  }

  lemma RotateInjective(t: Tuple, u: Tuple, col: nat)
    requires Rotate(t, col).Some? && Rotate(t, col) == Rotate(u, col)
    ensures t == u
  {
    RotateRoundTrip(t, col);
    RotateRoundTrip(u, col);
  }

  /** The facts that have the column, keyed by it first. */
  ghost function Arranged(m: Multiset, col: nat): (r: Multiset)
    ensures forall k :: W(r, k) == if col < |k| then W(m, Unrotate(k, col)) else 0
  {
    var keys := set t | t in m && col < |t| :: Rotate(t, col).value;
    forall k ensures k in keys <==> col < |k| && Unrotate(k, col) in m {
      RotateRoundTrip(k, col);
      RotateRoundTrip(Unrotate(k, col), col);
      if k in keys {
        var t :| t in m && col < |t| && k == Rotate(t, col).value;
        RotateRoundTrip(t, col);
      }
    }
    map k | k in keys :: m[Unrotate(k, col)]
  }

  /** A list of rows turned back. */
  ghost function Unarranged(m: Multiset, col: nat): (r: Multiset)
    ensures forall t :: W(r, t) == if col < |t| then W(m, Rotate(t, col).value) else 0
  {
    var rows := set k | k in m && col < |k| :: Unrotate(k, col);
    forall t ensures t in rows <==> col < |t| && Rotate(t, col).value in m {
      RotateRoundTrip(t, col);
      if t in rows {
        var k :| k in m && col < |k| && t == Unrotate(k, col);
        RotateRoundTrip(k, col);
      }
    }
    map t | t in rows :: m[Rotate(t, col).value]
  }

  /** A one-column span on the front of a key is a span of its first cell. */
  lemma LeadRange(k: Tuple, lo: Value, hi: Value)
    ensures InRange(k, [lo], [hi]) <==> k != [] && ValueLeq(lo, k[0]) && ValueLess(k[0], hi)
  {
    assert [lo][1..] == [] && [hi][1..] == [];
    if k != [] {
      assert k == [k[0]] + k[1..];
      assert !Less(k[1..], []);
      assert k[1..] == [] || Less([], k[1..]);
    }
  }

  /** The value right after another, for the kinds that have one. */
  function Successor(v: Value): Option<Value> {
    match v case Ent(id) => Some(Ent(id + 1)) case Int(n) => Some(Int(n + 1)) case Other(_) => None
  }

  /** Between a value and its successor there is only the value. */
  lemma SuccessorSpan(k: Value, v: Value)
    requires Successor(k).Some?
    ensures ValueLeq(k, v) && ValueLess(v, Successor(k).value) <==> v == k
  {
  }

  /** A fact's column lies in a span. */
  predicate ColumnIn(t: Tuple, col: nat, lo: Value, hi: Value) {
    col < |t| && ValueLeq(lo, t[col]) && ValueLess(t[col], hi)
  }

  /** The rows of a span of an ordering, turned back, are the facts whose column lies
      in it: the same rows that reading everything and filtering would give. */
  lemma ArrangedRange(m: Multiset, col: nat, lo: Value, hi: Value)
    ensures Unarranged(Keep(Arranged(m, col), k => InRange(k, [lo], [hi])), col) ==
      Keep(m, t => ColumnIn(t, col, lo, hi))
  {
    hide Keep, Arranged, Unarranged;
    var a, b := Unarranged(Keep(Arranged(m, col), k => InRange(k, [lo], [hi])), col),
      Keep(m, t => ColumnIn(t, col, lo, hi));
    forall t ensures W(a, t) == W(b, t) {
      if col < |t| {
        var k := Rotate(t, col).value;
        RotateRoundTrip(t, col);
        LeadRange(k, lo, hi);
      }
    }
    SameWeights(a, b);
  }

  /** One fact's new weight, in the primary order and in an ordering of it. */
  lemma ArrangedUpdate(m: Multiset, m': Multiset, col: nat, t: Tuple, net: int)
    requires forall u :: W(m', u) == if u == t then net else W(m, u)
    ensures Rotate(t, col).None? ==> Arranged(m', col) == Arranged(m, col)
    ensures Rotate(t, col).Some? ==>
      forall k :: W(Arranged(m', col), k) == if k == Rotate(t, col).value then net else W(Arranged(m, col), k)
  {
    hide Arranged;
    RotateRoundTrip(t, col);
    forall k ensures W(Arranged(m', col), k) == if Rotate(t, col) == Some(k) then net else W(Arranged(m, col), k) {
      RotateRoundTrip(k, col);
      if col < |k| && Unrotate(k, col) == t {
        assert Rotate(t, col) == Some(k);
      }
    }
    if Rotate(t, col).None? {
      SameWeights(Arranged(m', col), Arranged(m, col));
    }
  }
}
