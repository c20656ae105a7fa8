/** Displacements of the key space: every entity cell of a key moves together. */
module Displacements {
  import opened Values

  function ShiftValue(v: Value, d: int): Value {
    match v case Ent(id) => Ent(id + d) case _ => v
  }

  /** `k` moved by `d`. Ids are unbounded here, so no shift wraps. */
  function Shift(k: Tuple, d: int): (r: Tuple)
    ensures |r| == |k|
  {
    if k == [] then [] else [ShiftValue(k[0], d)] + Shift(k[1..], d)
  }

  lemma {:induction false} ShiftZero(k: Tuple)
    ensures Shift(k, 0) == k
  {
    if k != [] {
      ShiftZero(k[1..]);
    }
  }

  lemma {:induction false} ShiftAdd(k: Tuple, a: int, b: int)
    ensures Shift(Shift(k, a), b) == Shift(k, a + b)
  {
    if k != [] {
      ShiftAdd(k[1..], a, b);
      assert Shift(k, a)[1..] == Shift(k[1..], a);
    }
  }

  /** A displacement keeps the order of keys, both ways. */
  lemma {:induction false} ShiftOrder(a: Tuple, b: Tuple, d: int)
    ensures Less(Shift(a, d), Shift(b, d)) <==> Less(a, b)
    ensures Shift(a, d) == Shift(b, d) <==> a == b
  {
    if a != [] && b != [] {
      ShiftOrder(a[1..], b[1..], d);
      assert Shift(a, d)[1..] == Shift(a[1..], d) && Shift(b, d)[1..] == Shift(b[1..], d);
      assert a == [a[0]] + a[1..] && b == [b[0]] + b[1..];
      assert Shift(a, d) == [Shift(a, d)[0]] + Shift(a, d)[1..];
      assert Shift(b, d) == [Shift(b, d)[0]] + Shift(b, d)[1..];
    }
  }

  datatype Ordering = Lesser | Same | Greater

  function Cmp(a: Tuple, b: Tuple): Ordering {
    if a == b then Same else if Less(a, b) then Lesser else Greater
  }

  function CmpValue(a: Value, b: Value): Ordering {
    if a == b then Same else if ValueLess(a, b) then Lesser else Greater
  }

  /** How a stored key, moved by `d`, compares with `other`: cell by cell, without
      building the moved key. */
  function CmpDisplaced(k: Tuple, d: int, other: Tuple): Ordering {
    if k == [] || other == [] then
      if |k| < |other| then Lesser else if |k| == |other| then Same else Greater
    else
      var o := match (k[0], other[0])
               case (Ent(x), Ent(y)) => CmpValue(Ent(x + d), Ent(y))
               case _ => CmpValue(k[0], other[0]);
      if o != Same then o else CmpDisplaced(k[1..], d, other[1..])
  }

  /** The cell-by-cell comparison is the comparison of the moved key. */
  lemma {:induction false} CmpDisplacedIsCmp(k: Tuple, d: int, other: Tuple)
    ensures CmpDisplaced(k, d, other) == Cmp(Shift(k, d), other)
  {
    if k != [] && other != [] {
      CmpDisplacedIsCmp(k[1..], d, other[1..]);
      assert Shift(k, d)[1..] == Shift(k[1..], d);
      assert Shift(k, d) == [Shift(k, d)[0]] + Shift(k, d)[1..];
      assert other == [other[0]] + other[1..];
    }
  }

  /** The three answers, read as order. */
  lemma CmpMeans(k: Tuple, d: int, other: Tuple)
    ensures CmpDisplaced(k, d, other) == Greater <==> Less(other, Shift(k, d))
    ensures CmpDisplaced(k, d, other) == Lesser <==> Less(Shift(k, d), other)
    ensures CmpDisplaced(k, d, other) == Same <==> Shift(k, d) == other
  {
    hide Less, CmpDisplaced, Shift;
    CmpDisplacedIsCmp(k, d, other);
    var a := Shift(k, d);
    LessTotal(a, other);
    LessIrreflexive(other);
    if Less(a, other) {
      LessAsymmetric(a, other);
    }
    if Less(other, a) {
      LessAsymmetric(other, a);
    }
  }
}
