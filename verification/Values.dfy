/** Values, tuples and their total order. */
module Values {

  datatype Option<+T> = None | Some(value: T)

  /** A domain value. `Ent` and `Int` are the two kinds the engine looks inside;
      `Other` stands for every remaining kind, by its place in the order of values. */
  datatype Value = Ent(id: int) | Int(n: int) | Other(rank: int)

  type Tuple = seq<Value>

  predicate ValueLess(a: Value, b: Value) {
    match (a, b)
    case (Ent(x), Ent(y)) => x < y
    case (Ent(_), _) => true
    case (_, Ent(_)) => false
    case (Int(x), Int(y)) => x < y
    case (Int(_), _) => true
    case (_, Int(_)) => false
    case (Other(x), Other(y)) => x < y
  }

  predicate ValueLeq(a: Value, b: Value) {
    a == b || ValueLess(a, b)
  }

  /** Tuples compare lexicographically, a proper prefix first. */
  predicate Less(a: Tuple, b: Tuple) {
    b != [] && (a == [] || ValueLess(a[0], b[0]) || (a[0] == b[0] && Less(a[1..], b[1..])))
  }

  predicate Leq(a: Tuple, b: Tuple) {
    a == b || Less(a, b)
  }

  predicate InRange(t: Tuple, lo: Tuple, hi: Tuple) {
    Leq(lo, t) && Less(t, hi)
  }

  lemma LessIrreflexive(a: Tuple)
    ensures !Less(a, a)
  {
    if a != [] {
      LessIrreflexive(a[1..]);
    }
  }

  lemma {:induction false} LessTransitive(a: Tuple, b: Tuple, c: Tuple)
    requires Less(a, b) && Less(b, c)
    ensures Less(a, c)
  {
    if a != [] && a[0] == b[0] && b[0] == c[0] {
      LessTransitive(a[1..], b[1..], c[1..]);
    }
  }

  lemma {:induction false} LessTotal(a: Tuple, b: Tuple)
    ensures a == b || Less(a, b) || Less(b, a)
  {
    if a != [] && b != [] && a[0] == b[0] {
      LessTotal(a[1..], b[1..]);
      assert a == [a[0]] + a[1..] && b == [b[0]] + b[1..];
    }
  }

  lemma LessAsymmetric(a: Tuple, b: Tuple)
    requires Less(a, b)
    ensures !Less(b, a) && a != b
  {
    LessIrreflexive(a);
    if Less(b, a) {
      LessTransitive(a, b, a);
    }
  }

  lemma LeqLess(a: Tuple, b: Tuple, c: Tuple)
    requires Leq(a, b) && Less(b, c)
    ensures Less(a, c)
  {
    if a != b {
      LessTransitive(a, b, c);
    }
  }

  lemma LessLeq(a: Tuple, b: Tuple, c: Tuple)
    requires Less(a, b) && Leq(b, c)
    ensures Less(a, c)
  {
    if b != c {
      LessTransitive(a, b, c);
    }
  }

  lemma LeqLeq(a: Tuple, b: Tuple, c: Tuple)
    requires Leq(a, b) && Leq(b, c)
    ensures Leq(a, c)
  {
    if a != b && b != c {
      LessTransitive(a, b, c);
    }
  }

  lemma LeqAntisymmetric(a: Tuple, b: Tuple)
    requires Leq(a, b) && Leq(b, a)
    ensures a == b
  {
    if a != b {
      LessAsymmetric(a, b);
    }
  }
}
