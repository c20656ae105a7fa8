/** A tree read from left to right: its entries in order, with the separators
    between them. Every order invariant of a tree is that this list is ordered. */
module MarkLists {
  import opened Values
  import opened Displacements

  /** A row, or a separator: a bound no greater than anything after it and
      greater than every row before it. */
  datatype Mark = Row(key: Tuple, val: int) | Sep(key: Tuple)

  datatype Entry = Entry(key: Tuple, val: int)

  predicate Before(a: Mark, b: Mark) {
    if a.Row? then Less(a.key, b.key) else Leq(a.key, b.key)
  }

  ghost predicate Across(a: seq<Mark>, b: seq<Mark>) {
    forall x <- a, y <- b :: Before(x, y)
  }

  ghost predicate Ordered(m: seq<Mark>) {
    forall i, j | 0 <= i < j < |m| :: Before(m[i], m[j])
  }

  lemma OrderedConcat(a: seq<Mark>, b: seq<Mark>)
    ensures Ordered(a + b) <==> Ordered(a) && Ordered(b) && Across(a, b)
  {
    var m := a + b;
    if Ordered(m) {
      assert forall i | 0 <= i < |a| :: m[i] == a[i];
      assert forall i | 0 <= i < |b| :: m[|a| + i] == b[i];
      forall x, y | x in a && y in b ensures Before(x, y) {
        var i :| 0 <= i < |a| && a[i] == x;
        var j :| 0 <= j < |b| && b[j] == y;
        assert Before(m[i], m[|a| + j]);
      }
      forall i, j | 0 <= i < j < |b| ensures Before(b[i], b[j]) {
        assert Before(m[|a| + i], m[|a| + j]);
      }
      forall i, j | 0 <= i < j < |a| ensures Before(a[i], a[j]) {
        assert Before(m[i], m[j]);
      }
    }
    if Ordered(a) && Ordered(b) && Across(a, b) {
      forall i, j | 0 <= i < j < |m| ensures Before(m[i], m[j]) {
        if i < |a| && |a| <= j {
          assert m[i] in a && m[j] in b;
        }
      }
    }
  }

  /** Starts and ends with a row, as every non-empty tree does. */
  predicate Tight(m: seq<Mark>) {
    m != [] && m[0].Row? && m[|m| - 1].Row?
  }

  function Low(m: seq<Mark>): Tuple
    requires Tight(m)
  {
    m[0].key
  }

  function High(m: seq<Mark>): Tuple
    requires Tight(m)
  {
    m[|m| - 1].key
  }

  /** In an ordered tight list everything lies between the first row and the last. */
  lemma TightBounds(m: seq<Mark>, x: Mark)
    requires Ordered(m) && Tight(m) && x in m
    ensures Leq(Low(m), x.key) && Leq(x.key, High(m))
    ensures x.Sep? ==> Less(Low(m), x.key)
    ensures !Less(High(m), Low(m))
  {
    var i :| 0 <= i < |m| && m[i] == x;
    if i > 0 {
      assert Before(m[0], m[i]);
    }
    if i < |m| - 1 {
      assert Before(m[i], m[|m| - 1]);
    }
    LessIrreflexive(Low(m));
    if |m| > 1 {
      assert Before(m[0], m[|m| - 1]);
      LessAsymmetric(Low(m), High(m));
    }
  }

  /** Two ordered tight lists follow one another when their end rows do. */
  lemma TightAcross(a: seq<Mark>, b: seq<Mark>)
    requires Ordered(a) && Tight(a) && Ordered(b) && Tight(b) && Less(High(a), Low(b))
    ensures Across(a, b)
    ensures forall x <- a :: Before(x, Sep(Low(b)))
    ensures forall y <- b :: Before(Sep(Low(b)), y)
  {
    forall x | x in a ensures Less(x.key, Low(b)) {
      TightBounds(a, x);
      LeqLess(x.key, High(a), Low(b));
    }
    forall y | y in b ensures Leq(Low(b), y.key) {
      TightBounds(b, y);
    }
    forall x, y | x in a && y in b ensures Before(x, y) {
      LessLeq(x.key, Low(b), y.key);
    }
  }

  // ----- displaced lists -----

  function ShiftMark(x: Mark, d: int): Mark {
    match x case Row(k, v) => Row(Shift(k, d), v) case Sep(k) => Sep(Shift(k, d))
  }

  function ShiftMarks(m: seq<Mark>, d: int): (r: seq<Mark>)
    ensures |r| == |m| && forall i | 0 <= i < |m| :: r[i] == ShiftMark(m[i], d)
  {
    seq(|m|, i requires 0 <= i < |m| => ShiftMark(m[i], d))
  }

  lemma ShiftMarksZero(m: seq<Mark>)
    ensures ShiftMarks(m, 0) == m
  {
    forall i | 0 <= i < |m| ensures ShiftMarks(m, 0)[i] == m[i] {
      ShiftZero(m[i].key);
    }
  }

  lemma ShiftMarksAdd(m: seq<Mark>, a: int, b: int)
    ensures ShiftMarks(ShiftMarks(m, a), b) == ShiftMarks(m, a + b)
  {
    forall i | 0 <= i < |m| ensures ShiftMarks(ShiftMarks(m, a), b)[i] == ShiftMarks(m, a + b)[i] {
      ShiftAdd(m[i].key, a, b);
    }
  }

  lemma ShiftMarksConcat(a: seq<Mark>, b: seq<Mark>, d: int)
    ensures ShiftMarks(a + b, d) == ShiftMarks(a, d) + ShiftMarks(b, d)
  {
  }

  lemma ShiftMarksOrdered(m: seq<Mark>, d: int)
    ensures Ordered(ShiftMarks(m, d)) <==> Ordered(m)
    ensures Tight(ShiftMarks(m, d)) <==> Tight(m)
  {
    var s := ShiftMarks(m, d);
    forall i, j | 0 <= i < j < |m| ensures Before(s[i], s[j]) <==> Before(m[i], m[j]) {
      ShiftOrder(m[i].key, m[j].key, d);
    }
    assert |s| == |m|;
    if Ordered(s) {
      forall i, j | 0 <= i < j < |m| ensures Before(m[i], m[j]) {
        assert Before(s[i], s[j]);
      }
    }
  }

  // ----- the rows of a list -----

  function Rows(m: seq<Mark>): seq<Entry> {
    if m == [] then [] else
    var rest := Rows(m[..|m| - 1]);
    match m[|m| - 1] case Row(k, v) => rest + [Entry(k, v)] case Sep(_) => rest
  }

  lemma {:induction false} RowsConcat(a: seq<Mark>, b: seq<Mark>)
    ensures Rows(a + b) == Rows(a) + Rows(b)
    decreases |b|
  {
    if b == [] {
      assert a + b == a;
    } else {
      var n := |b| - 1;
      assert (a + b)[..|a + b| - 1] == a + b[..n];
      RowsConcat(a, b[..n]);
    }
  }

  lemma {:induction false} RowsIn(m: seq<Mark>, e: Entry)
    ensures e in Rows(m) <==> Row(e.key, e.val) in m
  {
    if m != [] {
      var n := |m| - 1;
      RowsIn(m[..n], e);
      assert m == m[..n] + [m[n]];
    }
  }

  lemma RowsOfSep(k: Tuple)
    ensures Rows([Sep(k)]) == []
  {
    assert [Sep(k)][..0] == [];
  }

  function AsMarks(e: seq<Entry>): (m: seq<Mark>)
    ensures |m| == |e| && forall i | 0 <= i < |e| :: m[i] == Row(e[i].key, e[i].val)
  {
    seq(|e|, i requires 0 <= i < |e| => Row(e[i].key, e[i].val))
  }

  lemma {:induction false} RowsAsMarks(e: seq<Entry>)
    ensures Rows(AsMarks(e)) == e
  {
    if e != [] {
      var n := |e| - 1;
      RowsAsMarks(e[..n]);
      assert AsMarks(e)[..n] == AsMarks(e[..n]);
    }
  }

  function ShiftEntries(e: seq<Entry>, d: int): (r: seq<Entry>)
    ensures |r| == |e| && forall i | 0 <= i < |e| :: r[i] == Entry(Shift(e[i].key, d), e[i].val)
  {
    seq(|e|, i requires 0 <= i < |e| => Entry(Shift(e[i].key, d), e[i].val))
  }

  lemma {:induction false} RowsShift(m: seq<Mark>, d: int)
    ensures Rows(ShiftMarks(m, d)) == ShiftEntries(Rows(m), d)
  {
    if m != [] {
      var n := |m| - 1;
      RowsShift(m[..n], d);
      assert ShiftMarks(m, d)[..n] == ShiftMarks(m[..n], d);
    }
  }

  // ----- ordered entries -----

  ghost predicate Sorted(e: seq<Entry>) {
    forall i, j | 0 <= i < j < |e| :: Less(e[i].key, e[j].key)
  }

  lemma SortedConcat(a: seq<Entry>, b: seq<Entry>)
    ensures Sorted(a + b) <==> Sorted(a) && Sorted(b) && forall x <- a, y <- b :: Less(x.key, y.key)
  {
    var m := a + b;
    if Sorted(m) {
      assert forall i | 0 <= i < |a| :: m[i] == a[i];
      assert forall i | 0 <= i < |b| :: m[|a| + i] == b[i];
      forall x, y | x in a && y in b ensures Less(x.key, y.key) {
        var i :| 0 <= i < |a| && a[i] == x;
        var j :| 0 <= j < |b| && b[j] == y;
        assert Less(m[i].key, m[|a| + j].key);
      }
      forall i, j | 0 <= i < j < |b| ensures Less(b[i].key, b[j].key) {
        assert Less(m[|a| + i].key, m[|a| + j].key);
      }
      forall i, j | 0 <= i < j < |a| ensures Less(a[i].key, a[j].key) {
        assert Less(m[i].key, m[j].key);
      }
    }
    if Sorted(a) && Sorted(b) && forall x <- a, y <- b :: Less(x.key, y.key) {
      forall i, j | 0 <= i < j < |m| ensures Less(m[i].key, m[j].key) {
        if i < |a| && |a| <= j {
          assert m[i] in a && m[j] in b;
        }
      }
    }
  }

  lemma {:induction false} RowsSorted(m: seq<Mark>)
    requires Ordered(m)
    ensures Sorted(Rows(m))
  {
    if m != [] {
      var n := |m| - 1;
      assert m == m[..n] + [m[n]];
      OrderedConcat(m[..n], [m[n]]);
      RowsSorted(m[..n]);
      if m[n].Row? {
        forall x | x in Rows(m[..n]) ensures Less(x.key, m[n].key) {
          RowsIn(m[..n], x);
          assert Before(Row(x.key, x.val), m[n]);
        }
        SortedConcat(Rows(m[..n]), [Entry(m[n].key, m[n].val)]);
      }
    }
  }

  lemma AsMarksOrdered(e: seq<Entry>)
    ensures Ordered(AsMarks(e)) <==> Sorted(e)
  {
    var m := AsMarks(e);
    if Ordered(m) {
      forall i, j | 0 <= i < j < |e| ensures Less(e[i].key, e[j].key) {
        assert Before(m[i], m[j]);
      }
    }
  }

  // ----- what the operations do to a sorted list -----

  function Below(e: seq<Entry>, k: Tuple): seq<Entry> {
    if e == [] then [] else
    var rest := Below(e[..|e| - 1], k);
    if Less(e[|e| - 1].key, k) then rest + [e[|e| - 1]] else rest
  }

  function AtOrAbove(e: seq<Entry>, k: Tuple): seq<Entry> {
    if e == [] then [] else
    var rest := AtOrAbove(e[..|e| - 1], k);
    if Less(e[|e| - 1].key, k) then rest else rest + [e[|e| - 1]]
  }

  function Above(e: seq<Entry>, k: Tuple): seq<Entry> {
    if e == [] then [] else
    var rest := Above(e[..|e| - 1], k);
    if Less(k, e[|e| - 1].key) then rest + [e[|e| - 1]] else rest
  }

  /** `k` bound to `v`. */
  function Put(e: seq<Entry>, k: Tuple, v: int): seq<Entry> {
    Below(e, k) + [Entry(k, v)] + Above(e, k)
  }

  /** `k` unbound. */
  function Drop(e: seq<Entry>, k: Tuple): seq<Entry> {
    Below(e, k) + Above(e, k)
  }

  lemma {:induction false} CutConcat(a: seq<Entry>, b: seq<Entry>, k: Tuple)
    ensures Below(a + b, k) == Below(a, k) + Below(b, k)
    ensures AtOrAbove(a + b, k) == AtOrAbove(a, k) + AtOrAbove(b, k)
    ensures Above(a + b, k) == Above(a, k) + Above(b, k)
    decreases |b|
  {
    if b == [] {
      assert a + b == a;
    } else {
      var n := |b| - 1;
      assert (a + b)[..|a + b| - 1] == a + b[..n];
      CutConcat(a, b[..n], k);
    }
  }

  lemma {:induction false} CutAllBelow(e: seq<Entry>, k: Tuple)
    requires forall x <- e :: Less(x.key, k)
    ensures Below(e, k) == e && AtOrAbove(e, k) == [] && Above(e, k) == []
  {
    if e != [] {
      var n := |e| - 1;
      assert e[n] in e && forall x <- e[..n] :: x in e;
      CutAllBelow(e[..n], k);
      LessAsymmetric(e[n].key, k);
    }
  }

  lemma {:induction false} CutAllAtOrAbove(e: seq<Entry>, k: Tuple)
    requires forall x <- e :: Leq(k, x.key)
    ensures Below(e, k) == [] && AtOrAbove(e, k) == e
    ensures (forall x <- e :: Less(k, x.key)) ==> Above(e, k) == e
  {
    hide Less;
    if e != [] {
      var n := |e| - 1;
      assert e[n] in e && forall x <- e[..n] :: x in e;
      CutAllAtOrAbove(e[..n], k);
      LeqNotLess(k, e[n].key);
      assert e == e[..n] + [e[n]];
    }
  }

  lemma LeqNotLess(a: Tuple, b: Tuple)
    requires Leq(a, b)
    ensures !Less(b, a)
  {
    LessIrreflexive(a);
    if a != b {
      LessAsymmetric(a, b);
    }
  }

  /** The cut of a list whose middle part alone straddles the key. */
  lemma CutMiddle(a: seq<Entry>, b: seq<Entry>, c: seq<Entry>, k: Tuple)
    requires forall x <- a :: Less(x.key, k)
    requires forall x <- c :: Less(k, x.key)
    ensures Below(a + b + c, k) == a + Below(b, k)
    ensures AtOrAbove(a + b + c, k) == AtOrAbove(b, k) + c
    ensures Above(a + b + c, k) == Above(b, k) + c
  {
    hide Below, AtOrAbove, Above, Less;
    CutConcat(a + b, c, k);
    CutConcat(a, b, k);
    CutAllBelow(a, k);
    CutAllAtOrAbove(c, k);
  }

  /** An edit of a list whose middle part alone straddles the key. */
  lemma EditMiddle(a: seq<Entry>, b: seq<Entry>, c: seq<Entry>, k: Tuple, v: int)
    requires forall x <- a :: Less(x.key, k)
    requires forall x <- c :: Less(k, x.key)
    ensures Put(a + b + c, k, v) == a + Put(b, k, v) + c
    ensures Drop(a + b + c, k) == a + Drop(b, k) + c
  {
    hide Below, AtOrAbove, Above, Less;
    CutMiddle(a, b, c, k);
  }
}
