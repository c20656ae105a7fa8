/** Virtual copy, and the tree operations read as operations on plain maps. */
module Grafts {
  import opened Values
  import opened Displacements
  import opened MarkLists
  import opened Trees
  import opened TreeEdits
  import opened TreeCuts
  import opened TreeReads

  lemma ValidEmpty(t: Tree)
    requires Valid(t)
    ensures t.Nil? <==> Flat(t) == []
    ensures Sorted(Flat(t))
  {
    NilFlat();
    if t.Ref? {
      ShapedTight(t, NodeHeight(t.node));
      EndRows(Marks(t));
      RowsSorted(Marks(t));
    }
  }

  /** Moving a tree moves its rows and keeps everything else. */
  lemma RelocateKeeps(t: Tree, d: int)
    requires Valid(t)
    ensures Valid(Relocate(t, d)) && Flat(Relocate(t, d)) == ShiftEntries(Flat(t), d)
  {
    RelocateMarks(t, d);
    RowsShift(Marks(t), d);
    ShiftMarksOrdered(Marks(t), d);
  }

  /** The tree rewritten so that its handle carries no displacement. */
  method Normalized(t: Tree) returns (r: Tree)
    requires Valid(t)
    ensures Valid(r) && Flat(r) == Flat(t) && (r.Ref? ==> r.dsp == 0)
  {
    hide Marks, Rows, Ordered;
    if t.Nil? || t.dsp == 0 {
      return t;
    }
    ghost var h := NodeHeight(t.node);
    OpenMeans(t, h);
    match Open(t) {
      case Entries(e) =>
        r := MakeLeaf(e);
        MakeLeafMarks(e);
        RowsAsMarks(e);
      case Kids(ks, ch) =>
        r := MakeInternal(ks, ch);
        MakeInternalMarks(ks, ch);
        InternalShaped(ks, ch, h);
        ShapeHeight(r.node, h);
    }
  }

  // ----- graft -----

  /** A copy of the entries in `[lo, hi)` at the same keys moved by `d`, beside the
      originals; `None`, with nothing changed, exactly when the target is occupied. */
  method Graft(t: Tree, lo: Tuple, hi: Tuple, d: int) returns (r: Option<Tree>)
    requires Valid(t)
    ensures r.None? <==> Within(Flat(t), lo, hi) != [] && Within(Flat(t), Shift(lo, d), Shift(hi, d)) != []
    ensures r.Some? ==> Valid(r.value)
    ensures r.Some? && Within(Flat(t), lo, hi) == [] ==> r.value == t
    ensures r.Some? ==>
      Flat(r.value) ==
        Below(Flat(t), Shift(lo, d)) + ShiftEntries(Within(Flat(t), lo, hi), d) + AtOrAbove(Flat(t), Shift(lo, d))
      || Within(Flat(t), lo, hi) == []
  {
    hide Less, Marks, Rows, Ordered, Valid, Below, AtOrAbove, Shift, Precedes;
    if !Less(lo, hi) {
      EmptySpan(Flat(t), lo, hi);
      return Some(t);
    }
    var _, rest := Cut(t, lo);
    var span, _ := Cut(rest, hi);
    ValidEmpty(span);
    if span.Nil? {
      return Some(t);
    }
    var tlo, thi := Shift(lo, d), Shift(hi, d);
    ShiftOrder(lo, hi, d);
    var occupied := AnyIn(t, tlo, thi);
    if !Less(tlo, thi) || occupied {
      return None;
    }
    var copy := Relocate(span, d);
    RelocateKeeps(span, d);
    CopyLands(Flat(span), Flat(t), lo, hi, d);
    ghost var h := TreeShape(copy);
    var first := MinKey(copy, h);
    var last := MaxKey(copy, h);
    EndRows(Marks(copy));
    if Less(first, tlo) || !Less(last, thi) {
      assert false;
    } else {
      var below, above := Cut(t, tlo);
      GraftFits(Flat(t), Flat(copy), tlo, thi);
      var left := Join(below, copy);
      var whole := Join(left, above);
      return Some(whole);
    }
  }

  lemma TreeShape(t: Tree) returns (h: nat)
    requires Valid(t) && t.Ref?
    ensures Shaped(t, h)
  {
    h := NodeHeight(t.node);
  }

  /** The moved span lies where its bounds were moved to. */
  lemma CopyLands(span: seq<Entry>, e: seq<Entry>, lo: Tuple, hi: Tuple, d: int)
    requires span == Within(e, lo, hi) && span != []
    ensures var c := ShiftEntries(span, d);
      && (forall x <- c :: Leq(Shift(lo, d), x.key) && Less(x.key, Shift(hi, d)))
      && c[0] in c && c[|c| - 1] in c
      && !Less(c[0].key, Shift(lo, d)) && Less(c[|c| - 1].key, Shift(hi, d))
  {
    hide Less, Below, AtOrAbove, Shift;
    var c := ShiftEntries(span, d);
    CutsWithin(AtOrAbove(e, lo), hi);
    CutsWithin(e, lo);
    forall x | x in c ensures Leq(Shift(lo, d), x.key) && Less(x.key, Shift(hi, d)) {
      var i :| 0 <= i < |span| && c[i] == x;
      assert span[i] in span;
      ShiftOrder(lo, span[i].key, d);
      ShiftOrder(span[i].key, hi, d);
    }
    assert c[0] in c && c[|c| - 1] in c;
    LeqNotLess(Shift(lo, d), c[0].key);
  }

  /** An empty target leaves room: what is below it, the copy, and what is above it
      follow one another. */
  lemma GraftFits(e: seq<Entry>, c: seq<Entry>, tlo: Tuple, thi: Tuple)
    requires Within(e, tlo, thi) == [] && forall x <- c :: Leq(tlo, x.key) && Less(x.key, thi)
    ensures Precedes(Below(e, tlo), c) && Precedes(Below(e, tlo) + c, AtOrAbove(e, tlo))
  {
    hide Less, Below, AtOrAbove;
    CutsWithin(e, tlo);
    var a, b := Below(e, tlo), AtOrAbove(e, tlo);
    forall y | y in b ensures Leq(thi, y.key) {
      InCut(b, y, thi);
      LessTotal(thi, y.key);
    }
    forall x, y | x in a && y in c ensures Less(x.key, y.key) {
      LessLeq(x.key, tlo, y.key);
    }
    forall x, y | x in a && y in b ensures Less(x.key, y.key) {
      LessLeq(x.key, tlo, y.key);
    }
    forall x, y | x in c && y in b ensures Less(x.key, y.key) {
      LessLeq(x.key, thi, y.key);
    }
  }

  // ----- as maps -----

  function ToMap(e: seq<Entry>): map<Tuple, int> {
    if e == [] then map[] else ToMap(e[..|e| - 1])[e[|e| - 1].key := e[|e| - 1].val]
  }

  lemma {:induction false} MapHolds(e: seq<Entry>, k: Tuple)
    requires Sorted(e)
    ensures k !in ToMap(e) <==> Absent(e, k)
    ensures k in ToMap(e) ==> Entry(k, ToMap(e)[k]) in e
    ensures forall v | Entry(k, v) in e :: k in ToMap(e) && ToMap(e)[k] == v
  {
    hide Less;
    if e != [] {
      var n := |e| - 1;
      assert Sorted(e[..n]);
      MapHolds(e[..n], k);
      assert e[n] in e && forall x <- e[..n] :: x in e;
      forall x | x in e[..n] ensures x.key != e[n].key {
        var i :| 0 <= i < n && e[i] == x;
        assert Less(e[i].key, e[n].key);
        LessIrreflexive(e[n].key);
      }
      assert forall x <- e :: x in e[..n] || x == e[n];
    }
  }

  /** Lists with the same entries stand for the same map. */
  lemma MapOf(e: seq<Entry>, m: map<Tuple, int>)
    requires Sorted(e)
    requires forall k, v :: Entry(k, v) in e <==> k in m && m[k] == v
    ensures ToMap(e) == m
  {
    hide Less, Sorted, ToMap;
    forall k ensures k in ToMap(e) <==> k in m
      ensures k in m && k in ToMap(e) ==> ToMap(e)[k] == m[k]
    {
      MapHolds(e, k);
      if k in m {
        assert Entry(k, m[k]) in e;
      }
      if k in ToMap(e) {
        assert Entry(k, ToMap(e)[k]) in e;
      }
    }
  }

  lemma InMap(e: seq<Entry>, k: Tuple, v: int)
    requires Sorted(e)
    ensures Entry(k, v) in e <==> k in ToMap(e) && ToMap(e)[k] == v
  {
    hide Less, Sorted, ToMap;
    MapHolds(e, k);
  }

  lemma InEdits(e: seq<Entry>, k: Tuple, v: int, x: Entry)
    requires Sorted(e)
    ensures x in Drop(e, k) <==> x in e && x.key != k
    ensures x in Put(e, k, v) <==> (x in e && x.key != k) || x == Entry(k, v)
  {
    hide Less, Below, Above, Sorted;
    CutsWithin(e, k);
    LessIrreflexive(k);
    if x in e && x.key != k {
      LessTotal(x.key, k);
      if Less(x.key, k) {
        InCut(e, x, k);
      } else {
        InAbove(e, x, k);
      }
    }
  }

  lemma {:induction false} InAbove(e: seq<Entry>, x: Entry, k: Tuple)
    requires x in e && Less(k, x.key)
    ensures x in Above(e, k)
  {
    hide Less;
    if x in e[..|e| - 1] {
      InAbove(e[..|e| - 1], x, k);
    }
  }

  /** Insertion is the map update. */
  lemma PutIsUpdate(e: seq<Entry>, k: Tuple, v: int)
    requires Sorted(e)
    ensures ToMap(Put(e, k, v)) == ToMap(e)[k := v]
  {
    hide Less, Sorted, ToMap, Put;
    EditsSorted(e, k, v);
    forall k', v' ensures Entry(k', v') in Put(e, k, v) <==> k' in ToMap(e)[k := v] && ToMap(e)[k := v][k'] == v' {
      InEdits(e, k, v, Entry(k', v'));
      InMap(e, k', v');
    }
    MapOf(Put(e, k, v), ToMap(e)[k := v]);
  }

  /** Removal is the map removal. */
  lemma DropIsRemoval(e: seq<Entry>, k: Tuple)
    requires Sorted(e)
    ensures ToMap(Drop(e, k)) == ToMap(e) - {k}
  {
    hide Less, Sorted, ToMap, Drop;
    EditsSorted(e, k, 0);
    forall k', v' ensures Entry(k', v') in Drop(e, k) <==> k' in ToMap(e) - {k} && (ToMap(e) - {k})[k'] == v' {
      InEdits(e, k, 0, Entry(k', v'));
      InMap(e, k', v');
    }
    MapOf(Drop(e, k), ToMap(e) - {k});
  }

  /** A split divides the map at the key. */
  lemma SplitPartitions(e: seq<Entry>, key: Tuple)
    requires Sorted(e)
    ensures Below(e, key) + AtOrAbove(e, key) == e
    ensures ToMap(Below(e, key)).Keys !! ToMap(AtOrAbove(e, key)).Keys
    ensures ToMap(e) == ToMap(Below(e, key)) + ToMap(AtOrAbove(e, key))
  {
    hide Less, Sorted, ToMap, Below, AtOrAbove;
    UnderCuts(e, key);
    assert e[..Under(e, key)] + e[Under(e, key)..] == e;
    JoinIsUnion(Below(e, key), AtOrAbove(e, key));
  }

  /** A join of lists that follow one another is the disjoint union of their maps. */
  lemma JoinIsUnion(a: seq<Entry>, b: seq<Entry>)
    requires Sorted(a + b)
    ensures ToMap(a).Keys !! ToMap(b).Keys && ToMap(a + b) == ToMap(a) + ToMap(b)
  {
    hide Less, Sorted, ToMap;
    SortedConcat(a, b);
    forall k | k in ToMap(a) && k in ToMap(b) ensures false {
      MapHolds(a, k);
      MapHolds(b, k);
      LessIrreflexive(k);
    }
    var m := ToMap(a) + ToMap(b);
    forall k, v ensures Entry(k, v) in a + b <==> k in m && m[k] == v {
      InMap(a, k, v);
      InMap(b, k, v);
    }
    MapOf(a + b, m);
  }

  /** A graft adds exactly the moved copy of the span, at keys that were free. */
  lemma GraftIsUnion(e: seq<Entry>, lo: Tuple, hi: Tuple, d: int)
    requires Sorted(e) && Within(e, Shift(lo, d), Shift(hi, d)) == []
    ensures var c := ShiftEntries(Within(e, lo, hi), d);
      var r := Below(e, Shift(lo, d)) + c + AtOrAbove(e, Shift(lo, d));
      ToMap(e).Keys !! ToMap(c).Keys && ToMap(r) == ToMap(e) + ToMap(c)
  {
    hide Less, ToMap, Below, AtOrAbove, Shift, Precedes;
    var c, k := ShiftEntries(Within(e, lo, hi), d), Shift(lo, d);
    var a, b := Below(e, k), AtOrAbove(e, k);
    CutsSorted(e, lo);
    CutsSorted(AtOrAbove(e, lo), hi);
    CutsSorted(e, k);
    ShiftSorted(Within(e, lo, hi), d);
    SplitPartitions(e, k);
    if c == [] {
      assert a + c + b == e;
      NoMap();
    } else {
      CopyLands(Within(e, lo, hi), e, lo, hi, d);
      GraftFits(e, c, k, Shift(hi, d));
      PrecedesSorted(a, c);
      PrecedesSorted(a + c, b);
      JoinIsUnion(a, c);
      JoinIsUnion(a + c, b);
    }
  }

  lemma NoMap()
    ensures ToMap([]) == map[]
  {
  }

  lemma PrecedesSorted(a: seq<Entry>, b: seq<Entry>)
    requires Sorted(a) && Sorted(b) && Precedes(a, b)
    ensures Sorted(a + b)
  {
    hide Less;
    SortedConcat(a, b);
  }

  lemma ShiftSorted(e: seq<Entry>, d: int)
    requires Sorted(e)
    ensures Sorted(ShiftEntries(e, d))
  {
    hide Less, Shift;
    var s := ShiftEntries(e, d);
    forall i, j | 0 <= i < j < |s| ensures Less(s[i].key, s[j].key) {
      ShiftOrder(e[i].key, e[j].key, d);
    }
  }

  /** The list of entries is canonical: two trees with one map list the same
      entries, whatever their shapes and displacements. */
  lemma {:induction false} Canonical(a: seq<Entry>, b: seq<Entry>)
    requires Sorted(a) && Sorted(b) && ToMap(a) == ToMap(b)
    ensures a == b
    decreases |a|
  {
    hide Less, ToMap;
    forall x ensures x in a <==> x in b {
      InMap(a, x.key, x.val);
      InMap(b, x.key, x.val);
      assert x == Entry(x.key, x.val);
    }
    if a != [] {
      var n, m := |a| - 1, |b| - 1;
      assert a[n] in a;
      assert b[m] in b;
      SameLast(a, b);
      assert Sorted(a[..n]) && Sorted(b[..m]);
      var p, q := a[..n], b[..m];
      forall k, v ensures Entry(k, v) in p <==> Entry(k, v) in q {
        InInit(a, Entry(k, v));
        InInit(b, Entry(k, v));
      }
      SameMap(p, q);
      Canonical(p, q);
      assert a == p + [a[n]] && b == q + [b[m]];
    } else {
      SomeIn(b);
    }
  }

  lemma SomeIn(b: seq<Entry>)
    ensures b != [] ==> exists x :: x in b
  {
    if b != [] {
      assert b[0] in b;
    }
  }

  lemma InInit(a: seq<Entry>, x: Entry)
    requires Sorted(a) && a != []
    ensures x in a[..|a| - 1] <==> x in a && x != a[|a| - 1]
  {
    hide Less;
    var n := |a| - 1;
    if x in a[..n] {
      var i :| 0 <= i < n && a[i] == x;
      assert Less(a[i].key, a[n].key);
      LessIrreflexive(x.key);
    }
  }

  lemma SameMap(p: seq<Entry>, q: seq<Entry>)
    requires Sorted(p) && Sorted(q) && forall k, v :: Entry(k, v) in p <==> Entry(k, v) in q
    ensures ToMap(p) == ToMap(q)
  {
    hide Less, Sorted, ToMap;
    forall k, v ensures Entry(k, v) in p <==> k in ToMap(q) && ToMap(q)[k] == v {
      InMap(q, k, v);
    }
    MapOf(p, ToMap(q));
  }

  lemma SameLast(a: seq<Entry>, b: seq<Entry>)
    requires Sorted(a) && Sorted(b) && a != [] && b != [] && forall x :: x in a <==> x in b
    ensures a[|a| - 1] == b[|b| - 1]
  {
    hide Less;
    var n, m := |a| - 1, |b| - 1;
    assert a[n] in b && b[m] in a;
    var i :| 0 <= i < |b| && b[i] == a[n];
    var j :| 0 <= j < |a| && a[j] == b[m];
    if i < m {
      assert Less(a[n].key, b[m].key);
      if j < n {
        assert Less(b[m].key, a[n].key);
        LessAsymmetric(a[n].key, b[m].key);
      } else {
        LessIrreflexive(a[n].key);
      }
    }
  }
}
