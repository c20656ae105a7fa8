/** The greatest entry at or below a key: the as-of lookup of a version tree. */
module TreeFloors {
  import opened Values
  import opened Displacements
  import opened MarkLists
  import opened Trees
  import opened TreeEdits
  import opened TreeReads

  ghost predicate AllPast(e: seq<Entry>, key: Tuple) {
    forall x <- e :: Less(key, x.key)
  }

  /** `r` is the entry of `e` at or below `key` that every other such entry is at or
      below; none when every entry lies past `key`. */
  ghost predicate IsFloor(e: seq<Entry>, key: Tuple, r: Option<Entry>) {
    match r
    case None => AllPast(e, key)
    case Some(x) => x in e && Leq(x.key, key) && forall y <- e :: Leq(y.key, key) ==> Leq(y.key, x.key)
  }

  lemma NotPast(x: Tuple, key: Tuple)
    ensures Leq(x, key) <==> !Less(key, x)
  {
    hide Less;
    LessTotal(x, key);
    LessIrreflexive(x);
    if Less(x, key) {
      LessAsymmetric(x, key);
    }
  }

  lemma FloorInMiddle(a: seq<Entry>, m: seq<Entry>, c: seq<Entry>, key: Tuple, x: Entry)
    requires Sorted(a + m + c) && AllPast(c, key) && IsFloor(m, key, Some(x))
    ensures IsFloor(a + m + c, key, Some(x))
  {
    hide Less, Sorted;
    SortedConcat(a + m, c);
    SortedConcat(a, m);
    forall y | y in a + m + c && Leq(y.key, key) ensures Leq(y.key, x.key) {
      NotPast(y.key, key);
      assert y in a || y in m || y in c;
    }
  }

  lemma FloorInLeaf(e: seq<Entry>, off: int, key: Tuple)
    requires Sorted(e)
    ensures var p := UpTo(e, off, key);
      IsFloor(ShiftEntries(e, off), key, if p > 0 then Some(Entry(Shift(e[p - 1].key, off), e[p - 1].val)) else None)
  {
    hide Less, UpTo, Shift;
    var p := UpTo(e, off, key);
    var s := ShiftEntries(e, off);
    UpToSplits(e, off, key);
    if p > 0 {
      var x := s[p - 1];
      NotPast(x.key, key);
      forall y | y in s && Leq(y.key, key) ensures Leq(y.key, x.key) {
        var j :| 0 <= j < |s| && s[j] == y;
        NotPast(y.key, key);
        if j < p - 1 {
          ShiftOrder(e[j].key, e[p - 1].key, off);
        }
      }
    }
  }

  lemma TrailFlat(ks: seq<Tuple>, ch: seq<Tree>, i: nat)
    requires |ch| == |ks| + 1 && i < |ch|
    ensures Rows(Trail(ks, Parts(ch), i)) == FlatAll(ch[i + 1..])
  {
    hide Marks, Weave;
    if i < |ks| {
      assert Parts(ch)[i + 1..] == Parts(ch[i + 1..]);
      RunFlat(ks[i + 1..], ch[i + 1..]);
      RowsConcat([Sep(ks[i])], Run(ks[i + 1..], ch[i + 1..]));
      assert Rows([Sep(ks[i])]) == [];
    } else {
      assert ch[i + 1..] == [];
    }
  }

  /** No entry right of the child that `ChildIndex` picks is at or below `key`. */
  lemma RightIsPast(t: Tree, off: int, h: nat, key: Tuple)
    requires Shaped(t, h) && t.node.Internal? && Ordered(Marks(t))
    ensures var d := off + t.dsp;
      var i := ChildIndex(t.node.keys, d, key);
      i < |t.node.children| && AllPast(FlatAll(RelocateAll(t.node.children, d)[i + 1..]), key)
  {
    hide Rows, Marks, Ordered, Weave, Less, ChildIndex, Lead, Trail, FlatAll;
    var d := off + t.dsp;
    var ks, ch := ShiftKeys(t.node.keys, d), RelocateAll(t.node.children, d);
    SeenInternal(t, off, h);
    ChildIndexFrames(t.node.keys, d, 0, key);
    ShiftZero(key);
    LocatedRows(ks, ch, key);
    TrailFlat(ks, ch, ChildIndex(ks, 0, key));
  }

  lemma SeenSorted(t: Tree, off: int)
    requires Ordered(Marks(t))
    ensures Sorted(Seen(t, off))
  {
    hide Rows, Marks, Ordered, Sorted;
    match t
    case Nil => NilFlat(); NothingIsSorted();
    case Ref(n, d) =>
      RelocateMarks(t, off);
      ShiftMarksOrdered(Marks(t), off);
      RowsSorted(Marks(Relocate(t, off)));
  }

  lemma NothingIsSorted()
    ensures Sorted([])
  {
  }

  /** One child of the walk: an entry found there answers for the whole run, and a
      child with none joins what lies past the key. */
  lemma FloorStep(ch: seq<Tree>, j: nat, key: Tuple, r: Option<Entry>)
    requires j < |ch| && Sorted(FlatAll(ch)) && AllPast(FlatAll(ch[j + 1..]), key) && IsFloor(Flat(ch[j]), key, r)
    ensures if r.Some? then IsFloor(FlatAll(ch), key, r) else AllPast(FlatAll(ch[j..]), key)
  {
    hide Rows, Marks, Less, Sorted, Flat, FlatAll;
    var a, m, c := FlatAll(ch[..j]), Flat(ch[j]), FlatAll(ch[j + 1..]);
    AroundChild(ch, j);
    if r.Some? {
      FloorInMiddle(a, m, c, key, r.value);
    }
  }

  lemma AroundChild(ch: seq<Tree>, j: nat)
    requires j < |ch|
    ensures FlatAll(ch[j..]) == Flat(ch[j]) + FlatAll(ch[j + 1..])
    ensures FlatAll(ch) == FlatAll(ch[..j]) + Flat(ch[j]) + FlatAll(ch[j + 1..])
  {
    hide Flat, FlatAll;
    FromChild(ch, j);
    FlatAllHalves(ch, j);
  }

  lemma FromChild(ch: seq<Tree>, j: nat)
    requires j < |ch|
    ensures FlatAll(ch[j..]) == Flat(ch[j]) + FlatAll(ch[j + 1..])
  {
    hide Flat, FlatAll;
    FlatAllHalves(ch[j..], 1);
    assert ch[j..][1..] == ch[j + 1..];
    assert ch[j..][..1] == [ch[j]];
    OneFlat(ch[j]);
  }

  lemma FlatAllHalves(ch: seq<Tree>, j: nat)
    requires j <= |ch|
    ensures FlatAll(ch) == FlatAll(ch[..j]) + FlatAll(ch[j..])
  {
    hide Flat, FlatAll;
    FlatAllConcat(ch[..j], ch[j..]);
    assert ch[..j] + ch[j..] == ch;
  }

  lemma OneFlat(t: Tree)
    ensures FlatAll([t]) == Flat(t)
  {
    hide Flat;
    assert [t][..0] == [];
  }

  method LastLeIn(t: Tree, key: Tuple, off: int, ghost h: nat) returns (r: Option<Entry>)
    requires t.Ref? ==> Shaped(t, h) && Ordered(Marks(t))
    ensures IsFloor(Seen(t, off), key, r)
    decreases h
  {
    hide Rows, Marks, Ordered, NodeShape, ChildIndex, UpTo, Less, IsFloor, Shift, FlatAll, Sorted, Flat, Seen, AllPast;
    if t.Nil? {
      SeenNothing(t, off);
      NothingPast(key);
      return None;
    }
    var d := off + t.dsp;
    match t.node {
      case Leaf(_, e) =>
        SeenLeaf(t, off, h);
        LeafSorted(t, h);
        FloorInLeaf(e, d, key);
        var p := UpTo(e, d, key);
        r := if p > 0 then Some(Entry(Shift(e[p - 1].key, d), e[p - 1].val)) else None;
      case Internal(_, keys, children) =>
        SeenInternal(t, off, h);
        SeenSorted(t, off);
        RightIsPast(t, off, h, key);
        ghost var ch := RelocateAll(children, d);
        var j := ChildIndex(keys, d, key) + 1;
        while j > 0
          invariant 0 <= j <= |ch| && AllPast(FlatAll(ch[j..]), key)
        {
          j := j - 1;
          SeenChild(children, d, j);
          r := LastLeIn(children[j], key, d, h - 1);
          FloorStep(ch, j, key, r);
          if r.Some? {
            return r;
          }
        }
        assert ch[j..] == ch;
        NoFloor(FlatAll(ch), key);
        r := None;
    }
  }

  lemma NoFloor(e: seq<Entry>, key: Tuple)
    requires AllPast(e, key)
    ensures IsFloor(e, key, None)
  {
  }

  lemma NothingPast(key: Tuple)
    ensures IsFloor([], key, None)
  {
  }

  /** The greatest entry at or below `key`, or none. */
  method LastLe(t: Tree, key: Tuple) returns (r: Option<Entry>)
    requires Valid(t)
    ensures IsFloor(Flat(t), key, r)
  {
    hide Marks, Rows, Ordered, NodeShape, IsFloor;
    SeenSame(t);
    r := LastLeIn(t, key, 0, Height(t));
  }

  /** Sorted entries have at most one floor. */
  lemma FloorIsUnique(e: seq<Entry>, key: Tuple, r: Option<Entry>, s: Option<Entry>)
    requires Sorted(e) && IsFloor(e, key, r) && IsFloor(e, key, s)
    ensures r == s
  {
    hide Less;
    if r.Some? && s.Some? {
      var x, y := r.value, s.value;
      assert Leq(y.key, x.key) && Leq(x.key, y.key);
      if x.key != y.key {
        LessAsymmetric(x.key, y.key);
      }
      var i :| 0 <= i < |e| && e[i] == x;
      var j :| 0 <= j < |e| && e[j] == y;
      LessIrreflexive(x.key);
    } else {
      if r.Some? {
        NotPast(r.value.key, key);
      }
      if s.Some? {
        NotPast(s.value.key, key);
      }
    }
  }
}
