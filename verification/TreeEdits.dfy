/** Insertion and removal on displaced trees. Each result is described by the map
    it stands for and by the shape it keeps. */
module TreeEdits {
  import opened Values
  import opened Displacements
  import opened MarkLists
  import opened Trees

  /** A rewritten subtree: of height `h`, with at least `w` entries or children if
      it did not split, and two solid halves if it did. */
  ghost predicate Fits(r: Ins, h: nat, w: nat) {
    match r
    case Done(t) => Shaped(t, h) && Width(t.node) >= w
    case Split(l, _, r) => Solid(l, h) && Solid(r, h)
  }

  /** An internal node that an operation may rewrite has at least two children. */
  predicate Wide(t: Tree) {
    t.Ref? && t.node.Internal? ==> |t.node.children| >= 2
  }

  lemma FitsTight(r: Ins, h: nat, w: nat)
    requires Fits(r, h, w)
    ensures Tight(InsMarks(r))
  {
    hide NodeShape, Marks;
    match r
    case Done(t) => ShapedTight(t, h);
    case Split(l, _, r) => ShapedTight(l, h); ShapedTight(r, h);
  }

  // ----- editing a leaf -----

  /** The place of `key` among the entries of a leaf, read with the keys moved by `off`. */
  function UpTo(e: seq<Entry>, off: int, key: Tuple): (i: nat)
    ensures i <= |e|
    ensures forall j | 0 <= j < i :: !Less(key, Shift(e[j].key, off))
    ensures i < |e| ==> Less(key, Shift(e[i].key, off))
  {
    if e == [] then 0 else
    CmpMeans(e[0].key, off, key);
    if CmpDisplaced(e[0].key, off, key) == Greater then 0 else 1 + UpTo(e[1..], off, key)
  }

  /** In a sorted leaf that is a binary search's answer: everything before the
      last such entry is below the key, everything after it above. */
  lemma UpToSplits(e: seq<Entry>, off: int, key: Tuple)
    requires Sorted(e)
    ensures var p := UpTo(e, off, key);
            && (forall j | p <= j < |e| :: Less(key, Shift(e[j].key, off)))
            && (forall j | 0 <= j < p :: j < p - 1 || Shift(e[j].key, off) != key ==> Less(Shift(e[j].key, off), key))
  {
    hide Less, UpTo, Shift;
    var p := UpTo(e, off, key);
    forall j | p <= j < |e| ensures Less(key, Shift(e[j].key, off)) {
      if j > p {
        assert Less(e[p].key, e[j].key);
        ShiftOrder(e[p].key, e[j].key, off);
        LessTransitive(key, Shift(e[p].key, off), Shift(e[j].key, off));
      }
    }
    forall j | 0 <= j < p && (j < p - 1 || Shift(e[j].key, off) != key) ensures Less(Shift(e[j].key, off), key) {
      LessTotal(key, Shift(e[j].key, off));
      if j < p - 1 {
        assert Less(e[j].key, e[p - 1].key);
        ShiftOrder(e[j].key, e[p - 1].key, off);
        LessTotal(key, Shift(e[p - 1].key, off));
        LessLeq(Shift(e[j].key, off), Shift(e[p - 1].key, off), key);
      }
    }
  }

  lemma UpToCuts(e: seq<Entry>, key: Tuple)
    requires Sorted(e)
    ensures var p := UpTo(e, 0, key);
            && Above(e, key) == e[p..]
            && (p > 0 && e[p - 1].key == key ==> Below(e, key) == e[..p - 1])
            && (p == 0 || e[p - 1].key != key ==> Below(e, key) == e[..p] && Absent(e, key))
  {
    hide Below, AtOrAbove, Above, Less, UpTo, Shift, Sorted, Absent;
    var p := UpTo(e, 0, key);
    UpToSplits(e, 0, key);
    var hit := p > 0 && e[p - 1].key == key;
    var q := if hit then p - 1 else p;
    var a, b, c := e[..q], e[q..p], e[p..];
    assert e == a + b + c;
    forall j | 0 <= j < |e| ensures Shift(e[j].key, 0) == e[j].key {
      ShiftZero(e[j].key);
    }
    PartsLie(e, q, p, key);
    CutAround(a, b, c, key);
  }

  lemma PartsLie(e: seq<Entry>, q: nat, p: nat, key: Tuple)
    requires q <= p <= |e|
    requires forall j | 0 <= j < q :: Less(e[j].key, key)
    requires forall j | p <= j < |e| :: Less(key, e[j].key)
    ensures forall x <- e[..q] :: Less(x.key, key)
    ensures forall x <- e[p..] :: Less(key, x.key)
  {
  }

  /** No row at `key`. */
  predicate Absent(e: seq<Entry>, key: Tuple) {
    forall x <- e :: x.key != key
  }

  lemma CutAround(a: seq<Entry>, b: seq<Entry>, c: seq<Entry>, k: Tuple)
    requires forall x <- a :: Less(x.key, k)
    requires forall x <- c :: Less(k, x.key)
    requires b == [] || (|b| == 1 && b[0].key == k)
    ensures Below(a + b + c, k) == a && Above(a + b + c, k) == c
    ensures b == [] ==> Absent(a + b + c, k)
  {
    hide Below, AtOrAbove, Above, Less;
    CutMiddle(a, b, c, k);
    LessIrreflexive(k);
    if b == [] {
      CutNone(k);
    } else {
      assert b == [b[0]];
      CutOne(b[0], k);
    }
  }

  lemma CutNone(k: Tuple)
    ensures Below([], k) == [] && Above([], k) == [] && AtOrAbove([], k) == []
  {
  }

  lemma CutOne(x: Entry, k: Tuple)
    requires x.key == k
    ensures Below([x], k) == [] && Above([x], k) == []
  {
    LessIrreflexive(k);
    assert [x][..0] == [];
  }

  lemma {:induction false} CutsWithin(e: seq<Entry>, k: Tuple)
    ensures forall x <- Below(e, k) :: x in e && Less(x.key, k)
    ensures forall x <- Above(e, k) :: x in e && Less(k, x.key)
    ensures forall x <- AtOrAbove(e, k) :: x in e && Leq(k, x.key)
  {
    hide Less;
    if e != [] {
      var n := |e| - 1;
      CutsWithin(e[..n], k);
      LessTotal(k, e[n].key);
    }
  }

  lemma {:induction false} CutsSorted(e: seq<Entry>, k: Tuple)
    requires Sorted(e)
    ensures Sorted(Below(e, k)) && Sorted(Above(e, k)) && Sorted(AtOrAbove(e, k))
  {
    hide Less;
    if e != [] {
      var n := |e| - 1;
      CutsSorted(e[..n], k);
      CutsWithin(e[..n], k);
      forall x | x in e[..n] ensures Less(x.key, e[n].key) {
        var i :| 0 <= i < n && e[i] == x;
        assert Less(e[i].key, e[n].key);
      }
      SortedSnoc(Below(e[..n], k), e[n]);
      SortedSnoc(Above(e[..n], k), e[n]);
      SortedSnoc(AtOrAbove(e[..n], k), e[n]);
    }
  }

  lemma SortedSnoc(e: seq<Entry>, x: Entry)
    requires Sorted(e) && forall y <- e :: Less(y.key, x.key)
    ensures Sorted(e + [x])
  {
    hide Less;
    SortedConcat(e, [x]);
  }

  lemma EditsSorted(e: seq<Entry>, k: Tuple, v: int)
    requires Sorted(e)
    ensures Sorted(Put(e, k, v)) && Sorted(Drop(e, k))
    ensures forall x <- Put(e, k, v) :: x in e || x == Entry(k, v)
    ensures forall x <- Drop(e, k) :: x in e
  {
    hide Below, Above, Less;
    CutsWithin(e, k);
    CutsSorted(e, k);
    var a, c := Below(e, k), Above(e, k);
    forall x, y | x in a && y in c ensures Less(x.key, y.key) {
      LessTransitive(x.key, k, y.key);
    }
    SortedConcat(a, c);
    SortedConcat(a, [Entry(k, v)]);
    SortedConcat(a + [Entry(k, v)], c);
  }

  method LeafInsert(e: seq<Entry>, key: Tuple, val: int) returns (r: seq<Entry>)
    requires Sorted(e)
    ensures r == Put(e, key, val)
    ensures |e| <= |r| <= |e| + 1
  {
    hide Below, Above, UpTo, Less, Absent;
    UpToCuts(e, key);
    var p := UpTo(e, 0, key);
    if p > 0 && e[p - 1].key == key {
      r := e[p - 1 := Entry(key, val)];
      assert r == e[..p - 1] + [Entry(key, val)] + e[p..];
    } else {
      r := e[..p] + [Entry(key, val)] + e[p..];
    }
  }

  /** A rewritten leaf, halved if it overflowed. */
  method FinishLeaf(e: seq<Entry>) returns (r: Ins)
    requires Sorted(e) && |e| <= 2 * B
    ensures e == [] ==> r == Done(Nil)
    ensures e != [] ==> Fits(r, 1, |e|)
    ensures Ordered(InsMarks(r)) && Rows(InsMarks(r)) == e
  {
    if |e| <= B {
      r := Done(if e == [] then Nil else MakeLeaf(e));
      MakeLeafMarks(e);
      AsMarksOrdered(e);
    } else {
      var mid := |e| / 2;
      var right := e[mid..];
      r := Split(MakeLeaf(e[..mid]), right[0].key, MakeLeaf(right));
      assert e == e[..mid] + right;
      HalvedLeaf(e[..mid], right);
    }
  }

  lemma HalvedLeaf(a: seq<Entry>, b: seq<Entry>)
    requires Sorted(a + b) && a != [] && b != []
    ensures Ordered(InsMarks(Split(MakeLeaf(a), b[0].key, MakeLeaf(b))))
    ensures Rows(InsMarks(Split(MakeLeaf(a), b[0].key, MakeLeaf(b)))) == a + b
  {
    hide Rows, Marks, Less, Ordered, MakeLeaf;
    MakeLeafMarks(a);
    MakeLeafMarks(b);
    var x, y := AsMarks(a), AsMarks(b);
    SortedConcat(a, b);
    AsMarksOrdered(a);
    AsMarksOrdered(b);
    assert a[|a| - 1] in a && b[0] in b;
    TightSplice(x, y);
    RowsAround(x, b[0].key, y);
  }

  /** Two ordered lists with the right one's least key between them. */
  lemma TightSplice(x: seq<Mark>, y: seq<Mark>)
    requires Ordered(x) && Tight(x) && Ordered(y) && Tight(y) && Less(High(x), Low(y))
    ensures Ordered(x + [Sep(Low(y))] + y)
  {
    hide Less;
    var s := [Sep(Low(y))];
    TightAcross(x, y);
    OrderedConcat(x, s);
    OrderedConcat(x + s, y);
  }

  // ----- finishing and fusing -----

  function FromParts(ks: seq<Tuple>, ch: seq<Tree>): Tree {
    if |ch| == 0 then Nil else if |ch| == 1 then ch[0] else MakeInternal(ks, ch)
  }

  /** A rewritten run of children, halved if it overflowed; the separator between
      the halves moves up. Nothing is added to or lost from the run. */
  method Finish(ks: seq<Tuple>, ch: seq<Tree>, ghost h: nat) returns (r: Ins)
    requires 1 <= |ch| <= 2 * B && |ch| == |ks| + 1
    requires h >= 2 && AllSolid(ch, h - 1)
    ensures Fits(r, h, |ch|) && (|ch| <= B ==> r == Done(MakeInternal(ks, ch)))
    ensures InsMarks(r) == Run(ks, ch)
  {
    hide NodeShape;
    if |ch| <= B {
      MakeInternalMarks(ks, ch);
      InternalShaped(ks, ch, h);
      r := Done(MakeInternal(ks, ch));
    } else {
      var mid := |ch| / 2;
      var rch := ch[mid..];
      var rks := ks[mid..];
      var promoted := ks[mid - 1];
      r := Split(MakeInternal(ks[..mid - 1], ch[..mid]), promoted, MakeInternal(rks, rch));
      HalvedRun(ks, ch, mid);
      forall c | c in ch[..mid] || c in rch ensures c in ch {
      }
      InternalShaped(ks[..mid - 1], ch[..mid], h);
      InternalShaped(rks, rch, h);
    }
  }

  lemma InternalShaped(ks: seq<Tuple>, ch: seq<Tree>, h: nat)
    requires 1 <= |ch| <= B && |ch| == |ks| + 1 && h >= 2 && AllSolid(ch, h - 1)
    ensures Shaped(MakeInternal(ks, ch), h)
  {
  }

  lemma HalvedRun(ks: seq<Tuple>, ch: seq<Tree>, mid: nat)
    requires |ch| == |ks| + 1 && 0 < mid < |ch|
    ensures InsMarks(Split(MakeInternal(ks[..mid - 1], ch[..mid]), ks[mid - 1], MakeInternal(ks[mid..], ch[mid..])))
         == Run(ks, ch)
  {
    hide Marks, Weave;
    var a, b := ks[..mid - 1], ks[mid..];
    MakeInternalMarks(a, ch[..mid]);
    MakeInternalMarks(b, ch[mid..]);
    WeaveConcat(a, Parts(ch[..mid]), ks[mid - 1], b, Parts(ch[mid..]));
    assert a + [ks[mid - 1]] + b == ks;
    assert Parts(ch[..mid]) + Parts(ch[mid..]) == Parts(ch);
  }

  /** Two siblings and the separator between them as one node, or as two again if
      that overflows. Either may be small; the rows stay as they were. */
  method FusePair(l: Tree, sep: Tuple, r: Tree, ghost h: nat) returns (res: Ins)
    requires Shaped(l, h) && Shaped(r, h)
    requires Ordered(Marks(l) + [Sep(sep)] + Marks(r))
    ensures Fits(res, h, Width(l.node) + Width(r.node)) && Ordered(InsMarks(res))
    ensures Rows(InsMarks(res)) == Flat(l) + Flat(r)
  {
    hide Marks, Weave, NodeShape, Ordered, Rows, Less, Open;
    OpenMeans(l, h);
    OpenMeans(r, h);
    RowsAround(Marks(l), sep, Marks(r));
    match (Open(l), Open(r)) {
      case (Entries(e1), Entries(e2)) =>
        FusedLeaves(e1, sep, e2);
        res := FinishLeaf(e1 + e2);
      case (Kids(k1, c1), Kids(k2, c2)) =>
        FusedKids(k1, c1, sep, k2, c2, h - 1);
        res := Finish(k1 + [sep] + k2, c1 + c2, h);
    }
  }

  lemma FusedKids(k1: seq<Tuple>, c1: seq<Tree>, sep: Tuple, k2: seq<Tuple>, c2: seq<Tree>, h: nat)
    requires |c1| == |k1| + 1 && |c2| == |k2| + 1 && AllSolid(c1, h) && AllSolid(c2, h)
    ensures AllSolid(c1 + c2, h)
    ensures Run(k1 + [sep] + k2, c1 + c2) == Run(k1, c1) + [Sep(sep)] + Run(k2, c2)
  {
    hide Marks, Weave, NodeShape;
    WeaveConcat(k1, Parts(c1), sep, k2, Parts(c2));
    assert Parts(c1) + Parts(c2) == Parts(c1 + c2);
  }

  lemma RowsAround(a: seq<Mark>, k: Tuple, b: seq<Mark>)
    ensures Rows(a + [Sep(k)] + b) == Rows(a) + Rows(b)
  {
    RowsConcat(a + [Sep(k)], b);
    RowsConcat(a, [Sep(k)]);
    RowsOfSep(k);
  }

  lemma FusedLeaves(a: seq<Entry>, sep: Tuple, b: seq<Entry>)
    requires Ordered(AsMarks(a) + [Sep(sep)] + AsMarks(b))
    ensures Sorted(a + b)
    ensures Rows(AsMarks(a)) == a && Rows(AsMarks(b)) == b
  {
    hide Less;
    RowsAsMarks(a);
    RowsAsMarks(b);
    RowsAround(AsMarks(a), sep, AsMarks(b));
    RowsSorted(AsMarks(a) + [Sep(sep)] + AsMarks(b));
  }

  /** Fuses children `j` and `j + 1` of a run, dropping the separator between them. */
  method Fuse(ks: seq<Tuple>, ch: seq<Tree>, j: nat, ghost h: nat) returns (ks': seq<Tuple>, ch': seq<Tree>)
    requires |ch| == |ks| + 1 && j + 1 < |ch| && Ordered(Run(ks, ch))
    requires forall i | 0 <= i < |ch| && i != j && i != j + 1 :: Solid(ch[i], h)
    requires Shaped(ch[j], h) && Shaped(ch[j + 1], h) && (Solid(ch[j], h) || Solid(ch[j + 1], h))
    ensures |ch'| == |ks'| + 1 && |ch| - 1 <= |ch'| <= |ch| && AllSolid(ch', h)
    ensures Ordered(Run(ks', ch')) && Rows(Run(ks', ch')) == Rows(Run(ks, ch))
  {
    hide Marks, Weave, NodeShape, Ordered, Rows, Less, Lead, Trail;
    var sep := ks[j];
    var right := ch[j + 1];
    ks', ch' := ks[..j] + ks[j + 1..], ch[..j + 1] + ch[j + 2..];
    ghost var pair := Split(ch[j], sep, right);
    FocusPair(ks, ch, j, ks', ch', pair);
    var res := FusePair(ch'[j], sep, right, h);
    FusedRun(ks', ch', j, pair, res, h, Width(ch[j].node) + Width(right.node));
    FusedSolid(ch', j, res, h);
    ks', ch' := PlaceKeys(ks', j, res), PlaceKids(ch', j, res);
  }

  lemma FusedSolid(ch: seq<Tree>, j: nat, res: Ins, h: nat)
    requires j < |ch| && Fits(res, h, MIN)
    requires forall i | 0 <= i < |ch| && i != j :: Solid(ch[i], h)
    ensures AllSolid(PlaceKids(ch, j, res), h)
  {
    hide NodeShape;
    forall c | c in PlaceKids(ch, j, res) ensures Solid(c, h) {
      match res
      case Done(t) =>
        var i :| 0 <= i < |ch| && c == ch[j := t][i];
      case Split(l, _, r) =>
        if c != l && c != r {
          assert c in ch[..j] || c in ch[j + 1..];
          var i :| 0 <= i < |ch| && i != j && c == ch[i];
        }
    }
  }

  /** A run with two neighbours named is a shorter run with one of them split. */
  lemma FocusPair(ks: seq<Tuple>, ch: seq<Tree>, j: nat, k0: seq<Tuple>, c0: seq<Tree>, pair: Ins)
    requires |ch| == |ks| + 1 && j + 1 < |ch| && Ordered(Run(ks, ch))
    requires k0 == ks[..j] + ks[j + 1..] && c0 == ch[..j + 1] + ch[j + 2..] && pair == Split(ch[j], ks[j], ch[j + 1])
    ensures ks == PlaceKeys(k0, j, pair) && ch == PlaceKids(c0, j, pair)
    ensures Run(ks, ch) == Lead(k0, Parts(c0), j) + InsMarks(pair) + Trail(k0, Parts(c0), j)
    ensures Ordered(InsMarks(pair))
  {
    hide Weave, Marks, Less;
    assert ks == PlaceKeys(k0, j, pair);
    assert ch == PlaceKids(c0, j, pair);
    PlaceMarks(k0, c0, j, pair);
    OrderedAcross(Lead(k0, Parts(c0), j), InsMarks(pair), Trail(k0, Parts(c0), j));
  }

  lemma FusedRun(ks: seq<Tuple>, ch: seq<Tree>, j: nat, r: Ins, r': Ins, h: nat, w: nat)
    requires |ch| == |ks| + 1 && j < |ch|
    requires Ordered(Lead(ks, Parts(ch), j) + InsMarks(r) + Trail(ks, Parts(ch), j))
    requires r.Split? && Fits(r', h, w) && Ordered(InsMarks(r'))
    requires Rows(InsMarks(r')) == Flat(r.l) + Flat(r.r)
    ensures |PlaceKids(ch, j, r')| == |PlaceKeys(ks, j, r')| + 1
    ensures var m := Run(PlaceKeys(ks, j, r'), PlaceKids(ch, j, r'));
            Ordered(m) && Rows(m) == Rows(Lead(ks, Parts(ch), j) + InsMarks(r) + Trail(ks, Parts(ch), j))
  {
    hide Weave, Marks, Less, Rows, NodeShape, Ordered;
    var a, m, m', b := Lead(ks, Parts(ch), j), InsMarks(r), InsMarks(r'), Trail(ks, Parts(ch), j);
    PlaceMarks(ks, ch, j, r');
    FitsTight(r', h, w);
    RowsAround(Marks(r.l), r.sep, Marks(r.r));
    RefitSame(a, m, m', b);
    RowsConcat(a + m, b);
    RowsConcat(a, m);
    RowsConcat(a + m', b);
    RowsConcat(a, m');
  }

  predicate Underflows(t: Tree) {
    t.Nil? || Width(t.node) < MIN
  }

  /** Mends child `i`, if it is too narrow, by bringing in a neighbour. With no neighbour
      nothing is done. */
  method Fix(ks: seq<Tuple>, ch: seq<Tree>, i: nat, ghost h: nat) returns (ks': seq<Tuple>, ch': seq<Tree>)
    requires |ch| == |ks| + 1 && i < |ch| && Ordered(Run(ks, ch))
    requires forall j | 0 <= j < |ch| && j != i :: Solid(ch[j], h)
    requires Shaped(ch[i], h)
    ensures |ch'| == |ks'| + 1 && |ch| - 1 <= |ch'| <= |ch|
    ensures Ordered(Run(ks', ch')) && Rows(Run(ks', ch')) == Rows(Run(ks, ch))
    ensures |ch| >= 2 ==> AllSolid(ch', h)
    ensures Solid(ch[i], h) ==> ks' == ks && ch' == ch
  {
    ks', ch' := ks, ch;
    if !Underflows(ch[i]) {
      return;
    }
    if i > 0 {
      ks', ch' := Fuse(ks, ch, i - 1, h);
    } else if |ch| > 1 {
      ks', ch' := Fuse(ks, ch, i, h);
    }
  }

  // ----- one child rewritten around a key -----

  /** The child a key belongs to has everything left of it below the key, and
      everything right of it above. */
  lemma Located(ks: seq<Tuple>, ch: seq<Tree>, key: Tuple)
    requires |ch| == |ks| + 1 && Ordered(Run(ks, ch))
    ensures var i := ChildIndex(ks, 0, key);
            && (forall a <- Lead(ks, Parts(ch), i) :: Before(a, Sep(key)))
            && (forall b <- Trail(ks, Parts(ch), i) :: Less(key, b.key))
  {
    hide Weave, Less, ChildIndex, Marks;
    var i := ChildIndex(ks, 0, key);
    var l, m, r := Lead(ks, Parts(ch), i), Marks(ch[i]), Trail(ks, Parts(ch), i);
    FocusOrdered(ks, ch, i);
    OrderedAcross(l, m, r);
    if i > 0 {
      ShiftZero(ks[i - 1]);
      LessTotal(key, ks[i - 1]);
      var n := |l| - 1;
      assert l[n] == Sep(ks[i - 1]);
      forall a | a in l ensures Before(a, Sep(key)) {
        var j :| 0 <= j < |l| && l[j] == a;
        if j < n {
          assert Before(l[j], l[n]);
          BeforeLeq(a, l[n], Sep(key));
        }
      }
    }
    if i < |ks| {
      ShiftZero(ks[i]);
      assert r[0] == Sep(ks[i]);
      forall b | b in r ensures Less(key, b.key) {
        var j :| 0 <= j < |r| && r[j] == b;
        if j > 0 {
          assert Before(r[0], r[j]);
          LessLeq(key, ks[i], b.key);
        }
      }
    }
  }

  lemma LocatedRows(ks: seq<Tuple>, ch: seq<Tree>, key: Tuple)
    requires |ch| == |ks| + 1 && Ordered(Run(ks, ch))
    ensures var i := ChildIndex(ks, 0, key);
            && (forall x <- Rows(Lead(ks, Parts(ch), i)) :: Less(x.key, key))
            && (forall x <- Rows(Trail(ks, Parts(ch), i)) :: Less(key, x.key))
  {
    hide Weave, Less, ChildIndex, Marks, Ordered, Rows;
    var i := ChildIndex(ks, 0, key);
    var l, r := Lead(ks, Parts(ch), i), Trail(ks, Parts(ch), i);
    Located(ks, ch, key);
    forall x | x in Rows(l) ensures Less(x.key, key) {
      RowsIn(l, x);
      assert Before(Row(x.key, x.val), Sep(key));
    }
    forall x | x in Rows(r) ensures Less(key, x.key) {
      RowsIn(r, x);
    }
  }

  /** The child a key belongs to, rewritten with some of its rows and perhaps one
      at the key. */
  lemma ReplaceChild(ks: seq<Tuple>, ch: seq<Tree>, key: Tuple, r: Ins)
    requires |ch| == |ks| + 1 && Ordered(Run(ks, ch))
    requires Ordered(InsMarks(r)) && Tight(InsMarks(r))
    requires forall e <- Rows(InsMarks(r)) :: e in Flat(ch[ChildIndex(ks, 0, key)]) || e.key == key
    ensures var i := ChildIndex(ks, 0, key);
            && |PlaceKids(ch, i, r)| == |PlaceKeys(ks, i, r)| + 1
            && Ordered(Run(PlaceKeys(ks, i, r), PlaceKids(ch, i, r)))
            && Rows(Run(PlaceKeys(ks, i, r), PlaceKids(ch, i, r)))
            == Rows(Lead(ks, Parts(ch), i)) + Rows(InsMarks(r)) + Rows(Trail(ks, Parts(ch), i))
  {
    hide Weave, Less, ChildIndex, Marks, Ordered, Rows, Lead, Trail;
    var i := ChildIndex(ks, 0, key);
    var a, m, m', b := Lead(ks, Parts(ch), i), Marks(ch[i]), InsMarks(r), Trail(ks, Parts(ch), i);
    PlaceMarks(ks, ch, i, r);
    FocusOrdered(ks, ch, i);
    Located(ks, ch, key);
    OrderedAcross(a, m, b);
    forall e | e in Rows(m')
      ensures forall x <- a :: Before(x, Row(e.key, e.val))
      ensures forall x <- b :: Before(Row(e.key, e.val), x)
    {
      RowsIn(m, e);
      if e.key == key {
        forall x | x in a ensures Before(x, Row(e.key, e.val)) {
          assert Before(x, Sep(key));
        }
      }
    }
    Refit(a, m, m', b);
    RowsConcat(a + m', b);
    RowsConcat(a, m');
  }

  // ----- insert -----

  method InsertInto(t: Tree, key: Tuple, val: int, ghost h: nat) returns (r: Ins)
    requires Shaped(t, h) && Wide(t) && Ordered(Marks(t))
    ensures Fits(r, h, Width(t.node)) && Ordered(InsMarks(r))
    ensures Rows(InsMarks(r)) == Put(Flat(t), key, val)
    decreases h
  {
    hide Less, Put, Weave, Ordered, Rows, Marks, ChildIndex, Lead, Trail, NodeShape;
    OpenMeans(t, h);
    match Open(t) {
      case Entries(e) =>
        FlatLeaf(t, e);
        EditsSorted(e, key, val);
        var e' := LeafInsert(e, key, val);
        r := FinishLeaf(e');
      case Kids(ks, ch) =>
        var i := ChildIndex(ks, 0, key);
        assert ch[i] in ch;
        FocusOrdered(ks, ch, i);
        var sub := InsertInto(ch[i], key, val, h - 1);
        PutInChild(ks, ch, key, val, sub, h - 1);
        r := Placed(ks, ch, i, sub, h);
    }
  }

  /** A run with the rewritten child `i` in it, as a node. */
  method Placed(ks: seq<Tuple>, ch: seq<Tree>, i: nat, sub: Ins, ghost h: nat) returns (r: Ins)
    requires 2 <= |ch| <= B && |ch| == |ks| + 1 && i < |ch| && h >= 2
    requires AllSolid(PlaceKids(ch, i, sub), h - 1) && Ordered(Run(PlaceKeys(ks, i, sub), PlaceKids(ch, i, sub)))
    ensures Fits(r, h, |ch|) && InsMarks(r) == Run(PlaceKeys(ks, i, sub), PlaceKids(ch, i, sub))
  {
    hide Less, Weave, Ordered, Rows, Marks, NodeShape;
    match sub {
      case Done(c) =>
        var ch' := ch[i := c];
        assert ch'[i] in ch';
        // Joining runs could leave the child short, never one of plain rows.
        var ks1, ch1 := Fix(ks, ch', i, h - 1);
        r := Done(FromParts(ks1, ch1));
        MakeInternalMarks(ks1, ch1);
        InternalShaped(ks1, ch1, h);
      case Split(_, _, _) =>
        r := Finish(PlaceKeys(ks, i, sub), PlaceKids(ch, i, sub), h);
    }
  }

  lemma FlatLeaf(t: Tree, e: seq<Entry>)
    requires Marks(t) == AsMarks(e) && Ordered(Marks(t))
    ensures Flat(t) == e && Sorted(e)
  {
    RowsAsMarks(e);
    AsMarksOrdered(e);
  }

  lemma PutInChild(ks: seq<Tuple>, ch: seq<Tree>, key: Tuple, val: int, sub: Ins, h: nat)
    requires |ch| == |ks| + 1 && Ordered(Run(ks, ch)) && AllSolid(ch, h)
    requires ch[ChildIndex(ks, 0, key)].Ref? && Fits(sub, h, Width(ch[ChildIndex(ks, 0, key)].node))
    requires Ordered(InsMarks(sub)) && Rows(InsMarks(sub)) == Put(Flat(ch[ChildIndex(ks, 0, key)]), key, val)
    ensures var i := ChildIndex(ks, 0, key);
            && |PlaceKids(ch, i, sub)| == |PlaceKeys(ks, i, sub)| + 1
            && AllSolid(PlaceKids(ch, i, sub), h)
            && Ordered(Run(PlaceKeys(ks, i, sub), PlaceKids(ch, i, sub)))
            && Rows(Run(PlaceKeys(ks, i, sub), PlaceKids(ch, i, sub))) == Put(Rows(Run(ks, ch)), key, val)
  {
    hide Less, Put, Weave, Ordered, Rows, Marks, ChildIndex, NodeShape, Lead, Trail;
    var i := ChildIndex(ks, 0, key);
    assert ch[i] in ch;
    FitsTight(sub, h, Width(ch[i].node));
    FocusOrdered(ks, ch, i);
    RowsSorted(Marks(ch[i]));
    EditsSorted(Flat(ch[i]), key, val);
    ReplaceChild(ks, ch, key, sub);
    RunRows(ks, ch, i);
    LocatedRows(ks, ch, key);
    EditMiddle(Rows(Lead(ks, Parts(ch), i)), Flat(ch[i]), Rows(Trail(ks, Parts(ch), i)), key, val);
    FusedSolid(ch, i, sub, h);
  }

  /** The root an operation leaves behind. */
  lemma RootOf(r: Ins, h: nat)
    requires Fits(r, h, 1) && Ordered(InsMarks(r)) && (r.Done? ==> Wide(r.t))
    ensures r.Done? ==> Valid(r.t)
    ensures r.Split? ==>
      Valid(MakeInternal([r.sep], [r.l, r.r])) && Flat(MakeInternal([r.sep], [r.l, r.r])) == Rows(InsMarks(r))
  {
    match r
    case Done(t) => ShapeHeight(t.node, h);
    case Split(a, k, b) =>
      MakeInternalMarks([k], [a, b]);
      PairRun(a, k, b);
      ShapeHeight(MakeInternal([k], [a, b]).node, h + 1);
  }

  lemma PairRun(a: Tree, k: Tuple, b: Tree)
    ensures Run([k], [a, b]) == Marks(a) + [Sep(k)] + Marks(b)
  {
    var ps := Parts([a, b]);
    WeaveConcat([], [ps[0]], k, [], [ps[1]]);
    assert [] + [k] + [] == [k] && [ps[0]] + [ps[1]] == ps;
  }

  /** `key` bound to `val`: exactly the map update, with every invariant kept. */
  method Insert(t: Tree, key: Tuple, val: int) returns (r: Tree)
    requires Valid(t)
    ensures Valid(r) && Flat(r) == Put(Flat(t), key, val)
  {
    if t.Nil? {
      r := MakeLeaf([Entry(key, val)]);
      MakeLeafMarks([Entry(key, val)]);
      AsMarksOrdered([Entry(key, val)]);
      CutNone(key);
      return;
    }
    var res := InsertInto(t, key, val, NodeHeight(t.node));
    RootOf(res, NodeHeight(t.node));
    match res {
      case Done(u) => r := u;
      case Split(l, sep, right) => r := MakeInternal([sep], [l, right]);
    }
  }

  // ----- remove -----

  lemma {:induction false} CutsShift(e: seq<Entry>, k: Tuple, d: int)
    ensures ShiftEntries(Below(e, k), d) == Below(ShiftEntries(e, d), Shift(k, d))
    ensures ShiftEntries(Above(e, k), d) == Above(ShiftEntries(e, d), Shift(k, d))
    ensures ShiftEntries(AtOrAbove(e, k), d) == AtOrAbove(ShiftEntries(e, d), Shift(k, d))
  {
    hide Less, Shift;
    if e != [] {
      var n := |e| - 1;
      CutsShift(e[..n], k, d);
      assert ShiftEntries(e, d)[..n] == ShiftEntries(e[..n], d);
      ShiftOrder(e[n].key, k, d);
      ShiftOrder(k, e[n].key, d);
    }
  }

  lemma DropShift(e: seq<Entry>, k: Tuple, d: int)
    ensures ShiftEntries(Drop(e, k), d) == Drop(ShiftEntries(e, d), Shift(k, d))
  {
    hide Below, Above, Shift;
    CutsShift(e, k, d);
    assert ShiftEntries(Drop(e, k), d) == ShiftEntries(Below(e, k), d) + ShiftEntries(Above(e, k), d);
  }

  /** A key compares with a stored one in the node's frame as it does in the holder's. */
  lemma FramesAgree(k: Tuple, d: int, off: int, key: Tuple)
    ensures CmpDisplaced(k, off + d, key) == CmpDisplaced(Shift(k, d), 0, Shift(key, -off))
    ensures CmpDisplaced(k, off + d, key) == Same <==> Shift(k, d) == Shift(key, -off)
  {
    hide Less, Shift, CmpDisplaced;
    CmpMeans(k, off + d, key);
    CmpMeans(Shift(k, d), 0, Shift(key, -off));
    ShiftZero(Shift(k, d));
    ShiftAdd(k, d, off);
    ShiftAdd(key, -off, off);
    ShiftZero(key);
    ShiftOrder(Shift(key, -off), Shift(k, d), off);
    ShiftOrder(Shift(k, d), Shift(key, -off), off);
  }

  lemma {:induction false} ChildIndexFrames(ks: seq<Tuple>, d: int, off: int, key: Tuple)
    ensures ChildIndex(ks, off + d, key) == ChildIndex(ShiftKeys(ks, d), 0, Shift(key, -off))
    decreases |ks|
  {
    hide Less, Shift, CmpDisplaced;
    if ks != [] {
      ChildIndexFrames(ks[1..], d, off, key);
      assert ShiftKeys(ks, d)[1..] == ShiftKeys(ks[1..], d);
      FramesAgree(ks[0], d, off, key);
    }
  }

  lemma {:induction false} UpToFrames(e: seq<Entry>, d: int, off: int, key: Tuple)
    ensures UpTo(e, off + d, key) == UpTo(ShiftEntries(e, d), 0, Shift(key, -off))
    decreases |e|
  {
    hide Less, Shift, CmpDisplaced;
    if e != [] {
      UpToFrames(e[1..], d, off, key);
      assert ShiftEntries(e, d)[1..] == ShiftEntries(e[1..], d);
      FramesAgree(e[0].key, d, off, key);
    }
  }

  function RelocateIns(r: Ins, d: int): Ins {
    match r
    case Done(t) => Done(Relocate(t, d))
    case Split(l, k, r) => Split(Relocate(l, d), Shift(k, d), Relocate(r, d))
  }

  lemma RelocateInsMarks(r: Ins, d: int)
    ensures InsMarks(RelocateIns(r, d)) == ShiftMarks(InsMarks(r), d)
    ensures Rows(InsMarks(RelocateIns(r, d))) == ShiftEntries(Rows(InsMarks(r)), d)
  {
    hide Marks, Rows;
    match r {
      case Done(t) => RelocateMarks(t, d);
      case Split(a, k, b) =>
        RelocateMarks(a, d);
        RelocateMarks(b, d);
        ShiftMarksConcat(Marks(a) + [Sep(k)], Marks(b), d);
        ShiftMarksConcat(Marks(a), [Sep(k)], d);
    }
    RowsShift(InsMarks(r), d);
  }

  /** What removal leaves of a subtree: nothing when its only row went. */
  ghost predicate Left(r: Ins, h: nat, w: nat) {
    Fits(r, h, if w == 0 then 0 else w - 1) || (r == Done(Nil) && w == 1)
  }

  lemma LeafDrop(e: seq<Entry>, key: Tuple)
    requires Sorted(e)
    ensures var p := UpTo(e, 0, key);
            if p > 0 && e[p - 1].key == key
            then Drop(e, key) == e[..p - 1] + e[p..] && |Drop(e, key)| == |e| - 1 && !Absent(e, key)
            else Absent(e, key)
  {
    hide Below, Above, Less, UpTo;
    UpToCuts(e, key);
    var p := UpTo(e, 0, key);
    if p > 0 && e[p - 1].key == key {
      assert e[p - 1] in e;
    }
  }

  /** Removal below a node; none says the key is not there. `key` is in the frame it was
      asked in, `off` away from that of the node's holder, and what is left is in the
      holder's. */
  method Rem(t: Tree, key: Tuple, off: int, ghost h: nat) returns (r: Option<Ins>)
    requires t.Ref? ==> Shaped(t, h) && Wide(t) && Ordered(Marks(t))
    ensures r.None? <==> Absent(Flat(t), Shift(key, -off))
    ensures r.Some? ==> t.Ref? && Left(r.value, h, Width(t.node)) && Ordered(InsMarks(r.value))
    ensures r.Some? ==> Rows(InsMarks(r.value)) == Drop(Flat(t), Shift(key, -off))
    decreases h
  {
    hide Less, Drop, Weave, Ordered, Rows, Marks, ChildIndex, Lead, Trail, Shift, UpTo, CmpDisplaced, NodeShape,
      RelocateIns, InsMarks, Absent;
    if t.Nil? {
      NilFlat();
      return None;
    }
    Counts(t, h);
    match t.node {
      case Leaf(_, entries) =>
        var p := UpTo(entries, off + t.dsp, key);
        RemLeaf(t, key, off, h);
        if p == 0 || CmpDisplaced(entries[p - 1].key, off + t.dsp, key) != Same {
          return None;
        }
        var e := ShiftEntries(entries, t.dsp);
        var res := FinishLeaf(e[..p - 1] + e[p..]);
        r := Some(res);
      case Internal(_, keys, children) =>
        var i := ChildIndex(keys, off + t.dsp, key);
        ChildInFrame(t, i, h);
        var newc := Rem(children[i], key, off + t.dsp, h - 1);
        RemChild(t, key, off, i, newc, h);
        if newc.None? {
          return None;
        }
        var ks, ch := ShiftKeys(keys, t.dsp), RelocateAll(children, t.dsp);
        var res := PlacedShort(ks, ch, i, RelocateIns(newc.value, t.dsp), h);
        r := Some(res);
    }
  }

  lemma RemLeaf(t: Tree, key: Tuple, off: int, h: nat)
    requires Shaped(t, h) && t.node.Leaf? && Ordered(Marks(t))
    ensures var p, k := UpTo(t.node.entries, off + t.dsp, key), Shift(key, -off);
            var e := ShiftEntries(t.node.entries, t.dsp);
            if p == 0 || CmpDisplaced(t.node.entries[p - 1].key, off + t.dsp, key) != Same
            then Absent(Flat(t), k)
            else !Absent(Flat(t), k) && Drop(Flat(t), k) == e[..p - 1] + e[p..] && Sorted(Drop(Flat(t), k)) && h == 1
  {
    hide Less, Drop, Ordered, Rows, Marks, Shift, UpTo, CmpDisplaced, Absent;
    OpenMeans(t, h);
    var entries, k := t.node.entries, Shift(key, -off);
    var e := ShiftEntries(entries, t.dsp);
    FlatLeaf(t, e);
    var p := UpTo(entries, off + t.dsp, key);
    UpToFrames(entries, t.dsp, off, key);
    LeafDrop(e, k);
    EditsSorted(e, k, 0);
    if p > 0 {
      FramesAgree(entries[p - 1].key, t.dsp, off, key);
    }
  }

  /** What the child's answer says of the node, in the frame of the node's holder. */
  lemma RemChild(t: Tree, key: Tuple, off: int, i: nat, newc: Option<Ins>, h: nat)
    requires Shaped(t, h) && t.node.Internal? && Ordered(Marks(t))
    requires i == ChildIndex(t.node.keys, off + t.dsp, key)
    requires t.node.children[i].Ref?
    requires newc.None? <==> Absent(Flat(t.node.children[i]), Shift(key, -off - t.dsp))
    requires newc.Some? ==>
      && Left(newc.value, h - 1, Width(t.node.children[i].node)) && Ordered(InsMarks(newc.value))
      && Rows(InsMarks(newc.value)) == Drop(Flat(t.node.children[i]), Shift(key, -off - t.dsp))
    ensures newc.None? <==> Absent(Flat(t), Shift(key, -off))
    ensures newc.Some? ==>
      var ks, ch := ShiftKeys(t.node.keys, t.dsp), RelocateAll(t.node.children, t.dsp);
      var sub := RelocateIns(newc.value, t.dsp);
      && AllSolid(ch, h - 1) && Fits(sub, h - 1, MIN - 1)
      && |PlaceKids(ch, i, sub)| == |PlaceKeys(ks, i, sub)| + 1
      && Ordered(Run(PlaceKeys(ks, i, sub), PlaceKids(ch, i, sub)))
      && Rows(Run(PlaceKeys(ks, i, sub), PlaceKids(ch, i, sub))) == Drop(Flat(t), Shift(key, -off))
  {
    hide Less, Drop, Weave, Ordered, Rows, Marks, ChildIndex, Lead, Trail, Shift, NodeShape;
    OpenMeans(t, h);
    var c, d, k := t.node.children[i], t.dsp, Shift(key, -off - t.dsp);
    var ks, ch := ShiftKeys(t.node.keys, d), RelocateAll(t.node.children, d);
    ChildIndexFrames(t.node.keys, d, off, key);
    ChildKey(key, off, d);
    AbsentShift(c, d, k);
    AbsentInChild(ks, ch, Shift(key, -off));
    if newc.Some? {
      var sub := RelocateIns(newc.value, d);
      RelocateInsMarks(newc.value, d);
      DropRelocated(c, d, k);
      LeftRelocated(newc.value, d, h - 1, Width(c.node));
      DropInChild(ks, ch, Shift(key, -off), sub, h - 1);
    }
  }

  lemma Counts(t: Tree, h: nat)
    requires Shaped(t, h)
    ensures 1 <= Width(t.node) <= B
    ensures t.node.Internal? ==> h >= 2 && |t.node.children| == |t.node.keys| + 1
  {
  }

  lemma NilFlat()
    ensures Flat(Nil) == [] && forall k :: Absent(Flat(Nil), k)
  {
  }

  lemma ChildInFrame(t: Tree, i: nat, h: nat)
    requires Shaped(t, h) && t.node.Internal? && i < |t.node.children| && Ordered(Marks(t))
    ensures Solid(t.node.children[i], h - 1) && Ordered(Marks(t.node.children[i]))
  {
    hide Marks, Ordered, Weave;
    var ch := t.node.children;
    assert ch[i] in ch;
    NodeMarksInternal(t.node.size, t.node.keys, ch);
    assert Ordered(Run(t.node.keys, ch)) by {
      ShiftMarksOrdered(Run(t.node.keys, ch), t.dsp);
      RefMarks(t);
    }
    FocusOrdered(t.node.keys, ch, i);
  }

  lemma RefMarks(t: Tree)
    requires t.Ref?
    ensures Marks(t) == ShiftMarks(NodeMarks(t.node), t.dsp)
  {
  }

  lemma ChildKey(key: Tuple, off: int, d: int)
    ensures Shift(Shift(key, -off - d), d) == Shift(key, -off)
  {
    ShiftAdd(key, -off - d, d);
  }

  lemma AbsentShift(t: Tree, d: int, k: Tuple)
    ensures Absent(Flat(Relocate(t, d)), Shift(k, d)) <==> Absent(Flat(t), k)
  {
    hide Marks, Rows, Shift;
    RelocateMarks(t, d);
    RowsShift(Marks(t), d);
    var e, f := Flat(t), Flat(Relocate(t, d));
    forall i | 0 <= i < |e| ensures f[i].key == Shift(k, d) <==> e[i].key == k {
      ShiftOrder(e[i].key, k, d);
    }
    if Absent(f, Shift(k, d)) {
      forall x | x in e ensures x.key != k {
        var i :| 0 <= i < |e| && e[i] == x;
        assert f[i] in f;
      }
    }
  }

  lemma DropRelocated(t: Tree, d: int, k: Tuple)
    ensures ShiftEntries(Drop(Flat(t), k), d) == Drop(Flat(Relocate(t, d)), Shift(k, d))
  {
    hide Marks, Rows;
    RelocateMarks(t, d);
    RowsShift(Marks(t), d);
    DropShift(Flat(t), k, d);
  }

  lemma LeftRelocated(r: Ins, d: int, h: nat, w: nat)
    requires Left(r, h, w) && Ordered(InsMarks(r))
    ensures Left(RelocateIns(r, d), h, w) && Ordered(InsMarks(RelocateIns(r, d)))
  {
    hide Ordered, Marks, NodeShape;
    RelocateInsMarks(r, d);
    ShiftMarksOrdered(InsMarks(r), d);
  }

  lemma AbsentInChild(ks: seq<Tuple>, ch: seq<Tree>, key: Tuple)
    requires |ch| == |ks| + 1 && Ordered(Run(ks, ch))
    ensures Absent(Rows(Run(ks, ch)), key) <==> Absent(Flat(ch[ChildIndex(ks, 0, key)]), key)
  {
    hide Less, Weave, Ordered, Rows, Marks, ChildIndex, Lead, Trail;
    var i := ChildIndex(ks, 0, key);
    RunRows(ks, ch, i);
    LocatedRows(ks, ch, key);
    LessIrreflexive(key);
  }

  lemma DropInChild(ks: seq<Tuple>, ch: seq<Tree>, key: Tuple, sub: Ins, h: nat)
    requires |ch| == |ks| + 1 && Ordered(Run(ks, ch)) && AllSolid(ch, h)
    requires ch[ChildIndex(ks, 0, key)].Ref? && Left(sub, h, Width(ch[ChildIndex(ks, 0, key)].node))
    requires Ordered(InsMarks(sub)) && Rows(InsMarks(sub)) == Drop(Flat(ch[ChildIndex(ks, 0, key)]), key)
    ensures var i := ChildIndex(ks, 0, key);
            && Fits(sub, h, MIN - 1)
            && |PlaceKids(ch, i, sub)| == |PlaceKeys(ks, i, sub)| + 1
            && Ordered(Run(PlaceKeys(ks, i, sub), PlaceKids(ch, i, sub)))
            && Rows(Run(PlaceKeys(ks, i, sub), PlaceKids(ch, i, sub))) == Drop(Rows(Run(ks, ch)), key)
  {
    hide Less, Drop, Weave, Ordered, Rows, Marks, ChildIndex, NodeShape, Lead, Trail;
    var i := ChildIndex(ks, 0, key);
    assert ch[i] in ch;
    FitsTight(sub, h, MIN - 1);
    FocusOrdered(ks, ch, i);
    RowsSorted(Marks(ch[i]));
    EditsSorted(Flat(ch[i]), key, 0);
    ReplaceChild(ks, ch, key, sub);
    RunRows(ks, ch, i);
    LocatedRows(ks, ch, key);
    EditMiddle(Rows(Lead(ks, Parts(ch), i)), Flat(ch[i]), Rows(Trail(ks, Parts(ch), i)), key, 0);
  }

  /** A run with child `i` cut short, repaired and made a node. It may end below
      the floor itself; its holder repairs that. */
  method PlacedShort(ks: seq<Tuple>, ch: seq<Tree>, i: nat, sub: Ins, ghost h: nat) returns (r: Ins)
    requires 2 <= |ch| <= B && |ch| == |ks| + 1 && i < |ch| && h >= 2
    requires AllSolid(ch, h - 1) && Fits(sub, h - 1, MIN - 1)
    requires Ordered(Run(PlaceKeys(ks, i, sub), PlaceKids(ch, i, sub)))
    ensures Fits(r, h, |ch| - 1) && Ordered(InsMarks(r))
    ensures Rows(InsMarks(r)) == Rows(Run(PlaceKeys(ks, i, sub), PlaceKids(ch, i, sub)))
  {
    hide Less, Weave, Ordered, Rows, Marks, NodeShape;
    match sub {
      case Done(c) =>
        var ks1, ch1 := Fix(ks, ch[i := c], i, h - 1);
        r := Done(MakeInternal(ks1, ch1));
        MakeInternalMarks(ks1, ch1);
        InternalShaped(ks1, ch1, h);
      case Split(_, _, _) =>
        FusedSolid(ch, i, sub, h - 1);
        r := Finish(PlaceKeys(ks, i, sub), PlaceKids(ch, i, sub), h);
    }
  }

  /** A root with a lone child gives way to that child. */
  function ShrinkRoot(t: Tree): Tree {
    match t
    case Ref(Internal(_, _, ch), d) => if |ch| == 1 then Relocate(ch[0], d) else t
    case Ref(Leaf(_, e), _) => if e == [] then Nil else t
    case Nil => t
  }

  lemma ShrinkRootKeeps(t: Tree, h: nat)
    requires t.Ref? ==> Shaped(t, h) && Ordered(Marks(t))
    ensures Valid(ShrinkRoot(t)) && Flat(ShrinkRoot(t)) == Flat(t)
  {
    hide Marks, Rows, Ordered, NodeHeight;
    NilFlat();
    if t.Ref? {
      ShapeHeight(t.node, h);
      if t.node.Internal? && |t.node.children| == 1 {
        OpenMeans(t, h);
        var c := Open(t).children[0];
        assert c in Open(t).children;
        assert c == ShrinkRoot(t) && Marks(t) == Marks(c);
        ShapeHeight(c.node, h - 1);
      }
    }
  }

  /** `key` unbound: exactly the map removal, with every invariant kept; an absent
      key returns the very same tree. */
  method Remove(t: Tree, key: Tuple) returns (r: Tree)
    requires Valid(t)
    ensures Valid(r) && Flat(r) == Drop(Flat(t), key)
    ensures Absent(Flat(t), key) ==> r == t
  {
    ghost var h := if t.Ref? then NodeHeight(t.node) else 0;
    var res := Rem(t, key, 0, h);
    ShiftZero(key);
    match res {
      case None =>
        if t.Ref? {
          RowsSorted(Marks(t));
        }
        DropAbsent(Flat(t), key);
        r := t;
      case Some(Done(u)) =>
        ShrinkRootKeeps(u, h);
        r := ShrinkRoot(u);
      case Some(Split(l, sep, right)) =>
        RootOf(res.value, h);
        r := MakeInternal([sep], [l, right]);
    }
  }

  lemma {:induction false} DropAbsent(e: seq<Entry>, key: Tuple)
    requires Absent(e, key) && Sorted(e)
    ensures Drop(e, key) == e
  {
    hide Below, Above, Less, UpTo;
    UpToCuts(e, key);
    forall i | 0 <= i < |e| ensures e[i].key != key {
      assert e[i] in e;
    }
  }
}
