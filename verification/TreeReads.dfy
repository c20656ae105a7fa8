/** Walks that read a displaced tree. The bounds asked for are never moved; each stored key
    is compared as if it were. */
module TreeReads {
  import opened Values
  import opened Displacements
  import opened MarkLists
  import opened Trees
  import opened TreeEdits
  import opened TreeCuts

  /** The rows under `t` as the query sees them. */
  function Seen(t: Tree, off: int): seq<Entry> {
    Flat(Relocate(t, off))
  }

  function FlatAll(ch: seq<Tree>): seq<Entry> {
    if ch == [] then [] else FlatAll(ch[..|ch| - 1]) + Flat(ch[|ch| - 1])
  }

  lemma {:induction false} FlatAllConcat(a: seq<Tree>, b: seq<Tree>)
    ensures FlatAll(a + b) == FlatAll(a) + FlatAll(b)
    decreases |b|
  {
    hide Rows, Marks;
    if b == [] {
      assert a + b == a;
    } else {
      assert (a + b)[..|a + b| - 1] == a + b[..|b| - 1];
      FlatAllConcat(a, b[..|b| - 1]);
    }
  }

  lemma {:induction false} RunFlat(ks: seq<Tuple>, ch: seq<Tree>)
    requires |ch| == |ks| + 1
    ensures Rows(Run(ks, ch)) == FlatAll(ch)
    decreases |ks|
  {
    hide Rows, Marks;
    var n := |ks|;
    if n == 0 {
      assert ch[..0] == [];
    } else {
      assert Parts(ch)[..n] == Parts(ch[..n]);
      RunFlat(ks[..n - 1], ch[..n]);
      RowsAround(Run(ks[..n - 1], ch[..n]), ks[n - 1], Marks(ch[n]));
    }
  }

  lemma SeenSame(t: Tree)
    ensures Seen(t, 0) == Flat(t)
  {
    match t case Nil => case Ref(n, d) => assert Relocate(t, 0) == t;
  }

  lemma SeenLeaf(t: Tree, off: int, h: nat)
    requires Shaped(t, h) && t.node.Leaf?
    ensures Seen(t, off) == ShiftEntries(t.node.entries, off + t.dsp)
  {
    var u := Relocate(t, off);
    OpenMeans(u, h);
    RowsAsMarks(ShiftEntries(t.node.entries, off + t.dsp));
  }

  lemma SeenRun(t: Tree, off: int, h: nat)
    requires Shaped(t, h) && t.node.Internal? && Ordered(Marks(t))
    ensures |t.node.children| == |t.node.keys| + 1
    ensures Ordered(Run(ShiftKeys(t.node.keys, off + t.dsp), RelocateAll(t.node.children, off + t.dsp)))
    ensures Seen(t, off) == FlatAll(RelocateAll(t.node.children, off + t.dsp))
  {
    hide Rows, Marks, Ordered, Weave, NodeShape;
    var u := Relocate(t, off);
    OpenMeans(u, h);
    RelocateMarks(t, off);
    ShiftMarksOrdered(Marks(t), off);
    RunFlat(ShiftKeys(t.node.keys, off + t.dsp), RelocateAll(t.node.children, off + t.dsp));
  }

  /** An internal node in the query's frame. */
  lemma SeenInternal(t: Tree, off: int, h: nat)
    requires Shaped(t, h) && t.node.Internal? && Ordered(Marks(t))
    ensures |t.node.children| == |t.node.keys| + 1 && h >= 2
    ensures Ordered(Run(ShiftKeys(t.node.keys, off + t.dsp), RelocateAll(t.node.children, off + t.dsp)))
    ensures Seen(t, off) == FlatAll(RelocateAll(t.node.children, off + t.dsp))
    ensures forall i | 0 <= i < |t.node.children| ::
      Solid(t.node.children[i], h - 1) && Ordered(Marks(t.node.children[i]))
  {
    hide Rows, Marks, Ordered, Weave, NodeShape, FlatAll;
    SeenRun(t, off, h);
    Counts(t, h);
    forall i | 0 <= i < |t.node.children|
      ensures Solid(t.node.children[i], h - 1) && Ordered(Marks(t.node.children[i])) {
      ChildInFrame(t, i, h);
    }
  }

  // ----- get -----

  /** The value at `key`, if there is one. */
  ghost predicate Holds(e: seq<Entry>, key: Tuple, v: Option<int>) {
    match v case Some(x) => Entry(key, x) in e case None => Absent(e, key)
  }

  lemma HeldInChild(t: Tree, off: int, h: nat, key: Tuple, v: Option<int>)
    requires Shaped(t, h) && t.node.Internal? && Ordered(Marks(t))
    ensures var i := ChildIndex(t.node.keys, off + t.dsp, key);
      i < |t.node.children| && (Holds(Seen(t, off), key, v) <==> Holds(Seen(t.node.children[i], off + t.dsp), key, v))
  {
    hide Parts;
    hide Rows, Marks, Ordered, Weave, Less, ChildIndex, Lead, Trail;
    var d := off + t.dsp;
    var ks, ch := ShiftKeys(t.node.keys, d), RelocateAll(t.node.children, d);
    var i := ChildIndex(t.node.keys, d, key);
    SeenInternal(t, off, h);
    ChildIndexFrames(t.node.keys, d, 0, key);
    ShiftZero(key);
    RunRows(ks, ch, i);
    RunFlat(ks, ch);
    LocatedRows(ks, ch, key);
    LessIrreflexive(key);
  }

  lemma HeldInLeaf(e: seq<Entry>, off: int, key: Tuple)
    requires Sorted(e)
    ensures var p := UpTo(e, off, key);
      Holds(ShiftEntries(e, off), key,
            if p > 0 && CmpDisplaced(e[p - 1].key, off, key) == Same then Some(e[p - 1].val) else None)
  {
    hide Less, UpTo, Shift, CmpDisplaced;
    var p := UpTo(e, off, key);
    UpToSplits(e, off, key);
    LessIrreflexive(key);
    if p > 0 {
      CmpMeans(e[p - 1].key, off, key);
    }
    if p > 0 && CmpDisplaced(e[p - 1].key, off, key) == Same {
      assert ShiftEntries(e, off)[p - 1] == Entry(key, e[p - 1].val);
    }
  }

  /** Lookup: one path down, comparing moved keys. */
  method Get(t: Tree, key: Tuple) returns (v: Option<int>)
    requires Valid(t)
    ensures Holds(Flat(t), key, v)
  {
    hide Rows, Marks, Ordered, NodeShape, ChildIndex, UpTo, CmpDisplaced, Less, Holds, Shift, Height, NodeHeight;
    var cur, off := t, 0;
    ghost var h := Height(t);
    HeightOfRef(t);
    SeenSame(t);
    while cur.Ref?
      invariant cur.Ref? ==> Shaped(cur, h) && Ordered(Marks(cur))
      invariant forall v :: Holds(Flat(t), key, v) <==> Holds(Seen(cur, off), key, v)
      decreases cur
    {
      match cur.node {
        case Leaf(_, e) =>
          SeenLeaf(cur, off, h);
          LeafSorted(cur, h);
          off := off + cur.dsp;
          HeldInLeaf(e, off, key);
          var p := UpTo(e, off, key);
          return if p > 0 && CmpDisplaced(e[p - 1].key, off, key) == Same then Some(e[p - 1].val) else None;
        case Internal(_, keys, children) =>
          SeenInternal(cur, off, h);
          forall v ensures Holds(Flat(t), key, v)
            <==> Holds(Seen(children[ChildIndex(keys, off + cur.dsp, key)], off + cur.dsp), key, v)
          {
            HeldInChild(cur, off, h, key, v);
          }
          off := off + cur.dsp;
          cur := children[ChildIndex(keys, off, key)];
          h := h - 1;
      }
    }
    HoldsNothing(cur, off, key);
    return None;
  }

  lemma HeightOfRef(t: Tree)
    requires Valid(t)
    ensures t.Ref? ==> Shaped(t, Height(t)) && Ordered(Marks(t))
  {
  }

  lemma SeenNothing(t: Tree, off: int)
    requires t.Nil?
    ensures Seen(t, off) == []
  {
    NilFlat();
  }

  lemma SeenSize(t: Tree, off: int, h: nat)
    requires Shaped(t, h)
    ensures t.node.size == |Seen(t, off)|
  {
    SizeIsRows(Relocate(t, off), h);
  }

  lemma HoldsNothing(t: Tree, off: int, key: Tuple)
    requires t.Nil?
    ensures Holds(Seen(t, off), key, None)
  {
    NilFlat();
  }

  lemma LeafSorted(t: Tree, h: nat)
    requires Shaped(t, h) && t.node.Leaf? && Ordered(Marks(t))
    ensures Sorted(t.node.entries)
  {
    hide Less;
    RefMarks(t);
    assert NodeMarks(t.node) == AsMarks(t.node.entries);
    ShiftMarksOrdered(AsMarks(t.node.entries), t.dsp);
    AsMarksOrdered(t.node.entries);
  }

  // ----- ranges -----

  /** The part of a list of entries from `lo` up to `hi`. */
  function Within(e: seq<Entry>, lo: Tuple, hi: Tuple): seq<Entry> {
    Below(AtOrAbove(e, lo), hi)
  }

  lemma WithinConcat(a: seq<Entry>, b: seq<Entry>, lo: Tuple, hi: Tuple)
    ensures Within(a + b, lo, hi) == Within(a, lo, hi) + Within(b, lo, hi)
  {
    hide Below, AtOrAbove;
    CutConcat(a, b, lo);
    CutConcat(AtOrAbove(a, lo), AtOrAbove(b, lo), hi);
  }

  lemma WithinAll(e: seq<Entry>, lo: Tuple, hi: Tuple)
    requires forall x <- e :: Leq(lo, x.key) && Less(x.key, hi)
    ensures Within(e, lo, hi) == e
  {
    hide Below, AtOrAbove, Less;
    CutAllAtOrAbove(e, lo);
    CutAllBelow(e, hi);
  }

  lemma WithinNone(e: seq<Entry>, lo: Tuple, hi: Tuple)
    requires (forall x <- e :: Less(x.key, lo)) || (forall x <- e :: Leq(hi, x.key))
    ensures Within(e, lo, hi) == []
  {
    hide Below, AtOrAbove, Less;
    if forall x <- e :: Less(x.key, lo) {
      CutAllBelow(e, lo);
      CutNone(hi);
    } else {
      CutsWithin(e, lo);
      CutAllAtOrAbove(AtOrAbove(e, lo), hi);
    }
  }

  predicate InSpan(k: Tuple, off: int, lo: Tuple, hi: Tuple) {
    CmpDisplaced(k, off, lo) != Lesser && CmpDisplaced(k, off, hi) == Lesser
  }

  lemma WithinOne(x: Entry, off: int, lo: Tuple, hi: Tuple)
    ensures var y := Entry(Shift(x.key, off), x.val);
      Within([y], lo, hi) == if InSpan(x.key, off, lo, hi) then [y] else []
  {
    hide Below, AtOrAbove, Less, CmpDisplaced;
    var y := Entry(Shift(x.key, off), x.val);
    CmpMeans(x.key, off, lo);
    CmpMeans(x.key, off, hi);
    LessTotal(lo, y.key);
    LessTotal(hi, y.key);
    if InSpan(x.key, off, lo, hi) {
      WithinAll([y], lo, hi);
    } else {
      WithinNone([y], lo, hi);
    }
  }

  /** What a walk already knows of the keys beneath a node, on one side: a separator above
      it, and how far that separator is displaced. */
  type Bound = Option<(Tuple, int)>

  ghost predicate InBounds(e: seq<Entry>, nlo: Bound, nhi: Bound) {
    && (nlo.Some? ==> forall x <- e :: Leq(Shift(nlo.value.0, nlo.value.1), x.key))
    && (nhi.Some? ==> forall x <- e :: Less(x.key, Shift(nhi.value.0, nhi.value.1)))
  }

  predicate Disjoint(nlo: Bound, nhi: Bound, lo: Tuple, hi: Tuple) {
    || (nlo.Some? && CmpDisplaced(nlo.value.0, nlo.value.1, hi) != Lesser)
    || (nhi.Some? && CmpDisplaced(nhi.value.0, nhi.value.1, lo) != Greater)
  }

  predicate Contained(nlo: Bound, nhi: Bound, lo: Tuple, hi: Tuple) {
    && nlo.Some? && CmpDisplaced(nlo.value.0, nlo.value.1, lo) != Lesser
    && nhi.Some? && CmpDisplaced(nhi.value.0, nhi.value.1, hi) != Greater
  }

  /** A subtree outside the span has nothing in it; one wholly inside has everything. */
  lemma BoundsDecide(e: seq<Entry>, nlo: Bound, nhi: Bound, lo: Tuple, hi: Tuple)
    requires InBounds(e, nlo, nhi)
    ensures Disjoint(nlo, nhi, lo, hi) ==> Within(e, lo, hi) == []
    ensures Contained(nlo, nhi, lo, hi) ==> Within(e, lo, hi) == e
  {
    hide Within, Less, CmpDisplaced, Shift;
    if nlo.Some? {
      var b := Shift(nlo.value.0, nlo.value.1);
      CmpMeans(nlo.value.0, nlo.value.1, hi);
      CmpMeans(nlo.value.0, nlo.value.1, lo);
      LessTotal(b, hi);
      LessTotal(b, lo);
      if !Less(b, hi) {
        forall x | x in e ensures Leq(hi, x.key) {
          LeqLeq(hi, b, x.key);
        }
        WithinNone(e, lo, hi);
      }
    }
    if nhi.Some? {
      var b := Shift(nhi.value.0, nhi.value.1);
      CmpMeans(nhi.value.0, nhi.value.1, hi);
      CmpMeans(nhi.value.0, nhi.value.1, lo);
      LessTotal(b, hi);
      LessTotal(b, lo);
      if !Less(lo, b) {
        forall x | x in e ensures Less(x.key, lo) {
          LessLeq(x.key, b, lo);
        }
        WithinNone(e, lo, hi);
      }
    }
    if Contained(nlo, nhi, lo, hi) {
      var a, b := Shift(nlo.value.0, nlo.value.1), Shift(nhi.value.0, nhi.value.1);
      forall x | x in e ensures Leq(lo, x.key) && Less(x.key, hi) {
        LeqLeq(lo, a, x.key);
        LessLeq(x.key, b, hi);
      }
      WithinAll(e, lo, hi);
    }
  }

  /** How many leading separators, moved by `off`, lie below `key`. */
  function KeysUnder(ks: seq<Tuple>, off: int, key: Tuple): (p: nat)
    ensures p <= |ks|
    ensures forall j | 0 <= j < p :: Less(Shift(ks[j], off), key)
    ensures p < |ks| ==> !Less(Shift(ks[p], off), key)
  {
    if ks == [] then 0 else
    CmpMeans(ks[0], off, key);
    if CmpDisplaced(ks[0], off, key) != Lesser then 0 else 1 + KeysUnder(ks[1..], off, key)
  }

  function FirstChild(ks: seq<Tuple>, off: int, lo: Tuple): (i: nat)
    ensures i <= |ks|
  {
    ChildIndex(ks, off, lo)
  }

  function LastChild(ks: seq<Tuple>, off: int, lo: Tuple, hi: Tuple): (i: nat)
    ensures FirstChild(ks, off, lo) <= i <= |ks|
  {
    var last := KeysUnder(ks, off, hi);
    if last < FirstChild(ks, off, lo) then FirstChild(ks, off, lo) else last
  }

  function LowBound(ks: seq<Tuple>, off: int, nlo: Bound, i: nat): Bound
    requires i <= |ks|
  {
    if i == 0 then nlo else Some((ks[i - 1], off))
  }

  function HighBound(ks: seq<Tuple>, off: int, nhi: Bound, i: nat): Bound
    requires i <= |ks|
  {
    if i == |ks| then nhi else Some((ks[i], off))
  }

  /** The separators around a child bound its rows. */
  lemma SeparatorsBound(ks: seq<Tuple>, ch: seq<Tree>, i: nat)
    requires |ch| == |ks| + 1 && i < |ch| && Ordered(Run(ks, ch))
    ensures i > 0 ==> forall x <- Flat(ch[i]) :: Leq(ks[i - 1], x.key)
    ensures i < |ks| ==> forall x <- Flat(ch[i]) :: Less(x.key, ks[i])
  {
    hide Rows, Marks, Ordered, Weave, Less;
    FocusOrdered(ks, ch, i);
    var a, m, b := Lead(ks, Parts(ch), i), Marks(ch[i]), Trail(ks, Parts(ch), i);
    OrderedAcross(a, m, b);
    assert i > 0 ==> a[|a| - 1] == Sep(ks[i - 1]);
    assert i < |ks| ==> b[0] == Sep(ks[i]);
    forall x | x in Flat(ch[i])
      ensures i > 0 ==> Leq(ks[i - 1], x.key)
      ensures i < |ks| ==> Less(x.key, ks[i])
    {
      RowsIn(m, x);
      assert i > 0 ==> Before(a[|a| - 1], Row(x.key, x.val));
      assert i < |ks| ==> Before(Row(x.key, x.val), b[0]);
    }
  }

  lemma ChildBounds(t: Tree, off: int, h: nat, nlo: Bound, nhi: Bound, i: nat)
    requires Shaped(t, h) && t.node.Internal? && Ordered(Marks(t)) && i < |t.node.children|
    requires InBounds(Seen(t, off), nlo, nhi)
    ensures |t.node.children| == |t.node.keys| + 1
    ensures var d := off + t.dsp;
      InBounds(Seen(t.node.children[i], d), LowBound(t.node.keys, d, nlo, i), HighBound(t.node.keys, d, nhi, i))
  {
    hide NodeShape;
    hide Rows, Marks, Ordered, Weave, Less, Lead, Trail, Parts;
    var d := off + t.dsp;
    var ks, ch := ShiftKeys(t.node.keys, d), RelocateAll(t.node.children, d);
    SeenInternal(t, off, h);
    RunRows(ks, ch, i);
    RunFlat(ks, ch);
    SeparatorsBound(ks, ch, i);
    assert Flat(ch[i]) == Seen(t.node.children[i], d);
    assert forall x <- Flat(ch[i]) :: x in Seen(t, off);
  }

  /** Only the children whose spans can meet `[lo, hi)` hold anything in it. */
  lemma Window(t: Tree, off: int, h: nat, lo: Tuple, hi: Tuple)
    requires Shaped(t, h) && t.node.Internal? && Ordered(Marks(t)) && Less(lo, hi)
    ensures |t.node.children| == |t.node.keys| + 1
    ensures var d := off + t.dsp;
      var ch := RelocateAll(t.node.children, d);
      var a, b := FirstChild(t.node.keys, d, lo), LastChild(t.node.keys, d, lo, hi);
      b < |ch| && Within(Seen(t, off), lo, hi) == Within(FlatAll(ch[a..b + 1]), lo, hi)
  {
    hide Rows, Marks, Ordered, Weave, Less, Within, NodeShape, FlatAll, ChildIndex, KeysUnder, Flat;
    var d := off + t.dsp;
    var keys := t.node.keys;
    var ch := RelocateAll(t.node.children, d);
    SeenInternal(t, off, h);
    var a, b := FirstChild(keys, d, lo), LastChild(keys, d, lo, hi);
    forall i | 0 <= i < a ensures forall x <- Flat(ch[i]) :: Less(x.key, lo) {
      OutsideLeft(t, off, h, lo, i);
    }
    forall i | b < i < |ch| ensures forall x <- Flat(ch[i]) :: Leq(hi, x.key) {
      OutsideRight(t, off, h, lo, hi, i);
    }
    MiddleOnly(ch, a, b, lo, hi);
  }

  lemma FlatCut(ch: seq<Tree>, i: nat)
    requires i <= |ch|
    ensures FlatAll(ch) == FlatAll(ch[..i]) + FlatAll(ch[i..])
  {
    hide FlatAll;
    assert ch == ch[..i] + ch[i..];
    FlatAllConcat(ch[..i], ch[i..]);
  }

  lemma FlatThree(ch: seq<Tree>, a: nat, b: nat)
    requires a <= b < |ch|
    ensures FlatAll(ch) == FlatAll(ch[..a]) + FlatAll(ch[a..b + 1]) + FlatAll(ch[b + 1..])
  {
    hide FlatAll;
    var head := ch[..b + 1];
    FlatCut(ch, b + 1);
    FlatCut(head, a);
    assert head[..a] == ch[..a] && head[a..] == ch[a..b + 1];
  }

  /** Children whose rows all lie outside a range add nothing to it. */
  lemma MiddleOnly(ch: seq<Tree>, a: nat, b: nat, lo: Tuple, hi: Tuple)
    requires a <= b < |ch| && Less(lo, hi)
    requires forall i | 0 <= i < a :: forall x <- Flat(ch[i]) :: Less(x.key, lo)
    requires forall i | b < i < |ch| :: forall x <- Flat(ch[i]) :: Leq(hi, x.key)
    ensures Within(FlatAll(ch), lo, hi) == Within(FlatAll(ch[a..b + 1]), lo, hi)
  {
    hide Less, Within, FlatAll, Flat;
    var l, m, r := ch[..a], ch[a..b + 1], ch[b + 1..];
    assert forall i | 0 <= i < |l| :: l[i] == ch[i];
    assert forall i | 0 <= i < |r| :: r[i] == ch[b + 1 + i];
    AllBelowSpan(l, lo, hi);
    AllAboveSpan(r, lo, hi);
    FlatThree(ch, a, b);
    WithinConcat(FlatAll(l) + FlatAll(m), FlatAll(r), lo, hi);
    WithinConcat(FlatAll(l), FlatAll(m), lo, hi);
  }

  lemma OutsideLeft(t: Tree, off: int, h: nat, lo: Tuple, i: nat)
    requires Shaped(t, h) && t.node.Internal? && Ordered(Marks(t))
    requires i < FirstChild(t.node.keys, off + t.dsp, lo)
    ensures |t.node.children| == |t.node.keys| + 1
    ensures forall x <- Seen(t.node.children[i], off + t.dsp) :: Less(x.key, lo)
  {
    hide Rows, Marks, Ordered, Less, NodeShape, ChildIndex, Shift;
    var d := off + t.dsp;
    SeenInternal(t, off, h);
    ChildBounds(t, off, h, None, None, i);
    var k := Shift(t.node.keys[i], d);
    LessTotal(lo, k);
    forall x | x in Seen(t.node.children[i], d) ensures Less(x.key, lo) {
      LessLeq(x.key, k, lo);
    }
  }

  lemma OutsideRight(t: Tree, off: int, h: nat, lo: Tuple, hi: Tuple, i: nat)
    requires Shaped(t, h) && t.node.Internal? && Ordered(Marks(t))
    requires LastChild(t.node.keys, off + t.dsp, lo, hi) < i < |t.node.children|
    ensures |t.node.children| == |t.node.keys| + 1
    ensures forall x <- Seen(t.node.children[i], off + t.dsp) :: Leq(hi, x.key)
  {
    hide Rows, Marks, Ordered, Less, NodeShape, ChildIndex, Shift, KeysUnder;
    var d := off + t.dsp;
    SeenInternal(t, off, h);
    ChildBounds(t, off, h, None, None, i);
    KeysUnderFrom(t, off, h, hi, i - 1);
    var k := Shift(t.node.keys[i - 1], d);
    forall x | x in Seen(t.node.children[i], d) ensures Leq(hi, x.key) {
      LeqLeq(hi, k, x.key);
    }
  }

  /** Separators ascend, so everything from the first one not below `hi` is not. */
  lemma {:induction false} KeysUnderFrom(t: Tree, off: int, h: nat, hi: Tuple, j: nat)
    requires Shaped(t, h) && t.node.Internal? && Ordered(Marks(t))
    requires KeysUnder(t.node.keys, off + t.dsp, hi) <= j < |t.node.keys|
    ensures Leq(hi, Shift(t.node.keys[j], off + t.dsp))
    decreases j
  {
    hide Rows, Marks, Ordered, Less, NodeShape, Shift, KeysUnder;
    var d := off + t.dsp;
    var p := KeysUnder(t.node.keys, d, hi);
    var k := Shift(t.node.keys[j], d);
    LessTotal(hi, k);
    if p < j {
      KeysUnderFrom(t, off, h, hi, j - 1);
      SeenInternal(t, off, h);
      var c := t.node.children[j];
      ShapedTight(Relocate(c, d), h - 1);
      EndRows(Marks(Relocate(c, d)));
      var x := Seen(c, d)[0];
      ChildBounds(t, off, h, None, None, j);
      var k' := Shift(t.node.keys[j - 1], d);
      assert Leq(k', x.key) && Less(x.key, k);
      LeqLess(k', x.key, k);
      LeqLess(hi, k', k);
    }
  }

  lemma {:induction false} AllBelowSpan(ch: seq<Tree>, lo: Tuple, hi: Tuple)
    requires forall i | 0 <= i < |ch| :: forall x <- Flat(ch[i]) :: Less(x.key, lo)
    ensures Within(FlatAll(ch), lo, hi) == []
  {
    hide Rows, Marks, Less, Within;
    if ch == [] {
      WithinNone([], lo, hi);
    } else {
      var n := |ch| - 1;
      AllBelowSpan(ch[..n], lo, hi);
      WithinConcat(FlatAll(ch[..n]), Flat(ch[n]), lo, hi);
      WithinNone(Flat(ch[n]), lo, hi);
    }
  }

  lemma {:induction false} AllAboveSpan(ch: seq<Tree>, lo: Tuple, hi: Tuple)
    requires forall i | 0 <= i < |ch| :: forall x <- Flat(ch[i]) :: Leq(hi, x.key)
    ensures Within(FlatAll(ch), lo, hi) == []
  {
    hide Rows, Marks, Less, Within;
    if ch == [] {
      WithinNone([], lo, hi);
    } else {
      var n := |ch| - 1;
      AllAboveSpan(ch[..n], lo, hi);
      WithinConcat(FlatAll(ch[..n]), Flat(ch[n]), lo, hi);
      WithinNone(Flat(ch[n]), lo, hi);
    }
  }

  lemma WindowStep(ch: seq<Tree>, a: nat, i: nat, lo: Tuple, hi: Tuple)
    requires a <= i < |ch|
    ensures Within(FlatAll(ch[a..i + 1]), lo, hi) == Within(FlatAll(ch[a..i]), lo, hi) + Within(Flat(ch[i]), lo, hi)
  {
    hide Rows, Marks, Within;
    assert ch[a..i + 1][..i - a] == ch[a..i];
    WithinConcat(FlatAll(ch[a..i]), Flat(ch[i]), lo, hi);
  }

  lemma SeenChild(ch: seq<Tree>, d: int, i: nat)
    requires i < |ch|
    ensures Seen(ch[i], d) == Flat(RelocateAll(ch, d)[i])
  {
  }

  lemma WindowStart(ch: seq<Tree>, a: nat, lo: Tuple, hi: Tuple)
    requires a <= |ch|
    ensures Within(FlatAll(ch[a..a]), lo, hi) == []
  {
    assert ch[a..a] == [];
    WithinNone([], lo, hi);
  }

  // ----- count -----

  method CountLeaf(e: seq<Entry>, off: int, lo: Tuple, hi: Tuple) returns (n: nat)
    ensures n == |Within(ShiftEntries(e, off), lo, hi)|
  {
    hide Within, InSpan;
    var s := ShiftEntries(e, off);
    n := 0;
    WithinNone([], lo, hi);
    assert s[..0] == [];
    for i := 0 to |e|
      invariant n == |Within(s[..i], lo, hi)|
    {
      WithinOne(e[i], off, lo, hi);
      WithinConcat(s[..i], [s[i]], lo, hi);
      assert s[..i + 1] == s[..i] + [s[i]];
      if InSpan(e[i].key, off, lo, hi) {
        n := n + 1;
      }
    }
    assert s[..|e|] == s;
  }

  /** The count of `[lo, hi)`: whole subtrees inside the span answer from their
      cached sizes. */
  method CountInto(t: Tree, lo: Tuple, hi: Tuple, nlo: Bound, nhi: Bound, off: int, ghost h: nat) returns (n: nat)
    requires t.Ref? ==> Shaped(t, h) && Ordered(Marks(t))
    requires Less(lo, hi) && InBounds(Seen(t, off), nlo, nhi)
    ensures n == |Within(Seen(t, off), lo, hi)|
    decreases h
  {
    hide Less, Within, Marks, Rows, Ordered, NodeShape, Disjoint, Contained, FlatAll, InBounds, Seen, LowBound,
      HighBound, FirstChild, LastChild, Flat;
    BoundsDecide(Seen(t, off), nlo, nhi, lo, hi);
    if t.Nil? {
      SeenNothing(t, off);
      WithinNone([], lo, hi);
      return 0;
    }
    if Disjoint(nlo, nhi, lo, hi) {
      return 0;
    }
    if Contained(nlo, nhi, lo, hi) {
      SeenSize(t, off, h);
      return t.node.size;
    }
    match t.node {
      case Leaf(_, e) =>
        SeenLeaf(t, off, h);
        n := CountLeaf(e, off + t.dsp, lo, hi);
      case Internal(_, keys, children) =>
        var d := off + t.dsp;
        Counts(t, h);
        Window(t, off, h, lo, hi);
        ghost var ch := RelocateAll(children, d);
        var first, last := FirstChild(keys, d, lo), LastChild(keys, d, lo, hi);
        n := 0;
        WindowStart(ch, first, lo, hi);
        SeenInternal(t, off, h);
        for i := first to last + 1
          invariant n == |Within(FlatAll(ch[first..i]), lo, hi)|
        {
          ChildBounds(t, off, h, nlo, nhi, i);
          SeenChild(children, d, i);
          var c := CountInto(children[i], lo, hi, LowBound(keys, d, nlo, i), HighBound(keys, d, nhi, i), d, h - 1);
          WindowStep(ch, first, i, lo, hi);
          n := n + c;
        }
    }
  }

  method CountRange(t: Tree, lo: Tuple, hi: Tuple) returns (n: nat)
    requires Valid(t)
    ensures n == |Within(Flat(t), lo, hi)|
  {
    hide Less, Within, Marks, Rows, Ordered, NodeShape;
    if !Less(lo, hi) {
      EmptySpan(Flat(t), lo, hi);
      return 0;
    }
    SeenSame(t);
    n := CountInto(t, lo, hi, None, None, 0, Height(t));
  }

  lemma EmptySpan(e: seq<Entry>, lo: Tuple, hi: Tuple)
    requires !Less(lo, hi)
    ensures Within(e, lo, hi) == []
  {
    hide Below, AtOrAbove, Less;
    LessTotal(lo, hi);
    CutsWithin(e, lo);
    var m := AtOrAbove(e, lo);
    forall x | x in m ensures Leq(hi, x.key) {
      LeqLeq(hi, lo, x.key);
    }
    CutAllAtOrAbove(m, hi);
  }

  // ----- any -----

  method AnyInto(t: Tree, lo: Tuple, hi: Tuple, nlo: Bound, nhi: Bound, off: int, ghost h: nat) returns (any: bool)
    requires t.Ref? ==> Shaped(t, h) && Ordered(Marks(t))
    requires Less(lo, hi) && InBounds(Seen(t, off), nlo, nhi)
    ensures any <==> Within(Seen(t, off), lo, hi) != []
    decreases h
  {
    hide Less, Within, Marks, Rows, Ordered, NodeShape, Disjoint, Contained, FlatAll, InBounds, Seen, LowBound,
      HighBound, FirstChild, LastChild, Flat;
    BoundsDecide(Seen(t, off), nlo, nhi, lo, hi);
    if t.Nil? {
      SeenNothing(t, off);
      WithinNone([], lo, hi);
      return false;
    }
    if Disjoint(nlo, nhi, lo, hi) {
      return false;
    }
    if Contained(nlo, nhi, lo, hi) {
      SeenSize(t, off, h);
      return t.node.size > 0;
    }
    match t.node {
      case Leaf(_, e) =>
        SeenLeaf(t, off, h);
        any := AnyLeaf(e, off + t.dsp, lo, hi);
      case Internal(_, keys, children) =>
        var d := off + t.dsp;
        Counts(t, h);
        Window(t, off, h, lo, hi);
        ghost var ch := RelocateAll(children, d);
        var first, last := FirstChild(keys, d, lo), LastChild(keys, d, lo, hi);
        any := false;
        var i := first;
        WindowStart(ch, first, lo, hi);
        SeenInternal(t, off, h);
        while i <= last && !any
          invariant first <= i <= last + 1
          invariant any <==> Within(FlatAll(ch[first..i]), lo, hi) != []
        {
          ChildBounds(t, off, h, nlo, nhi, i);
          SeenChild(children, d, i);
          any := AnyInto(children[i], lo, hi, LowBound(keys, d, nlo, i), HighBound(keys, d, nhi, i), d, h - 1);
          WindowStep(ch, first, i, lo, hi);
          i := i + 1;
        }
        if any {
          WindowGrows(ch, first, i, last + 1, lo, hi);
        }
    }
  }

  lemma WindowGrows(ch: seq<Tree>, a: nat, i: nat, j: nat, lo: Tuple, hi: Tuple)
    requires a <= i <= j <= |ch| && Within(FlatAll(ch[a..i]), lo, hi) != []
    ensures Within(FlatAll(ch[a..j]), lo, hi) != []
  {
    hide Within, FlatAll;
    assert ch[a..j] == ch[a..i] + ch[i..j];
    FlatAllConcat(ch[a..i], ch[i..j]);
    WithinConcat(FlatAll(ch[a..i]), FlatAll(ch[i..j]), lo, hi);
  }

  method AnyLeaf(e: seq<Entry>, off: int, lo: Tuple, hi: Tuple) returns (any: bool)
    ensures any <==> Within(ShiftEntries(e, off), lo, hi) != []
  {
    var n := CountLeaf(e, off, lo, hi);
    any := n > 0;
  }

  /** Whether the span is occupied. */
  method AnyIn(t: Tree, lo: Tuple, hi: Tuple) returns (any: bool)
    requires Valid(t)
    ensures any <==> Within(Flat(t), lo, hi) != []
  {
    hide Less, Within, Marks, Rows, Ordered, NodeShape;
    if !Less(lo, hi) {
      EmptySpan(Flat(t), lo, hi);
      return false;
    }
    SeenSame(t);
    any := AnyInto(t, lo, hi, None, None, 0, Height(t));
  }
}
