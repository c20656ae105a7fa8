/** Splitting, joining and grafting displaced trees of any heights. */
module TreeCuts {
  import opened Values
  import opened Displacements
  import opened MarkLists
  import opened Trees
  import opened TreeEdits

  // ----- end keys and heights -----

  lemma EndRows(m: seq<Mark>)
    requires Tight(m)
    ensures Rows(m) != [] && Rows(m)[0].key == Low(m) && Rows(m)[|Rows(m)| - 1].key == High(m)
  {
    var n := |m| - 1;
    assert m == m[..n] + [m[n]];
    assert m == [m[0]] + m[1..];
    RowsConcat([m[0]], m[1..]);
    assert [m[0]][..0] == [];
  }

  lemma NoRows()
    ensures Rows([]) == []
  {
  }

  ghost function EndKey(m: seq<Mark>, greatest: bool): Tuple
    requires Tight(m)
  {
    if greatest then High(m) else Low(m)
  }

  /** The least or greatest key under `t`, in the frame `off` carries it to. */
  method ExtremeKey(t: Tree, off: int, greatest: bool, ghost h: nat) returns (k: Tuple)
    requires Shaped(t, h)
    ensures Tight(Marks(t)) && k == Shift(EndKey(Marks(t), greatest), off)
    decreases h
  {
    hide Marks, EndKey, Shift;
    ShapedTight(t, h);
    match t.node {
      case Leaf(_, e) =>
        var x := if greatest then e[|e| - 1].key else e[0].key;
        EndOfLeaf(t, h, greatest);
        k := Shift(x, off + t.dsp);
        ShiftAdd(x, t.dsp, off);
      case Internal(_, _, ch) =>
        var c := if greatest then ch[|ch| - 1] else ch[0];
        assert c in ch;
        ShapedTight(c, h - 1);
        EndOfNode(t, h, greatest);
        k := ExtremeKey(c, off + t.dsp, greatest, h - 1);
        ShiftAdd(EndKey(Marks(c), greatest), t.dsp, off);
    }
  }

  lemma EndOfLeaf(t: Tree, h: nat, greatest: bool)
    requires Shaped(t, h) && Tight(Marks(t)) && t.node.Leaf?
    ensures var e := t.node.entries;
      EndKey(Marks(t), greatest) == Shift(if greatest then e[|e| - 1].key else e[0].key, t.dsp)
  {
  }

  lemma EndOfNode(t: Tree, h: nat, greatest: bool)
    requires Shaped(t, h) && Tight(Marks(t)) && t.node.Internal?
    ensures var c := if greatest then t.node.children[|t.node.children| - 1] else t.node.children[0];
      Tight(Marks(c)) && EndKey(Marks(t), greatest) == Shift(EndKey(Marks(c), greatest), t.dsp)
  {
    hide Shift, Tight;
    var ks, ch := t.node.keys, t.node.children;
    forall i | 0 <= i < |ch| ensures Tight(Parts(ch)[i]) {
      assert ch[i] in ch;
      ShapedTight(ch[i], h - 1);
    }
    WeaveTight(ks, Parts(ch));
    NodeMarksInternal(t.node.size, ks, ch);
  }

  method MinKey(t: Tree, ghost h: nat) returns (k: Tuple)
    requires Shaped(t, h)
    ensures Tight(Marks(t)) && k == Low(Marks(t))
  {
    k := ExtremeKey(t, 0, false, h);
    ShiftZero(Low(Marks(t)));
  }

  method MaxKey(t: Tree, ghost h: nat) returns (k: Tuple)
    requires Shaped(t, h)
    ensures Tight(Marks(t)) && k == High(Marks(t))
  {
    k := ExtremeKey(t, 0, true, h);
    ShiftZero(High(Marks(t)));
  }

  /** Levels down the leftmost spine. */
  method MeasureHeight(t: Tree) returns (h: nat)
    requires Valid(t)
    ensures h == Height(t)
  {
    h := 0;
    var cur := t;
    while cur.Ref?
      invariant cur.Ref? ==> NodeShape(cur.node, NodeHeight(cur.node))
      invariant h + Height(cur) == Height(t)
      decreases cur
    {
      h := h + 1;
      match cur.node {
        case Leaf(_, _) => break;
        case Internal(_, _, ch) =>
          assert ch[0] in ch;
          ShapeHeight(ch[0].node, NodeHeight(cur.node) - 1);
          cur := ch[0];
      }
    }
  }

  // ----- join -----

  /** Every row of one list is below every row of the other. */
  ghost predicate Precedes(a: seq<Entry>, b: seq<Entry>) {
    forall x <- a, y <- b :: Less(x.key, y.key)
  }

  lemma PrecedesEnds(l: seq<Mark>, r: seq<Mark>)
    requires Tight(l) && Tight(r) && Precedes(Rows(l), Rows(r))
    ensures Less(High(l), Low(r))
  {
    EndRows(l);
    EndRows(r);
    assert Rows(l)[|Rows(l)| - 1] in Rows(l) && Rows(r)[0] in Rows(r);
  }

  lemma SplicedMarks(l: seq<Mark>, r: seq<Mark>)
    requires Ordered(l) && Tight(l) && Ordered(r) && Tight(r) && Precedes(Rows(l), Rows(r))
    ensures Ordered(l + [Sep(Low(r))] + r)
    ensures Rows(l + [Sep(Low(r))] + r) == Rows(l) + Rows(r)
  {
    hide Ordered, Rows, Precedes;
    PrecedesEnds(l, r);
    TightSplice(l, r);
    RowsAround(l, Low(r), r);
  }

  /** Trees of one height: their roots fused as siblings. */
  method JoinSame(l: Tree, r: Tree, ghost h: nat) returns (res: Ins)
    requires Shaped(l, h) && Shaped(r, h) && Ordered(Marks(l)) && Ordered(Marks(r))
    requires Precedes(Flat(l), Flat(r))
    ensures Fits(res, h, Width(l.node) + Width(r.node)) && Ordered(InsMarks(res))
    ensures Rows(InsMarks(res)) == Flat(l) + Flat(r)
  {
    hide Ordered, Rows, Marks, NodeShape;
    ShapedTight(l, h);
    var k := MinKey(r, h);
    SplicedMarks(Marks(l), Marks(r));
    res := FusePair(l, k, r, h);
  }

  lemma SnocRun(ks: seq<Tuple>, ch: seq<Tree>, k: Tuple, r: Tree)
    requires |ch| == |ks| + 1
    ensures Run(ks + [k], ch + [r]) == Run(ks, ch) + [Sep(k)] + Marks(r)
  {
    hide Weave, Marks;
    WeaveConcat(ks, Parts(ch), k, [], [Marks(r)]);
    assert ks + [k] + [] == ks + [k];
    assert Parts(ch) + [Marks(r)] == Parts(ch + [r]);
    One(Marks(r));
  }

  lemma ConsRun(ks: seq<Tuple>, ch: seq<Tree>, k: Tuple, l: Tree)
    requires |ch| == |ks| + 1
    ensures Run([k] + ks, [l] + ch) == Marks(l) + [Sep(k)] + Run(ks, ch)
  {
    hide Weave, Marks;
    WeaveConcat([], [Marks(l)], k, ks, Parts(ch));
    assert [] + [k] + ks == [k] + ks;
    assert [Marks(l)] + Parts(ch) == Parts([l] + ch);
    One(Marks(l));
  }

  lemma One(m: seq<Mark>)
    ensures Weave([], [m]) == m
  {
  }

  /** Hangs `r` off the right spine of the taller `t`. */
  method JoinRight(t: Tree, r: Tree, ht: nat, hr: nat) returns (res: Ins)
    requires Shaped(t, ht) && Shaped(r, hr) && ht > hr && Wide(t)
    requires Ordered(Marks(t)) && Ordered(Marks(r)) && Precedes(Flat(t), Flat(r))
    ensures Fits(res, ht, Width(t.node)) && Ordered(InsMarks(res))
    ensures Rows(InsMarks(res)) == Flat(t) + Flat(r)
    decreases ht
  {
    hide Less, Weave, Ordered, Rows, Marks, Lead, Trail, NodeShape, Precedes, Open;
    OpenMeans(t, ht);
    Counts(t, ht);
    ShapedTight(t, ht);
    HeightPositive(r, hr);
    match Open(t) {
      case Entries(_) => assert false;
      case Kids(ks0, ch0) =>
        var ks, ch := ks0, ch0;
        var last := |ch| - 1;
        assert ch[last] in ch;
        if ht - 1 == hr {
          var k := MinKey(r, hr);
          SnocRun(ks, ch, k, r);
          SplicedMarks(Marks(t), Marks(r));
          ks, ch := Fix(ks + [k], ch + [r], last + 1, ht - 1);
        } else {
          FocusOrdered(ks, ch, last);
          LastPrecedes(ks, ch, Flat(r));
          var sub := JoinRight(ch[last], r, ht - 1, hr);
          HungRight(ks, ch, r, sub, ht - 1, hr);
          ks, ch := PlaceKeys(ks, last, sub), PlaceKids(ch, last, sub);
        }
        res := Finish(ks, ch, ht);
    }
  }

  lemma HeightPositive(t: Tree, h: nat)
    requires Shaped(t, h)
    ensures h >= 1
  {
  }

  lemma LastPrecedes(ks: seq<Tuple>, ch: seq<Tree>, e: seq<Entry>)
    requires |ch| == |ks| + 1 && Precedes(Rows(Run(ks, ch)), e)
    ensures Precedes(Flat(ch[|ks|]), e)
  {
    hide Less, Weave, Rows, Marks, Lead, Trail;
    RunRows(ks, ch, |ks|);
  }

  lemma HungRight(ks: seq<Tuple>, ch: seq<Tree>, r: Tree, sub: Ins, h: nat, hr: nat)
    requires |ch| == |ks| + 1 && AllSolid(ch, h) && Ordered(Run(ks, ch)) && Shaped(r, hr)
    requires Fits(sub, h, MIN) && Ordered(InsMarks(sub)) && Rows(InsMarks(sub)) == Flat(ch[|ks|]) + Flat(r)
    requires Precedes(Rows(Run(ks, ch)), Flat(r))
    ensures AllSolid(PlaceKids(ch, |ks|, sub), h)
    ensures |PlaceKids(ch, |ks|, sub)| == |PlaceKeys(ks, |ks|, sub)| + 1
    ensures Ordered(Run(PlaceKeys(ks, |ks|, sub), PlaceKids(ch, |ks|, sub)))
    ensures Rows(Run(PlaceKeys(ks, |ks|, sub), PlaceKids(ch, |ks|, sub))) == Rows(Run(ks, ch)) + Flat(r)
  {
    hide Less, Weave, Ordered, Rows, Marks, Lead, NodeShape;
    var n := |ks|;
    var a, m, m' := Lead(ks, Parts(ch), n), Marks(ch[n]), InsMarks(sub);
    PlaceMarks(ks, ch, n, sub);
    FusedSolid(ch, n, sub, h);
    FitsTight(sub, h, MIN);
    FocusOrdered(ks, ch, n);
    RunRows(ks, ch, n);
    RowsConcat(a, m');
    assert a + m' + [] == a + m' && Rows([]) == [] by {
      NoRows();
    }
    OrderedAcross(a, m, []);
    assert ch[n] in ch;
    ShapedTight(ch[n], h);
    EndRows(m);
    var x := Rows(m)[0];
    RowsIn(m, x);
    forall e | e in Rows(m') ensures forall y <- a :: Before(y, Row(e.key, e.val)) {
      if e in Rows(m) {
        RowsIn(m, e);
      } else {
        assert x in Rows(Run(ks, ch)) && e in Flat(r);
        forall y | y in a ensures Before(y, Row(e.key, e.val)) {
          BeforeLeq(y, Row(x.key, x.val), Row(e.key, e.val));
        }
      }
    }
    Refit(a, m, m', []);
  }

  /** Hangs `l` off the left spine of the taller `t`. */
  method JoinLeft(l: Tree, t: Tree, hl: nat, ht: nat) returns (res: Ins)
    requires Shaped(t, ht) && Shaped(l, hl) && ht > hl && Wide(t)
    requires Ordered(Marks(t)) && Ordered(Marks(l)) && Precedes(Flat(l), Flat(t))
    ensures Fits(res, ht, Width(t.node)) && Ordered(InsMarks(res))
    ensures Rows(InsMarks(res)) == Flat(l) + Flat(t)
    decreases ht
  {
    hide Less, Weave, Ordered, Rows, Marks, Lead, Trail, NodeShape, Precedes, Open;
    OpenMeans(t, ht);
    Counts(t, ht);
    ShapedTight(t, ht);
    ShapedTight(l, hl);
    HeightPositive(l, hl);
    match Open(t) {
      case Entries(_) => assert false;
      case Kids(ks0, ch0) =>
        var ks, ch := ks0, ch0;
        assert ch[0] in ch;
        if ht - 1 == hl {
          var k := MinKey(ch[0], ht - 1);
          LowOfRun(ks, ch, ht - 1);
          ConsRun(ks, ch, k, l);
          SplicedMarks(Marks(l), Marks(t));
          ks, ch := Fix([k] + ks, [l] + ch, 0, ht - 1);
        } else {
          FocusOrdered(ks, ch, 0);
          FirstPrecedes(ks, ch, Flat(l));
          var sub := JoinLeft(l, ch[0], hl, ht - 1);
          HungLeft(ks, ch, l, sub, ht - 1, hl);
          ks, ch := PlaceKeys(ks, 0, sub), PlaceKids(ch, 0, sub);
        }
        res := Finish(ks, ch, ht);
    }
  }

  lemma LowOfRun(ks: seq<Tuple>, ch: seq<Tree>, h: nat)
    requires |ch| == |ks| + 1 && AllSolid(ch, h)
    ensures Tight(Run(ks, ch)) && Tight(Marks(ch[0])) && Low(Run(ks, ch)) == Low(Marks(ch[0]))
  {
    hide NodeShape, Marks, Weave;
    forall i | 0 <= i < |ch| ensures Tight(Parts(ch)[i]) {
      assert ch[i] in ch;
      ShapedTight(ch[i], h);
    }
    WeaveTight(ks, Parts(ch));
  }

  lemma FirstPrecedes(ks: seq<Tuple>, ch: seq<Tree>, e: seq<Entry>)
    requires |ch| == |ks| + 1 && Precedes(e, Rows(Run(ks, ch)))
    ensures Precedes(e, Flat(ch[0]))
  {
    hide Less, Weave, Rows, Marks, Lead, Trail;
    RunRows(ks, ch, 0);
  }

  lemma HungLeft(ks: seq<Tuple>, ch: seq<Tree>, l: Tree, sub: Ins, h: nat, hl: nat)
    requires |ch| == |ks| + 1 && AllSolid(ch, h) && Ordered(Run(ks, ch)) && Shaped(l, hl)
    requires Fits(sub, h, MIN) && Ordered(InsMarks(sub)) && Rows(InsMarks(sub)) == Flat(l) + Flat(ch[0])
    requires Precedes(Flat(l), Rows(Run(ks, ch)))
    ensures AllSolid(PlaceKids(ch, 0, sub), h)
    ensures |PlaceKids(ch, 0, sub)| == |PlaceKeys(ks, 0, sub)| + 1
    ensures Ordered(Run(PlaceKeys(ks, 0, sub), PlaceKids(ch, 0, sub)))
    ensures Rows(Run(PlaceKeys(ks, 0, sub), PlaceKids(ch, 0, sub))) == Flat(l) + Rows(Run(ks, ch))
  {
    hide Less, Weave, Ordered, Rows, Marks, Trail, NodeShape;
    var m, m', b := Marks(ch[0]), InsMarks(sub), Trail(ks, Parts(ch), 0);
    PlaceMarks(ks, ch, 0, sub);
    FusedSolid(ch, 0, sub, h);
    FitsTight(sub, h, MIN);
    FocusOrdered(ks, ch, 0);
    RunRows(ks, ch, 0);
    RowsConcat(m', b);
    assert [] + m' + b == m' + b && Rows([]) == [] by {
      NoRows();
    }
    OrderedAcross([], m, b);
    assert ch[0] in ch;
    ShapedTight(ch[0], h);
    EndRows(m);
    var x := Rows(m)[0];
    RowsIn(m, x);
    forall e | e in Rows(m') ensures forall y <- b :: Before(Row(e.key, e.val), y) {
      if e in Rows(m) {
        RowsIn(m, e);
      } else {
        assert x in Rows(Run(ks, ch)) && e in Flat(l);
        forall y | y in b ensures Before(Row(e.key, e.val), y) {
          LeqBefore(Row(e.key, e.val), Row(x.key, x.val), y);
        }
      }
    }
    Refit([], m, m', b);
  }

  /** The concatenation of two trees whose keys do not interleave, of any heights. */
  method Join(left: Tree, right: Tree) returns (t: Tree)
    requires Valid(left) && Valid(right) && Precedes(Flat(left), Flat(right))
    ensures Valid(t) && Flat(t) == Flat(left) + Flat(right)
  {
    hide Ordered, Rows, Marks, NodeShape, Precedes;
    NilFlat();
    if left.Nil? {
      return right;
    }
    if right.Nil? {
      return left;
    }
    var hl := MeasureHeight(left);
    var hr := MeasureHeight(right);
    Counts(left, hl);
    Counts(right, hr);
    var res;
    if hl == hr {
      res := JoinSame(left, right, hl);
    } else if hl > hr {
      res := JoinRight(left, right, hl, hr);
    } else {
      res := JoinLeft(left, right, hl, hr);
    }
    RootOf(res, if hl >= hr then hl else hr);
    match res {
      case Done(u) => t := u;
      case Split(l, sep, r) => t := MakeInternal([sep], [l, r]);
    }
  }

  // ----- split -----

  /** How many leading entries lie below `key`. */
  function Under(e: seq<Entry>, key: Tuple): (p: nat)
    ensures p <= |e|
    ensures forall j | 0 <= j < p :: Less(e[j].key, key)
    ensures p < |e| ==> !Less(e[p].key, key)
  {
    if e == [] || !Less(e[0].key, key) then 0 else 1 + Under(e[1..], key)
  }

  lemma UnderCuts(e: seq<Entry>, key: Tuple)
    requires Sorted(e)
    ensures Below(e, key) == e[..Under(e, key)] && AtOrAbove(e, key) == e[Under(e, key)..]
  {
    hide Below, AtOrAbove, Above, Less, Under;
    var p := Under(e, key);
    var a, c := e[..p], e[p..];
    assert e == a + c;
    forall x | x in c ensures Leq(key, x.key) {
      var i :| 0 <= i < |c| && c[i] == x;
      LessTotal(key, e[p].key);
      if i > 0 {
        assert Less(e[p].key, e[p + i].key);
        LeqLess(key, e[p].key, x.key);
      }
    }
    CutConcat(a, c, key);
    CutAllBelow(a, key);
    CutAllAtOrAbove(c, key);
  }

  /** A run of children standing alone is a tree of its own. */
  lemma PartsTree(ks: seq<Tuple>, ch: seq<Tree>, h: nat)
    requires |ch| == |ks| + 1 && |ch| <= B && AllSolid(ch, h) && Ordered(Run(ks, ch))
    ensures Valid(FromParts(ks, ch)) && Flat(FromParts(ks, ch)) == Rows(Run(ks, ch))
  {
    hide Ordered, Rows, Marks;
    assert ch[0] in ch;
    if |ch| == 1 {
      assert ks == [] && Parts(ch) == [Marks(ch[0])];
      One(Marks(ch[0]));
      ShapeHeight(ch[0].node, h);
    } else {
      HeightPositive(ch[0], h);
      InternalShaped(ks, ch, h + 1);
      MakeInternalMarks(ks, ch);
      ShapeHeight(MakeInternal(ks, ch).node, h + 1);
    }
  }

  lemma LeadTree(ks: seq<Tuple>, ch: seq<Tree>, i: nat, h: nat)
    requires |ch| == |ks| + 1 && |ch| <= B && i < |ch| && AllSolid(ch, h) && Ordered(Run(ks, ch))
    ensures var t := FromParts(if i == 0 then [] else ks[..i - 1], ch[..i]);
            Valid(t) && Flat(t) == Rows(Lead(ks, Parts(ch), i))
  {
    hide Ordered, Rows, Marks, Weave, NodeShape;
    if i == 0 {
      NoRows();
      NilFlat();
    } else {
      var k1, c1 := ks[..i - 1], ch[..i];
      assert Parts(c1) == Parts(ch)[..i];
      FocusOrdered(ks, ch, i);
      OrderedAcross(Lead(ks, Parts(ch), i), Marks(ch[i]), Trail(ks, Parts(ch), i));
      OrderedConcat(Run(k1, c1), [Sep(ks[i - 1])]);
      RowsConcat(Run(k1, c1), [Sep(ks[i - 1])]);
      RowsOfSep(ks[i - 1]);
      PartsTree(k1, c1, h);
    }
  }

  lemma TrailTree(ks: seq<Tuple>, ch: seq<Tree>, i: nat, h: nat)
    requires |ch| == |ks| + 1 && |ch| <= B && i < |ch| && AllSolid(ch, h) && Ordered(Run(ks, ch))
    ensures var t := FromParts(if i == |ks| then [] else ks[i + 1..], ch[i + 1..]);
            Valid(t) && Flat(t) == Rows(Trail(ks, Parts(ch), i))
  {
    hide Ordered, Rows, Marks, Weave, NodeShape;
    if i == |ks| {
      NoRows();
      NilFlat();
    } else {
      var k2, c2 := ks[i + 1..], ch[i + 1..];
      assert Parts(c2) == Parts(ch)[i + 1..];
      FocusOrdered(ks, ch, i);
      OrderedAcross(Lead(ks, Parts(ch), i), Marks(ch[i]), Trail(ks, Parts(ch), i));
      OrderedConcat([Sep(ks[i])], Run(k2, c2));
      RowsConcat([Sep(ks[i])], Run(k2, c2));
      RowsOfSep(ks[i]);
      PartsTree(k2, c2, h);
    }
  }

  /** Both sides of the cut, in the frame of `t`'s holder. */
  method SplitAt(t: Tree, key: Tuple, ghost h: nat) returns (l: Tree, r: Tree)
    requires Shaped(t, h) && Ordered(Marks(t))
    ensures Valid(l) && Valid(r)
    ensures Flat(l) == Below(Flat(t), key) && Flat(r) == AtOrAbove(Flat(t), key)
    decreases h
  {
    hide Less, Weave, Ordered, Rows, Marks, Lead, Trail, NodeShape, Precedes, Open, ChildIndex, Below, AtOrAbove,
      Under, Valid, MakeLeaf, FromParts;
    OpenMeans(t, h);
    Counts(t, h);
    match Open(t) {
      case Entries(e) =>
        var p := Under(e, key);
        FlatLeaf(t, e);
        UnderCuts(e, key);
        LeafSide(e, 0, p);
        LeafSide(e, p, |e|);
        assert e[0..p] == e[..p] && e[p..|e|] == e[p..];
        l := if p == 0 then Nil else MakeLeaf(e[..p]);
        r := if p == |e| then Nil else MakeLeaf(e[p..]);
      case Kids(ks, ch) =>
        var i := ChildIndex(ks, 0, key);
        assert ch[i] in ch;
        FocusOrdered(ks, ch, i);
        var ml, mr := SplitAt(ch[i], key, h - 1);
        // The runs on either side keep the separators between their own children.
        var left := FromParts(if i == 0 then [] else ks[..i - 1], ch[..i]);
        var right := FromParts(if i == |ks| then [] else ks[i + 1..], ch[i + 1..]);
        LeadTree(ks, ch, i, h - 1);
        TrailTree(ks, ch, i, h - 1);
        CutRun(ks, ch, key);
        l := Join(left, ml);
        r := Join(mr, right);
    }
  }

  lemma LeafSide(e: seq<Entry>, a: nat, b: nat)
    requires Sorted(e) && a <= b <= |e| <= B
    ensures var t := if a == b then Nil else MakeLeaf(e[a..b]); Valid(t) && Flat(t) == e[a..b]
  {
    NilFlat();
    MakeLeafMarks(e[a..b]);
    AsMarksOrdered(e[a..b]);
  }

  /** The cut of a run is the cut of the child the key belongs to, with the rest of
      the run on its two sides. */
  lemma CutRun(ks: seq<Tuple>, ch: seq<Tree>, key: Tuple)
    requires |ch| == |ks| + 1 && Ordered(Run(ks, ch))
    ensures var i, e := ChildIndex(ks, 0, key), Rows(Run(ks, ch));
      var a, m, b := Rows(Lead(ks, Parts(ch), i)), Flat(ch[i]), Rows(Trail(ks, Parts(ch), i));
      && Below(e, key) == a + Below(m, key) && Precedes(a, Below(m, key))
      && AtOrAbove(e, key) == AtOrAbove(m, key) + b && Precedes(AtOrAbove(m, key), b)
  {
    hide Less, Weave, Ordered, Rows, Marks, Lead, Trail, ChildIndex, Below, AtOrAbove, Sorted;
    var i, e := ChildIndex(ks, 0, key), Rows(Run(ks, ch));
    var a, m, b := Rows(Lead(ks, Parts(ch), i)), Flat(ch[i]), Rows(Trail(ks, Parts(ch), i));
    RunRows(ks, ch, i);
    LocatedRows(ks, ch, key);
    RowsSorted(Run(ks, ch));
    SortedConcat(a + m, b);
    SortedConcat(a, m);
    CutMiddle(a, m, b, key);
    CutsWithin(m, key);
  }

  /** Divides a tree at a key. When one side would be empty the other is the tree as it was. */
  method Cut(t: Tree, key: Tuple) returns (l: Tree, r: Tree)
    requires Valid(t)
    ensures Valid(l) && Valid(r)
    ensures Flat(l) == Below(Flat(t), key) && Flat(r) == AtOrAbove(Flat(t), key)
    ensures Below(Flat(t), key) == [] ==> (l, r) == (Nil, t)
    ensures AtOrAbove(Flat(t), key) == [] ==> (l, r) == (t, Nil) || t.Nil?
  {
    hide Less, Ordered, Rows, Marks, NodeShape, Below, AtOrAbove, NodeHeight;
    NilFlat();
    CutNone(key);
    if t.Nil? {
      return Nil, Nil;
    }
    ghost var h := NodeHeight(t.node);
    var last := MaxKey(t, h);
    var first := MinKey(t, h);
    SpanOf(Marks(t), key);
    if Less(last, key) {
      return t, Nil;
    }
    if !Less(first, key) {
      return Nil, t;
    }
    l, r := SplitAt(t, key, h);
  }

  lemma SpanOf(m: seq<Mark>, key: Tuple)
    requires Ordered(m) && Tight(m)
    ensures Rows(m) != []
    ensures Less(High(m), key) ==> Below(Rows(m), key) == Rows(m)
    ensures Less(High(m), key) <==> AtOrAbove(Rows(m), key) == []
    ensures !Less(Low(m), key) ==> AtOrAbove(Rows(m), key) == Rows(m)
    ensures !Less(Low(m), key) <==> Below(Rows(m), key) == []
  {
    hide Below, AtOrAbove, Rows, Less, Ordered;
    var e := Rows(m);
    EndRows(m);
    forall x | x in e ensures Leq(Low(m), x.key) && Leq(x.key, High(m)) {
      RowsIn(m, x);
      TightBounds(m, Row(x.key, x.val));
    }
    if Less(High(m), key) {
      forall x | x in e ensures Less(x.key, key) {
        LeqLess(x.key, High(m), key);
      }
      CutAllBelow(e, key);
    } else {
      InCut(e, e[|e| - 1], key);
    }
    if !Less(Low(m), key) {
      LessTotal(Low(m), key);
      forall x | x in e ensures Leq(key, x.key) {
        LeqLeq(key, Low(m), x.key);
      }
      CutAllAtOrAbove(e, key);
    } else {
      InCut(e, e[0], key);
    }
  }

  lemma {:induction false} InCut(e: seq<Entry>, x: Entry, k: Tuple)
    requires x in e
    ensures Less(x.key, k) <==> x in Below(e, k)
    ensures !Less(x.key, k) <==> x in AtOrAbove(e, k)
  {
    hide Less;
    var n := |e| - 1;
    if x in e[..n] {
      InCut(e[..n], x, k);
    } else {
      CutsWithin(e, k);
      assert x == e[n];
      if x in AtOrAbove(e, k) {
        LeqNotLess(k, x.key);
      }
    }
  }
}
