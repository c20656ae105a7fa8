/** Range measures and measure-pruned search, for any lawful measure. */
module TreeSearches {
  import opened Values
  import opened Displacements
  import opened MarkLists
  import opened Measures
  import opened Trees
  import opened TreeEdits
  import opened TreeReads

  // ----- cached measures -----

  function CombineAll<M>(ms: Measure<M>, xs: seq<M>): M {
    if xs == [] then ms.empty else ms.combine(CombineAll(ms, xs[..|xs| - 1]), xs[|xs| - 1])
  }

  /** The measure a node caches: over a leaf's entries, or over the children's cached
      measures, each moved by its displacement. */
  function Cached<M>(ms: Measure<M>, n: Node): M {
    match n
    case Leaf(_, e) => Fold(ms, e)
    case Internal(_, _, ch) =>
      CombineAll(ms, seq(|ch|, i requires 0 <= i < |ch| =>
        match ch[i] case Nil => ms.empty case Ref(m, d) => ms.displace(Cached(ms, m), d)))
  }

  lemma {:induction false} CombineAllIsFold<M(!new)>(ms: Measure<M>, xs: seq<M>, ch: seq<Tree>)
    requires Lawful(ms) && |xs| == |ch|
    requires forall i | 0 <= i < |ch| :: xs[i] == Fold(ms, Flat(ch[i]))
    ensures CombineAll(ms, xs) == Fold(ms, FlatAll(ch))
    decreases |xs|
  {
    hide Rows, Marks;
    if xs != [] {
      var n := |xs| - 1;
      CombineAllIsFold(ms, xs[..n], ch[..n]);
      FoldConcat(ms, FlatAll(ch[..n]), Flat(ch[n]));
    }
  }

  /** The cached measure of a node is the fold of its rows. */
  lemma {:induction false} CachedIsFold<M(!new)>(ms: Measure<M>, n: Node, h: nat)
    requires Lawful(ms) && NodeShape(n, h)
    ensures Cached(ms, n) == Fold(ms, Rows(NodeMarks(n)))
    decreases h
  {
    hide Lawful, Rows, Fold;
    match n
    case Leaf(_, e) => RowsAsMarks(e);
    case Internal(s, ks, ch) =>
      var xs := seq(|ch|, i requires 0 <= i < |ch| =>
        match ch[i] case Nil => ms.empty case Ref(m, d) => ms.displace(Cached(ms, m), d));
      forall i | 0 <= i < |ch| ensures xs[i] == Fold(ms, Flat(ch[i])) {
        assert ch[i] in ch;
        CachedIsFold(ms, ch[i].node, h - 1);
        MovedFold(ms, ch[i]);
      }
      CombineAllIsFold(ms, xs, ch);
      NodeMarksInternal(s, ks, ch);
      RunFlat(ks, ch);
  }

  lemma MovedFold<M(!new)>(ms: Measure<M>, t: Tree)
    requires Lawful(ms) && t.Ref?
    ensures ms.displace(Fold(ms, Rows(NodeMarks(t.node))), t.dsp) == Fold(ms, Flat(t))
  {
    RowsShift(NodeMarks(t.node), t.dsp);
    FoldShift(ms, Rows(NodeMarks(t.node)), t.dsp);
  }

  /** What a walk reads off a node it does not enter. */
  function MeasureAt<M>(ms: Measure<M>, n: Node, off: int): M {
    if off == 0 then Cached(ms, n) else ms.displace(Cached(ms, n), off)
  }

  lemma MeasureAtIsFold<M(!new)>(ms: Measure<M>, t: Tree, off: int, h: nat)
    requires Lawful(ms) && Shaped(t, h)
    ensures MeasureAt(ms, t.node, off + t.dsp) == Fold(ms, Seen(t, off))
  {
    hide Lawful, Rows, Fold, Cached;
    CachedIsFold(ms, t.node, h);
    MovedFold(ms, Relocate(t, off));
    if off + t.dsp == 0 {
      ShiftMarksZero(NodeMarks(t.node));
    }
  }

  // ----- range measure -----

  lemma Absorbs<M(!new)>(ms: Measure<M>, acc: M, a: seq<Entry>, b: seq<Entry>)
    requires Lawful(ms)
    ensures ms.combine(ms.combine(acc, Fold(ms, a)), Fold(ms, b)) == ms.combine(acc, Fold(ms, a + b))
  {
    hide Fold;
    FoldConcat(ms, a, b);
  }

  lemma AbsorbsNothing<M(!new)>(ms: Measure<M>, acc: M)
    requires Lawful(ms)
    ensures ms.combine(acc, Fold(ms, [])) == acc
  {
  }

  lemma FoldOne<M(!new)>(ms: Measure<M>, x: Entry)
    requires Lawful(ms)
    ensures Fold(ms, [x]) == ms.entry(x.key, x.val)
  {
    assert [x][..0] == [];
  }

  method FoldLeaf<M(!new)>(ms: Measure<M>, e: seq<Entry>, off: int, lo: Tuple, hi: Tuple, acc: M) returns (r: M)
    requires Lawful(ms)
    ensures r == ms.combine(acc, Fold(ms, Within(ShiftEntries(e, off), lo, hi)))
  {
    hide Within, InSpan, Fold, Lawful;
    ghost var s := ShiftEntries(e, off);
    r := acc;
    WithinNone([], lo, hi);
    AbsorbsNothing(ms, acc);
    assert s[..0] == [];
    for i := 0 to |e|
      invariant r == ms.combine(acc, Fold(ms, Within(s[..i], lo, hi)))
    {
      WithinOne(e[i], off, lo, hi);
      WithinConcat(s[..i], [s[i]], lo, hi);
      assert s[..i + 1] == s[..i] + [s[i]];
      if InSpan(e[i].key, off, lo, hi) {
        r := ms.combine(r, ms.entry(Shift(e[i].key, off), e[i].val));
        FoldOne(ms, s[i]);
        Absorbs(ms, acc, Within(s[..i], lo, hi), [s[i]]);
      } else {
        assert Within(s[..i], lo, hi) + [] == Within(s[..i], lo, hi);
      }
    }
    assert s[..|e|] == s;
  }

  method FoldRange<M(!new)>(ms: Measure<M>, t: Tree, lo: Tuple, hi: Tuple, nlo: Bound, nhi: Bound, off: int, acc: M,
                     ghost h: nat)
    returns (r: M)
    requires Lawful(ms)
    requires t.Ref? ==> Shaped(t, h) && Ordered(Marks(t))
    requires Less(lo, hi) && InBounds(Seen(t, off), nlo, nhi)
    ensures r == ms.combine(acc, Fold(ms, Within(Seen(t, off), lo, hi)))
    decreases h
  {
    hide Less, Within, Marks, Rows, Ordered, NodeShape, Disjoint, Contained, FlatAll, InBounds, Seen, LowBound,
      HighBound, FirstChild, LastChild, Flat, Lawful, Fold, Cached, MeasureAt;
    BoundsDecide(Seen(t, off), nlo, nhi, lo, hi);
    AbsorbsNothing(ms, acc);
    if t.Nil? {
      SeenNothing(t, off);
      WithinNone([], lo, hi);
      return acc;
    }
    if Disjoint(nlo, nhi, lo, hi) {
      return acc;
    }
    if Contained(nlo, nhi, lo, hi) {
      MeasureAtIsFold(ms, t, off, h);
      return ms.combine(acc, MeasureAt(ms, t.node, off + t.dsp));
    }
    match t.node {
      case Leaf(_, e) =>
        SeenLeaf(t, off, h);
        r := FoldLeaf(ms, e, off + t.dsp, lo, hi, acc);
      case Internal(_, keys, children) =>
        var d := off + t.dsp;
        Counts(t, h);
        Window(t, off, h, lo, hi);
        ghost var ch := RelocateAll(children, d);
        var first, last := FirstChild(keys, d, lo), LastChild(keys, d, lo, hi);
        r := acc;
        WindowStart(ch, first, lo, hi);
        SeenInternal(t, off, h);
        for i := first to last + 1
          invariant r == ms.combine(acc, Fold(ms, Within(FlatAll(ch[first..i]), lo, hi)))
        {
          ChildBounds(t, off, h, nlo, nhi, i);
          SeenChild(children, d, i);
          r := FoldRange(ms, children[i], lo, hi, LowBound(keys, d, nlo, i), HighBound(keys, d, nhi, i), d, r, h - 1);
          WindowStep(ch, first, i, lo, hi);
          Absorbs(ms, acc, Within(FlatAll(ch[first..i]), lo, hi), Within(Flat(ch[i]), lo, hi));
        }
    }
  }

  /** The measure of `[lo, hi)` is the fold of the entries in it. */
  method MeasureRange<M(!new)>(ms: Measure<M>, t: Tree, lo: Tuple, hi: Tuple) returns (r: M)
    requires Lawful(ms) && Valid(t)
    ensures r == Fold(ms, Within(Flat(t), lo, hi))
  {
    hide Less, Within, Marks, Rows, Ordered, NodeShape, Seen;
    if !Less(lo, hi) {
      EmptySpan(Flat(t), lo, hi);
      return ms.empty;
    }
    SeenSame(t);
    r := FoldRange(ms, t, lo, hi, None, None, 0, ms.empty, Height(t));
  }

  // ----- search -----

  /** The entries `keep` accepts. */
  function Kept(e: seq<Entry>, keep: (Tuple, int) -> bool): seq<Entry> {
    if e == [] then [] else
    var n := |e| - 1;
    Kept(e[..n], keep) + if keep(e[n].key, e[n].val) then [e[n]] else []
  }

  lemma {:induction false} KeptConcat(a: seq<Entry>, b: seq<Entry>, keep: (Tuple, int) -> bool)
    ensures Kept(a + b, keep) == Kept(a, keep) + Kept(b, keep)
    decreases |b|
  {
    if b == [] {
      assert a + b == a;
    } else {
      var n := |b| - 1;
      assert (a + b)[..|a + b| - 1] == a + b[..n];
      KeptConcat(a, b[..n], keep);
    }
  }

  /** The two tests agree: a summary of anything kept is admitted, and so is any
      summary it is part of. */
  ghost predicate Agree<M(!new)>(ms: Measure<M>, admit: M -> bool, keep: (Tuple, int) -> bool) {
    && (forall k, v :: keep(k, v) ==> admit(ms.entry(k, v)))
    && (forall a, b :: admit(a) || admit(b) ==> admit(ms.combine(a, b)))
  }

  /** A subtree the measure rules out has nothing to keep. */
  lemma {:induction false} RuledOut<M(!new)>(ms: Measure<M>, e: seq<Entry>, admit: M -> bool,
                                      keep: (Tuple, int) -> bool)
    requires Agree(ms, admit, keep) && !admit(Fold(ms, e))
    ensures Kept(e, keep) == []
  {
    if e != [] {
      var n := |e| - 1;
      RuledOut(ms, e[..n], admit, keep);
    }
  }

  method SearchInto<M(!new)>(ms: Measure<M>, t: Tree, off: int, admit: M -> bool, keep: (Tuple, int) -> bool,
                             out: seq<Entry>, ghost h: nat)
    returns (r: seq<Entry>)
    requires Lawful(ms) && Agree(ms, admit, keep)
    requires t.Ref? ==> Shaped(t, h) && Ordered(Marks(t))
    ensures r == out + Kept(Seen(t, off), keep)
    decreases h
  {
    hide Marks, Rows, Ordered, NodeShape, FlatAll, Seen, Flat, Lawful, Fold, Cached, MeasureAt, Agree, Kept;
    KeptNothing(keep);
    if t.Nil? {
      SeenNothing(t, off);
      return out;
    }
    var d := off + t.dsp;
    MeasureAtIsFold(ms, t, off, h);
    if !admit(MeasureAt(ms, t.node, d)) {
      RuledOut(ms, Seen(t, off), admit, keep);
      return out;
    }
    match t.node {
      case Leaf(_, e) =>
        SeenLeaf(t, off, h);
        ghost var s := ShiftEntries(e, d);
        r := out;
        assert s[..0] == [];
        for i := 0 to |e|
          invariant r == out + Kept(s[..i], keep)
        {
          var k := Shift(e[i].key, d);
          KeptSnoc(s, i, keep);
          if keep(k, e[i].val) {
            r := r + [Entry(k, e[i].val)];
          }
        }
        assert s[..|e|] == s;
      case Internal(_, _, children) =>
        SeenInternal(t, off, h);
        ghost var ch := RelocateAll(children, d);
        r := out;
        assert ch[..0] == [];
        NoChildren();
        for i := 0 to |children|
          invariant r == out + Kept(FlatAll(ch[..i]), keep)
        {
          SeenChild(children, d, i);
          r := SearchInto(ms, children[i], d, admit, keep, r, h - 1);
          FlatAllSnoc(ch, i);
          KeptConcat(FlatAll(ch[..i]), Flat(ch[i]), keep);
        }
        assert ch[..|children|] == ch;
    }
  }

  lemma KeptNothing(keep: (Tuple, int) -> bool)
    ensures Kept([], keep) == []
  {
  }

  lemma KeptSnoc(s: seq<Entry>, i: nat, keep: (Tuple, int) -> bool)
    requires i < |s|
    ensures Kept(s[..i + 1], keep) == Kept(s[..i], keep) + if keep(s[i].key, s[i].val) then [s[i]] else []
  {
    assert s[..i + 1][..i] == s[..i];
  }

  lemma NoChildren()
    ensures FlatAll([]) == []
  {
  }

  lemma FlatAllSnoc(ch: seq<Tree>, i: nat)
    requires i < |ch|
    ensures FlatAll(ch[..i + 1]) == FlatAll(ch[..i]) + Flat(ch[i])
  {
    assert ch[..i + 1][..i] == ch[..i];
  }

  /** Exactly the kept entries, in key order, though whole subtrees are skipped. */
  method Search<M(!new)>(ms: Measure<M>, t: Tree, admit: M -> bool, keep: (Tuple, int) -> bool) returns (r: seq<Entry>)
    requires Lawful(ms) && Agree(ms, admit, keep) && Valid(t)
    ensures r == Kept(Flat(t), keep)
  {
    hide Marks, Rows, Ordered, NodeShape, Seen;
    SeenSame(t);
    r := SearchInto(ms, t, 0, admit, keep, [], Height(t));
  }

  /** The extent's own test agrees with looking for an entity in one column, so a
      search on any column may be pruned by it. */
  lemma ExtentAgrees(c: nat, lo: int, hi: int)
    requires lo < hi
    ensures Agree(ExtentMeasure(), (x: Extent) => Meets(x, c, lo, hi),
                  (k: Tuple, v: int) => IdAt(k, c).Some? && lo <= IdAt(k, c).value < hi)
  {
    var ms := ExtentMeasure();
    forall a: Extent, b: Extent | Meets(a, c, lo, hi) || Meets(b, c, lo, hi)
      ensures Meets(ms.combine(a, b), c, lo, hi) {
      CombinedColumn(a, b, c);
    }
  }
}
