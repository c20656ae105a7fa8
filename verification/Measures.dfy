/** Summaries of subtrees that combine up the tree. */
module Measures {
  import opened Values
  import opened Displacements
  import opened MarkLists

  /** What a summary supplies: its identity, the summary of one entry, how two
      neighbouring summaries combine, and how one moves with its keys. */
  datatype Measure<!M> = Measure(
    empty: M,
    entry: (Tuple, int) -> M,
    combine: (M, M) -> M,
    displace: (M, int) -> M)

  ghost predicate Lawful<M(!new)>(ms: Measure<M>) {
    && (forall a :: ms.combine(ms.empty, a) == a && ms.combine(a, ms.empty) == a)
    && (forall a, b, c :: ms.combine(ms.combine(a, b), c) == ms.combine(a, ms.combine(b, c)))
    && (forall d :: ms.displace(ms.empty, d) == ms.empty)
    && (forall a, b, d :: ms.displace(ms.combine(a, b), d) == ms.combine(ms.displace(a, d), ms.displace(b, d)))
    && (forall k, v, d :: ms.displace(ms.entry(k, v), d) == ms.entry(Shift(k, d), v))
  }

  /** The summary of a list of entries: what every cached summary stands for. */
  function Fold<M>(ms: Measure<M>, e: seq<Entry>): M {
    if e == [] then ms.empty else
    var n := |e| - 1;
    ms.combine(Fold(ms, e[..n]), ms.entry(e[n].key, e[n].val))
  }

  lemma {:induction false} FoldConcat<M(!new)>(ms: Measure<M>, a: seq<Entry>, b: seq<Entry>)
    requires Lawful(ms)
    ensures Fold(ms, a + b) == ms.combine(Fold(ms, a), Fold(ms, b))
    decreases |b|
  {
    if b == [] {
      assert a + b == a;
    } else {
      var n := |b| - 1;
      assert (a + b)[..|a + b| - 1] == a + b[..n];
      FoldConcat(ms, a, b[..n]);
    }
  }

  lemma {:induction false} FoldShift<M(!new)>(ms: Measure<M>, e: seq<Entry>, d: int)
    requires Lawful(ms)
    ensures Fold(ms, ShiftEntries(e, d)) == ms.displace(Fold(ms, e), d)
  {
    if e != [] {
      var n := |e| - 1;
      FoldShift(ms, e[..n], d);
      assert ShiftEntries(e, d)[..n] == ShiftEntries(e[..n], d);
    }
  }

  /** Two summaries carried at once. */
  function Product<M, N>(a: Measure<M>, b: Measure<N>): Measure<(M, N)> {
    Measure((a.empty, b.empty),
            (k, v) => (a.entry(k, v), b.entry(k, v)),
            (x: (M, N), y: (M, N)) => (a.combine(x.0, y.0), b.combine(x.1, y.1)),
            (x: (M, N), d) => (a.displace(x.0, d), b.displace(x.1, d)))
  }

  /** A product of lawful summaries is lawful. */
  lemma ProductLawful<M(!new), N(!new)>(a: Measure<M>, b: Measure<N>)
    requires Lawful(a) && Lawful(b)
    ensures Lawful(Product(a, b))
  {
    var p := Product(a, b);
    forall x: (M, N) ensures p.combine(p.empty, x) == x && p.combine(x, p.empty) == x {
      assert x == (x.0, x.1);
    }
    forall x: (M, N), y: (M, N), z: (M, N) ensures p.combine(p.combine(x, y), z) == p.combine(x, p.combine(y, z)) {
      assert a.combine(a.combine(x.0, y.0), z.0) == a.combine(x.0, a.combine(y.0, z.0));
      assert b.combine(b.combine(x.1, y.1), z.1) == b.combine(x.1, b.combine(y.1, z.1));
    }
    forall x: (M, N), y: (M, N), d
      ensures p.displace(p.combine(x, y), d) == p.combine(p.displace(x, d), p.displace(y, d)) {
      assert a.displace(a.combine(x.0, y.0), d) == a.combine(a.displace(x.0, d), a.displace(y.0, d));
      assert b.displace(b.combine(x.1, y.1), d) == b.combine(b.displace(x.1, d), b.displace(y.1, d));
    }
  }

  /** The number of entries, as a summary. */
  function Count(): Measure<int> {
    Measure(0, (k, v) => 1, (a, b) => a + b, (a, d) => a)
  }

  lemma {:induction false} CountIsLength(e: seq<Entry>)
    ensures Fold(Count(), e) == |e|
  {
    if e != [] {
      CountIsLength(e[..|e| - 1]);
    }
  }

  // ----- the extent of a subtree in entity space -----

  /** What is known of a column: between which ids its entities lie, and in how many rows it
      has one. */
  datatype Column = Column(bounds: Option<(int, int)>, ents: int)

  datatype Extent = Extent(columns: seq<Column>, rows: int)

  const NO_COLUMN := Column(None, 0)

  function ColumnOf(x: Extent, c: nat): Column {
    if c < |x.columns| then x.columns[c] else NO_COLUMN
  }

  function Min(a: int, b: int): int {
    if a < b then a else b
  }

  function Max(a: int, b: int): int {
    if a < b then b else a
  }

  function Hull(a: Option<(int, int)>, b: Option<(int, int)>): Option<(int, int)> {
    match (a, b)
    case (None, b) => b
    case (a, None) => a
    case (Some(x), Some(y)) => Some((Min(x.0, y.0), Max(x.1, y.1)))
  }

  function AddColumns(a: Column, b: Column): Column {
    Column(Hull(a.bounds, b.bounds), a.ents + b.ents)
  }

  function CombineExtents(a: Extent, b: Extent): Extent {
    Extent(seq(Max(|a.columns|, |b.columns|), c requires c >= 0 => AddColumns(ColumnOf(a, c), ColumnOf(b, c))),
      a.rows + b.rows)
  }

  function CellColumn(v: Value): Column {
    match v case Ent(id) => Column(Some((id, id)), 1) case _ => NO_COLUMN
  }

  function EntryExtent(k: Tuple): Extent {
    Extent(seq(|k|, c requires 0 <= c < |k| => CellColumn(k[c])), 1)
  }

  function ShiftColumn(c: Column, d: int): Column {
    match c.bounds case None => c case Some(b) => Column(Some((b.0 + d, b.1 + d)), c.ents)
  }

  function ShiftExtent(x: Extent, d: int): Extent {
    Extent(seq(|x.columns|, c requires 0 <= c < |x.columns| => ShiftColumn(x.columns[c], d)), x.rows)
  }

  function ExtentMeasure(): Measure<Extent> {
    Measure(Extent([], 0), (k, v) => EntryExtent(k), CombineExtents, ShiftExtent)
  }

  lemma SameExtent(a: Extent, b: Extent)
    requires |a.columns| == |b.columns| && a.rows == b.rows
    requires forall c: nat | c < |a.columns| :: ColumnOf(a, c) == ColumnOf(b, c)
    ensures a == b
  {
    assert forall c | 0 <= c < |a.columns| :: a.columns[c] == ColumnOf(a, c);
  }

  lemma {:induction false} ShiftCell(k: Tuple, d: int, c: nat)
    requires c < |k|
    ensures Shift(k, d)[c] == ShiftValue(k[c], d)
  {
    if c > 0 {
      ShiftCell(k[1..], d, c - 1);
    }
  }

  lemma ExtentAssociative(a: Extent, b: Extent, c: Extent)
    ensures CombineExtents(CombineExtents(a, b), c) == CombineExtents(a, CombineExtents(b, c))
  {
    var l, r := CombineExtents(CombineExtents(a, b), c), CombineExtents(a, CombineExtents(b, c));
    assert |l.columns| == |r.columns| && l.rows == r.rows;
    hide CombineExtents, AddColumns, ColumnOf;
    forall i: nat | i < |l.columns| ensures ColumnOf(l, i) == ColumnOf(r, i) {
      CombinedColumn(a, b, i);
      CombinedColumn(b, c, i);
      CombinedColumn(CombineExtents(a, b), c, i);
      CombinedColumn(a, CombineExtents(b, c), i);
      AddColumnsAssociative(ColumnOf(a, i), ColumnOf(b, i), ColumnOf(c, i));
    }
    SameExtent(l, r);
  }

  lemma AddColumnsAssociative(a: Column, b: Column, c: Column)
    ensures AddColumns(AddColumns(a, b), c) == AddColumns(a, AddColumns(b, c))
  {
  }

  lemma ExtentMoves(a: Extent, b: Extent, d: int)
    ensures ShiftExtent(CombineExtents(a, b), d) == CombineExtents(ShiftExtent(a, d), ShiftExtent(b, d))
  {
    var l, r := ShiftExtent(CombineExtents(a, b), d), CombineExtents(ShiftExtent(a, d), ShiftExtent(b, d));
    forall i: nat | i < |l.columns| ensures ColumnOf(l, i) == ColumnOf(r, i) {
      assert ColumnOf(ShiftExtent(a, d), i) == ShiftColumn(ColumnOf(a, i), d);
      assert ColumnOf(ShiftExtent(b, d), i) == ShiftColumn(ColumnOf(b, i), d);
    }
    SameExtent(l, r);
  }

  lemma ExtentEntryMoves(k: Tuple, d: int)
    ensures ShiftExtent(EntryExtent(k), d) == EntryExtent(Shift(k, d))
  {
    var l, r := ShiftExtent(EntryExtent(k), d), EntryExtent(Shift(k, d));
    forall i: nat | i < |k| ensures ColumnOf(l, i) == ColumnOf(r, i) {
      ShiftCell(k, d, i);
    }
    SameExtent(l, r);
  }

  /** The extent is a lawful summary: it moves exactly as the keys do. */
  lemma ExtentLawful()
    ensures Lawful(ExtentMeasure())
  {
    var ms := ExtentMeasure();
    forall a ensures ms.combine(ms.empty, a) == a && ms.combine(a, ms.empty) == a {
      SameExtent(CombineExtents(Extent([], 0), a), a);
      SameExtent(CombineExtents(a, Extent([], 0)), a);
    }
    forall a, b, c ensures ms.combine(ms.combine(a, b), c) == ms.combine(a, ms.combine(b, c)) {
      ExtentAssociative(a, b, c);
    }
    forall a, b, d ensures ms.displace(ms.combine(a, b), d) == ms.combine(ms.displace(a, d), ms.displace(b, d)) {
      ExtentMoves(a, b, d);
    }
    forall k, v, d ensures ms.displace(ms.entry(k, v), d) == ms.entry(Shift(k, d), v) {
      ExtentEntryMoves(k, d);
    }
  }

  /** The entity id of a key in one column, if it has one there. */
  function IdAt(k: Tuple, c: nat): Option<int> {
    if c < |k| then (match k[c] case Ent(id) => Some(id) case _ => None) else None
  }

  /** What the fold of a list says of one column: the bounds hold every entity in
      it and are reached, and the count is of the rows that have one. */
  ghost predicate Describes(x: Column, e: seq<Entry>, c: nat) {
    && (x.bounds.None? <==> forall y <- e :: IdAt(y.key, c).None?)
    && (x.bounds.Some? ==>
          forall y <- e | IdAt(y.key, c).Some? :: x.bounds.value.0 <= IdAt(y.key, c).value <= x.bounds.value.1)
    && (x.bounds.Some? ==> exists y <- e :: IdAt(y.key, c) == Some(x.bounds.value.0))
    && (x.bounds.Some? ==> exists y <- e :: IdAt(y.key, c) == Some(x.bounds.value.1))
    && x.ents <= |e| && (x.ents == |e| <==> forall y <- e :: IdAt(y.key, c).Some?)
  }

  lemma {:induction false} FoldRowCount(e: seq<Entry>)
    ensures Fold(ExtentMeasure(), e).rows == |e|
  {
    if e != [] {
      FoldRowCount(e[..|e| - 1]);
    }
  }

  lemma NothingDescribed(c: nat)
    ensures Describes(ColumnOf(Fold(ExtentMeasure(), []), c), [], c)
  {
  }

  lemma {:induction false} ExtentDescribes(e: seq<Entry>, c: nat)
    ensures Fold(ExtentMeasure(), e).rows == |e|
    ensures Describes(ColumnOf(Fold(ExtentMeasure(), e), c), e, c)
  {
    hide Describes, ColumnOf, Fold, IdAt, AddColumns;
    FoldRowCount(e);
    if e == [] {
      NothingDescribed(c);
    } else {
      var n := |e| - 1;
      ExtentDescribes(e[..n], c);
      FoldColumn(e, c);
      DescribesSnoc(ColumnOf(Fold(ExtentMeasure(), e[..n]), c), e[..n], e[n], c);
      assert e == e[..n] + [e[n]];
    }
  }

  lemma EntryColumn(k: Tuple, c: nat)
    ensures var id := IdAt(k, c);
      ColumnOf(EntryExtent(k), c) == if id.Some? then Column(Some((id.value, id.value)), 1) else NO_COLUMN
  {
  }

  lemma FoldColumn(e: seq<Entry>, c: nat)
    requires e != []
    ensures var n := |e| - 1; var id := IdAt(e[n].key, c);
      ColumnOf(Fold(ExtentMeasure(), e), c)
      == AddColumns(ColumnOf(Fold(ExtentMeasure(), e[..n]), c),
        if id.Some? then Column(Some((id.value, id.value)), 1) else NO_COLUMN)
  {
    hide ColumnOf, AddColumns, CombineExtents, EntryExtent, IdAt;
    var n := |e| - 1;
    var a, b := Fold(ExtentMeasure(), e[..n]), EntryExtent(e[n].key);
    assert Fold(ExtentMeasure(), e) == CombineExtents(a, b);
    CombinedColumn(a, b, c);
    EntryColumn(e[n].key, c);
  }

  lemma DescribesSnoc(x: Column, e: seq<Entry>, y: Entry, c: nat)
    requires Describes(x, e, c)
    ensures var id := IdAt(y.key, c);
      Describes(AddColumns(x, if id.Some? then Column(Some((id.value, id.value)), 1) else NO_COLUMN), e + [y], c)
  {
    var id, f := IdAt(y.key, c), e + [y];
    var r := AddColumns(x, if id.Some? then Column(Some((id.value, id.value)), 1) else NO_COLUMN);
    assert y in f && forall z <- e :: z in f;
    if x.bounds.Some? {
      var lo :| lo in e && IdAt(lo.key, c) == Some(x.bounds.value.0);
      var hi :| hi in e && IdAt(hi.key, c) == Some(x.bounds.value.1);
      assert lo in f && hi in f;
    }
  }

  function ColumnBounds(x: Extent, c: nat): Option<(int, int)> {
    ColumnOf(x, c).bounds
  }

  /** The bounds of column `c` overlap a span of ids. */
  predicate Meets(x: Extent, c: nat, lo: int, hi: int) {
    match ColumnBounds(x, c) case None => false case Some(b) => b.0 < hi && lo <= b.1
  }

  /** A "no" is a proof that nothing beneath matches. */
  lemma MeetsIsSound(e: seq<Entry>, c: nat, lo: int, hi: int)
    requires !Meets(Fold(ExtentMeasure(), e), c, lo, hi)
    ensures forall y <- e | IdAt(y.key, c).Some? :: !(lo <= IdAt(y.key, c).value < hi)
  {
    hide Fold;
    ExtentDescribes(e, c);
  }

  /** Which side of the pivot id `p` in column `c` every key lies on, if the extent
      can tell: it can when every row holds an entity there. */
  function SideOf(x: Extent, c: nat, p: int): Option<bool> {
    if x.rows > 0 && c < |x.columns| && x.columns[c].ents == x.rows then
      match x.columns[c].bounds
      case None => None
      case Some(b) => if b.1 < p then Some(true) else if b.0 >= p then Some(false) else None
    else
      None
  }

  /** How a key's column compares with a pivot: below it, or when the column is
      missing or sorts before an entity. */
  predicate ColumnBelow(k: Tuple, c: nat, p: int) {
    c >= |k| || ValueLess(k[c], Ent(p))
  }

  /** An answer is a proof about every key beneath; and when every row has an
      entity in the column, an answer is missing only if both sides are inhabited. */
  lemma SideOfIsSound(e: seq<Entry>, c: nat, p: int)
    ensures var side := SideOf(Fold(ExtentMeasure(), e), c, p);
      && (side == Some(true) ==> forall y <- e :: ColumnBelow(y.key, c, p))
      && (side == Some(false) ==> forall y <- e :: !ColumnBelow(y.key, c, p))
      && (side == None && e != [] && (forall y <- e :: IdAt(y.key, c).Some?) ==>
          (exists y <- e :: ColumnBelow(y.key, c, p)) && (exists y <- e :: !ColumnBelow(y.key, c, p)))
  {
    hide Fold;
    ExtentDescribes(e, c);
    var x := Fold(ExtentMeasure(), e);
    assert c < |x.columns| ==> x.columns[c] == ColumnOf(x, c);
    if e != [] && (forall y <- e :: IdAt(y.key, c).Some?) {
      assert ColumnOf(x, c).ents == x.rows > 0;
      var b := ColumnOf(x, c).bounds;
      assert e[0] in e;
      var lo :| lo in e && IdAt(lo.key, c) == Some(b.value.0);
      var hi :| hi in e && IdAt(hi.key, c) == Some(b.value.1);
    }
  }

  // ----- runs -----

  /** A key of a run, counted from its first: every entity or integer cell has moved by its
      stride `i` times. */
  function Step(k: Tuple, stride: seq<int>, i: int): (r: Tuple)
    requires |stride| == |k|
    ensures |r| == |k|
  {
    seq(|k|, c requires 0 <= c < |k| =>
      match k[c]
      case Ent(id) => Ent(id + stride[c] * i)
      case Int(x) => Int(x + stride[c] * i)
      case v => v)
  }

  /** The rows of a run of `n` keys. */
  function RowsOfRun(k: Tuple, stride: seq<int>, n: nat, v: int): (r: seq<Entry>)
    requires |stride| == |k|
    ensures |r| == n
  {
    if n == 0 then [] else RowsOfRun(k, stride, n - 1, v) + [Entry(Step(k, stride, n - 1), v)]
  }

  /** The extent of a run from its end rows alone. */
  function RunExtent(k: Tuple, stride: seq<int>, n: nat): Extent
    requires |stride| == |k|
  {
    if n == 0 then Extent([], 0) else
    Extent(seq(|k|, c requires 0 <= c < |k| =>
      match k[c]
      case Ent(x) => Column(Some((Min(x, x + stride[c] * (n - 1)), Max(x, x + stride[c] * (n - 1)))), n)
      case _ => NO_COLUMN), n)
  }

  lemma StepsAreMonotone(s: int, n: nat)
    requires n >= 1
    ensures s >= 0 ==> 0 <= s * (n - 1) <= s * n
    ensures s <= 0 ==> 0 >= s * (n - 1) >= s * n
  {
    assert s * n == s * (n - 1) + s;
    if s >= 0 {
      assert s * (n - 1) >= 0;
    } else {
      assert s * (n - 1) <= 0;
    }
  }

  lemma RunColumn(k: Tuple, stride: seq<int>, n: nat, c: nat)
    requires |stride| == |k| && n >= 1 && c < |k|
    ensures ColumnOf(RunExtent(k, stride, n), c)
         == AddColumns(ColumnOf(RunExtent(k, stride, n - 1), c), CellColumn(Step(k, stride, n - 1)[c]))
  {
    if n > 1 {
      StepsAreMonotone(stride[c], n - 1);
    }
  }

  /** The constant-time extent of a run is the fold of its rows. */
  lemma {:induction false} RunExtentIsFold(k: Tuple, stride: seq<int>, n: nat, v: int)
    requires |stride| == |k|
    ensures RunExtent(k, stride, n) == Fold(ExtentMeasure(), RowsOfRun(k, stride, n, v))
  {
    if n > 0 {
      RunExtentIsFold(k, stride, n - 1, v);
      RunFold(k, stride, n, v);
      var l, r := RunExtent(k, stride, n),
        CombineExtents(RunExtent(k, stride, n - 1), EntryExtent(Step(k, stride, n - 1)));
      RunWidths(k, stride, n);
      forall c: nat | c < |k| ensures ColumnOf(l, c) == ColumnOf(r, c) {
        hide RunExtent, Fold, Step;
        RunColumn(k, stride, n, c);
        CombinedColumn(RunExtent(k, stride, n - 1), EntryExtent(Step(k, stride, n - 1)), c);
      }
      SameExtent(l, r);
    }
  }

  lemma CombinedColumn(a: Extent, b: Extent, c: nat)
    ensures ColumnOf(CombineExtents(a, b), c) == AddColumns(ColumnOf(a, c), ColumnOf(b, c))
  {
  }

  lemma RunWidths(k: Tuple, stride: seq<int>, n: nat)
    requires |stride| == |k| && n >= 1
    ensures |RunExtent(k, stride, n).columns| == |k| && RunExtent(k, stride, n).rows == n
    ensures var r := CombineExtents(RunExtent(k, stride, n - 1), EntryExtent(Step(k, stride, n - 1)));
            |r.columns| == |k| && r.rows == n
  {
  }

  lemma RunFold(k: Tuple, stride: seq<int>, n: nat, v: int)
    requires |stride| == |k| && n >= 1
    ensures Fold(ExtentMeasure(), RowsOfRun(k, stride, n, v))
         == CombineExtents(Fold(ExtentMeasure(), RowsOfRun(k, stride, n - 1, v)), EntryExtent(Step(k, stride, n - 1)))
  {
    hide Step, CombineExtents, EntryExtent;
    assert RowsOfRun(k, stride, n, v)[..n - 1] == RowsOfRun(k, stride, n - 1, v);
  }
}
