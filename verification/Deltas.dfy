/** Incremental evaluation: how a plan's answer moves between two editions, found from how
    its inputs' answers move. */
module Deltas {
  import opened Values
  import opened Multisets
  import opened Plans
  import opened Traces

  /** The most distinct keys probed for one at a time. */
  const PROBE_LIMIT := 1024

  ghost function Meaning(q: Query, s: Store, at: nat): Option<Multiset> {
    Eval(q, Snapshot(s, at), map[])
  }

  function RelsOf(q: Query): set<RelId> {
    match q
    case Rel(r) => {r}
    case RangeRel(r, _, _) => {r}
    case RangeRelOn(r, _, _, _) => {r}
    case Map(a, _) => RelsOf(a)
    case Filter(a, _) => RelsOf(a)
    case Project(a, _) => RelsOf(a)
    case Join(a, b, _, _) => RelsOf(a) + RelsOf(b)
    case Union(a, b) => RelsOf(a) + RelsOf(b)
    case Negate(a) => RelsOf(a)
    case Distinct(a) => RelsOf(a)
    case Reduce(a, _, _) => RelsOf(a)
    case Recur => {}
    case Iterate(a, b) => RelsOf(a) + RelsOf(b)
    case Inherit(a, _, _, ctx) => RelsOf(a) + {ctx}
    case Shared(a) => RelsOf(a)
  }

  /** The store proves that nothing `q` reads changed. */
  predicate Quiet(q: Query, s: Store, from: nat, to: nat) {
    forall r <- RelsOf(q) :: !s.touched(r, from, to)
  }

  // ----- base relations and row-wise inputs -----

  datatype Span = Whole | Tuples(lo: Tuple, hi: Tuple) | Column(col: nat, low: Value, high: Value)

  datatype BaseRel = BaseRel(rel: RelId, span: Span)

  predicate Admits(b: BaseRel, t: Tuple) {
    match b.span
    case Whole => true
    case Tuples(lo, hi) => InRange(t, lo, hi)
    case Column(col, lo, hi) => InColumnRange(t, col, lo, hi)
  }

  function BaseOf(q: Query): Option<BaseRel> {
    match q
    case Rel(r) => Some(BaseRel(r, Whole))
    case RangeRel(r, lo, hi) => Some(BaseRel(r, Tuples(lo, hi)))
    case RangeRelOn(r, col, lo, hi) => Some(BaseRel(r, Column(col, lo, hi)))
    case Shared(a) => BaseOf(a)
    case _ => None
  }

  datatype Step = Filtered(pred: Tuple -> bool) | Projected(cols: seq<nat>)

  /** A base relation seen through filters and projections, innermost first. */
  datatype Rows = Rows(base: BaseRel, steps: seq<Step>)

  function RowsOf(q: Query): Option<Rows> {
    match q
    case Filter(a, pred) =>
      (match RowsOf(a) case None => None case Some(r) => Some(Rows(r.base, r.steps + [Filtered(pred)])))
    case Project(a, cols) =>
      (match RowsOf(a) case None => None case Some(r) => Some(Rows(r.base, r.steps + [Projected(cols)])))
    case Shared(a) => RowsOf(a)
    case _ =>
      match BaseOf(q) case None => None case Some(b) => Some(Rows(b, []))
  }

  /** What becomes of a base row: it is dropped, becomes a row, or is too short for a projection. */
  datatype Imaged = Dropped | TooShort | Row(t: Tuple)

  function Through(steps: seq<Step>, t: Tuple): Imaged {
    if steps == [] then Row(t) else
    match Through(steps[..|steps| - 1], t)
    case Dropped => Dropped
    case TooShort => TooShort
    case Row(u) =>
      match steps[|steps| - 1]
      case Filtered(pred) => if pred(u) then Row(u) else Dropped
      case Projected(cols) => (match Cells(u, cols) case None => TooShort case Some(v) => Row(v))
  }

  function ImageOf(rows: Rows, t: Tuple): Imaged {
    if Admits(rows.base, t) then Through(rows.steps, t) else Dropped
  }

  /** Where a column of the output comes from, traced down through the projections. */
  function Source(steps: seq<Step>, col: nat): Option<nat> {
    if steps == [] then Some(col) else
    match steps[|steps| - 1]
    case Filtered(_) => Source(steps[..|steps| - 1], col)
    case Projected(cols) => if col < |cols| then Source(steps[..|steps| - 1], cols[col]) else None
  }

  /** See through `distinct`: `reduce` reads only which rows are present. */
  function Strip(q: Query): Query {
    match q
    case Distinct(a) => Strip(a)
    case Shared(a) => Strip(a)
    case _ => q
  }

  // ----- the join's probe -----

  function DeltaKeys(delta: Multiset, deltaKey: seq<nat>): set<Value>
    requires deltaKey != []
  {
    set t | t in delta && deltaKey[0] < |t| :: t[deltaKey[0]]
  }

  /** One side of a join, cut down to rows that share a leading key with `delta`, provided
      it is a base relation and the keys are few; the whole side if not. */
  ghost function Matching(side: Query, sideKey: seq<nat>, delta: Multiset, deltaKey: seq<nat>, s: Store,
                          at: nat): Option<Multiset> {
    if BaseOf(side).Some? && sideKey != [] && deltaKey != [] && |DeltaKeys(delta, deltaKey)| <= PROBE_LIMIT
    then
      var base := BaseOf(side).value;
      Some(Keep(Lookup(s, base.rel, at, sideKey[0], DeltaKeys(delta, deltaKey)), t => Admits(base, t)))
    else Meaning(side, s, at)
  }

  ghost function JoinIfFits(a: Multiset, lk: seq<nat>, b: Multiset, rk: seq<nat>): Option<Multiset> {
    if AllFit(a, lk) && AllFit(b, rk) then Some(JoinOf(a, lk, b, rk)) else None
  }

  // ----- the per-group reduce -----

  /** `Fallback` asks for a recompute of both ends; `Refused` is an evaluation that does not return. */
  datatype Outcome = Fallback | Refused | Done(delta: Multiset)

  function Imager(rows: Rows): Tuple -> Option<Tuple> {
    t => match ImageOf(rows, t) case Row(u) => Some(u) case _ => None
  }

  function GroupsHit(rows: Rows, changed: set<Tuple>, key: seq<nat>): set<Tuple> {
    set t | t in changed && ImageOf(rows, t).Row? && Cells(ImageOf(rows, t).t, key).Some? ::
      Cells(ImageOf(rows, t).t, key).value
  }

  predicate ImagesReturn(rows: Rows, ts: set<Tuple>) {
    forall t <- ts :: !ImageOf(rows, t).TooShort?
  }

  predicate ImagesGrouped(rows: Rows, ts: set<Tuple>, key: seq<nat>) {
    forall t <- ts :: ImageOf(rows, t).Row? ==> Cells(ImageOf(rows, t).t, key).Some?
  }

  function Leads(groups: set<Tuple>): set<Value> {
    set g | g in groups && g != [] :: g[0]
  }

  function InGroups(groups: set<Tuple>, key: seq<nat>): Tuple -> bool {
    r => Cells(r, key).Some? && Cells(r, key).value in groups
  }

  /** Folds again just the groups that a change reached. Their present members come from a
      lookup by leading key, and their past members from undoing the changes. */
  ghost function ReduceByKey(input: Query, key: seq<nat>, agg: Agg, s: Store, from: nat, to: nat): Outcome {
    var rows := RowsOf(Strip(input));
    if rows.None? || key == [] || Source(rows.value.steps, key[0]).None? then Fallback else
    var rows := rows.value;
    var col := Source(rows.steps, key[0]).value;
    var changed := Changed(s, rows.base.rel, from, to);
    if !ImagesReturn(rows, changed) then Refused else
    if !ImagesGrouped(rows, changed, key) then Fallback else
    var groups := GroupsHit(rows, changed, key);
    var back := Image(Minus(ReadAt(s, rows.base.rel, from), ReadAt(s, rows.base.rel, to)), Imager(rows));
    var leads := Leads(groups);
    if leads == {} then Done(map[]) else
    if |leads| > PROBE_LIMIT then Fallback else
    var found := Lookup(s, rows.base.rel, to, col, leads);
    if !ImagesReturn(rows, found.Keys) then Refused else
    if !ImagesGrouped(rows, found.Keys, key) then Fallback else
    var atTo := Keep(Image(found, Imager(rows)), InGroups(groups, key));
    var atFrom := Plus(atTo, back);
    if !ReduceFits(atTo, key, agg) || !ReduceFits(atFrom, key, agg) then Refused else
    Done(Minus(ReduceOf(atTo, key, agg), ReduceOf(atFrom, key, agg)))
  }

  // ----- the incremental evaluator -----

  /** Recompute both ends and difference. */
  ghost function Recompute(q: Query, s: Store, from: nat, to: nat): Option<Multiset> {
    match (Meaning(q, s, to), Meaning(q, s, from))
    case (Some(b), Some(a)) => Some(Minus(b, a))
    case _ => None
  }

  ghost function EvalDelta(q: Query, s: Store, from: nat, to: nat): Option<Multiset> {
    match q
    case Rel(r) => Some(Tally(ScanUpdates(s, r, from, to)))
    case RangeRel(r, lo, hi) => Some(Keep(Tally(ScanUpdates(s, r, from, to)), t => InRange(t, lo, hi)))
    case RangeRelOn(r, col, lo, hi) =>
      Some(Keep(Tally(ScanUpdates(s, r, from, to)), t => InColumnRange(t, col, lo, hi)))
    case Map(input, f) =>
      (match EvalDelta(input, s, from, to)
       case None => None
       case Some(d) => Some(Image(d, Mapper(f))))
    case Filter(input, pred) =>
      (match EvalDelta(input, s, from, to)
       case None => None
       case Some(d) => Some(Keep(d, pred)))
    case Project(input, cols) =>
      (match EvalDelta(input, s, from, to)
       case None => None
       case Some(d) => if AllFit(d, cols) then Some(Image(d, Projector(cols))) else None)
    case Join(left, right, lk, rk) =>
      (match (EvalDelta(left, s, from, to), EvalDelta(right, s, from, to))
       case (Some(da), Some(db)) => JoinDelta(left, lk, right, rk, da, db, s, to)
       case _ => None)
    case Union(left, right) =>
      (match (EvalDelta(left, s, from, to), EvalDelta(right, s, from, to))
       case (Some(da), Some(db)) => Some(Plus(da, db))
       case _ => None)
    case Negate(input) =>
      (match EvalDelta(input, s, from, to)
       case None => None
       case Some(d) => Some(Negated(d)))
    case Distinct(input) =>
      (match BaseOf(input)
       case Some(base) => Some(Crossings(s, base, from, to))
       case None => if Quiet(q, s, from, to) then Some(map[]) else Recompute(q, s, from, to))
    case Reduce(input, key, agg) =>
      if Quiet(q, s, from, to) then Some(map[]) else
      (match ReduceByKey(input, key, agg, s, from, to)
       case Done(d) => Some(d)
       case Refused => None
       case Fallback => Recompute(q, s, from, to))
    case Recur => Some(map[])
    case Iterate(_, _) => if Quiet(q, s, from, to) then Some(map[]) else Recompute(q, s, from, to)
    case Inherit(input, col, bound, ctx) =>
      if s.touched(ctx, from, to) then Recompute(q, s, from, to) else
      (match EvalDelta(input, s, from, to)
       case None => None
       case Some(d) =>
         var points := set t | t in d && col < |t| :: t[col];
         Some(InheritOf(d, col, ScopesOf(ReadContaining(s, ctx, to, points), bound))))
    case Shared(input) => EvalDelta(input, s, from, to)
  }

  /** `dA * B_to + A_to * dB - dA * dB`, each product taken only if its delta is
      non-empty, and the unchanged sides read only where they can match. */
  ghost function JoinDelta(left: Query, lk: seq<nat>, right: Query, rk: seq<nat>, da: Multiset, db: Multiset, s: Store,
                           to: nat): Option<Multiset> {
    var first :=
      if da == map[] then Some(map[]) else
      match Matching(right, rk, da, lk, s, to) case None => None case Some(b) => JoinIfFits(da, lk, b, rk);
    var second :=
      if db == map[] then Some(map[]) else
      match Matching(left, lk, db, rk, s, to) case None => None case Some(a) => JoinIfFits(a, lk, db, rk);
    var third := if da == map[] || db == map[] then Some(map[]) else JoinIfFits(da, lk, db, rk);
    if first.Some? && second.Some? && third.Some?
    then Some(Minus(Plus(first.value, second.value), third.value))
    else None
  }

  /** The rows entering or leaving a `distinct` over a base relation: those among
      the changed rows whose weight crosses zero. */
  function Crossings(s: Store, base: BaseRel, from: nat, to: nat): Multiset {
    map t | t in Changed(s, base.rel, from, to) && Admits(base, t) && Crossing(s, base.rel, from, to, t) != 0
      :: Crossing(s, base.rel, from, to, t)
  }

  function Crossing(s: Store, rel: RelId, from: nat, to: nat, t: Tuple): int {
    (if W(ReadAt(s, rel, to), t) > 0 then 1 else 0) - (if W(ReadAt(s, rel, from), t) > 0 then 1 else 0)
  }
}
