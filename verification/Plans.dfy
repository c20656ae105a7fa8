/** Query plans and their meaning at one edition. */
module Plans {
  import opened Values
  import opened Multisets

  type RelId = nat

  /** The contents of every base relation at one edition. */
  type Db = map<RelId, Multiset>

  datatype Agg = Count | Total(col: nat) | Min(col: nat) | Max(col: nat)

  datatype Query =
    | Rel(rel: RelId)
    | RangeRel(rel: RelId, lo: Tuple, hi: Tuple)
    | RangeRelOn(rel: RelId, col: nat, low: Value, high: Value)
    | Map(input: Query, f: Tuple -> Tuple)
    | Filter(input: Query, pred: Tuple -> bool)
    | Project(input: Query, cols: seq<nat>)
    | Join(left: Query, right: Query, leftKey: seq<nat>, rightKey: seq<nat>)
    | Union(left: Query, right: Query)
    | Negate(input: Query)
    | Distinct(input: Query)
    | Reduce(input: Query, key: seq<nat>, agg: Agg)
    | Recur
    | Iterate(init: Query, step: Query)
    | Inherit(input: Query, col: nat, bound: Value, ctx: RelId)
    | Shared(input: Query)

  // ----- rows -----

  /** The cells of a tuple that `cols` names; none when one of them is missing. */
  function Cells(t: Tuple, cols: seq<nat>): Option<Tuple> {
    if forall i | 0 <= i < |cols| :: cols[i] < |t|
    then Some(seq(|cols|, i requires 0 <= i < |cols| && cols[i] < |t| => t[cols[i]]))
    else None
  }

  predicate AllFit(m: map<Tuple, int>, cols: seq<nat>) {
    forall t <- m :: Cells(t, cols).Some?
  }

  predicate InColumnRange(t: Tuple, col: nat, lo: Value, hi: Value) {
    col < |t| && ValueLeq(lo, t[col]) && ValueLess(t[col], hi)
  }

  function Read(db: Db, rel: RelId): Multiset {
    if rel in db then db[rel] else map[]
  }

  // ----- map, project, join -----

  function Mapper(f: Tuple -> Tuple): Tuple -> Option<Tuple> {
    t => Some(f(t))
  }

  function Projector(cols: seq<nat>): Tuple -> Option<Tuple> {
    t => Cells(t, cols)
  }

  predicate KeysMatch(x: Tuple, leftKey: seq<nat>, y: Tuple, rightKey: seq<nat>) {
    Cells(x, leftKey).Some? && Cells(x, leftKey) == Cells(y, rightKey)
  }

  function Pairing(x: Tuple, leftKey: seq<nat>, rightKey: seq<nat>): Tuple -> Option<Tuple> {
    y => if KeysMatch(x, leftKey, y, rightKey) then Some(x + y) else None
  }

  ghost function Matches(b: Multiset, leftKey: seq<nat>, rightKey: seq<nat>): Tuple -> Multiset {
    x => Image(b, Pairing(x, leftKey, rightKey))
  }

  ghost function JoinOf(a: Multiset, leftKey: seq<nat>, b: Multiset, rightKey: seq<nat>): Multiset {
    Spread(a, Matches(b, leftKey, rightKey))
  }

  // ----- aggregates -----

  /** Two's-complement wrap-around to 64 bits. */
  function Wrap64(x: int): int {
    (x + 0x8000_0000_0000_0000) % 0x1_0000_0000_0000_0000 - 0x8000_0000_0000_0000
  }

  /** Cell `c`. Callers have checked that the row is long enough. */
  function Cell(t: Tuple, c: nat): Value {
    if c < |t| then t[c] else Other(0)
  }

  function IntCell(t: Tuple, c: nat): int {
    match Cell(t, c) case Int(n) => n case _ => 0
  }

  predicate AggFits(agg: Agg, t: Tuple) {
    match agg case Count => true case _ => agg.col < |t|
  }

  predicate IsLeast(v: Value, vs: set<Value>) {
    v in vs && forall u <- vs :: ValueLeq(v, u)
  }

  predicate IsGreatest(v: Value, vs: set<Value>) {
    v in vs && forall u <- vs :: ValueLeq(u, v)
  }

  function Column(s: set<Tuple>, c: nat): set<Value> {
    set t | t in s :: Cell(t, c)
  }

  /** The aggregate of a group, whatever order its members are met in. */
  ghost function AggOf(s: set<Tuple>, agg: Agg): Value {
    match agg
    case Count => Int(|s|)
    case Total(c) => Int(Wrap64(Sum(s, t => IntCell(t, c))))
    case Min(c) => if exists v :: IsLeast(v, Column(s, c)) then var v :| IsLeast(v, Column(s, c)); v else Int(0)
    case Max(c) => if exists v :: IsGreatest(v, Column(s, c)) then var v :| IsGreatest(v, Column(s, c)); v else Int(0)
  }

  /** The present rows of group `g`. */
  function Members(m: map<Tuple, int>, key: seq<nat>, g: Tuple): set<Tuple> {
    set t | t in m && m[t] > 0 && Cells(t, key) == Some(g)
  }

  function Groups(m: map<Tuple, int>, key: seq<nat>): set<Tuple> {
    set t | t in m && m[t] > 0 && Cells(t, key).Some? :: Cells(t, key).value
  }

  ghost function GroupRow(m: map<Tuple, int>, key: seq<nat>, agg: Agg, g: Tuple): Tuple {
    g + [AggOf(Members(m, key, g), agg)]
  }

  /** One weight-1 row per non-empty group: its key, then its aggregate. */
  ghost function ReduceOf(m: map<Tuple, int>, key: seq<nat>, agg: Agg): Multiset {
    var rows := set g | g in Groups(m, key) :: GroupRow(m, key, agg, g);
    map r | r in rows :: 1
  }

  /** Every present row is long enough to be grouped and folded. */
  predicate ReduceFits(m: map<Tuple, int>, key: seq<nat>, agg: Agg) {
    forall t <- m :: m[t] > 0 ==> Cells(t, key).Some? && AggFits(agg, t)
  }

  // ----- inherited context -----

  /** A live binding: `value` for every entity in the inclusive span `first..last`. */
  datatype Scope = Scope(first: Value, last: Value, val: Value)

  function ScopesOf(ctx: map<Tuple, int>, bound: Value): set<Scope> {
    set t | t in ctx && ctx[t] > 0 && |t| == 4 && t[2] == bound :: Scope(t[0], t[1], t[3])
  }

  predicate Covers(s: Scope, e: Value) {
    ValueLeq(s.first, e) && ValueLeq(e, s.last)
  }

  /** `a` is strictly more specific than `b`: it starts later, then ends earlier, then has the lesser value. */
  predicate MoreSpecific(a: Scope, b: Scope) {
    || ValueLess(b.first, a.first)
    || (a.first == b.first && ValueLess(a.last, b.last))
    || (a.first == b.first && a.last == b.last && ValueLess(a.val, b.val))
  }

  predicate IsBest(s: Scope, scopes: set<Scope>, e: Value) {
    s in scopes && Covers(s, e) && forall u <- scopes :: Covers(u, e) ==> !MoreSpecific(u, s)
  }

  ghost function Inherited(scopes: set<Scope>, e: Value): Option<Value> {
    if exists s :: IsBest(s, scopes, e) then var s :| IsBest(s, scopes, e); Some(s.val) else None
  }

  ghost function Extender(scopes: set<Scope>, col: nat): Tuple -> Option<Tuple> {
    row =>
      if col < |row| && Inherited(scopes, row[col]).Some?
      then Some(row + [Inherited(scopes, row[col]).value])
      else None
  }

  ghost function InheritOf(m: Multiset, col: nat, scopes: set<Scope>): Multiset {
    Image(m, Extender(scopes, col))
  }

  // ----- evaluation -----

  predicate ContainsReduce(q: Query) {
    match q
    case Reduce(_, _, _) => true
    case Map(a, _) => ContainsReduce(a)
    case Filter(a, _) => ContainsReduce(a)
    case Project(a, _) => ContainsReduce(a)
    case Join(a, b, _, _) => ContainsReduce(a) || ContainsReduce(b)
    case Union(a, b) => ContainsReduce(a) || ContainsReduce(b)
    case Negate(a) => ContainsReduce(a)
    case Distinct(a) => ContainsReduce(a)
    case Iterate(a, b) => ContainsReduce(a) || ContainsReduce(b)
    case Inherit(a, _, _, _) => ContainsReduce(a)
    case Shared(a) => ContainsReduce(a)
    case _ => false
  }

  /** What `q` means over the relations `db` with the recursion variable holding
      `recur`. `None` when the evaluation does not return rows: a row is too short
      for a column it is asked for, an aggregate sits inside a recursion, or the
      recursion never settles. */
  ghost function Eval(q: Query, db: Db, recur: Multiset): Option<Multiset>
    decreases q, 0
  {
    match q
    case Rel(r) => Some(Read(db, r))
    case RangeRel(r, lo, hi) => Some(Keep(Read(db, r), t => InRange(t, lo, hi)))
    case RangeRelOn(r, col, lo, hi) => Some(Keep(Read(db, r), t => InColumnRange(t, col, lo, hi)))
    case Map(input, f) =>
      (match Eval(input, db, recur)
       case None => None
       case Some(m) => Some(Image(m, Mapper(f))))
    case Filter(input, pred) =>
      (match Eval(input, db, recur)
       case None => None
       case Some(m) => Some(Keep(m, pred)))
    case Project(input, cols) =>
      (match Eval(input, db, recur)
       case None => None
       case Some(m) => if AllFit(m, cols) then Some(Image(m, Projector(cols))) else None)
    case Join(left, right, lk, rk) =>
      (match (Eval(left, db, recur), Eval(right, db, recur))
       case (Some(a), Some(b)) => if AllFit(a, lk) && AllFit(b, rk) then Some(JoinOf(a, lk, b, rk)) else None
       case _ => None)
    case Union(left, right) =>
      (match (Eval(left, db, recur), Eval(right, db, recur))
       case (Some(a), Some(b)) => Some(Plus(a, b))
       case _ => None)
    case Negate(input) =>
      (match Eval(input, db, recur)
       case None => None
       case Some(m) => Some(Negated(m)))
    case Distinct(input) =>
      (match Eval(input, db, recur)
       case None => None
       case Some(m) => Some(DistinctOf(m)))
    case Reduce(input, key, agg) =>
      (match Eval(input, db, recur)
       case None => None
       case Some(m) => if ReduceFits(m, key, agg) then Some(ReduceOf(m, key, agg)) else None)
    case Recur => Some(recur)
    case Iterate(init, step) =>
      if ContainsReduce(init) || ContainsReduce(step) then None else
      (match Eval(init, db, map[])
       case None => None
       case Some(start) =>
         if exists n: nat :: Settled(start, step, db, n)
         then var n: nat :| Settled(start, step, db, n); Stage(start, step, db, n)
         else None)
    case Inherit(input, col, bound, ctx) =>
      (match Eval(input, db, recur)
       case None => None
       case Some(m) => Some(InheritOf(m, col, ScopesOf(Read(db, ctx), bound))))
    case Shared(input) => Eval(input, db, recur)
  }

  /** One round of the recursion: everything `start` and `step` give over `r`, as a set. */
  ghost function Round(start: Multiset, step: Query, db: Db, r: Option<Multiset>): Option<Multiset>
    decreases step, 1
  {
    match r
    case None => None
    case Some(m) =>
      match Eval(step, db, m)
      case None => None
      case Some(s) => Some(DistinctOf(Plus(start, s)))
  }

  /** The recursion's value after `n` rounds. */
  ghost function Stage(start: Multiset, step: Query, db: Db, n: nat): Option<Multiset>
    decreases step, n + 2
  {
    if n == 0 then Some(DistinctOf(start)) else Round(start, step, db, Stage(start, step, db, n - 1))
  }

  /** Round `n + 1` repeats round `n`: the loop stops there. */
  ghost predicate Settled(start: Multiset, step: Query, db: Db, n: nat)
    decreases step, n + 4
  {
    Stage(start, step, db, n).Some? && Stage(start, step, db, n + 1) == Stage(start, step, db, n)
  }

  /** Once settled, every later round gives the same value, so the answer does
      not depend on when the loop notices. */
  lemma {:induction false} SettledForever(start: Multiset, step: Query, db: Db, n: nat, k: nat)
    requires Settled(start, step, db, n) && n <= k
    ensures Stage(start, step, db, k) == Stage(start, step, db, n) && Settled(start, step, db, k)
  {
    hide Eval;
    hide Round;
    if n < k {
      SettledForever(start, step, db, n, k - 1);
    }
  }

  lemma SettledUnique(start: Multiset, step: Query, db: Db, n: nat, k: nat)
    requires Settled(start, step, db, n) && Settled(start, step, db, k)
    ensures Stage(start, step, db, n) == Stage(start, step, db, k)
  {
    if n <= k {
      SettledForever(start, step, db, n, k);
    } else {
      SettledForever(start, step, db, k, n);
    }
  }

  /** A recursion free of aggregates means the value it settles at, if it settles. */
  lemma IterateMeans(init: Query, step: Query, db: Db, recur: Multiset)
    ensures var start, e := Eval(init, db, map[]), Eval(Iterate(init, step), db, recur);
      if ContainsReduce(init) || ContainsReduce(step) || start.None? then e == None
      else if exists n: nat :: Settled(start.value, step, db, n)
      then exists n: nat :: Settled(start.value, step, db, n) && e == Stage(start.value, step, db, n)
      else e == None
  {
    hide Stage, Round, ContainsReduce, Settled;
  }

  /** A recursion free of aggregates that settles has a value. */
  lemma IterateReturns(init: Query, step: Query, db: Db, k: nat)
    requires !ContainsReduce(init) && !ContainsReduce(step) && Eval(init, db, map[]).Some?
    requires Settled(Eval(init, db, map[]).value, step, db, k)
    ensures Eval(Iterate(init, step), db, map[]).Some?
  {
    hide Stage, Round, ContainsReduce;
    assert exists n: nat :: Settled(Eval(init, db, map[]).value, step, db, n);
  }
}
