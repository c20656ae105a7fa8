/** Positive plans read as functions on sets: monotone, and distributing over the
    recursion variable and over a base relation where they use it once. */
module Positive {
  import opened Values
  import opened Multisets
  import opened Plans
  import opened Deltas

  type SetDb = map<RelId, set<Tuple>>

  function Contents(d: SetDb, r: RelId): set<Tuple> {
    if r in d then d[r] else {}
  }

  // ----- the plans -----

  /** Built from reads, row-wise operators, joins, unions and `distinct`. */
  predicate IsPositive(q: Query) {
    match q
    case Rel(_) => true
    case RangeRel(_, _, _) => true
    case RangeRelOn(_, _, _, _) => true
    case Map(a, _) => IsPositive(a)
    case Filter(a, _) => IsPositive(a)
    case Project(a, _) => IsPositive(a)
    case Join(a, b, _, _) => IsPositive(a) && IsPositive(b)
    case Union(a, b) => IsPositive(a) && IsPositive(b)
    case Distinct(a) => IsPositive(a)
    case Recur => true
    case Shared(a) => IsPositive(a)
    case _ => false
  }

  predicate MentionsRecur(q: Query) {
    match q
    case Map(a, _) => MentionsRecur(a)
    case Filter(a, _) => MentionsRecur(a)
    case Project(a, _) => MentionsRecur(a)
    case Join(a, b, _, _) => MentionsRecur(a) || MentionsRecur(b)
    case Union(a, b) => MentionsRecur(a) || MentionsRecur(b)
    case Distinct(a) => MentionsRecur(a)
    case Recur => true
    case Shared(a) => MentionsRecur(a)
    case _ => false
  }

  /** No join has the recursion variable on both sides. */
  predicate IsLinear(q: Query) {
    match q
    case Map(a, _) => IsLinear(a)
    case Filter(a, _) => IsLinear(a)
    case Project(a, _) => IsLinear(a)
    case Join(a, b, _, _) => IsLinear(a) && IsLinear(b) && !(MentionsRecur(a) && MentionsRecur(b))
    case Union(a, b) => IsLinear(a) && IsLinear(b)
    case Distinct(a) => IsLinear(a)
    case Shared(a) => IsLinear(a)
    case _ => true
  }

  /** No join has the base relation `r` on both sides. */
  predicate Apart(q: Query, r: RelId) {
    match q
    case Map(a, _) => Apart(a, r)
    case Filter(a, _) => Apart(a, r)
    case Project(a, _) => Apart(a, r)
    case Join(a, b, _, _) => Apart(a, r) && Apart(b, r) && !(r in RelsOf(a) && r in RelsOf(b))
    case Union(a, b) => Apart(a, r) && Apart(b, r)
    case Distinct(a) => Apart(a, r)
    case Shared(a) => Apart(a, r)
    case _ => true
  }

  // ----- their meaning on sets -----

  ghost function JoinSets(a: set<Tuple>, lk: seq<nat>, b: set<Tuple>, rk: seq<nat>): set<Tuple> {
    set x, y | x in a && y in b && KeysMatch(x, lk, y, rk) :: x + y
  }

  ghost function ImageSet(s: set<Tuple>, g: Tuple -> Option<Tuple>): set<Tuple> {
    set x | x in s && g(x).Some? :: g(x).value
  }

  ghost function SetEval(q: Query, d: SetDb, recur: set<Tuple>): set<Tuple>
    requires IsPositive(q)
  {
    match q
    case Rel(r) => Contents(d, r)
    case RangeRel(r, lo, hi) => set t | t in Contents(d, r) && InRange(t, lo, hi)
    case RangeRelOn(r, col, lo, hi) => set t | t in Contents(d, r) && InColumnRange(t, col, lo, hi)
    case Map(a, f) => ImageSet(SetEval(a, d, recur), Mapper(f))
    case Filter(a, pred) => set t | t in SetEval(a, d, recur) && pred(t)
    case Project(a, cols) => ImageSet(SetEval(a, d, recur), Projector(cols))
    case Join(a, b, lk, rk) => JoinSets(SetEval(a, d, recur), lk, SetEval(b, d, recur), rk)
    case Union(a, b) => SetEval(a, d, recur) + SetEval(b, d, recur)
    case Distinct(a) => SetEval(a, d, recur)
    case Recur => recur
    case Shared(a) => SetEval(a, d, recur)
  }

  ghost predicate SetFits(s: set<Tuple>, cols: seq<nat>) {
    forall t <- s :: Cells(t, cols).Some?
  }

  /** Every row is long enough wherever the plan looks at it. */
  ghost predicate SetReturns(q: Query, d: SetDb, recur: set<Tuple>)
    requires IsPositive(q)
  {
    match q
    case Map(a, _) => SetReturns(a, d, recur)
    case Filter(a, _) => SetReturns(a, d, recur)
    case Project(a, cols) => SetReturns(a, d, recur) && SetFits(SetEval(a, d, recur), cols)
    case Join(a, b, lk, rk) => SetReturns(a, d, recur) && SetReturns(b, d, recur) &&
      SetFits(SetEval(a, d, recur), lk) && SetFits(SetEval(b, d, recur), rk)
    case Union(a, b) => SetReturns(a, d, recur) && SetReturns(b, d, recur)
    case Distinct(a) => SetReturns(a, d, recur)
    case Shared(a) => SetReturns(a, d, recur)
    case _ => true
  }

  // ----- the multiset evaluator agrees -----

  ghost predicate NonNegative(m: Multiset) {
    forall t <- m :: m[t] > 0
  }

  ghost predicate NonNegativeDb(db: Db) {
    forall r <- db :: NonNegative(db[r])
  }

  ghost function Supports(db: Db): SetDb {
    map r | r in db :: db[r].Keys
  }

  lemma SupportsRead(db: Db, r: RelId)
    ensures Contents(Supports(db), r) == Read(db, r).Keys
    ensures NonNegativeDb(db) ==> NonNegative(Read(db, r))
  {
  }

  lemma KeepSupport(m: Multiset, p: Tuple -> bool)
    requires NonNegative(m)
    ensures NonNegative(Keep(m, p)) && Keep(m, p).Keys == set t | t in m && p(t)
  {
  }

  lemma PlusSupport(a: Multiset, b: Multiset)
    requires NonNegative(a) && NonNegative(b)
    ensures NonNegative(Plus(a, b)) && Plus(a, b).Keys == a.Keys + b.Keys
  {
  }

  lemma DistinctSupport(a: Multiset)
    requires NonNegative(a)
    ensures NonNegative(DistinctOf(a)) && DistinctOf(a).Keys == a.Keys
  {
  }

  lemma ImageSupportAt(m: Multiset, g: Tuple -> Option<Tuple>, t: Tuple)
    requires NonNegative(m)
    ensures W(Image(m, g), t) >= 0
    ensures t in Image(m, g) <==> exists x <- m :: g(x) == Some(t)
  {
    hide Spread;
    SpreadSupport(m, Single(g), t);
    forall x ensures t in Single(g)(x) <==> g(x) == Some(t) {
    }
  }

  lemma ImageSupport(m: Multiset, g: Tuple -> Option<Tuple>)
    requires NonNegative(m)
    ensures NonNegative(Image(m, g))
    ensures Image(m, g).Keys == ImageSet(m.Keys, g)
  {
    hide Image;
    forall t ensures W(Image(m, g), t) >= 0 && (t in Image(m, g) <==> exists x <- m :: g(x) == Some(t)) {
      ImageSupportAt(m, g, t);
    }
    forall t | t in Image(m, g) ensures Image(m, g)[t] > 0 {
      assert W(Image(m, g), t) == Image(m, g)[t];
    }
  }

  lemma MatchSupport(b: Multiset, lk: seq<nat>, rk: seq<nat>, x: Tuple)
    requires NonNegative(b)
    ensures NonNegative(Matches(b, lk, rk)(x))
    ensures Matches(b, lk, rk)(x).Keys == ImageSet(b.Keys, Pairing(x, lk, rk))
  {
    hide Image;
    ImageSupport(b, Pairing(x, lk, rk));
  }

  lemma JoinSupportAt(a: Multiset, lk: seq<nat>, b: Multiset, rk: seq<nat>, t: Tuple)
    requires NonNegative(a) && NonNegative(b)
    ensures W(JoinOf(a, lk, b, rk), t) >= 0
    ensures t in JoinOf(a, lk, b, rk) <==> exists x <- a :: t in ImageSet(b.Keys, Pairing(x, lk, rk))
  {
    hide Image;
    hide Spread;
    hide ImageSet;
    var k := Matches(b, lk, rk);
    forall x ensures NonNegative(k(x)) && k(x).Keys == ImageSet(b.Keys, Pairing(x, lk, rk)) {
      MatchSupport(b, lk, rk, x);
    }
    SpreadSupport(a, k, t);
  }

  lemma JoinSupport(a: Multiset, lk: seq<nat>, b: Multiset, rk: seq<nat>)
    requires NonNegative(a) && NonNegative(b)
    ensures NonNegative(JoinOf(a, lk, b, rk)) && JoinOf(a, lk, b, rk).Keys == JoinSets(a.Keys, lk, b.Keys, rk)
  {
    hide JoinOf;
    forall t ensures t in JoinOf(a, lk, b, rk) <==> t in JoinSets(a.Keys, lk, b.Keys, rk) {
      JoinSupportAt(a, lk, b, rk, t);
    }
    forall t | t in JoinOf(a, lk, b, rk) ensures JoinOf(a, lk, b, rk)[t] > 0 {
      JoinSupportAt(a, lk, b, rk, t);
      assert W(JoinOf(a, lk, b, rk), t) == JoinOf(a, lk, b, rk)[t];
    }
  }

  /** What evaluation gives is what the plan means on sets, and both return together. */
  ghost predicate Positively(q: Query, db: Db, recur: Multiset)
    requires IsPositive(q)
  {
    && (Eval(q, db, recur).Some? <==> SetReturns(q, Supports(db), recur.Keys))
    && match Eval(q, db, recur)
       case None => true
       case Some(m) => NonNegative(m) && m.Keys == SetEval(q, Supports(db), recur.Keys)
  }

  /** On non-negative inputs a positive plan returns rows exactly when every row is long
      enough, and the rows it returns are its meaning on sets. */
  lemma {:induction false} EvalPositive(q: Query, db: Db, recur: Multiset)
    requires IsPositive(q) && NonNegativeDb(db) && NonNegative(recur)
    ensures Eval(q, db, recur).Some? <==> SetReturns(q, Supports(db), recur.Keys)
    ensures match Eval(q, db, recur)
      case None => true case Some(m) => NonNegative(m) && m.Keys == SetEval(q, Supports(db), recur.Keys)
  {
    EvaluatesPositively(q, db, recur);
    hide Eval, SetEval, SetReturns, IsPositive, NonNegative, Supports;
  }

  lemma {:induction false} EvaluatesPositively(q: Query, db: Db, recur: Multiset)
    requires IsPositive(q) && NonNegativeDb(db) && NonNegative(recur)
    ensures Positively(q, db, recur)
  {
    hide Positively, Eval, SetEval, SetReturns, NonNegative, Supports;
    match q
    case Map(a, _) =>
      EvaluatesPositively(a, db, recur);
      RowwisePositively(q, db, recur);
    case Filter(a, _) =>
      EvaluatesPositively(a, db, recur);
      RowwisePositively(q, db, recur);
    case Project(a, _) =>
      EvaluatesPositively(a, db, recur);
      ProjectPositively(q, db, recur);
    case Join(a, b, _, _) =>
      EvaluatesPositively(a, db, recur);
      EvaluatesPositively(b, db, recur);
      JoinPositively(q, db, recur);
    case Union(a, b) =>
      EvaluatesPositively(a, db, recur);
      EvaluatesPositively(b, db, recur);
      UnionPositively(q, db, recur);
    case Distinct(a) =>
      EvaluatesPositively(a, db, recur);
      RowwisePositively(q, db, recur);
    case Shared(a) =>
      EvaluatesPositively(a, db, recur);
      RowwisePositively(q, db, recur);
    case _ => LeafPositively(q, db, recur);
  }

  lemma LeafPositively(q: Query, db: Db, recur: Multiset)
    requires (q.Rel? || q.RangeRel? || q.RangeRelOn? || q.Recur?) && NonNegativeDb(db) && NonNegative(recur)
    ensures Positively(q, db, recur)
  {
    hide Keep, Read, NonNegativeDb, Image, JoinOf, Plus, DistinctOf, JoinSets, ImageSet, AllFit, SetFits, ReduceOf,
      ReduceFits, InheritOf, Stage, Settled, ContainsReduce, Negated, Supports;
    match q
    case Rel(r) => SupportsRead(db, r);
    case RangeRel(r, lo, hi) =>
      SupportsRead(db, r);
      KeepSupport(Read(db, r), t => InRange(t, lo, hi));
    case RangeRelOn(r, col, lo, hi) =>
      SupportsRead(db, r);
      KeepSupport(Read(db, r), t => InColumnRange(t, col, lo, hi));
    case Recur =>
  }

  lemma RowwisePositively(q: Query, db: Db, recur: Multiset)
    requires (q.Map? || q.Filter? || q.Distinct? || q.Shared?) && IsPositive(q) && Positively(q.input, db, recur)
    ensures Positively(q, db, recur)
  {
    match q
    case Map(i, f) => MapPositively(i, f, db, recur);
    case Filter(i, pred) => FilterPositively(i, pred, db, recur);
    case _ => SamePositively(q, db, recur);
  }

  lemma MapPositively(i: Query, f: Tuple -> Tuple, db: Db, recur: Multiset)
    requires IsPositive(i) && Positively(i, db, recur)
    ensures Positively(Map(i, f), db, recur)
  {
    hide Image, Supports;
    if Eval(i, db, recur).Some? {
      ImageSupport(Eval(i, db, recur).value, Mapper(f));
    }
  }

  lemma FilterPositively(i: Query, pred: Tuple -> bool, db: Db, recur: Multiset)
    requires IsPositive(i) && Positively(i, db, recur)
    ensures Positively(Filter(i, pred), db, recur)
  {
    hide NonNegative;
    hide Keep, Supports;
    if Eval(i, db, recur).Some? {
      KeepSupport(Eval(i, db, recur).value, pred);
    }
  }

  lemma SamePositively(q: Query, db: Db, recur: Multiset)
    requires (q.Distinct? || q.Shared?) && IsPositive(q) && Positively(q.input, db, recur)
    ensures Positively(q, db, recur)
  {
    hide DistinctOf, Supports;
    if Eval(q.input, db, recur).Some? {
      DistinctSupport(Eval(q.input, db, recur).value);
    }
  }

  lemma FitsSame(m: Multiset, cols: seq<nat>)
    ensures AllFit(m, cols) <==> SetFits(m.Keys, cols)
  {
  }

  lemma ProjectPositively(q: Query, db: Db, recur: Multiset)
    requires q.Project? && IsPositive(q) && Positively(q.input, db, recur)
    ensures Positively(q, db, recur)
  {
    hide Image, ImageSet, Keep, DistinctOf, JoinOf, Plus, JoinSets, AllFit, SetFits, ReduceOf, ReduceFits, InheritOf,
      Stage, Settled, ContainsReduce, Negated, Supports;
    if Eval(q.input, db, recur).Some? {
      ImageSupport(Eval(q.input, db, recur).value, Projector(q.cols));
      FitsSame(Eval(q.input, db, recur).value, q.cols);
    }
  }

  lemma JoinPositively(q: Query, db: Db, recur: Multiset)
    requires q.Join? && IsPositive(q) && Positively(q.left, db, recur) && Positively(q.right, db, recur)
    ensures Positively(q, db, recur)
  {
    hide JoinOf, JoinSets, Image, ImageSet, Keep, DistinctOf, Plus, AllFit, SetFits, ReduceOf, ReduceFits, InheritOf,
      Stage, Settled, ContainsReduce, Negated, Supports;
    if Eval(q.left, db, recur).Some? && Eval(q.right, db, recur).Some? {
      var a, b := Eval(q.left, db, recur).value, Eval(q.right, db, recur).value;
      JoinSupport(a, q.leftKey, b, q.rightKey);
      FitsSame(a, q.leftKey);
      FitsSame(b, q.rightKey);
    }
  }

  lemma UnionPositively(q: Query, db: Db, recur: Multiset)
    requires q.Union? && IsPositive(q) && Positively(q.left, db, recur) && Positively(q.right, db, recur)
    ensures Positively(q, db, recur)
  {
    hide Plus, Image, ImageSet, Keep, DistinctOf, JoinOf, JoinSets, AllFit, SetFits, ReduceOf, ReduceFits, InheritOf,
      Stage, Settled, ContainsReduce, Negated, Supports;
    if Eval(q.left, db, recur).Some? && Eval(q.right, db, recur).Some? {
      PlusSupport(Eval(q.left, db, recur).value, Eval(q.right, db, recur).value);
    }
  }

  // ----- monotone -----

  /** `d` holds no more than `e` in the relations of `rels`. */
  ghost predicate Below(d: SetDb, e: SetDb, rels: set<RelId>) {
    forall r <- rels :: Contents(d, r) <= Contents(e, r)
  }

  lemma {:induction false} SetEvalMonotone(q: Query, d: SetDb, e: SetDb, x: set<Tuple>, y: set<Tuple>)
    requires IsPositive(q) && Below(d, e, RelsOf(q)) && (MentionsRecur(q) ==> x <= y)
    ensures SetEval(q, d, x) <= SetEval(q, e, y)
    ensures SetReturns(q, e, y) ==> SetReturns(q, d, x)
  {
    match q
    case Map(a, _) => SetEvalMonotone(a, d, e, x, y);
    case Filter(a, _) => SetEvalMonotone(a, d, e, x, y);
    case Project(a, _) => SetEvalMonotone(a, d, e, x, y);
    case Join(a, b, _, _) =>
      SetEvalMonotone(a, d, e, x, y);
      SetEvalMonotone(b, d, e, x, y);
    case Union(a, b) =>
      SetEvalMonotone(a, d, e, x, y);
      SetEvalMonotone(b, d, e, x, y);
    case Distinct(a) => SetEvalMonotone(a, d, e, x, y);
    case Shared(a) => SetEvalMonotone(a, d, e, x, y);
    case _ =>
  }

  /** A plan sees only the relations it reads and, if it names it, the recursion variable. */
  lemma SetEvalSame(q: Query, d: SetDb, e: SetDb, x: set<Tuple>, y: set<Tuple>)
    requires IsPositive(q) && (forall r <- RelsOf(q) :: Contents(d, r) == Contents(e, r)) &&
      (MentionsRecur(q) ==> x == y)
    ensures SetEval(q, d, x) == SetEval(q, e, y)
  {
    SetEvalMonotone(q, d, e, x, y);
    SetEvalMonotone(q, e, d, y, x);
  }

  // ----- distributive -----

  lemma JoinSetsUnion(a: set<Tuple>, a': set<Tuple>, lk: seq<nat>, b: set<Tuple>, b': set<Tuple>, rk: seq<nat>)
    ensures JoinSets(a + a', lk, b, rk) == JoinSets(a, lk, b, rk) + JoinSets(a', lk, b, rk)
    ensures JoinSets(a, lk, b + b', rk) == JoinSets(a, lk, b, rk) + JoinSets(a, lk, b', rk)
  {
  }

  /** A linear step over a union is the union of the step over its parts. */
  lemma {:induction false} StepDistributes(q: Query, d: SetDb, x: set<Tuple>, y: set<Tuple>)
    requires IsPositive(q) && IsLinear(q)
    ensures SetEval(q, d, x + y) == SetEval(q, d, x) + SetEval(q, d, y)
  {
    match q
    case Map(a, _) => StepDistributes(a, d, x, y);
    case Filter(a, _) => StepDistributes(a, d, x, y);
    case Project(a, _) => StepDistributes(a, d, x, y);
    case Join(a, b, lk, rk) =>
      StepDistributes(a, d, x, y);
      StepDistributes(b, d, x, y);
      if MentionsRecur(a) {
        SetEvalSame(b, d, d, x, y);
        SetEvalSame(b, d, d, x + y, y);
        JoinSetsUnion(SetEval(a, d, x), SetEval(a, d, y), lk, SetEval(b, d, x), {}, rk);
      } else {
        SetEvalSame(a, d, d, x, y);
        SetEvalSame(a, d, d, x + y, y);
        JoinSetsUnion(SetEval(a, d, x), {}, lk, SetEval(b, d, x), SetEval(b, d, y), rk);
      }
    case Union(a, b) =>
      StepDistributes(a, d, x, y);
      StepDistributes(b, d, x, y);
    case Distinct(a) => StepDistributes(a, d, x, y);
    case Shared(a) => StepDistributes(a, d, x, y);
    case _ =>
  }

  /** A derivation that uses a relation once uses a row of one part of it or of the other. */
  lemma {:induction false} RelationSplits(q: Query, d: SetDb, r: RelId, u: set<Tuple>, v: set<Tuple>, x: set<Tuple>)
    requires IsPositive(q) && Apart(q, r)
    ensures SetEval(q, d[r := u + v], x) <= SetEval(q, d[r := u], x) + SetEval(q, d[r := v], x)
  {
    match q
    case Map(a, _) => RelationSplits(a, d, r, u, v, x);
    case Filter(a, _) => RelationSplits(a, d, r, u, v, x);
    case Project(a, _) => RelationSplits(a, d, r, u, v, x);
    case Join(a, b, lk, rk) =>
      RelationSplits(a, d, r, u, v, x);
      RelationSplits(b, d, r, u, v, x);
      if r in RelsOf(a) {
        SetEvalSame(b, d[r := u + v], d[r := u], x, x);
        SetEvalSame(b, d[r := u + v], d[r := v], x, x);
      } else {
        SetEvalSame(a, d[r := u + v], d[r := u], x, x);
        SetEvalSame(a, d[r := u + v], d[r := v], x, x);
      }
    case Union(a, b) =>
      RelationSplits(a, d, r, u, v, x);
      RelationSplits(b, d, r, u, v, x);
    case Distinct(a) => RelationSplits(a, d, r, u, v, x);
    case Shared(a) => RelationSplits(a, d, r, u, v, x);
    case _ =>
  }
}
