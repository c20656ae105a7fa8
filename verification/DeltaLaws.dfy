/** The law of the incremental evaluator: its answer is the difference of the two
    full evaluations. */
module DeltaLaws {
  import opened Values
  import opened Multisets
  import opened Plans
  import opened Traces
  import opened Deltas
  import opened LinearLaws
  import opened ReduceLaws

  // ----- a plan reads only its relations -----

  lemma {:induction false} EvalDependsOnly(q: Query, a: Db, b: Db, recur: Multiset)
    requires forall r <- RelsOf(q) :: Read(a, r) == Read(b, r)
    ensures Eval(q, a, recur) == Eval(q, b, recur)
    decreases q, 0
  {
    hide Eval, Read;
    match q
    case Map(i, _) => EvalDependsOnly(i, a, b, recur); StepDependsOnly(q, a, b, recur);
    case Filter(i, _) => EvalDependsOnly(i, a, b, recur); StepDependsOnly(q, a, b, recur);
    case Project(i, _) => EvalDependsOnly(i, a, b, recur); StepDependsOnly(q, a, b, recur);
    case Negate(i) => EvalDependsOnly(i, a, b, recur); StepDependsOnly(q, a, b, recur);
    case Distinct(i) => EvalDependsOnly(i, a, b, recur); StepDependsOnly(q, a, b, recur);
    case Reduce(i, _, _) => EvalDependsOnly(i, a, b, recur); StepDependsOnly(q, a, b, recur);
    case Shared(i) => EvalDependsOnly(i, a, b, recur); StepDependsOnly(q, a, b, recur);
    case Inherit(i, _, _, _) => EvalDependsOnly(i, a, b, recur); InheritDependsOnly(q, a, b, recur);
    case Join(l, r, _, _) =>
      EvalDependsOnly(l, a, b, recur);
      EvalDependsOnly(r, a, b, recur);
      BothDependsOnly(q, a, b, recur);
    case Union(l, r) =>
      EvalDependsOnly(l, a, b, recur);
      EvalDependsOnly(r, a, b, recur);
      BothDependsOnly(q, a, b, recur);
    case Iterate(init, step) =>
      EvalDependsOnly(init, a, b, map[]);
      IterateDependsOnly(init, step, a, b, recur);
    case _ => LeafDependsOnly(q, a, b, recur);
  }

  lemma StepDependsOnly(q: Query, a: Db, b: Db, recur: Multiset)
    requires q.Map? || q.Filter? || q.Project? || q.Negate? || q.Distinct? || q.Reduce? || q.Shared?
    requires Eval(q.input, a, recur) == Eval(q.input, b, recur)
    ensures Eval(q, a, recur) == Eval(q, b, recur)
  {
    hide Image, AllFit, Keep, Negated, DistinctOf, ReduceOf, ReduceFits;
  }

  lemma InheritDependsOnly(q: Query, a: Db, b: Db, recur: Multiset)
    requires q.Inherit? && Eval(q.input, a, recur) == Eval(q.input, b, recur)
    requires forall r <- RelsOf(q) :: Read(a, r) == Read(b, r)
    ensures Eval(q, a, recur) == Eval(q, b, recur)
  {
    hide InheritOf, ScopesOf, Read;
  }

  lemma BothDependsOnly(q: Query, a: Db, b: Db, recur: Multiset)
    requires (q.Join? || q.Union?)
    requires Eval(q.left, a, recur) == Eval(q.left, b, recur) && Eval(q.right, a, recur) == Eval(q.right, b, recur)
    ensures Eval(q, a, recur) == Eval(q, b, recur)
  {
    hide AllFit, JoinOf, Plus;
  }

  lemma LeafDependsOnly(q: Query, a: Db, b: Db, recur: Multiset)
    requires q.Rel? || q.RangeRel? || q.RangeRelOn? || q.Recur?
    requires forall r <- RelsOf(q) :: Read(a, r) == Read(b, r)
    ensures Eval(q, a, recur) == Eval(q, b, recur)
  {
  }

  lemma IterateDependsOnly(init: Query, step: Query, a: Db, b: Db, recur: Multiset)
    requires forall r <- RelsOf(step) :: Read(a, r) == Read(b, r)
    requires Eval(init, a, map[]) == Eval(init, b, map[])
    ensures Eval(Iterate(init, step), a, recur) == Eval(Iterate(init, step), b, recur)
    decreases step, 2
  {
    hide Stage, Settled, Read, RelsOf, Round, Eval, ContainsReduce;
    IterateMeans(init, step, a, recur);
    IterateMeans(init, step, b, recur);
    if Eval(init, a, map[]).Some? {
      var start := Eval(init, a, map[]).value;
      forall n: nat
        ensures Stage(start, step, a, n) == Stage(start, step, b, n)
        ensures Settled(start, step, a, n) <==> Settled(start, step, b, n)
      {
        SettledDependsOnly(start, step, a, b, n);
      }
      forall n: nat, k: nat | Settled(start, step, a, n) && Settled(start, step, b, k)
        ensures Stage(start, step, a, n) == Stage(start, step, b, k)
      {
        SettledUnique(start, step, a, n, k);
      }
    }
  }

  lemma SettledDependsOnly(start: Multiset, step: Query, a: Db, b: Db, n: nat)
    requires forall r <- RelsOf(step) :: Read(a, r) == Read(b, r)
    ensures Stage(start, step, a, n) == Stage(start, step, b, n)
    ensures Settled(start, step, a, n) <==> Settled(start, step, b, n)
    decreases step, 1, n + 3
  {
    hide Stage;
    StageDependsOnly(start, step, a, b, n);
    StageDependsOnly(start, step, a, b, n + 1);
  }

  lemma {:induction false} StageDependsOnly(start: Multiset, step: Query, a: Db, b: Db, n: nat)
    requires forall r <- RelsOf(step) :: Read(a, r) == Read(b, r)
    ensures Stage(start, step, a, n) == Stage(start, step, b, n)
    decreases step, 1, n + 1
  {
    hide Eval;
    hide Round;
    if n > 0 {
      StageDependsOnly(start, step, a, b, n - 1);
      RoundDependsOnly(start, step, a, b, Stage(start, step, a, n - 1));
    }
  }

  lemma RoundDependsOnly(start: Multiset, step: Query, a: Db, b: Db, r: Option<Multiset>)
    requires forall p <- RelsOf(step) :: Read(a, p) == Read(b, p)
    ensures Round(start, step, a, r) == Round(start, step, b, r)
    decreases step, 1, 0
  {
    hide Eval;
    if r.Some? {
      EvalDependsOnly(step, a, b, r.value);
    }
  }

  lemma QuietMeansUnchanged(q: Query, s: Store, from: nat, to: nat)
    requires Valid(s) && from <= to && Quiet(q, s, from, to)
    ensures Meaning(q, s, from) == Meaning(q, s, to)
  {
    hide Eval;
    forall r | r in RelsOf(q) ensures Read(Snapshot(s, from), r) == Read(Snapshot(s, to), r) {
      SnapshotReads(s, r, from);
      SnapshotReads(s, r, to);
    }
    EvalDependsOnly(q, Snapshot(s, from), Snapshot(s, to), map[]);
  }


  // ----- keyed probes of the unchanged side -----

  /** Probing a base relation by the delta's keys loses no row that joins. */
  lemma MatchingRight(side: Query, rk: seq<nat>, delta: Multiset, lk: seq<nat>, s: Store, at: nat)
    requires Meaning(side, s, at).Some? && AllFit(Meaning(side, s, at).value, rk)
    ensures var b := Matching(side, rk, delta, lk, s, at);
      b.Some? && AllFit(b.value, rk) &&
        JoinOf(delta, lk, b.value, rk) == JoinOf(delta, lk, Meaning(side, s, at).value, rk)
  {
    hide JoinOf;
    hide Cells;
    var all := Meaning(side, s, at).value;
    if Probes(side, rk, delta, lk) {
      var p := MatchingPart(side, rk, delta, lk, s, at);
      assert AllFit(Keep(all, p), rk);
      forall x, y | x in delta && y in all && KeysMatch(x, lk, y, rk) ensures p(y) {
        MatchedKey(x, lk, y, rk);
      }
      JoinRestrictRight(delta, lk, all, rk, p);
    }
  }

  lemma MatchingLeft(side: Query, lk: seq<nat>, delta: Multiset, rk: seq<nat>, s: Store, at: nat)
    requires Meaning(side, s, at).Some? && AllFit(Meaning(side, s, at).value, lk)
    ensures var a := Matching(side, lk, delta, rk, s, at);
      a.Some? && AllFit(a.value, lk) &&
        JoinOf(a.value, lk, delta, rk) == JoinOf(Meaning(side, s, at).value, lk, delta, rk)
  {
    hide JoinOf;
    hide Cells;
    var all := Meaning(side, s, at).value;
    if Probes(side, lk, delta, rk) {
      var p := MatchingPart(side, lk, delta, rk, s, at);
      assert AllFit(Keep(all, p), lk);
      forall x, y | x in all && y in delta && KeysMatch(x, lk, y, rk) ensures p(x) {
        MatchedKey(x, lk, y, rk);
      }
      JoinRestrictLeft(all, lk, delta, rk, p);
    }
  }

  predicate Probes(side: Query, sideKey: seq<nat>, delta: Multiset, deltaKey: seq<nat>) {
    BaseOf(side).Some? && sideKey != [] && deltaKey != [] && |DeltaKeys(delta, deltaKey)| <= PROBE_LIMIT
  }

  lemma MatchedKey(x: Tuple, lk: seq<nat>, y: Tuple, rk: seq<nat>)
    requires KeysMatch(x, lk, y, rk) && lk != [] && rk != []
    ensures lk[0] < |x| && rk[0] < |y| && x[lk[0]] == y[rk[0]]
  {
    assert Cells(x, lk).value[0] == Cells(y, rk).value[0];
  }

  /** A probed side is the full side, restricted to the rows carrying one of the delta's keys. */
  lemma MatchingPart(side: Query, sideKey: seq<nat>, delta: Multiset, deltaKey: seq<nat>, s: Store, at: nat)
    returns (p: Tuple -> bool)
    requires Probes(side, sideKey, delta, deltaKey)
    ensures p == (t => sideKey[0] < |t| && t[sideKey[0]] in DeltaKeys(delta, deltaKey))
    ensures Meaning(side, s, at).Some?
    ensures Matching(side, sideKey, delta, deltaKey, s, at) == Some(Keep(Meaning(side, s, at).value, p))
  {
    hide Admits, Eval, Read, ReadAt, Snapshot, DeltaKeys;
    var base := BaseOf(side).value;
    var keys := DeltaKeys(delta, deltaKey);
    p := t => sideKey[0] < |t| && t[sideKey[0]] in keys;
    BaseMeaning(side, base, Snapshot(s, at), map[]);
    SnapshotReads(s, base.rel, at);
    SameWeights(Matching(side, sideKey, delta, deltaKey, s, at).value, Keep(Meaning(side, s, at).value, p));
  }

  // ----- differences -----

  /** A delta's rows are rows of one end or the other. */
  lemma DeltaFits(a: Multiset, b: Multiset, cols: seq<nat>)
    requires AllFit(a, cols) && AllFit(b, cols)
    ensures AllFit(Minus(b, a), cols)
  {
    forall t | t in Minus(b, a) ensures t in a || t in b {
      assert W(Minus(b, a), t) != 0;
    }
  }

  lemma JoinMeaning(left: Query, lk: seq<nat>, right: Query, rk: seq<nat>, s: Store, at: nat)
    requires Meaning(Join(left, right, lk, rk), s, at).Some?
    ensures Meaning(left, s, at).Some? && Meaning(right, s, at).Some?
    ensures AllFit(Meaning(left, s, at).value, lk) && AllFit(Meaning(right, s, at).value, rk)
    ensures Meaning(Join(left, right, lk, rk), s, at) ==
      Some(JoinOf(Meaning(left, s, at).value, lk, Meaning(right, s, at).value, rk))
  {
    hide JoinOf;
    hide AllFit;
    hide Snapshot;
  }

  lemma JoinDeltaCorrect(left: Query, lk: seq<nat>, right: Query, rk: seq<nat>, da: Multiset, db: Multiset, s: Store,
                         from: nat, to: nat)
    requires Meaning(Join(left, right, lk, rk), s, from).Some? && Meaning(Join(left, right, lk, rk), s, to).Some?
    requires Meaning(left, s, from).Some? && Meaning(left, s, to).Some? && Meaning(right, s, from).Some? &&
      Meaning(right, s, to).Some?
    requires da == Minus(Meaning(left, s, to).value, Meaning(left, s, from).value)
    requires db == Minus(Meaning(right, s, to).value, Meaning(right, s, from).value)
    ensures JoinDelta(left, lk, right, rk, da, db, s, to)
         == Some(Minus(Meaning(Join(left, right, lk, rk), s, to).value,
           Meaning(Join(left, right, lk, rk), s, from).value))
  {
    hide JoinOf;
    hide JoinDelta;
    hide Meaning;
    hide Minus;
    hide Plus;
    hide AllFit;
    JoinMeaning(left, lk, right, rk, s, from);
    JoinMeaning(left, lk, right, rk, s, to);
    var a0, a1, b0, b1 := Meaning(left, s, from).value, Meaning(left, s, to).value, Meaning(right, s, from).value,
      Meaning(right, s, to).value;
    DeltaFits(a0, a1, lk);
    DeltaFits(b0, b1, rk);
    JoinTerms(left, lk, right, rk, da, db, s, to);
    JoinDifference(a0, a1, da, lk, b0, b1, db, rk);
  }

  /** The three terms, with their shortcuts, are the three full products. */
  lemma JoinTerms(left: Query, lk: seq<nat>, right: Query, rk: seq<nat>, da: Multiset, db: Multiset, s: Store, to: nat)
    requires Meaning(left, s, to).Some? && AllFit(Meaning(left, s, to).value, lk) && AllFit(da, lk)
    requires Meaning(right, s, to).Some? && AllFit(Meaning(right, s, to).value, rk) && AllFit(db, rk)
    ensures JoinDelta(left, lk, right, rk, da, db, s, to)
         == Some(Minus(Plus(JoinOf(da, lk, Meaning(right, s, to).value, rk),
           JoinOf(Meaning(left, s, to).value, lk, db, rk)), JoinOf(da, lk, db, rk)))
  {
    hide JoinOf;
    hide Meaning;
    hide Matching;
    hide Plus;
    hide AllFit;
    MatchingRight(right, rk, da, lk, s, to);
    MatchingLeft(left, lk, db, rk, s, to);
    JoinEmptyLeft(lk, Meaning(right, s, to).value, rk);
    JoinEmptyLeft(lk, db, rk);
    JoinEmptyRight(Meaning(left, s, to).value, lk, rk);
    JoinEmptyRight(da, lk, rk);
  }

  /** The rows of a `distinct` over a base relation that cross zero. */
  lemma CrossingsCorrect(input: Query, base: BaseRel, s: Store, from: nat, to: nat)
    requires BaseOf(input) == Some(base)
    ensures Meaning(Distinct(input), s, from).Some? && Meaning(Distinct(input), s, to).Some?
    ensures Crossings(s, base, from, to) ==
      Minus(Meaning(Distinct(input), s, to).value, Meaning(Distinct(input), s, from).value)
  {
    hide Keep;
    hide DistinctOf;
    hide ReadAt;
    hide Snapshot;
    hide Crossings;
    hide Minus;
    BaseMeaning(input, base, Snapshot(s, from), map[]);
    BaseMeaning(input, base, Snapshot(s, to), map[]);
    SnapshotReads(s, base.rel, from);
    SnapshotReads(s, base.rel, to);
    CrossingsAre(base, s, from, to);
  }

  lemma CrossingsAre(base: BaseRel, s: Store, from: nat, to: nat)
    ensures Crossings(s, base, from, to)
         == Minus(DistinctOf(Keep(ReadAt(s, base.rel, to), t => Admits(base, t))),
           DistinctOf(Keep(ReadAt(s, base.rel, from), t => Admits(base, t))))
  {
    hide ReadAt;
    hide Changed;
    ReadChange(s, base.rel, from, to);
    SameWeights(Crossings(s, base, from, to),
                Minus(DistinctOf(Keep(ReadAt(s, base.rel, to), t => Admits(base, t))),
                  DistinctOf(Keep(ReadAt(s, base.rel, from), t => Admits(base, t)))));
  }

  // ----- inherited context -----

  /** Only the scopes that cover an entity decide what it inherits. */
  lemma InheritedCovering(a: set<Scope>, b: set<Scope>, e: Value)
    requires a <= b && forall s <- b :: Covers(s, e) ==> s in a
    ensures Inherited(a, e) == Inherited(b, e)
  {
    forall s: Scope ensures IsBest(s, a, e) <==> IsBest(s, b, e) {
    }
    forall s: Scope, u: Scope | IsBest(s, a, e) && IsBest(u, b, e) ensures s == u {
      MoreSpecificOrder(s, u);
    }
  }

  lemma MoreSpecificOrder(a: Scope, b: Scope)
    ensures a == b || MoreSpecific(a, b) || MoreSpecific(b, a)
  {
  }

  /** Reading only the scopes that contain one of the input's entities changes nothing. */
  lemma InheritRestricted(d: Multiset, col: nat, ctx: Multiset, part: Multiset, bound: Value)
    requires forall t <- part :: t in ctx && part[t] == ctx[t]
    requires forall t <- ctx, r <- d :: 1 < |t| && col < |r| && ValueLeq(t[0], r[col]) && ValueLeq(r[col], t[1]) ==>
      t in part
    ensures InheritOf(d, col, ScopesOf(part, bound)) == InheritOf(d, col, ScopesOf(ctx, bound))
  {
    hide Inherited;
    var a, b := ScopesOf(part, bound), ScopesOf(ctx, bound);
    assert a <= b;
    forall r | r in d ensures Extender(a, col)(r) == Extender(b, col)(r) {
      if col < |r| {
        forall sc | sc in b && Covers(sc, r[col]) ensures sc in a {
          var t :| t in ctx && ctx[t] > 0 && |t| == 4 && t[2] == bound && sc == Scope(t[0], t[1], t[3]);
          assert t in part;
        }
        InheritedCovering(a, b, r[col]);
      }
    }
    ImageSame(d, Extender(a, col), Extender(b, col));
  }

  lemma ContainingPart(s: Store, ctx: RelId, to: nat, d: Multiset, col: nat)
    ensures var points := set t | t in d && col < |t| :: t[col];
      var part := ReadContaining(s, ctx, to, points);
      var all := ReadAt(s, ctx, to);
      && (forall t <- part :: t in all && part[t] == all[t])
      && (forall t <- all, r <- d :: 1 < |t| && col < |r| && ValueLeq(t[0], r[col]) && ValueLeq(r[col], t[1]) ==>
            t in part)
  {
    var points := set t | t in d && col < |t| :: t[col];
    var all := ReadAt(s, ctx, to);
    forall t, r | t in all && r in d && 1 < |t| && col < |r| && ValueLeq(t[0], r[col]) && ValueLeq(r[col], t[1])
      ensures t in ReadContaining(s, ctx, to, points)
    {
      assert r[col] in points;
    }
  }

  // ----- the law -----

  /** Every per-group `reduce` on the incremental path projects only columns that exist. */
  predicate Stacked(q: Query) {
    match q
    case Map(a, _) => Stacked(a)
    case Filter(a, _) => Stacked(a)
    case Project(a, _) => Stacked(a)
    case Join(a, b, _, _) => Stacked(a) && Stacked(b)
    case Union(a, b) => Stacked(a) && Stacked(b)
    case Negate(a) => Stacked(a)
    case Reduce(a, _, _) => RowsOf(Strip(a)).Some? ==> StepsFit(RowsOf(Strip(a)).value.steps)
    case Inherit(a, _, _, _) => Stacked(a)
    case Shared(a) => Stacked(a)
    case _ => true
  }

  /** The delta of `q` is the difference of its meanings at the two ends. */
  ghost predicate DeltaHolds(q: Query, s: Store, from: nat, to: nat) {
    && Meaning(q, s, from).Some? && Meaning(q, s, to).Some?
    && EvalDelta(q, s, from, to) == Some(Minus(Meaning(q, s, to).value, Meaning(q, s, from).value))
  }

  /** Every per-group `reduce` the delta of `q` runs finds its rows long enough. */
  ghost predicate Answers(q: Query, s: Store, from: nat, to: nat) {
    match q
    case Map(a, _) => Answers(a, s, from, to)
    case Filter(a, _) => Answers(a, s, from, to)
    case Project(a, _) => Answers(a, s, from, to)
    case Join(a, b, _, _) => Answers(a, s, from, to) && Answers(b, s, from, to)
    case Union(a, b) => Answers(a, s, from, to) && Answers(b, s, from, to)
    case Negate(a) => Answers(a, s, from, to)
    case Reduce(a, key, _) => Quiet(q, s, from, to) || RowsLongEnough(a, key, s, from, to)
    case Inherit(a, _, _, ctx) => s.touched(ctx, from, to) || Answers(a, s, from, to)
    case Shared(a) => Answers(a, s, from, to)
    case _ => true
  }

  /** The delta returns if and only if every `reduce` in it answers, and then it holds. */
  ghost predicate Exact(q: Query, s: Store, from: nat, to: nat) {
    && (EvalDelta(q, s, from, to).Some? <==> Answers(q, s, from, to))
    && (Answers(q, s, from, to) ==> DeltaHolds(q, s, from, to))
  }

  ghost predicate MeansAtBoth(q: Query, s: Store, from: nat, to: nat) {
    Meaning(q, s, from).Some? && Meaning(q, s, to).Some?
  }

  /** **The incremental evaluator is exact.** When a plan means something at both
      editions, its delta returns if and only if no per-group `reduce` meets a row too
      short for its projections, and then the delta is what has to be added to the old
      answer to get the new one. */
  lemma {:induction false} DeltaIsExact(q: Query, s: Store, from: nat, to: nat)
    requires Valid(s) && from <= to
    requires Meaning(q, s, from).Some? && Meaning(q, s, to).Some?
    ensures EvalDelta(q, s, from, to).Some? <==> Answers(q, s, from, to)
    ensures Answers(q, s, from, to) ==> DeltaHolds(q, s, from, to)
  {
    hide EvalDelta, Answers, DeltaHolds, Meaning;
    ExactByCase(q, s, from, to);
  }

  lemma {:induction false} ExactByCase(q: Query, s: Store, from: nat, to: nat)
    requires Valid(s) && from <= to && MeansAtBoth(q, s, from, to)
    ensures Exact(q, s, from, to)
  {
    hide Exact, MeansAtBoth;
    ChildrenMean(q, s, from, to);
    match q
    case Rel(_) => BaseExact(q, s, from, to);
    case RangeRel(_, _, _) => BaseExact(q, s, from, to);
    case RangeRelOn(_, _, _, _) => BaseExact(q, s, from, to);
    case Map(i, _) =>
      ExactByCase(i, s, from, to);
      MapExact(q, s, from, to);
    case Filter(i, _) =>
      ExactByCase(i, s, from, to);
      FilterExact(q, s, from, to);
    case Project(i, _) =>
      ExactByCase(i, s, from, to);
      ProjectExact(q, s, from, to);
    case Join(l, r, _, _) =>
      ExactByCase(l, s, from, to);
      ExactByCase(r, s, from, to);
      JoinExact(q, s, from, to);
    case Union(l, r) =>
      ExactByCase(l, s, from, to);
      ExactByCase(r, s, from, to);
      UnionExact(q, s, from, to);
    case Negate(i) =>
      ExactByCase(i, s, from, to);
      NegateExact(q, s, from, to);
    case Distinct(_) => DistinctExact(q, s, from, to);
    case Reduce(_, _, _) => ReduceExact(q, s, from, to);
    case Recur => RecurExact(s, from, to);
    case Iterate(_, _) => IterateExact(q, s, from, to);
    case Inherit(i, _, _, _) =>
      ExactByCase(i, s, from, to);
      InheritExact(q, s, from, to);
    case Shared(i) =>
      ExactByCase(i, s, from, to);
      SharedExact(q, s, from, to);
  }

  /** A plan on the linear part of the path means something only if its inputs do. */
  lemma ChildrenMean(q: Query, s: Store, from: nat, to: nat)
    requires MeansAtBoth(q, s, from, to)
    ensures q.Map? || q.Filter? || q.Project? || q.Negate? || q.Inherit? || q.Shared? ==>
      MeansAtBoth(q.input, s, from, to)
    ensures q.Join? || q.Union? ==> MeansAtBoth(q.left, s, from, to) && MeansAtBoth(q.right, s, from, to)
  {
    hide Image, Keep, Plus, Negated, JoinOf, ReduceOf, InheritOf, DistinctOf, AllFit, ReduceFits, Settled, Stage,
      Snapshot;
  }

  lemma BaseExact(q: Query, s: Store, from: nat, to: nat)
    requires from <= to && (q.Rel? || q.RangeRel? || q.RangeRelOn?)
    ensures Exact(q, s, from, to)
  {
    BaseDelta(q, s, from, to);
  }

  lemma MapExact(q: Query, s: Store, from: nat, to: nat)
    requires q.Map? && MeansAtBoth(q, s, from, to) && MeansAtBoth(q.input, s, from, to) && Exact(q.input, s, from, to)
    ensures Exact(q, s, from, to)
  {
    hide Image, Keep, Plus, Minus, Negated, JoinOf, ReduceOf, InheritOf, DistinctOf, Tally, Quiet, Snapshot,
      ContainsReduce;
    ImageMinus(Meaning(q.input, s, to).value, Meaning(q.input, s, from).value, Mapper(q.f));
  }

  lemma FilterExact(q: Query, s: Store, from: nat, to: nat)
    requires q.Filter? && MeansAtBoth(q, s, from, to) && MeansAtBoth(q.input, s, from, to) &&
      Exact(q.input, s, from, to)
    ensures Exact(q, s, from, to)
  {
    hide Image, Keep, Plus, Minus, Negated, JoinOf, ReduceOf, InheritOf, DistinctOf, Tally, Quiet, Snapshot,
      ContainsReduce;
    KeepMinus(Meaning(q.input, s, to).value, Meaning(q.input, s, from).value, q.pred);
  }

  lemma ProjectExact(q: Query, s: Store, from: nat, to: nat)
    requires q.Project? && MeansAtBoth(q, s, from, to) && MeansAtBoth(q.input, s, from, to) &&
      Exact(q.input, s, from, to)
    ensures Exact(q, s, from, to)
  {
    hide Image, Minus, Snapshot, ContainsReduce;
    DeltaFits(Meaning(q.input, s, from).value, Meaning(q.input, s, to).value, q.cols);
    ImageMinus(Meaning(q.input, s, to).value, Meaning(q.input, s, from).value, Projector(q.cols));
  }

  lemma NegateExact(q: Query, s: Store, from: nat, to: nat)
    requires q.Negate? && MeansAtBoth(q, s, from, to) && MeansAtBoth(q.input, s, from, to) &&
      Exact(q.input, s, from, to)
    ensures Exact(q, s, from, to)
  {
    hide Image, Keep, Plus, Minus, Negated, JoinOf, ReduceOf, InheritOf, DistinctOf, Tally, Quiet, Snapshot,
      ContainsReduce;
    NegateDelta(Meaning(q.input, s, from).value, Meaning(q.input, s, to).value);
  }

  lemma SharedExact(q: Query, s: Store, from: nat, to: nat)
    requires q.Shared? && MeansAtBoth(q, s, from, to) && MeansAtBoth(q.input, s, from, to) &&
      Exact(q.input, s, from, to)
    ensures Exact(q, s, from, to)
  {
    hide Image, Keep, Plus, Minus, Negated, JoinOf, ReduceOf, InheritOf, DistinctOf, Tally, Quiet, Snapshot,
      ContainsReduce;
  }

  lemma UnionExact(q: Query, s: Store, from: nat, to: nat)
    requires q.Union? && MeansAtBoth(q, s, from, to) && MeansAtBoth(q.left, s, from, to) &&
      MeansAtBoth(q.right, s, from, to)
    requires Exact(q.left, s, from, to) && Exact(q.right, s, from, to)
    ensures Exact(q, s, from, to)
  {
    hide Image, Keep, Plus, Minus, Negated, JoinOf, ReduceOf, InheritOf, DistinctOf, Tally, Quiet, Snapshot,
      ContainsReduce;
    UnionDelta(Meaning(q.left, s, from).value, Meaning(q.left, s, to).value, Meaning(q.right, s, from).value,
      Meaning(q.right, s, to).value);
  }

  lemma JoinExact(q: Query, s: Store, from: nat, to: nat)
    requires q.Join? && MeansAtBoth(q, s, from, to) && MeansAtBoth(q.left, s, from, to) &&
      MeansAtBoth(q.right, s, from, to)
    requires Exact(q.left, s, from, to) && Exact(q.right, s, from, to)
    ensures Exact(q, s, from, to)
  {
    hide JoinDelta, Eval, Meaning, Minus, JoinOf;
    var l, r := q.left, q.right;
    if Answers(q, s, from, to) {
      JoinDeltaCorrect(l, q.leftKey, r, q.rightKey, EvalDelta(l, s, from, to).value, EvalDelta(r, s, from, to).value, s,
        from, to);
    }
  }

  lemma DistinctExact(q: Query, s: Store, from: nat, to: nat)
    requires q.Distinct? && MeansAtBoth(q, s, from, to) && Valid(s) && from <= to
    ensures Exact(q, s, from, to)
  {
    if BaseOf(q.input).Some? {
      CrossingsCorrect(q.input, BaseOf(q.input).value, s, from, to);
    } else {
      BoundaryDelta(q, s, from, to);
    }
  }

  lemma ReduceExact(q: Query, s: Store, from: nat, to: nat)
    requires q.Reduce? && MeansAtBoth(q, s, from, to) && Valid(s) && from <= to
    ensures Exact(q, s, from, to)
  {
    hide ReduceByKey, RowsLongEnough, Eval;
    ReduceByKeyCorrect(q.input, q.key, q.agg, s, from, to);
    BoundaryDelta(q, s, from, to);
  }

  lemma IterateExact(q: Query, s: Store, from: nat, to: nat)
    requires q.Iterate? && MeansAtBoth(q, s, from, to) && Valid(s) && from <= to
    ensures Exact(q, s, from, to)
  {
    hide Image, Keep, Plus, Minus, Negated, JoinOf, ReduceOf, InheritOf, DistinctOf, Tally, Quiet, Snapshot,
      ContainsReduce;
    BoundaryDelta(q, s, from, to);
  }

  lemma InheritExact(q: Query, s: Store, from: nat, to: nat)
    requires q.Inherit? && MeansAtBoth(q, s, from, to) && Valid(s) && from <= to
    requires MeansAtBoth(q.input, s, from, to) && Exact(q.input, s, from, to)
    ensures Exact(q, s, from, to)
  {
    hide Image, Keep, Plus, Minus, Negated, JoinOf, ReduceOf, InheritOf, DistinctOf, Tally, Quiet, Snapshot,
      ContainsReduce;
    hide Eval;
    if Answers(q, s, from, to) {
      InheritDelta(q, s, from, to);
    }
  }

  lemma RecurExact(s: Store, from: nat, to: nat)
    ensures Exact(Recur, s, from, to)
  {
    SelfDifference(map[]);
  }

  lemma {:induction false} StackedAnswers(q: Query, s: Store, from: nat, to: nat)
    requires Stacked(q) && MeansAtBoth(q, s, from, to)
    ensures Answers(q, s, from, to)
  {
    hide RowsLongEnough, Quiet, Meaning;
    ChildrenMean(q, s, from, to);
    match q
    case Map(i, _) => StackedAnswers(i, s, from, to);
    case Filter(i, _) => StackedAnswers(i, s, from, to);
    case Project(i, _) => StackedAnswers(i, s, from, to);
    case Join(l, r, _, _) =>
      StackedAnswers(l, s, from, to);
      StackedAnswers(r, s, from, to);
    case Union(l, r) =>
      StackedAnswers(l, s, from, to);
      StackedAnswers(r, s, from, to);
    case Negate(i) => StackedAnswers(i, s, from, to);
    case Reduce(i, key, agg) => StackedRowsLongEnough(i, key, agg, s, from, to);
    case Inherit(i, _, _, _) => StackedAnswers(i, s, from, to);
    case Shared(i) => StackedAnswers(i, s, from, to);
    case _ =>
  }

  /** A plan whose projections fit always has its delta. */
  lemma DeltaIsDifference(q: Query, s: Store, from: nat, to: nat)
    requires Valid(s) && from <= to && Stacked(q)
    requires Meaning(q, s, from).Some? && Meaning(q, s, to).Some?
    ensures DeltaHolds(q, s, from, to)
  {
    StackedAnswers(q, s, from, to);
    DeltaIsExact(q, s, from, to);
  }

  lemma BaseDelta(q: Query, s: Store, from: nat, to: nat)
    requires from <= to && (q.Rel? || q.RangeRel? || q.RangeRelOn?)
    ensures DeltaHolds(q, s, from, to)
  {
    SnapshotReads(s, q.rel, from);
    SnapshotReads(s, q.rel, to);
    ScanIsDifference(s, q.rel, from, to);
    var a, b := ReadAt(s, q.rel, from), ReadAt(s, q.rel, to);
    match q {
      case Rel(_) =>
      case RangeRel(_, lo, hi) => KeepMinus(b, a, t => InRange(t, lo, hi));
      case RangeRelOn(_, col, lo, hi) => KeepMinus(b, a, t => InColumnRange(t, col, lo, hi));
    }
  }

  lemma UnionDelta(a0: Multiset, a1: Multiset, b0: Multiset, b1: Multiset)
    ensures Plus(Minus(a1, a0), Minus(b1, b0)) == Minus(Plus(a1, b1), Plus(a0, b0))
  {
    SameWeights(Plus(Minus(a1, a0), Minus(b1, b0)), Minus(Plus(a1, b1), Plus(a0, b0)));
  }

  lemma NegateDelta(a0: Multiset, a1: Multiset)
    ensures Negated(Minus(a1, a0)) == Minus(Negated(a1), Negated(a0))
  {
    SameWeights(Negated(Minus(a1, a0)), Minus(Negated(a1), Negated(a0)));
  }

  /** A recompute at both ends, or nothing when nothing it reads was touched. */
  lemma BoundaryDelta(q: Query, s: Store, from: nat, to: nat)
    requires Valid(s) && from <= to && Meaning(q, s, from).Some? && Meaning(q, s, to).Some?
    ensures Recompute(q, s, from, to) == Some(Minus(Meaning(q, s, to).value, Meaning(q, s, from).value))
    ensures Quiet(q, s, from, to) ==> map[] == Minus(Meaning(q, s, to).value, Meaning(q, s, from).value)
  {
    hide Meaning;
    if Quiet(q, s, from, to) {
      QuietMeansUnchanged(q, s, from, to);
      SelfDifference(Meaning(q, s, to).value);
    }
  }

  lemma InheritDelta(q: Query, s: Store, from: nat, to: nat)
    requires q.Inherit? && Valid(s) && from <= to
    requires Meaning(q, s, from).Some? && Meaning(q, s, to).Some?
    requires DeltaHolds(q.input, s, from, to) || s.touched(q.ctx, from, to)
    ensures DeltaHolds(q, s, from, to)
  {
    hide Meaning, DeltaHolds;
    if s.touched(q.ctx, from, to) {
      TouchedInherit(q, s, from, to);
    } else {
      UntouchedInherit(q, s, from, to);
    }
  }

  lemma UntouchedInherit(q: Query, s: Store, from: nat, to: nat)
    requires q.Inherit? && Valid(s) && from <= to && !s.touched(q.ctx, from, to)
    requires Meaning(q, s, from).Some? && Meaning(q, s, to).Some? && DeltaHolds(q.input, s, from, to)
    ensures DeltaHolds(q, s, from, to)
  {
    hide Eval, Image, Extender, ScopesOf, ReadContaining, Tally, Window, Snapshot, EvalDelta, Meaning, Minus;
    InheritMeaning(q, s, from);
    InheritMeaning(q, s, to);
    var a, b := Meaning(q.input, s, from).value, Meaning(q.input, s, to).value;
    var ctx := ReadAt(s, q.ctx, to);
    assert ReadAt(s, q.ctx, from) == ctx;
    hide ReadAt;
    var d := Minus(b, a);
    ContainingPart(s, q.ctx, to, d, q.col);
    var points := set t | t in d && q.col < |t| :: t[q.col];
    var part := ReadContaining(s, q.ctx, to, points);
    InheritRestricted(d, q.col, ctx, part, q.bound);
    ImageMinus(b, a, Extender(ScopesOf(ctx, q.bound), q.col));
    PointedDelta(q, s, from, to, d);
  }

  lemma PointedDelta(q: Query, s: Store, from: nat, to: nat, d: Multiset)
    requires q.Inherit? && from <= to && !s.touched(q.ctx, from, to) && EvalDelta(q.input, s, from, to) == Some(d)
    ensures var points := set t | t in d && q.col < |t| :: t[q.col];
      EvalDelta(q, s, from, to)
        == Some(InheritOf(d, q.col, ScopesOf(ReadContaining(s, q.ctx, to, points), q.bound)))
  {
    hide Eval, Image, Extender, ScopesOf, ReadContaining, Tally, Window, Snapshot;
  }

  lemma TouchedInherit(q: Query, s: Store, from: nat, to: nat)
    requires q.Inherit? && Valid(s) && from <= to && s.touched(q.ctx, from, to)
    requires Meaning(q, s, from).Some? && Meaning(q, s, to).Some?
    ensures DeltaHolds(q, s, from, to)
  {
    BoundaryDelta(q, s, from, to);
    hide Meaning, Minus, Recompute;
  }

  lemma InheritMeaning(q: Query, s: Store, at: nat)
    requires q.Inherit? && Meaning(q, s, at).Some?
    ensures Meaning(q.input, s, at).Some?
    ensures Meaning(q, s, at) ==
      Some(InheritOf(Meaning(q.input, s, at).value, q.col, ScopesOf(ReadAt(s, q.ctx, at), q.bound)))
  {
    hide Snapshot, ReadAt, InheritOf, ScopesOf;
    SnapshotReads(s, q.ctx, at);
  }

  // ----- how far the law goes -----

  /** A later store, whose log says nothing new about editions up to `at`. */
  ghost predicate AgreesThrough(s: Store, t: Store, at: nat) {
    forall rel, e: nat :: e <= at ==> ReadAt(s, rel, e) == ReadAt(t, rel, e)
  }

  /** What a plan means at an edition does not change as the store moves on. */
  lemma MeaningStands(q: Query, s: Store, t: Store, at: nat)
    requires AgreesThrough(s, t, at)
    ensures Meaning(q, s, at) == Meaning(q, t, at)
  {
    hide Eval;
    forall r ensures Read(Snapshot(s, at), r) == Read(Snapshot(t, at), r) {
      SnapshotReads(s, r, at);
      SnapshotReads(t, r, at);
    }
    EvalDependsOnly(q, Snapshot(s, at), Snapshot(t, at), map[]);
  }

  lemma {:induction false} LaterUpdatesIgnored(log: seq<Update>, more: seq<Update>, rel: RelId, at: nat)
    requires forall u <- more :: u.edition > at
    ensures Window(log + more, rel, -1, at) == Window(log, rel, -1, at)
    decreases |more|
  {
    if more == [] {
      assert log + more == log;
    } else {
      var n := |more| - 1;
      assert (log + more)[..|log + more| - 1] == log + more[..n];
      assert (log + more)[|log + more| - 1] == more[n];
      assert more[n] in more && forall u <- more[..n] :: u in more;
      LaterUpdatesIgnored(log, more[..n], rel, at);
    }
  }

  /** Committing only later editions leaves every earlier one as it was. */
  lemma CommitsAgree(s: Store, t: Store, more: seq<Update>, at: nat)
    requires t.log == s.log + more && forall u <- more :: u.edition > at
    ensures AgreesThrough(s, t, at)
  {
    forall rel, e: nat | e <= at ensures ReadAt(s, rel, e) == ReadAt(t, rel, e) {
      LaterUpdatesIgnored(s.log, more, rel, e);
    }
  }

  const CANCEL_X: Tuple := [Int(1), Int(1)]
  const CANCEL_Y: Tuple := [Int(1), Int(2)]

  function CancelStore(): Store {
    Store([Update(0, CANCEL_X, 1, 1), Update(0, CANCEL_Y, 1, -1)], 1, (rel, from, to) => true)
  }

  function CancelInner(): Query {
    Project(Rel(0), [0])
  }

  function CancelOuter(): Query {
    Project(CancelInner(), [0, 5])
  }

  lemma CancelReads(at: nat)
    requires at <= 1
    ensures ReadAt(CancelStore(), 0, at) == if at == 0 then map[] else Plus(One(CANCEL_X, 1), One(CANCEL_Y, -1))
  {
    var x, y := Update(0, CANCEL_X, 1, 1), Update(0, CANCEL_Y, 1, -1);
    var r: Multiset := if at == 0 then map[] else Plus(One(CANCEL_X, 1), One(CANCEL_Y, -1));
    forall t ensures W(ReadAt(CancelStore(), 0, at), t) == W(r, t) {
      ReadOneMore([], x, 0, at, t);
      ReadOneMore([x], y, 0, at, t);
      assert [] + [x] == [x] && [x] + [y] == CancelStore().log;
    }
    SameWeights(ReadAt(CancelStore(), 0, at), r);
  }

  /** `CANCEL_X` changes, and is a row the per-group delta refuses. */
  lemma CancelRefuses()
    ensures !RowsLongEnough(CancelOuter(), [0], CancelStore(), 0, 1)
    ensures ReduceByKey(CancelOuter(), [0], Count, CancelStore(), 0, 1) == Refused
  {
    hide ReadAt, Image, ImageOf, StepsFit, RowsOf, Strip, Source, ImagesGrouped, Lookup, Leads, GroupsHit, Changed;
    CancelRows();
    CancelChanges();
    assert !ImagesReturn(CancelShape(), Changed(CancelStore(), 0, 0, 1));
  }

  lemma CancelChanges()
    ensures CANCEL_X in Changed(CancelStore(), 0, 0, 1)
  {
    hide ReadAt, Changed;
    CancelReads(0);
    CancelReads(1);
    assert CANCEL_X != CANCEL_Y;
    assert W(ReadAt(CancelStore(), 0, 1), CANCEL_X) == 1;
    ReadChange(CancelStore(), 0, 0, 1);
  }

  /** The condition can fail. Rows that cancel before a second projection are never
      shown to it by a full evaluation, but the per-group delta takes them one by one:
      here both meanings exist and the delta does not. */
  lemma UnstackedReduceHasNoDelta()
    ensures var q := Reduce(CancelOuter(), [0], Count);
      && !Stacked(q) && !Answers(q, CancelStore(), 0, 1)
      && Meaning(q, CancelStore(), 0).Some? && Meaning(q, CancelStore(), 1).Some?
      && EvalDelta(q, CancelStore(), 0, 1) == None
  {
    hide ReadAt, Image, Eval, ReduceByKey, RowsLongEnough, Meaning, RowsOf, Strip, StepsFit;
    CancelMeanings(0);
    CancelMeanings(1);
    CancelRows();
    CancelRefuses();
    var q := Reduce(CancelOuter(), [0], Count);
    assert RelsOf(q) == RelsOf(CancelOuter()) == RelsOf(CancelInner()) == RelsOf(Rel(0)) == {0};
    assert CancelStore().touched(0, 0, 1) && !Quiet(q, CancelStore(), 0, 1);
  }

  lemma CellsOne(t: Tuple, c: nat)
    requires c < |t|
    ensures Cells(t, [c]) == Some([t[c]])
  {
    assert Cells(t, [c]).value == [t[c]];
  }

  function CancelShape(): Rows {
    Rows(BaseRel(0, Whole), [Projected([0]), Projected([0, 5])])
  }

  /** The base row `CANCEL_X` is too short for the second projection. */
  lemma CancelRows()
    ensures RowsOf(Strip(CancelOuter())) == Some(CancelShape())
    ensures !StepsFit(CancelShape().steps) && Source(CancelShape().steps, 0) == Some(0)
    ensures ImageOf(CancelShape(), CANCEL_X).TooShort?
  {
    var one, steps := [Projected([0])], CancelShape().steps;
    assert steps[..1] == one && one[..0] == [];
    CancelShaped();
    CancelWidth(one, steps);
    CancelImages(one, steps);
  }

  lemma CancelShaped()
    ensures RowsOf(Strip(CancelOuter())) == Some(CancelShape())
  {
    var one := [Projected([0])];
    assert RowsOf(Rel(0)) == Some(Rows(BaseRel(0, Whole), []));
    assert [] + [Projected([0])] == one && one + [Projected([0, 5])] == CancelShape().steps;
    assert RowsOf(CancelInner()) == Some(Rows(BaseRel(0, Whole), one));
    assert RowsOf(CancelOuter()) == Some(CancelShape());
  }

  lemma CancelWidth(one: seq<Step>, steps: seq<Step>)
    requires one == [Projected([0])] && steps == [Projected([0]), Projected([0, 5])]
    ensures !StepsFit(steps) && Source(steps, 0) == Some(0)
  {
    assert steps[..1] == one && one[..0] == [];
    assert 5 in [0, 5] && Width(one) == Some(1);
    assert Source(one, 0) == Some(0);
  }

  lemma CancelImages(one: seq<Step>, steps: seq<Step>)
    requires one == [Projected([0])] && steps == [Projected([0]), Projected([0, 5])]
    ensures Through(steps, CANCEL_X) == TooShort
  {
    assert steps[..1] == one && one[..0] == [];
    CellsOne(CANCEL_X, 0);
    assert Cells(CANCEL_X, [0]) == Some([Int(1)]);
    assert Through(one, CANCEL_X) == Row([Int(1)]);
    assert [0, 5][1] == 5;
  }

  lemma CancelMeanings(at: nat)
    requires at <= 1
    ensures Meaning(Reduce(CancelOuter(), [0], Count), CancelStore(), at).Some?
  {
    CancelInnerMeans(at);
    NothingMeans(CancelInner(), CancelStore(), at);
  }

  lemma NothingMeans(q: Query, s: Store, at: nat)
    requires Meaning(q, s, at) == Some(map[])
    ensures Meaning(Reduce(Project(q, [0, 5]), [0], Count), s, at).Some?
  {
    hide Image, Snapshot;
    ImageEmpty(Projector([0, 5]));
    assert Meaning(Project(q, [0, 5]), s, at) == Some(map[]);
  }

  lemma CancelInnerMeans(at: nat)
    requires at <= 1
    ensures Meaning(CancelInner(), CancelStore(), at) == Some(map[])
  {
    hide Image, ReadAt, Snapshot, Plus, One;
    SnapshotReads(CancelStore(), 0, at);
    CancelImage(Projector([0]));
    ImageEmpty(Projector([0]));
    CancelFits(at);
    CancelReads(at);
  }

  lemma CancelFits(at: nat)
    requires at <= 1
    ensures AllFit(ReadAt(CancelStore(), 0, at), [0])
  {
    hide ReadAt;
    CancelReads(at);
    var m := ReadAt(CancelStore(), 0, at);
    forall t | t in m ensures t == CANCEL_X || t == CANCEL_Y {
      assert at == 1 ==> W(m, t) == W(One(CANCEL_X, 1), t) + W(One(CANCEL_Y, -1), t);
    }
  }

  lemma CancelImage(g: Tuple -> Option<Tuple>)
    requires g == Projector([0])
    ensures Image(Plus(One(CANCEL_X, 1), One(CANCEL_Y, -1)), g) == map[]
  {
    hide Image;
    CellsOne(CANCEL_X, 0);
    CellsOne(CANCEL_Y, 0);
    assert Cells(CANCEL_X, [0]) == Some([Int(1)]) && Cells(CANCEL_Y, [0]) == Some([Int(1)]);
    ImagePlus(One(CANCEL_X, 1), One(CANCEL_Y, -1), g);
    ImageOne(CANCEL_X, 1, g);
    ImageOne(CANCEL_Y, -1, g);
    SameWeights(Plus(One([Int(1)], 1), One([Int(1)], -1)), map[]);
  }
}
