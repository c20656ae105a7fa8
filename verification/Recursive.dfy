/** The maintained recursive view: it follows its base relations by growing, or by
    deleting too much and growing back, and is always the least fixpoint. */
module Recursive {
  import opened Values
  import opened Multisets
  import opened Plans
  import opened Operators
  import opened Traces
  import opened Deltas
  import opened DeltaEngine
  import opened Positive
  import opened Fixpoints

  datatype Maintenance = Grow | DeleteRederive

  /** Every base relation a plan reads, in the order it is met. */
  function CollectRels(q: Query): (out: seq<RelId>)
    ensures forall r :: r in out <==> r in RelsOf(q)
  {
    match q
    case Rel(r) => [r]
    case RangeRel(r, _, _) => [r]
    case RangeRelOn(r, _, _, _) => [r]
    case Map(a, _) => CollectRels(a)
    case Filter(a, _) => CollectRels(a)
    case Project(a, _) => CollectRels(a)
    case Join(a, b, _, _) => CollectRels(a) + CollectRels(b)
    case Union(a, b) => CollectRels(a) + CollectRels(b)
    case Negate(a) => CollectRels(a)
    case Distinct(a) => CollectRels(a)
    case Reduce(a, _, _) => CollectRels(a)
    case Recur => []
    case Iterate(a, b) => CollectRels(a) + CollectRels(b)
    case Inherit(a, _, _, ctx) => CollectRels(a) + [ctx]
    case Shared(a) => CollectRels(a)
  }

  /** `after - before` as signed set deltas. */
  function SetDifference(after: Multiset, before: Multiset): Multiset {
    map t | t in after.Keys + before.Keys && (t in after) != (t in before) :: if t in after then 1 else -1
  }

  lemma SetDifferenceIsMinus(after: Multiset, before: Multiset)
    requires IsSet(after) && IsSet(before)
    ensures SetDifference(after, before) == Minus(after, before)
  {
    SameWeights(SetDifference(after, before), Minus(after, before));
  }

  // ----- sets held as weight-1 maps -----

  /** Add to `od`, and to the `frontier`, every row of `ts` that is in `r` and not yet in `od`. */
  method Seed(ts: Multiset, r: Multiset, od: Multiset, frontier: Multiset) returns (od': Multiset, frontier': Multiset)
    requires IsSet(od) && IsSet(frontier)
    ensures IsSet(od') && IsSet(frontier')
    ensures od'.Keys == od.Keys + ts.Keys * r.Keys
    ensures frontier'.Keys == frontier.Keys + (ts.Keys * r.Keys - od.Keys)
  {
    od', frontier' := od, frontier;
    var todo := ts.Keys;
    assert Seeded(r, od, frontier, ts.Keys - todo, od', frontier');
    hide Seeded, IsSet;
    while todo != {}
      invariant todo <= ts.Keys && Seeded(r, od, frontier, ts.Keys - todo, od', frontier')
      decreases todo
    {
      var t :| t in todo;
      SeededStep(r, od, frontier, ts.Keys - todo, od', frontier', t);
      assert ts.Keys - (todo - {t}) == ts.Keys - todo + {t};
      if t in r && t !in od' {
        od' := od'[t := 1];
        frontier' := frontier'[t := 1];
      }
      todo := todo - {t};
    }
    assert ts.Keys - todo == ts.Keys;
    SeededDone(r, od, frontier, ts.Keys, od', frontier');
  }

  /** The sets grown by those of `done` that are present: the second, by those new to the first. */
  ghost predicate Seeded(r: Multiset, od: Multiset, frontier: Multiset, done: set<Tuple>, od': Multiset,
                         frontier': Multiset) {
    && IsSet(od') && (forall t :: t in od' <==> t in od || (t in done && t in r))
    && IsSet(frontier') && (forall t :: t in frontier' <==> t in frontier || (t in done && t in r && t !in od))
  }

  lemma SeededStep(r: Multiset, od: Multiset, frontier: Multiset, done: set<Tuple>, od': Multiset, frontier': Multiset,
                   t: Tuple)
    requires Seeded(r, od, frontier, done, od', frontier')
    ensures var added := t in r && t !in od';
      Seeded(r, od, frontier, done + {t}, if added then od'[t := 1] else od',
        if added then frontier'[t := 1] else frontier')
  {
  }

  lemma SeededDone(r: Multiset, od: Multiset, frontier: Multiset, done: set<Tuple>, od': Multiset, frontier': Multiset)
    requires Seeded(r, od, frontier, done, od', frontier')
    ensures IsSet(od') && od'.Keys == od.Keys + done * r.Keys
    ensures IsSet(frontier') && frontier'.Keys == frontier.Keys + (done * r.Keys - od.Keys)
  {
  }

  /** `r` with every row of `ts` added. */
  method InsertAll(r: Multiset, ts: Multiset) returns (r': Multiset)
    requires IsSet(r)
    ensures IsSet(r') && r'.Keys == r.Keys + ts.Keys
  {
    r' := r;
    var todo := ts.Keys;
    while todo != {}
      invariant todo <= ts.Keys
      invariant IsSet(r')
      invariant forall t :: t in r' <==> t in r || (t in ts && t !in todo)
      decreases todo
    {
      var t :| t in todo;
      r' := r'[t := 1];
      todo := todo - {t};
    }
  }

  function Without(a: Multiset, remove: Multiset): Multiset {
    map t | t in a && t !in remove :: a[t]
  }

  /** Evaluate a positive plan and keep which rows are present. */
  method EvalSet(q: Query, db: Db, recur: Multiset) returns (m: Multiset)
    requires IsPositive(q) && NonNegativeDb(db) && NonNegative(recur)
    requires SetReturns(q, Supports(db), recur.Keys)
    ensures IsSet(m) && m.Keys == SetEval(q, Supports(db), recur.Keys)
  {
    EvalPositive(q, db, recur);
    var rows := EvalInner(q, db, recur);
    DistinctSupport(rows);
    m := DistinctOf(rows);
  }

  lemma SupportsUpdate(db: Db, r: RelId, m: Multiset)
    ensures Supports(db[r := m]) == Supports(db)[r := m.Keys]
  {
  }

  /** A positive plan that returns over a relation returns over part of it. */
  lemma OverrideReturns(q: Query, db: Db, p: RelId, part: Multiset, recur: Multiset)
    requires IsPositive(q) && NonNegativeDb(db) && NonNegative(recur) && Eval(q, db, recur).Some?
    requires IsSet(part) && part.Keys <= Contents(Supports(db), p)
    ensures NonNegativeDb(db[p := part]) && SetReturns(q, Supports(db[p := part]), recur.Keys)
  {
    hide Eval;
    hide SetEval;
    hide SetReturns;
    EvalPositive(q, db, recur);
    SupportsUpdate(db, p, part);
    SetEvalMonotone(q, Supports(db[p := part]), Supports(db), recur.Keys, recur.Keys);
  }

  class IncrementalFixpoint {
    const init: Query
    const step: Query
    const baseRels: seq<RelId>
    /** The current fixpoint, a set. */
    var r: Multiset
    var at: nat
    var lastIterations: nat
    var lastOverdeletionRounds: nat
    var lastPath: Maintenance

    /** The plans the maintainer is for: positive, and the step linear in the
        recursion variable. */
    ghost predicate Maintainable() {
      && IsPositive(init) && IsPositive(step) && IsLinear(step)
      && forall p <- RelsOf(init) + RelsOf(step) :: p in baseRels
    }

    /** The view is what the full evaluation gives at its edition. */
    ghost predicate Current(s: Store)
      reads this
    {
      Meaning(Iterate(init, step), s, at) == Some(r)
    }

    ghost function Base(s: Store, e: nat): SetDb {
      Supports(Snapshot(s, e))
    }

    constructor (init: Query, step: Query, s: Store, from: nat)
      requires Meaning(Iterate(init, step), s, from).Some?
      ensures this.init == init && this.step == step && at == from
      ensures baseRels == CollectRels(init) + CollectRels(step)
      ensures Current(s)
      ensures forall p <- RelsOf(init) + RelsOf(step) :: p in baseRels
    {
      this.init, this.step := init, step;
      baseRels := CollectRels(init) + CollectRels(step);
      var start := EvalSnapshot(Iterate(init, step), s, from);
      r := start;
      at := from;
      lastIterations, lastOverdeletionRounds, lastPath := 0, 0, Grow;
    }

    /** No present row of a base relation is lost between the two editions. */
    ghost predicate NothingLost(s: Store, from: nat, to: nat) {
      forall p <- baseRels :: Deleted(Base(s, from), Base(s, to), p) == {}
    }

    method IsMonotone(s: Store, from: nat, to: nat) returns (monotone: bool)
      requires NonNegativeDb(Snapshot(s, from)) && NonNegativeDb(Snapshot(s, to))
      ensures monotone <==> NothingLost(s, from, to)
    {
      hide Deleted;
      hide NonNegativeDb;
      hide Base;
      for i := 0 to |baseRels|
        invariant forall j | 0 <= j < i :: Deleted(Base(s, from), Base(s, to), baseRels[j]) == {}
      {
        var gone := DeletedRows(s, baseRels[i], from, to);
        if gone.Keys != {} {
          return false;
        }
      }
      return true;
    }

    /** The present rows of `rel` at `from` that are no longer present at `to`. */
    method DeletedRows(s: Store, rel: RelId, from: nat, to: nat) returns (gone: Multiset)
      requires NonNegativeDb(Snapshot(s, from)) && NonNegativeDb(Snapshot(s, to))
      ensures IsSet(gone) && gone.Keys == Deleted(Base(s, from), Base(s, to), rel)
    {
      var before, after := ReadAt(s, rel, from), ReadAt(s, rel, to);
      SnapshotReads(s, rel, from);
      SnapshotReads(s, rel, to);
      SupportsRead(Snapshot(s, from), rel);
      SupportsRead(Snapshot(s, to), rel);
      gone := map t | t in before && before[t] > 0 && W(after, t) <= 0 :: 1;
    }

    /** What each round of the overdeletion keeps: the seeds are in `od`, and
        everything derived from the part of it already propagated is too. */
    ghost predicate Propagating(s: Store, to: nat, od: set<Tuple>, frontier: set<Tuple>)
      requires Maintainable()
      reads this
    {
      && frontier <= od <= r.Keys
      && (forall p <- baseRels :: SeedsIn(init, step, Base(s, at), Base(s, to), p, r.Keys, od))
      && (od - frontier != {} ==> SetEval(step, Base(s, at), od - frontier) * r.Keys <= od)
    }

    /** Everything an overdeletion must remove, and nothing else, goes into `od`. */
    ghost predicate OnlyWhatMust(s: Store, to: nat, od: set<Tuple>)
      requires Maintainable()
      reads this
    {
      forall t <- od :: MustGo(init, step, Base(s, at), Base(s, to), baseRels, r.Keys, t)
    }

    /** What is left of the fixpoint when everything resting on a lost row has gone. */
    ghost function Survivors(s: Store, to: nat): set<Tuple>
      requires Maintainable()
      reads this
    {
      r.Keys - Overdeletion(init, step, Base(s, at), Base(s, to), baseRels, r.Keys)
    }

    /** Remove from the fixpoint every fact with some derivation resting on a lost
        row, and everything derived from those, and no other. */
    method Overdelete(s: Store, to: nat) returns (survivors: Multiset, rounds: nat)
      requires Maintainable() && Current(s)
      requires NonNegativeDb(Snapshot(s, at)) && NonNegativeDb(Snapshot(s, to))
      ensures IsSet(survivors) && survivors.Keys == Survivors(s, to)
    {
      hide Propagating, OnlyWhatMust, Current, NonNegativeDb, Base, Overdeletion;
      var od: Multiset, frontier: Multiset := SeedOverdeletion(s, to);
      PropagatingBounds(s, to, od.Keys, frontier.Keys);
      rounds := 0;
      while frontier.Keys != {}
        invariant IsSet(od) && IsSet(frontier) && Propagating(s, to, od.Keys, frontier.Keys)
        invariant od.Keys <= r.Keys && OnlyWhatMust(s, to, od.Keys)
        decreases r.Keys - od.Keys, if frontier.Keys != {} then 1 else 0
      {
        rounds := rounds + 1;
        ghost var before := od.Keys;
        od, frontier := OverdeletionRound(s, to, od, frontier);
        ShrinksUnlessDone(r.Keys, before, od.Keys, frontier.Keys);
      }
      survivors := Without(r, od);
      PropagatedIsOverdeletion(s, to, od.Keys);
      CurrentIsSet(s);
    }

    lemma PropagatedIsOverdeletion(s: Store, to: nat, od: set<Tuple>)
      requires Maintainable() && Propagating(s, to, od, {}) && OnlyWhatMust(s, to, od)
      ensures Overdeletion(init, step, Base(s, at), Base(s, to), baseRels, r.Keys) == od
    {
      hide SetEval, SeedsIn, Base, MustGo, Overdeletion;
      assert od - {} == od;
      assert CoversLoss(init, step, Base(s, at), Base(s, to), baseRels, r.Keys, od);
      LeastCover(init, step, Base(s, at), Base(s, to), baseRels, r.Keys, od);
    }

    lemma ShrinksUnlessDone(all: set<Tuple>, before: set<Tuple>, after: set<Tuple>, frontier: set<Tuple>)
      requires before <= after <= all && frontier == after - before
      ensures frontier == {} ==> all - after == all - before
      ensures frontier != {} ==> all - after < all - before
    {
      if frontier != {} {
        var t :| t in frontier;
        assert t in all - before && t !in all - after;
      } else {
        assert forall t <- after :: t !in frontier;
        assert after == before;
      }
    }

    lemma PropagatingBounds(s: Store, to: nat, od: set<Tuple>, frontier: set<Tuple>)
      requires Maintainable() && Propagating(s, to, od, frontier)
      ensures frontier <= od <= r.Keys
    {
    }

    lemma CurrentIsSet(s: Store)
      requires Maintainable() && Current(s) && NonNegativeDb(Snapshot(s, at))
      ensures IsSet(r)
    {
      IterateIsLeast(init, step, Snapshot(s, at));
    }

    /** **Survivors are sound** when no relation that lost a row stands on both sides
        of a join. */
    lemma SurvivorsAreInside(s: Store, to: nat, fix: set<Tuple>)
      requires Maintainable() && Current(s) && NonNegativeDb(Snapshot(s, at))
      requires LossesApart(init, Base(s, at), Base(s, to), baseRels) &&
        LossesApart(step, Base(s, at), Base(s, to), baseRels)
      requires Closed(init, step, Base(s, to), fix)
      ensures Survivors(s, to) <= fix
    {
      hide SetEval, Eval, MustGo, LossesApart, SeedsIn;
      IterateIsLeast(init, step, Snapshot(s, at));
      var n: nat :| r.Keys == Rank(init, step, Base(s, at), n);
      var od := Overdeletion(init, step, Base(s, at), Base(s, to), baseRels, r.Keys);
      OverdeletionCovers(init, step, Base(s, at), Base(s, to), baseRels, r.Keys);
      SurvivorsInside(init, step, Base(s, at), Base(s, to), baseRels, r.Keys, od, fix, n);
    }

    /** One round: whatever the step derives from the frontier goes too. */
    method OverdeletionRound(s: Store, to: nat, od: Multiset, frontier: Multiset)
      returns (od': Multiset, next: Multiset)
      requires Maintainable() && Current(s) && NonNegativeDb(Snapshot(s, at))
      requires IsSet(od) && IsSet(frontier) && frontier.Keys != {} && Propagating(s, to, od.Keys, frontier.Keys)
      requires OnlyWhatMust(s, to, od.Keys)
      ensures IsSet(od') && IsSet(next) && Propagating(s, to, od'.Keys, next.Keys)
      ensures od.Keys <= od'.Keys <= r.Keys && next.Keys == od'.Keys - od.Keys
      ensures OnlyWhatMust(s, to, od'.Keys)
    {
      hide SetEval, SetReturns, Eval, Current, NonNegativeDb, Snapshot, SeedsIn, MustGo;
      StepReturns(s, frontier.Keys);
      var derived := EvalSet(step, Snapshot(s, at), frontier);
      next := map t | t in derived && t in r && t !in od :: 1;
      od' := InsertAll(od, next);
      forall t | t in next.Keys ensures MustGo(init, step, Base(s, at), Base(s, to), baseRels, r.Keys, t) {
        DerivedMustGo(init, step, Base(s, at), Base(s, to), baseRels, r.Keys, frontier.Keys, t);
      }
      SeedsKept(Base(s, at), Base(s, to), r.Keys, od.Keys, od'.Keys);
      PropagatesFurther(Base(s, at), od.Keys, frontier.Keys, od'.Keys);
      assert od'.Keys - next.Keys == od.Keys;
    }

    lemma PropagatesFurther(was: SetDb, od: set<Tuple>, frontier: set<Tuple>, od': set<Tuple>)
      requires Maintainable() && frontier <= od <= od'
      requires od - frontier != {} ==> SetEval(step, was, od - frontier) * r.Keys <= od
      requires SetEval(step, was, frontier) * r.Keys <= od'
      ensures SetEval(step, was, od) * r.Keys <= od'
    {
      hide SetEval;
      var done := od - frontier;
      assert done + frontier == od;
      if done == {} {
        assert od == frontier;
      } else {
        StepDistributes(step, was, done, frontier);
      }
    }

    /** Every evaluation of the step over part of the fixpoint returns. */
    lemma StepReturns(s: Store, x: set<Tuple>)
      requires Maintainable() && Current(s) && NonNegativeDb(Snapshot(s, at)) && x <= r.Keys
      ensures SetReturns(step, Base(s, at), x)
    {
      IterateIsLeast(init, step, Snapshot(s, at));
      EvalPositive(step, Snapshot(s, at), r);
      SetEvalMonotone(step, Base(s, at), Base(s, at), x, r.Keys);
    }

    lemma SeedsKept(was: SetDb, now: SetDb, x: set<Tuple>, od: set<Tuple>, od': set<Tuple>)
      requires IsPositive(init) && IsPositive(step) && od <= od'
      requires forall p <- baseRels :: SeedsIn(init, step, was, now, p, x, od)
      ensures forall p <- baseRels :: SeedsIn(init, step, was, now, p, x, od')
    {
      hide SetEval;
      forall p | p in baseRels ensures SeedsIn(init, step, was, now, p, x, od') {
        SeedsWiden(was, now, p, x, od, od');
      }
    }

    /** For each relation that lost rows, evaluate both plans with that relation
        holding only the lost rows: the facts that come out rested on one. */
    method SeedOverdeletion(s: Store, to: nat) returns (od: Multiset, frontier: Multiset)
      requires Maintainable() && Current(s)
      requires NonNegativeDb(Snapshot(s, at)) && NonNegativeDb(Snapshot(s, to))
      ensures IsSet(od) && IsSet(frontier) && frontier.Keys == od.Keys <= r.Keys
      ensures Propagating(s, to, od.Keys, frontier.Keys) && OnlyWhatMust(s, to, od.Keys)
    {
      hide SetEval, Eval, SeedsIn, Base, Current, NonNegativeDb, MustGo;
      od, frontier := map[], map[];
      ghost var was, now := Base(s, at), Base(s, to);
      for i := 0 to |baseRels|
        invariant IsSet(od) && IsSet(frontier) && frontier.Keys == od.Keys <= r.Keys
        invariant OnlyWhatMust(s, to, od.Keys)
        invariant forall j | 0 <= j < i :: SeedsIn(init, step, was, now, baseRels[j], r.Keys, od.Keys)
      {
        ghost var before := od.Keys;
        od, frontier := SeedRelation(s, to, baseRels[i], od, frontier);
        forall j | 0 <= j < i + 1 ensures SeedsIn(init, step, was, now, baseRels[j], r.Keys, od.Keys) {
          if j < i {
            SeedsWiden(was, now, baseRels[j], r.Keys, before, od.Keys);
          }
        }
      }
    }

    method SeedRelation(s: Store, to: nat, p: RelId, od: Multiset, frontier: Multiset)
      returns (od': Multiset, frontier': Multiset)
      requires Maintainable() && Current(s) && p in baseRels
      requires NonNegativeDb(Snapshot(s, at)) && NonNegativeDb(Snapshot(s, to))
      requires IsSet(od) && IsSet(frontier) && frontier.Keys == od.Keys <= r.Keys && OnlyWhatMust(s, to, od.Keys)
      ensures IsSet(od') && IsSet(frontier') && frontier'.Keys == od'.Keys <= r.Keys && od.Keys <= od'.Keys
      ensures SeedsIn(init, step, Base(s, at), Base(s, to), p, r.Keys, od'.Keys) && OnlyWhatMust(s, to, od'.Keys)
    {
      hide SetEval, Eval, Snapshot, IsPositive, IsLinear, Base, Current, NonNegativeDb, Deleted, Contents, MustGo,
        OnlyWhatMust, SeedsIn, IsSet;
      od', frontier' := od, frontier;
      var gone := DeletedRows(s, p, at, to);
      DeletedBelow(Base(s, at), Base(s, to), p);
      if gone.Keys != {} {
        var viaInit, viaStep := BrokenDerivations(s, p, gone);
        od', frontier' := Seed(viaInit, r, od', frontier');
        od', frontier' := Seed(viaStep, r, od', frontier');
        OnlySeedsAdded(s, to, p, gone.Keys, od.Keys, viaInit.Keys, viaStep.Keys, od'.Keys);
      }
      SeedsInIf(init, step, Base(s, at), Base(s, to), p, r.Keys, od'.Keys);
    }

    lemma OnlySeedsAdded(s: Store, to: nat, p: RelId, gone: set<Tuple>, od: set<Tuple>, viaInit: set<Tuple>,
                         viaStep: set<Tuple>, od': set<Tuple>)
      requires Maintainable() && p in baseRels && OnlyWhatMust(s, to, od)
      requires gone == Deleted(Base(s, at), Base(s, to), p) && gone != {}
      requires viaInit == SetEval(init, Base(s, at)[p := gone], {}) &&
        viaStep == SetEval(step, Base(s, at)[p := gone], r.Keys)
      requires od' == od + viaInit * r.Keys + viaStep * r.Keys
      ensures OnlyWhatMust(s, to, od')
    {
      hide SetEval, Base, Deleted, MustGo;
      forall t | t in od' ensures MustGo(init, step, Base(s, at), Base(s, to), baseRels, r.Keys, t) {
        if t !in od {
          SeedMustGo(init, step, Base(s, at), Base(s, to), baseRels, r.Keys, p, t);
        }
      }
    }

    lemma DeletedBelow(was: SetDb, now: SetDb, p: RelId)
      ensures Deleted(was, now, p) <= Contents(was, p)
    {
    }

    lemma SeedsWiden(was: SetDb, now: SetDb, p: RelId, x: set<Tuple>, od: set<Tuple>, od': set<Tuple>)
      requires IsPositive(init) && IsPositive(step) && od <= od'
      requires SeedsIn(init, step, was, now, p, x, od)
      ensures SeedsIn(init, step, was, now, p, x, od')
    {
      hide SetEval;
    }

    /** The facts either plan derives when `p` holds only the rows in `gone`. */
    method BrokenDerivations(s: Store, p: RelId, gone: Multiset) returns (viaInit: Multiset, viaStep: Multiset)
      requires Maintainable() && Current(s) && NonNegativeDb(Snapshot(s, at))
      requires IsSet(gone) && gone.Keys <= Contents(Base(s, at), p)
      ensures viaInit.Keys == SetEval(init, Base(s, at)[p := gone.Keys], {})
      ensures viaStep.Keys == SetEval(step, Base(s, at)[p := gone.Keys], r.Keys)
    {
      hide SetEval;
      hide SetReturns;
      hide Eval;
      hide NonNegativeDb;
      hide LeastFixpoint;
      hide Contents;
      var db := Snapshot(s, at)[p := gone];
      SupportsUpdate(Snapshot(s, at), p, gone);
      IterateIsLeast(init, step, Snapshot(s, at));
      var none: Multiset := map[];
      assert none.Keys == {};
      OverrideReturns(init, Snapshot(s, at), p, gone, none);
      OverrideReturns(step, Snapshot(s, at), p, gone, r);
      viaInit := EvalSet(init, db, none);
      viaStep := EvalSet(step, db, r);
    }

    // ----- regrowth -----

    /** Everything the plans derive over `x` at `to` is in it or waiting on the frontier,
        and whatever is closed and holds `start` holds both. */
    ghost predicate Growing(s: Store, to: nat, start: set<Tuple>, x: set<Tuple>, frontier: set<Tuple>)
      requires Maintainable()
    {
      && start <= x && x !! frontier
      && SetEval(init, Base(s, to), {}) <= x + frontier
      && SetEval(step, Base(s, to), x) <= x + frontier
      && forall y: set<Tuple> | start <= y && Closed(init, step, Base(s, to), y) :: x + frontier <= y
    }

    /** `u` bounds what can grow from `start`: it is closed, and its rows are long
        enough for the plans. */
    ghost predicate Bounds(s: Store, to: nat, start: set<Tuple>, u: set<Tuple>)
      requires Maintainable()
    {
      && start <= u && Closed(init, step, Base(s, to), u)
      && SetReturns(init, Base(s, to), {}) && SetReturns(step, Base(s, to), u)
    }

    /** Semi-naive regrowth: from any set, add what the frontier derives until nothing
        new appears. What is reached is the least closed set over the start. */
    method GrowFrom(s: Store, to: nat, start: Multiset, ghost u: set<Tuple>) returns (grown: Multiset, iters: nat)
      requires Maintainable() && NonNegativeDb(Snapshot(s, to)) && IsSet(start)
      requires Bounds(s, to, start.Keys, u)
      ensures IsSet(grown) && LeastOver(init, step, Base(s, to), start.Keys, grown.Keys)
    {
      hide Growing, NonNegativeDb, Base, Bounds, LeastOver;
      grown := start;
      var frontier: Multiset := FirstFrontier(s, to, start, u);
      iters := 0;
      GrowthBounded(s, to, start.Keys, grown.Keys, frontier.Keys, u);
      while frontier.Keys != {}
        invariant IsSet(grown) && IsSet(frontier) && Growing(s, to, start.Keys, grown.Keys, frontier.Keys)
        invariant grown.Keys + frontier.Keys <= u
        decreases u - grown.Keys
      {
        iters := iters + 1;
        ghost var before := grown.Keys;
        grown, frontier := GrowthRound(s, to, start.Keys, grown, frontier, u);
        GrowthBounded(s, to, start.Keys, grown.Keys, frontier.Keys, u);
        ghost var t :| t in grown.Keys - before;
        assert t in u - before && t !in u - grown.Keys;
        assert u - grown.Keys < u - before;
      }
      FullyGrown(s, to, start.Keys, grown.Keys);
    }

    lemma GrowthBounded(s: Store, to: nat, start: set<Tuple>, x: set<Tuple>, frontier: set<Tuple>, u: set<Tuple>)
      requires Maintainable() && Growing(s, to, start, x, frontier) && Bounds(s, to, start, u)
      ensures x + frontier <= u
    {
      hide SetEval, SetReturns, Base;
    }

    /** Every evaluation within the bound returns. */
    lemma BoundReturns(s: Store, to: nat, start: set<Tuple>, u: set<Tuple>, x: set<Tuple>)
      requires Maintainable() && Bounds(s, to, start, u) && x <= u
      ensures SetReturns(step, Base(s, to), x) && SetReturns(init, Base(s, to), {})
    {
      hide SetEval, SetReturns, Base;
      SetEvalMonotone(step, Base(s, to), Base(s, to), x, u);
    }

    method FirstFrontier(s: Store, to: nat, start: Multiset, ghost u: set<Tuple>) returns (frontier: Multiset)
      requires Maintainable() && NonNegativeDb(Snapshot(s, to)) && IsSet(start) && Bounds(s, to, start.Keys, u)
      ensures IsSet(frontier) && Growing(s, to, start.Keys, start.Keys, frontier.Keys)
    {
      hide SetEval, Eval, SetReturns, NonNegativeDb, Growing, Bounds;
      BoundReturns(s, to, start.Keys, u, start.Keys) by {
        assert start.Keys <= u by {
          BoundHolds(s, to, start.Keys, u);
        }
      }
      var none: Multiset := map[];
      assert none.Keys == {};
      var initSet := EvalSet(init, Snapshot(s, to), none);
      var stepSet := EvalSet(step, Snapshot(s, to), start);
      frontier := InsertAll(initSet, stepSet);
      frontier := Without(frontier, start);
      GrowthStarts(s, to, start.Keys, frontier.Keys);
    }

    lemma BoundHolds(s: Store, to: nat, start: set<Tuple>, u: set<Tuple>)
      requires Maintainable() && Bounds(s, to, start, u)
      ensures start <= u
    {
    }

    lemma GrowthStarts(s: Store, to: nat, start: set<Tuple>, frontier: set<Tuple>)
      requires Maintainable()
      requires frontier == SetEval(init, Base(s, to), {}) + SetEval(step, Base(s, to), start) - start
      ensures Growing(s, to, start, start, frontier)
    {
      hide SetEval, Base;
      forall y: set<Tuple> | start <= y && Closed(init, step, Base(s, to), y) ensures start + frontier <= y {
        SetEvalMonotone(step, Base(s, to), Base(s, to), start, y);
      }
    }

    method GrowthRound(s: Store, to: nat, ghost start: set<Tuple>, grown: Multiset, frontier: Multiset,
                       ghost u: set<Tuple>)
      returns (grown': Multiset, next: Multiset)
      requires Maintainable() && NonNegativeDb(Snapshot(s, to)) && IsSet(grown) && IsSet(frontier) &&
        frontier.Keys != {}
      requires Bounds(s, to, start, u) && Growing(s, to, start, grown.Keys, frontier.Keys) && frontier.Keys <= u
      ensures IsSet(grown') && IsSet(next)
      ensures Growing(s, to, start, grown'.Keys, next.Keys)
      ensures grown.Keys <= grown'.Keys && grown'.Keys - grown.Keys != {}
    {
      hide SetEval, Eval, SetReturns, NonNegativeDb, Bounds, Snapshot, Growing;
      grown' := InsertAll(grown, frontier);
      BoundReturns(s, to, start, u, frontier.Keys);
      var derived := EvalSet(step, Snapshot(s, to), frontier);
      next := Without(derived, grown');
      GrowthGoesOn(s, to, start, grown.Keys, frontier.Keys, next.Keys);
    }

    lemma GrowthGoesOn(s: Store, to: nat, start: set<Tuple>, x: set<Tuple>, frontier: set<Tuple>, next: set<Tuple>)
      requires Maintainable() && Growing(s, to, start, x, frontier) && frontier != {}
      requires next == SetEval(step, Base(s, to), frontier) - (x + frontier)
      ensures Growing(s, to, start, x + frontier, next) && x + frontier - x != {}
    {
      hide SetEval, Base;
      StepDistributes(step, Base(s, to), x, frontier);
      forall y: set<Tuple> | start <= y && Closed(init, step, Base(s, to), y) ensures x + frontier + next <= y {
        SetEvalMonotone(step, Base(s, to), Base(s, to), frontier, y);
      }
      var t :| t in frontier;
      assert t in x + frontier - x;
    }

    lemma FullyGrown(s: Store, to: nat, start: set<Tuple>, x: set<Tuple>)
      requires Maintainable() && Growing(s, to, start, x, {})
      ensures LeastOver(init, step, Base(s, to), start, x)
    {
      hide SetEval, Base;
      assert x + {} == x;
    }

    // ----- the step forward -----

    /** Growth from the survivors can stop. */
    ghost predicate CanGrow(s: Store, to: nat)
      requires Maintainable()
      reads this
    {
      exists u: set<Tuple> :: Bounds(s, to, Survivors(s, to), u)
    }

    /** No relation that loses a row by `to` stands on both sides of a join. */
    ghost predicate Separable(s: Store, to: nat)
      reads this
    {
      LossesApart(init, Base(s, at), Base(s, to), baseRels) && LossesApart(step, Base(s, at), Base(s, to), baseRels)
    }

    /** The fixpoint the full recursion gives at `to`. */
    ghost function Wanted(s: Store, to: nat): set<Tuple>
      requires Meaning(Iterate(init, step), s, to).Some?
    {
      Meaning(Iterate(init, step), s, to).value.Keys
    }

    /** **When maintenance is exact.** The view becomes the least set closed under the
        plans at the new edition that holds the survivors, so it is what the full
        recursion gives there if and only if every survivor is. That is so whenever no
        relation that lost a row stands on both sides of a join, and always when nothing
        was lost. The delta returned is new minus old. */
    method Advance(s: Store, to: nat) returns (delta: Multiset)
      requires Maintainable() && Current(s)
      requires NonNegativeDb(Snapshot(s, at)) && NonNegativeDb(Snapshot(s, to))
      requires Meaning(Iterate(init, step), s, to).Some? && (Separable(s, to) || CanGrow(s, to))
      modifies this
      ensures at == to && IsSet(r) && LeastOver(init, step, Base(s, to), old(Survivors(s, to)), r.Keys)
      ensures Current(s) <==> old(Survivors(s, to)) <= Wanted(s, to)
      ensures old(Separable(s, to)) ==> Current(s)
      ensures delta == Minus(r, old(r))
      ensures lastPath.Grow? <==> NothingLost(s, old(at), to)
    {
      hide NonNegativeDb, Base, Meaning, NothingLost, IsPositive, Bounds, LeastOver, Overdeletion, LossesApart;
      var monotone := IsMonotone(s, at, to);
      var start: Multiset, rounds, path := r, 0, Grow;
      CurrentIsSet(s);
      ghost var u := Bound(s, to);
      if monotone {
        NothingGoes(s, to);
      } else {
        start, rounds := Overdelete(s, to);
        path := DeleteRederive;
      }
      var grown, iters := GrowFrom(s, to, start, u);
      GrownIsWanted(s, to, grown);
      lastPath := path;
      lastOverdeletionRounds := rounds;
      lastIterations := iters;
      SetDifferenceIsMinus(grown, r);
      delta := SetDifference(grown, r);
      r := grown;
      at := to;
    }

    lemma NothingGoes(s: Store, to: nat)
      requires Maintainable() && NothingLost(s, at, to)
      ensures Survivors(s, to) == r.Keys
    {
      hide Base, Overdeletion;
      NothingLostNothingGoes(init, step, Base(s, at), Base(s, to), baseRels, r.Keys);
    }

    /** A bound on what grows from the survivors: when they are sound, the new fixpoint. */
    lemma Bound(s: Store, to: nat) returns (u: set<Tuple>)
      requires Maintainable() && Current(s)
      requires NonNegativeDb(Snapshot(s, at)) && NonNegativeDb(Snapshot(s, to))
      requires Meaning(Iterate(init, step), s, to).Some? && (Separable(s, to) || CanGrow(s, to))
      ensures Bounds(s, to, Survivors(s, to), u)
      ensures Separable(s, to) ==> Survivors(s, to) <= Wanted(s, to)
    {
      hide SetEval, SetReturns, Eval, Survivors, Closed;
      if Separable(s, to) {
        NewFixpoint(s, to);
        u := Wanted(s, to);
        SurvivorsAreInside(s, to, u);
      } else {
        u :| Bounds(s, to, Survivors(s, to), u);
      }
    }

    lemma GrownIsWanted(s: Store, to: nat, grown: Multiset)
      requires Maintainable() && NonNegativeDb(Snapshot(s, to)) && Meaning(Iterate(init, step), s, to).Some?
      requires IsSet(grown) && LeastOver(init, step, Base(s, to), Survivors(s, to), grown.Keys)
      ensures Meaning(Iterate(init, step), s, to) == Some(grown) <==> Survivors(s, to) <= Wanted(s, to)
    {
      hide SetEval, Eval, Survivors, LeastOver;
      IterateIsLeast(init, step, Snapshot(s, to));
      GrownIsLeast(init, step, Base(s, to), Survivors(s, to), grown.Keys, Wanted(s, to));
      if grown.Keys == Wanted(s, to) {
        SetsEqual(grown, Meaning(Iterate(init, step), s, to).value);
      }
    }

    lemma NewFixpoint(s: Store, to: nat)
      requires Maintainable() && NonNegativeDb(Snapshot(s, to)) && Meaning(Iterate(init, step), s, to).Some?
      ensures Closed(init, step, Base(s, to), Wanted(s, to)) && IsSet(Meaning(Iterate(init, step), s, to).value)
      ensures SetReturns(init, Base(s, to), {}) && SetReturns(step, Base(s, to), Wanted(s, to))
    {
      hide SetEval, Eval, SetReturns;
      var none: Multiset := map[];
      assert none.Keys == {};
      var m := Meaning(Iterate(init, step), s, to).value;
      IterateIsLeast(init, step, Snapshot(s, to));
      EvalPositive(step, Snapshot(s, to), m);
      EvalPositive(init, Snapshot(s, to), none);
    }
  }
}
