/** The recursion of a positive plan: the loop's answer is the least fixpoint, and
    what survives an overdeletion lies inside the new one. */
module Fixpoints {
  import opened Values
  import opened Multisets
  import opened Plans
  import opened Operators
  import opened Deltas
  import opened Positive

  /** Every weight is 1. */
  ghost predicate IsSet(m: Multiset) {
    forall t <- m :: m[t] == 1
  }

  lemma SetsEqual(a: Multiset, b: Multiset)
    requires IsSet(a) && IsSet(b) && a.Keys == b.Keys
    ensures a == b
  {
  }

  /** Everything one round derives from `x`. */
  ghost function Derive(init: Query, step: Query, d: SetDb, x: set<Tuple>): set<Tuple>
    requires IsPositive(init) && IsPositive(step)
  {
    SetEval(init, d, {}) + SetEval(step, d, x)
  }

  ghost predicate Closed(init: Query, step: Query, d: SetDb, x: set<Tuple>)
    requires IsPositive(init) && IsPositive(step)
  {
    Derive(init, step, d, x) <= x
  }

  ghost predicate LeastFixpoint(init: Query, step: Query, d: SetDb, x: set<Tuple>)
    requires IsPositive(init) && IsPositive(step)
  {
    && Derive(init, step, d, x) == x
    && forall y: set<Tuple> :: Closed(init, step, d, y) ==> x <= y
  }

  /** The facts derived within `n` rounds. */
  ghost function Rank(init: Query, step: Query, d: SetDb, n: nat): set<Tuple>
    requires IsPositive(init) && IsPositive(step)
  {
    if n == 0 then SetEval(init, d, {}) else Derive(init, step, d, Rank(init, step, d, n - 1))
  }

  lemma {:induction false} RankInClosed(init: Query, step: Query, d: SetDb, n: nat, y: set<Tuple>)
    requires IsPositive(init) && IsPositive(step) && Closed(init, step, d, y)
    ensures Rank(init, step, d, n) <= y
  {
    if n > 0 {
      RankInClosed(init, step, d, n - 1, y);
      SetEvalMonotone(step, d, d, Rank(init, step, d, n - 1), y);
    }
  }

  // ----- the loop -----

  lemma StartIsRankZero(init: Query, step: Query, db: Db)
    requires IsPositive(init) && IsPositive(step) && NonNegativeDb(db) && Eval(init, db, map[]).Some?
    ensures NonNegative(Eval(init, db, map[]).value)
    ensures Eval(init, db, map[]).value.Keys == SetEval(init, Supports(db), {})
  {
    var none: Multiset := map[];
    assert none.Keys == {};
    EvalPositive(init, db, none);
  }

  lemma RoundIsDerive(start: Multiset, init: Query, step: Query, db: Db, r: Multiset)
    requires IsPositive(init) && IsPositive(step) && NonNegativeDb(db) && NonNegative(start) && NonNegative(r)
    requires start.Keys == SetEval(init, Supports(db), {})
    ensures match Round(start, step, db, Some(r))
            case None => true
            case Some(m) => IsSet(m) && m.Keys == Derive(init, step, Supports(db), r.Keys)
  {
    hide Eval;
    hide Plus;
    hide SetEval;
    EvalPositive(step, db, r);
    if Eval(step, db, r).Some? {
      var s := Eval(step, db, r).value;
      PlusSupport(start, s);
      DistinctSupport(Plus(start, s));
    }
  }

  lemma {:induction false} StageIsRank(init: Query, step: Query, db: Db, n: nat)
    requires IsPositive(init) && IsPositive(step) && NonNegativeDb(db) && Eval(init, db, map[]).Some?
    ensures match Stage(Eval(init, db, map[]).value, step, db, n)
            case None => true
            case Some(m) => IsSet(m) && m.Keys == Rank(init, step, Supports(db), n)
  {
    hide Eval;
    hide Stage;
    hide Round;
    hide SetEval;
    var start := Eval(init, db, map[]).value;
    StartIsRankZero(init, step, db);
    if n == 0 {
      StageZero(start, step, db);
      DistinctSupport(start);
    } else {
      StageNext(start, step, db, n - 1);
      StageIsRank(init, step, db, n - 1);
      var r := Stage(start, step, db, n - 1);
      if r.Some? {
        RoundIsDerive(start, init, step, db, r.value);
      } else {
        RoundNone(start, step, db);
      }
    }
  }

  lemma RoundNone(start: Multiset, step: Query, db: Db)
    ensures Round(start, step, db, None) == None
  {
  }

  lemma PositiveFree(q: Query)
    requires IsPositive(q)
    ensures !ContainsReduce(q)
  {
  }

  /** The loop that `find(iterate(init, step))` runs stops at the least fixpoint. */
  lemma IterateIsLeast(init: Query, step: Query, db: Db)
    requires IsPositive(init) && IsPositive(step) && NonNegativeDb(db)
    requires Eval(Iterate(init, step), db, map[]).Some?
    ensures var m := Eval(Iterate(init, step), db, map[]).value;
      && IsSet(m) && LeastFixpoint(init, step, Supports(db), m.Keys)
      && (exists n: nat :: m.Keys == Rank(init, step, Supports(db), n))
      && Eval(init, db, map[]).Some? && Eval(step, db, m).Some?
  {
    hide Stage;
    hide SetEval;
    var m, n := IterateSettles(init, step, db);
    var start := Eval(init, db, map[]).value;
    StageIsRank(init, step, db, n);
    StageIsRank(init, step, db, n + 1);
    var d := Supports(db);
    forall y: set<Tuple> | Closed(init, step, d, y) ensures m.Keys <= y {
      RankInClosed(init, step, d, n, y);
    }
  }

  lemma IterateSettles(init: Query, step: Query, db: Db) returns (m: Multiset, n: nat)
    requires Eval(Iterate(init, step), db, map[]).Some?
    ensures m == Eval(Iterate(init, step), db, map[]).value
    ensures Eval(init, db, map[]).Some? && Settled(Eval(init, db, map[]).value, step, db, n)
    ensures Stage(Eval(init, db, map[]).value, step, db, n) == Some(m)
    ensures Eval(step, db, m).Some?
  {
    hide Stage;
    hide Round;
    m := Eval(Iterate(init, step), db, map[]).value;
    var start := Eval(init, db, map[]).value;
    n :| Settled(start, step, db, n) && Stage(start, step, db, n) == Some(m);
    StageNext(start, step, db, n);
    RoundReturns(start, step, db, m);
  }

  lemma {:induction false} RankGrows(init: Query, step: Query, d: SetDb, n: nat)
    requires IsPositive(init) && IsPositive(step)
    ensures Rank(init, step, d, n) <= Rank(init, step, d, n + 1)
  {
    hide SetEval, SetReturns;
    if n > 0 {
      RankGrows(init, step, d, n - 1);
      SetEvalMonotone(step, d, d, Rank(init, step, d, n - 1), Rank(init, step, d, n));
    }
  }

  lemma SmallerRest(u: set<Tuple>, a: set<Tuple>, b: set<Tuple>)
    requires a < b <= u
    ensures |u - b| < |u - a|
  {
    assert !(b <= a);
    var x :| x in b && x !in a;
    assert u - a == (u - a - {x}) + {x};
    CardSubset(u - b, u - a - {x});
  }

  lemma {:induction false} CardSubset(a: set<Tuple>, b: set<Tuple>)
    requires a <= b
    ensures |a| <= |b|
    decreases a
  {
    if x :| x in a {
      CardSubset(a - {x}, b - {x});
    }
  }

  /** Rounds inside a finite set run out of new facts. */
  lemma {:induction false} RankStops(init: Query, step: Query, d: SetDb, u: set<Tuple>, n: nat) returns (k: nat)
    requires IsPositive(init) && IsPositive(step) && Closed(init, step, d, u)
    ensures Rank(init, step, d, k + 1) == Rank(init, step, d, k)
    decreases |u - Rank(init, step, d, n)|
  {
    hide Rank;
    RankGrows(init, step, d, n);
    if Rank(init, step, d, n + 1) == Rank(init, step, d, n) {
      k := n;
    } else {
      RankInClosed(init, step, d, n + 1, u);
      SmallerRest(u, Rank(init, step, d, n), Rank(init, step, d, n + 1));
      k := RankStops(init, step, d, u, n + 1);
    }
  }

  lemma {:induction false} StageWithin(init: Query, step: Query, db: Db, u: set<Tuple>, n: nat)
    requires IsPositive(init) && IsPositive(step) && NonNegativeDb(db) && Eval(init, db, map[]).Some?
    requires Closed(init, step, Supports(db), u) && SetReturns(step, Supports(db), u)
    ensures Stage(Eval(init, db, map[]).value, step, db, n).Some?
  {
    hide Eval, Stage, SetEval, SetReturns, Rank;
    var start := Eval(init, db, map[]).value;
    if n == 0 {
      StageZero(start, step, db);
    } else {
      StageWithin(init, step, db, u, n - 1);
      StageNext(start, step, db, n - 1);
      StageIsRank(init, step, db, n - 1);
      RankInClosed(init, step, Supports(db), n - 1, u);
      var r := Stage(start, step, db, n - 1).value;
      SetEvalMonotone(step, Supports(db), Supports(db), r.Keys, u);
      EvalPositive(step, db, r);
    }
  }

  lemma SettledReturns(init: Query, step: Query, db: Db, k: nat)
    requires IsPositive(init) && IsPositive(step) && Eval(init, db, map[]).Some?
    requires Settled(Eval(init, db, map[]).value, step, db, k)
    ensures Eval(Iterate(init, step), db, map[]).Some?
  {
    PositiveFree(init);
    PositiveFree(step);
    hide Eval, Settled, IsPositive, ContainsReduce;
    IterateReturns(init, step, db, k);
  }

  lemma ClosedSetSettles(init: Query, step: Query, db: Db, u: set<Tuple>) returns (k: nat)
    requires IsPositive(init) && IsPositive(step) && NonNegativeDb(db) && Eval(init, db, map[]).Some?
    requires Closed(init, step, Supports(db), u) && SetReturns(step, Supports(db), u)
    ensures Settled(Eval(init, db, map[]).value, step, db, k)
  {
    hide Stage, Eval, SetEval, SetReturns, Rank;
    var start := Eval(init, db, map[]).value;
    k := RankStops(init, step, Supports(db), u, 0);
    StageWithin(init, step, db, u, k);
    StageWithin(init, step, db, u, k + 1);
    StageIsRank(init, step, db, k);
    StageIsRank(init, step, db, k + 1);
    SetsEqual(Stage(start, step, db, k).value, Stage(start, step, db, k + 1).value);
  }

  /** The loop of a positive recursion stops, with rows, exactly when some finite set of
      facts is closed under the plans and every row of it is long enough for them. */
  lemma IterateReturnsIff(init: Query, step: Query, db: Db)
    requires IsPositive(init) && IsPositive(step) && NonNegativeDb(db)
    ensures Eval(Iterate(init, step), db, map[]).Some?
       <==> SetReturns(init, Supports(db), {})
            && exists u: set<Tuple> :: Closed(init, step, Supports(db), u) && SetReturns(step, Supports(db), u)
  {
    hide Eval, SetEval, SetReturns;
    var d := Supports(db);
    var none: Multiset := map[];
    assert none.Keys == {};
    EvalPositive(init, db, none);
    if Eval(Iterate(init, step), db, map[]).Some? {
      IterateIsLeast(init, step, db);
      var m := Eval(Iterate(init, step), db, map[]).value;
      EvalPositive(step, db, m);
      assert Closed(init, step, d, m.Keys);
    }
    if Eval(init, db, map[]).Some? && exists u: set<Tuple> :: Closed(init, step, d, u) && SetReturns(step, d, u) {
      var u: set<Tuple> :| Closed(init, step, d, u) && SetReturns(step, d, u);
      var k := ClosedSetSettles(init, step, db, u);
      SettledReturns(init, step, db, k);
    }
  }

  lemma LeastFixpointUnique(init: Query, step: Query, d: SetDb, x: set<Tuple>, y: set<Tuple>)
    requires IsPositive(init) && IsPositive(step)
    requires LeastFixpoint(init, step, d, x) && LeastFixpoint(init, step, d, y)
    ensures x == y
  {
    assert Closed(init, step, d, x) && Closed(init, step, d, y);
  }

  // ----- overdeletion -----

  /** `was` with relation `r` cut down to the rows `now` keeps. */
  ghost function Trimmed(was: SetDb, now: SetDb, rels: seq<RelId>): SetDb {
    if rels == [] then was else
    var d := Trimmed(was, now, rels[..|rels| - 1]);
    var r := rels[|rels| - 1];
    d[r := Contents(d, r) * Contents(now, r)]
  }

  ghost function Deleted(was: SetDb, now: SetDb, r: RelId): set<Tuple> {
    Contents(was, r) - Contents(now, r)
  }

  lemma {:induction false} TrimmedRows(was: SetDb, now: SetDb, rels: seq<RelId>, r: RelId)
    ensures Contents(Trimmed(was, now, rels), r) <= Contents(was, r)
    ensures r in rels ==> Contents(Trimmed(was, now, rels), r) <= Contents(now, r)
  {
    if rels != [] {
      TrimmedRows(was, now, rels[..|rels| - 1], r);
    }
  }

  /** Every relation that lost a row is apart in `q`: no join has it on both sides. */
  ghost predicate LossesApart(q: Query, was: SetDb, now: SetDb, rels: seq<RelId>) {
    forall p <- rels :: Deleted(was, now, p) != {} ==> Apart(q, p)
  }

  /** `q` over `x` has no derivation resting on a deleted row that reaches `t`. */
  ghost predicate Untouched(q: Query, was: SetDb, now: SetDb, rels: seq<RelId>, x: set<Tuple>, t: Tuple)
    requires IsPositive(q)
  {
    forall r <- rels :: Deleted(was, now, r) != {} ==> t !in SetEval(q, was[r := Deleted(was, now, r)], x)
  }

  /** A fact with no derivation resting on a deleted row is derived from the kept rows alone. */
  lemma {:induction false} KeptDerivation(q: Query, was: SetDb, now: SetDb, rels: seq<RelId>, x: set<Tuple>, t: Tuple)
    requires IsPositive(q) && LossesApart(q, was, now, rels)
    requires t in SetEval(q, was, x) && Untouched(q, was, now, rels, x, t)
    ensures t in SetEval(q, Trimmed(was, now, rels), x)
  {
    hide SetEval, Apart, IsPositive;
    if rels != [] {
      var r := rels[|rels| - 1];
      var init := rels[..|rels| - 1];
      assert r in rels && forall p <- init :: p in rels;
      KeptDerivation(q, was, now, init, x, t);
      var d := Trimmed(was, now, init);
      forall p ensures Contents(d, p) <= Contents(was, p) {
        TrimmedRows(was, now, init, p);
      }
      hide Trimmed, Contents;
      KeptThrough(q, was, now, d, r, x, t);
      assert Trimmed(was, now, rels) == d[r := Contents(d, r) * Contents(now, r)] by {
        TrimmedStep(was, now, rels);
      }
    }
  }

  lemma TrimmedStep(was: SetDb, now: SetDb, rels: seq<RelId>)
    requires rels != []
    ensures var r, d := rels[|rels| - 1], Trimmed(was, now, rels[..|rels| - 1]);
      Trimmed(was, now, rels) == d[r := Contents(d, r) * Contents(now, r)]
  {
  }

  /** A derivation that rests on no deleted row of `r` stands when they go. */
  lemma KeptThrough(q: Query, was: SetDb, now: SetDb, d: SetDb, r: RelId, x: set<Tuple>, t: Tuple)
    requires IsPositive(q) && (forall p :: Contents(d, p) <= Contents(was, p)) && t in SetEval(q, d, x)
    requires Deleted(was, now, r) != {} ==> Apart(q, r) && t !in SetEval(q, was[r := Deleted(was, now, r)], x)
    ensures t in SetEval(q, d[r := Contents(d, r) * Contents(now, r)], x)
  {
    hide SetEval, Apart;
    var kept, lost := Contents(d, r) * Contents(now, r), Contents(d, r) - Contents(now, r);
    SetEvalSame(q, d, d[r := kept + lost], x, x);
    if Deleted(was, now, r) == {} {
      assert lost <= Deleted(was, now, r);
      assert kept + lost == kept;
    } else {
      RelationSplits(q, d, r, kept, lost, x);
      var small, big := d[r := lost], was[r := Deleted(was, now, r)];
      forall p ensures Contents(small, p) <= Contents(big, p) {
        assert Contents(d, p) <= Contents(was, p);
      }
      SetEvalMonotone(q, small, big, x, x);
    }
  }

  /** A kept derivation still stands over the new relations. */
  lemma KeptStands(q: Query, was: SetDb, now: SetDb, rels: seq<RelId>, x: set<Tuple>, y: set<Tuple>, t: Tuple)
    requires IsPositive(q) && LossesApart(q, was, now, rels) && (forall r <- RelsOf(q) :: r in rels) && x <= y
    requires t in SetEval(q, was, x) && Untouched(q, was, now, rels, x, t)
    ensures t in SetEval(q, now, y)
  {
    hide SetEval;
    KeptDerivation(q, was, now, rels, x, t);
    forall r | r in RelsOf(q) ensures Contents(Trimmed(was, now, rels), r) <= Contents(now, r) {
      TrimmedRows(was, now, rels, r);
    }
    SetEvalMonotone(q, Trimmed(was, now, rels), now, x, y);
  }

  /** The facts of `r` with a derivation resting on a deleted row of `p` are all in `od`. */
  ghost predicate SeedsIn(init: Query, step: Query, was: SetDb, now: SetDb, p: RelId, r: set<Tuple>, od: set<Tuple>)
    requires IsPositive(init) && IsPositive(step)
  {
    Deleted(was, now, p) != {} ==>
      && SetEval(init, was[p := Deleted(was, now, p)], {}) * r <= od
      && SetEval(step, was[p := Deleted(was, now, p)], r) * r <= od
  }

  /** What an overdeletion has to remove from the old fixpoint `r`: the facts with
      a derivation resting on a deleted row, and everything derived from them. */
  ghost predicate CoversLoss(init: Query, step: Query, was: SetDb, now: SetDb, rels: seq<RelId>, r: set<Tuple>,
                             od: set<Tuple>)
    requires IsPositive(init) && IsPositive(step)
  {
    && (forall p <- rels :: SeedsIn(init, step, was, now, p, r, od))
    && (od != {} ==> SetEval(step, was, od) * r <= od)
  }

  /** `t` is in everything that covers the loss. */
  ghost predicate MustGo(init: Query, step: Query, was: SetDb, now: SetDb, rels: seq<RelId>, r: set<Tuple>, t: Tuple)
    requires IsPositive(init) && IsPositive(step)
  {
    forall c: set<Tuple> | c <= r && CoversLoss(init, step, was, now, rels, r, c) :: t in c
  }

  /** The least part of `r` that covers the loss: what an overdeletion removes. */
  ghost function Overdeletion(init: Query, step: Query, was: SetDb, now: SetDb, rels: seq<RelId>,
                              r: set<Tuple>): set<Tuple>
    requires IsPositive(init) && IsPositive(step)
  {
    set t | t in r && MustGo(init, step, was, now, rels, r, t)
  }

  lemma LeastCover(init: Query, step: Query, was: SetDb, now: SetDb, rels: seq<RelId>, r: set<Tuple>, od: set<Tuple>)
    requires IsPositive(init) && IsPositive(step)
    requires od <= r && CoversLoss(init, step, was, now, rels, r, od)
    requires forall t <- od :: MustGo(init, step, was, now, rels, r, t)
    ensures Overdeletion(init, step, was, now, rels, r) == od
  {
    hide CoversLoss;
  }

  /** A fact derived from a lost row must go. */
  lemma SeedMustGo(init: Query, step: Query, was: SetDb, now: SetDb, rels: seq<RelId>, r: set<Tuple>, p: RelId,
                   t: Tuple)
    requires IsPositive(init) && IsPositive(step) && p in rels && t in r
    requires var gone := Deleted(was, now, p);
      gone != {} && (t in SetEval(init, was[p := gone], {}) || t in SetEval(step, was[p := gone], r))
    ensures MustGo(init, step, was, now, rels, r, t)
  {
    hide SetEval, Deleted;
    forall c: set<Tuple> | c <= r && CoversLoss(init, step, was, now, rels, r, c) ensures t in c {
      assert SeedsIn(init, step, was, now, p, r, c);
    }
  }

  /** And so must a fact derived from facts that must. */
  lemma DerivedMustGo(init: Query, step: Query, was: SetDb, now: SetDb, rels: seq<RelId>, r: set<Tuple>, x: set<Tuple>,
                      t: Tuple)
    requires IsPositive(init) && IsPositive(step) && t in r && x != {} && t in SetEval(step, was, x)
    requires forall y <- x :: MustGo(init, step, was, now, rels, r, y)
    ensures MustGo(init, step, was, now, rels, r, t)
  {
    hide SetEval, SeedsIn;
    forall c: set<Tuple> | c <= r && CoversLoss(init, step, was, now, rels, r, c) ensures t in c {
      assert x <= c;
      SetEvalMonotone(step, was, was, x, c);
    }
  }

  /** What must go covers the loss. */
  lemma OverdeletionCovers(init: Query, step: Query, was: SetDb, now: SetDb, rels: seq<RelId>, r: set<Tuple>)
    requires IsPositive(init) && IsPositive(step)
    ensures CoversLoss(init, step, was, now, rels, r, Overdeletion(init, step, was, now, rels, r))
  {
    hide SetEval, Overdeletion, SeedsIn;
    forall p | p in rels ensures SeedsIn(init, step, was, now, p, r, Overdeletion(init, step, was, now, rels, r)) {
      SeedsGo(init, step, was, now, rels, r, p);
    }
    DerivedGoes(init, step, was, now, rels, r);
  }

  lemma DerivedGoes(init: Query, step: Query, was: SetDb, now: SetDb, rels: seq<RelId>, r: set<Tuple>)
    requires IsPositive(init) && IsPositive(step)
    ensures var od := Overdeletion(init, step, was, now, rels, r);
      od != {} ==> SetEval(step, was, od) * r <= od
  {
    hide SetEval, MustGo, Overdeletion;
    var od := Overdeletion(init, step, was, now, rels, r);
    MembersMustGo(init, step, was, now, rels, r);
    if od != {} {
      forall t | t in SetEval(step, was, od) * r ensures t in od {
        DerivedMustGo(init, step, was, now, rels, r, od, t);
        GoesIfMust(init, step, was, now, rels, r, t);
      }
    }
  }

  lemma MembersMustGo(init: Query, step: Query, was: SetDb, now: SetDb, rels: seq<RelId>, r: set<Tuple>)
    requires IsPositive(init) && IsPositive(step)
    ensures forall y <- Overdeletion(init, step, was, now, rels, r) :: MustGo(init, step, was, now, rels, r, y)
  {
    hide MustGo;
  }

  lemma SeedsGo(init: Query, step: Query, was: SetDb, now: SetDb, rels: seq<RelId>, r: set<Tuple>, p: RelId)
    requires IsPositive(init) && IsPositive(step) && p in rels
    ensures SeedsIn(init, step, was, now, p, r, Overdeletion(init, step, was, now, rels, r))
  {
    hide SetEval, MustGo, Deleted, Overdeletion, IsPositive, SeedsIn;
    var gone := Deleted(was, now, p);
    var od := Overdeletion(init, step, was, now, rels, r);
    forall t | gone != {} && t in r && (t in SetEval(init, was[p := gone], {}) || t in SetEval(step, was[p := gone], r))
      ensures t in od
    {
      SeedMustGo(init, step, was, now, rels, r, p, t);
      GoesIfMust(init, step, was, now, rels, r, t);
    }
    SeedsInIf(init, step, was, now, p, r, od);
  }

  lemma SeedsInIf(init: Query, step: Query, was: SetDb, now: SetDb, p: RelId, r: set<Tuple>, od: set<Tuple>)
    requires IsPositive(init) && IsPositive(step)
    requires var gone := Deleted(was, now, p);
      gone != {} ==> forall t | t in r &&
        (t in SetEval(init, was[p := gone], {}) || t in SetEval(step, was[p := gone], r)) :: t in od
    ensures SeedsIn(init, step, was, now, p, r, od)
  {
    hide SetEval, Deleted, IsPositive;
  }

  lemma GoesIfMust(init: Query, step: Query, was: SetDb, now: SetDb, rels: seq<RelId>, r: set<Tuple>, t: Tuple)
    requires IsPositive(init) && IsPositive(step) && t in r
    ensures t in Overdeletion(init, step, was, now, rels, r) <==> MustGo(init, step, was, now, rels, r, t)
  {
    hide MustGo, IsPositive;
  }

  lemma NothingLostNothingGoes(init: Query, step: Query, was: SetDb, now: SetDb, rels: seq<RelId>, r: set<Tuple>)
    requires IsPositive(init) && IsPositive(step)
    requires forall p <- rels :: Deleted(was, now, p) == {}
    ensures Overdeletion(init, step, was, now, rels, r) == {}
  {
    hide SetEval;
    assert CoversLoss(init, step, was, now, rels, r, {});
    LeastCover(init, step, was, now, rels, r, {});
  }

  /** **Survivors are sound.** Whatever such an overdeletion leaves is still
      derivable, even when facts support one another in a cycle. */
  lemma {:induction false} SurvivorsInside(init: Query, step: Query, was: SetDb, now: SetDb, rels: seq<RelId>,
                                           r: set<Tuple>, od: set<Tuple>, y: set<Tuple>, n: nat)
    requires IsPositive(init) && IsPositive(step) && IsLinear(step)
    requires LossesApart(init, was, now, rels) && LossesApart(step, was, now, rels)
    requires forall p <- RelsOf(init) + RelsOf(step) :: p in rels
    requires Closed(init, step, was, r) && CoversLoss(init, step, was, now, rels, r, od)
    requires Closed(init, step, now, y)
    ensures Rank(init, step, was, n) - od <= y
  {
    hide SetEval;
    hide CoversLoss;
    RankInClosed(init, step, was, n, r);
    if n > 0 {
      SurvivorsInside(init, step, was, now, rels, r, od, y, n - 1);
      RankInClosed(init, step, was, n - 1, r);
    }
    forall t | t in Rank(init, step, was, n) - od ensures t in y {
      if t in SetEval(init, was, {}) {
        InitSurvives(init, step, was, now, rels, r, od, y, t);
      } else {
        StepSurvives(init, step, was, now, rels, r, od, y, Rank(init, step, was, n - 1), t);
      }
    }
  }

  lemma InitSurvives(init: Query, step: Query, was: SetDb, now: SetDb, rels: seq<RelId>, r: set<Tuple>, od: set<Tuple>,
                     y: set<Tuple>, t: Tuple)
    requires IsPositive(init) && IsPositive(step) && LossesApart(init, was, now, rels)
    requires forall p <- RelsOf(init) :: p in rels
    requires CoversLoss(init, step, was, now, rels, r, od) && Closed(init, step, now, y)
    requires t in SetEval(init, was, {}) && t in r && t !in od
    ensures t in y
  {
    hide SetEval;
    assert forall p <- rels :: SeedsIn(init, step, was, now, p, r, od);
    KeptStands(init, was, now, rels, {}, {}, t);
  }

  lemma StepSurvives(init: Query, step: Query, was: SetDb, now: SetDb, rels: seq<RelId>, r: set<Tuple>, od: set<Tuple>,
                     y: set<Tuple>, x: set<Tuple>, t: Tuple)
    requires IsPositive(init) && IsPositive(step) && IsLinear(step) && LossesApart(step, was, now, rels)
    requires forall p <- RelsOf(step) :: p in rels
    requires CoversLoss(init, step, was, now, rels, r, od) && Closed(init, step, now, y)
    requires x <= r && x - od <= y
    requires t in SetEval(step, was, x) && t in r && t !in od
    ensures t in y
  {
    hide SetEval, SeedsIn, LossesApart, IsLinear;
    LossPropagates(step, was, r, od, x, t);
    forall p | p in rels && Deleted(was, now, p) != {}
      ensures t !in SetEval(step, was[p := Deleted(was, now, p)], x - od) {
      NoSeedReaches(init, step, was, now, p, r, od, x - od, t);
    }
    KeptStands(step, was, now, rels, x - od, y, t);
  }

  /** A fact no lost row of `p` reaches from all of `r` is reached from no part of it. */
  lemma NoSeedReaches(init: Query, step: Query, was: SetDb, now: SetDb, p: RelId, r: set<Tuple>, od: set<Tuple>,
                      x: set<Tuple>, t: Tuple)
    requires IsPositive(init) && IsPositive(step) && SeedsIn(init, step, was, now, p, r, od) &&
      Deleted(was, now, p) != {}
    requires x <= r && t in r && t !in od
    ensures t !in SetEval(step, was[p := Deleted(was, now, p)], x)
  {
    hide SetEval, Deleted;
    SetEvalMonotone(step, was[p := Deleted(was, now, p)], was[p := Deleted(was, now, p)], x, r);
  }

  lemma LossPropagates(step: Query, was: SetDb, r: set<Tuple>, od: set<Tuple>, x: set<Tuple>, t: Tuple)
    requires IsPositive(step) && IsLinear(step) && (od != {} ==> SetEval(step, was, od) * r <= od)
    requires t in SetEval(step, was, x) && t in r && t !in od
    ensures t in SetEval(step, was, x - od)
  {
    hide SetEval;
    if x * od == {} {
      assert x - od == x;
    } else {
      assert (x - od) + (x * od) == x;
      StepDistributes(step, was, x - od, x * od);
      SetEvalMonotone(step, was, was, x * od, od);
    }
  }

  // ----- regrowth -----

  /** `x` is the least set closed under the plans that holds all of `start`. */
  ghost predicate LeastOver(init: Query, step: Query, d: SetDb, start: set<Tuple>, x: set<Tuple>)
    requires IsPositive(init) && IsPositive(step)
  {
    && start <= x && Closed(init, step, d, x)
    && forall y: set<Tuple> | start <= y && Closed(init, step, d, y) :: x <= y
  }

  /** Growing until nothing new appears reaches the least fixpoint exactly when it
      started inside it. */
  lemma GrownIsLeast(init: Query, step: Query, d: SetDb, start: set<Tuple>, x: set<Tuple>, fix: set<Tuple>)
    requires IsPositive(init) && IsPositive(step) && LeastFixpoint(init, step, d, fix)
    requires LeastOver(init, step, d, start, x)
    ensures x == fix <==> start <= fix
  {
    hide SetEval;
  }

  lemma RoundInside(init: Query, step: Query, was: SetDb, now: SetDb, x: set<Tuple>, y: set<Tuple>)
    requires IsPositive(init) && IsPositive(step) && x <= y
    requires Below(was, now, RelsOf(init) + RelsOf(step)) && Closed(init, step, now, y)
    ensures Derive(init, step, was, x) <= y
  {
    hide SetEval, SetReturns;
    SetEvalMonotone(init, was, now, {}, {});
    SetEvalMonotone(step, was, now, x, y);
  }

  /** When no base row is lost, the old fixpoint is already inside the new one. */
  lemma {:induction false} GrowthInside(init: Query, step: Query, was: SetDb, now: SetDb, y: set<Tuple>, n: nat)
    requires IsPositive(init) && IsPositive(step)
    requires Below(was, now, RelsOf(init) + RelsOf(step)) && Closed(init, step, now, y)
    ensures Rank(init, step, was, n) <= y
  {
    hide SetEval, Below, Closed;
    if n > 0 {
      GrowthInside(init, step, was, now, y, n - 1);
      RoundInside(init, step, was, now, Rank(init, step, was, n - 1), y);
    } else {
      RoundInside(init, step, was, now, {}, y);
    }
  }

  /** Pairs `(a, b)` and `(b, c)` of one relation, joined with itself. */
  function TwoHops(): Query {
    Join(Rel(0), Rel(0), [1], [0])
  }

  lemma KeysOf(x: Tuple, y: Tuple)
    requires |x| == 2 && |y| == 2
    ensures KeysMatch(x, [1], y, [0]) <==> x[1] == y[0]
  {
    assert Cells(x, [1]).value == [x[1]];
    assert Cells(y, [0]).value == [y[0]];
    if KeysMatch(x, [1], y, [0]) {
      assert Cells(x, [1]).value[0] == Cells(y, [0]).value[0];
    }
  }

  /** A relation that lost a row stands on both sides of a join: holding only its lost
      rows on both sides hides a derivation that used one lost row and one kept row. So
      nothing is overdeleted, and the stale fact is where regrowth starts. */
  lemma SelfJoinHidesALoss(was: SetDb, now: SetDb, rels: seq<RelId>)
    requires forall p <- rels :: p == 0 || p == 1
    requires Contents(was, 0) == {FIRST_HOP, SECOND_HOP} && Contents(was, 1) == {}
    requires Contents(now, 0) == {SECOND_HOP} && Contents(now, 1) == {}
    ensures !Apart(TwoHops(), 0) && Deleted(was, now, 0) == {FIRST_HOP}
    ensures LeastFixpoint(TwoHops(), Rel(1), was, {FIRST_HOP + SECOND_HOP})
    ensures LeastFixpoint(TwoHops(), Rel(1), now, {})
    ensures Overdeletion(TwoHops(), Rel(1), was, now, rels, {FIRST_HOP + SECOND_HOP}) == {}
  {
    var r := {FIRST_HOP + SECOND_HOP};
    Hops();
    TwoHopsOver(was);
    TwoHopsOver(now);
    TwoHopsOver(was[0 := {FIRST_HOP}]);
    assert Contents(was, 0) - Contents(now, 0) == {FIRST_HOP};
    OnlyInit(TwoHops(), was);
    OnlyInit(TwoHops(), now);
    assert SetEval(Rel(1), was[0 := {FIRST_HOP}], r) == Contents(was[0 := {FIRST_HOP}], 1) == {};
    assert Deleted(was, now, 1) == {};
    hide SetEval, JoinSets;
    assert CoversLoss(TwoHops(), Rel(1), was, now, rels, r, {});
    LeastCover(TwoHops(), Rel(1), was, now, rels, r, {});
  }

  lemma TwoHopsOver(d: SetDb)
    ensures SetEval(TwoHops(), d, {}) == JoinSets(Contents(d, 0), [1], Contents(d, 0), [0])
  {
    hide JoinSets;
  }

  const FIRST_HOP: Tuple := [Int(1), Int(2)]
  const SECOND_HOP: Tuple := [Int(2), Int(3)]

  /** Only the first hop followed by the second makes two. */
  lemma Hops()
    ensures JoinSets({FIRST_HOP}, [1], {FIRST_HOP}, [0]) == {}
    ensures JoinSets({SECOND_HOP}, [1], {SECOND_HOP}, [0]) == {}
    ensures JoinSets({FIRST_HOP, SECOND_HOP}, [1], {FIRST_HOP, SECOND_HOP}, [0]) == {FIRST_HOP + SECOND_HOP}
  {
    var x, y := FIRST_HOP, SECOND_HOP;
    KeysOf(x, x);
    KeysOf(x, y);
    KeysOf(y, x);
    KeysOf(y, y);
  }

  lemma OnlyInit(init: Query, d: SetDb)
    requires IsPositive(init) && Contents(d, 1) == {}
    ensures LeastFixpoint(init, Rel(1), d, SetEval(init, d, {}))
  {
  }
}
