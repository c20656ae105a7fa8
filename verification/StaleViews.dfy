/** A maintained view that goes stale: a relation joined with itself loses a row, and
    the fact that rested on it stays. */
module StaleViews {
  import opened Values
  import opened Multisets
  import opened Plans
  import opened Traces
  import opened Deltas
  import opened Positive
  import opened Fixpoints
  import opened Recursive

  /** Two hops written first, and the first one taken back. */
  function HopStore(): Store {
    var log := [Update(0, FIRST_HOP, 0, 1), Update(0, SECOND_HOP, 0, 1), Update(0, FIRST_HOP, 1, -1)];
    Store(log, 1, (rel, from, to) => true)
  }

  lemma HopReads(rel: RelId, at: nat)
    requires rel <= 1 && at <= 1
    ensures ReadAt(HopStore(), rel, at)
         == if rel == 1 then map[] else if at == 0 then map[FIRST_HOP := 1, SECOND_HOP := 1] else map[SECOND_HOP := 1]
  {
    var m: Multiset :=
      if rel == 1 then map[] else if at == 0 then map[FIRST_HOP := 1, SECOND_HOP := 1] else map[SECOND_HOP := 1];
    forall t ensures W(ReadAt(HopStore(), rel, at), t) == W(m, t) {
      HopWeight(rel, at, t);
    }
    SameWeights(ReadAt(HopStore(), rel, at), m);
  }

  lemma HopWeight(rel: RelId, at: nat, t: Tuple)
    requires rel <= 1 && at <= 1
    ensures W(ReadAt(HopStore(), rel, at), t)
         == if rel == 0 && (t == SECOND_HOP || (t == FIRST_HOP && at == 0)) then 1 else 0
  {
    hide W, Tally, Window;
    var a, b, c := Update(0, FIRST_HOP, 0, 1), Update(0, SECOND_HOP, 0, 1), Update(0, FIRST_HOP, 1, -1);
    ReadOneMore([], a, rel, at, t);
    ReadOneMore([a], b, rel, at, t);
    ReadOneMore([a, b], c, rel, at, t);
    assert [] + [a] == [a] && [a] + [b] == [a, b] && [a, b] + [c] == HopStore().log;
    NothingRead(rel, at, t);
  }

  lemma NothingRead(rel: RelId, at: nat, t: Tuple)
    ensures W(Tally(Window([], rel, -1, at)), t) == 0
  {
  }

  lemma HopContents(at: nat)
    requires at <= 1
    ensures var d := HopBase(at);
      && NonNegativeDb(Snapshot(HopStore(), at)) && Contents(d, 1) == {}
      && Contents(d, 0) == if at == 0 then {FIRST_HOP, SECOND_HOP} else {SECOND_HOP}
  {
    hide ReadAt;
    var s := HopStore();
    HopReads(0, at);
    HopReads(1, at);
    SnapshotReads(s, 0, at);
    SnapshotReads(s, 1, at);
    SupportsRead(Snapshot(s, at), 0);
    SupportsRead(Snapshot(s, at), 1);
  }

  const PAIR: Tuple := FIRST_HOP + SECOND_HOP

  ghost function HopBase(at: nat): SetDb {
    Supports(Snapshot(HopStore(), at))
  }

  /** What the recursion gives at each edition, as a set: the pair, then nothing. */
  lemma HopFixpoints()
    ensures LeastFixpoint(TwoHops(), Rel(1), HopBase(0), {PAIR})
    ensures LeastFixpoint(TwoHops(), Rel(1), HopBase(1), {})
    ensures SetReturns(TwoHops(), HopBase(0), {}) && SetReturns(Rel(1), HopBase(0), {PAIR})
    ensures SetReturns(TwoHops(), HopBase(1), {}) && SetReturns(Rel(1), HopBase(1), {})
    ensures SetReturns(Rel(1), HopBase(1), {PAIR})
  {
    hide Snapshot, Supports, SetEval, SetReturns, LeastFixpoint;
    HopContents(0);
    HopContents(1);
    SelfJoinHidesALoss(HopBase(0), HopBase(1), [0, 1]);
    HopsReturn(HopBase(0));
    HopsReturn(HopBase(1));
  }

  lemma HopsReturn(d: SetDb)
    requires forall t <- Contents(d, 0) :: |t| == 2
    ensures SetReturns(TwoHops(), d, {}) && forall u :: SetReturns(Rel(1), d, u)
  {
    assert forall t <- Contents(d, 0) :: Cells(t, [0]).Some? && Cells(t, [1]).Some?;
  }

  /** A least fixpoint whose plans return is the value of the loop. */
  lemma FixpointIsValue(init: Query, step: Query, db: Db, fix: set<Tuple>, m: Multiset)
    requires IsPositive(init) && IsPositive(step) && NonNegativeDb(db)
    requires LeastFixpoint(init, step, Supports(db), fix)
    requires SetReturns(init, Supports(db), {}) && SetReturns(step, Supports(db), fix)
    requires IsSet(m) && m.Keys == fix
    ensures Eval(Iterate(init, step), db, map[]) == Some(m)
  {
    hide Eval, SetEval, SetReturns;
    assert Closed(init, step, Supports(db), fix);
    IterateReturnsIff(init, step, db);
    IterateIsLeast(init, step, db);
    var got := Eval(Iterate(init, step), db, map[]).value;
    LeastFixpointUnique(init, step, Supports(db), got.Keys, fix);
    SetsEqual(got, m);
  }

  /** The two hops mean something at both editions, and what. */
  lemma HopMeanings()
    ensures Meaning(Iterate(TwoHops(), Rel(1)), HopStore(), 0) == Some(map[PAIR := 1])
    ensures Meaning(Iterate(TwoHops(), Rel(1)), HopStore(), 1) == Some(map[])
  {
    hide Eval, SetReturns, LeastFixpoint, HopStore, Supports, Snapshot;
    HopContents(0);
    HopContents(1);
    HopFixpoints();
    var pair: Multiset := map[PAIR := 1];
    var none: Multiset := map[];
    assert pair.Keys == {PAIR} && none.Keys == {};
    FixpointIsValue(TwoHops(), Rel(1), Snapshot(HopStore(), 0), {PAIR}, pair);
    FixpointIsValue(TwoHops(), Rel(1), Snapshot(HopStore(), 1), {}, none);
  }

  /** Nothing is overdeleted, and the pair is closed over what is left. */
  lemma NothingGoesFrom(v: IncrementalFixpoint)
    requires v.init == TwoHops() && v.step == Rel(1) && v.baseRels == CollectRels(TwoHops()) + CollectRels(Rel(1))
    requires v.at == 0 && v.r.Keys == {PAIR}
    ensures v.Maintainable() && v.Survivors(HopStore(), 1) == {PAIR} && v.CanGrow(HopStore(), 1)
  {
    hide Snapshot, Supports, SetEval, SetReturns, LeastFixpoint, HopStore, Overdeletion, Closed;
    HopContents(0);
    HopContents(1);
    HopFixpoints();
    PairIsClosed();
    SelfJoinHidesALoss(HopBase(0), HopBase(1), v.baseRels);
    hide HopBase;
    assert v.Bounds(HopStore(), 1, {PAIR}, {PAIR});
  }

  lemma PairIsClosed()
    ensures Closed(TwoHops(), Rel(1), HopBase(1), {PAIR})
  {
    hide Snapshot, Supports, SetEval, HopStore;
    HopContents(1);
    TwoHopsOver(HopBase(1));
    Hops();
    OneRelation(HopBase(1));
  }

  /** The pair is the least set over itself. */
  lemma OnlyThePair(fix: set<Tuple>)
    requires LeastOver(TwoHops(), Rel(1), HopBase(1), {PAIR}, fix)
    ensures fix == {PAIR}
  {
    hide Closed, HopBase;
    PairIsClosed();
  }

  lemma OneRelation(d: SetDb)
    ensures SetEval(Rel(1), d, {PAIR}) == Contents(d, 1)
  {
  }

  /** A view of the two hops, moved past the loss of the first: it still holds the pair,
      and the full recursion holds nothing. */
  method StaleView() returns (v: IncrementalFixpoint)
    ensures v.init == TwoHops() && v.step == Rel(1) && v.at == 1 == HopStore().current
    ensures v.r == map[PAIR := 1]
    ensures Meaning(Iterate(v.init, v.step), HopStore(), 1) == Some(map[])
  {
    hide Meaning, Snapshot, Supports, NonNegativeDb, SetEval, SetReturns, Overdeletion, Closed, LeastOver;
    hide IncrementalFixpoint.Survivors, IncrementalFixpoint.CanGrow, IncrementalFixpoint.Separable,
      IncrementalFixpoint.Wanted, IncrementalFixpoint.NothingLost, Minus, W, IsSet;
    assert NonNegativeDb(Snapshot(HopStore(), 0)) && NonNegativeDb(Snapshot(HopStore(), 1)) by {
      HopContents(0);
      HopContents(1);
    }
    HopMeanings();
    v := new IncrementalFixpoint(TwoHops(), Rel(1), HopStore(), 0);
    NothingGoesFrom(v);
    hide IncrementalFixpoint.Maintainable;
    var _ := v.Advance(HopStore(), 1);
    assert HopBase(1) == v.Base(HopStore(), 1);
    OnlyThePair(v.r.Keys);
    SetsEqual(v.r, map[PAIR := 1]);
  }
}
