/** The substrate contract the engine reads through: a raw log of updates, and
    the reads defined from it. */
module Traces {
  import opened Values
  import opened Multisets
  import opened Plans

  datatype Update = Update(rel: RelId, tuple: Tuple, edition: nat, diff: int)

  /** A store is its log. `touched(rel, from, to)` is its answer to the routing
      question, which may be an over-eager `true`. */
  datatype Store = Store(log: seq<Update>, current: nat, touched: (RelId, nat, nat) -> bool)

  /** The updates of `rel` with edition in `(lo, hi]`, in log order. */
  function Window(log: seq<Update>, rel: RelId, lo: int, hi: int): seq<(Tuple, int)> {
    if log == [] then [] else
    var u := log[|log| - 1];
    var rest := Window(log[..|log| - 1], rel, lo, hi);
    if u.rel == rel && lo < u.edition <= hi then rest + [(u.tuple, u.diff)] else rest
  }

  function ScanUpdates(s: Store, rel: RelId, from: nat, to: nat): seq<(Tuple, int)> {
    Window(s.log, rel, from, to)
  }

  /** The relation at `at`: every update up to that edition, consolidated. */
  function ReadAt(s: Store, rel: RelId, at: nat): Multiset {
    Tally(Window(s.log, rel, -1, at))
  }

  function Relations(log: seq<Update>): set<RelId> {
    set u | u in log :: u.rel
  }

  function Snapshot(s: Store, at: nat): Db {
    map r | r in Relations(s.log) :: ReadAt(s, r, at)
  }

  /** The rows whose weight differs between two editions. */
  function Changed(s: Store, rel: RelId, a: nat, b: nat): set<Tuple> {
    set t | t in ReadAt(s, rel, a).Keys + ReadAt(s, rel, b).Keys && W(ReadAt(s, rel, a), t) != W(ReadAt(s, rel, b), t)
  }

  /** The rows whose column `col` is one of `keys`. */
  function Lookup(s: Store, rel: RelId, at: nat, col: nat, keys: set<Value>): Multiset {
    Keep(ReadAt(s, rel, at), t => col < |t| && t[col] in keys)
  }

  /** The rows whose span, columns 0 and 1, contains one of `points`. */
  function ReadContaining(s: Store, rel: RelId, at: nat, points: set<Value>): Multiset {
    Keep(ReadAt(s, rel, at), t => 1 < |t| && exists p <- points :: ValueLeq(t[0], p) && ValueLeq(p, t[1]))
  }

  /** A `false` from `touched` proves no change, and the log is complete. */
  ghost predicate Valid(s: Store) {
    && (forall rel, from, to :: from <= to && !s.touched(rel, from, to) ==> ReadAt(s, rel, from) == ReadAt(s, rel, to))
    && (forall u <- s.log :: u.edition <= s.current)
  }

  lemma {:induction false} UnwrittenRelation(log: seq<Update>, rel: RelId, lo: int, hi: int)
    requires rel !in Relations(log)
    ensures Window(log, rel, lo, hi) == []
  {
    if log != [] {
      assert log[|log| - 1] in log;
      assert forall u <- log[..|log| - 1] :: u in log;
      UnwrittenRelation(log[..|log| - 1], rel, lo, hi);
    }
  }

  lemma SnapshotReads(s: Store, rel: RelId, at: nat)
    ensures Read(Snapshot(s, at), rel) == ReadAt(s, rel, at)
  {
    if rel !in Relations(s.log) {
      UnwrittenRelation(s.log, rel, -1, at);
    }
  }

  lemma {:induction false} WindowSplit(log: seq<Update>, rel: RelId, lo: int, mid: int, hi: int, t: Tuple)
    requires lo <= mid <= hi
    ensures W(Tally(Window(log, rel, lo, hi)), t)
         == W(Tally(Window(log, rel, lo, mid)), t) + W(Tally(Window(log, rel, mid, hi)), t)
  {
    if log != [] {
      hide Tally, W, Window;
      WindowSplit(log[..|log| - 1], rel, lo, mid, hi, t);
      WindowLast(log, rel, lo, hi, t);
      WindowLast(log, rel, lo, mid, t);
      WindowLast(log, rel, mid, hi, t);
    }
  }

  lemma WindowLast(log: seq<Update>, rel: RelId, lo: int, hi: int, t: Tuple)
    requires log != []
    ensures var u := log[|log| - 1];
      W(Tally(Window(log, rel, lo, hi)), t)
        == W(Tally(Window(log[..|log| - 1], rel, lo, hi)), t)
         + if u.rel == rel && lo < u.edition <= hi && t == u.tuple then u.diff else 0
  {
    hide Tally, W;
    var u := log[|log| - 1];
    TallySnoc(Window(log[..|log| - 1], rel, lo, hi), u.tuple, u.diff, t);
  }

  lemma TallySnoc(pairs: seq<(Tuple, int)>, u: Tuple, diff: int, t: Tuple)
    ensures W(Tally(pairs + [(u, diff)]), t) == W(Tally(pairs), t) + if t == u then diff else 0
  {
    var all := pairs + [(u, diff)];
    assert all[..|all| - 1] == pairs;
  }

  /** The updates of an interval sum to the difference of the states at its ends. */
  lemma ScanIsDifference(s: Store, rel: RelId, from: nat, to: nat)
    requires from <= to
    ensures Tally(ScanUpdates(s, rel, from, to)) == Minus(ReadAt(s, rel, to), ReadAt(s, rel, from))
  {
    forall t ensures W(Tally(ScanUpdates(s, rel, from, to)), t) ==
      W(Minus(ReadAt(s, rel, to), ReadAt(s, rel, from)), t) {
      WindowSplit(s.log, rel, -1, from, to, t);
    }
    SameWeights(Tally(ScanUpdates(s, rel, from, to)), Minus(ReadAt(s, rel, to), ReadAt(s, rel, from)));
  }

  /** What one more update adds to a relation. */
  lemma ReadOneMore(log: seq<Update>, u: Update, rel: RelId, at: nat, t: Tuple)
    ensures W(Tally(Window(log + [u], rel, -1, at)), t)
         == W(Tally(Window(log, rel, -1, at)), t) + if u.rel == rel && u.edition <= at && t == u.tuple
           then u.diff else 0
  {
    assert (log + [u])[..|log + [u]| - 1] == log;
    TallySnoc(Window(log, rel, -1, at), u.tuple, u.diff, t);
  }
}
