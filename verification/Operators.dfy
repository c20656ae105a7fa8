/** The operators as the engine runs them: loops that fill hash maps, each proved
    to compute the multiset its meaning names, and the evaluator built from them. */
module Operators {
  import opened Values
  import opened Multisets
  import opened Plans

  // ----- row-by-row operators -----

  /** Push every row through `g` and sum what comes out. */
  method PushRows(child: Multiset, g: Tuple -> Option<Tuple>) returns (out: Multiset)
    ensures out == Image(child, g)
  {
    hide Spread, Spreading, Added;
    ghost var k := Single(g);
    var acc: map<Tuple, int> := map[];
    var todo := child.Keys;
    SpreadStart(child, k);
    assert child.Keys - todo == {};
    while todo != {}
      invariant todo <= child.Keys && Spreading(acc, child, k, child.Keys - todo)
      decreases todo
    {
      var x :| x in todo;
      ghost var before := acc;
      match g(x) {
        case None =>
        case Some(t) => acc := Add(acc, t, child[x]);
      }
      SingleAdded(before, acc, g, x, child[x]);
      SpreadStep(before, acc, child, k, child.Keys - todo, x);
      assert child.Keys - (todo - {x}) == child.Keys - todo + {x};
      todo := todo - {x};
    }
    assert child.Keys - todo == child.Keys;
    out := StripZeros(acc);
    SpreadDone(acc, child, k);
  }

  // ----- join -----

  ghost predicate Distinctly(ts: seq<Tuple>) {
    forall i, j | 0 <= i < j < |ts| :: ts[i] != ts[j]
  }

  ghost function AsSet(ts: seq<Tuple>): set<Tuple> {
    set t | t in ts
  }

  lemma AsSetSnoc(ts: seq<Tuple>, i: nat)
    requires i < |ts| && Distinctly(ts)
    ensures AsSet(ts[..i + 1]) == AsSet(ts[..i]) + {ts[i]} && ts[i] !in AsSet(ts[..i])
  {
    assert ts[..i + 1] == ts[..i] + [ts[i]];
  }

  /** `bucket` lists exactly the rows of `m` whose key is `k`, each once. */
  ghost predicate Bucket(bucket: seq<Tuple>, rows: set<Tuple>, cols: seq<nat>, k: Tuple) {
    && Distinctly(bucket)
    && forall y :: y in bucket <==> y in rows && Cells(y, cols) == Some(k)
  }

  /** `idx` buckets `rows` by key, with a bucket for a key exactly when some row has it. */
  ghost predicate Indexes(idx: map<Tuple, seq<Tuple>>, rows: set<Tuple>, cols: seq<nat>) {
    && (forall k <- idx :: Bucket(idx[k], rows, cols, k))
    && (forall y <- rows :: Cells(y, cols).Some? ==> Cells(y, cols).value in idx)
  }

  /** Bucket rows by key. */
  method BucketRows(rows: set<Tuple>, cols: seq<nat>) returns (idx: map<Tuple, seq<Tuple>>)
    requires forall t <- rows :: Cells(t, cols).Some?
    ensures Indexes(idx, rows, cols)
    ensures forall k <- idx :: idx[k] != []
  {
    idx := map[];
    var todo := rows;
    while todo != {}
      invariant todo <= rows
      invariant Indexes(idx, rows - todo, cols)
      invariant forall k <- idx :: idx[k] != []
      decreases todo
    {
      var y :| y in todo;
      ghost var was := idx;
      var k := Cells(y, cols).value;
      idx := idx[k := (if k in idx then idx[k] else []) + [y]];
      IndexGrows(was, idx, rows - todo, cols, y);
      assert rows - (todo - {y}) == rows - todo + {y};
      todo := todo - {y};
    }
    assert rows - {} == rows;
  }

  lemma IndexGrows(was: map<Tuple, seq<Tuple>>, idx: map<Tuple, seq<Tuple>>, rows: set<Tuple>, cols: seq<nat>, y: Tuple)
    requires Indexes(was, rows, cols) && y !in rows && Cells(y, cols).Some?
    requires idx ==
      was[Cells(y, cols).value := (if Cells(y, cols).value in was then was[Cells(y, cols).value] else []) + [y]]
    ensures Indexes(idx, rows + {y}, cols)
  {
    var k := Cells(y, cols).value;
    forall j | j in idx ensures Bucket(idx[j], rows + {y}, cols, j) {
      if j in was {
        assert Bucket(was[j], rows, cols, j);
      }
      if j == k && k !in was {
        assert forall z <- rows :: Cells(z, cols) != Some(k);
      }
    }
  }

  /** The weight at `t` that the right rows in `done` contribute to a left row of weight `w`. */
  ghost function ProbeWeight(right: Multiset, g: Tuple -> Option<Tuple>, w: int, done: set<Tuple>, t: Tuple): int {
    Sum(done, y => Times(w, Times(W(right, y), W(Single(g)(y), t))))
  }

  lemma ProbeStep(right: Multiset, g: Tuple -> Option<Tuple>, w: int, done: set<Tuple>, y: Tuple, t: Tuple)
    requires y in right && y !in done
    ensures ProbeWeight(right, g, w, done + {y}, t)
         == ProbeWeight(right, g, w, done, t) + if g(y) == Some(t) then Times(w, right[y]) else 0
  {
    SumInsert(done, y => Times(w, Times(W(right, y), W(Single(g)(y), t))), y);
    SingleWeight(g, y, t, right[y]);
    TimesLaws(w, 0, w);
  }

  /** The rows outside a bucket that holds every match contribute nothing. */
  lemma ProbeTotal(right: Multiset, g: Tuple -> Option<Tuple>, w: int, done: set<Tuple>, t: Tuple)
    requires done <= right.Keys
    requires forall y <- right.Keys - done :: g(y) == None
    ensures ProbeWeight(right, g, w, done, t) == Times(w, W(Image(right, g), t))
  {
    hide Times;
    var f := y => Times(W(right, y), W(Single(g)(y), t));
    forall y | y in right.Keys - done ensures f(y) == 0 {
      SingleWeight(g, y, t, right[y]);
    }
    SumWiden(done, right.Keys, f);
    SumScale(done, f, y => Times(w, f(y)), w);
    SumAgree(done, y => Times(w, f(y)), y => Times(w, Times(W(right, y), W(Single(g)(y), t))));
  }

  /** Join one left row, of weight `w`, with the bucket of right rows that share its key. */
  method JoinRow(acc: map<Tuple, int>, x: Tuple, w: int, bucket: seq<Tuple>, right: Multiset, lk: seq<nat>,
                 rk: seq<nat>)
    returns (out: map<Tuple, int>)
    requires Cells(x, lk).Some? && Bucket(bucket, right.Keys, rk, Cells(x, lk).value)
    ensures forall t :: W(out, t) == W(acc, t) + Times(w, W(Image(right, Pairing(x, lk, rk)), t))
  {
    hide Image;
    hide ProbeWeight;
    out := acc;
    ghost var g := Pairing(x, lk, rk);
    assert AsSet(bucket[..0]) == {};
    forall t ensures ProbeWeight(right, g, w, AsSet(bucket[..0]), t) == 0 {
      EmptyProbe(right, g, w, t);
    }
    for i := 0 to |bucket|
      invariant forall t :: W(out, t) == W(acc, t) + ProbeWeight(right, g, w, AsSet(bucket[..i]), t)
    {
      var y := bucket[i];
      assert y in bucket;
      AsSetSnoc(bucket, i);
      forall t ensures ProbeWeight(right, g, w, AsSet(bucket[..i + 1]), t)
                    == ProbeWeight(right, g, w, AsSet(bucket[..i]), t) + if t == x + y then Times(w, right[y]) else 0 {
        ProbeStep(right, g, w, AsSet(bucket[..i]), y, t);
      }
      out := Add(out, x + y, Times(w, right[y]));
    }
    assert bucket[..|bucket|] == bucket;
    forall t ensures W(out, t) == W(acc, t) + Times(w, W(Image(right, g), t)) {
      ProbeTotal(right, g, w, AsSet(bucket), t);
    }
  }

  lemma EmptyProbe(right: Multiset, g: Tuple -> Option<Tuple>, w: int, t: Tuple)
    ensures ProbeWeight(right, g, w, {}, t) == 0
  {
  }

  /** Join one left row with the right rows the index holds under its key, if any. */
  method Probe(acc: map<Tuple, int>, x: Tuple, w: int, idx: map<Tuple, seq<Tuple>>, right: Multiset, lk: seq<nat>,
               rk: seq<nat>)
    returns (out: map<Tuple, int>)
    requires Cells(x, lk).Some? && Indexes(idx, right.Keys, rk)
    ensures Added(acc, out, w, Image(right, Pairing(x, lk, rk)))
  {
    var key := Cells(x, lk).value;
    if key in idx {
      out := JoinRow(acc, x, w, idx[key], right, lk, rk);
    } else {
      out := acc;
      NoPartner(x, w, right, lk, rk);
    }
  }

  /** Probe the index with every left row. */
  method ProbeAll(left: Multiset, lk: seq<nat>, idx: map<Tuple, seq<Tuple>>, right: Multiset, rk: seq<nat>)
    returns (acc: map<Tuple, int>)
    requires AllFit(left, lk) && Indexes(idx, right.Keys, rk)
    ensures Spreading(acc, left, Matches(right, lk, rk), left.Keys)
  {
    hide Indexes, Spreading, Added, Image, Matches;
    acc := map[];
    ghost var k := Matches(right, lk, rk);
    var todo := left.Keys;
    SpreadStart(left, k);
    assert left.Keys - todo == {};
    while todo != {}
      invariant todo <= left.Keys && Spreading(acc, left, k, left.Keys - todo)
      decreases todo
    {
      var x :| x in todo;
      ghost var before := acc;
      acc := Probe(acc, x, left[x], idx, right, lk, rk);
      MatchesAt(right, lk, rk, x);
      SpreadStep(before, acc, left, k, left.Keys - todo, x);
      assert left.Keys - (todo - {x}) == left.Keys - todo + {x};
      todo := todo - {x};
    }
    assert left.Keys - todo == left.Keys;
  }

  lemma MatchesAt(b: Multiset, lk: seq<nat>, rk: seq<nat>, x: Tuple)
    ensures Matches(b, lk, rk)(x) == Image(b, Pairing(x, lk, rk))
  {
    hide Image;
  }

  /** The multiset join: index the right side by key, then probe with each left row. */
  method JoinMultisets(left: Multiset, lk: seq<nat>, right: Multiset, rk: seq<nat>) returns (out: Multiset)
    requires AllFit(left, lk) && AllFit(right, rk)
    ensures out == JoinOf(left, lk, right, rk)
  {
    var idx := BucketRows(right.Keys, rk);
    var acc := ProbeAll(left, lk, idx, right, rk);
    out := StripZeros(acc);
    SpreadDone(acc, left, Matches(right, lk, rk));
  }

  /** `acc` holds what the rows in `done` give: a part of `Spread(m, k)`. */
  ghost predicate Spreading(acc: map<Tuple, int>, m: Multiset, k: Tuple -> Multiset, done: set<Tuple>) {
    forall t :: W(acc, t) == PartWeight(m, k, done, t)
  }

  /** `after` is `before` with a row of weight `w` replaced by `part`. */
  ghost predicate Added(before: map<Tuple, int>, after: map<Tuple, int>, w: int, part: Multiset) {
    forall t :: W(after, t) == W(before, t) + Times(w, W(part, t))
  }

  lemma SpreadStart(m: Multiset, k: Tuple -> Multiset)
    ensures Spreading(map[], m, k, {})
  {
    hide Times;
  }

  lemma SpreadDone(acc: map<Tuple, int>, m: Multiset, k: Tuple -> Multiset)
    requires Spreading(acc, m, k, m.Keys)
    ensures StripZeros(acc) == Spread(m, k)
  {
    hide Times;
    SameWeights(StripZeros(acc), Spread(m, k));
  }

  /** Adding row `x`'s share to a partial sum over `done` gives the partial sum over one row more. */
  lemma SpreadStep(before: map<Tuple, int>, after: map<Tuple, int>, m: Multiset, k: Tuple -> Multiset, done: set<Tuple>,
                   x: Tuple)
    requires x in m && x !in done
    requires Spreading(before, m, k, done) && Added(before, after, m[x], k(x))
    ensures Spreading(after, m, k, done + {x})
  {
    hide Times;
    forall t ensures W(after, t) == PartWeight(m, k, done + {x}, t) {
      SumInsert(done, x => Times(W(m, x), W(k(x), t)), x);
    }
  }

  /** The share of the rows in `done` of the weight `Spread(m, k)` gives `t`. */
  ghost function PartWeight(m: Multiset, k: Tuple -> Multiset, done: set<Tuple>, t: Tuple): int {
    Sum(done, x => Times(W(m, x), W(k(x), t)))
  }

  lemma NoPartner(x: Tuple, w: int, right: Multiset, lk: seq<nat>, rk: seq<nat>)
    requires forall y <- right :: !KeysMatch(x, lk, y, rk)
    ensures forall t :: Times(w, W(Image(right, Pairing(x, lk, rk)), t)) == 0
  {
    var g := Pairing(x, lk, rk);
    forall t ensures Times(w, W(Image(right, g), t)) == 0 {
      var f := y => Times(W(right, y), W(Single(g)(y), t));
      forall y | y in right ensures f(y) == 0 {
        SingleWeight(g, y, t, right[y]);
      }
      SumZero(right.Keys, f);
      TimesLaws(w, 0, w);
    }
  }

  // ----- aggregates -----

  lemma WrapAdd(a: int, b: int)
    ensures Wrap64(Wrap64(a) + b) == Wrap64(a + b)
    ensures Wrap64(0) == 0
  {
  }

  lemma LeastUnique(u: Value, v: Value, vs: set<Value>)
    requires IsLeast(u, vs) && IsLeast(v, vs)
    ensures u == v
  {
  }

  lemma GreatestUnique(u: Value, v: Value, vs: set<Value>)
    requires IsGreatest(u, vs) && IsGreatest(v, vs)
    ensures u == v
  {
  }

  /** Fold a non-empty group, in the order its members are listed. */
  method FoldAgg(members: seq<Tuple>, agg: Agg) returns (v: Value)
    requires members != [] && Distinctly(members)
    requires forall t <- members :: AggFits(agg, t)
    ensures v == AggOf(AsSet(members), agg)
  {
    match agg {
      case Count =>
        DistinctSize(members);
        v := Int(|members|);
      case Total(c) =>
        v := FoldTotal(members, c);
      case Min(c) =>
        v := FoldMin(members, c);
        LeastIs(AsSet(members), c, v);
      case Max(c) =>
        v := FoldMax(members, c);
        GreatestIs(AsSet(members), c, v);
    }
  }

  lemma {:induction false} DistinctSize(ts: seq<Tuple>)
    requires Distinctly(ts)
    ensures |AsSet(ts)| == |ts|
  {
    if ts != [] {
      var n := |ts| - 1;
      AsSetSnoc(ts, n);
      assert ts[..n + 1] == ts;
      DistinctSize(ts[..n]);
    }
  }

  lemma LeastIs(s: set<Tuple>, c: nat, v: Value)
    requires IsLeast(v, Column(s, c))
    ensures AggOf(s, Min(c)) == v
  {
    var u := AggOf(s, Min(c));
    LeastUnique(u, v, Column(s, c));
  }

  lemma GreatestIs(s: set<Tuple>, c: nat, v: Value)
    requires IsGreatest(v, Column(s, c))
    ensures AggOf(s, Max(c)) == v
  {
    var u := AggOf(s, Max(c));
    GreatestUnique(u, v, Column(s, c));
  }

  lemma TotalIs(s: set<Tuple>, c: nat, f: Tuple -> int)
    requires forall t :: f(t) == IntCell(t, c)
    ensures AggOf(s, Total(c)) == Int(Wrap64(Sum(s, f)))
  {
    hide Wrap64;
    hide IntCell;
    SumAgree(s, f, t => IntCell(t, c));
  }

  method FoldTotal(members: seq<Tuple>, c: nat) returns (v: Value)
    requires Distinctly(members)
    ensures v == AggOf(AsSet(members), Total(c))
  {
    hide Wrap64;
    hide AggOf;
    hide IntCell;
    var acc := 0;
    ghost var f := t => IntCell(t, c);
    WrapAdd(0, 0);
    assert AsSet(members[..0]) == {};
    hide AsSet, Distinctly;
    for i := 0 to |members|
      invariant acc == Wrap64(Sum(AsSet(members[..i]), f))
    {
      TotalStep(members, i, c, f, acc);
      acc := Wrap64(acc + IntCell(members[i], c));
    }
    assert members[..|members|] == members;
    TotalIs(AsSet(members), c, f);
    v := Int(acc);
  }

  lemma TotalStep(members: seq<Tuple>, i: nat, c: nat, f: Tuple -> int, acc: int)
    requires i < |members| && Distinctly(members) && f(members[i]) == IntCell(members[i], c)
    requires acc == Wrap64(Sum(AsSet(members[..i]), f))
    ensures Wrap64(acc + IntCell(members[i], c)) == Wrap64(Sum(AsSet(members[..i + 1]), f))
  {
    hide Sum;
    AsSetSnoc(members, i);
    hide Wrap64, IntCell, AsSet, Distinctly;
    SumInsert(AsSet(members[..i]), f, members[i]);
    WrapAdd(Sum(AsSet(members[..i]), f), IntCell(members[i], c));
  }

  method FoldMin(members: seq<Tuple>, c: nat) returns (v: Value)
    requires members != []
    ensures IsLeast(v, Column(AsSet(members), c))
  {
    v := Cell(members[0], c);
    for i := 1 to |members|
      invariant exists j | 0 <= j < i :: v == Cell(members[j], c)
      invariant forall j | 0 <= j < i :: ValueLeq(v, Cell(members[j], c))
    {
      if ValueLess(Cell(members[i], c), v) {
        v := Cell(members[i], c);
      }
    }
    var j :| 0 <= j < |members| && v == Cell(members[j], c);
    assert members[j] in AsSet(members);
  }

  method FoldMax(members: seq<Tuple>, c: nat) returns (v: Value)
    requires members != []
    ensures IsGreatest(v, Column(AsSet(members), c))
  {
    v := Cell(members[0], c);
    for i := 1 to |members|
      invariant exists j | 0 <= j < i :: v == Cell(members[j], c)
      invariant forall j | 0 <= j < i :: ValueLeq(Cell(members[j], c), v)
    {
      if !ValueLess(Cell(members[i], c), v) {
        v := Cell(members[i], c);
      }
    }
    var j :| 0 <= j < |members| && v == Cell(members[j], c);
    assert members[j] in AsSet(members);
  }

  // ----- reduce -----

  function Present(m: map<Tuple, int>): set<Tuple> {
    set t | t in m && m[t] > 0
  }

  /** The `reduce` boundary: bucket the present rows by key, then fold each bucket. */
  method ReduceSnapshot(m: map<Tuple, int>, key: seq<nat>, agg: Agg) returns (out: Multiset)
    requires ReduceFits(m, key, agg)
    ensures out == ReduceOf(m, key, agg)
  {
    hide GroupRow;
    hide Groups;
    var groups := BucketRows(Present(m), key);
    GroupsAreBuckets(m, key, groups);
    var rows := {};
    var left := groups.Keys;
    while left != {}
      invariant left <= groups.Keys
      invariant forall g <- groups.Keys - left :: GroupRow(m, key, agg, g) in rows
      invariant forall r <- rows :: exists g <- groups.Keys - left :: r == GroupRow(m, key, agg, g)
      decreases left
    {
      var g :| g in left;
      var row := FoldGroup(m, key, agg, groups[g], g);
      ghost var was := rows;
      rows := rows + {row};
      forall r | r in rows ensures exists h <- groups.Keys - (left - {g}) :: r == GroupRow(m, key, agg, h) {
        if r == row {
          assert g in groups.Keys - (left - {g});
        } else {
          var h :| h in groups.Keys - left && r == GroupRow(m, key, agg, h);
          assert h in groups.Keys - (left - {g});
        }
      }
      left := left - {g};
    }
    assert rows == set g | g in Groups(m, key) :: GroupRow(m, key, agg, g);
    out := map r | r in rows :: 1;
  }

  method FoldGroup(m: map<Tuple, int>, key: seq<nat>, agg: Agg, bucket: seq<Tuple>, g: Tuple) returns (row: Tuple)
    requires ReduceFits(m, key, agg) && bucket != [] && Bucket(bucket, Present(m), key, g)
    ensures row == GroupRow(m, key, agg, g)
  {
    BucketIsGroup(m, key, bucket, g);
    forall t | t in bucket ensures AggFits(agg, t) {
      assert t in Present(m);
    }
    var v := FoldAgg(bucket, agg);
    row := g + [v];
  }

  lemma BucketIsGroup(m: map<Tuple, int>, key: seq<nat>, bucket: seq<Tuple>, g: Tuple)
    requires Bucket(bucket, Present(m), key, g)
    ensures AsSet(bucket) == Members(m, key, g)
  {
  }

  lemma GroupsAreBuckets(m: map<Tuple, int>, key: seq<nat>, groups: map<Tuple, seq<Tuple>>)
    requires Indexes(groups, Present(m), key)
    requires forall g <- groups :: groups[g] != []
    ensures groups.Keys == Groups(m, key)
  {
    forall g | g in groups ensures g in Groups(m, key) {
      assert Bucket(groups[g], Present(m), key, g);
      assert groups[g][0] in groups[g];
    }
  }

  // ----- inherited context -----

  lemma MoreSpecificTotal(a: Scope, b: Scope)
    ensures a == b || MoreSpecific(a, b) || MoreSpecific(b, a)
  {
  }

  lemma BestUnique(a: Scope, b: Scope, scopes: set<Scope>, e: Value)
    requires IsBest(a, scopes, e) && IsBest(b, scopes, e)
    ensures a == b
  {
    MoreSpecificTotal(a, b);
  }

  lemma InheritedIs(s: Scope, scopes: set<Scope>, e: Value)
    requires IsBest(s, scopes, e)
    ensures Inherited(scopes, e) == Some(s.val)
  {
    var r: Scope :| IsBest(r, scopes, e) && Inherited(scopes, e) == Some(r.val);
    BestUnique(s, r, scopes, e);
  }

  /** The value `e` inherits: the most specific covering scope, found in one pass. */
  method BestScope(scopes: set<Scope>, e: Value) returns (v: Option<Value>)
    ensures v == Inherited(scopes, e)
    ensures v.Some? <==> exists s <- scopes :: Covers(s, e)
  {
    var best: Option<Scope> := None;
    var todo := scopes;
    while todo != {}
      invariant todo <= scopes
      invariant best.None? ==> forall u <- scopes - todo :: !Covers(u, e)
      invariant best.Some? ==> IsBest(best.value, scopes - todo, e)
      decreases todo
    {
      var s :| s in todo;
      if Covers(s, e) && (best.None? || MoreSpecific(s, best.value)) {
        best := Some(s);
      }
      todo := todo - {s};
    }
    assert scopes - todo == scopes;
    match best {
      case None => v := None;
      case Some(s) =>
        InheritedIs(s, scopes, e);
        v := Some(s.val);
    }
  }

  /** Every row extended with what its entity inherits; rows that inherit nothing are dropped. */
  method InheritRows(rows: Multiset, col: nat, scopes: set<Scope>) returns (out: Multiset)
    ensures out == InheritOf(rows, col, scopes)
  {
    hide Spread, Spreading, Added, Inherited;
    ghost var g := Extender(scopes, col);
    ghost var k := Single(g);
    var acc: map<Tuple, int> := map[];
    var todo := rows.Keys;
    SpreadStart(rows, k);
    assert rows.Keys - todo == {};
    while todo != {}
      invariant todo <= rows.Keys && Spreading(acc, rows, k, rows.Keys - todo)
      decreases todo
    {
      var row :| row in todo;
      ghost var before := acc;
      if col < |row| {
        var v := BestScope(scopes, row[col]);
        if v.Some? {
          acc := Add(acc, row + [v.value], rows[row]);
        }
      }
      SingleAdded(before, acc, g, row, rows[row]);
      SpreadStep(before, acc, rows, k, rows.Keys - todo, row);
      assert rows.Keys - (todo - {row}) == rows.Keys - todo + {row};
      todo := todo - {row};
    }
    assert rows.Keys - todo == rows.Keys;
    out := StripZeros(acc);
    SpreadDone(acc, rows, k);
  }

  /** A row pushed through `g`: its image gains its weight, if it has one. */
  lemma SingleAdded(before: map<Tuple, int>, after: map<Tuple, int>, g: Tuple -> Option<Tuple>, x: Tuple, w: int)
    requires after == match g(x) case None => before case Some(t) => Add(before, t, w)
    ensures Added(before, after, w, Single(g)(x))
  {
    hide Times, Add;
    forall t ensures W(after, t) == W(before, t) + Times(w, W(Single(g)(x), t)) {
      SingleWeight(g, x, t, w);
    }
  }

  // ----- the evaluator -----

  /** The evaluator, by recursion on the plan and a loop at each operator. It returns
      whenever the plan has a meaning, and returns that meaning. */
  method EvalInner(q: Query, db: Db, recur: Multiset) returns (out: Multiset)
    requires Eval(q, db, recur).Some?
    ensures out == Eval(q, db, recur).value
    decreases q, 1
  {
    hide Image, Spread, JoinOf, ReduceOf, ReduceFits, InheritOf, AllFit, Stage, Plus, Negated, DistinctOf, Keep, Read,
      ScopesOf, Settled, ContainsReduce, InRange, InColumnRange;
    match q {
      case Map(_, _) => out := EvalRowwise(q, db, recur);
      case Filter(_, _) => out := EvalRowwise(q, db, recur);
      case Project(_, _) => out := EvalRowwise(q, db, recur);
      case Join(left, right, lk, rk) =>
        var a := EvalInner(left, db, recur);
        var b := EvalInner(right, db, recur);
        out := JoinMultisets(a, lk, b, rk);
      case Union(left, right) =>
        var a := EvalInner(left, db, recur);
        var b := EvalInner(right, db, recur);
        out := Plus(a, b);
      case Negate(_) => out := EvalRowwise(q, db, recur);
      case Shared(input) => out := EvalInner(input, db, recur);
      case Distinct(_) => out := EvalBoundary(q, db, recur);
      case Reduce(_, _, _) => out := EvalBoundary(q, db, recur);
      case Iterate(_, _) => out := EvalBoundary(q, db, recur);
      case Inherit(_, _, _, _) => out := EvalBoundary(q, db, recur);
      case _ => out := EvalLeaf(q, db, recur);
    }
  }

  /** The operators that take their input a row at a time. */
  method EvalRowwise(q: Query, db: Db, recur: Multiset) returns (out: Multiset)
    requires q.Map? || q.Filter? || q.Project? || q.Negate?
    requires Eval(q, db, recur).Some?
    ensures out == Eval(q, db, recur).value
    decreases q, 0
  {
    hide Image, Spread, AllFit, Negated, Keep;
    var child := EvalInner(q.input, db, recur);
    match q {
      case Map(_, f) => out := PushRows(child, Mapper(f));
      case Filter(_, pred) => out := Keep(child, pred);
      case Project(_, cols) => out := PushRows(child, Projector(cols));
      case Negate(_) => out := Negated(child);
    }
  }

  /** The reads, and the recursion variable. */
  method EvalLeaf(q: Query, db: Db, recur: Multiset) returns (out: Multiset)
    requires q.Rel? || q.RangeRel? || q.RangeRelOn? || q.Recur?
    ensures Eval(q, db, recur) == Some(out)
  {
    hide Keep, Read, InColumnRange, InRange;
    match q {
      case Rel(r) => out := Read(db, r);
      case RangeRel(r, lo, hi) => out := Keep(Read(db, r), t => InRange(t, lo, hi));
      case RangeRelOn(r, col, lo, hi) => out := Keep(Read(db, r), t => InColumnRange(t, col, lo, hi));
      case Recur => out := recur;
    }
  }

  /** The operators that need all of their input at once. */
  method EvalBoundary(q: Query, db: Db, recur: Multiset) returns (out: Multiset)
    requires q.Distinct? || q.Reduce? || q.Iterate? || q.Inherit?
    requires Eval(q, db, recur).Some?
    ensures out == Eval(q, db, recur).value
    decreases q, 0
  {
    hide Image, Spread, JoinOf, ReduceOf, ReduceFits, InheritOf, AllFit, Stage, Plus, Negated, DistinctOf, Keep, Read,
      ScopesOf, Settled, ContainsReduce;
    match q {
      case Distinct(input) =>
        var child := EvalInner(input, db, recur);
        out := DistinctOf(child);
      case Reduce(input, key, agg) =>
        var child := EvalInner(input, db, recur);
        out := ReduceSnapshot(child, key, agg);
      case Iterate(init, step) =>
        var start := EvalInner(init, db, map[]);
        out := Settle(start, step, db);
      case Inherit(input, col, bound, ctx) =>
        var rows := EvalInner(input, db, recur);
        out := InheritRows(rows, col, ScopesOf(Read(db, ctx), bound));
    }
  }

  method StepOnce(start: Multiset, step: Query, db: Db, r: Multiset) returns (next: Multiset)
    requires Round(start, step, db, Some(r)).Some?
    ensures Some(next) == Round(start, step, db, Some(r))
    decreases step, 2
  {
    hide Eval;
    hide Round;
    RoundReturns(start, step, db, r);
    var stepped := EvalInner(step, db, r);
    next := DistinctOf(Plus(start, stepped));
  }

  /** The recursion's loop: step until a round repeats. */
  method Settle(start: Multiset, step: Query, db: Db) returns (r: Multiset)
    requires exists n: nat :: Settled(start, step, db, n)
    ensures forall n: nat :: Settled(start, step, db, n) ==> Some(r) == Stage(start, step, db, n)
    decreases step, 3
  {
    hide Eval, Round, Stage, DistinctOf, Plus, Settled;
    StageZero(start, step, db);
    ghost var last: nat :| Settled(start, step, db, last);
    ghost var n: nat := 0;
    r := DistinctOf(start);
    while true
      invariant n <= last && Some(r) == Stage(start, step, db, n)
      decreases last - n
    {
      StageReturns(start, step, db, n, last);
      StageNext(start, step, db, n);
      var next := StepOnce(start, step, db, r);
      SettlesWhenSame(start, step, db, n, r, next);
      if next == r {
        return;
      }
      r := next;
      n := n + 1;
    }
  }

  /** Two rounds that agree are where the loop settles, and two that do not are not. */
  lemma SettlesWhenSame(start: Multiset, step: Query, db: Db, n: nat, r: Multiset, next: Multiset)
    requires Stage(start, step, db, n) == Some(r) && Stage(start, step, db, n + 1) == Some(next)
    ensures Settled(start, step, db, n) <==> r == next
    ensures r == next ==> forall k: nat | Settled(start, step, db, k) :: Some(r) == Stage(start, step, db, k)
  {
    hide Stage;
    if r == next {
      assert Settled(start, step, db, n);
      forall k: nat | Settled(start, step, db, k) ensures Some(r) == Stage(start, step, db, k) {
        SettledUnique(start, step, db, n, k);
      }
    }
  }

  /** Every round of a recursion that settles returns rows. */
  lemma StageReturns(start: Multiset, step: Query, db: Db, n: nat, last: nat)
    requires Settled(start, step, db, last) && Stage(start, step, db, n).Some?
    ensures Stage(start, step, db, n + 1).Some?
  {
    hide Eval;
    hide Round;
    if n <= last {
      if Stage(start, step, db, n + 1).None? {
        assert Stage(start, step, db, last + 1).Some?;
        StuckForever(start, step, db, n + 1, last + 1);
      }
    } else {
      SettledForever(start, step, db, last, n);
    }
  }

  lemma RoundReturns(start: Multiset, step: Query, db: Db, r: Multiset)
    requires Round(start, step, db, Some(r)).Some?
    ensures Eval(step, db, r).Some?
    ensures Round(start, step, db, Some(r)) == Some(DistinctOf(Plus(start, Eval(step, db, r).value)))
  {
    hide Eval;
  }

  lemma StageZero(start: Multiset, step: Query, db: Db)
    ensures Stage(start, step, db, 0) == Some(DistinctOf(start))
  {
    hide Eval;
    hide Round;
  }

  lemma StageNext(start: Multiset, step: Query, db: Db, n: nat)
    ensures Stage(start, step, db, n + 1) == Round(start, step, db, Stage(start, step, db, n))
  {
    hide Eval;
    hide Round;
  }

  lemma {:induction false} StuckForever(start: Multiset, step: Query, db: Db, n: nat, k: nat)
    requires Stage(start, step, db, n).None? && n <= k
    ensures Stage(start, step, db, k).None?
  {
    hide Eval;
    if n < k {
      StuckForever(start, step, db, n, k - 1);
    }
  }
}
