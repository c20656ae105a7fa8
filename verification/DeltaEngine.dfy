/** The incremental evaluator as it runs, and the maintained query built on it. */
module DeltaEngine {
  import opened Values
  import opened Multisets
  import opened Plans
  import opened Operators
  import opened Traces
  import opened Deltas
  import opened ReduceLaws
  import opened DeltaLaws

  // ----- the per-group reduce -----

  /** The groups the changed rows fall in and how their images' weights go back,
      or `grouped == false` at the first image too short to group. */
  method ChangedGroups(rows: Rows, key: seq<nat>, s: Store, from: nat, to: nat)
    returns (grouped: bool, groups: set<Tuple>, back: Multiset)
    requires ImagesReturn(rows, Changed(s, rows.base.rel, from, to))
    ensures grouped == ImagesGrouped(rows, Changed(s, rows.base.rel, from, to), key)
    ensures grouped ==> groups == GroupsHit(rows, Changed(s, rows.base.rel, from, to), key)
    ensures grouped ==> back == Image(Minus(ReadAt(s, rows.base.rel, from), ReadAt(s, rows.base.rel, to)), Imager(rows))
  {
    hide PutBack, ImageOf, Minus, Imager, Image, Changed, GroupsHit, ImagesGrouped, StripZeros;
    var a, b := ReadAt(s, rows.base.rel, from), ReadAt(s, rows.base.rel, to);
    var changed := Changed(s, rows.base.rel, from, to);
    ReadChange(s, rows.base.rel, from, to);
    ghost var diff := Minus(a, b);
    DiffKeys(a, b, changed);
    groups, back := {}, map[];
    var acc: map<Tuple, int> := map[];
    var todo := changed;
    NonePutBack(rows, key, diff);
    assert changed - todo == {};
    while todo != {}
      invariant todo <= changed && PutBack(rows, key, diff, changed - todo, groups, acc)
      decreases todo
    {
      var x :| x in todo;
      assert diff[x] == W(diff, x) == W(a, x) - W(b, x);
      assert changed - (todo - {x}) == changed - todo + {x};
      grouped, groups, acc := ChangedRow(rows, key, x, W(a, x) - W(b, x), groups, acc, diff, changed - todo);
      if !grouped {
        if ImagesGrouped(rows, changed, key) {
          GroupedPart(rows, changed - todo + {x}, changed, key);
        }
        return;
      }
      todo := todo - {x};
    }
    assert changed - todo == changed;
    grouped := true;
    back := StripZeros(acc);
    AllPutBack(rows, key, diff, groups, acc);
  }

  lemma GroupedPart(rows: Rows, part: set<Tuple>, all: set<Tuple>, key: seq<nat>)
    requires part <= all && ImagesGrouped(rows, all, key)
    ensures ImagesGrouped(rows, part, key)
  {
    hide ImageOf;
  }

  /** One changed row: the group its image falls in, and its weight put back at the image. */
  method ChangedRow(rows: Rows, key: seq<nat>, x: Tuple, w: int, groups: set<Tuple>, acc: map<Tuple, int>,
                    ghost diff: Multiset, ghost done: set<Tuple>)
    returns (grouped: bool, groups': set<Tuple>, acc': map<Tuple, int>)
    requires !ImageOf(rows, x).TooShort? && x in diff && x !in done && w == diff[x]
    requires PutBack(rows, key, diff, done, groups, acc)
    ensures grouped == ImagesGrouped(rows, done + {x}, key)
    ensures grouped ==> PutBack(rows, key, diff, done + {x}, groups', acc')
  {
    hide Through, Spreading, Added;
    groups', acc' := groups, acc;
    match ImageOf(rows, x) {
      case Row(image) =>
        if Cells(image, key).None? {
          grouped := false;
          return;
        }
        groups' := groups + {Cells(image, key).value};
        acc' := Add(acc, image, w);
      case _ =>
    }
    grouped := true;
    SingleAdded(acc, acc', Imager(rows), x, w);
    SpreadStep(acc, acc', diff, Single(Imager(rows)), done, x);
  }

  /** The rows of `done` have been grouped, and their weights put back at their images. */
  ghost predicate PutBack(rows: Rows, key: seq<nat>, diff: Multiset, done: set<Tuple>, groups: set<Tuple>,
                          acc: map<Tuple, int>) {
    && ImagesGrouped(rows, done, key) && groups == GroupsHit(rows, done, key)
    && Spreading(acc, diff, Single(Imager(rows)), done)
  }

  lemma NonePutBack(rows: Rows, key: seq<nat>, diff: Multiset)
    ensures PutBack(rows, key, diff, {}, {}, map[])
  {
    SpreadStart(diff, Single(Imager(rows)));
  }

  lemma AllPutBack(rows: Rows, key: seq<nat>, diff: Multiset, groups: set<Tuple>, acc: map<Tuple, int>)
    requires PutBack(rows, key, diff, diff.Keys, groups, acc)
    ensures ImagesGrouped(rows, diff.Keys, key) && groups == GroupsHit(rows, diff.Keys, key)
    ensures StripZeros(acc) == Image(diff, Imager(rows))
  {
    hide Spreading, Spread;
    SpreadDone(acc, diff, Single(Imager(rows)));
  }

  lemma DiffKeys(a: Multiset, b: Multiset, changed: set<Tuple>)
    requires forall x :: x in changed <==> W(a, x) != W(b, x)
    ensures Minus(a, b).Keys == changed
  {
    forall x ensures x in Minus(a, b) <==> x in changed {
      assert W(Minus(a, b), x) == W(a, x) - W(b, x);
    }
  }

  /** The members, at `to`, of the changed groups; `grouped == false` if a row
      found for them is too short to group. */
  method MembersAt(rows: Rows, key: seq<nat>, found: Multiset, groups: set<Tuple>)
    returns (grouped: bool, atTo: Multiset)
    requires ImagesReturn(rows, found.Keys)
    ensures grouped == ImagesGrouped(rows, found.Keys, key)
    ensures grouped ==> atTo == Keep(Image(found, Imager(rows)), InGroups(groups, key))
  {
    hide Through;
    atTo := map[];
    var todo := found.Keys;
    while todo != {}
      invariant todo <= found.Keys
      invariant ImagesGrouped(rows, found.Keys - todo, key)
      decreases todo
    {
      var x :| x in todo;
      match ImageOf(rows, x) {
        case Row(image) =>
          if Cells(image, key).None? {
            grouped := false;
            return;
          }
        case _ =>
      }
      todo := todo - {x};
    }
    assert found.Keys - todo == found.Keys;
    grouped := true;
    var images := PushRows(found, Imager(rows));
    atTo := Keep(images, InGroups(groups, key));
  }

  method ReduceDelta(input: Query, key: seq<nat>, agg: Agg, s: Store, from: nat, to: nat) returns (o: Outcome)
    requires ReduceByKey(input, key, agg, s, from, to) != Refused
    ensures o == ReduceByKey(input, key, agg, s, from, to)
  {
    hide ReduceOf;
    hide ReduceFits;
    hide RowsOf;
    hide Strip;
    hide Source;
    hide ImagesReturn;
    hide ImagesGrouped;
    hide GroupsHit;
    hide Leads;
    hide Changed;
    hide Keep;
    hide Plus;
    hide Imager;
    hide InGroups;
    var shape := RowsOf(Strip(input));
    if shape.None? || key == [] || Source(shape.value.steps, key[0]).None? {
      return Fallback;
    }
    var rows := shape.value;
    var col := Source(rows.steps, key[0]).value;
    var grouped, groups, back := ChangedGroups(rows, key, s, from, to);
    if !grouped {
      return Fallback;
    }
    var leads := Leads(groups);
    if leads == {} {
      return Done(map[]);
    }
    if |leads| > PROBE_LIMIT {
      return Fallback;
    }
    var found := Lookup(s, rows.base.rel, to, col, leads);
    var all, atTo := MembersAt(rows, key, found, groups);
    if !all {
      return Fallback;
    }
    var atFrom := Plus(atTo, back);
    var after := ReduceSnapshot(atTo, key, agg);
    var before := ReduceSnapshot(atFrom, key, agg);
    o := Done(Minus(after, before));
  }

  // ----- the evaluator -----

  method EvalSnapshot(q: Query, s: Store, at: nat) returns (m: Multiset)
    requires Meaning(q, s, at).Some?
    ensures m == Meaning(q, s, at).value
  {
    m := EvalInner(q, Snapshot(s, at), map[]);
  }

  method DifferenceOfEnds(q: Query, s: Store, from: nat, to: nat) returns (d: Multiset)
    requires Recompute(q, s, from, to).Some?
    ensures d == Recompute(q, s, from, to).value
  {
    hide Meaning;
    var b := EvalSnapshot(q, s, to);
    var a := EvalSnapshot(q, s, from);
    d := Minus(b, a);
  }

  method MatchingRows(side: Query, sideKey: seq<nat>, delta: Multiset, deltaKey: seq<nat>, s: Store, at: nat)
    returns (m: Multiset)
    requires Matching(side, sideKey, delta, deltaKey, s, at).Some?
    ensures m == Matching(side, sideKey, delta, deltaKey, s, at).value
  {
    hide Meaning;
    var shape := BaseOf(side);
    if shape.Some? && sideKey != [] && deltaKey != [] {
      var keys := DeltaKeys(delta, deltaKey);
      if |keys| <= PROBE_LIMIT {
        var base := shape.value;
        m := Keep(Lookup(s, base.rel, at, sideKey[0], keys), t => Admits(base, t));
        return;
      }
    }
    m := EvalSnapshot(side, s, at);
  }

  method JoinDeltas(left: Query, lk: seq<nat>, right: Query, rk: seq<nat>, da: Multiset, db: Multiset, s: Store,
                    to: nat)
    returns (d: Multiset)
    requires JoinDelta(left, lk, right, rk, da, db, s, to).Some?
    ensures d == JoinDelta(left, lk, right, rk, da, db, s, to).value
  {
    hide Meaning;
    hide Matching;
    hide JoinOf;
    hide AllFit;
    hide Plus;
    var out: Multiset := map[];
    if da != map[] {
      var b := MatchingRows(right, rk, da, lk, s, to);
      out := JoinMultisets(da, lk, b, rk);
    }
    var second: Multiset := map[];
    if db != map[] {
      var a := MatchingRows(left, lk, db, rk, s, to);
      second := JoinMultisets(a, lk, db, rk);
    }
    out := Plus(out, second);
    var third: Multiset := map[];
    if da != map[] && db != map[] {
      third := JoinMultisets(da, lk, db, rk);
    }
    d := Minus(out, third);
  }

  /** The incremental evaluator, by recursion on the plan. */
  method RunDelta(q: Query, s: Store, from: nat, to: nat) returns (d: Multiset)
    requires EvalDelta(q, s, from, to).Some?
    ensures d == EvalDelta(q, s, from, to).value
    decreases q
  {
    hide Recompute, ReduceByKey, JoinDelta, Image, Keep, Plus, Negated, Tally, InheritOf, AllFit, Crossings, Quiet,
      ScanUpdates, Meaning, ReadContaining, ScopesOf;
    match q {
      case Map(input, f) =>
        var child := RunDelta(input, s, from, to);
        d := PushRows(child, Mapper(f));
      case Filter(input, pred) =>
        var child := RunDelta(input, s, from, to);
        d := Keep(child, pred);
      case Project(input, cols) =>
        var child := RunDelta(input, s, from, to);
        d := PushRows(child, Projector(cols));
      case Join(left, right, lk, rk) =>
        var da := RunDelta(left, s, from, to);
        var db := RunDelta(right, s, from, to);
        d := JoinDeltas(left, lk, right, rk, da, db, s, to);
      case Union(left, right) =>
        var da := RunDelta(left, s, from, to);
        var db := RunDelta(right, s, from, to);
        d := Plus(da, db);
      case Negate(input) =>
        var child := RunDelta(input, s, from, to);
        d := Negated(child);
      case Distinct(input) =>
        if BaseOf(input).Some? {
          d := Crossings(s, BaseOf(input).value, from, to);
        } else if Quiet(q, s, from, to) {
          d := map[];
        } else {
          d := DifferenceOfEnds(q, s, from, to);
        }
      case Reduce(input, key, agg) =>
        if Quiet(q, s, from, to) {
          d := map[];
        } else {
          var o := ReduceDelta(input, key, agg, s, from, to);
          if o.Done? {
            d := o.delta;
          } else {
            d := DifferenceOfEnds(q, s, from, to);
          }
        }
      case Iterate(_, _) =>
        if Quiet(q, s, from, to) {
          d := map[];
        } else {
          d := DifferenceOfEnds(q, s, from, to);
        }
      case Inherit(input, col, bound, ctx) =>
        if s.touched(ctx, from, to) {
          d := DifferenceOfEnds(q, s, from, to);
        } else {
          var child := RunDelta(input, s, from, to);
          var points := set t | t in child && col < |t| :: t[col];
          d := InheritRows(child, col, ScopesOf(ReadContaining(s, ctx, to, points), bound));
        }
      case Shared(input) => d := RunDelta(input, s, from, to);
      case _ => d := LeafDelta(q, s, from, to);
    }
  }

  /** A read changes by the updates that fall in it; the recursion variable does not. */
  method LeafDelta(q: Query, s: Store, from: nat, to: nat) returns (d: Multiset)
    requires q.Rel? || q.RangeRel? || q.RangeRelOn? || q.Recur?
    ensures EvalDelta(q, s, from, to) == Some(d)
  {
    hide Keep, Tally, ScanUpdates, InRange, InColumnRange;
    match q {
      case Rel(r) => d := FromPairs(ScanUpdates(s, r, from, to));
      case RangeRel(r, lo, hi) =>
        var all := FromPairs(ScanUpdates(s, r, from, to));
        d := Keep(all, t => InRange(t, lo, hi));
      case RangeRelOn(r, col, lo, hi) =>
        var all := FromPairs(ScanUpdates(s, r, from, to));
        d := Keep(all, t => InColumnRange(t, col, lo, hi));
      case Recur => d := map[];
    }
  }

  // ----- delivery -----

  /** Rows listed in ascending order, each once. */
  ghost predicate Ascending(v: seq<(Tuple, int)>) {
    forall i, j | 0 <= i < j < |v| :: Less(v[i].0, v[j].0)
  }

  /** The sorted view of a multiset: its rows ascending, with their weights. */
  method ToSortedVec(m: Multiset) returns (v: seq<(Tuple, int)>)
    ensures Ascending(v)
    ensures Tally(v) == m
  {
    NothingTallied();
    hide Less, Tally;
    v := [];
    var todo := m.Keys;
    while todo != {}
      invariant todo <= m.Keys
      invariant Ascending(v)
      invariant forall p <- v, t <- todo :: Less(p.0, t)
      invariant forall t :: W(Tally(v), t) == if t in m.Keys - todo then m[t] else 0
      decreases todo
    {
      var t := LeastTuple(todo);
      TallyLast(v, t, m[t]);
      v := v + [(t, m[t])];
      todo := todo - {t};
    }
    SameWeights(Tally(v), m);
  }

  lemma NothingTallied()
    ensures Tally([]) == map[]
  {
  }

  lemma TallyLast(v: seq<(Tuple, int)>, t: Tuple, w: int)
    ensures forall u :: W(Tally(v + [(t, w)]), u) == W(Tally(v), u) + if u == t then w else 0
  {
    forall u ensures W(Tally(v + [(t, w)]), u) == W(Tally(v), u) + if u == t then w else 0 {
      TallySnoc(v, t, w, u);
    }
  }

  method LeastTuple(ts: set<Tuple>) returns (least: Tuple)
    requires ts != {}
    ensures least in ts
    ensures forall t <- ts - {least} :: Less(least, t)
  {
    least :| least in ts;
    var todo := ts - {least};
    while todo != {}
      invariant todo <= ts - {least} && least in ts
      invariant forall t <- ts - {least} - todo :: Less(least, t)
      decreases todo
    {
      var t :| t in todo;
      if Less(t, least) {
        forall u | u in ts - {t} - (todo - {t}) ensures Less(t, u) {
          if u != least {
            LessTransitive(t, least, u);
          }
        }
        todo := todo - {t};
        least := t;
      } else {
        LessTotal(t, least);
        todo := todo - {t};
      }
    }
  }

  /** A maintained query: the first poll delivers the answer at the edition it was
      registered at, every later one the change since the last. */
  class DeltaStream {
    const query: Query
    var cursor: nat
    var started: bool
    /** Everything delivered so far, summed. */
    ghost var delivered: Multiset

    /** What has been delivered adds up to the query's answer at the cursor. */
    ghost predicate InStep(s: Store)
      reads this
    {
      if started then Meaning(query, s, cursor) == Some(delivered) else delivered == map[]
    }

    constructor (query: Query, from: nat)
      ensures this.query == query && cursor == from && !started && delivered == map[]
    {
      this.query := query;
      cursor := from;
      started := false;
      delivered := map[];
    }

    /** Deliver the next batch. */
    method Poll(s: Store) returns (batch: seq<(Tuple, int)>)
      requires Valid(s) && cursor <= s.current && Meaning(query, s, cursor).Some?
      requires started && cursor < s.current ==>
        Meaning(query, s, s.current).Some? && Answers(query, s, cursor, s.current)
      requires InStep(s)
      modifies this
      ensures InStep(s) && started
      ensures cursor == if old(started) then s.current else old(cursor)
      ensures delivered == Plus(old(delivered), Tally(batch))
      ensures Ascending(batch)
    {
      hide Meaning, Answers;
      if !started {
        started := true;
        var snap := EvalSnapshot(query, s, cursor);
        batch := ToSortedVec(snap);
        SameWeights(snap, Plus(map[], snap));
        delivered := Plus(delivered, snap);
        return;
      }
      var to := s.current;
      if to == cursor {
        SameWeights(delivered, Plus(delivered, map[]));
        return [];
      }
      DeltaIsExact(query, s, cursor, to);
      var delta := RunDelta(query, s, cursor, to);
      SameWeights(Plus(delivered, delta), Meaning(query, s, to).value);
      batch := ToSortedVec(delta);
      delivered := Plus(delivered, delta);
      cursor := to;
    }
  }

  /** Each store continues the one before it. */
  ghost predicate History(stores: seq<Store>) {
    && (forall i | 0 <= i < |stores| :: Valid(stores[i]))
    && (forall i | 0 < i < |stores| ::
          stores[i - 1].current <= stores[i].current && AgreesThrough(stores[i - 1], stores[i], stores[i - 1].current))
  }

  /** Where the cursor stands when store `i` is polled, past the first. */
  function CursorAt(from: nat, stores: seq<Store>, i: nat): nat
    requires 0 < i <= |stores|
  {
    if i == 1 then from else stores[i - 1].current
  }

  /** **The snapshot-stream law.** However the world moves between polls, the
      initial batch and the deltas after it add up to the query's answer. */
  method Follow(query: Query, from: nat, stores: seq<Store>) returns (total: Multiset)
    requires History(stores) && stores != [] && from <= stores[0].current
    requires Meaning(query, stores[0], from).Some?
    requires forall i | 0 < i < |stores| :: Meaning(query, stores[i], stores[i].current).Some?
    requires forall i | 0 < i < |stores| && CursorAt(from, stores, i) < stores[i].current ::
               Answers(query, stores[i], CursorAt(from, stores, i), stores[i].current)
    ensures |stores| == 1 ==> Some(total) == Meaning(query, stores[0], from)
    ensures |stores| > 1 ==> Some(total) == Meaning(query, stores[|stores| - 1], stores[|stores| - 1].current)
  {
    hide Meaning, Plus, Answers;
    var stream := new DeltaStream(query, from);
    total := map[];
    for i := 0 to |stores|
      invariant stream.query == query && stream.delivered == total
      invariant i == 0 ==> !stream.started && stream.cursor == from && total == map[]
      invariant i > 0 ==> stream.started && Some(total) == Meaning(query, stores[i - 1], stream.cursor)
      invariant i > 0 ==> stream.cursor == CursorAt(from, stores, i)
    {
      if i > 0 {
        assert stream.cursor <= stores[i - 1].current;
        MeaningStands(query, stores[i - 1], stores[i], stream.cursor);
      }
      var batch := stream.Poll(stores[i]);
      total := Plus(total, Tally(batch));
    }
  }
}
