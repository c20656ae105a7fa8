/** One relation of the store: its versions by edition, its raw log, and its
    secondary orderings. The trees behind them are taken as plain maps. */
module Logs {
  import opened Values
  import opened Multisets

  /** A record of the raw log. A graft logs only the span its copy landed in; its
      rows are read back from its edition's own root. */
  datatype LogEntry = Update(tuple: Tuple, diff: int) | GraftEntry(lo: Tuple, hi: Tuple)

  datatype LogItem = LogItem(edition: nat, submit: nat, entry: LogEntry)

  datatype Roots = Roots(versions: map<nat, Multiset>, log: seq<LogItem>, orders: map<nat, Multiset>)

  const NO_ROOTS := Roots(map[], [], map[])

  /** The edition of the version in force at `e`: the greatest one at or below it. */
  function LastLe(versions: map<nat, Multiset>, e: nat): (r: Option<nat>)
    ensures r.Some? ==> r.value in versions && r.value <= e && forall k | k in versions && k <= e :: k <= r.value
    ensures r.None? ==> forall k | k in versions :: k > e
  {
    if e in versions then Some(e) else if e == 0 then None else LastLe(versions, e - 1)
  }

  /** The facts in force at `e`. */
  function StateAt(r: Roots, e: nat): Multiset {
    match LastLe(r.versions, e) case None => map[] case Some(k) => r.versions[k]
  }

  /** The answer depends only on the versions at or below the edition asked for. */
  lemma LastLeSame(v: map<nat, Multiset>, v': map<nat, Multiset>, e: nat, e': nat)
    requires forall k :: k in v && k <= e <==> k in v' && k <= e'
    ensures LastLe(v, e) == LastLe(v', e')
  {
    var a, b := LastLe(v, e), LastLe(v', e');
    if a.Some? {
      assert a.value in v';
    }
    if b.Some? {
      assert b.value in v;
    }
  }

  lemma StateBetween(r: Roots, e: nat, e': nat)
    requires e <= e' && forall k | k in r.versions :: !(e < k <= e')
    ensures StateAt(r, e') == StateAt(r, e)
  {
    LastLeSame(r.versions, r.versions, e, e');
  }

  /** What one log entry adds. */
  function Expand(versions: map<nat, Multiset>, item: LogItem): Multiset {
    match item.entry
    case Update(t, d) => One(t, d)
    case GraftEntry(lo, hi) =>
      if item.edition in versions then Keep(versions[item.edition], t => InRange(t, lo, hi)) else map[]
  }

  /** What the log entries of `(from, to]` add up to. */
  function LogSum(versions: map<nat, Multiset>, log: seq<LogItem>, from: int, to: int): Multiset {
    if log == [] then map[] else
    var item := log[|log| - 1];
    var rest := LogSum(versions, log[..|log| - 1], from, to);
    if from < item.edition <= to then Plus(rest, Expand(versions, item)) else rest
  }

  function Logged(r: Roots, from: int, to: int): Multiset {
    LogSum(r.versions, r.log, from, to)
  }

  // ----- the trace law, kept step by step -----

  /** Each edition above the watermark is the one before plus what it logged. */
  ghost predicate Traced(r: Roots, watermark: nat) {
    forall e: nat | e > watermark :: StateAt(r, e) == Plus(StateAt(r, e - 1), Logged(r, e - 1, e))
  }

  /** Nothing lies beyond the clock or below the watermark in the log, and every graft
      still has its root. */
  ghost predicate LogOk(r: Roots, watermark: nat, current: nat) {
    && (forall k | k in r.versions :: k <= current)
    && (forall x <- r.log :: watermark < x.edition <= current)
    && (forall x <- r.log :: x.entry.GraftEntry? ==> x.edition in r.versions)
  }

  lemma {:induction false} LogSumSplitAt(v: map<nat, Multiset>, log: seq<LogItem>, a: int, b: int, c: int, t: Tuple)
    requires a <= b <= c
    ensures W(LogSum(v, log, a, c), t) == W(LogSum(v, log, a, b), t) + W(LogSum(v, log, b, c), t)
  {
    hide Plus, Expand;
    if log != [] {
      LogSumSplitAt(v, log[..|log| - 1], a, b, c, t);
    }
  }

  lemma LogSumSplit(v: map<nat, Multiset>, log: seq<LogItem>, a: int, b: int, c: int)
    requires a <= b <= c
    ensures LogSum(v, log, a, c) == Plus(LogSum(v, log, a, b), LogSum(v, log, b, c))
  {
    hide Plus, LogSum;
    forall t ensures W(LogSum(v, log, a, c), t) == W(Plus(LogSum(v, log, a, b), LogSum(v, log, b, c)), t) {
      LogSumSplitAt(v, log, a, b, c, t);
    }
    SameWeights(LogSum(v, log, a, c), Plus(LogSum(v, log, a, b), LogSum(v, log, b, c)));
  }

  lemma {:induction false} LogSumNone(v: map<nat, Multiset>, log: seq<LogItem>, a: int, b: int)
    requires forall x <- log :: !(a < x.edition <= b)
    ensures LogSum(v, log, a, b) == map[]
  {
    if log != [] {
      assert log[|log| - 1] in log;
      LogSumNone(v, log[..|log| - 1], a, b);
    }
  }

  lemma PlusNothing(a: Multiset)
    ensures Plus(a, map[]) == a && Plus(map[], a) == a
  {
    SameWeights(Plus(a, map[]), a);
    SameWeights(Plus(map[], a), a);
  }

  lemma PlusAssociates(a: Multiset, b: Multiset, c: Multiset)
    ensures Plus(Plus(a, b), c) == Plus(a, Plus(b, c))
  {
    hide Plus;
    SameWeights(Plus(Plus(a, b), c), Plus(a, Plus(b, c)));
  }

  /** **The trace law.** For any two editions at or above the watermark, the later
      state is the earlier one plus the raw log between them, grafts read back from
      their own editions' roots. */
  lemma {:induction false} TraceLaw(r: Roots, watermark: nat, a: nat, b: nat)
    requires Traced(r, watermark) && watermark <= a <= b
    ensures StateAt(r, b) == Plus(StateAt(r, a), Logged(r, a, b))
    decreases b
  {
    hide Plus, StateAt;
    if a == b {
      LogSumNone(r.versions, r.log, a, a);
      PlusNothing(StateAt(r, a));
    } else {
      TraceLaw(r, watermark, a, b - 1);
      LogSumSplit(r.versions, r.log, a, b - 1, b);
      PlusAssociates(StateAt(r, a), Logged(r, a, b - 1), Logged(r, b - 1, b));
    }
  }

  /** The entries of `(from, to]` read back the same from other versions that agree
      where they were grafted. */
  lemma {:induction false} LogSumSame(v: map<nat, Multiset>, v': map<nat, Multiset>, log: seq<LogItem>, from: int,
                                      to: int)
    requires forall x <- log :: from < x.edition <= to && x.entry.GraftEntry? ==>
      x.edition in v && x.edition in v' && v[x.edition] == v'[x.edition]
    ensures LogSum(v, log, from, to) == LogSum(v', log, from, to)
  {
    hide Plus;
    if log != [] {
      assert log[|log| - 1] in log;
      LogSumSame(v, v', log[..|log| - 1], from, to);
    }
  }

  lemma LogSumSnoc(v: map<nat, Multiset>, log: seq<LogItem>, item: LogItem, from: int, to: int)
    ensures LogSum(v, log + [item], from, to)
         == if from < item.edition <= to
           then Plus(LogSum(v, log, from, to), Expand(v, item)) else LogSum(v, log, from, to)
  {
    assert (log + [item])[..|log|] == log;
  }

  /** A relation's roots with a new version and log entry at its newest edition. */
  function Written(r: Roots, e: nat, root: Multiset, item: LogItem): Roots {
    r.(versions := r.versions[e := root], log := r.log + [item])
  }

  lemma WrittenStates(r: Roots, e: nat, root: Multiset, item: LogItem)
    requires forall k | k in r.versions :: k <= e
    ensures var r' := Written(r, e, root, item);
      (forall x: nat | x < e :: StateAt(r', x) == StateAt(r, x)) && (forall x: nat | x >= e :: StateAt(r', x) == root)
  {
    var r' := Written(r, e, root, item);
    forall x: nat | x < e ensures StateAt(r', x) == StateAt(r, x) {
      LastLeSame(r.versions, r'.versions, x, x);
    }
    forall x: nat | x >= e ensures StateAt(r', x) == root {
      LastLeSame(r'.versions, r'.versions, x, e);
    }
  }

  /** Writing at the newest edition, where nothing was grafted, keeps the trace law
      when the new root adds exactly what the new entry says. */
  lemma WriteKeeps(r: Roots, watermark: nat, e: nat, root: Multiset, item: LogItem)
    requires Traced(r, watermark) && LogOk(r, watermark, e) && e > watermark && item.edition == e
    requires forall x <- r.log :: x.edition == e ==> x.entry.Update?
    requires root == Plus(StateAt(r, e), Expand(r.versions[e := root], item))
    ensures Traced(Written(r, e, root, item), watermark) && LogOk(Written(r, e, root, item), watermark, e)
  {
    hide Plus, StateAt, Expand, LogSum;
    var r' := Written(r, e, root, item);
    WrittenStates(r, e, root, item);
    forall x: nat | x > watermark ensures StateAt(r', x) == Plus(StateAt(r', x - 1), Logged(r', x - 1, x)) {
      LogSumSame(r.versions, r'.versions, r.log, x - 1, x);
      LogSumSnoc(r'.versions, r.log, item, x - 1, x);
      if x == e {
        PlusAssociates(StateAt(r, e - 1), Logged(r, e - 1, e), Expand(r'.versions, item));
      } else if x > e {
        LogSumNone(r'.versions, r'.log, x - 1, x);
        PlusNothing(root);
      }
    }
  }

  /** The clock moves on by itself: an edition that writes nothing is the one before. */
  lemma ClockMoves(r: Roots, watermark: nat, current: nat)
    requires LogOk(r, watermark, current)
    ensures LogOk(r, watermark, current + 1) && StateAt(r, current + 1) == StateAt(r, current)
    ensures forall x <- r.log :: x.edition < current + 1
  {
    StateBetween(r, current, current + 1);
  }

  lemma NoRootsOk(watermark: nat, current: nat)
    ensures Traced(NO_ROOTS, watermark) && LogOk(NO_ROOTS, watermark, current)
    ensures forall e: nat :: StateAt(NO_ROOTS, e) == map[]
  {
    forall e: nat ensures StateAt(NO_ROOTS, e) == map[] {
      assert LastLe(NO_ROOTS.versions, e) == None;
    }
    forall e: nat | e > watermark
      ensures StateAt(NO_ROOTS, e) == Plus(StateAt(NO_ROOTS, e - 1), Logged(NO_ROOTS, e - 1, e)) {
      PlusNothing(map[]);
    }
  }

  // ----- consolidation -----

  function Above(log: seq<LogItem>, e: nat): seq<LogItem> {
    if log == [] then [] else
    Above(log[..|log| - 1], e) + if log[|log| - 1].edition > e then [log[|log| - 1]] else []
  }

  /** History up to `wm` reduced to the state there. Orderings go too, and come back when
      next asked for. */
  function Consolidated(r: Roots, wm: nat): Roots {
    var kept := map k | k in r.versions && k > wm :: r.versions[k];
    Roots(match LastLe(r.versions, wm) case None => kept case Some(k) => kept[wm := r.versions[k]], Above(r.log, wm),
      map[])
  }

  /** No read at or above the new watermark changes. */
  lemma ConsolidatedReads(r: Roots, wm: nat, e: nat)
    requires e >= wm
    ensures StateAt(Consolidated(r, wm), e) == StateAt(r, e)
  {
    var r' := Consolidated(r, wm);
    var a, b, c := LastLe(r.versions, e), LastLe(r'.versions, e), LastLe(r.versions, wm);
    if a.Some? {
      assert a.value > wm ==> a.value in r'.versions;
      assert a.value <= wm ==> c == a && wm in r'.versions;
    }
    if b.Some? && b.value > wm {
      assert b.value in r.versions;
    }
  }

  lemma {:induction false} AboveIn(log: seq<LogItem>, e: nat)
    ensures forall x :: x in Above(log, e) <==> x in log && x.edition > e
  {
    if log != [] {
      AboveIn(log[..|log| - 1], e);
      assert log == log[..|log| - 1] + [log[|log| - 1]];
    }
  }

  /** The log above the watermark adds up as it did. */
  lemma {:induction false} AboveSum(v: map<nat, Multiset>, log: seq<LogItem>, wm: nat, from: int, to: int)
    requires wm <= from
    ensures LogSum(v, Above(log, wm), from, to) == LogSum(v, log, from, to)
  {
    hide Plus, Expand;
    if log != [] {
      var n := |log| - 1;
      AboveSum(v, log[..n], wm, from, to);
      LogSumSnoc(v, Above(log[..n], wm), log[n], from, to);
      assert Above(log[..n], wm) + [] == Above(log[..n], wm);
    }
  }

  /** Consolidation keeps the trace law above the new watermark. */
  lemma ConsolidationKeeps(r: Roots, watermark: nat, current: nat, wm: nat)
    requires Traced(r, watermark) && LogOk(r, watermark, current) && watermark <= wm <= current
    ensures Traced(Consolidated(r, wm), wm) && LogOk(Consolidated(r, wm), wm, current)
    ensures forall a, b | wm <= a <= b :: Logged(Consolidated(r, wm), a, b) == Logged(r, a, b)
  {
    hide Plus, StateAt, LogSum;
    var r' := Consolidated(r, wm);
    AboveIn(r.log, wm);
    forall a, b | wm <= a <= b ensures Logged(r', a, b) == Logged(r, a, b) {
      AboveSum(r.versions, r.log, wm, a, b);
      LogSumSame(r.versions, r'.versions, r'.log, a, b);
    }
    forall e: nat | e > wm ensures StateAt(r', e) == Plus(StateAt(r', e - 1), Logged(r', e - 1, e)) {
      ConsolidatedReads(r, wm, e);
      ConsolidatedReads(r, wm, e - 1);
    }
  }

  // ----- forks -----

  function UpToEdition(log: seq<LogItem>, e: nat): seq<LogItem> {
    if log == [] then [] else
    UpToEdition(log[..|log| - 1], e) + if log[|log| - 1].edition <= e then [log[|log| - 1]] else []
  }

  /** The roots as of `e`: later versions and log entries left behind, and the
      orderings, which track the present. */
  function AsOf(r: Roots, e: nat): Roots {
    Roots(map k | k in r.versions && k <= e :: r.versions[k], UpToEdition(r.log, e), map[])
  }

  lemma AsOfReads(r: Roots, e: nat, x: nat)
    ensures StateAt(AsOf(r, e), x) == StateAt(r, if x <= e then x else e)
  {
    LastLeSame(AsOf(r, e).versions, r.versions, x, if x <= e then x else e);
  }

  lemma {:induction false} UpToIn(log: seq<LogItem>, e: nat)
    ensures forall x :: x in UpToEdition(log, e) <==> x in log && x.edition <= e
  {
    if log != [] {
      UpToIn(log[..|log| - 1], e);
      assert log == log[..|log| - 1] + [log[|log| - 1]];
    }
  }

  lemma {:induction false} UpToSum(v: map<nat, Multiset>, log: seq<LogItem>, e: nat, from: int, to: int)
    requires to <= e
    ensures LogSum(v, UpToEdition(log, e), from, to) == LogSum(v, log, from, to)
  {
    hide Plus, Expand;
    if log != [] {
      var n := |log| - 1;
      UpToSum(v, log[..n], e, from, to);
      LogSumSnoc(v, UpToEdition(log[..n], e), log[n], from, to);
      assert UpToEdition(log[..n], e) + [] == UpToEdition(log[..n], e);
    }
  }

  /** A fork obeys the trace law of its own short history. */
  lemma AsOfKeeps(r: Roots, watermark: nat, current: nat, e: nat)
    requires Traced(r, watermark) && LogOk(r, watermark, current) && watermark <= e <= current
    ensures Traced(AsOf(r, e), watermark) && LogOk(AsOf(r, e), watermark, e)
    ensures forall a, b | a <= b <= e :: Logged(AsOf(r, e), a, b) == Logged(r, a, b)
  {
    hide Plus, StateAt, LogSum;
    var r' := AsOf(r, e);
    UpToIn(r.log, e);
    forall a, b | a <= b <= e ensures Logged(r', a, b) == Logged(r, a, b) {
      UpToSum(r.versions, r.log, e, a, b);
      LogSumSame(r.versions, r'.versions, r'.log, a, b);
    }
    forall x: nat | x > watermark ensures StateAt(r', x) == Plus(StateAt(r', x - 1), Logged(r', x - 1, x)) {
      AsOfReads(r, e, x);
      AsOfReads(r, e, x - 1);
      if x > e {
        LogSumNone(r'.versions, r'.log, x - 1, x);
        PlusNothing(StateAt(r', x - 1));
      }
    }
  }
}
