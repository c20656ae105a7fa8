/** A branch of the store: commits, grafts, consolidation and forks, the reads they
    answer, and the routing of changes to standing interests. */
module Stores {
  import opened Values
  import opened Displacements
  import opened Multisets
  import opened Logs
  import opened Arrangements

  type Updates = seq<(nat, Tuple, int)>

  /** A standing interest in the rows of a relation between two keys. */
  datatype Interest = Interest(rel: nat, lo: Tuple, hi: Tuple)

  // ----- one relation -----

  /** Every ordering is the current facts, keyed by its column. */
  ghost predicate OrdersOk(r: Roots, current: nat) {
    forall c | c in r.orders :: r.orders[c] == Arranged(StateAt(r, current), c)
  }

  ghost predicate RelOk(r: Roots, watermark: nat, current: nat) {
    Traced(r, watermark) && LogOk(r, watermark, current) && OrdersOk(r, current)
  }

  /** The facts with one weight set; a weight of zero is no entry. */
  function SetWeight(m: Multiset, t: Tuple, net: int): (m': Multiset)
    ensures forall u :: W(m', u) == if u == t then net else W(m, u)
  {
    if net == 0 then m - {t} else m[t := net]
  }

  /** An ordering with one fact's new weight. */
  function Restep(arr: Multiset, c: nat, t: Tuple, net: int): Multiset {
    match Rotate(t, c) case None => arr case Some(key) => SetWeight(arr, key, net)
  }

  lemma RestepIsArranged(m: Multiset, c: nat, t: Tuple, net: int)
    ensures Restep(Arranged(m, c), c, t, net) == Arranged(SetWeight(m, t, net), c)
  {
    hide Arranged, SetWeight, Rotate;
    ArrangedUpdate(m, SetWeight(m, t, net), c, t, net);
    if Rotate(t, c).Some? {
      SameWeights(SetWeight(Arranged(m, c), Rotate(t, c).value, net), Arranged(SetWeight(m, t, net), c));
    }
  }

  /** Brings every ordering in step with a fact's new weight. */
  method Refold(orders: map<nat, Multiset>, t: Tuple, net: int, ghost m: Multiset) returns (r: map<nat, Multiset>)
    requires forall c | c in orders :: orders[c] == Arranged(m, c)
    ensures r.Keys == orders.Keys && forall c | c in r :: r[c] == Arranged(SetWeight(m, t, net), c)
  {
    hide Arranged, SetWeight, Restep;
    r := orders;
    var todo := orders.Keys;
    while todo != {}
      invariant todo <= orders.Keys && r.Keys == orders.Keys
      invariant forall c | c in todo :: r[c] == Arranged(m, c)
      invariant forall c | c in r && c !in todo :: r[c] == Arranged(SetWeight(m, t, net), c)
      decreases todo
    {
      var c :| c in todo;
      RestepIsArranged(m, c, t, net);
      r := r[c := Restep(r[c], c, t, net)];
      todo := todo - {c};
    }
  }

  /** One update of edition `e`: logged, folded into the newest version, and into every
      ordering. */
  method Fold(r: Roots, e: nat, submit: nat, t: Tuple, d: int, ghost watermark: nat) returns (r': Roots)
    requires RelOk(r, watermark, e) && e > watermark && forall x <- r.log :: x.edition == e ==> x.entry.Update?
    ensures RelOk(r', watermark, e)
    ensures StateAt(r', e) == Plus(StateAt(r, e), One(t, d)) && forall x: nat | x < e :: StateAt(r', x) == StateAt(r, x)
    ensures r'.log == r.log + [LogItem(e, submit, Update(t, d))]
  {
    hide StateAt, Plus, Arranged, SetWeight, LogSum, Expand, One;
    var item := LogItem(e, submit, Update(t, d));
    ghost var r0 := r;
    var base := StateAt(r, e);
    var net := W(base, t) + d;
    var root := SetWeight(base, t, net);
    SameWeights(root, Plus(base, One(t, d)));
    var orders := Refold(r.orders, t, net, base);
    ExpandUpdate(r.versions[e := root], item);
    WriteKeeps(r, watermark, e, root, item);
    WrittenStates(r, e, root, item);
    r' := Written(r, e, root, item).(orders := orders);
    SameHistory(Written(r, e, root, item), r', watermark, e);
  }

  lemma ExpandUpdate(v: map<nat, Multiset>, item: LogItem)
    requires item.entry.Update?
    ensures Expand(v, item) == One(item.entry.tuple, item.entry.diff)
  {
  }

  /** Orderings have no say in the history. */
  lemma SameHistory(r: Roots, r': Roots, watermark: nat, current: nat)
    requires r' == r.(orders := r'.orders) && Traced(r, watermark) && LogOk(r, watermark, current)
    ensures Traced(r', watermark) && LogOk(r', watermark, current)
    ensures forall e: nat :: StateAt(r', e) == StateAt(r, e)
    ensures forall a, b :: Logged(r', a, b) == Logged(r, a, b)
  {
    hide Plus, LogSum;
    forall e: nat ensures StateAt(r', e) == StateAt(r, e) {
    }
  }

  lemma RelMoves(r: Roots, watermark: nat, current: nat)
    requires RelOk(r, watermark, current)
    ensures RelOk(r, watermark, current + 1)
    ensures forall x <- r.log :: x.edition < current + 1
  {
    hide Arranged, Traced, LogOk;
    ClockMoves(r, watermark, current);
  }

  /** The part of a patch that one relation sees. */
  function UpdatesOf(us: Updates, rel: nat): seq<(Tuple, int)> {
    if us == [] then [] else
    UpdatesOf(us[..|us| - 1], rel) + if us[|us| - 1].0 == rel then [(us[|us| - 1].1, us[|us| - 1].2)] else []
  }

  // ----- routing -----

  /** A log entry that may change a row the interest covers. */
  predicate Touches(i: Interest, rel: nat, entry: LogEntry) {
    i.rel == rel && match entry
                    case Update(t, _) => InRange(t, i.lo, i.hi)
                    case GraftEntry(lo, hi) => Less(lo, hi) && Less(i.lo, hi) && Less(lo, i.hi)
  }

  /** An entry that does not touch an interest adds nothing to any row it covers. */
  lemma UntouchedAddsNothing(v: map<nat, Multiset>, item: LogItem, i: Interest, rel: nat, t: Tuple)
    requires i.rel == rel && !Touches(i, rel, item.entry) && InRange(t, i.lo, i.hi)
    ensures W(Expand(v, item), t) == 0
  {
    hide Less;
    match item.entry
    case Update(_, _) =>
    case GraftEntry(lo, hi) =>
      if InRange(t, lo, hi) {
        LeqLess(lo, t, hi);
        LeqLess(i.lo, t, hi);
        LeqLess(lo, t, i.hi);
      }
  }

  lemma {:induction false} UntouchedLog(v: map<nat, Multiset>, log: seq<LogItem>, from: int, to: int, i: Interest,
                                        t: Tuple)
    requires InRange(t, i.lo, i.hi)
    requires forall x <- log :: from < x.edition <= to ==> !Touches(i, i.rel, x.entry)
    ensures W(LogSum(v, log, from, to), t) == 0
  {
    hide Expand, Touches, Plus;
    if log != [] {
      var n := |log| - 1;
      assert log[n] in log;
      UntouchedLog(v, log[..n], from, to, i, t);
      if from < log[n].edition <= to {
        UntouchedAddsNothing(v, log[n], i, i.rel, t);
      }
    }
  }

  /** Every change made since an interest was registered that touches it has fired it. */
  ghost predicate Routed(rels: map<nat, Roots>, canopy: map<nat, Interest>, registered: map<nat, nat>,
                         fired: set<(nat, nat)>) {
    forall id, rel | id in canopy && rel in rels ::
      RoutedIn(rels[rel].log, id, canopy[id], rel, if id in registered then registered[id] else 0, fired)
  }

  ghost predicate RoutedIn(log: seq<LogItem>, id: nat, i: Interest, rel: nat, since: nat, fired: set<(nat, nat)>) {
    forall x <- log :: x.edition > since && Touches(i, rel, x.entry) ==> (id, x.edition) in fired
  }

  /** And an interest has fired only for a change that touched it. */
  ghost predicate FiredTruly(rels: map<nat, Roots>, canopy: map<nat, Interest>, watermark: nat,
                             fired: set<(nat, nat)>) {
    forall f | f in fired && f.1 > watermark :: f.0 in canopy && HasTouch(rels, canopy[f.0], f.1)
  }

  ghost predicate HasTouch(rels: map<nat, Roots>, i: Interest, e: nat) {
    i.rel in rels && exists x <- rels[i.rel].log :: x.edition == e && Touches(i, i.rel, x.entry)
  }

  /** Each interest asked for has its own place in the canopy and a registration. */
  ghost predicate InterestsOk(interests: map<Interest, nat>, canopy: map<nat, Interest>, registered: map<nat, nat>,
                              next: nat, current: nat) {
    && (forall i | i in interests :: interests[i] in canopy && canopy[interests[i]] == i)
    && (forall id | id in canopy :: id < next && id in registered && registered[id] <= current)
  }

  // ----- a patch -----

  /** A relation's facts at an edition; a relation never written holds none. */
  function StateOf(rels: map<nat, Roots>, rel: nat, e: nat): Multiset {
    if rel in rels then StateAt(rels[rel], e) else map[]
  }

  function RootsOf(rels: map<nat, Roots>, rel: nat): Roots {
    if rel in rels then rels[rel] else NO_ROOTS
  }

  /** A log record is an old one or one of the patch. */
  ghost predicate FromPatch(x: LogItem, before: seq<LogItem>, us: Updates, n: nat, rel: nat, e: nat)
    requires n <= |us|
  {
    (x in before && x.edition < e) ||
    (x.edition == e && x.entry.Update? && exists j | 0 <= j < n :: us[j] == (rel, x.entry.tuple, x.entry.diff))
  }

  /** Relation `rel` after the first `n` updates of edition `e`. */
  ghost predicate RelAfter(rels: map<nat, Roots>, was: map<nat, Roots>, us: Updates, n: nat, rel: nat, watermark: nat,
                           e: nat)
    requires n <= |us| && e > 0
  {
    && StateOf(rels, rel, e) == Plus(StateOf(was, rel, e - 1), Tally(UpdatesOf(us[..n], rel)))
    && (forall x: nat | x < e :: StateOf(rels, rel, x) == StateOf(was, rel, x))
    && (rel in rels ==> RelOk(rels[rel], watermark, e))
    && (rel in rels ==> forall x <- rels[rel].log :: FromPatch(x, RootsOf(was, rel).log, us, n, rel, e))
    && RootsOf(was, rel).log <= RootsOf(rels, rel).log
    && (forall j | 0 <= j < n && us[j].0 == rel :: LogItem(e, j, Update(us[j].1, us[j].2)) in RootsOf(rels, rel).log)
    && (rel !in rels ==> rel !in was)
  }

  lemma PatchStart(was: map<nat, Roots>, us: Updates, rel: nat, watermark: nat, e: nat)
    requires e > watermark && (rel in was ==> RelOk(was[rel], watermark, e - 1))
    ensures RelAfter(was, was, us, 0, rel, watermark, e)
  {
    hide Plus, Arranged, LogSum;
    assert us[..0] == [];
    PlusNothing(StateOf(was, rel, e - 1));
    assert Tally([]) == map[];
    if rel in was {
      RelMoves(was[rel], watermark, e - 1);
      ClockMoves(was[rel], watermark, e - 1);
    }
  }

  lemma RootsOk(rels: map<nat, Roots>, rel: nat, watermark: nat, e: nat)
    requires rel in rels ==> RelOk(rels[rel], watermark, e)
    ensures RelOk(RootsOf(rels, rel), watermark, e)
    ensures forall x: nat :: StateAt(RootsOf(rels, rel), x) == StateOf(rels, rel, x)
  {
    NoRootsOk(watermark, e);
  }

  lemma TallySnoc(ps: seq<(Tuple, int)>, t: Tuple, d: int)
    ensures Tally(ps + [(t, d)]) == Plus(Tally(ps), One(t, d))
  {
    assert (ps + [(t, d)])[..|ps|] == ps;
  }

  /** One more update of the patch, into the relation it names. */
  lemma PatchStep(rels: map<nat, Roots>, was: map<nat, Roots>, us: Updates, n: nat, r': Roots, rel: nat, watermark: nat,
                  e: nat)
    requires n < |us| && e > 0 && RelAfter(rels, was, us, n, rel, watermark, e)
    requires us[n].0 == rel ==>
      && RelOk(r', watermark, e) && StateAt(r', e) == Plus(StateOf(rels, rel, e), One(us[n].1, us[n].2))
      && (forall x: nat | x < e :: StateAt(r', x) == StateOf(rels, rel, x))
      && r'.log == RootsOf(rels, rel).log + [LogItem(e, n, Update(us[n].1, us[n].2))]
    ensures RelAfter(if us[n].0 == rel then rels[rel := r'] else rels, was, us, n + 1, rel, watermark, e)
  {
    hide Plus, One, StateAt, RelOk, FromPatch;
    assert us[..n + 1][..n] == us[..n];
    var ps := UpdatesOf(us[..n], rel);
    var log := RootsOf(rels, rel).log;
    if us[n].0 == rel {
      TallySnoc(ps, us[n].1, us[n].2);
      PlusAssociates(StateOf(was, rel, e - 1), Tally(ps), One(us[n].1, us[n].2));
      PatchLog(RootsOf(was, rel).log, log, r'.log, us, n, rel, e);
    } else {
      assert ps + [] == ps;
      if rel in rels {
        PatchLog(RootsOf(was, rel).log, log, log, us, n, rel, e);
      }
    }
  }

  lemma PatchLog(before: seq<LogItem>, log: seq<LogItem>, log': seq<LogItem>, us: Updates, n: nat, rel: nat, e: nat)
    requires n < |us| && forall x <- log :: FromPatch(x, before, us, n, rel, e)
    requires log' == if us[n].0 == rel then log + [LogItem(e, n, Update(us[n].1, us[n].2))] else log
    ensures forall x <- log' :: FromPatch(x, before, us, n + 1, rel, e)
  {
    forall x | x in log' ensures FromPatch(x, before, us, n + 1, rel, e) {
      if x in log {
        assert FromPatch(x, before, us, n, rel, e);
      } else {
        assert us[n] == (rel, x.entry.tuple, x.entry.diff);
      }
    }
  }

  /** Other relations stay as they were. */
  lemma PatchFrame(rels: map<nat, Roots>, was: map<nat, Roots>, us: Updates, n: nat, r': Roots, other: nat, rel: nat,
                   watermark: nat, e: nat)
    requires n <= |us| && e > 0 && other != rel
    ensures RelAfter(rels[other := r'], was, us, n, rel, watermark, e) == RelAfter(rels, was, us, n, rel, watermark, e)
  {
    hide Plus, StateAt, RelOk, FromPatch;
  }

  /** A patch, update by update: each logged and folded into its relation. */
  method Patch(was: map<nat, Roots>, e: nat, us: Updates, ghost watermark: nat) returns (rels: map<nat, Roots>)
    requires e > watermark && forall rel | rel in was :: RelOk(was[rel], watermark, e - 1)
    ensures forall rel :: RelAfter(rels, was, us, |us|, rel, watermark, e)
  {
    hide RelAfter, RelOk, Plus, One, FromPatch;
    rels := was;
    forall rel ensures RelAfter(rels, was, us, 0, rel, watermark, e) {
      PatchStart(was, us, rel, watermark, e);
    }
    for i := 0 to |us|
      invariant forall rel :: RelAfter(rels, was, us, i, rel, watermark, e)
    {
      var rel, t, d := us[i].0, us[i].1, us[i].2;
      AfterIs(rels, was, us, i, rel, watermark, e);
      RootsOk(rels, rel, watermark, e);
      var r' := Fold(RootsOf(rels, rel), e, i, t, d, watermark);
      var rels', n := rels[rel := r'], i + 1;
      forall other ensures RelAfter(rels', was, us, n, other, watermark, e) {
        PatchStep(rels, was, us, i, r', other, watermark, e);
        if other != rel {
          PatchFrame(rels, was, us, n, r', rel, other, watermark, e);
        }
      }
      rels := rels';
    }
  }

  lemma AfterIs(rels: map<nat, Roots>, was: map<nat, Roots>, us: Updates, n: nat, rel: nat, watermark: nat, e: nat)
    requires n <= |us| && e > 0 && RelAfter(rels, was, us, n, rel, watermark, e)
    ensures rel in rels ==> RelOk(rels[rel], watermark, e)
    ensures forall x <- RootsOf(rels, rel).log :: x.edition == e ==> x.entry.Update?
  {
    hide Plus, StateAt, RelOk;
  }

  // ----- a branch -----

  /** The interests an update touches. */
  function Stabbed(canopy: map<nat, Interest>, us: Updates): set<nat> {
    set id, j | id in canopy && 0 <= j < |us| && Touches(canopy[id], us[j].0, Update(us[j].1, us[j].2)) :: id
  }

  class Store {
    var current: nat
    var watermark: nat
    var rels: map<nat, Roots>

    /** Standing interests by id, the asking that made each, the edition each was
        registered at, and which editions fired which. */
    var canopy: map<nat, Interest>
    var next: nat
    var interests: map<Interest, nat>
    var registered: map<nat, nat>
    var fired: set<(nat, nat)>

    ghost predicate Valid()
      reads this
    {
      && watermark <= current
      && (forall rel | rel in rels :: RelOk(rels[rel], watermark, current))
      && Routed(rels, canopy, registered, fired) && FiredTruly(rels, canopy, watermark, fired)
      && InterestsOk(interests, canopy, registered, next, current)
    }

    ghost function State(rel: nat, e: nat): Multiset
      reads this
    {
      StateOf(rels, rel, e)
    }

    constructor ()
      ensures Valid() && current == 0 && forall rel, e :: State(rel, e) == map[]
    {
      current, watermark, rels, canopy, next := 0, 0, map[], map[], 0;
      interests, registered, fired := map[], map[], {};
    }

    /** Applies a patch as the next edition and routes it. */
    method Apply(us: Updates)
      requires Valid()
      modifies this`current, this`rels, this`fired
      ensures Valid() && current == old(current) + 1
      ensures forall rel :: State(rel, current) == Plus(old(State(rel, current)), Tally(UpdatesOf(us, rel)))
      ensures forall rel, e: nat | e < current :: State(rel, e) == old(State(rel, e))
    {
      hide RelAfter, RelOk, Routed, FiredTruly, InterestsOk, Plus;
      var e := current + 1;
      ghost var was := rels;
      var now := Patch(rels, e, us, watermark);
      assert us[..|us|] == us;
      forall rel ensures StateOf(now, rel, e) == Plus(StateOf(was, rel, e - 1), Tally(UpdatesOf(us, rel)))
        && (forall x: nat | x < e :: StateOf(now, rel, x) == StateOf(was, rel, x))
        && (rel in now ==> RelOk(now[rel], watermark, e))
      {
        AfterMeans(now, was, us, rel, watermark, e);
      }
      var hits := Stabbed(canopy, us);
      PatchRouted(now, was, us, watermark, e, canopy, registered, fired, hits);
      PatchFires(now, was, us, watermark, e, canopy, fired, hits);
      InterestsWait(interests, canopy, registered, next, current, e);
      fired := Fire(fired, hits, e);
      rels := now;
      current := e;
    }

    /** A patch, unconditionally. */
    method Commit(us: Updates) returns (e: nat)
      requires Valid()
      modifies this`current, this`rels, this`fired
      ensures Valid() && current == old(current) + 1 == e
      ensures forall rel :: State(rel, e) == Plus(old(State(rel, current)), Tally(UpdatesOf(us, rel)))
      ensures forall rel, x: nat | x < e :: State(rel, x) == old(State(rel, x))
    {
      Apply(us);
      e := current;
    }

    /** Whether a fact holds now. */
    method HoldsNow(rel: nat, t: Tuple) returns (holds: bool)
      ensures holds <==> W(State(rel, current), t) > 0
    {
      holds := rel in rels && W(StateAt(rels[rel], current), t) > 0;
    }

    /** A patch only if every precondition holds in the state it would be applied to;
        otherwise nothing changes. */
    method CommitIf(pre: seq<(nat, Tuple)>, us: Updates) returns (e: Option<nat>)
      requires Valid()
      modifies this`current, this`rels, this`fired
      ensures Valid()
      ensures e.Some? <==> forall p <- pre :: W(old(State(p.0, current)), p.1) > 0
      ensures e.None? ==> current == old(current) && rels == old(rels) && fired == old(fired)
      ensures e.Some? ==> current == old(current) + 1 == e.value
      ensures e.Some? ==> forall rel :: State(rel, current) == Plus(old(State(rel, current)), Tally(UpdatesOf(us, rel)))
      ensures e.Some? ==> forall rel, x: nat | x < current :: State(rel, x) == old(State(rel, x))
    {
      for i := 0 to |pre|
        invariant current == old(current) && rels == old(rels) && fired == old(fired)
        invariant forall p <- pre[..i] :: W(State(p.0, current), p.1) > 0
      {
        var holds := HoldsNow(pre[i].0, pre[i].1);
        if !holds {
          assert pre[i] in pre;
          return None;
        }
        assert pre[..i + 1] == pre[..i] + [pre[i]];
      }
      assert pre[..|pre|] == pre;
      Apply(us);
      e := Some(current);
    }

    /** The facts at an edition, or none below the watermark. */
    method ReadAt(rel: nat, at: nat) returns (r: Option<Multiset>)
      ensures r == if at < watermark then None else Some(State(rel, at))
    {
      if at < watermark {
        return None;
      }
      r := Some(if rel in rels then StateAt(rels[rel], at) else map[]);
    }

    /** The raw updates of `(from, to]`, a graft's rows read back from its edition's own
        root. Together they are exactly the difference of the two states. */
    method ScanUpdates(rel: nat, from: nat, to: nat) returns (r: Option<seq<(Tuple, int)>>)
      requires Valid()
      ensures r.None? <==> from < watermark
      ensures r.Some? && from <= to ==> Tally(r.value) == Minus(State(rel, to), State(rel, from))
    {
      hide RelOk, Routed, FiredTruly, InterestsOk, Expand, LogSum, Minus;
      if from < watermark {
        return None;
      }
      ghost var roots := RootsOf(rels, rel);
      RootsOk(rels, rel, watermark, current);
      ScanIsDifference(roots, watermark, current, from, to);
      if rel !in rels {
        NothingLogged(from, to);
        return Some([]);
      }
      var out: seq<(Tuple, int)> := [];
      var log, versions := rels[rel].log, rels[rel].versions;
      NoEntries(versions, from, to);
      for i := 0 to |log|
        invariant Tally(out) == LogSum(versions, log[..i], from, to)
      {
        assert log[..i + 1] == log[..i] + [log[i]];
        LogSumSnoc(versions, log[..i], log[i], from, to);
        if from < log[i].edition <= to {
          var rows := ExpandRows(versions, log[i]);
          TallyConcat(out, rows);
          out := out + rows;
        }
      }
      assert log[..|log|] == log;
      r := Some(out);
    }

    /** Folds history up to an edition into one checkpoint. No read at or above the new
        watermark changes. */
    method Consolidate(upTo: nat) returns (wm: nat)
      requires Valid()
      modifies this`rels, this`watermark
      ensures Valid() && wm == watermark
      ensures watermark == if Least(upTo, current) <= old(watermark) then old(watermark) else Least(upTo, current)
      ensures forall rel, e | e >= watermark :: State(rel, e) == old(State(rel, e))
    {
      hide RelOk, Routed, FiredTruly, InterestsOk;
      var target := Least(upTo, current);
      if target <= watermark {
        return watermark;
      }
      ghost var was := rels;
      rels := map rel | rel in rels :: Consolidated(rels[rel], target);
      forall rel, e | e >= target ensures StateOf(rels, rel, e) == StateOf(was, rel, e) {
        if rel in was {
          ConsolidatedReads(was[rel], target, e);
        }
      }
      forall rel | rel in rels ensures RelOk(rels[rel], target, current) {
        ConsolidatedOk(was[rel], watermark, current, target);
      }
      ConsolidatedRouting(was, rels, canopy, registered, fired, watermark, target);
      watermark := target;
      wm := target;
    }

    constructor Branch(at: nat, watermark: nat, rels: map<nat, Roots>)
      requires watermark <= at && forall rel | rel in rels :: RelOk(rels[rel], watermark, at)
      ensures Valid() && current == at && this.watermark == watermark && this.rels == rels
    {
      this.current, this.watermark, this.rels, canopy, next := at, watermark, rels, map[], 0;
      interests, registered, fired := map[], map[], {};
    }

    /** A branch of its own as of `at`, none below the watermark. It agrees with its
        parent on every edition from the watermark to the fork, and changes nothing. */
    method ForkAt(at: nat) returns (child: Option<Store>)
      requires Valid()
      ensures child.None? <==> at < watermark
      ensures child.Some? ==> fresh(child.value) && child.value.Valid()
      ensures child.Some? ==> child.value.current == at && child.value.watermark == watermark
      ensures child.Some? ==> forall rel, e: nat | e <= at :: child.value.State(rel, e) == State(rel, e)
    {
      hide RelOk, Routed, FiredTruly, InterestsOk;
      if at < watermark {
        return None;
      }
      var kept := rels;
      if at != current {
        kept := map rel | rel in rels && (AsOf(rels[rel], at).versions != map[] || AsOf(rels[rel], at).log != []) ::
          AsOf(rels[rel], at);
        forall rel | rel in kept ensures RelOk(kept[rel], watermark, at) {
          ForkedOk(rels[rel], watermark, current, at);
        }
        forall rel, e: nat | e <= at ensures StateOf(kept, rel, e) == StateOf(rels, rel, e) {
          if rel in rels {
            AsOfReads(rels[rel], at, e);
            EmptyRoots(AsOf(rels[rel], at), e);
          }
        }
      }
      var c := new Store.Branch(at, watermark, kept);
      child := Some(c);
    }

    /** An ordering of `rel` by `col`, made from the present state if there is none yet. No
        read can tell the difference. */
    method EnsureOrder(rel: nat, col: nat)
      requires Valid()
      modifies this`rels
      ensures Valid() && forall r, e: nat :: State(r, e) == old(State(r, e))
      ensures rels.Keys == old(rels).Keys && forall r | r in rels :: rels[r].log == old(rels)[r].log
      ensures rel in rels ==> col in rels[rel].orders && rels[rel].orders[col] == Arranged(State(rel, current), col)
    {
      hide Traced, LogOk, Routed, FiredTruly, InterestsOk, Arranged, StateAt;
      if rel !in rels || col in rels[rel].orders {
        return;
      }
      ghost var was := rels;
      var roots := rels[rel];
      var arr := Arrange(StateAt(roots, current), col);
      var roots' := roots.(orders := roots.orders[col := arr]);
      SameHistory(roots, roots', watermark, current);
      rels := rels[rel := roots'];
      SameRouting(was, rels, canopy, registered, fired, watermark);
    }

    /** The facts whose column lies in `[lo, hi)`, from whichever index serves: the
        primary order, a secondary one, or a filtered read. All give the same rows. */
    method ReadRangeOn(rel: nat, at: nat, col: nat, lo: Value, hi: Value) returns (r: Option<Multiset>)
      requires Valid()
      modifies this`rels
      ensures Valid() && forall r, e: nat :: State(r, e) == old(State(r, e))
      ensures at < watermark ==> r == None
      ensures at >= watermark ==> r == Some(Keep(State(rel, at), t => ColumnIn(t, col, lo, hi)))
    {
      hide RelOk, Routed, FiredTruly, InterestsOk, Arranged, Unarranged, Keep;
      if at < watermark {
        return None;
      }
      NothingKept(t => ColumnIn(t, col, lo, hi));
      if col == 0 {
        LeadColumn(State(rel, at), lo, hi);
        return Some(if rel in rels then Keep(StateAt(rels[rel], at), t => InRange(t, [lo], [hi])) else map[]);
      }
      if at != current {
        return Some(if rel in rels then Keep(StateAt(rels[rel], at), t => ColumnIn(t, col, lo, hi)) else map[]);
      }
      EnsureOrder(rel, col);
      if rel !in rels {
        return Some(map[]);
      }
      ArrangedRange(State(rel, at), col, lo, hi);
      var rows := TurnBack(Keep(rels[rel].orders[col], k => InRange(k, [lo], [hi])), col);
      r := Some(rows);
    }

    /** The facts whose column is one of `keys`: probed span by span where every key has
        a successor, and read and filtered otherwise. */
    method Lookup(rel: nat, at: nat, col: nat, keys: set<Value>) returns (r: Option<Multiset>)
      requires Valid()
      modifies this`rels
      ensures Valid() && forall r, e: nat :: State(r, e) == old(State(r, e))
      ensures at < watermark ==> r == None
      ensures at >= watermark ==> r == Some(Keep(State(rel, at), t => col < |t| && t[col] in keys))
    {
      hide RelOk, Routed, FiredTruly, InterestsOk, Arranged, Unarranged, Keep;
      if at < watermark {
        return None;
      }
      NothingKept(t => col < |t| && t[col] in keys);
      if (forall k <- keys :: Successor(k).Some?) && (col == 0 || at == current) {
        if col == 0 {
          if rel !in rels {
            return Some(map[]);
          }
          var rows := Probe(StateAt(rels[rel], at), keys);
          ProbedLead(State(rel, at), keys, rows);
          return Some(rows);
        }
        EnsureOrder(rel, col);
        if rel !in rels {
          return Some(map[]);
        }
        var probed := Probe(rels[rel].orders[col], keys);
        var rows := TurnBack(probed, col);
        ProbedArranged(State(rel, at), col, keys, probed);
        return Some(rows);
      }
      r := Some(if rel in rels then Keep(StateAt(rels[rel], at), t => col < |t| && t[col] in keys) else map[]);
    }

    /** Whether anything was logged for the relations in `(from, to]`. */
    method TouchedSince(from: nat, to: nat, asked: set<nat>) returns (touched: bool)
      ensures from < watermark ==> touched
      ensures from >= watermark ==>
        (touched <==> exists rel | rel in asked && rel in rels :: LogsIn(rels[rel].log, from, to))
    {
      touched := from < watermark || exists rel | rel in asked && rel in rels :: LogsIn(rels[rel].log, from, to);
    }

    /** Whether a row of `rel` in `[lo, hi)` may have changed in `(from, to]`. Below the
        watermark nothing can be said but yes. Past it, the first asking registers the
        interest, and routing answers for editions after it; an interval from before falls
        back to the whole relation. A "no" is never wrong; and a "yes" by routing names a
        change that really touches the span. */
    method TouchedRangeSince(from: nat, to: nat, rel: nat, lo: Tuple, hi: Tuple) returns (touched: bool)
      requires Valid()
      modifies this`canopy, this`next, this`interests, this`registered
      ensures Valid()
      ensures from >= watermark ==> Interest(rel, lo, hi) in interests
      ensures from < watermark ==> touched && canopy == old(canopy) && next == old(next)
                                   && interests == old(interests) && registered == old(registered)
      ensures (exists e: nat, t ::
        from < e <= to && InRange(t, lo, hi) && W(State(rel, e), t) != W(State(rel, e - 1), t)) ==> touched
      ensures touched && from >= watermark && Interest(rel, lo, hi) in old(interests)
              && old(registered)[old(interests)[Interest(rel, lo, hi)]] <= from ==>
              exists e :: from < e <= to && HasTouch(rels, Interest(rel, lo, hi), e)
    {
      hide RelOk, Touches, Routed, FiredTruly, InterestsOk, StateAt;
      if from < watermark {
        return true;
      }
      var i := Interest(rel, lo, hi);
      var id, isFresh := Register(i);
      if to <= from {
        return false;
      }
      if isFresh || from < registered[id] {
        touched := TouchedSince(from, to, {rel});
        QuietRelation(rels, rel, watermark, current, from, to, touched);
        return touched;
      }
      touched := exists f | f in fired :: f.0 == id && from < f.1 <= to;
      FiringTells(rels, canopy, registered, interests, next, i, id, watermark, current, from, to, fired, touched);
    }

    /** The standing interest in a span: the one asked for before, or a new one that
        routing knows of from now on. */
    method Register(i: Interest) returns (id: nat, isFresh: bool)
      requires Valid()
      modifies this`canopy, this`next, this`interests, this`registered
      ensures Valid() && i in interests && interests[i] == id && id in canopy && canopy[id] == i && id in registered
      ensures isFresh <==> i !in old(interests)
      ensures !isFresh ==> registered == old(registered) && interests == old(interests) && canopy == old(canopy)
    {
      hide RelOk, Touches, Routed, FiredTruly;
      if i in interests {
        return interests[i], false;
      }
      NewInterest(rels, canopy, registered, fired, watermark, interests, next, current, i);
      id, isFresh := next, true;
      canopy, interests, registered, next := canopy[id := i], interests[i := id], registered[id := current], next + 1;
    }

    /** Gives each relation of `asked` a second copy of its block, `shift` further on, in a
        single edition. It is refused, and nothing changes, if some block is not self-
        contained or would land on rows. */
    method InstanceTemplate(asked: set<nat>, blo: int, bhi: int, shift: int) returns (e: Option<nat>)
      requires Valid()
      modifies this`current, this`rels, this`fired
      ensures Valid()
      ensures e.None? <==> exists rel :: rel in asked && Refused(old(State(rel, current)), blo, bhi, shift)
      ensures e.None? ==> current == old(current) && rels == old(rels) && fired == old(fired)
      ensures e.Some? ==> current == old(current) + 1 == e.value
      ensures e.Some? ==> forall rel, x: nat | x < current :: State(rel, x) == old(State(rel, x))
      ensures e.Some? ==>
        forall rel | rel in asked :: State(rel, current) == Instanced(old(State(rel, current)), blo, bhi, shift)
      ensures e.Some? ==> forall rel | rel !in asked :: State(rel, current) == old(State(rel, current))
    {
      hide RelOk, Routed, FiredTruly, InterestsOk, Instanced, Refused, Graftable, StateAt;
      ghost var was := rels;
      var plan := PlanGrafts(rels, current, asked, blo, bhi, shift);
      match plan {
        case None =>
          e := None;
        case Some(grafts) =>
          ApplyGrafts(grafts, blo, bhi, shift);
          GraftableIs(was, old(current), asked, grafts, blo, bhi, shift);
          e := Some(current);
      }
    }

    /** Commits new roots as the next edition: one log entry per relation, its span
        routed whole, and its orderings dropped to be rebuilt. */
    method ApplyGrafts(grafts: map<nat, Multiset>, blo: int, bhi: int, shift: int)
      requires Valid() && grafts.Keys <= rels.Keys
      requires forall rel | rel in grafts :: Graftable(State(rel, current), grafts[rel], blo, bhi, shift)
      modifies this`current, this`rels, this`fired
      ensures Valid() && current == old(current) + 1
      ensures forall rel, x: nat | x < current :: State(rel, x) == old(State(rel, x))
      ensures forall rel :: State(rel, current) == if rel in grafts then grafts[rel] else old(State(rel, current))
    {
      hide RelOk, Routed, FiredTruly, InterestsOk, Graftable, Touches, GraftRoots, StateAt, Overlapped, Fire;
      var e := current + 1;
      var item := LogItem(e, 0, GraftEntry([Ent(blo + shift)], [Ent(bhi + shift)]));
      ghost var was := rels;
      var now := map rel | rel in rels ::
        if rel in grafts then GraftRoots(rels[rel], e, grafts[rel], item) else rels[rel];
      AllGrafted(was, now, grafts, watermark, e, blo, bhi, shift, item);
      GraftLogs(was, now, grafts, e, item);
      GraftRouted(was, now, grafts.Keys, item, e, canopy, registered, fired, watermark);
      GraftFires(was, now, grafts.Keys, item, e, canopy, fired, watermark);
      InterestsWait(interests, canopy, registered, next, current, e);
      fired := Fire(fired, Overlapped(canopy, grafts.Keys, item.entry), e);
      rels := now;
      current := e;
    }
  }

  lemma AfterMeans(rels: map<nat, Roots>, was: map<nat, Roots>, us: Updates, rel: nat, watermark: nat, e: nat)
    requires e > 0 && RelAfter(rels, was, us, |us|, rel, watermark, e)
    ensures StateOf(rels, rel, e) == Plus(StateOf(was, rel, e - 1), Tally(UpdatesOf(us, rel)))
    ensures forall x: nat | x < e :: StateOf(rels, rel, x) == StateOf(was, rel, x)
    ensures rel in rels ==> RelOk(rels[rel], watermark, e)
  {
    hide Plus, StateOf, RelOk;
    assert us[..|us|] == us;
  }

  lemma InterestsWait(interests: map<Interest, nat>, canopy: map<nat, Interest>, registered: map<nat, nat>, next: nat,
                      current: nat, e: nat)
    requires InterestsOk(interests, canopy, registered, next, current) && current <= e
    ensures InterestsOk(interests, canopy, registered, next, e)
  {
  }

  /** A patch routed by its updates fires every interest it touches. */
  lemma PatchRouted(rels: map<nat, Roots>, was: map<nat, Roots>, us: Updates, watermark: nat, e: nat,
                    canopy: map<nat, Interest>,
                    registered: map<nat, nat>, fired: set<(nat, nat)>, hits: set<nat>)
    requires e > 0 && forall rel :: RelAfter(rels, was, us, |us|, rel, watermark, e)
    requires Routed(was, canopy, registered, fired) && hits == Stabbed(canopy, us)
    ensures Routed(rels, canopy, registered, Fire(fired, hits, e))
  {
    hide Plus, StateOf, RelOk, RoutedIn, FromPatch, Stabbed, Fire;
    forall id, rel | id in canopy && rel in rels
      ensures RoutedIn(rels[rel].log, id, canopy[id], rel, if id in registered then registered[id] else 0,
        Fire(fired, hits, e))
    {
      var since := if id in registered then registered[id] else 0;
      assert RelAfter(rels, was, us, |us|, rel, watermark, e);
      assert rel in was ==> RoutedIn(was[rel].log, id, canopy[id], rel, since, fired);
      PatchRoutedIn(rels[rel].log, RootsOf(was, rel).log, us, rel, e, canopy, id, since, fired);
    }
  }

  lemma PatchRoutedIn(log: seq<LogItem>, before: seq<LogItem>, us: Updates, rel: nat, e: nat,
                      canopy: map<nat, Interest>, id: nat,
                      since: nat, fired: set<(nat, nat)>)
    requires id in canopy && forall x <- log :: FromPatch(x, before, us, |us|, rel, e)
    requires before == [] || RoutedIn(before, id, canopy[id], rel, since, fired)
    ensures RoutedIn(log, id, canopy[id], rel, since, Fire(fired, Stabbed(canopy, us), e))
  {
    hide Touches;
    forall x | x in log && x.edition > since && Touches(canopy[id], rel, x.entry)
      ensures (id, x.edition) in Fire(fired, Stabbed(canopy, us), e)
    {
      if x.edition == e {
        var j :| 0 <= j < |us| && us[j] == (rel, x.entry.tuple, x.entry.diff);
        assert Touches(canopy[id], us[j].0, Update(us[j].1, us[j].2));
      }
    }
  }

  lemma PatchFires(rels: map<nat, Roots>, was: map<nat, Roots>, us: Updates, watermark: nat, e: nat,
                   canopy: map<nat, Interest>,
                   fired: set<(nat, nat)>, hits: set<nat>)
    requires e > 0 && forall rel :: RelAfter(rels, was, us, |us|, rel, watermark, e)
    requires FiredTruly(was, canopy, watermark, fired) && hits == Stabbed(canopy, us)
    ensures FiredTruly(rels, canopy, watermark, Fire(fired, hits, e))
  {
    hide Plus, StateOf, RelOk, Touches, FromPatch;
    var fired' := Fire(fired, hits, e);
    forall f | f in fired' && f.1 > watermark ensures f.0 in canopy && HasTouch(rels, canopy[f.0], f.1) {
      var i := canopy[f.0];
      assert RelAfter(rels, was, us, |us|, i.rel, watermark, e);
      if f in fired {
        assert HasTouch(was, i, f.1);
        var x :| x in was[i.rel].log && x.edition == f.1 && Touches(i, i.rel, x.entry);
        assert x in rels[i.rel].log;
      } else {
        var j :| 0 <= j < |us| && Touches(i, us[j].0, Update(us[j].1, us[j].2));
        TouchRel(i, us[j].0, Update(us[j].1, us[j].2));
        assert LogItem(e, j, Update(us[j].1, us[j].2)) in rels[i.rel].log;
      }
    }
  }

  lemma TouchRel(i: Interest, rel: nat, entry: LogEntry)
    requires Touches(i, rel, entry)
    ensures i.rel == rel
  {
  }

  function Least(a: nat, b: nat): nat {
    if a < b then a else b
  }

  lemma EmptyRoots(r: Roots, e: nat)
    ensures r.versions == map[] ==> StateAt(r, e) == map[]
  {
  }

  lemma ForkedOk(r: Roots, watermark: nat, current: nat, at: nat)
    requires RelOk(r, watermark, current) && watermark <= at
    ensures RelOk(AsOf(r, at), watermark, at)
  {
    AsOfKeeps(r, watermark, if at <= current then current else at, at);
  }

  lemma ConsolidatedOk(r: Roots, watermark: nat, current: nat, target: nat)
    requires RelOk(r, watermark, current) && watermark <= target <= current
    ensures RelOk(Consolidated(r, target), target, current)
  {
    ConsolidationKeeps(r, watermark, current, target);
  }

  /** The log that `r'` keeps of `r`'s: everything above `target`. */
  ghost predicate Thinned(r: Roots, r': Roots, target: nat) {
    forall x :: x in r'.log <==> x in r.log && x.edition > target
  }

  lemma ConsolidatedRouting(was: map<nat, Roots>, rels: map<nat, Roots>, canopy: map<nat, Interest>,
                            registered: map<nat, nat>,
                            fired: set<(nat, nat)>, watermark: nat, target: nat)
    requires rels == (map rel | rel in was :: Consolidated(was[rel], target)) && watermark <= target
    requires Routed(was, canopy, registered, fired) && FiredTruly(was, canopy, watermark, fired)
    ensures Routed(rels, canopy, registered, fired) && FiredTruly(rels, canopy, target, fired)
  {
    hide Consolidated, Routed, FiredTruly;
    forall rel | rel in rels ensures Thinned(was[rel], rels[rel], target) {
      ThinnedLog(was[rel], target);
    }
    ThinnedRouting(was, rels, canopy, registered, fired, watermark, target);
  }

  lemma ThinnedLog(r: Roots, target: nat)
    ensures Thinned(r, Consolidated(r, target), target)
  {
    AboveIn(r.log, target);
  }

  lemma ThinnedRouting(was: map<nat, Roots>, rels: map<nat, Roots>, canopy: map<nat, Interest>,
                       registered: map<nat, nat>,
                       fired: set<(nat, nat)>, watermark: nat, target: nat)
    requires rels.Keys == was.Keys && watermark <= target && forall rel | rel in rels ::
      Thinned(was[rel], rels[rel], target)
    requires Routed(was, canopy, registered, fired) && FiredTruly(was, canopy, watermark, fired)
    ensures Routed(rels, canopy, registered, fired) && FiredTruly(rels, canopy, target, fired)
  {
    hide Touches;
    forall id, rel | id in canopy && rel in rels
      ensures RoutedIn(rels[rel].log, id, canopy[id], rel, if id in registered then registered[id] else 0, fired)
    {
      assert Thinned(was[rel], rels[rel], target);
      assert RoutedIn(was[rel].log, id, canopy[id], rel, if id in registered then registered[id] else 0, fired);
    }
    forall f | f in fired && f.1 > target ensures f.0 in canopy && HasTouch(rels, canopy[f.0], f.1) {
      assert HasTouch(was, canopy[f.0], f.1);
      assert Thinned(was[canopy[f.0].rel], rels[canopy[f.0].rel], target);
    }
  }

  // ----- scanning the log -----

  lemma ScanIsDifference(r: Roots, watermark: nat, current: nat, from: nat, to: nat)
    requires RelOk(r, watermark, current) && from >= watermark
    ensures from <= to ==> Logged(r, from, to) == Minus(StateAt(r, to), StateAt(r, from))
  {
    hide Plus, StateAt, Minus, LogSum, Arranged;
    if from <= to {
      TraceLaw(r, watermark, from, to);
      SameWeights(Logged(r, from, to), Minus(StateAt(r, to), StateAt(r, from)));
    }
  }

  lemma NothingLogged(from: int, to: int)
    ensures Tally([]) == Logged(NO_ROOTS, from, to)
  {
  }

  lemma NoEntries(v: map<nat, Multiset>, from: int, to: int)
    ensures Tally([]) == LogSum(v, [], from, to)
  {
  }

  lemma {:induction false} TallyConcat(a: seq<(Tuple, int)>, b: seq<(Tuple, int)>)
    ensures Tally(a + b) == Plus(Tally(a), Tally(b))
    decreases |b|
  {
    hide Plus, One;
    if b == [] {
      assert a + b == a;
      assert Tally([]) == map[];
      PlusNothing(Tally(a));
    } else {
      var n := |b| - 1;
      assert (a + b)[..|a + b| - 1] == a + b[..n];
      TallyConcat(a, b[..n]);
      PlusAssociates(Tally(a), Tally(b[..n]), One(b[n].0, b[n].1));
    }
  }

  /** The rows one log entry stands for. */
  method ExpandRows(v: map<nat, Multiset>, item: LogItem) returns (rows: seq<(Tuple, int)>)
    ensures Tally(rows) == Expand(v, item)
  {
    match item.entry {
      case Update(t, d) =>
        rows := [(t, d)];
        OneRow(t, d);
      case GraftEntry(lo, hi) =>
        rows := ListRows(if item.edition in v then Keep(v[item.edition], t => InRange(t, lo, hi)) else map[]);
    }
  }

  lemma OneRow(t: Tuple, d: int)
    ensures Tally([(t, d)]) == One(t, d)
  {
    assert [(t, d)][..0] == [];
    PlusNothing(One(t, d));
  }

  method ListRows(m: Multiset) returns (rows: seq<(Tuple, int)>)
    ensures Tally(rows) == m
  {
    hide Plus, One;
    rows := [];
    var todo := m.Keys;
    while todo != {}
      invariant todo <= m.Keys
      invariant forall t :: W(Tally(rows), t) == if t in todo then 0 else W(m, t)
      decreases todo
    {
      var t :| t in todo;
      TallySnoc(rows, t, m[t]);
      rows := rows + [(t, m[t])];
      todo := todo - {t};
    }
    SameWeights(Tally(rows), m);
  }

  // ----- reading through an ordering -----

  method Arrange(m: Multiset, col: nat) returns (arr: Multiset)
    ensures arr == Arranged(m, col)
  {
    hide Arranged;
    arr := map[];
    var todo := m.Keys;
    while todo != {}
      invariant todo <= m.Keys
      invariant forall k :: W(arr, k) == if col < |k| && Unrotate(k, col) !in todo then W(m, Unrotate(k, col)) else 0
      decreases todo
    {
      var t :| t in todo;
      RotateRoundTrip(t, col);
      forall k ensures Rotate(t, col) == Some(k) <==> col < |k| && Unrotate(k, col) == t {
        RotateRoundTrip(k, col);
      }
      if Rotate(t, col).Some? {
        arr := SetWeight(arr, Rotate(t, col).value, m[t]);
      }
      todo := todo - {t};
    }
    SameWeights(arr, Arranged(m, col));
  }

  lemma RotateExists(col: nat)
    ensures forall t: Tuple :: Rotate(t, col).Some? <==> col < |t|
  {
  }

  lemma TurnedOnce(k: Tuple, col: nat)
    requires col < |k|
    ensures forall t :: t == Unrotate(k, col) <==> col < |t| && Rotate(t, col).value == k
  {
    hide Rotate, Unrotate;
    RotateExists(col);
    RotateRoundTrip(k, col);
    forall t ensures t == Unrotate(k, col) <==> col < |t| && Rotate(t, col).value == k {
      RotateRoundTrip(t, col);
    }
  }

  /** The rows of an ordering turned back to the primary one. */
  method TurnBack(m: Multiset, col: nat) returns (rows: Multiset)
    requires forall k <- m :: col < |k|
    ensures rows == Unarranged(m, col)
  {
    hide Unarranged, Rotate, Unrotate, SetWeight;
    rows := map[];
    RotateExists(col);
    var todo := m.Keys;
    while todo != {}
      invariant todo <= m.Keys
      invariant forall t ::
        W(rows, t) == if col < |t| && Rotate(t, col).value !in todo then W(m, Rotate(t, col).value) else 0
      decreases todo
    {
      var k :| k in todo;
      TurnedOnce(k, col);
      rows := SetWeight(rows, Unrotate(k, col), m[k]);
      todo := todo - {k};
    }
    SameWeights(rows, Unarranged(m, col));
  }

  /** Each key's span, one range read apiece. */
  method Probe(m: Multiset, keys: set<Value>) returns (rows: Multiset)
    requires forall k <- keys :: Successor(k).Some?
    ensures forall t :: W(rows, t) == if t != [] && t[0] in keys then W(m, t) else 0
  {
    hide Keep, Plus;
    rows := map[];
    var todo := keys;
    while todo != {}
      invariant todo <= keys
      invariant forall t :: W(rows, t) == if t != [] && t[0] in keys - todo then W(m, t) else 0
      decreases todo
    {
      var k :| k in todo;
      var found := Keep(m, t => InRange(t, [k], [Successor(k).value]));
      forall t ensures InRange(t, [k], [Successor(k).value]) <==> t != [] && t[0] == k {
        LeadRange(t, k, Successor(k).value);
        if t != [] {
          SuccessorSpan(k, t[0]);
        }
      }
      rows := Plus(rows, found);
      todo := todo - {k};
    }
  }

  lemma NothingKept(p: Tuple -> bool)
    ensures Keep(map[], p) == map[]
  {
  }

  lemma LeadColumn(m: Multiset, lo: Value, hi: Value)
    ensures Keep(m, t => InRange(t, [lo], [hi])) == Keep(m, t => ColumnIn(t, 0, lo, hi))
  {
    hide Keep;
    forall t ensures InRange(t, [lo], [hi]) <==> ColumnIn(t, 0, lo, hi) {
      LeadRange(t, lo, hi);
    }
    SameWeights(Keep(m, t => InRange(t, [lo], [hi])), Keep(m, t => ColumnIn(t, 0, lo, hi)));
  }

  lemma ProbedLead(m: Multiset, keys: set<Value>, rows: Multiset)
    requires forall t :: W(rows, t) == if t != [] && t[0] in keys then W(m, t) else 0
    ensures rows == Keep(m, t => 0 < |t| && t[0] in keys)
  {
    hide Keep;
    SameWeights(rows, Keep(m, t => 0 < |t| && t[0] in keys));
  }

  lemma ProbedArranged(m: Multiset, col: nat, keys: set<Value>, probed: Multiset)
    requires forall k :: W(probed, k) == if k != [] && k[0] in keys then W(Arranged(m, col), k) else 0
    ensures Unarranged(probed, col) == Keep(m, t => col < |t| && t[col] in keys)
  {
    hide Keep, Arranged, Unarranged;
    var a, b := Unarranged(probed, col), Keep(m, t => col < |t| && t[col] in keys);
    forall t ensures W(a, t) == W(b, t) {
      RotateRoundTrip(t, col);
    }
    SameWeights(a, b);
  }

  /** New orderings route nothing. */
  lemma SameRouting(was: map<nat, Roots>, rels: map<nat, Roots>, canopy: map<nat, Interest>, registered: map<nat, nat>,
                    fired: set<(nat, nat)>, watermark: nat)
    requires rels.Keys == was.Keys && forall rel | rel in rels :: rels[rel].log == was[rel].log
    requires Routed(was, canopy, registered, fired) && FiredTruly(was, canopy, watermark, fired)
    ensures Routed(rels, canopy, registered, fired) && FiredTruly(rels, canopy, watermark, fired)
  {
    hide Touches;
    forall id, rel | id in canopy && rel in rels
      ensures RoutedIn(rels[rel].log, id, canopy[id], rel, if id in registered then registered[id] else 0, fired)
    {
      assert RoutedIn(was[rel].log, id, canopy[id], rel, if id in registered then registered[id] else 0, fired);
    }
    forall f | f in fired && f.1 > watermark ensures f.0 in canopy && HasTouch(rels, canopy[f.0], f.1) {
      assert HasTouch(was, canopy[f.0], f.1);
    }
  }

  // ----- what changed -----

  predicate LogsIn(log: seq<LogItem>, from: nat, to: nat) {
    exists x | x in log :: from < x.edition <= to
  }

  /** A log quiet about an interest leaves every row it covers as it was. */
  lemma QuietSpan(r: Roots, watermark: nat, current: nat, from: nat, to: nat, i: Interest)
    requires RelOk(r, watermark, current) && from >= watermark
    requires forall x <- r.log :: from < x.edition <= to ==> !Touches(i, i.rel, x.entry)
    ensures forall e: nat, t | from < e <= to && InRange(t, i.lo, i.hi) ::
      W(StateAt(r, e), t) == W(StateAt(r, e - 1), t)
  {
    hide StateAt, LogSum, Touches, Arranged, InRange;
    forall e: nat, t | from < e <= to && InRange(t, i.lo, i.hi) ensures W(StateAt(r, e), t) == W(StateAt(r, e - 1), t) {
      UntouchedLog(r.versions, r.log, e - 1, e, i, t);
      assert StateAt(r, e) == Plus(StateAt(r, e - 1), Logged(r, e - 1, e));
    }
  }

  lemma QuietRelation(rels: map<nat, Roots>, rel: nat, watermark: nat, current: nat, from: nat, to: nat, touched: bool)
    requires (rel in rels ==> RelOk(rels[rel], watermark, current)) && from >= watermark
    requires touched <==> exists r | r in {rel} && r in rels :: LogsIn(rels[r].log, from, to)
    ensures !touched ==>
      forall e: nat, t | from < e <= to :: W(StateOf(rels, rel, e), t) == W(StateOf(rels, rel, e - 1), t)
  {
    hide StateAt, RelOk, Touches;
    if !touched && rel in rels {
      forall e: nat, t | from < e <= to ensures W(StateOf(rels, rel, e), t) == W(StateOf(rels, rel, e - 1), t) {
        QuietRow(rels[rel], watermark, current, from, to, rel, t);
      }
    }
  }

  lemma QuietRow(r: Roots, watermark: nat, current: nat, from: nat, to: nat, rel: nat, t: Tuple)
    requires RelOk(r, watermark, current) && from >= watermark && !LogsIn(r.log, from, to)
    ensures forall e: nat | from < e <= to :: W(StateAt(r, e), t) == W(StateAt(r, e - 1), t)
  {
    hide StateAt, Arranged, LogSum, Plus;
    forall e: nat | from < e <= to ensures W(StateAt(r, e), t) == W(StateAt(r, e - 1), t) {
      LogSumNone(r.versions, r.log, e - 1, e);
      assert StateAt(r, e) == Plus(StateAt(r, e - 1), Logged(r, e - 1, e));
    }
  }

  lemma QuietInterest(rels: map<nat, Roots>, i: Interest, id: nat, since: nat, watermark: nat, current: nat, from: nat,
                      to: nat,
                      fired: set<(nat, nat)>)
    requires (i.rel in rels ==> RelOk(rels[i.rel], watermark, current)) && from >= watermark && since <= from
    requires i.rel in rels ==> RoutedIn(rels[i.rel].log, id, i, i.rel, since, fired)
    requires !exists f | f in fired :: f.0 == id && from < f.1 <= to
    ensures forall e: nat, t | from < e <= to && InRange(t, i.lo, i.hi) ::
      W(StateOf(rels, i.rel, e), t) == W(StateOf(rels, i.rel, e - 1), t)
  {
    hide StateAt, RelOk, Touches, InRange;
    if i.rel in rels {
      forall x | x in rels[i.rel].log && from < x.edition <= to ensures !Touches(i, i.rel, x.entry) {
        assert Touches(i, i.rel, x.entry) ==> (id, x.edition) in fired;
        assert (id, x.edition).0 == id && from < (id, x.edition).1 <= to;
      }
      QuietSpan(rels[i.rel], watermark, current, from, to, i);
    }
  }

  /** What the fired record says of an interest registered at or before `from`. */
  lemma FiringTells(rels: map<nat, Roots>, canopy: map<nat, Interest>, registered: map<nat, nat>,
                    interests: map<Interest, nat>, next: nat,
                    i: Interest, id: nat, watermark: nat, current: nat, from: nat, to: nat, fired: set<(nat, nat)>,
                      touched: bool)
    requires (i.rel in rels ==> RelOk(rels[i.rel], watermark, current)) && from >= watermark
    requires Routed(rels, canopy, registered, fired) && FiredTruly(rels, canopy, watermark, fired)
    requires id in canopy && canopy[id] == i && id in registered && registered[id] <= from
    requires touched <==> exists f | f in fired :: f.0 == id && from < f.1 <= to
    ensures touched ==> exists e :: from < e <= to && HasTouch(rels, i, e)
    ensures !touched ==>
      forall e: nat, t | from < e <= to && InRange(t, i.lo, i.hi) ::
        W(StateOf(rels, i.rel, e), t) == W(StateOf(rels, i.rel, e - 1), t)
  {
    hide RelOk, Touches, StateAt;
    if touched {
      var f :| f in fired && f.0 == id && from < f.1 <= to;
      assert HasTouch(rels, i, f.1);
    } else {
      QuietInterest(rels, i, id, registered[id], watermark, current, from, to, fired);
    }
  }

  lemma NewInterest(rels: map<nat, Roots>, canopy: map<nat, Interest>, registered: map<nat, nat>,
                    fired: set<(nat, nat)>, watermark: nat,
                    interests: map<Interest, nat>, next: nat, current: nat, i: Interest)
    requires Routed(rels, canopy, registered, fired) && FiredTruly(rels, canopy, watermark, fired)
    requires InterestsOk(interests, canopy, registered, next, current)
    requires forall rel | rel in rels :: RelOk(rels[rel], watermark, current)
    ensures Routed(rels, canopy[next := i], registered[next := current], fired)
    ensures FiredTruly(rels, canopy[next := i], watermark, fired)
    ensures InterestsOk(interests[i := next], canopy[next := i], registered[next := current], next + 1, current)
  {
    hide Touches, Traced, OrdersOk;
    var canopy', registered' := canopy[next := i], registered[next := current];
    forall id, rel | id in canopy' && rel in rels
      ensures RoutedIn(rels[rel].log, id, canopy'[id], rel, if id in registered' then registered'[id] else 0, fired)
    {
      assert RelOk(rels[rel], watermark, current);
      if id != next {
        assert RoutedIn(rels[rel].log, id, canopy[id], rel, registered[id], fired);
      }
    }
  }

  // ----- grafting -----

  /** The facts whose lead entity lies in `[blo, bhi)`. */
  function Block(m: Multiset, blo: int, bhi: int): Multiset {
    Keep(m, t => InRange(t, [Ent(blo)], [Ent(bhi)]))
  }

  /** Every entity the facts name lies in the block. */
  predicate SelfContained(m: Multiset, blo: int, bhi: int) {
    forall t <- m, v <- t :: v.Ent? ==> blo <= v.id < bhi
  }

  /** The facts with every entity moved. */
  ghost function ShiftAll(m: Multiset, d: int): (r: Multiset)
    ensures forall t :: W(r, t) == W(m, Shift(t, -d))
  {
    var keys := set t | t in m :: Shift(t, d);
    forall t ensures t in keys <==> Shift(t, -d) in m {
      ShiftAdd(t, -d, d);
      ShiftZero(t);
      if t in keys {
        var u :| u in m && t == Shift(u, d);
        ShiftAdd(u, d, -d);
        ShiftZero(u);
      }
    }
    map t | t in keys :: m[Shift(t, -d)]
  }

  /** The facts with a moved copy of the block beside it. */
  ghost function Instanced(m: Multiset, blo: int, bhi: int, shift: int): Multiset {
    Plus(m, ShiftAll(Block(m, blo, bhi), shift))
  }

  predicate Refused(m: Multiset, blo: int, bhi: int, shift: int) {
    Block(m, blo, bhi) != map[] &&
      (!SelfContained(Block(m, blo, bhi), blo, bhi) || Block(m, blo + shift, bhi + shift) != map[])
  }

  lemma NothingRefused(blo: int, bhi: int, shift: int)
    ensures !Refused(map[], blo, bhi, shift)
  {
  }

  lemma InstancedIs(m: Multiset, blo: int, bhi: int, shift: int)
    ensures Refused(m, blo, bhi, shift) <==>
      Block(m, blo, bhi) != map[] &&
        (!SelfContained(Block(m, blo, bhi), blo, bhi) || Block(m, blo + shift, bhi + shift) != map[])
    ensures Block(m, blo, bhi) == map[] ==> Instanced(m, blo, bhi, shift) == m
  {
    hide Block, SelfContained, Plus;
    if Block(m, blo, bhi) == map[] {
      SameWeights(Instanced(m, blo, bhi, shift), m);
    }
  }

  lemma ShiftBack(t: Tuple, shift: int)
    ensures forall u {:trigger Shift(u, -shift)} :: Shift(u, -shift) == t <==> u == Shift(t, shift)
  {
    hide Shift;
    var back := -shift;
    ShiftAdd(t, shift, back);
    ShiftZero(t);
    forall u ensures Shift(u, back) == t <==> u == Shift(t, shift) {
      ShiftAdd(u, back, shift);
      ShiftZero(u);
    }
  }

  /** The copy beside the block. */
  method Graft(m: Multiset, blo: int, bhi: int, shift: int) returns (r: Multiset)
    ensures r == Instanced(m, blo, bhi, shift)
  {
    hide Block, Plus, ShiftAll, Shift, SetWeight;
    var block := Block(m, blo, bhi);
    var copy: Multiset, todo := map[], block.Keys;
    while todo != {}
      invariant todo <= block.Keys
      invariant forall t :: W(copy, t) == if Shift(t, -shift) in todo then 0 else W(block, Shift(t, -shift))
      decreases todo
    {
      var t :| t in todo;
      ShiftBack(t, shift);
      copy := SetWeight(copy, Shift(t, shift), block[t]);
      todo := todo - {t};
    }
    SameWeights(copy, ShiftAll(block, shift));
    r := Plus(m, copy);
  }

  /** The moved block is exactly what the new root holds in the target. */
  lemma GraftExpands(m: Multiset, blo: int, bhi: int, shift: int)
    requires Block(m, blo + shift, bhi + shift) == map[]
    ensures Block(Instanced(m, blo, bhi, shift), blo + shift, bhi + shift) == ShiftAll(Block(m, blo, bhi), shift)
  {
    hide Less, Shift, Block, ShiftAll, Plus;
    var a, b := Block(Instanced(m, blo, bhi, shift), blo + shift, bhi + shift), ShiftAll(Block(m, blo, bhi), shift);
    forall t ensures W(a, t) == W(b, t) {
      BlockWeight(Instanced(m, blo, bhi, shift), blo + shift, bhi + shift, t);
      BlockWeight(m, blo, bhi, Shift(t, -shift));
      BlockWeight(m, blo + shift, bhi + shift, t);
      MovedIn(t, blo, bhi, shift);
    }
    SameWeights(a, b);
  }

  lemma BlockWeight(m: Multiset, blo: int, bhi: int, t: Tuple)
    ensures W(Block(m, blo, bhi), t) == if InRange(t, [Ent(blo)], [Ent(bhi)]) then W(m, t) else 0
  {
  }

  lemma MovedIn(t: Tuple, blo: int, bhi: int, shift: int)
    ensures InRange(Shift(t, -shift), [Ent(blo)], [Ent(bhi)]) <==> InRange(t, [Ent(blo + shift)], [Ent(bhi + shift)])
  {
    hide Less, Shift;
    var u := Shift(t, -shift);
    MovedBounds(blo, shift);
    MovedBounds(bhi, shift);
    ShiftAdd(t, -shift, shift);
    ShiftZero(t);
    ShiftOrder([Ent(blo)], u, shift);
    ShiftOrder(u, [Ent(bhi)], shift);
  }

  lemma MovedBounds(b: int, shift: int)
    ensures Shift([Ent(b)], shift) == [Ent(b + shift)]
  {
    assert [Ent(b)][1..] == [];
  }

  /** A root that a graft may commit over the facts `m`. */
  ghost predicate Graftable(m: Multiset, root: Multiset, blo: int, bhi: int, shift: int) {
    !Refused(m, blo, bhi, shift) && Block(m, blo, bhi) != map[] && root == Instanced(m, blo, bhi, shift)
  }

  function GraftRoots(r: Roots, e: nat, root: Multiset, item: LogItem): Roots {
    Written(r, e, root, item).(orders := map[])
  }

  /** The new roots a template copy asks for, relation by relation, or a refusal. */
  method PlanGrafts(rels: map<nat, Roots>, at: nat, asked: set<nat>, blo: int, bhi: int, shift: int)
    returns (plan: Option<map<nat, Multiset>>)
    ensures plan.None? <==> exists rel :: rel in asked && Refused(StateOf(rels, rel, at), blo, bhi, shift)
    ensures plan.Some? ==> plan.value.Keys <= asked * rels.Keys
    ensures plan.Some? ==>
      forall rel | rel in plan.value :: Graftable(StateOf(rels, rel, at), plan.value[rel], blo, bhi, shift)
    ensures plan.Some? ==> forall rel | rel in asked && rel !in plan.value ::
      Instanced(StateOf(rels, rel, at), blo, bhi, shift) == StateOf(rels, rel, at)
  {
    hide Instanced, Refused, StateAt, Block, SelfContained;
    var grafts: map<nat, Multiset>, todo := map[], asked;
    NothingRefused(blo, bhi, shift);
    while todo != {}
      invariant todo <= asked && grafts.Keys <= (asked - todo) * rels.Keys
      invariant forall rel | rel in asked - todo :: !Refused(StateOf(rels, rel, at), blo, bhi, shift)
      invariant forall rel | rel in grafts :: Graftable(StateOf(rels, rel, at), grafts[rel], blo, bhi, shift)
      invariant forall rel | rel in asked - todo && rel !in grafts ::
        Instanced(StateOf(rels, rel, at), blo, bhi, shift) == StateOf(rels, rel, at)
      decreases todo
    {
      var rel :| rel in todo;
      todo := todo - {rel};
      InstancedIs(StateOf(rels, rel, at), blo, bhi, shift);
      if rel in rels {
        var facts := StateAt(rels[rel], at);
        if Block(facts, blo, bhi) != map[] {
          if !SelfContained(Block(facts, blo, bhi), blo, bhi) || Block(facts, blo + shift, bhi + shift) != map[] {
            return None;
          }
          var grafted := Graft(facts, blo, bhi, shift);
          grafts := grafts[rel := grafted];
        }
      } else {
        NoBlock(blo, bhi);
      }
    }
    plan := Some(grafts);
  }

  lemma NoBlock(blo: int, bhi: int)
    ensures Block(map[], blo, bhi) == map[]
  {
  }

  lemma GraftableIs(rels: map<nat, Roots>, at: nat, asked: set<nat>, grafts: map<nat, Multiset>, blo: int, bhi: int,
                    shift: int)
    requires forall rel | rel in grafts :: Graftable(StateOf(rels, rel, at), grafts[rel], blo, bhi, shift)
    ensures forall rel | rel in grafts :: grafts[rel] == Instanced(StateOf(rels, rel, at), blo, bhi, shift)
  {
    hide Instanced, Refused, StateAt, Block;
  }

  lemma AllGrafted(was: map<nat, Roots>, now: map<nat, Roots>, grafts: map<nat, Multiset>, watermark: nat, e: nat,
                   blo: int, bhi: int, shift: int, item: LogItem)
    requires e > watermark && forall rel | rel in was :: RelOk(was[rel], watermark, e - 1)
    requires item == LogItem(e, 0, GraftEntry([Ent(blo + shift)], [Ent(bhi + shift)]))
    requires grafts.Keys <= was.Keys && forall rel | rel in grafts ::
      Graftable(StateOf(was, rel, e - 1), grafts[rel], blo, bhi, shift)
    requires now == map rel | rel in was ::
      if rel in grafts then GraftRoots(was[rel], e, grafts[rel], item) else was[rel]
    ensures forall rel, x: nat | x < e :: StateOf(now, rel, x) == StateOf(was, rel, x)
    ensures forall rel :: StateOf(now, rel, e) == if rel in grafts then grafts[rel] else StateOf(was, rel, e - 1)
    ensures forall rel | rel in now :: RelOk(now[rel], watermark, e)
  {
    hide RelOk, Graftable, StateAt, GraftRoots;
    forall rel
      ensures forall x: nat | x < e :: StateOf(now, rel, x) == StateOf(was, rel, x)
      ensures StateOf(now, rel, e) == if rel in grafts then grafts[rel] else StateOf(was, rel, e - 1)
      ensures rel in now ==> RelOk(now[rel], watermark, e)
    {
      if rel in was {
        if rel in grafts {
          GraftWritten(was[rel], grafts[rel], watermark, e, blo, bhi, shift, item);
        } else {
          RelMoves(was[rel], watermark, e - 1);
          StateMoves(was[rel], watermark, e - 1);
        }
      }
    }
  }

  lemma GraftLogs(was: map<nat, Roots>, now: map<nat, Roots>, grafts: map<nat, Multiset>, e: nat, item: LogItem)
    requires now == map rel | rel in was ::
      if rel in grafts then GraftRoots(was[rel], e, grafts[rel], item) else was[rel]
    ensures forall rel | rel in now ::
      now[rel].log == if rel in grafts.Keys then was[rel].log + [item] else was[rel].log
  {
  }

  lemma GraftWritten(r: Roots, root: Multiset, watermark: nat, e: nat, blo: int, bhi: int, shift: int, item: LogItem)
    requires e > watermark && RelOk(r, watermark, e - 1)
    requires item == LogItem(e, 0, GraftEntry([Ent(blo + shift)], [Ent(bhi + shift)]))
    requires Graftable(StateAt(r, e - 1), root, blo, bhi, shift)
    ensures RelOk(GraftRoots(r, e, root, item), watermark, e) && StateAt(GraftRoots(r, e, root, item), e) == root
    ensures forall x: nat | x < e :: StateAt(GraftRoots(r, e, root, item), x) == StateAt(r, x)
  {
    hide StateAt, Arranged, LogSum, Plus, Keep, Block, ShiftAll;
    var m := StateAt(r, e - 1);
    ClockMoves(r, watermark, e - 1);
    GraftExpands(m, blo, bhi, shift);
    GraftEntryIs(r.versions[e := root], item, blo + shift, bhi + shift);
    WriteKeeps(r, watermark, e, root, item);
    WrittenStates(r, e, root, item);
    SameHistory(Written(r, e, root, item), Written(r, e, root, item).(orders := map[]), watermark, e);
  }

  lemma GraftEntryIs(v: map<nat, Multiset>, item: LogItem, lo: int, hi: int)
    requires item.entry == GraftEntry([Ent(lo)], [Ent(hi)]) && item.edition in v
    ensures Expand(v, item) == Block(v[item.edition], lo, hi)
  {
    hide Keep, InRange;
    SameWeights(Expand(v, item), Block(v[item.edition], lo, hi));
  }

  lemma StateMoves(r: Roots, watermark: nat, current: nat)
    requires RelOk(r, watermark, current)
    ensures StateAt(r, current + 1) == StateAt(r, current)
  {
    hide Arranged, Traced;
    ClockMoves(r, watermark, current);
  }

  lemma RoutedSnoc(log: seq<LogItem>, log': seq<LogItem>, item: LogItem, id: nat, i: Interest, rel: nat, since: nat,
                   fired: set<(nat, nat)>, fired': set<(nat, nat)>)
    requires RoutedIn(log, id, i, rel, since, fired) && fired <= fired'
    requires log' == log || (log' == log + [item] && (Touches(i, rel, item.entry) ==> (id, item.edition) in fired'))
    ensures RoutedIn(log', id, i, rel, since, fired')
  {
    hide Touches;
  }

  /** The interests of the grafted relations that a span overlaps. */
  function Overlapped(canopy: map<nat, Interest>, grafted: set<nat>, entry: LogEntry): set<nat> {
    set id | id in canopy && canopy[id].rel in grafted && Touches(canopy[id], canopy[id].rel, entry)
  }

  function Fire(fired: set<(nat, nat)>, hits: set<nat>, e: nat): set<(nat, nat)> {
    fired + set id | id in hits :: (id, e)
  }

  /** A graft routed by its span fires every interest the span overlaps, and no other. */
  lemma GraftRouted(was: map<nat, Roots>, rels: map<nat, Roots>, grafted: set<nat>, item: LogItem, e: nat,
                    canopy: map<nat, Interest>,
                    registered: map<nat, nat>, fired: set<(nat, nat)>, watermark: nat)
    requires rels.Keys == was.Keys && grafted <= was.Keys && item.edition == e
    requires forall rel | rel in rels :: rels[rel].log == if rel in grafted then was[rel].log + [item] else was[rel].log
    requires Routed(was, canopy, registered, fired)
    ensures Routed(rels, canopy, registered, Fire(fired, Overlapped(canopy, grafted, item.entry), e))
  {
    hide Touches, RoutedIn;
    var fired' := Fire(fired, Overlapped(canopy, grafted, item.entry), e);
    forall id, rel | id in canopy && rel in rels
      ensures RoutedIn(rels[rel].log, id, canopy[id], rel, if id in registered then registered[id] else 0, fired')
    {
      var since := if id in registered then registered[id] else 0;
      assert RoutedIn(was[rel].log, id, canopy[id], rel, since, fired);
      if Touches(canopy[id], rel, item.entry) {
        TouchRel(canopy[id], rel, item.entry);
      }
      RoutedSnoc(was[rel].log, rels[rel].log, item, id, canopy[id], rel, since, fired, fired');
    }
  }

  lemma GraftFires(was: map<nat, Roots>, rels: map<nat, Roots>, grafted: set<nat>, item: LogItem, e: nat,
                   canopy: map<nat, Interest>,
                   fired: set<(nat, nat)>, watermark: nat)
    requires rels.Keys == was.Keys && grafted <= was.Keys && item.edition == e
    requires forall rel | rel in rels :: rels[rel].log == if rel in grafted then was[rel].log + [item] else was[rel].log
    requires FiredTruly(was, canopy, watermark, fired)
    ensures FiredTruly(rels, canopy, watermark, Fire(fired, Overlapped(canopy, grafted, item.entry), e))
  {
    hide Touches;
    var fired' := Fire(fired, Overlapped(canopy, grafted, item.entry), e);
    forall f | f in fired' && f.1 > watermark ensures f.0 in canopy && HasTouch(rels, canopy[f.0], f.1) {
      if f in fired {
        assert HasTouch(was, canopy[f.0], f.1);
      } else {
        assert item in rels[canopy[f.0].rel].log;
      }
    }
  }
}
