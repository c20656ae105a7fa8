/** The canopy: the two pruned walks that route a change to the standing interests, and
    the interests of a branch as they come and go. */
module Canopies {
  import opened Values
  import opened CanopyTrees
  import opened CanopyEdits

  // ----- what is asked of the tree -----

  /** A changed row, or the span of a copied block. */
  datatype Ask = AtPoint(rel: nat, point: Tuple, required: Flags) | OverSpan(rel: nat, lo: Tuple, hi: Tuple)

  predicate Hit(e: Interest, q: Ask) {
    e.key.rel == q.rel &&
    match q
    case AtPoint(_, p, required) => Leq(e.key.lo, p) && Less(p, e.hi) && Dominates(e.endorse, required)
    case OverSpan(_, lo, hi) => Less(e.key.lo, hi) && Less(lo, e.hi)
  }

  /** The answer of a linear scan. */
  function Scan(es: seq<Interest>, q: Ask): seq<nat> {
    if es == [] then [] else
    var n := |es| - 1;
    Scan(es[..n], q) + (if Hit(es[n], q) then [es[n].key.id] else [])
  }

  lemma {:induction false} ScanConcat(a: seq<Interest>, b: seq<Interest>, q: Ask)
    ensures Scan(a + b, q) == Scan(a, q) + Scan(b, q)
    decreases |b|
  {
    hide Hit;
    if b == [] {
      assert a + b == a;
    } else {
      var n := |b| - 1;
      assert (a + b)[..|a + b| - 1] == a + b[..n];
      ScanConcat(a, b[..n], q);
    }
  }

  lemma {:induction false} ScanMisses(es: seq<Interest>, q: Ask)
    requires forall e <- es :: !Hit(e, q)
    ensures Scan(es, q) == []
  {
    hide Hit;
    if es != [] {
      assert es[|es| - 1] in es;
      ScanMisses(es[..|es| - 1], q);
    }
  }

  lemma {:induction false} ScanIn(es: seq<Interest>, q: Ask, id: nat)
    ensures id in Scan(es, q) <==> exists e :: e in es && e.key.id == id && Hit(e, q)
  {
    hide Hit;
    if es != [] {
      var n := |es| - 1;
      ScanIn(es[..n], q, id);
      assert es == es[..n] + [es[n]];
      if e :| e in es && e.key.id == id && Hit(e, q) {
        assert e in es[..n] || e == es[n];
      }
    }
  }

  // ----- why a walk may skip -----

  /** What lets a walk turn back at a node. */
  predicate OutOfReach(r: Reach, q: Ask) {
    match q
    case AtPoint(_, p, required) => r.maxHi.None? || Leq(r.maxHi.value, p) || !Dominates(r.endorse, required)
    case OverSpan(_, lo, _) => r.maxHi.None? || Leq(r.maxHi.value, lo)
  }

  lemma OutOfReachMisses(t: Node, q: Ask)
    requires WellFormed(t) && OutOfReach(ReachAt(t), q)
    ensures Scan(Flat(t), q) == []
  {
    hide WellFormed, Flat, ReachAt, Scan;
    CachedSpans(t);
    forall e | e in Flat(t) ensures !Hit(e, q) {
      MissedBeyond(ReachAt(t), e, q);
    }
    ScanMisses(Flat(t), q);
  }

  lemma MissedBeyond(r: Reach, e: Interest, q: Ask)
    requires r.maxHi.Some? && Leq(e.hi, r.maxHi.value) && Dominates(r.endorse, e.endorse)
    requires OutOfReach(r, q)
    ensures !Hit(e, q)
  {
    hide Dominates, Less;
    var from := if q.AtPoint? then q.point else q.lo;
    if Hit(e, q) {
      if Leq(r.maxHi.value, from) {
        LeqLeq(e.hi, r.maxHi.value, from);
        LessIrreflexive(from);
        if e.hi != from {
          LessAsymmetric(e.hi, from);
        }
      } else {
        DominatesTransitive(r.endorse, e.endorse, q.required);
      }
    }
  }

  /** A separator with everything to its right out of the question. */
  predicate Past(k: Key, q: Ask) {
    || k.rel > q.rel
    || (k.rel == q.rel && match q case AtPoint(_, p, _) => Less(p, k.lo) case OverSpan(_, _, hi) => Leq(hi, k.lo))
  }

  lemma PastMisses(k: Key, e: Interest, q: Ask)
    requires Past(k, q) && !KeyLess(e.key, k)
    ensures !Hit(e, q)
  {
    hide Less, Dominates;
    if Hit(e, q) {
      KeyLessTotal(e.key, k);
      assert e.key.rel == k.rel && Leq(k.lo, e.key.lo);
      match q
      case AtPoint(_, p, _) =>
        LeqLeq(k.lo, e.key.lo, p);
        LessIrreflexive(p);
        LessAsymmetric(p, k.lo);
      case OverSpan(_, _, hi) =>
        LeqLeq(hi, k.lo, e.key.lo);
        LessAsymmetric(e.key.lo, hi);
    }
  }

  /** Nothing in child `i` or to its right, when the separator on its left is past. */
  lemma RestMisses(ks: seq<Key>, ch: seq<Node>, i: nat, q: Ask)
    requires |ch| == |ks| + 1 && 0 < i < |ch| && Past(ks[i - 1], q)
    requires forall i, j | 0 <= i < j < |ks| :: KeyLess(ks[i], ks[j])
    requires forall i | 0 <= i < |ch| :: Parted(ks, ch, i)
    ensures Scan(FlatAll(ch), q) == Scan(FlatAll(ch[..i]), q)
  {
    hide Past, KeyLess, Hit, Flat, Scan;
    var rest := FlatAll(ch[i..]);
    forall e | e in rest ensures !Hit(e, q) {
      FlatAllIn(ch[i..], e);
      var j :| 0 <= j < |ch[i..]| && e in Flat(ch[i..][j]);
      assert ch[i..][j] == ch[i + j] && Parted(ks, ch, i + j);
      if KeyLess(e.key, ks[i - 1]) && j > 0 {
        KeyLessTransitive(e.key, ks[i - 1], ks[i + j - 1]);
      }
      PastMisses(ks[i - 1], e, q);
    }
    ScanMisses(rest, q);
    FlatAllSplit(ch, i);
    ScanConcat(FlatAll(ch[..i]), rest, q);
  }

  /** Nothing in child `i`, when the separator on its right belongs to an earlier relation. */
  lemma EarlierMisses(ks: seq<Key>, ch: seq<Node>, i: nat, q: Ask)
    requires |ch| == |ks| + 1 && i < |ks| && ks[i].rel < q.rel && Parted(ks, ch, i)
    ensures Scan(Flat(ch[i]), q) == []
  {
    hide Flat, Scan, Less;
    ScanMisses(Flat(ch[i]), q);
  }

  lemma NothingYet(ch: seq<Node>, q: Ask)
    ensures Scan(FlatAll(ch[..0]), q) == []
  {
    ScanMisses(FlatAll(ch[..0]), q);
  }

  lemma NextChild(ch: seq<Node>, i: nat, q: Ask)
    requires i < |ch|
    ensures Scan(FlatAll(ch[..i + 1]), q) == Scan(FlatAll(ch[..i]), q) + Scan(Flat(ch[i]), q)
  {
    hide Flat, Scan;
    assert ch[..i + 1][..i] == ch[..i];
    ScanConcat(FlatAll(ch[..i]), Flat(ch[i]), q);
  }

  // ----- the walks -----

  /** The interests whose span holds a point, appended in the order of their keys. */
  method Stab(t: Node, rel: nat, point: Tuple, required: Flags, out: seq<nat>) returns (r: seq<nat>)
    requires WellFormed(t)
    ensures r == out + Scan(Flat(t), AtPoint(rel, point, required))
    decreases t
  {
    hide FlatAll, Less, Dominates, Combine, Parted, KeyLess, Scan, Spans;
    ghost var q := AtPoint(rel, point, required);
    if t.Empty? {
      ScanMisses([], q);
      return out;
    }
    var m := t.reach;
    if m.maxHi.None? || Leq(m.maxHi.value, point) || !Dominates(m.endorse, required) {
      OutOfReachMisses(t, q);
      return out;
    }
    r := out;
    match t
    case Leaf(_, es) =>
      ScanMisses(es[..0], q);
      for i := 0 to |es|
        invariant r == out + Scan(es[..i], q)
      {
        var e := es[i];
        ScanNext(es, i, q);
        if e.key.rel == rel && Leq(e.key.lo, point) && Less(point, e.hi) && Dominates(e.endorse, required) {
          r := r + [e.key.id];
        }
      }
      assert es[..|es|] == es;
    case Internal(_, ks, ch) =>
      NothingYet(ch, q);
      for i := 0 to |ch|
        invariant r == out + Scan(FlatAll(ch[..i]), q)
      {
        if i > 0 {
          var k := ks[i - 1];
          if k.rel > rel || (k.rel == rel && Less(point, k.lo)) {
            RestMisses(ks, ch, i, q);
            assert r == out + Scan(FlatAll(ch), q);
            break;
          }
        }
        NextChild(ch, i, q);
        if i < |ks| && ks[i].rel < rel {
          EarlierMisses(ks, ch, i, q);
          continue;
        }
        assert ch[i] in ch;
        r := Stab(ch[i], rel, point, required, r);
      }
      assert ch[..|ch|] == ch;
  }

  lemma ScanNext(es: seq<Interest>, i: nat, q: Ask)
    requires i < |es|
    ensures Scan(es[..i + 1], q) == Scan(es[..i], q) + (if Hit(es[i], q) then [es[i].key.id] else [])
  {
    hide Hit;
    assert es[..i + 1][..i] == es[..i];
  }

  /** The interests whose span meets another, appended in the order of their keys. */
  method Overlap(t: Node, rel: nat, lo: Tuple, hi: Tuple, out: seq<nat>) returns (r: seq<nat>)
    requires WellFormed(t)
    ensures r == out + Scan(Flat(t), OverSpan(rel, lo, hi))
    decreases t
  {
    hide FlatAll;
    hide Less, Dominates, Combine, Parted, KeyLess, Scan, Spans;
    ghost var q := OverSpan(rel, lo, hi);
    if t.Empty? {
      ScanMisses([], q);
      return out;
    }
    var m := t.reach;
    if m.maxHi.None? || Leq(m.maxHi.value, lo) {
      OutOfReachMisses(t, q);
      return out;
    }
    r := out;
    match t
    case Leaf(_, es) =>
      ScanMisses(es[..0], q);
      for i := 0 to |es|
        invariant r == out + Scan(es[..i], q)
      {
        var e := es[i];
        ScanNext(es, i, q);
        if e.key.rel == rel && Less(e.key.lo, hi) && Less(lo, e.hi) {
          r := r + [e.key.id];
        }
      }
      assert es[..|es|] == es;
    case Internal(_, ks, ch) =>
      NothingYet(ch, q);
      for i := 0 to |ch|
        invariant r == out + Scan(FlatAll(ch[..i]), q)
      {
        if i > 0 {
          var k := ks[i - 1];
          if k.rel > rel || (k.rel == rel && Leq(hi, k.lo)) {
            RestMisses(ks, ch, i, q);
            assert r == out + Scan(FlatAll(ch), q);
            break;
          }
        }
        NextChild(ch, i, q);
        if i < |ks| && ks[i].rel < rel {
          EarlierMisses(ks, ch, i, q);
          continue;
        }
        assert ch[i] in ch;
        r := Overlap(ch[i], rel, lo, hi, r);
      }
      assert ch[..|ch|] == ch;
  }

  // ----- sorting what was collected -----

  predicate Increasing(s: seq<nat>) {
    forall i, j | 0 <= i < j < |s| :: s[i] < s[j]
  }

  predicate NonDecreasing(s: seq<nat>) {
    forall i, j | 0 <= i < j < |s| :: s[i] <= s[j]
  }

  function Place(x: nat, s: seq<nat>): seq<nat> {
    if s == [] || x <= s[0] then [x] + s else [s[0]] + Place(x, s[1..])
  }

  function Sort(s: seq<nat>): seq<nat> {
    if s == [] then [] else Place(s[0], Sort(s[1..]))
  }

  function Dedup(s: seq<nat>): seq<nat> {
    if |s| < 2 then s else if s[0] == s[1] then Dedup(s[1..]) else [s[0]] + Dedup(s[1..])
  }

  lemma PrependSmaller(x: nat, s: seq<nat>)
    requires NonDecreasing(s) && (s != [] ==> x <= s[0])
    ensures NonDecreasing([x] + s)
  {
  }

  lemma TailSorted(s: seq<nat>)
    requires NonDecreasing(s) && s != []
    ensures NonDecreasing(s[1..]) && (|s| > 1 ==> s[0] <= s[1])
  {
  }

  lemma {:induction false} PlaceKeeps(x: nat, s: seq<nat>)
    requires NonDecreasing(s)
    ensures NonDecreasing(Place(x, s)) && multiset(Place(x, s)) == multiset{x} + multiset(s)
    ensures Place(x, s) != [] && (Place(x, s)[0] == x || (s != [] && Place(x, s)[0] == s[0]))
  {
    hide NonDecreasing;
    if s == [] || x <= s[0] {
      PrependSmaller(x, s);
    } else {
      assert s == [s[0]] + s[1..];
      TailSorted(s);
      PlaceKeeps(x, s[1..]);
      PrependSmaller(s[0], Place(x, s[1..]));
    }
  }

  lemma {:induction false} SortSorts(s: seq<nat>)
    ensures NonDecreasing(Sort(s)) && multiset(Sort(s)) == multiset(s)
  {
    hide NonDecreasing;
    if s == [] {
      NothingSorted();
    } else {
      SortSorts(s[1..]);
      PlaceKeeps(s[0], Sort(s[1..]));
      assert s == [s[0]] + s[1..];
    }
  }

  lemma NothingSorted()
    ensures NonDecreasing([])
  {
  }

  lemma SameMembers(a: seq<nat>, b: seq<nat>, x: nat)
    requires multiset(a) == multiset(b)
    ensures x in a <==> x in b
  {
    assert x in a <==> x in multiset(a);
    assert x in b <==> x in multiset(b);
  }

  lemma {:induction false} DedupKeeps(s: seq<nat>)
    requires NonDecreasing(s)
    ensures Increasing(Dedup(s)) && (forall x :: x in Dedup(s) <==> x in s)
    ensures s != [] ==> Dedup(s) != [] && Dedup(s)[0] == s[0]
  {
    if |s| >= 2 {
      assert s == [s[0]] + s[1..];
      DedupKeeps(s[1..]);
    }
  }

  ghost predicate NoRepeats(s: seq<nat>) {
    forall x :: multiset(s)[x] <= 1
  }

  lemma RepeatCounts(s: seq<nat>, i: nat, j: nat)
    requires i < j < |s|
    ensures s[i] == s[j] ==> multiset(s)[s[i]] >= 2
  {
    assert s == s[..i] + [s[i]] + s[i + 1..j] + [s[j]] + s[j + 1..];
  }

  lemma NoRepeatsAppend(s: seq<nat>, x: nat)
    requires NoRepeats(s) && x !in s
    ensures NoRepeats(s + [x])
  {
    assert x !in multiset(s);
  }

  lemma SortedUnique(s: seq<nat>)
    requires NonDecreasing(s) && NoRepeats(s)
    ensures Increasing(s)
  {
    forall i, j | 0 <= i < j < |s| ensures s[i] < s[j] {
      RepeatCounts(s, i, j);
      assert multiset(s)[s[i]] <= 1;
    }
  }

  // ----- routing -----

  type Updates = seq<(nat, Tuple)>

  /** An interest in `es` covers a changed row and holds every flag required. */
  ghost predicate Reached(es: set<Interest>, us: Updates, required: Flags, id: nat) {
    exists e, u :: e in es && u in us && e.key.id == id && Hit(e, AtPoint(u.0, u.1, required))
  }

  ghost predicate Met(es: set<Interest>, q: Ask, id: nat) {
    exists e :: e in es && e.key.id == id && Hit(e, q)
  }

  lemma ReachedNext(es: seq<Interest>, us: Updates, i: nat, required: Flags, id: nat)
    requires i < |us|
    ensures Reached(SetOf(es), us[..i + 1], required, id)
       <==> Reached(SetOf(es), us[..i], required, id) || id in Scan(es, AtPoint(us[i].0, us[i].1, required))
  {
    hide Hit, Scan;
    var q := AtPoint(us[i].0, us[i].1, required);
    ScanIn(es, q, id);
    assert us[..i + 1] == us[..i] + [us[i]];
    if Reached(SetOf(es), us[..i + 1], required, id) {
      var e, u :| e in es && u in us[..i + 1] && e.key.id == id && Hit(e, AtPoint(u.0, u.1, required));
      assert u in us[..i] || u == us[i];
    }
    if id in Scan(es, q) {
      assert us[i] in us[..i + 1];
    }
  }

  ghost predicate UniqueIds(es: set<Interest>) {
    forall a, b :: a in es && b in es && a.key.id == b.key.id ==> a == b
  }

  lemma {:induction false} FlatAscends(t: Node)
    requires WellFormed(t)
    ensures Ascending(Flat(t))
    decreases t, 1
  {
    hide KeyLess, ReachOf, ReachAll;
    if t.Internal? {
      AllAscend(t, |t.children|);
      assert t.children[..|t.children|] == t.children;
    }
  }

  lemma {:induction false} AllAscend(t: Node, n: nat)
    requires WellFormed(t) && t.Internal? && n <= |t.children|
    ensures Ascending(FlatAll(t.children[..n]))
    decreases t, 0, n
  {
    hide KeyLess, ReachOf, ReachAll, Flat;
    if n > 0 {
      var ks, ch := t.keys, t.children;
      var k := n - 1;
      AllAscend(t, k);
      assert ch[k] in ch;
      FlatAscends(ch[k]);
      var a, b := FlatAll(ch[..k]), Flat(ch[k]);
      assert ch[..n][..k] == ch[..k];
      forall x, y | x in a && y in b ensures KeyLess(x.key, y.key) {
        FlatAllIn(ch[..k], x);
        var i :| 0 <= i < |ch[..k]| && x in Flat(ch[..k][i]);
        assert ch[..k][i] == ch[i] && Parted(ks, ch, i) && Parted(ks, ch, k);
        ParentsOrder(ks, i, k, x.key, y.key);
      }
      AscendingConcat(a, b);
    }
  }

  lemma ParentsOrder(ks: seq<Key>, i: nat, k: nat, x: Key, y: Key)
    requires i < k <= |ks| && KeyLess(x, ks[i]) && !KeyLess(y, ks[k - 1])
    requires forall i, j | 0 <= i < j < |ks| :: KeyLess(ks[i], ks[j])
    ensures KeyLess(x, y)
  {
    hide KeyLess;
    if i < k - 1 {
      KeyLessTransitive(x, ks[i], ks[k - 1]);
    }
    KeyLessTotal(y, ks[k - 1]);
    if y != ks[k - 1] {
      KeyLessTransitive(x, ks[k - 1], y);
    }
  }

  /** One interest answers once. */
  lemma {:induction false} ScanUnique(es: seq<Interest>, q: Ask)
    requires Ascending(es) && UniqueIds(SetOf(es))
    ensures NoRepeats(Scan(es, q))
  {
    hide Hit, Ascending, UniqueIds, NoRepeats;
    if es == [] {
      NothingIncreases();
    } else {
      var n := |es| - 1;
      LastIsFresh(es, q);
      ScanUnique(es[..n], q);
      NoRepeatsAppend(Scan(es[..n], q), es[n].key.id);
      assert Scan(es[..n], q) + [] == Scan(es[..n], q);
    }
  }

  lemma LastIsFresh(es: seq<Interest>, q: Ask)
    requires es != [] && Ascending(es) && UniqueIds(SetOf(es))
    ensures Ascending(es[..|es| - 1]) && UniqueIds(SetOf(es[..|es| - 1]))
    ensures es[|es| - 1].key.id !in Scan(es[..|es| - 1], q)
  {
    hide Hit, KeyLess, Scan;
    var n := |es| - 1;
    var last := es[n];
    assert SetOf(es[..n]) <= SetOf(es);
    ScanIn(es[..n], q, last.key.id);
    if e :| e in es[..n] && e.key.id == last.key.id {
      assert e in SetOf(es) && last in SetOf(es);
      KeyLessIrreflexive(e.key);
    }
  }

  /** The standing interests of a branch. */
  class Canopy {
    var next: nat
    var enf: Node

    ghost function Standing(): set<Interest>
      reads this
    {
      SetOf(Flat(enf))
    }

    /** Ids are handed out in order and never twice. */
    ghost predicate Valid()
      reads this
    {
      Built(enf) && UniqueIds(Standing()) && forall e <- Standing() :: e.key.id < next
    }

    constructor ()
      ensures Valid() && Standing() == {} && next == 0
    {
      next, enf := 0, Empty;
    }

    /** A new interest, inserted at its key. */
    method RegisterEndorsed(rel: nat, lo: Tuple, hi: Tuple, endorse: Flags) returns (id: nat)
      requires Valid()
      modifies this
      ensures Valid() && id == old(next) && next == old(next) + 1
      ensures Standing() == old(Standing()) + {Interest(Key(rel, lo, id), hi, endorse)}
      ensures forall e <- old(Standing()) :: e.key.id != id
    {
      hide Built, Flat;
      id := next;
      next := next + 1;
      enf := Insert(enf, Interest(Key(rel, lo, id), hi, endorse));
    }

    /** Registers with every flag, so that the interest passes any requirement. */
    method Register(rel: nat, lo: Tuple, hi: Tuple) returns (id: nat)
      requires Valid()
      modifies this
      ensures Valid() && id == old(next) && next == old(next) + 1
      ensures Standing() == old(Standing()) + {Interest(Key(rel, lo, id), hi, ALL)}
    {
      id := RegisterEndorsed(rel, lo, hi, ALL);
    }

    /** Dropping an interest: find its key by id, then remove it. */
    method Unregister(id: nat)
      requires Valid()
      modifies this
      ensures Valid() && next == old(next)
      ensures Standing() == set e | e in old(Standing()) && e.key.id != id
      ensures (forall e <- old(Standing()) :: e.key.id != id) ==> enf == old(enf)
    {
      hide Built, Flat;
      var es := Flat(enf);
      var i := 0;
      while i < |es| && es[i].key.id != id
        invariant i <= |es| && forall j | 0 <= j < i :: es[j].key.id != id
      {
        i := i + 1;
      }
      if i < |es| {
        ghost var was := Standing();
        assert es[i] in was;
        enf := Remove(enf, es[i].key);
      }
    }

    /** Exactly the interests that cover a changed row and hold every flag required,
        in order, each once. */
    method RouteEndorsed(us: Updates, required: Flags) returns (r: seq<nat>)
      requires Valid()
      ensures Increasing(r)
      ensures forall id :: id in r <==> Reached(Standing(), us, required, id)
    {
      hide WellFormed, Built, Flat, Scan, Hit, Increasing;
      BuiltIsWellFormed(enf);
      var hit: seq<nat> := [];
      for i := 0 to |us|
        invariant forall id :: id in hit <==> Reached(Standing(), us[..i], required, id)
      {
        ghost var before := hit;
        hit := Stab(enf, us[i].0, us[i].1, required, hit);
        forall id: nat ensures id in hit <==> Reached(Standing(), us[..i + 1], required, id) {
          ReachedNext(Flat(enf), us, i, required, id);
        }
      }
      assert us[..|us|] == us;
      SortSorts(hit);
      DedupKeeps(Sort(hit));
      forall id: nat ensures id in Sort(hit) <==> id in hit {
        SameMembers(Sort(hit), hit, id);
      }
      r := Dedup(Sort(hit));
    }

    /** Exactly the interests whose span meets the block, in order, each once. */
    method RouteSpan(rel: nat, lo: Tuple, hi: Tuple) returns (r: seq<nat>)
      requires Valid()
      ensures Increasing(r)
      ensures forall id :: id in r <==> Less(lo, hi) && Met(Standing(), OverSpan(rel, lo, hi), id)
    {
      hide WellFormed, Built, Flat, Scan, Hit, Increasing, Less, NonDecreasing;
      BuiltIsWellFormed(enf);
      var hit: seq<nat> := [];
      NothingIncreases();
      if Less(lo, hi) {
        ghost var q := OverSpan(rel, lo, hi);
        hit := Overlap(enf, rel, lo, hi, hit);
        FlatAscends(enf);
        ScanUnique(Flat(enf), q);
        assert [] + Scan(Flat(enf), q) == Scan(Flat(enf), q);
        forall id: nat ensures id in hit <==> Met(Standing(), q, id) {
          ScanIn(Flat(enf), q, id);
        }
      }
      SortSorts(hit);
      SortedUnique(Sort(hit));
      forall id: nat ensures id in Sort(hit) <==> id in hit {
        SameMembers(Sort(hit), hit, id);
      }
      r := Sort(hit);
    }
  }

  lemma NothingIncreases()
    ensures Increasing([]) && NoRepeats([])
  {
  }
}
