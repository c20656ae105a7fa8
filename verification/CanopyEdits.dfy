/** Insertion into the canopy's tree and removal from it: splits, fusions, and the shape
    they keep. */
module CanopyEdits {
  import opened Values
  import opened CanopyTrees

  /** The most entries of a leaf and the most children of an internal node. */
  const B := 64

  /** The fewest of a node that is not the root. */
  const MIN := B / 2

  // ----- the shape -----

  /** Keys from one bound, inclusive, to another, exclusive. */
  predicate AtLeast(lo: Option<Key>, k: Key) {
    lo.None? || !KeyLess(k, lo.value)
  }

  predicate Under(k: Key, hi: Option<Key>) {
    hi.None? || KeyLess(k, hi.value)
  }

  predicate InSpan(k: Key, lo: Option<Key>, hi: Option<Key>) {
    AtLeast(lo, k) && Under(k, hi)
  }

  /** A separator between the two: past the lower as well. */
  predicate Inside(k: Key, lo: Option<Key>, hi: Option<Key>) {
    (lo.None? || KeyLess(lo.value, k)) && Under(k, hi)
  }

  function LowOf(ks: seq<Key>, lo: Option<Key>, i: nat): Option<Key>
    requires i <= |ks|
  {
    if i == 0 then lo else Some(ks[i - 1])
  }

  function HighOf(ks: seq<Key>, hi: Option<Key>, i: nat): Option<Key>
    requires i <= |ks|
  {
    if i == |ks| then hi else Some(ks[i])
  }

  function Width(t: Node): nat {
    match t case Empty => 0 case Leaf(_, es) => |es| case Internal(_, _, ch) => |ch|
  }

  ghost predicate Rising(ks: seq<Key>) {
    forall i, j | 0 <= i < j < |ks| :: KeyLess(ks[i], ks[j])
  }

  ghost predicate KeysIn(ks: seq<Key>, lo: Option<Key>, hi: Option<Key>) {
    forall k <- ks :: Inside(k, lo, hi)
  }

  /** Separators in order, and each child between the two on its sides. */
  ghost predicate Run(ks: seq<Key>, ch: seq<Node>, lo: Option<Key>, hi: Option<Key>, h: nat)
    decreases h, 1
  {
    && |ch| == |ks| + 1 && Rising(ks) && KeysIn(ks, lo, hi)
    && forall i | 0 <= i < |ch| :: Bounded(ch[i], LowOf(ks, lo, i), HighOf(ks, hi, i), h)
  }

  ghost predicate Full(ch: seq<Node>) {
    forall c <- ch :: Width(c) >= MIN
  }

  /** Leaves all `h` levels down, nothing empty or too wide, everything below the top at
      least half full, keys in their spans and in order, and every summary right. */
  ghost predicate Bounded(t: Node, lo: Option<Key>, hi: Option<Key>, h: nat)
    decreases h, 0
  {
    match t
    case Empty => false
    case Leaf(reach, es) =>
      && h == 1 && 1 <= |es| <= B && reach == ReachOf(es)
      && Ascending(es) && forall e <- es :: InSpan(e.key, lo, hi)
    case Internal(reach, ks, ch) =>
      h >= 2 && 1 <= |ch| <= B && reach == ReachAll(ch) && Full(ch) && Run(ks, ch, lo, hi, h - 1)
  }

  /** What every operation on whole trees keeps. */
  ghost predicate Built(t: Node) {
    t == Empty || exists h: nat :: Rooted(t, h)
  }

  ghost predicate Rooted(t: Node, h: nat) {
    Bounded(t, None, None, h) && (t.Internal? ==> |t.children| >= 2)
  }

  lemma {:induction false} FlatInSpan(t: Node, lo: Option<Key>, hi: Option<Key>, h: nat, e: Interest)
    requires Bounded(t, lo, hi, h) && e in Flat(t)
    ensures InSpan(e.key, lo, hi)
    decreases h
  {
    hide Rising, Full, ReachOf, ReachAll, Ascending;
    match t
    case Leaf(_, _) =>
    case Internal(_, ks, ch) =>
      FlatAllIn(ch, e);
      var i :| 0 <= i < |ch| && e in Flat(ch[i]);
      hide Flat, FlatAll, InSpan;
      FlatInSpan(ch[i], LowOf(ks, lo, i), HighOf(ks, hi, i), h - 1, e);
      SpanWithin(ks, lo, hi, i, e.key);
  }

  lemma SpanWithin(ks: seq<Key>, lo: Option<Key>, hi: Option<Key>, i: nat, k: Key)
    requires i <= |ks| && KeysIn(ks, lo, hi) && InSpan(k, LowOf(ks, lo, i), HighOf(ks, hi, i))
    ensures InSpan(k, lo, hi)
  {
    hide KeyLess;
    if i > 0 {
      assert Inside(ks[i - 1], lo, hi);
      AtLeastThrough(lo, ks[i - 1], k);
    }
    if i < |ks| {
      assert Inside(ks[i], lo, hi);
      UnderThrough(k, ks[i], hi);
    }
  }

  lemma UnderThrough(x: Key, k: Key, hi: Option<Key>)
    requires KeyLess(x, k) && Under(k, hi)
    ensures Under(x, hi)
  {
    hide KeyLess;
    if hi.Some? {
      KeyLessTransitive(x, k, hi.value);
    }
  }

  /** What is not below a key past the bound is not below the bound. */
  lemma AtLeastThrough(lo: Option<Key>, k: Key, x: Key)
    requires (lo.None? || KeyLess(lo.value, k)) && !KeyLess(x, k)
    ensures AtLeast(lo, x)
    ensures lo.Some? ==> KeyLess(lo.value, x)
  {
    hide KeyLess;
    KeyLessTotal(k, x);
    if lo.Some? {
      if k != x {
        KeyLessTransitive(lo.value, k, x);
      }
      KeyLessOneWay(lo.value, x);
    }
  }

  lemma KeyLessOneWay(a: Key, b: Key)
    requires KeyLess(a, b)
    ensures !KeyLess(b, a) && a != b
  {
    hide KeyLess;
    KeyLessIrreflexive(a);
    if KeyLess(b, a) {
      KeyLessTransitive(a, b, a);
    }
  }

  /** A tree of this shape is one the walks may be taken over. */
  lemma {:induction false} BoundedIsWellFormed(t: Node, lo: Option<Key>, hi: Option<Key>, h: nat)
    requires Bounded(t, lo, hi, h)
    ensures WellFormed(t)
    decreases h
  {
    hide ReachOf, ReachAll, Ascending, Full, KeyLess;
    if t.Internal? {
      var ks, ch := t.keys, t.children;
      forall i | 0 <= i < |ch| ensures WellFormed(ch[i]) && Parted(ks, ch, i) {
        BoundedIsWellFormed(ch[i], LowOf(ks, lo, i), HighOf(ks, hi, i), h - 1);
        forall e | e in Flat(ch[i]) ensures InSpan(e.key, LowOf(ks, lo, i), HighOf(ks, hi, i)) {
          FlatInSpan(ch[i], LowOf(ks, lo, i), HighOf(ks, hi, i), h - 1, e);
        }
      }
    }
  }

  lemma BuiltIsWellFormed(t: Node)
    requires Built(t)
    ensures WellFormed(t)
  {
    hide Bounded;
    if t != Empty {
      var h: nat :| Rooted(t, h);
      BoundedIsWellFormed(t, None, None, h);
    }
  }

  // ----- nodes and what becomes of them -----

  function MakeLeaf(es: seq<Interest>): Node {
    Leaf(ReachOf(es), es)
  }

  function MakeInternal(ks: seq<Key>, ch: seq<Node>): Node {
    Internal(ReachAll(ch), ks, ch)
  }

  datatype Ins = Done(t: Node) | Split(l: Node, sep: Key, r: Node)

  function InsFlat(r: Ins): seq<Interest> {
    match r case Done(t) => Flat(t) case Split(l, _, r) => Flat(l) + Flat(r)
  }

  /** One node in the span, at least `least` wide, or two that share it. */
  ghost predicate Fits(r: Ins, lo: Option<Key>, hi: Option<Key>, h: nat, least: nat) {
    match r
    case Done(t) => Bounded(t, lo, hi, h) && Width(t) >= least
    case Split(l, k, r) =>
      && Bounded(l, lo, Some(k), h) && Bounded(r, Some(k), hi, h) && Inside(k, lo, hi)
      && Width(l) >= MIN && Width(r) >= MIN
  }

  // ----- leaves -----

  /** How many leading entries are at or below `key`. */
  function UpTo(es: seq<Interest>, key: Key): (p: nat)
    ensures p <= |es|
    ensures forall j | 0 <= j < p :: !KeyLess(key, es[j].key)
    ensures p < |es| ==> KeyLess(key, es[p].key)
  {
    if es == [] || KeyLess(key, es[0].key) then 0 else 1 + UpTo(es[1..], key)
  }

  function LeafPut(es: seq<Interest>, e: Interest): seq<Interest> {
    var p := UpTo(es, e.key);
    if p > 0 && es[p - 1].key == e.key then es[p - 1 := e] else es[..p] + [e] + es[p..]
  }

  lemma UpToSplits(es: seq<Interest>, key: Key)
    requires Ascending(es)
    ensures var p := UpTo(es, key);
      && (forall j | p <= j < |es| :: KeyLess(key, es[j].key))
      && (forall j | 0 <= j < p :: j < p - 1 || es[j].key != key ==> KeyLess(es[j].key, key))
  {
    hide KeyLess, UpTo;
    var p := UpTo(es, key);
    forall j | p <= j < |es| ensures KeyLess(key, es[j].key) {
      if j > p {
        KeyLessTransitive(key, es[p].key, es[j].key);
      }
    }
    forall j | 0 <= j < p && (j < p - 1 || es[j].key != key) ensures KeyLess(es[j].key, key) {
      KeyLessTotal(es[j].key, key);
      if j < p - 1 {
        KeyLessTotal(es[p - 1].key, key);
        if es[p - 1].key != key {
          KeyLessTransitive(es[j].key, es[p - 1].key, key);
        }
      }
    }
  }

  lemma LeafPutKeeps(es: seq<Interest>, e: Interest)
    requires Ascending(es)
    ensures Ascending(LeafPut(es, e)) && |es| <= |LeafPut(es, e)| <= |es| + 1
    ensures forall x :: x in LeafPut(es, e) <==> (x in es && x.key != e.key) || x == e
  {
    var p := UpTo(es, e.key);
    UpToSplits(es, e.key);
    KeyLessIrreflexive(e.key);
    hide KeyLess, UpTo, Ascending, LeafPut;
    if p > 0 && es[p - 1].key == e.key {
      PutBetween(es[..p - 1], e, es[p..]) by {
        PartOfAscending(es, p - 1, p);
      }
      ReplacedRows(es, p - 1, e);
      assert LeafPut(es, e) == es[..p - 1] + [e] + es[p..] by {
        LeafPutIs(es, e);
      }
    } else {
      PutBetween(es[..p], e, es[p..]) by {
        PartOfAscending(es, p, p);
      }
      AddedRows(es, p, e);
      LeafPutIs(es, e);
    }
  }

  lemma LeafPutIs(es: seq<Interest>, e: Interest)
    ensures var p := UpTo(es, e.key);
      LeafPut(es, e) == es[..if p > 0 && es[p - 1].key == e.key then p - 1 else p] + [e] + es[p..]
  {
    hide KeyLess, UpTo;
  }

  lemma PartOfAscending(es: seq<Interest>, a: nat, b: nat)
    requires Ascending(es) && a <= b <= |es|
    ensures Ascending(es[..a]) && Ascending(es[b..])
  {
    hide KeyLess;
  }

  lemma PutBetween(a: seq<Interest>, e: Interest, b: seq<Interest>)
    requires Ascending(a) && Ascending(b)
    requires (forall x <- a :: KeyLess(x.key, e.key)) && (forall y <- b :: KeyLess(e.key, y.key))
    ensures Ascending(a + [e] + b)
  {
    hide KeyLess, Ascending;
    OneAscends(e);
    AscendingConcat(a, [e]);
    forall x, y | x in a + [e] && y in b ensures KeyLess(x.key, y.key) {
      if x in a {
        KeyLessTransitive(x.key, e.key, y.key);
      }
    }
    AscendingConcat(a + [e], b);
  }

  lemma OneAscends(e: Interest)
    ensures Ascending([e])
  {
  }

  lemma ReplacedRows(es: seq<Interest>, i: nat, e: Interest)
    requires i < |es| && es[i].key == e.key
    requires (forall x <- es[..i] :: x.key != e.key) && (forall x <- es[i + 1..] :: x.key != e.key)
    ensures forall x :: x in es[..i] + [e] + es[i + 1..] <==> (x in es && x.key != e.key) || x == e
  {
    assert es == es[..i] + [es[i]] + es[i + 1..];
  }

  lemma AddedRows(es: seq<Interest>, i: nat, e: Interest)
    requires i <= |es| && (forall x <- es :: x.key != e.key)
    ensures forall x :: x in es[..i] + [e] + es[i..] <==> (x in es && x.key != e.key) || x == e
  {
    assert es == es[..i] + es[i..];
  }

  /** The entries without `key`, or none when it is not among them. */
  function LeafDrop(es: seq<Interest>, key: Key): Option<seq<Interest>> {
    var p := UpTo(es, key);
    if p > 0 && es[p - 1].key == key then Some(es[..p - 1] + es[p..]) else None
  }

  lemma LeafDropKeeps(es: seq<Interest>, key: Key)
    requires Ascending(es)
    ensures LeafDrop(es, key).None? <==> forall x <- es :: x.key != key
    ensures LeafDrop(es, key).Some? ==>
      var r := LeafDrop(es, key).value;
      Ascending(r) && |r| == |es| - 1 && forall x :: x in r <==> x in es && x.key != key
  {
    hide KeyLess, UpTo, Ascending;
    var p := UpTo(es, key);
    UpToSplits(es, key);
    KeyLessIrreflexive(key);
    if p > 0 && es[p - 1].key == key {
      DroppedRows(es, p - 1, key);
      DroppedAscends(es, p - 1);
      assert es[p - 1] in es;
    }
  }

  lemma DroppedRows(es: seq<Interest>, i: nat, key: Key)
    requires i < |es| && es[i].key == key
    requires (forall x <- es[..i] :: x.key != key) && (forall x <- es[i + 1..] :: x.key != key)
    ensures forall x :: x in es[..i] + es[i + 1..] <==> x in es && x.key != key
  {
    assert es == es[..i] + [es[i]] + es[i + 1..];
  }

  lemma DroppedAscends(es: seq<Interest>, i: nat)
    requires Ascending(es) && i < |es|
    ensures Ascending(es[..i] + es[i + 1..])
  {
    hide KeyLess;
  }

  /** Entries as a leaf, or as two halves when they are too many for one. */
  function FinishLeaf(es: seq<Interest>): Ins {
    if |es| <= B then Done(MakeLeaf(es)) else
    var m := |es| / 2;
    Split(MakeLeaf(es[..m]), es[m].key, MakeLeaf(es[m..]))
  }

  lemma FinishLeafFits(es: seq<Interest>, lo: Option<Key>, hi: Option<Key>)
    requires Ascending(es) && 1 <= |es| <= 2 * B && forall e <- es :: InSpan(e.key, lo, hi)
    ensures Fits(FinishLeaf(es), lo, hi, 1, if |es| <= B then |es| else 0) && InsFlat(FinishLeaf(es)) == es
  {
    hide KeyLess, ReachOf, Ascending;
    if |es| > B {
      var m := |es| / 2;
      assert es == es[..m] + es[m..];
      LeafHalves(es, lo, hi, m);
    }
  }

  lemma LeafHalves(es: seq<Interest>, lo: Option<Key>, hi: Option<Key>, m: nat)
    requires Ascending(es) && 0 < m < |es| && forall e <- es :: InSpan(e.key, lo, hi)
    ensures Ascending(es[..m]) && Ascending(es[m..]) && Inside(es[m].key, lo, hi)
    ensures forall e <- es[..m] :: InSpan(e.key, lo, Some(es[m].key))
    ensures forall e <- es[m..] :: InSpan(e.key, Some(es[m].key), hi)
  {
    hide KeyLess;
    var k, a, b := es[m].key, es[..m], es[m..];
    assert es[m] in es && es[0] in es;
    AtLeastThen(lo, es[0].key, k);
    forall e | e in a ensures InSpan(e.key, lo, Some(k)) {
      var j :| 0 <= j < m && es[j] == e;
      assert e in es;
    }
    forall e | e in b ensures InSpan(e.key, Some(k), hi) {
      var j :| m <= j < |es| && es[j] == e;
      assert e in es;
      NotBelowFirst(es, m, j);
    }
  }

  lemma AtLeastThen(lo: Option<Key>, x: Key, k: Key)
    requires AtLeast(lo, x) && KeyLess(x, k)
    ensures lo.Some? ==> KeyLess(lo.value, k)
  {
    hide KeyLess;
    if lo.Some? {
      KeyLessTotal(lo.value, x);
      if lo.value != x {
        KeyLessTransitive(lo.value, x, k);
      }
    }
  }

  lemma NotBelowFirst(es: seq<Interest>, m: nat, j: nat)
    requires Ascending(es) && m <= j < |es|
    ensures !KeyLess(es[j].key, es[m].key)
  {
    hide KeyLess;
    KeyLessIrreflexive(es[m].key);
    if m < j {
      KeyLessOneWay(es[m].key, es[j].key);
    }
  }

  // ----- runs of children -----

  lemma {:induction false} FlatAllConcat(a: seq<Node>, b: seq<Node>)
    ensures FlatAll(a + b) == FlatAll(a) + FlatAll(b)
  {
    hide Flat;
    FlatAllSplit(a + b, |a|);
    assert (a + b)[..|a|] == a && (a + b)[|a|..] == b;
  }

  lemma OneFlat(t: Node)
    ensures FlatAll([t]) == Flat(t)
  {
    hide Flat;
    assert [t][..0] == [];
  }

  lemma TwoFlat(l: Node, r: Node)
    ensures FlatAll([l, r]) == Flat(l) + Flat(r)
  {
    hide Flat, FlatAll;
    OneFlat(l);
    OneFlat(r);
    FlatAllConcat([l], [r]);
    assert [l] + [r] == [l, r];
  }

  /** A run cut at a separator is two runs. */
  lemma RunCut(ks: seq<Key>, ch: seq<Node>, lo: Option<Key>, hi: Option<Key>, h: nat, m: nat)
    requires Run(ks, ch, lo, hi, h) && 0 < m <= |ks|
    ensures Run(ks[..m - 1], ch[..m], lo, Some(ks[m - 1]), h) && Run(ks[m..], ch[m..], Some(ks[m - 1]), hi, h)
    ensures Inside(ks[m - 1], lo, hi)
  {
    hide Bounded;
    CutKeys(ks, lo, hi, m);
    hide KeyLess, Rising, KeysIn, Inside;
    var k := ks[m - 1];
    var a, c := ks[..m - 1], ch[..m];
    forall i | 0 <= i < |c| ensures Bounded(c[i], LowOf(a, lo, i), HighOf(a, Some(k), i), h) {
      assert Bounded(ch[i], LowOf(ks, lo, i), HighOf(ks, hi, i), h);
    }
    var b, d := ks[m..], ch[m..];
    forall i | 0 <= i < |d| ensures Bounded(d[i], LowOf(b, Some(k), i), HighOf(b, hi, i), h) {
      assert Bounded(ch[m + i], LowOf(ks, lo, m + i), HighOf(ks, hi, m + i), h);
    }
  }

  lemma CutKeys(ks: seq<Key>, lo: Option<Key>, hi: Option<Key>, m: nat)
    requires Rising(ks) && KeysIn(ks, lo, hi) && 0 < m <= |ks|
    ensures Rising(ks[..m - 1]) && KeysIn(ks[..m - 1], lo, Some(ks[m - 1]))
    ensures Rising(ks[m..]) && KeysIn(ks[m..], Some(ks[m - 1]), hi) && Inside(ks[m - 1], lo, hi)
  {
    hide KeyLess;
    var a, b := ks[..m - 1], ks[m..];
    forall x | x in a ensures Inside(x, lo, Some(ks[m - 1])) {
      var j :| 0 <= j < m - 1 && ks[j] == x;
      assert Inside(ks[j], lo, hi);
    }
    forall x | x in b ensures Inside(x, Some(ks[m - 1]), hi) {
      var j :| m <= j < |ks| && ks[j] == x;
      assert Inside(ks[j], lo, hi);
    }
    assert ks[m - 1] in ks;
  }

  /** Two runs that meet at a key are one. */
  lemma RunJoin(ka: seq<Key>, ca: seq<Node>, k: Key, kb: seq<Key>, cb: seq<Node>, lo: Option<Key>, hi: Option<Key>,
                h: nat)
    requires Run(ka, ca, lo, Some(k), h) && Run(kb, cb, Some(k), hi, h) && Inside(k, lo, hi)
    ensures Run(ka + [k] + kb, ca + cb, lo, hi, h)
  {
    hide Bounded;
    JoinKeys(ka, k, kb, lo, hi);
    hide KeyLess, Rising, KeysIn, Inside;
    var ks, ch := ka + [k] + kb, ca + cb;
    forall i | 0 <= i < |ch| ensures Bounded(ch[i], LowOf(ks, lo, i), HighOf(ks, hi, i), h) {
      if i < |ca| {
        assert Bounded(ca[i], LowOf(ka, lo, i), HighOf(ka, Some(k), i), h);
      } else {
        assert Bounded(cb[i - |ca|], LowOf(kb, Some(k), i - |ca|), HighOf(kb, hi, i - |ca|), h);
      }
    }
  }

  lemma JoinKeys(ka: seq<Key>, k: Key, kb: seq<Key>, lo: Option<Key>, hi: Option<Key>)
    requires Rising(ka) && KeysIn(ka, lo, Some(k)) && Rising(kb) && KeysIn(kb, Some(k), hi) && Inside(k, lo, hi)
    ensures Rising(ka + [k] + kb) && KeysIn(ka + [k] + kb, lo, hi)
  {
    hide KeyLess;
    var ks := ka + [k] + kb;
    forall x | x in ks ensures Inside(x, lo, hi) {
      if x in ka {
        assert Inside(x, lo, Some(k));
        UnderThrough(x, k, hi);
      } else if x in kb {
        assert Inside(x, Some(k), hi);
        KeyLessOneWay(k, x);
        AtLeastThrough(lo, k, x);
      }
    }
    forall i, j | 0 <= i < j < |ks| ensures KeyLess(ks[i], ks[j]) {
      assert i < |ka| ==> Inside(ka[i], lo, Some(k));
      assert j > |ka| ==> kb[j - |ka| - 1] in kb && Inside(kb[j - |ka| - 1], Some(k), hi);
      if i < |ka| < j {
        KeyLessTransitive(ks[i], k, ks[j]);
      }
    }
  }

  /** The run with child `i` become two. */
  lemma Widened(ks: seq<Key>, ch: seq<Node>, i: nat, l: Node, k: Key, r: Node, lo: Option<Key>, hi: Option<Key>, h: nat)
    requires Run(ks, ch, lo, hi, h) && i < |ch| && Inside(k, LowOf(ks, lo, i), HighOf(ks, hi, i))
    requires Bounded(l, LowOf(ks, lo, i), Some(k), h) && Bounded(r, Some(k), HighOf(ks, hi, i), h)
    ensures Run(ks[..i] + [k] + ks[i..], ch[..i] + [l, r] + ch[i + 1..], lo, hi, h)
  {
    hide Bounded;
    WidenedKeys(ks, i, k, lo, hi);
    hide KeyLess, Rising, KeysIn, Inside;
    var K, C := ks[..i] + [k] + ks[i..], ch[..i] + [l, r] + ch[i + 1..];
    forall j | 0 <= j < |C| ensures Bounded(C[j], LowOf(K, lo, j), HighOf(K, hi, j), h) {
      if j < i {
        assert Bounded(ch[j], LowOf(ks, lo, j), HighOf(ks, hi, j), h);
      } else if j > i + 1 {
        assert Bounded(ch[j - 1], LowOf(ks, lo, j - 1), HighOf(ks, hi, j - 1), h);
      }
    }
  }

  lemma WidenedKeys(ks: seq<Key>, i: nat, k: Key, lo: Option<Key>, hi: Option<Key>)
    requires Rising(ks) && KeysIn(ks, lo, hi) && i <= |ks| && Inside(k, LowOf(ks, lo, i), HighOf(ks, hi, i))
    ensures Rising(ks[..i] + [k] + ks[i..]) && KeysIn(ks[..i] + [k] + ks[i..], lo, hi)
  {
    hide KeyLess;
    var K := ks[..i] + [k] + ks[i..];
    forall a | 0 <= a < i ensures KeyLess(ks[a], k) {
      if a < i - 1 {
        KeyLessTransitive(ks[a], ks[i - 1], k);
      }
    }
    forall b | i <= b < |ks| ensures KeyLess(k, ks[b]) {
      if b > i {
        KeyLessTransitive(k, ks[i], ks[b]);
      }
    }
    assert i > 0 ==> Inside(ks[i - 1], lo, hi);
    assert i < |ks| ==> Inside(ks[i], lo, hi);
    if i > 0 && lo.Some? {
      KeyLessTransitive(lo.value, ks[i - 1], k);
    }
    if i < |ks| {
      UnderThrough(k, ks[i], hi);
    }
    assert Inside(k, lo, hi);
    forall a, b | 0 <= a < b < |K| ensures KeyLess(K[a], K[b]) {
    }
  }

  /** The run with children `j` and `j + 1` become one. */
  lemma Narrowed(ks: seq<Key>, ch: seq<Node>, j: nat, t: Node, lo: Option<Key>, hi: Option<Key>, h: nat)
    requires Run(ks, ch, lo, hi, h) && j < |ks| && Bounded(t, LowOf(ks, lo, j), HighOf(ks, hi, j + 1), h)
    ensures Run(ks[..j] + ks[j + 1..], ch[..j] + [t] + ch[j + 2..], lo, hi, h)
  {
    hide Bounded, KeyLess, Inside;
    var K, C := ks[..j] + ks[j + 1..], ch[..j] + [t] + ch[j + 2..];
    forall x | x in K ensures Inside(x, lo, hi) {
      assert x in ks;
    }
    forall i | 0 <= i < |C| ensures Bounded(C[i], LowOf(K, lo, i), HighOf(K, hi, i), h) {
      if i < j {
        assert Bounded(ch[i], LowOf(ks, lo, i), HighOf(ks, hi, i), h);
      } else if i > j {
        assert Bounded(ch[i + 1], LowOf(ks, lo, i + 1), HighOf(ks, hi, i + 1), h);
      }
    }
  }

  /** The run with children `j` and `j + 1`, and what divides them, become others. */
  lemma Shared(ks: seq<Key>, ch: seq<Node>, j: nat, l: Node, k: Key, r: Node, lo: Option<Key>, hi: Option<Key>, h: nat)
    requires Run(ks, ch, lo, hi, h) && j < |ks| && Inside(k, LowOf(ks, lo, j), HighOf(ks, hi, j + 1))
    requires Bounded(l, LowOf(ks, lo, j), Some(k), h) && Bounded(r, Some(k), HighOf(ks, hi, j + 1), h)
    ensures Run(ks[j := k], ch[j := l][j + 1 := r], lo, hi, h)
  {
    hide Bounded;
    var ks', ch' := ks[..j] + ks[j + 1..], ch[..j] + [l] + ch[j + 2..];
    NarrowedKeys(ks, j, lo, hi);
    WidenedKeys(ks', j, k, lo, hi);
    assert ks'[..j] + [k] + ks'[j..] == ks[j := k];
    hide KeyLess, Rising, KeysIn, Inside;
    var K, C := ks[j := k], ch[j := l][j + 1 := r];
    forall i | 0 <= i < |C| ensures Bounded(C[i], LowOf(K, lo, i), HighOf(K, hi, i), h) {
      if i < j || i > j + 1 {
        assert Bounded(ch[i], LowOf(ks, lo, i), HighOf(ks, hi, i), h);
      }
    }
  }

  lemma NarrowedKeys(ks: seq<Key>, j: nat, lo: Option<Key>, hi: Option<Key>)
    requires Rising(ks) && KeysIn(ks, lo, hi) && j < |ks|
    ensures var K := ks[..j] + ks[j + 1..];
      Rising(K) && KeysIn(K, lo, hi) && LowOf(K, lo, j) == LowOf(ks, lo, j) && HighOf(K, hi, j) == HighOf(ks, hi, j + 1)
  {
    hide KeyLess, Inside;
    var K := ks[..j] + ks[j + 1..];
    forall x | x in K ensures Inside(x, lo, hi) {
      assert x in ks;
    }
  }

  /** The run with child `i` replaced. */
  lemma Replaced(ks: seq<Key>, ch: seq<Node>, i: nat, t: Node, lo: Option<Key>, hi: Option<Key>, h: nat)
    requires Run(ks, ch, lo, hi, h) && i < |ch| && Bounded(t, LowOf(ks, lo, i), HighOf(ks, hi, i), h)
    ensures Run(ks, ch[i := t], lo, hi, h)
  {
    hide Bounded, KeyLess, Inside, Rising, KeysIn;
  }

  // ----- internal nodes -----

  /** Children as a node, or as two halves around a middle separator when they are too many
      for one. */
  function Finish(ks: seq<Key>, ch: seq<Node>): Ins
    requires |ch| == |ks| + 1
  {
    if |ch| <= B then Done(MakeInternal(ks, ch)) else
    var m := |ch| / 2;
    Split(MakeInternal(ks[..m - 1], ch[..m]), ks[m - 1], MakeInternal(ks[m..], ch[m..]))
  }

  lemma FinishFits(ks: seq<Key>, ch: seq<Node>, lo: Option<Key>, hi: Option<Key>, h: nat)
    requires Run(ks, ch, lo, hi, h) && h >= 1 && |ch| <= 2 * B && Full(ch)
    ensures Fits(Finish(ks, ch), lo, hi, h + 1, if |ch| <= B then |ch| else 0) && InsFlat(Finish(ks, ch)) == FlatAll(ch)
  {
    hide KeyLess, ReachAll, Rising, KeysIn, Inside, FlatAll;
    if |ch| > B {
      var m := |ch| / 2;
      RunCut(ks, ch, lo, hi, h, m);
      FlatAllSplit(ch, m);
      hide Run;
      assert Full(ch[..m]) && Full(ch[m..]);
    }
  }

  /** How many separators are at or below `key`: the child its span holds. */
  function ChildIndex(ks: seq<Key>, key: Key): (i: nat)
    ensures i <= |ks|
    ensures forall j | 0 <= j < i :: !KeyLess(key, ks[j])
    ensures i < |ks| ==> KeyLess(key, ks[i])
  {
    if ks == [] || KeyLess(key, ks[0]) then 0 else 1 + ChildIndex(ks[1..], key)
  }

  /** The child at that index is the one whose span holds the key, and no other child
      has an entry there. */
  lemma ChildHolds(ks: seq<Key>, ch: seq<Node>, lo: Option<Key>, hi: Option<Key>, h: nat, key: Key)
    requires Run(ks, ch, lo, hi, h) && InSpan(key, lo, hi)
    ensures var i := ChildIndex(ks, key);
      && InSpan(key, LowOf(ks, lo, i), HighOf(ks, hi, i))
      && (forall e <- FlatAll(ch[..i]) :: e.key != key) && (forall e <- FlatAll(ch[i + 1..]) :: e.key != key)
  {
    hide KeyLess, Bounded, ChildIndex, Inside, Flat, FlatAll;
    var i := ChildIndex(ks, key);
    forall e | e in FlatAll(ch[..i]) ensures e.key != key {
      FlatAllIn(ch[..i], e);
      var j :| 0 <= j < i && e in Flat(ch[..i][j]);
      FlatInSpan(ch[j], LowOf(ks, lo, j), HighOf(ks, hi, j), h, e);
    }
    forall e | e in FlatAll(ch[i + 1..]) ensures e.key != key {
      FlatAllIn(ch[i + 1..], e);
      var j :| 0 <= j < |ch| - i - 1 && e in Flat(ch[i + 1..][j]);
      FlatInSpan(ch[i + 1 + j], LowOf(ks, lo, i + 1 + j), HighOf(ks, hi, i + 1 + j), h, e);
      SeparatorOrder(ks, i, i + j, key);
    }
  }

  lemma SeparatorOrder(ks: seq<Key>, j: nat, i: nat, key: Key)
    requires Rising(ks) && j <= i < |ks| && KeyLess(key, ks[j])
    ensures KeyLess(key, ks[i])
  {
    hide KeyLess;
    if j < i {
      KeyLessTransitive(key, ks[j], ks[i]);
    }
  }

  /** The rows of a run around the children from `a` to `b`. */
  lemma FlatAround(ch: seq<Node>, a: nat, b: nat, mid: seq<Node>)
    requires a <= b <= |ch|
    ensures FlatAll(ch[..a] + mid + ch[b..]) == FlatAll(ch[..a]) + FlatAll(mid) + FlatAll(ch[b..])
  {
    hide Flat, FlatAll;
    FlatAllConcat(ch[..a] + mid, ch[b..]);
    FlatAllConcat(ch[..a], mid);
  }

  // ----- insertion -----

  /** Insertion below a node: it stays one, no narrower, or becomes two. */
  method InsertInto(t: Node, e: Interest, ghost lo: Option<Key>, ghost hi: Option<Key>, ghost h: nat) returns (r: Ins)
    requires Bounded(t, lo, hi, h) && InSpan(e.key, lo, hi)
    ensures Fits(r, lo, hi, h, Width(t))
    ensures forall x :: x in InsFlat(r) <==> (x in Flat(t) && x.key != e.key) || x == e
    decreases t
  {
    hide KeyLess, ReachOf, ReachAll, Ascending, FlatAll, LeafPut, ChildIndex, InSpan, Run, Fits, Finish, FinishLeaf,
      InsFlat;
    match t {
      case Leaf(_, es) =>
        LeafPutKeeps(es, e);
        FinishLeafFits(LeafPut(es, e), lo, hi);
        r := FinishLeaf(LeafPut(es, e));
        DoneWhenSmall(LeafPut(es, e));
        FitsLess(r, lo, hi, 1, if |LeafPut(es, e)| <= B then |LeafPut(es, e)| else 0, Width(t));
      case Internal(_, ks, ch) =>
        var i := ChildIndex(ks, e.key);
        RunWidths(ks, ch, lo, hi, h - 1);
        ChildHolds(ks, ch, lo, hi, h - 1, e.key);
        ChildBounded(ks, ch, lo, hi, h - 1, i);
        var sub := InsertInto(ch[i], e, LowOf(ks, lo, i), HighOf(ks, hi, i), h - 1);
        r := InsertPlaced(ks, ch, i, sub, lo, hi, h - 1);
        PlacedRows(ch, i, sub, e);
    }
  }

  lemma ChildBounded(ks: seq<Key>, ch: seq<Node>, lo: Option<Key>, hi: Option<Key>, h: nat, i: nat)
    requires Run(ks, ch, lo, hi, h) && i < |ch|
    ensures Bounded(ch[i], LowOf(ks, lo, i), HighOf(ks, hi, i), h)
  {
  }

  lemma FitsLess(r: Ins, lo: Option<Key>, hi: Option<Key>, h: nat, most: nat, least: nat)
    requires Fits(r, lo, hi, h, most) && (r.Done? ==> least <= most)
    ensures Fits(r, lo, hi, h, least)
  {
    hide Bounded;
  }

  /** A node with child `i` become what an insertion left of it. */
  method InsertPlaced(ks: seq<Key>, ch: seq<Node>, i: nat, sub: Ins, ghost lo: Option<Key>, ghost hi: Option<Key>,
                      ghost h: nat)
    returns (r: Ins)
    requires h >= 1 && Run(ks, ch, lo, hi, h) && Full(ch) && i < |ch| <= B
    requires Fits(sub, LowOf(ks, lo, i), HighOf(ks, hi, i), h, Width(ch[i]))
    ensures Fits(r, lo, hi, h + 1, |ch|)
    ensures InsFlat(r) == FlatAll(ch[..i]) + InsFlat(sub) + FlatAll(ch[i + 1..])
  {
    hide KeyLess, ReachOf, ReachAll, FlatAll, Run, Bounded, Finish;
    RunWidths(ks, ch, lo, hi, h);
    match sub {
      case Done(c) =>
        Replaced(ks, ch, i, c, lo, hi, h);
        assert ch[i := c] == ch[..i] + [c] + ch[i + 1..];
        FlatAround(ch, i, i + 1, [c]);
        OneFlat(c);
        FinishFits(ks, ch[i := c], lo, hi, h);
        r := Finish(ks, ch[i := c]);
      case Split(l, k, x) =>
        Widened(ks, ch, i, l, k, x, lo, hi, h);
        FlatAround(ch, i, i + 1, [l, x]);
        TwoFlat(l, x);
        var keys, children := ks[..i] + [k] + ks[i..], ch[..i] + [l, x] + ch[i + 1..];
        FinishFits(keys, children, lo, hi, h);
        r := Finish(keys, children);
        DoneWhenFew(keys, children);
        FitsLess(r, lo, hi, h + 1, if |children| <= B then |children| else 0, |ch|);
    }
  }

  lemma PlacedRows(ch: seq<Node>, i: nat, sub: Ins, e: Interest)
    requires i < |ch|
    requires (forall x <- FlatAll(ch[..i]) :: x.key != e.key) && (forall x <- FlatAll(ch[i + 1..]) :: x.key != e.key)
    requires forall x :: x in InsFlat(sub) <==> (x in Flat(ch[i]) && x.key != e.key) || x == e
    ensures forall x :: x in FlatAll(ch[..i]) + InsFlat(sub) + FlatAll(ch[i + 1..])
                   <==> (x in FlatAll(ch) && x.key != e.key) || x == e
  {
    hide FlatAll, Flat, InsFlat;
    AroundRows(ch, i);
  }

  /** The tree with an interest inserted, in place of any at its key. */
  method Insert(t: Node, e: Interest) returns (r: Node)
    requires Built(t)
    ensures Built(r)
    ensures forall x :: x in Flat(r) <==> (x in Flat(t) && x.key != e.key) || x == e
  {
    hide Bounded, KeyLess, ReachOf, FlatAll, Flat;
    if t == Empty {
      OneLeaf(e);
      return MakeLeaf([e]);
    }
    ghost var h: nat :| Rooted(t, h);
    var sub := InsertInto(t, e, None, None, h);
    match sub {
      case Done(c) =>
        r := c;
        StillRooted(t, c, h);
      case Split(l, k, x) =>
        r := MakeInternal([k], [l, x]);
        NewRoot(l, k, x, h);
    }
  }

  lemma OneLeaf(e: Interest)
    ensures Built(MakeLeaf([e])) && Flat(MakeLeaf([e])) == [e] && Flat(Empty) == []
  {
    hide KeyLess, ReachOf;
    assert Rooted(MakeLeaf([e]), 1);
  }

  lemma StillRooted(t: Node, c: Node, h: nat)
    requires Rooted(t, h) && Bounded(c, None, None, h) && Width(c) >= Width(t)
    ensures Built(c)
  {
    hide KeyLess, ReachOf, ReachAll, Full, Run, Ascending;
    assert Rooted(c, h);
  }

  lemma NewRoot(l: Node, k: Key, r: Node, h: nat)
    requires Fits(Split(l, k, r), None, None, h, 0)
    ensures Built(MakeInternal([k], [l, r])) && Flat(MakeInternal([k], [l, r])) == Flat(l) + Flat(r)
  {
    hide KeyLess, ReachOf, ReachAll, FlatAll, Bounded;
    TwoFlat(l, r);
    assert Run([k], [l, r], None, None, h);
    RootedPair(l, k, r, h);
  }

  lemma RootedPair(l: Node, k: Key, r: Node, h: nat)
    requires Run([k], [l, r], None, None, h) && Full([l, r]) && Bounded(l, None, Some(k), h)
    ensures Built(MakeInternal([k], [l, r]))
  {
    hide KeyLess, ReachOf, ReachAll, FlatAll, Run, Full, Ascending;
    assert h >= 1;
    assert Rooted(MakeInternal([k], [l, r]), h + 1);
  }

  // ----- removal -----

  /** Neighbours brought together: one node, or two even halves when one cannot hold them. */
  method Fuse(l: Node, k: Key, r: Node, ghost lo: Option<Key>, ghost hi: Option<Key>, ghost h: nat) returns (res: Ins)
    requires Bounded(l, lo, Some(k), h) && Bounded(r, Some(k), hi, h) && Inside(k, lo, hi)
    requires Width(l) + Width(r) >= MIN
    ensures Fits(res, lo, hi, h, MIN) && InsFlat(res) == Flat(l) + Flat(r)
  {
    hide KeyLess, ReachOf, ReachAll, FlatAll, Run, Finish, FinishLeaf, Ascending, Fits, InsFlat, Inside, InSpan;
    match l {
      case Leaf(_, a) =>
        var b := r.entries;
        LeavesMeet(a, k, b, lo, hi);
        FinishLeafFits(a + b, lo, hi);
        res := FinishLeaf(a + b);
        FitsLess(res, lo, hi, h, if |a + b| <= B then |a + b| else 0, MIN) by {
          DoneWhenSmall(a + b);
        }
      case Internal(_, ka, ca) =>
        RunJoin(ka, ca, k, r.keys, r.children, lo, hi, h - 1);
        FlatAllConcat(ca, r.children);
        RunWidths(ka, ca, lo, Some(k), h - 1);
        RunWidths(r.keys, r.children, Some(k), hi, h - 1);
        FinishFits(ka + [k] + r.keys, ca + r.children, lo, hi, h - 1);
        res := Finish(ka + [k] + r.keys, ca + r.children);
        FitsLess(res, lo, hi, h, if |ca + r.children| <= B then |ca + r.children| else 0, MIN) by {
          DoneWhenFew(ka + [k] + r.keys, ca + r.children);
        }
    }
  }

  lemma RunWidths(ks: seq<Key>, ch: seq<Node>, lo: Option<Key>, hi: Option<Key>, h: nat)
    requires Run(ks, ch, lo, hi, h)
    ensures |ch| == |ks| + 1
  {
  }

  lemma DoneWhenSmall(es: seq<Interest>)
    ensures FinishLeaf(es).Done? <==> |es| <= B
  {
  }

  lemma DoneWhenFew(ks: seq<Key>, ch: seq<Node>)
    requires |ch| == |ks| + 1
    ensures Finish(ks, ch).Done? <==> |ch| <= B
  {
  }

  lemma LeavesMeet(a: seq<Interest>, k: Key, b: seq<Interest>, lo: Option<Key>, hi: Option<Key>)
    requires Ascending(a) && Ascending(b) && Inside(k, lo, hi)
    requires (forall e <- a :: InSpan(e.key, lo, Some(k))) && (forall e <- b :: InSpan(e.key, Some(k), hi))
    ensures Ascending(a + b) && forall e <- a + b :: InSpan(e.key, lo, hi)
  {
    hide KeyLess, Ascending;
    forall x, y | x in a && y in b ensures KeyLess(x.key, y.key) {
      KeyLessTotal(y.key, k);
      if y.key != k {
        KeyLessTransitive(x.key, k, y.key);
      }
    }
    AscendingConcat(a, b);
    forall e | e in a ensures InSpan(e.key, lo, hi) {
      UnderThrough(e.key, k, hi);
    }
    forall e | e in b ensures InSpan(e.key, lo, hi) {
      AtLeastThrough(lo, k, e.key);
    }
  }

  /** A node with child `i` cut short, mended against a neighbour when it is below the
      floor. The node may end one child narrower. */
  method Mended(ks: seq<Key>, ch: seq<Node>, i: nat, c: Node, ghost lo: Option<Key>, ghost hi: Option<Key>,
                ghost h: nat)
    returns (t: Node)
    requires h >= 1 && Run(ks, ch, lo, hi, h) && Full(ch) && i < |ch| && 2 <= |ch| <= B
    requires Bounded(c, LowOf(ks, lo, i), HighOf(ks, hi, i), h) && Width(c) >= MIN - 1
    ensures Bounded(t, lo, hi, h + 1) && Width(t) >= |ch| - 1 && t.Internal?
    ensures Flat(t) == FlatAll(ch[..i]) + Flat(c) + FlatAll(ch[i + 1..])
  {
    hide KeyLess, ReachOf, ReachAll, FlatAll, Run, Fits, InsFlat;
    Replaced(ks, ch, i, c, lo, hi, h);
    var mended := ch[i := c];
    assert mended == ch[..i] + [c] + ch[i + 1..];
    FlatAround(ch, i, i + 1, [c]);
    OneFlat(c);
    if Width(c) >= MIN {
      return MakeInternal(ks, mended);
    }
    RunWidths(ks, ch, lo, hi, h);
    var j := if i > 0 then i - 1 else i;
    ChildBounded(ks, mended, lo, hi, h, j);
    ChildBounded(ks, mended, lo, hi, h, j + 1);
    SeparatorInside(ks, mended, lo, hi, h, j);
    var pair := Fuse(mended[j], ks[j], mended[j + 1], LowOf(ks, lo, j), HighOf(ks, hi, j + 1), h);
    t := PairPlaced(ks, mended, j, pair, lo, hi, h);
    FlatAround(mended, j, j + 2, [mended[j], mended[j + 1]]);
    TwoFlat(mended[j], mended[j + 1]);
    assert mended == mended[..j] + [mended[j], mended[j + 1]] + mended[j + 2..];
  }

  lemma SeparatorInside(ks: seq<Key>, ch: seq<Node>, lo: Option<Key>, hi: Option<Key>, h: nat, j: nat)
    requires Run(ks, ch, lo, hi, h) && j < |ks|
    ensures Inside(ks[j], LowOf(ks, lo, j), HighOf(ks, hi, j + 1))
  {
    hide KeyLess, Bounded;
    assert Inside(ks[j], lo, hi);
  }

  /** A node whose children `j` and `j + 1` became what combining left of them. */
  method PairPlaced(ks: seq<Key>, ch: seq<Node>, j: nat, pair: Ins, ghost lo: Option<Key>, ghost hi: Option<Key>,
                    ghost h: nat)
    returns (t: Node)
    requires h >= 1 && Run(ks, ch, lo, hi, h) && j < |ks| && 2 <= |ch| <= B
    requires forall i | 0 <= i < |ch| && i != j && i != j + 1 :: Width(ch[i]) >= MIN
    requires Fits(pair, LowOf(ks, lo, j), HighOf(ks, hi, j + 1), h, MIN)
    ensures Bounded(t, lo, hi, h + 1) && Width(t) >= |ch| - 1 && t.Internal?
    ensures j + 1 < |ch| && Flat(t) == FlatAll(ch[..j]) + InsFlat(pair) + FlatAll(ch[j + 2..])
  {
    hide KeyLess, ReachOf, ReachAll, FlatAll, Run;
    RunWidths(ks, ch, lo, hi, h);
    match pair {
      case Done(x) =>
        Narrowed(ks, ch, j, x, lo, hi, h);
        FlatAround(ch, j, j + 2, [x]);
        OneFlat(x);
        t := MakeInternal(ks[..j] + ks[j + 1..], ch[..j] + [x] + ch[j + 2..]);
      case Split(l, k, x) =>
        Shared(ks, ch, j, l, k, x, lo, hi, h);
        FlatAround(ch, j, j + 2, [l, x]);
        TwoFlat(l, x);
        assert ch[j := l][j + 1 := x] == ch[..j] + [l, x] + ch[j + 2..];
        t := MakeInternal(ks[j := k], ch[j := l][j + 1 := x]);
    }
  }

  /** Removal below a node; none says the key is not there. The node may be left one short
      of the floor, for its holder to mend. */
  method RemoveFrom(t: Node, key: Key, ghost lo: Option<Key>, ghost hi: Option<Key>, ghost h: nat)
    returns (r: Option<Node>)
    requires Bounded(t, lo, hi, h) && InSpan(key, lo, hi) && (t.Internal? ==> |t.children| >= 2)
    ensures r.None? <==> forall x <- Flat(t) :: x.key != key
    ensures r.Some? && r.value == Empty ==> Width(t) == 1
    ensures r.Some? && r.value != Empty ==> Bounded(r.value, lo, hi, h) && Width(r.value) >= Width(t) - 1
    ensures r.Some? ==> forall x :: x in Flat(r.value) <==> x in Flat(t) && x.key != key
    decreases t
  {
    hide KeyLess, ReachOf, ReachAll, Ascending, FlatAll, LeafDrop, ChildIndex, InSpan, Run;
    match t {
      case Leaf(_, es) =>
        LeafDropKeeps(es, key);
        var left := LeafDrop(es, key);
        r := if left.None? then None else if left.value == [] then Some(Empty) else Some(MakeLeaf(left.value));
      case Internal(_, ks, ch) =>
        var i := ChildIndex(ks, key);
        RunWidths(ks, ch, lo, hi, h - 1);
        ChildHolds(ks, ch, lo, hi, h - 1, key);
        ChildBounded(ks, ch, lo, hi, h - 1, i);
        AroundRows(ch, i);
        assert Width(ch[i]) >= MIN;
        var c := RemoveFrom(ch[i], key, LowOf(ks, lo, i), HighOf(ks, hi, i), h - 1);
        if c.None? {
          return None;
        }
        var m := Mended(ks, ch, i, c.value, lo, hi, h - 1);
        r := Some(m);
    }
  }

  lemma AroundRows(ch: seq<Node>, i: nat)
    requires i < |ch|
    ensures FlatAll(ch) == FlatAll(ch[..i]) + Flat(ch[i]) + FlatAll(ch[i + 1..])
  {
    hide FlatAll, Flat;
    var tail := ch[i..];
    FlatAllSplit(ch, i);
    FlatAllSplit(tail, 1);
    assert tail[..1] == [ch[i]] && tail[1..] == ch[i + 1..];
    OneFlat(ch[i]);
  }

  /** A root left with one child becomes that child. */
  function ShrinkRoot(t: Node): Node {
    if t.Internal? && |t.children| == 1 then t.children[0] else t
  }

  lemma ShrinkRootKeeps(t: Node, h: nat)
    requires t == Empty || Bounded(t, None, None, h)
    ensures Built(ShrinkRoot(t)) && Flat(ShrinkRoot(t)) == Flat(t)
  {
    hide KeyLess, ReachOf, ReachAll, Ascending, FlatAll;
    if t.Internal? && |t.children| == 1 {
      var c := t.children[0];
      OneFlat(c);
      assert t.children == [c];
      OnlyChild(t, h);
      assert Rooted(c, h - 1);
    } else if t != Empty {
      assert Rooted(t, h);
    }
  }

  lemma OnlyChild(t: Node, h: nat)
    requires t.Internal? && Bounded(t, None, None, h) && |t.children| == 1
    ensures Bounded(t.children[0], None, None, h - 1) && Width(t.children[0]) >= MIN
  {
    hide KeyLess, ReachOf, ReachAll;
    assert t.children[0] in t.children;
  }

  /** The tree without the interest at `key`; an absent key gives back the same tree. */
  method Remove(t: Node, key: Key) returns (r: Node)
    requires Built(t)
    ensures Built(r)
    ensures forall x :: x in Flat(r) <==> x in Flat(t) && x.key != key
    ensures (forall x <- Flat(t) :: x.key != key) ==> r == t
  {
    hide Bounded, KeyLess, FlatAll, Flat, ShrinkRoot;
    if t == Empty {
      NoInterests();
      return t;
    }
    ghost var h: nat :| Rooted(t, h);
    var left := RemoveFrom(t, key, None, None, h);
    if left.None? {
      return t;
    }
    r := ShrinkRoot(left.value);
    ShrinkRootKeeps(left.value, h);
  }

  lemma NoInterests()
    ensures Flat(Empty) == []
  {
  }
}
