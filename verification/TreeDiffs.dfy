/** Comparing two trees by two frontiers. A shared node at one position is dropped
    whole; separators, even stale ones, let rows pass without opening a node. */
module TreeDiffs {
  import opened Values
  import opened Displacements
  import opened MarkLists
  import opened Trees
  import opened TreeEdits
  import opened TreeCuts
  import opened TreeReads
  import opened Grafts

  /** One key that differs: what each side binds it to. */
  datatype Diff = Diff(key: Tuple, left: Option<int>, right: Option<int>)

  // ----- the comparison of two sorted lists -----

  function OneSided(e: seq<Entry>, left: bool): (r: seq<Diff>)
    ensures |r| == |e|
  {
    if e == [] then [] else
    [if left then Diff(e[0].key, Some(e[0].val), None) else Diff(e[0].key, None, Some(e[0].val))] +
      OneSided(e[1..], left)
  }

  function Paired(x: Entry, y: Entry): seq<Diff> {
    if x.val == y.val then [] else [Diff(x.key, Some(x.val), Some(y.val))]
  }

  function Compare(a: seq<Entry>, b: seq<Entry>): seq<Diff>
    decreases |a| + |b|
  {
    if a == [] then OneSided(b, false)
    else if b == [] then OneSided(a, true)
    else if Less(a[0].key, b[0].key) then OneSided(a[..1], true) + Compare(a[1..], b)
    else if Less(b[0].key, a[0].key) then OneSided(b[..1], false) + Compare(a, b[1..])
    else Paired(a[0], b[0]) + Compare(a[1..], b[1..])
  }

  function Look(m: map<Tuple, int>, k: Tuple): Option<int> {
    if k in m then Some(m[k]) else None
  }

  /** Exactly the keys whose values differ, with both values. */
  ghost predicate Exact(r: seq<Diff>, a: seq<Entry>, b: seq<Entry>) {
    forall d :: d in r <==> d.left == Look(ToMap(a), d.key) && d.right == Look(ToMap(b), d.key) && d.left != d.right
  }

  ghost predicate Ascending(r: seq<Diff>) {
    forall i, j | 0 <= i < j < |r| :: Less(r[i].key, r[j].key)
  }

  lemma MapCons(e: seq<Entry>)
    requires Sorted(e) && e != []
    ensures Sorted(e[1..]) && ToMap(e) == ToMap(e[1..])[e[0].key := e[0].val] && e[0].key !in ToMap(e[1..])
    ensures forall k | k in ToMap(e[1..]) :: Less(e[0].key, k)
  {
    hide Less, ToMap;
    var h, t := [e[0]], e[1..];
    assert e == h + t;
    SortedConcat(h, t);
    JoinIsUnion(h, t);
    One(e[0]);
    forall k | k in ToMap(t) ensures Less(e[0].key, k) {
      MapHolds(t, k);
      assert e[0] in h;
    }
  }

  lemma One(x: Entry)
    ensures ToMap([x]) == map[x.key := x.val]
  {
    assert [x][..0] == [];
    NoMap();
  }

  lemma {:induction false} OneSidedExact(e: seq<Entry>, left: bool)
    requires Sorted(e)
    ensures if left then Exact(OneSided(e, left), e, []) else Exact(OneSided(e, left), [], e)
    ensures Ascending(OneSided(e, left))
    ensures forall d <- OneSided(e, left) :: d.key in ToMap(e)
  {
    hide Less, ToMap;
    NoMap();
    if e != [] {
      MapCons(e);
      OneSidedExact(e[1..], left);
      AscendingCons([OneSided(e, left)[0]], OneSided(e[1..], left));
    }
  }

  lemma AscendingCons(h: seq<Diff>, t: seq<Diff>)
    requires |h| <= 1 && Ascending(t) && forall x <- h, y <- t :: Less(x.key, y.key)
    ensures Ascending(h + t)
  {
    hide Less;
    var r := h + t;
    forall i, j | 0 <= i < j < |r| ensures Less(r[i].key, r[j].key) {
      if i < |h| {
        assert r[i] in h && r[j] in t;
      } else {
        assert Less(t[i - |h|].key, t[j - |h|].key);
      }
    }
  }

  /** The merge reports exactly the keys whose values differ, with both values, in
      strictly ascending order. */
  lemma {:induction false} CompareExact(a: seq<Entry>, b: seq<Entry>)
    requires Sorted(a) && Sorted(b)
    ensures Exact(Compare(a, b), a, b) && Ascending(Compare(a, b))
    ensures forall d <- Compare(a, b) :: d.key in ToMap(a) || d.key in ToMap(b)
    decreases |a| + |b|
  {
    hide Less, ToMap, OneSided, Exact, Ascending;
    if a == [] {
      OneSidedExact(b, false);
    } else if b == [] {
      OneSidedExact(a, true);
    } else {
      MapCons(a);
      MapCons(b);
      LessTotal(a[0].key, b[0].key);
      if Less(a[0].key, b[0].key) {
        CompareExact(a[1..], b);
        HeadExact(a, b, true);
      } else if Less(b[0].key, a[0].key) {
        CompareExact(a, b[1..]);
        HeadExact(a, b, false);
      } else {
        CompareExact(a[1..], b[1..]);
        SameHeadExact(a, b);
      }
    }
  }

  lemma SameHeadExact(a: seq<Entry>, b: seq<Entry>)
    requires Sorted(a) && Sorted(b) && a != [] && b != [] && a[0].key == b[0].key
    requires var r := Compare(a[1..], b[1..]);
      && Exact(r, a[1..], b[1..]) && Ascending(r)
      && (forall d <- r :: d.key in ToMap(a[1..]) || d.key in ToMap(b[1..]))
    ensures Exact(Compare(a, b), a, b) && Ascending(Compare(a, b))
    ensures forall d <- Compare(a, b) :: d.key in ToMap(a) || d.key in ToMap(b)
  {
    hide Less, ToMap, OneSided, Sorted, Ascending, Exact, Compare;
    MapCons(a);
    MapCons(b);
    LessIrreflexive(a[0].key);
    var r := Compare(a[1..], b[1..]);
    SameHeadCompare(a, b);
    PairedExact(a, b, r);
    AscendingCons(Paired(a[0], b[0]), r);
  }

  lemma SameHeadCompare(a: seq<Entry>, b: seq<Entry>)
    requires a != [] && b != [] && a[0].key == b[0].key
    ensures Compare(a, b) == Paired(a[0], b[0]) + Compare(a[1..], b[1..])
  {
    hide Less, Paired;
    LessIrreflexive(a[0].key);
  }

  lemma PairedExact(a: seq<Entry>, b: seq<Entry>, r: seq<Diff>)
    requires Sorted(a) && Sorted(b) && a != [] && b != [] && a[0].key == b[0].key && Exact(r, a[1..], b[1..])
    ensures Exact(Paired(a[0], b[0]) + r, a, b)
  {
    hide Less, ToMap, Sorted;
    MapCons(a);
    MapCons(b);
  }

  lemma HeadExact(a: seq<Entry>, b: seq<Entry>, left: bool)
    requires Sorted(a) && Sorted(b) && a != [] && b != []
    requires if left then Less(a[0].key, b[0].key) else Less(b[0].key, a[0].key)
    requires var r := if left then Compare(a[1..], b) else Compare(a, b[1..]);
      && Exact(r, if left then a[1..] else a, if left then b else b[1..]) && Ascending(r)
      && (forall d <- r :: d.key in ToMap(if left then a[1..] else a) || d.key in ToMap(if left then b else b[1..]))
    ensures Exact(Compare(a, b), a, b) && Ascending(Compare(a, b))
    ensures forall d <- Compare(a, b) :: d.key in ToMap(a) || d.key in ToMap(b)
  {
    hide Less, ToMap, OneSided, Sorted, Ascending, Exact, Compare;
    MapCons(a);
    MapCons(b);
    var r := if left then Compare(a[1..], b) else Compare(a, b[1..]);
    if left {
      HeadAbsent(a[0], b);
    } else {
      HeadAbsent(b[0], a);
    }
    HeadCompare(a, b, left);
    HeadedExact(a, b, left, r);
    AscendingCons([HeadDiff(a, b, left)], r);
  }

  /** What the lesser of two heads reports: its key is missing on the other side. */
  function HeadDiff(a: seq<Entry>, b: seq<Entry>, left: bool): Diff
    requires a != [] && b != []
  {
    if left then Diff(a[0].key, Some(a[0].val), None) else Diff(b[0].key, None, Some(b[0].val))
  }

  lemma HeadAbsent(h: Entry, e: seq<Entry>)
    requires Sorted(e) && e != [] && Less(h.key, e[0].key)
    ensures forall k | k in ToMap(e) :: Less(h.key, k) && k != h.key
  {
    hide Less, ToMap, Sorted;
    MapCons(e);
    LessIrreflexive(h.key);
    forall k | k in ToMap(e) ensures Less(h.key, k) {
      if k != e[0].key {
        LessTransitive(h.key, e[0].key, k);
      }
    }
  }

  lemma HeadCompare(a: seq<Entry>, b: seq<Entry>, left: bool)
    requires a != [] && b != [] && if left then Less(a[0].key, b[0].key) else Less(b[0].key, a[0].key)
    ensures Compare(a, b) == [HeadDiff(a, b, left)] + if left then Compare(a[1..], b) else Compare(a, b[1..])
  {
    hide Less;
    LessAsymmetric(if left then a[0].key else b[0].key, if left then b[0].key else a[0].key);
    var s := if left then a[..1] else b[..1];
    assert s[1..] == [];
    assert OneSided([], left) == [];
    assert OneSided(s, left) == [HeadDiff(a, b, left)];
  }

  lemma HeadedExact(a: seq<Entry>, b: seq<Entry>, left: bool, r: seq<Diff>)
    requires Sorted(a) && Sorted(b) && a != [] && b != []
    requires if left then Less(a[0].key, b[0].key) else Less(b[0].key, a[0].key)
    requires Exact(r, if left then a[1..] else a, if left then b else b[1..])
    ensures Exact([HeadDiff(a, b, left)] + r, a, b)
  {
    hide Less, ToMap, Sorted;
    if left {
      MapCons(a);
      HeadAbsent(a[0], b);
    } else {
      MapCons(b);
      HeadAbsent(b[0], a);
    }
  }

  // ----- frontiers -----

  /** One item of a frontier: an entry, or a subtree not yet opened with the frame of
      its holder and a separator known to bound it below. */
  datatype Head = EntryHead(key: Tuple, off: int, val: int) | NodeHead(t: Tree, off: int, lo: Bound)

  function HeadRows(x: Head): seq<Entry> {
    match x case EntryHead(k, off, v) => [Entry(Shift(k, off), v)] case NodeHead(t, off, _) => Seen(t, off)
  }

  /** The rows a frontier has yet to visit; its next item is last. */
  function FrontRows(s: seq<Head>): seq<Entry> {
    if s == [] then [] else HeadRows(s[|s| - 1]) + FrontRows(s[..|s| - 1])
  }

  ghost predicate HeadOk(x: Head) {
    x.NodeHead? ==>
      && x.t.Ref? && Shaped(x.t, NodeHeight(x.t.node)) && Ordered(Marks(x.t))
      && InBounds(Seen(x.t, x.off), x.lo, None)
  }

  ghost predicate FrontOk(s: seq<Head>) {
    (forall x <- s :: HeadOk(x)) && Sorted(FrontRows(s))
  }

  function SumAll(w: seq<nat>): nat {
    if w == [] then 0 else SumAll(w[..|w| - 1]) + w[|w| - 1]
  }

  /** Nodes and entries: what a frontier has left to do. */
  function Weight(n: Node): nat {
    match n
    case Leaf(_, e) => 1 + |e|
    case Internal(_, _, ch) =>
      1 + SumAll(seq(|ch|, i requires 0 <= i < |ch| => match ch[i] case Nil => 0 case Ref(m, _) => Weight(m)))
  }

  function HeadWeight(x: Head): nat {
    match x case EntryHead(_, _, _) => 1 case NodeHead(t, _, _) => if t.Nil? then 1 else Weight(t.node)
  }

  function FrontWeight(s: seq<Head>): nat {
    if s == [] then 0 else FrontWeight(s[..|s| - 1]) + HeadWeight(s[|s| - 1])
  }

  lemma FrontPush(s: seq<Head>, x: Head)
    ensures FrontRows(s + [x]) == HeadRows(x) + FrontRows(s)
    ensures FrontWeight(s + [x]) == FrontWeight(s) + HeadWeight(x)
  {
    assert (s + [x])[..|s|] == s;
  }

  lemma HeadNonEmpty(x: Head)
    requires HeadOk(x)
    ensures HeadRows(x) != []
    ensures HeadWeight(x) > 0
  {
    if x.NodeHead? {
      var u := Relocate(x.t, x.off);
      ShapedTight(u, NodeHeight(x.t.node));
      EndRows(Marks(u));
    }
  }

  /** The head of a frontier and what follows it. */
  lemma FrontSplit(s: seq<Head>)
    requires FrontOk(s) && s != []
    ensures var n := |s| - 1;
      && FrontOk(s[..n]) && HeadOk(s[n]) && HeadRows(s[n]) != []
      && FrontRows(s) == HeadRows(s[n]) + FrontRows(s[..n]) && FrontRows(s) != []
      && FrontWeight(s[..n]) < FrontWeight(s)
  {
    hide Less, HeadRows, HeadOk, HeadWeight;
    var n := |s| - 1;
    assert s[n] in s;
    HeadNonEmpty(s[n]);
    SortedConcat(HeadRows(s[n]), FrontRows(s[..n]));
  }

  // ----- opening -----

  /** The items of an opened node, from item `i` on, in the order they go onto the
      stack: last first. */
  function LeafHeads(e: seq<Entry>, off: int, i: nat): seq<Head>
    requires i <= |e|
    decreases |e| - i
  {
    if i == |e| then [] else LeafHeads(e, off, i + 1) + [EntryHead(e[i].key, off, e[i].val)]
  }

  function KidHeads(ks: seq<Tuple>, ch: seq<Tree>, off: int, lo: Bound, i: nat): seq<Head>
    requires |ch| == |ks| + 1 && i <= |ch|
    decreases |ch| - i
  {
    if i == |ch| then [] else KidHeads(ks, ch, off, lo, i + 1) + [NodeHead(ch[i], off, LowBound(ks, off, lo, i))]
  }

  lemma {:induction false} LeafHeadsRows(s: seq<Head>, e: seq<Entry>, off: int, i: nat)
    requires i <= |e|
    ensures FrontRows(s + LeafHeads(e, off, i)) == ShiftEntries(e[i..], off) + FrontRows(s)
    ensures FrontWeight(s + LeafHeads(e, off, i)) == FrontWeight(s) + |e| - i
    ensures forall x <- LeafHeads(e, off, i) :: x.EntryHead?
    decreases |e| - i
  {
    hide FrontRows, FrontWeight;
    if i == |e| {
      assert s + [] == s;
    } else {
      LeafHeadsRows(s, e, off, i + 1);
      var x := EntryHead(e[i].key, off, e[i].val);
      FrontPush(s + LeafHeads(e, off, i + 1), x);
      assert s + LeafHeads(e, off, i) == s + LeafHeads(e, off, i + 1) + [x];
      HeadAndRest(e, off, i);
    }
  }

  lemma HeadAndRest(e: seq<Entry>, off: int, i: nat)
    requires i < |e|
    ensures ShiftEntries(e[i..], off) == HeadRows(EntryHead(e[i].key, off, e[i].val)) + ShiftEntries(e[i + 1..], off)
  {
    hide Shift;
  }

  function Weights(ch: seq<Tree>): (w: seq<nat>)
    ensures |w| == |ch|
  {
    seq(|ch|, i requires 0 <= i < |ch| => match ch[i] case Nil => 0 case Ref(m, _) => Weight(m))
  }

  lemma {:induction false} SumCons(w: seq<nat>)
    requires w != []
    ensures SumAll(w) == w[0] + SumAll(w[1..])
  {
    if |w| > 1 {
      var n := |w| - 1;
      SumCons(w[..n]);
      assert w[1..][..n - 1] == w[..n][1..];
    } else {
      assert w[..0] == [] && w[1..] == [];
    }
  }

  lemma {:induction false} KidHeadsRows(s: seq<Head>, ks: seq<Tuple>, ch: seq<Tree>, off: int, lo: Bound, i: nat)
    requires |ch| == |ks| + 1 && i <= |ch|
    requires forall c <- ch :: c.Ref?
    ensures FrontRows(s + KidHeads(ks, ch, off, lo, i)) == FlatAll(RelocateAll(ch, off)[i..]) + FrontRows(s)
    ensures FrontWeight(s + KidHeads(ks, ch, off, lo, i)) == FrontWeight(s) + SumAll(Weights(ch)[i..])
    decreases |ch| - i
  {
    hide FrontRows, FrontWeight, FlatAll, SumAll, Weight, Seen, Marks, Rows, Flat;
    if i == |ch| {
      assert s + [] == s;
      assert Weights(ch)[i..] == [] && RelocateAll(ch, off)[i..] == [];
      NoWeights();
      NoKids();
    } else {
      KidHeadsRows(s, ks, ch, off, lo, i + 1);
      var x := NodeHead(ch[i], off, LowBound(ks, off, lo, i));
      var r := s + KidHeads(ks, ch, off, lo, i + 1);
      FrontPush(r, x);
      assert s + KidHeads(ks, ch, off, lo, i) == r + [x];
      KidWeight(ch, off, lo, i, x);
      KidRows(ch, off, lo, i, x);
    }
  }

  lemma NoWeights()
    ensures SumAll([]) == 0
  {
  }

  lemma NoKids()
    ensures FlatAll([]) == []
  {
  }

  lemma KidWeight(ch: seq<Tree>, off: int, lo: Bound, i: nat, x: Head)
    requires i < |ch| && ch[i].Ref? && x.NodeHead? && x.t == ch[i]
    ensures SumAll(Weights(ch)[i..]) == HeadWeight(x) + SumAll(Weights(ch)[i + 1..])
  {
    hide Weight;
    SumCons(Weights(ch)[i..]);
    assert Weights(ch)[i..][1..] == Weights(ch)[i + 1..];
  }

  lemma KidRows(ch: seq<Tree>, off: int, lo: Bound, i: nat, x: Head)
    requires i < |ch| && x.NodeHead? && x.t == ch[i] && x.off == off
    ensures FlatAll(RelocateAll(ch, off)[i..]) == HeadRows(x) + FlatAll(RelocateAll(ch, off)[i + 1..])
  {
    hide Marks, Rows;
    var r := RelocateAll(ch, off);
    assert r[i..] == [r[i]] + r[i + 1..];
    FlatAllConcat([r[i]], r[i + 1..]);
    assert [r[i]][..0] == [];
    assert FlatAll([r[i]]) == [] + Flat(r[i]);
  }

  /** A frontier with its head node replaced by the node's contents. */
  method OpenOnto(s: seq<Head>) returns (r: seq<Head>)
    requires FrontOk(s) && s != [] && s[|s| - 1].NodeHead?
    ensures FrontOk(r) && FrontRows(r) == FrontRows(s) && FrontWeight(r) < FrontWeight(s)
  {
    hide FrontRows, FrontWeight, Marks, Rows, Ordered, NodeShape, Weight, SumAll, Seen, FlatAll, LeafHeads, KidHeads,
      HeadOk, Sorted, NodeHeight, Weights;
    FrontSplit(s);
    var n := |s| - 1;
    var head, rest := s[n], s[..n];
    ghost var h := OpenHead(head);
    var off := head.off + head.t.dsp;
    FrontPush(rest, head);
    assert rest + [head] == s;
    match head.t.node {
      case Leaf(_, e) =>
        r := rest + LeafHeads(e, off, 0);
        LeafHeadsRows(rest, e, off, 0);
        SeenLeaf(head.t, head.off, h);
        assert e[0..] == e;
        EntriesOk(LeafHeads(e, off, 0));
        RestOk(s, LeafHeads(e, off, 0));
      case Internal(_, keys, children) =>
        Counts(head.t, h);
        r := rest + KidHeads(keys, children, off, head.lo, 0);
        KidsOk(head, h, 0);
        KidHeadsRows(rest, keys, children, off, head.lo, 0);
        SeenInternal(head.t, head.off, h);
        assert RelocateAll(children, off)[0..] == RelocateAll(children, off);
        assert Weights(children)[0..] == Weights(children);
        RestOk(s, KidHeads(keys, children, off, head.lo, 0));
    }
    OpenedWeight(head);
  }

  lemma OpenHead(x: Head) returns (h: nat)
    requires HeadOk(x) && x.NodeHead?
    ensures x.t.Ref? && Shaped(x.t, h) && Ordered(Marks(x.t)) && InBounds(Seen(x.t, x.off), x.lo, None)
    ensures x.t.node.Internal? ==> forall c <- x.t.node.children :: c.Ref?
  {
    h := NodeHeight(x.t.node);
  }

  lemma OpenedWeight(x: Head)
    requires x.NodeHead? && x.t.Ref?
    ensures x.t.node.Leaf? ==> HeadWeight(x) == 1 + |x.t.node.entries|
    ensures x.t.node.Internal? ==> HeadWeight(x) == 1 + SumAll(Weights(x.t.node.children))
  {
    if x.t.node.Internal? {
      var ch := x.t.node.children;
      assert seq(|ch|, i requires 0 <= i < |ch| => match ch[i] case Nil => 0 case Ref(m, _) => Weight(m)) ==
        Weights(ch);
    }
  }

  lemma EntriesOk(s: seq<Head>)
    requires forall x <- s :: x.EntryHead?
    ensures forall x <- s :: HeadOk(x)
  {
  }

  lemma RestOk(s: seq<Head>, t: seq<Head>)
    requires FrontOk(s) && s != [] && forall x <- t :: HeadOk(x)
    ensures forall x <- s[..|s| - 1] + t :: HeadOk(x)
  {
    hide HeadOk;
  }

  lemma KidOk(x: Head, h: nat, i: nat)
    requires x.NodeHead? && x.t.Ref? && Shaped(x.t, h) && Ordered(Marks(x.t)) && InBounds(Seen(x.t, x.off), x.lo, None)
    requires x.t.node.Internal? && |x.t.node.children| == |x.t.node.keys| + 1 && i < |x.t.node.children|
    ensures var off := x.off + x.t.dsp;
      && x.t.node.children[i].Ref?
      && HeadOk(NodeHead(x.t.node.children[i], off, LowBound(x.t.node.keys, off, x.lo, i)))
  {
    hide Marks, Rows, Ordered, Seen, InBounds, LowBound, HighBound, Shaped;
    KidShaped(x.t, x.off, h, i);
    var ks, ch, d := x.t.node.keys, x.t.node.children, x.off + x.t.dsp;
    ChildBounds(x.t, x.off, h, x.lo, None, i);
    LowOnly(Seen(ch[i], d), LowBound(ks, d, x.lo, i), HighBound(ks, d, None, i));
  }

  lemma KidShaped(t: Tree, off: int, h: nat, i: nat)
    requires Shaped(t, h) && Ordered(Marks(t)) && t.node.Internal? && i < |t.node.children|
    ensures var c := t.node.children[i];
      c.Ref? && Shaped(c, NodeHeight(c.node)) && Ordered(Marks(c))
  {
    hide Marks, Rows, Ordered, Seen, Run, FlatAll, Solid, NodeShape, NodeHeight, Relocate, ShiftKeys;
    SeenInternal(t, off, h);
    SolidHeight(t.node.children[i], h - 1);
  }

  lemma SolidHeight(c: Tree, h: nat)
    requires Solid(c, h)
    ensures c.Ref? && Shaped(c, NodeHeight(c.node))
  {
    ShapeHeight(c.node, h);
  }

  lemma {:induction false} KidsOk(x: Head, h: nat, i: nat)
    requires x.NodeHead? && x.t.Ref? && Shaped(x.t, h) && Ordered(Marks(x.t)) && InBounds(Seen(x.t, x.off), x.lo, None)
    requires x.t.node.Internal? && |x.t.node.children| == |x.t.node.keys| + 1 && i <= |x.t.node.children|
    ensures forall j | i <= j < |x.t.node.children| :: x.t.node.children[j].Ref?
    ensures forall y <- KidHeads(x.t.node.keys, x.t.node.children, x.off + x.t.dsp, x.lo, i) :: HeadOk(y)
    decreases |x.t.node.children| - i
  {
    hide Marks, Ordered, Seen, InBounds, Shaped, HeadOk, LowBound;
    if i < |x.t.node.children| {
      KidsOk(x, h, i + 1);
      KidOk(x, h, i);
    }
  }

  lemma LowOnly(e: seq<Entry>, nlo: Bound, nhi: Bound)
    requires InBounds(e, nlo, nhi)
    ensures InBounds(e, nlo, None)
  {
  }

  // ----- the walk -----

  lemma {:induction false} CompareSkip(m: seq<Entry>, a: seq<Entry>, b: seq<Entry>)
    ensures Compare(m + a, m + b) == Compare(a, b)
    decreases |m|
  {
    hide OneSided;
    if m == [] {
      assert m + a == a && m + b == b;
    } else {
      LessIrreflexive(m[0].key);
      assert (m + a)[1..] == m[1..] + a && (m + b)[1..] == m[1..] + b;
      CompareSkip(m[1..], a, b);
    }
  }

  lemma {:induction false} OneSidedConcat(a: seq<Entry>, b: seq<Entry>, left: bool)
    ensures OneSided(a + b, left) == OneSided(a, left) + OneSided(b, left)
  {
    if a == [] {
      assert a + b == b;
    } else {
      assert (a + b)[1..] == a[1..] + b;
      OneSidedConcat(a[1..], b, left);
    }
  }

  /** The first rows of the left side, when nothing on the right is at or below them. */
  lemma CompareLeft(m: seq<Entry>, a: seq<Entry>, b: seq<Entry>)
    requires b == [] || (|m| == 1 && Less(m[0].key, b[0].key))
    ensures Compare(m + a, b) == OneSided(m, true) + Compare(a, b)
  {
    if b == [] {
      OneSidedConcat(m, a, true);
      assert OneSided([], true) == [] && OneSided([], false) == [];
    } else {
      assert (m + a)[..1] == m && (m + a)[1..] == a;
    }
  }

  lemma CompareRight(m: seq<Entry>, a: seq<Entry>, b: seq<Entry>)
    requires a == [] || (|m| == 1 && Less(m[0].key, a[0].key))
    ensures Compare(a, m + b) == OneSided(m, false) + Compare(a, b)
  {
    if a == [] {
      OneSidedConcat(m, b, false);
    } else {
      LessAsymmetric(m[0].key, a[0].key);
      assert (m + b)[..1] == m && (m + b)[1..] == b;
    }
  }

  lemma ComparePair(x: Entry, y: Entry, a: seq<Entry>, b: seq<Entry>)
    requires x.key == y.key
    ensures Compare([x] + a, [y] + b) == Paired(x, y) + Compare(a, b)
  {
    LessIrreflexive(x.key);
    assert ([x] + a)[1..] == a && ([y] + b)[1..] == b;
  }

  /** Two heads that stand for the same rows because they are one node, equally displaced.
      `same` is the test of nodes, by identity or by content. */
  predicate SameAt(same: (Node, Node) -> bool, x: Head, y: Head)
    requires x.NodeHead? && y.NodeHead?
  {
    x.t.Ref? && y.t.Ref? && x.off + x.t.dsp == y.off + y.t.dsp && same(x.t.node, y.t.node)
  }

  ghost predicate SameHolds(same: (Node, Node) -> bool) {
    forall m, n :: same(m, n) ==> NodeMarks(m) == NodeMarks(n)
  }

  lemma SameRows(same: (Node, Node) -> bool, x: Head, y: Head)
    requires SameHolds(same) && x.NodeHead? && y.NodeHead? && SameAt(same, x, y)
    ensures HeadRows(x) == HeadRows(y)
  {
  }

  datatype Step = Skip | Left | Right | Pair | OpenLeft | OpenRight | OpenBoth

  /** A separator lies above the key. */
  predicate AboveKey(lo: Bound, k: Tuple) {
    lo.Some? && CmpDisplaced(lo.value.0, lo.value.1, k) == Greater
  }

  function NextStep(same: (Node, Node) -> bool, x: Head, y: Head): Step {
    match (x, y)
    case (NodeHead(_, _, _), NodeHead(_, _, _)) => if SameAt(same, x, y) then Skip else OpenBoth
    case (EntryHead(k, o, _), NodeHead(_, _, lo)) => if AboveKey(lo, Shift(k, o)) then Left else OpenRight
    case (NodeHead(_, _, lo), EntryHead(k, o, _)) => if AboveKey(lo, Shift(k, o)) then Right else OpenLeft
    case (EntryHead(k, o, _), EntryHead(l, p, _)) =>
      match Cmp(Shift(k, o), Shift(l, p)) case Lesser => Left case Greater => Right case Same => Pair
  }

  /** One side is reported alone only at a key that every row still to come on the other
      side is past. */
  lemma StepIsSound(same: (Node, Node) -> bool, x: Head, y: Head)
    requires HeadOk(x) && HeadOk(y)
    ensures HeadRows(x) != [] && HeadRows(y) != []
    ensures match NextStep(same, x, y)
            case Left => x.EntryHead? && Less(HeadRows(x)[0].key, HeadRows(y)[0].key)
            case Right => y.EntryHead? && Less(HeadRows(y)[0].key, HeadRows(x)[0].key)
            case Pair => x.EntryHead? && y.EntryHead? && HeadRows(x)[0].key == HeadRows(y)[0].key
            case OpenLeft => x.NodeHead?
            case OpenRight => y.NodeHead?
            case _ => x.NodeHead? && y.NodeHead?
  {
    hide Seen, Less, Shift, CmpDisplaced, Marks, Ordered, NodeShape;
    HeadNonEmpty(x);
    HeadNonEmpty(y);
    var p, q := HeadRows(x)[0], HeadRows(y)[0];
    assert p in HeadRows(x) && q in HeadRows(y);
    match (x, y)
    case (EntryHead(k, o, _), NodeHead(_, _, lo)) =>
      if AboveKey(lo, p.key) {
        AboveRows(lo, p.key, HeadRows(y));
      }
    case (NodeHead(_, _, lo), EntryHead(k, o, _)) =>
      if AboveKey(lo, q.key) {
        AboveRows(lo, q.key, HeadRows(x));
      }
    case (EntryHead(k, o, _), EntryHead(l, r, _)) =>
      LessTotal(p.key, q.key);
    case _ =>
  }

  lemma AboveRows(lo: Bound, k: Tuple, e: seq<Entry>)
    requires AboveKey(lo, k) && InBounds(e, lo, None)
    ensures forall x <- e :: Less(k, x.key)
  {
    hide Less, Shift, CmpDisplaced;
    CmpMeans(lo.value.0, lo.value.1, k);
    forall x | x in e ensures Less(k, x.key) {
      LessLeq(k, Shift(lo.value.0, lo.value.1), x.key);
    }
  }

  function Frontier(t: Tree): seq<Head> {
    if t.Nil? then [] else [NodeHead(t, 0, None)]
  }

  lemma FrontierStarts(t: Tree)
    requires Valid(t)
    ensures FrontOk(Frontier(t)) && FrontRows(Frontier(t)) == Flat(t)
  {
    hide Marks, Rows, Ordered;
    ValidEmpty(t);
    SeenSame(t);
    if t.Ref? {
      var s := Frontier(t);
      assert s[..0] == [] && FrontRows([]) == [];
      assert Seen(t, 0) + [] == Seen(t, 0);
    }
  }

  /** The keys whose values differ between the two trees, with both values, ascending. */
  method DiffTrees(a: Tree, b: Tree, same: (Node, Node) -> bool) returns (out: seq<Diff>)
    requires Valid(a) && Valid(b) && SameHolds(same)
    ensures out == Compare(Flat(a), Flat(b))
    ensures Exact(out, Flat(a), Flat(b)) && Ascending(out)
  {
    hide Marks, Rows, Ordered, FrontRows, FrontWeight, FrontOk, HeadOk, Compare, NextStep, SameHolds, HeadRows, Exact,
      Ascending, Flat, Valid, Owed;
    ValidEmpty(a);
    ValidEmpty(b);
    FrontierStarts(a);
    FrontierStarts(b);
    var xs, ys := Frontier(a), Frontier(b);
    ghost var all := Owed(xs, ys);
    OwedIs(xs, ys);
    out := [];
    while xs != [] || ys != []
      invariant FrontOk(xs) && FrontOk(ys) && all == out + Owed(xs, ys)
      decreases FrontWeight(xs) + FrontWeight(ys)
    {
      var n, m := |xs| - 1, |ys| - 1;
      var step := if ys == [] then Left else if xs == [] then Right else NextStep(same, xs[n], ys[m]);
      StepKeeps(same, xs, ys, step);
      match step {
        case Skip =>
          xs, ys := xs[..n], ys[..m];
        case Left =>
          out := out + OneSided(HeadRows(xs[n]), true);
          xs := xs[..n];
        case Right =>
          out := out + OneSided(HeadRows(ys[m]), false);
          ys := ys[..m];
        case Pair =>
          out := out + Paired(HeadRows(xs[n])[0], HeadRows(ys[m])[0]);
          xs, ys := xs[..n], ys[..m];
        case OpenLeft =>
          ghost var was := xs;
          xs := OpenOnto(xs);
          SameOwed(was, ys, xs, ys);
        case OpenRight =>
          ghost var was := ys;
          ys := OpenOnto(ys);
          SameOwed(xs, was, xs, ys);
        case OpenBoth =>
          ghost var was, were := xs, ys;
          xs := OpenOnto(xs);
          ys := OpenOnto(ys);
          SameOwed(was, were, xs, ys);
      }
    }
    NoFront();
    assert out == all;
    CompareExact(Flat(a), Flat(b));
  }

  /** What two frontiers still have to report. */
  ghost function Owed(xs: seq<Head>, ys: seq<Head>): seq<Diff> {
    Compare(FrontRows(xs), FrontRows(ys))
  }

  lemma OwedIs(xs: seq<Head>, ys: seq<Head>)
    ensures Owed(xs, ys) == Compare(FrontRows(xs), FrontRows(ys))
  {
  }

  lemma SameOwed(xs: seq<Head>, ys: seq<Head>, xs': seq<Head>, ys': seq<Head>)
    requires FrontRows(xs') == FrontRows(xs) && FrontRows(ys') == FrontRows(ys)
    ensures Owed(xs', ys') == Owed(xs, ys)
  {
  }

  lemma NoFront()
    ensures Owed([], []) == []
  {
  }

  /** What one answer does to the comparison still to be made. */
  ghost predicate Progress(xs: seq<Head>, ys: seq<Head>, step: Step) {
    var n, m, c := |xs| - 1, |ys| - 1, Owed(xs, ys);
    match step
    case Skip =>
      && n >= 0 && m >= 0 && FrontOk(xs[..n]) && FrontOk(ys[..m]) && c == Owed(xs[..n], ys[..m])
      && FrontWeight(xs[..n]) + FrontWeight(ys[..m]) < FrontWeight(xs) + FrontWeight(ys)
    case Left =>
      && n >= 0 && FrontOk(xs[..n]) && FrontWeight(xs[..n]) < FrontWeight(xs)
      && c == OneSided(HeadRows(xs[n]), true) + Owed(xs[..n], ys)
    case Right =>
      && m >= 0 && FrontOk(ys[..m]) && FrontWeight(ys[..m]) < FrontWeight(ys)
      && c == OneSided(HeadRows(ys[m]), false) + Owed(xs, ys[..m])
    case Pair =>
      && n >= 0 && m >= 0 && FrontOk(xs[..n]) && FrontOk(ys[..m]) && HeadRows(xs[n]) != [] && HeadRows(ys[m]) != []
      && FrontWeight(xs[..n]) + FrontWeight(ys[..m]) < FrontWeight(xs) + FrontWeight(ys)
      && c == Paired(HeadRows(xs[n])[0], HeadRows(ys[m])[0]) + Owed(xs[..n], ys[..m])
    case OpenLeft => n >= 0 && xs[n].NodeHead?
    case OpenRight => m >= 0 && ys[m].NodeHead?
    case OpenBoth => n >= 0 && m >= 0 && xs[n].NodeHead? && ys[m].NodeHead?
  }

  lemma StepKeeps(same: (Node, Node) -> bool, xs: seq<Head>, ys: seq<Head>, step: Step)
    requires SameHolds(same) && FrontOk(xs) && FrontOk(ys) && (xs != [] || ys != [])
    requires step == if ys == [] then Left else if xs == [] then Right else NextStep(same, xs[|xs| - 1], ys[|ys| - 1])
    ensures Progress(xs, ys, step)
  {
    hide Marks, Rows, Ordered, FrontRows, FrontWeight, FrontOk, HeadOk, Compare, NextStep, SameHolds, HeadRows, Seen,
      OneSided, Paired;
    if xs == [] || ys == [] {
      OneSideOwed(xs, ys);
    } else {
      var n, m := |xs| - 1, |ys| - 1;
      var x, y := xs[n], ys[m];
      FrontSplit(xs);
      FrontSplit(ys);
      StepIsSound(same, x, y);
      OneRow(x);
      OneRow(y);
      match step
      case Skip =>
        SkipIsSame(same, x, y);
        CompareSkip(HeadRows(x), FrontRows(xs[..n]), FrontRows(ys[..m]));
      case Left => CompareLeft(HeadRows(x), FrontRows(xs[..n]), FrontRows(ys));
      case Right => CompareRight(HeadRows(y), FrontRows(xs), FrontRows(ys[..m]));
      case Pair => ComparePair(HeadRows(x)[0], HeadRows(y)[0], FrontRows(xs[..n]), FrontRows(ys[..m]));
      case _ =>
    }
  }

  lemma OneSideOwed(xs: seq<Head>, ys: seq<Head>)
    requires FrontOk(xs) && FrontOk(ys) && (xs == []) != (ys == [])
    ensures Progress(xs, ys, if ys == [] then Left else Right)
  {
    hide FrontRows, FrontWeight, FrontOk, HeadOk, Compare, HeadRows, OneSided;
    NoRowsLeft();
    if ys == [] {
      FrontSplit(xs);
      CompareLeft(HeadRows(xs[|xs| - 1]), FrontRows(xs[..|xs| - 1]), FrontRows(ys));
    } else {
      FrontSplit(ys);
      CompareRight(HeadRows(ys[|ys| - 1]), FrontRows(xs), FrontRows(ys[..|ys| - 1]));
    }
  }

  lemma SkipIsSame(same: (Node, Node) -> bool, x: Head, y: Head)
    requires SameHolds(same) && NextStep(same, x, y) == Skip
    ensures HeadRows(x) == HeadRows(y)
  {
    hide SameHolds, HeadRows;
    SameRows(same, x, y);
  }

  lemma OneRow(x: Head)
    ensures x.EntryHead? ==> |HeadRows(x)| == 1 && HeadRows(x) == [HeadRows(x)[0]]
  {
  }

  lemma NoRowsLeft()
    ensures FrontRows([]) == []
  {
  }
}
