/** The displaced B+ tree: nodes, the frames they are read in, and the shape
    every operation keeps. */
module Trees {
  import opened Values
  import opened Displacements
  import opened MarkLists

  /** The most entries of a leaf and the most children of an internal node. */
  const B := 64

  /** The fewest of a node that is not the root. */
  const MIN := B / 2

  /** A handle: a shared node and where it sits relative to whatever holds it. */
  datatype Tree = Nil | Ref(node: Node, dsp: int)

  /** A node in its own frame, with its cached count of rows. */
  datatype Node =
    | Leaf(size: nat, entries: seq<Entry>)
    | Internal(size: nat, keys: seq<Tuple>, children: seq<Tree>)

  function Len(t: Tree): nat {
    if t.Nil? then 0 else t.node.size
  }

  function Total(ch: seq<Tree>): nat {
    if ch == [] then 0 else Total(ch[..|ch| - 1]) + Len(ch[|ch| - 1])
  }

  function MakeLeaf(e: seq<Entry>): Tree {
    Ref(Leaf(|e|, e), 0)
  }

  function MakeInternal(ks: seq<Tuple>, ch: seq<Tree>): Tree {
    Ref(Internal(Total(ch), ks, ch), 0)
  }

  /** The same tree moved: one number changes, the node stays shared. */
  function Relocate(t: Tree, d: int): Tree {
    match t case Nil => Nil case Ref(n, e) => Ref(n, e + d)
  }

  // ----- a tree read from left to right -----

  /** The lists of several subtrees with the separators between them. */
  function Weave(ks: seq<Tuple>, ps: seq<seq<Mark>>): seq<Mark>
    requires |ps| == |ks| + 1
  {
    if ks == [] then ps[0] else
    var n := |ks| - 1;
    Weave(ks[..n], ps[..n + 1]) + [Sep(ks[n])] + ps[n + 1]
  }

  function Marks(t: Tree): seq<Mark> {
    match t case Nil => [] case Ref(n, d) => ShiftMarks(NodeMarks(n), d)
  }

  function NodeMarks(n: Node): seq<Mark> {
    match n
    case Leaf(_, e) => AsMarks(e)
    case Internal(_, ks, ch) =>
      if |ch| != |ks| + 1 then [] else Weave(ks, seq(|ch|, i requires 0 <= i < |ch| => Marks(ch[i])))
  }

  function Parts(ch: seq<Tree>): (ps: seq<seq<Mark>>)
    ensures |ps| == |ch| && forall i | 0 <= i < |ch| :: ps[i] == Marks(ch[i])
  {
    seq(|ch|, i requires 0 <= i < |ch| => Marks(ch[i]))
  }

  /** A run of children read from left to right. */
  function Run(ks: seq<Tuple>, ch: seq<Tree>): seq<Mark>
    requires |ch| == |ks| + 1
  {
    Weave(ks, Parts(ch))
  }

  /** The rows of the tree, in its holder's frame: the map it stands for. */
  function Flat(t: Tree): seq<Entry> {
    Rows(Marks(t))
  }

  // ----- shape -----

  /** Entries of a leaf, children of an internal node. */
  function Width(n: Node): nat {
    match n case Leaf(_, e) => |e| case Internal(_, _, ch) => |ch|
  }

  /** All leaves `h` levels down, nothing empty or too wide, everything below the
      top at least half full, and every cached count right. */
  ghost predicate NodeShape(n: Node, h: nat)
    decreases h
  {
    match n
    case Leaf(size, e) => h == 1 && 1 <= |e| <= B && size == |e|
    case Internal(size, ks, ch) =>
      h >= 2 && 1 <= |ch| <= B && |ch| == |ks| + 1 && size == Total(ch) &&
      forall c <- ch :: c.Ref? && NodeShape(c.node, h - 1) && Width(c.node) >= MIN
  }

  ghost predicate Shaped(t: Tree, h: nat) {
    t.Ref? && NodeShape(t.node, h)
  }

  /** Shaped, and at least half full. */
  ghost predicate Solid(t: Tree, h: nat) {
    Shaped(t, h) && Width(t.node) >= MIN
  }

  function Height(t: Tree): nat {
    match t case Nil => 0 case Ref(n, _) => NodeHeight(n)
  }

  function NodeHeight(n: Node): nat {
    match n
    case Leaf(_, _) => 1
    case Internal(_, _, ch) => if ch == [] then 1 else
      match ch[0] case Nil => 1 case Ref(m, _) => 1 + NodeHeight(m)
  }

  /** What every operation on whole trees keeps. */
  ghost predicate Valid(t: Tree) {
    t.Ref? ==>
      && NodeShape(t.node, NodeHeight(t.node))
      && (t.node.Internal? ==> |t.node.children| >= 2)
      && Ordered(Marks(t))
  }

  lemma {:induction false} ShapeHeight(n: Node, h: nat)
    requires NodeShape(n, h)
    ensures NodeHeight(n) == h
    decreases h
  {
    if n.Internal? {
      assert n.children[0] in n.children;
      ShapeHeight(n.children[0].node, h - 1);
    }
  }

  // ----- weaving -----

  lemma {:induction false} WeaveConcat(ks: seq<Tuple>, ps: seq<seq<Mark>>, k: Tuple, ks': seq<Tuple>,
                                       ps': seq<seq<Mark>>)
    requires |ps| == |ks| + 1 && |ps'| == |ks'| + 1
    ensures Weave(ks + [k] + ks', ps + ps') == Weave(ks, ps) + [Sep(k)] + Weave(ks', ps')
    decreases |ks'|
  {
    var K, P := ks + [k] + ks', ps + ps';
    var n := |K| - 1;
    if ks' == [] {
      assert K[..n] == ks && P[..n + 1] == ps && P[n + 1] == ps'[0];
    } else {
      var m := |ks'| - 1;
      assert K[..n] == ks + [k] + ks'[..m] && K[n] == ks'[m];
      assert P[..n + 1] == ps + ps'[..m + 1] && P[n + 1] == ps'[m + 1];
      WeaveConcat(ks, ps, k, ks'[..m], ps'[..m + 1]);
      var a, w := Weave(ks, ps) + [Sep(k)], Weave(ks'[..m], ps'[..m + 1]);
      assert Weave(K, P) == a + w + [Sep(K[n])] + P[n + 1];
      assert Weave(ks', ps') == w + [Sep(K[n])] + P[n + 1];
    }
  }

  /** Everything to the left of part `i`. */
  function Lead(ks: seq<Tuple>, ps: seq<seq<Mark>>, i: nat): seq<Mark>
    requires |ps| == |ks| + 1 && i < |ps|
  {
    if i == 0 then [] else Weave(ks[..i - 1], ps[..i]) + [Sep(ks[i - 1])]
  }

  /** Everything to the right of part `i`. */
  function Trail(ks: seq<Tuple>, ps: seq<seq<Mark>>, i: nat): seq<Mark>
    requires |ps| == |ks| + 1 && i < |ps|
  {
    if i == |ks| then [] else [Sep(ks[i])] + Weave(ks[i + 1..], ps[i + 1..])
  }

  lemma WeaveFocus(ks: seq<Tuple>, ps: seq<seq<Mark>>, i: nat)
    requires |ps| == |ks| + 1 && i < |ps|
    ensures Weave(ks, ps) == Lead(ks, ps, i) + ps[i] + Trail(ks, ps, i)
  {
    hide Weave, Lead;
    WeaveLead(ks, ps, i);
    if i < |ks| {
      WeaveConcat(ks[..i], ps[..i + 1], ks[i], ks[i + 1..], ps[i + 1..]);
      assert ks[..i] + [ks[i]] + ks[i + 1..] == ks && ps[..i + 1] + ps[i + 1..] == ps;
      Regroup(Lead(ks, ps, i) + ps[i], [Sep(ks[i])], Weave(ks[i + 1..], ps[i + 1..]));
    } else {
      assert ks[..i] == ks && ps[..i + 1] == ps;
    }
  }

  lemma Regroup(a: seq<Mark>, b: seq<Mark>, c: seq<Mark>)
    ensures a + b + c == a + (b + c)
  {
  }

  lemma WeaveLead(ks: seq<Tuple>, ps: seq<seq<Mark>>, i: nat)
    requires |ps| == |ks| + 1 && i < |ps|
    ensures Weave(ks[..i], ps[..i + 1]) == Lead(ks, ps, i) + ps[i]
  {
    if i > 0 {
      assert ks[..i][..i - 1] == ks[..i - 1] && ps[..i + 1][..i] == ps[..i];
    }
  }

  // ----- one child of a run -----

  datatype Ins = Done(t: Tree) | Split(l: Tree, sep: Tuple, r: Tree)

  function InsMarks(r: Ins): seq<Mark> {
    match r case Done(t) => Marks(t) case Split(l, k, r) => Marks(l) + [Sep(k)] + Marks(r)
  }

  /** The keys of a run whose child `i` became `r`. */
  function PlaceKeys(ks: seq<Tuple>, i: nat, r: Ins): seq<Tuple>
    requires i <= |ks|
  {
    match r case Done(_) => ks case Split(_, k, _) => ks[..i] + [k] + ks[i..]
  }

  function PlaceKids(ch: seq<Tree>, i: nat, r: Ins): seq<Tree>
    requires i < |ch|
  {
    match r case Done(t) => ch[i := t] case Split(l, _, r) => ch[..i] + [l, r] + ch[i + 1..]
  }

  /** Replacing a child changes the run there and nowhere else. */
  lemma PlaceMarks(ks: seq<Tuple>, ch: seq<Tree>, i: nat, r: Ins)
    requires |ch| == |ks| + 1 && i < |ch|
    ensures |PlaceKids(ch, i, r)| == |PlaceKeys(ks, i, r)| + 1
    ensures Run(PlaceKeys(ks, i, r), PlaceKids(ch, i, r))
         == Lead(ks, Parts(ch), i) + InsMarks(r) + Trail(ks, Parts(ch), i)
  {
    hide Weave, Marks, Lead, Trail;
    var K, C := PlaceKeys(ks, i, r), PlaceKids(ch, i, r);
    WeaveFocus(K, Parts(C), i);
    PlaceLead(ks, ch, i, r);
    if r.Done? {
      PlaceDone(ks, ch, i, r);
    } else {
      PlaceSplit(ks, ch, i, r);
    }
  }

  lemma PlaceLead(ks: seq<Tuple>, ch: seq<Tree>, i: nat, r: Ins)
    requires |ch| == |ks| + 1 && i < |ch|
    ensures |PlaceKids(ch, i, r)| == |PlaceKeys(ks, i, r)| + 1
    ensures Lead(PlaceKeys(ks, i, r), Parts(PlaceKids(ch, i, r)), i) == Lead(ks, Parts(ch), i)
  {
    hide Weave, Marks;
    if i > 0 {
      assert PlaceKeys(ks, i, r)[..i - 1] == ks[..i - 1];
      assert Parts(PlaceKids(ch, i, r))[..i] == Parts(ch)[..i];
    }
  }

  lemma PlaceDone(ks: seq<Tuple>, ch: seq<Tree>, i: nat, r: Ins)
    requires |ch| == |ks| + 1 && i < |ch| && r.Done?
    ensures Trail(PlaceKeys(ks, i, r), Parts(PlaceKids(ch, i, r)), i) == Trail(ks, Parts(ch), i)
  {
    hide Weave, Marks;
    if i < |ks| {
      assert Parts(PlaceKids(ch, i, r))[i + 1..] == Parts(ch)[i + 1..];
    }
  }

  lemma PlaceSplit(ks: seq<Tuple>, ch: seq<Tree>, i: nat, r: Ins)
    requires |ch| == |ks| + 1 && i < |ch| && r.Split?
    ensures Trail(PlaceKeys(ks, i, r), Parts(PlaceKids(ch, i, r)), i) ==
      [Sep(r.sep)] + Marks(r.r) + Trail(ks, Parts(ch), i)
  {
    var K, Q := PlaceKeys(ks, i, r), Parts(PlaceKids(ch, i, r));
    PlacedTail(ks, ch, i, r);
    hide Weave, Marks, PlaceKeys, PlaceKids, Parts;
    var m, tail := Marks(r.r), Trail(ks, Parts(ch), i);
    assert Q[i + 1..][1..] == Q[i + 2..];
    HeadOfWeave(ks, Parts(ch), i, Q[i + 1..]);
    Regroup([Sep(r.sep)], m, tail);
  }

  /** A woven run is its first part and then, with their separators, the rest. */
  lemma HeadOfWeave(ks: seq<Tuple>, ps: seq<seq<Mark>>, i: nat, qs: seq<seq<Mark>>)
    requires |ps| == |ks| + 1 && i < |ps| && |qs| == |ps| - i && qs[1..] == ps[i + 1..]
    ensures Weave(ks[i..], qs) == qs[0] + Trail(ks, ps, i)
  {
    hide Weave;
    WeaveFocus(ks[i..], qs, 0);
    if i < |ks| {
      assert ks[i..][0] == ks[i] && ks[i..][1..] == ks[i + 1..];
    }
  }

  /** What lies to the right of the left half of a split child. */
  lemma PlacedTail(ks: seq<Tuple>, ch: seq<Tree>, i: nat, r: Ins)
    requires |ch| == |ks| + 1 && i < |ch| && r.Split?
    ensures var K, Q := PlaceKeys(ks, i, r), Parts(PlaceKids(ch, i, r));
      && |K| == |ks| + 1 && |Q| == |ch| + 1 && K[i] == r.sep && K[i + 1..] == ks[i..]
      && Q[i + 1] == Marks(r.r) && Q[i + 2..] == Parts(ch)[i + 1..]
  {
    hide Weave, Marks;
  }

  // ----- ordered runs -----

  /** What lies where `m` lay keeps the order, when its rows fit there. */
  lemma Refit(left: seq<Mark>, m: seq<Mark>, m': seq<Mark>, right: seq<Mark>)
    requires Ordered(left + m + right) && Ordered(m') && Tight(m')
    requires forall e <- Rows(m') :: forall a <- left :: Before(a, Row(e.key, e.val))
    requires forall e <- Rows(m') :: forall b <- right :: Before(Row(e.key, e.val), b)
    ensures Ordered(left + m' + right)
  {
    hide Ordered, Rows, Less;
    OrderedConcat(left + m, right);
    OrderedConcat(left, m);
    var lo, hi := m'[0], m'[|m'| - 1];
    RowsIn(m', Entry(lo.key, lo.val));
    RowsIn(m', Entry(hi.key, hi.val));
    forall a, x | a in left && x in m' ensures Before(a, x) {
      TightBounds(m', x);
      BeforeLeq(a, lo, x);
    }
    forall x, b | x in m' && b in right ensures Before(x, b) {
      TightBounds(m', x);
      LeqBefore(x, hi, b);
    }
    OrderedConcat(left, m');
    assert Across(left + m', right) by {
      OrderedAcross(left, m, right);
    }
    OrderedConcat(left + m', right);
  }

  lemma OrderedAcross(a: seq<Mark>, b: seq<Mark>, c: seq<Mark>)
    requires Ordered(a + b + c)
    ensures Ordered(a) && Ordered(b) && Ordered(c) && Across(a, b) && Across(a, c) && Across(b, c)
  {
    OrderedConcat(a + b, c);
    OrderedConcat(a, b);
    forall x, y | x in a && y in c ensures Before(x, y) {
      assert x in a + b;
    }
    forall x, y | x in b && y in c ensures Before(x, y) {
      assert x in a + b;
    }
  }

  lemma BeforeLeq(a: Mark, x: Mark, y: Mark)
    requires Before(a, x) && Leq(x.key, y.key)
    ensures Before(a, y)
  {
    if a.Row? {
      LessLeq(a.key, x.key, y.key);
    } else {
      LeqLeq(a.key, x.key, y.key);
    }
  }

  lemma LeqBefore(x: Mark, y: Mark, b: Mark)
    requires Leq(x.key, y.key) && y.Row? && Before(y, b)
    ensures Before(x, b)
  {
    LeqLess(x.key, y.key, b.key);
  }

  /** Replacing part of an ordered list by an ordered one with some of its rows. */
  lemma RefitSame(left: seq<Mark>, m: seq<Mark>, m': seq<Mark>, right: seq<Mark>)
    requires Ordered(left + m + right) && Ordered(m') && Tight(m')
    requires forall e <- Rows(m') :: e in Rows(m)
    ensures Ordered(left + m' + right)
  {
    hide Ordered, Rows, Less;
    OrderedAcross(left, m, right);
    forall e | e in Rows(m')
      ensures forall a <- left :: Before(a, Row(e.key, e.val))
      ensures forall b <- right :: Before(Row(e.key, e.val), b)
    {
      RowsIn(m, e);
    }
    Refit(left, m, m', right);
  }

  lemma FocusOrdered(ks: seq<Tuple>, ch: seq<Tree>, i: nat)
    requires |ch| == |ks| + 1 && i < |ch|
    requires Ordered(Run(ks, ch))
    ensures Ordered(Lead(ks, Parts(ch), i) + Marks(ch[i]) + Trail(ks, Parts(ch), i))
    ensures Ordered(Marks(ch[i]))
  {
    WeaveFocus(ks, Parts(ch), i);
    OrderedAcross(Lead(ks, Parts(ch), i), Marks(ch[i]), Trail(ks, Parts(ch), i));
  }

  lemma RunRows(ks: seq<Tuple>, ch: seq<Tree>, i: nat)
    requires |ch| == |ks| + 1 && i < |ch|
    ensures Rows(Run(ks, ch)) == Rows(Lead(ks, Parts(ch), i)) + Flat(ch[i]) + Rows(Trail(ks, Parts(ch), i))
  {
    var l, m, r := Lead(ks, Parts(ch), i), Marks(ch[i]), Trail(ks, Parts(ch), i);
    WeaveFocus(ks, Parts(ch), i);
    RowsConcat(l + m, r);
    RowsConcat(l, m);
  }

  // ----- shape laws -----

  lemma NodeMarksInternal(size: nat, ks: seq<Tuple>, ch: seq<Tree>)
    requires |ch| == |ks| + 1
    ensures NodeMarks(Internal(size, ks, ch)) == Run(ks, ch)
  {
    assert seq(|ch|, i requires 0 <= i < |ch| => Marks(ch[i])) == Parts(ch);
  }

  lemma MakeLeafMarks(e: seq<Entry>)
    ensures Marks(MakeLeaf(e)) == AsMarks(e)
    ensures Flat(MakeLeaf(e)) == e
  {
    ShiftMarksZero(AsMarks(e));
    RowsAsMarks(e);
  }

  lemma MakeInternalMarks(ks: seq<Tuple>, ch: seq<Tree>)
    requires |ch| == |ks| + 1
    ensures Marks(MakeInternal(ks, ch)) == Run(ks, ch)
  {
    NodeMarksInternal(Total(ch), ks, ch);
    ShiftMarksZero(Run(ks, ch));
  }

  lemma RelocateMarks(t: Tree, d: int)
    ensures Marks(Relocate(t, d)) == ShiftMarks(Marks(t), d)
    ensures Len(Relocate(t, d)) == Len(t)
  {
    if t.Ref? {
      ShiftMarksAdd(NodeMarks(t.node), t.dsp, d);
    }
  }

  lemma {:induction false} WeaveTight(ks: seq<Tuple>, ps: seq<seq<Mark>>)
    requires |ps| == |ks| + 1
    requires forall i | 0 <= i < |ps| :: Tight(ps[i])
    ensures Tight(Weave(ks, ps))
    ensures Low(Weave(ks, ps)) == Low(ps[0]) && High(Weave(ks, ps)) == High(ps[|ks|])
    decreases |ks|
  {
    if ks != [] {
      var n := |ks| - 1;
      WeaveTight(ks[..n], ps[..n + 1]);
    }
  }

  lemma {:induction false} ShapedTight(t: Tree, h: nat)
    requires Shaped(t, h)
    ensures Tight(Marks(t))
    decreases h
  {
    match t.node
    case Leaf(_, _) =>
    case Internal(s, ks, ch) =>
      forall i | 0 <= i < |ch| ensures Tight(Parts(ch)[i]) {
        assert ch[i] in ch;
        ShapedTight(ch[i], h - 1);
      }
      WeaveTight(ks, Parts(ch));
      NodeMarksInternal(s, ks, ch);
  }

  lemma {:induction false} WeaveRowCount(ks: seq<Tuple>, ch: seq<Tree>)
    requires |ch| == |ks| + 1
    requires forall c <- ch :: Len(c) == |Flat(c)|
    ensures |Rows(Run(ks, ch))| == Total(ch)
    decreases |ks|
  {
    hide Rows, Marks;
    var n := |ks|;
    assert ch[n] in ch;
    if n == 0 {
      assert ch[..0] == [];
    } else {
      var a, b := Weave(ks[..n - 1], Parts(ch)[..n]), [Sep(ks[n - 1])];
      assert Parts(ch)[..n] == Parts(ch[..n]);
      WeaveRowCount(ks[..n - 1], ch[..n]);
      RowsOfSep(ks[n - 1]);
      RowsConcat(a + b, Marks(ch[n]));
      RowsConcat(a, b);
    }
  }

  lemma ShiftRowCount(m: seq<Mark>, d: int)
    ensures |Rows(ShiftMarks(m, d))| == |Rows(m)|
  {
    RowsShift(m, d);
  }

  /** The cached count of a subtree is its number of rows. */
  lemma {:induction false} SizeIsRows(t: Tree, h: nat)
    requires Shaped(t, h)
    ensures Len(t) == |Flat(t)|
    decreases h
  {
    ShiftRowCount(NodeMarks(t.node), t.dsp);
    match t.node
    case Leaf(_, e) => RowsAsMarks(e);
    case Internal(s, ks, ch) =>
      forall c | c in ch ensures Len(c) == |Flat(c)| {
        SizeIsRows(c, h - 1);
      }
      WeaveRowCount(ks, ch);
      NodeMarksInternal(s, ks, ch);
  }

  // ----- opening a node into its holder's frame -----

  function ShiftKeys(ks: seq<Tuple>, d: int): (r: seq<Tuple>)
    ensures |r| == |ks| && forall i | 0 <= i < |ks| :: r[i] == Shift(ks[i], d)
  {
    seq(|ks|, i requires 0 <= i < |ks| => Shift(ks[i], d))
  }

  function RelocateAll(ch: seq<Tree>, d: int): (r: seq<Tree>)
    ensures |r| == |ch| && forall i | 0 <= i < |ch| :: r[i] == Relocate(ch[i], d)
  {
    seq(|ch|, i requires 0 <= i < |ch| => Relocate(ch[i], d))
  }

  lemma {:induction false} WeaveShift(ks: seq<Tuple>, ps: seq<seq<Mark>>, ps': seq<seq<Mark>>, d: int)
    requires |ps| == |ks| + 1 && |ps'| == |ps|
    requires forall i | 0 <= i < |ps| :: ps'[i] == ShiftMarks(ps[i], d)
    ensures Weave(ShiftKeys(ks, d), ps') == ShiftMarks(Weave(ks, ps), d)
    decreases |ks|
  {
    if ks != [] {
      var n := |ks| - 1;
      assert ShiftKeys(ks, d)[..n] == ShiftKeys(ks[..n], d);
      WeaveShift(ks[..n], ps[..n + 1], ps'[..n + 1], d);
      var a, b, c := Weave(ks[..n], ps[..n + 1]), [Sep(ks[n])], ps[n + 1];
      ShiftMarksConcat(a + b, c, d);
      ShiftMarksConcat(a, b, d);
    }
  }

  lemma RunShift(ks: seq<Tuple>, ch: seq<Tree>, d: int)
    requires |ch| == |ks| + 1
    ensures Run(ShiftKeys(ks, d), RelocateAll(ch, d)) == ShiftMarks(Run(ks, ch), d)
  {
    var ch' := RelocateAll(ch, d);
    forall i | 0 <= i < |ch| ensures Parts(ch')[i] == ShiftMarks(Parts(ch)[i], d) {
      RelocateMarks(ch[i], d);
    }
    WeaveShift(ks, Parts(ch), Parts(ch'), d);
  }

  /** What a rewriting operation works on: a node's contents in its holder's frame. */
  datatype Opened = Entries(entries: seq<Entry>) | Kids(keys: seq<Tuple>, children: seq<Tree>)

  function Open(t: Tree): Opened
    requires t.Ref?
  {
    match t.node
    case Leaf(_, e) => Entries(ShiftEntries(e, t.dsp))
    case Internal(_, ks, ch) => Kids(ShiftKeys(ks, t.dsp), RelocateAll(ch, t.dsp))
  }

  ghost predicate AllSolid(ch: seq<Tree>, h: nat) {
    forall c <- ch :: Solid(c, h)
  }

  lemma {:induction false} TotalRelocated(ch: seq<Tree>, d: int)
    ensures Total(RelocateAll(ch, d)) == Total(ch)
  {
    if ch != [] {
      var n := |ch| - 1;
      TotalRelocated(ch[..n], d);
      assert RelocateAll(ch, d)[..n] == RelocateAll(ch[..n], d);
    }
  }

  /** Opening pushes the displacement one level down and changes nothing else. */
  lemma OpenMeans(t: Tree, h: nat)
    requires Shaped(t, h)
    ensures Open(t).Entries? <==> h == 1
    ensures var o := Open(t); o.Entries? ==> 1 <= |o.entries| == Width(t.node) <= B && Marks(t) == AsMarks(o.entries)
    ensures var o := Open(t); o.Kids? ==>
      && h >= 2 && |o.children| == |o.keys| + 1 && |o.children| == Width(t.node) <= B
      && AllSolid(o.children, h - 1) && Marks(t) == Run(o.keys, o.children)
  {
    match t.node
    case Leaf(_, e) =>
      assert ShiftMarks(AsMarks(e), t.dsp) == AsMarks(ShiftEntries(e, t.dsp));
    case Internal(s, ks, ch) =>
      NodeMarksInternal(s, ks, ch);
      RunShift(ks, ch, t.dsp);
      forall c | c in RelocateAll(ch, t.dsp) ensures Solid(c, h - 1) {
        var i :| 0 <= i < |ch| && c == Relocate(ch[i], t.dsp);
        assert ch[i] in ch;
      }
  }

  // ----- the child a key belongs to -----

  /** The first child whose upper separator lies above `key`, the separators
      taken at `off`. */
  function ChildIndex(ks: seq<Tuple>, off: int, key: Tuple): (i: nat)
    ensures i <= |ks|
    ensures forall j | 0 <= j < i :: !Less(key, Shift(ks[j], off))
    ensures i < |ks| ==> Less(key, Shift(ks[i], off))
  {
    if ks == [] then 0 else
    CmpMeans(ks[0], off, key);
    if CmpDisplaced(ks[0], off, key) == Greater then 0 else 1 + ChildIndex(ks[1..], off, key)
  }
}
