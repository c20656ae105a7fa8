/** The canopy's tree: standing interests in key order, with the summary each node caches. */
module CanopyTrees {
  import opened Values

  /** Flags an interest may hold, as the bits of a word; more bits hold more. */
  type Flags = bv64

  const ALL: Flags := 0xFFFF_FFFF_FFFF_FFFF
  const NONE: Flags := 0

  predicate Dominates(a: Flags, required: Flags) {
    a & required == required
  }

  function Join(a: Flags, b: Flags): Flags {
    a | b
  }

  lemma JoinDominates(a: Flags, b: Flags)
    ensures Dominates(Join(a, b), a) && Dominates(Join(a, b), b)
  {
  }

  lemma DominatesTransitive(a: Flags, b: Flags, c: Flags)
    requires Dominates(a, b) && Dominates(b, c)
    ensures Dominates(a, c)
  {
  }

  lemma EndsOfFlags(a: Flags)
    ensures Dominates(a, a) && Dominates(a, NONE) && Dominates(ALL, a)
  {
  }

  // ----- interests, in order -----

  datatype Key = Key(rel: nat, lo: Tuple, id: nat)

  datatype Interest = Interest(key: Key, hi: Tuple, endorse: Flags)

  predicate KeyLess(a: Key, b: Key) {
    a.rel < b.rel || (a.rel == b.rel && (Less(a.lo, b.lo) || (a.lo == b.lo && a.id < b.id)))
  }

  lemma KeyLessIrreflexive(a: Key)
    ensures !KeyLess(a, a)
  {
    LessIrreflexive(a.lo);
  }

  lemma KeyLessTransitive(a: Key, b: Key, c: Key)
    requires KeyLess(a, b) && KeyLess(b, c)
    ensures KeyLess(a, c)
  {
    hide Less;
    if Less(a.lo, b.lo) && Less(b.lo, c.lo) {
      LessTransitive(a.lo, b.lo, c.lo);
    }
  }

  lemma KeyLessTotal(a: Key, b: Key)
    ensures a == b || KeyLess(a, b) || KeyLess(b, a)
  {
    LessTotal(a.lo, b.lo);
  }

  // ----- the summary a walk prunes on -----

  /** The greatest high end beneath a node, and every flag anything beneath it holds. */
  datatype Reach = Reach(maxHi: Option<Tuple>, endorse: Flags)

  const NO_REACH := Reach(None, NONE)

  function Later(a: Tuple, b: Tuple): Tuple {
    if Less(b, a) then a else b
  }

  function EntryReach(e: Interest): Reach {
    Reach(Some(e.hi), e.endorse)
  }

  function Combine(a: Reach, b: Reach): Reach {
    Reach(match (a.maxHi, b.maxHi)
          case (None, r) => r
          case (l, None) => l
          case (Some(l), Some(r)) => Some(Later(l, r)),
          Join(a.endorse, b.endorse))
  }

  lemma LaterBounds(a: Tuple, b: Tuple)
    ensures Leq(a, Later(a, b)) && Leq(b, Later(a, b))
  {
    LessTotal(a, b);
  }

  lemma LaterLeast(a: Tuple, b: Tuple, c: Tuple)
    requires Leq(a, c) && Leq(b, c)
    ensures Leq(Later(a, b), c)
  {
  }

  lemma LaterAssociative(a: Tuple, b: Tuple, c: Tuple)
    ensures Later(Later(a, b), c) == Later(a, Later(b, c))
  {
    hide Later, Less, Leq;
    var x, y := Later(Later(a, b), c), Later(a, Later(b, c));
    LaterBounds(a, b);
    LaterBounds(b, c);
    LaterBounds(Later(a, b), c);
    LaterBounds(a, Later(b, c));
    LeqLeq(a, Later(a, b), x);
    LeqLeq(b, Later(a, b), x);
    LeqLeq(b, Later(b, c), y);
    LeqLeq(c, Later(b, c), y);
    LaterLeast(b, c, x);
    LaterLeast(a, Later(b, c), x);
    LaterLeast(a, b, y);
    LaterLeast(Later(a, b), c, y);
    LeqAntisymmetric(x, y);
  }

  lemma JoinLaws(a: Flags, b: Flags, c: Flags)
    ensures Join(Join(a, b), c) == Join(a, Join(b, c)) && Join(NONE, a) == a && Join(a, NONE) == a
  {
  }

  /** The summary is a monoid, so a node may cache it however its rows are grouped. */
  lemma ReachIsMonoid(a: Reach, b: Reach, c: Reach)
    ensures Combine(NO_REACH, a) == a && Combine(a, NO_REACH) == a
    ensures Combine(Combine(a, b), c) == Combine(a, Combine(b, c))
  {
    hide Join, Later;
    JoinLaws(a.endorse, b.endorse, c.endorse);
    if a.maxHi.Some? && b.maxHi.Some? && c.maxHi.Some? {
      LaterAssociative(a.maxHi.value, b.maxHi.value, c.maxHi.value);
    }
  }

  function ReachOf(es: seq<Interest>): Reach {
    if es == [] then NO_REACH else Combine(ReachOf(es[..|es| - 1]), EntryReach(es[|es| - 1]))
  }

  /** No interest beneath reaches past the summary or holds a flag it lacks. */
  ghost predicate Spans(r: Reach, es: seq<Interest>) {
    forall e <- es :: r.maxHi.Some? && Leq(e.hi, r.maxHi.value) && Dominates(r.endorse, e.endorse)
  }

  lemma CombineSpans(a: Reach, x: seq<Interest>, b: Reach, y: seq<Interest>)
    requires Spans(a, x) && Spans(b, y)
    ensures Spans(Combine(a, b), x + y)
  {
    hide Dominates, Join, Leq, Later;
    forall e | e in x + y ensures Combine(a, b).maxHi.Some? && Leq(e.hi, Combine(a, b).maxHi.value)
                            && Dominates(Combine(a, b).endorse, e.endorse) {
      var own := if e in x then a else b;
      JoinDominates(a.endorse, b.endorse);
      DominatesTransitive(Combine(a, b).endorse, own.endorse, e.endorse);
      if a.maxHi.Some? && b.maxHi.Some? {
        LaterBounds(a.maxHi.value, b.maxHi.value);
        LeqLeq(e.hi, own.maxHi.value, Combine(a, b).maxHi.value);
      }
    }
  }

  lemma EntrySpans(e: Interest)
    ensures Spans(EntryReach(e), [e])
  {
    EndsOfFlags(e.endorse);
  }

  lemma {:induction false} ReachOfSpans(es: seq<Interest>)
    ensures Spans(ReachOf(es), es)
  {
    hide Dominates, Join, Leq, Combine, EntryReach;
    if es != [] {
      var n := |es| - 1;
      ReachOfSpans(es[..n]);
      EntrySpans(es[n]);
      CombineSpans(ReachOf(es[..n]), es[..n], EntryReach(es[n]), [es[n]]);
      assert es == es[..n] + [es[n]];
    }
  }

  // ----- the tree -----

  datatype Node =
    | Empty
    | Leaf(reach: Reach, entries: seq<Interest>)
    | Internal(reach: Reach, keys: seq<Key>, children: seq<Node>)

  function Flat(t: Node): seq<Interest> {
    match t
    case Empty => []
    case Leaf(_, es) => es
    case Internal(_, _, ch) => FlatAll(ch)
  }

  function FlatAll(ch: seq<Node>): seq<Interest> {
    if ch == [] then [] else FlatAll(ch[..|ch| - 1]) + Flat(ch[|ch| - 1])
  }

  function ReachAt(t: Node): Reach {
    match t case Empty => NO_REACH case _ => t.reach
  }

  function ReachAll(ch: seq<Node>): Reach {
    if ch == [] then NO_REACH else Combine(ReachAll(ch[..|ch| - 1]), ReachAt(ch[|ch| - 1]))
  }

  ghost predicate Ascending(es: seq<Interest>) {
    forall i, j | 0 <= i < j < |es| :: KeyLess(es[i].key, es[j].key)
  }

  /** The rows of child `i` lie between the separators on its two sides. */
  ghost predicate Parted(ks: seq<Key>, ch: seq<Node>, i: nat)
    requires |ch| == |ks| + 1 && i < |ch|
  {
    forall e <- Flat(ch[i]) :: (i < |ks| ==> KeyLess(e.key, ks[i])) && (i > 0 ==> !KeyLess(e.key, ks[i - 1]))
  }

  /** Rows and separators in order, and every cached summary right. */
  ghost predicate WellFormed(t: Node) {
    match t
    case Empty => true
    case Leaf(reach, es) => reach == ReachOf(es) && Ascending(es)
    case Internal(reach, ks, ch) =>
      && |ch| == |ks| + 1 && reach == ReachAll(ch)
      && (forall i, j | 0 <= i < j < |ks| :: KeyLess(ks[i], ks[j]))
      && (forall c <- ch :: WellFormed(c))
      && (forall i | 0 <= i < |ch| :: Parted(ks, ch, i))
  }

  lemma {:induction false} CachedSpans(t: Node)
    requires WellFormed(t)
    ensures Spans(ReachAt(t), Flat(t))
    decreases t, 1
  {
    hide Spans, Combine, ReachOf, Ascending, Parted, KeyLess;
    match t
    case Empty => NothingSpanned();
    case Leaf(_, es) => ReachOfSpans(es);
    case Internal(_, _, ch) => ChildrenSpan(t, ch);
  }

  lemma NothingSpanned()
    ensures Spans(NO_REACH, [])
  {
  }

  lemma {:induction false} ChildrenSpan(t: Node, ch: seq<Node>)
    requires forall c <- ch :: WellFormed(c) && c < t
    ensures Spans(ReachAll(ch), FlatAll(ch))
    decreases t, 0, |ch|
  {
    hide Spans, Combine, WellFormed;
    if ch == [] {
      NothingSpanned();
    } else {
      var n := |ch| - 1;
      ChildrenSpan(t, ch[..n]);
      assert ch[n] in ch;
      CachedSpans(ch[n]);
      CombineSpans(ReachAll(ch[..n]), FlatAll(ch[..n]), ReachAt(ch[n]), Flat(ch[n]));
    }
  }

  lemma {:induction false} FlatAllIn(ch: seq<Node>, e: Interest)
    ensures e in FlatAll(ch) <==> exists i :: 0 <= i < |ch| && e in Flat(ch[i])
  {
    if ch != [] {
      var n := |ch| - 1;
      FlatAllIn(ch[..n], e);
      if i :| 0 <= i < |ch| && e in Flat(ch[i]) {
        assert i < n ==> e in Flat(ch[..n][i]);
      }
      if e in FlatAll(ch[..n]) {
        var i :| 0 <= i < n && e in Flat(ch[..n][i]);
        assert e in Flat(ch[i]);
      }
    }
  }

  lemma {:induction false} FlatAllSplit(ch: seq<Node>, i: nat)
    requires i <= |ch|
    ensures FlatAll(ch) == FlatAll(ch[..i]) + FlatAll(ch[i..])
    decreases |ch|
  {
    hide Flat;
    if i == |ch| {
      assert ch[..i] == ch;
    } else {
      var n := |ch| - 1;
      FlatAllSplit(ch[..n], i);
      assert ch[..n][..i] == ch[..i] && ch[i..][..n - i] == ch[..n][i..] && ch[i..][n - i] == ch[n];
    }
  }

  lemma AscendingConcat(a: seq<Interest>, b: seq<Interest>)
    requires Ascending(a) && Ascending(b) && forall x, y | x in a && y in b :: KeyLess(x.key, y.key)
    ensures Ascending(a + b)
  {
    hide KeyLess;
    forall i, j | 0 <= i < j < |a + b| ensures KeyLess((a + b)[i].key, (a + b)[j].key) {
      assert i < |a| <= j ==> a[i] in a && b[j - |a|] in b;
    }
  }

  ghost function SetOf(es: seq<Interest>): set<Interest> {
    set e | e in es
  }
}
