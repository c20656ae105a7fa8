/** The inverted history index: which nodes contain a node, and which versions each
    root stands for, so that climbing from a node finds every version that holds it. */
module Histories {

  /** A node by its content: its own payload, and each child with its displacement.
      Equal content keys are equal nodes. */
  datatype Node = Node(payload: int, kids: seq<Kid>)
  datatype Kid = Kid(node: Node, dsp: int)

  /** A version: which relation, on which branch, at which edition. */
  datatype Holder = Holder(branch: nat, rel: nat, edition: nat)

  function Size(n: Node): nat {
    1 + SizeAll(n.kids)
  }

  function SizeAll(ks: seq<Kid>): nat {
    if ks == [] then 0 else SizeAll(ks[..|ks| - 1]) + SizeKid(ks[|ks| - 1])
  }

  function SizeKid(k: Kid): nat {
    Size(k.node)
  }

  lemma {:induction false} KidIsSmaller(ks: seq<Kid>, k: Kid)
    requires k in ks
    ensures Size(k.node) <= SizeAll(ks)
  {
    if k != ks[|ks| - 1] {
      KidIsSmaller(ks[..|ks| - 1], k);
    }
  }

  /** `n` sits at offset `o` somewhere in the tree rooted at `r`. */
  ghost predicate Occurs(r: Node, n: Node, o: int) {
    (r == n && o == 0) || exists k <- r.kids :: Occurs(k.node, n, o - k.dsp)
  }

  /** Every occurrence but the root's own is an occurrence of a parent, one step up. */
  lemma {:induction false} OccursUnderParent(r: Node, n: Node, o: int)
    requires Occurs(r, n, o)
    ensures (r == n && o == 0) || exists p: Node, d: int :: Kid(n, d) in p.kids && Occurs(r, p, o - d)
  {
    if !(r == n && o == 0) {
      var k :| k in r.kids && Occurs(k.node, n, o - k.dsp);
      OccursUnderParent(k.node, n, o - k.dsp);
      if k.node == n && o - k.dsp == 0 {
        assert Kid(n, k.dsp) in r.kids && Occurs(r, r, o - k.dsp);
      } else {
        var p: Node, d: int :| Kid(n, d) in p.kids && Occurs(k.node, p, o - k.dsp - d);
        assert Occurs(r, p, o - d) by {
          assert o - d - k.dsp == o - k.dsp - d;
        }
      }
    }
  }

  lemma {:induction false} ChildOccurs(r: Node, p: Node, o: int, n: Node, d: int)
    requires Occurs(r, p, o) && Kid(n, d) in p.kids
    ensures Occurs(r, n, o + d)
  {
    if r == p && o == 0 {
      assert Occurs(n, n, 0) && o + d - d == 0;
    } else {
      var k :| k in r.kids && Occurs(k.node, p, o - k.dsp);
      ChildOccurs(k.node, p, o - k.dsp, n, d);
      assert o - k.dsp + d == o + d - k.dsp;
    }
  }

  // ----- what the index keeps -----

  type Born = map<(Node, nat), nat>

  /** Indexed on some branch. */
  ghost predicate Indexed(born: Born, n: Node) {
    exists b :: (n, b) in born
  }

  /** Every edge below an indexed node is recorded, and leads to an indexed node. */
  ghost predicate Complete(parents: set<(Node, Node, int)>, born: Born, n: Node) {
    forall k <- n.kids :: (k.node, n, k.dsp) in parents && Indexed(born, k.node)
  }

  /** Every recorded edge is one, from an indexed node. */
  ghost predicate EdgesTrue(parents: set<(Node, Node, int)>, born: Born) {
    forall e <- parents :: Kid(e.0, e.2) in e.1.kids && Indexed(born, e.1)
  }

  /** An indexed tree is recorded all the way down. */
  lemma {:induction false} AllRecorded(parents: set<(Node, Node, int)>, born: Born, r: Node, n: Node, o: int)
    requires forall x | Indexed(born, x) :: Complete(parents, born, x)
    requires Indexed(born, r) && Occurs(r, n, o)
    ensures Indexed(born, n)
  {
    if !(r == n && o == 0) {
      var k :| k in r.kids && Occurs(k.node, n, o - k.dsp);
      assert Complete(parents, born, r);
      AllRecorded(parents, born, k.node, n, o - k.dsp);
    }
  }

  // ----- lineage -----

  /** History flows from one point to another: every point to itself, on along its
      branch, and from point to point to point. */
  ghost predicate Flows(f: (nat, nat, nat, nat) -> bool) {
    && (forall b, e, e' | e <= e' :: f(b, e, b, e'))
    && (forall a, ea, b, eb, c, ec :: f(a, ea, b, eb) && f(b, eb, c, ec) ==> f(a, ea, c, ec))
  }

  /** Born on the point's lineage by then. */
  ghost predicate Visible(f: (nat, nat, nat, nat) -> bool, born: Born, n: Node, b: nat, e: nat) {
    exists b' :: (n, b') in born && f(b', born[(n, b')], b, e)
  }

  /** What lies under a node born at a point was born on that point's lineage by then. */
  ghost predicate BornBelow(f: (nat, nat, nat, nat) -> bool, born: Born, n: Node) {
    forall b | (n, b) in born :: forall k <- n.kids :: Visible(f, born, k.node, b, born[(n, b)])
  }

  lemma {:induction false} VisibleBelow(f: (nat, nat, nat, nat) -> bool, born: Born, r: Node, n: Node, o: int, b: nat,
                                        e: nat)
    requires Flows(f) && (forall x :: BornBelow(f, born, x)) && Visible(f, born, r, b, e) && Occurs(r, n, o)
    ensures Visible(f, born, n, b, e)
  {
    hide Flows, Visible, BornBelow;
    if !(r == n && o == 0) {
      var k :| k in r.kids && Occurs(k.node, n, o - k.dsp);
      KidVisible(f, born, r, k, b, e);
      VisibleBelow(f, born, k.node, n, o - k.dsp, b, e);
    }
  }

  lemma KidVisible(f: (nat, nat, nat, nat) -> bool, born: Born, r: Node, k: Kid, b: nat, e: nat)
    requires Flows(f) && BornBelow(f, born, r) && Visible(f, born, r, b, e) && k in r.kids
    ensures Visible(f, born, k.node, b, e)
  {
    var b' :| (r, b') in born && f(b', born[(r, b')], b, e);
    assert Visible(f, born, k.node, b', born[(r, b')]);
    hide Flows, Visible, BornBelow;
    VisibleOn(f, born, k.node, b', born[(r, b')], b, e);
  }

  lemma VisibleOn(f: (nat, nat, nat, nat) -> bool, born: Born, n: Node, b: nat, e: nat, b': nat, e': nat)
    requires Flows(f) && Visible(f, born, n, b, e) && f(b, e, b', e')
    ensures Visible(f, born, n, b', e')
  {
    var c :| (n, c) in born && f(c, born[(n, c)], b, e);
    assert f(c, born[(n, c)], b', e');
  }

  /** A lineage given branch by branch says exactly what flows into its point. */
  ghost predicate LineageOf(f: (nat, nat, nat, nat) -> bool, lineage: seq<(nat, nat)>, b: nat, e: nat) {
    forall b': nat, e': nat :: f(b', e', b, e) <==> exists p <- lineage :: p.0 == b' && e' <= p.1
  }

  // ----- growing the index -----

  /** Everything no larger than `m` is recorded as it should be. */
  ghost predicate SettledTo(parents: set<(Node, Node, int)>, born: Born, f: (nat, nat, nat, nat) -> bool, m: int) {
    && (forall n | Indexed(born, n) && Size(n) <= m :: Complete(parents, born, n))
    && (forall n | Size(n) <= m :: BornBelow(f, born, n))
  }

  /** More edges, more births, none later than before, and none of a node larger than `m`. */
  ghost predicate Grown(parents: set<(Node, Node, int)>, born: Born, parents': set<(Node, Node, int)>, born': Born,
                        m: int) {
    && parents <= parents'
    && (forall k | k in born :: k in born' && born'[k] <= born[k])
    && (forall k | k in born' && Size(k.0) > m :: k in born && born[k] == born'[k])
  }

  lemma GrownSelf(parents: set<(Node, Node, int)>, born: Born, m: int)
    ensures Grown(parents, born, parents, born, m)
  {
  }

  lemma GrownTwice(p: set<(Node, Node, int)>, b: Born, p1: set<(Node, Node, int)>, b1: Born, p2: set<(Node, Node, int)>,
                   b2: Born, m: int, m1: int)
    requires Grown(p, b, p1, b1, m) && Grown(p1, b1, p2, b2, m1) && m1 <= m
    ensures Grown(p, b, p2, b2, m)
  {
    hide Size;
  }

  lemma GrownVisible(f: (nat, nat, nat, nat) -> bool, p: set<(Node, Node, int)>, b: Born, p': set<(Node, Node, int)>,
                     b': Born, m: int,
                     n: Node, br: nat, ed: nat)
    requires Flows(f) && Grown(p, b, p', b', m) && Visible(f, b, n, br, ed)
    ensures Visible(f, b', n, br, ed)
  {
    hide Size;
    var c :| (n, c) in b && f(c, b[(n, c)], br, ed);
    assert (n, c) in b' && f(c, b'[(n, c)], c, b[(n, c)]);
  }

  lemma GrownNode(f: (nat, nat, nat, nat) -> bool, p: set<(Node, Node, int)>, b: Born, p': set<(Node, Node, int)>,
                  b': Born, m: int, n: Node)
    requires Flows(f) && Grown(p, b, p', b', m)
    ensures Indexed(b, n) ==> Indexed(b', n)
    ensures Complete(p, b, n) ==> Complete(p', b', n)
    ensures Size(n) > m ==> (Indexed(b', n) ==> Indexed(b, n)) && (BornBelow(f, b, n) ==> BornBelow(f, b', n))
  {
    hide Size, Visible;
    if c :| (n, c) in b {
      assert (n, c) in b';
    }
    if Complete(p, b, n) {
      forall k | k in n.kids ensures (k.node, n, k.dsp) in p' && Indexed(b', k.node) {
        var c :| (k.node, c) in b;
        assert (k.node, c) in b';
      }
    }
    if Size(n) > m && BornBelow(f, b, n) {
      forall c, k | (n, c) in b' && k in n.kids ensures Visible(f, b', k.node, c, b'[(n, c)]) {
        assert (n, c) in b && b[(n, c)] == b'[(n, c)];
        GrownVisible(f, p, b, p', b', m, k.node, c, b[(n, c)]);
      }
    }
  }

  /** What was settled above the growth stays so. */
  lemma GrownSettled(f: (nat, nat, nat, nat) -> bool, p: set<(Node, Node, int)>, b: Born, p': set<(Node, Node, int)>,
                     b': Born, m: int, m': int)
    requires Flows(f) && SettledTo(p, b, f, m) && Grown(p, b, p', b', m') && SettledTo(p', b', f, m')
    ensures SettledTo(p', b', f, m)
  {
    hide Size, Complete, BornBelow, Grown, Indexed;
    forall n | Size(n) <= m ensures (Indexed(b', n) ==> Complete(p', b', n)) && BornBelow(f, b', n) {
      GrownNode(f, p, b, p', b', m', n);
    }
  }

  lemma GrownAll(f: (nat, nat, nat, nat) -> bool, p: set<(Node, Node, int)>, b: Born, p': set<(Node, Node, int)>,
                 b': Born, m': int)
    requires Flows(f) && Grown(p, b, p', b', m') && SettledTo(p', b', f, m')
    requires (forall n | Indexed(b, n) :: Complete(p, b, n)) && forall n :: BornBelow(f, b, n)
    ensures (forall n | Indexed(b', n) :: Complete(p', b', n)) && forall n :: BornBelow(f, b', n)
  {
    hide Size, Complete, BornBelow, Grown, Indexed;
    forall n ensures (Indexed(b', n) ==> Complete(p', b', n)) && BornBelow(f, b', n) {
      GrownNode(f, p, b, p', b', m', n);
    }
  }

  lemma SettledLess(parents: set<(Node, Node, int)>, born: Born, f: (nat, nat, nat, nat) -> bool, m: int, m': int)
    requires SettledTo(parents, born, f, m) && m' <= m
    ensures SettledTo(parents, born, f, m')
  {
    hide Size, Complete, BornBelow, Indexed;
  }

  lemma SizeOfKid(t: Node, c: Kid)
    requires c in t.kids
    ensures Size(c.node) < Size(t)
  {
    KidIsSmaller(t.kids, c);
  }

  lemma BornEarlier(f: (nat, nat, nat, nat) -> bool, born: Born, t: Node, b: nat, e: nat)
    requires Flows(f) && (t, b) in born && born[(t, b)] <= e
    ensures Visible(f, born, t, b, e)
  {
    assert f(b, born[(t, b)], b, e);
  }

  /** A node not visible is born at the point it is met, earlier than any other birth of
      it on the branch. */
  lemma BornFirst(f: (nat, nat, nat, nat) -> bool, parents: set<(Node, Node, int)>, born: Born, t: Node, b: nat, e: nat)
    requires Flows(f) && !Visible(f, born, t, b, e) && EdgesTrue(parents, born) && SettledTo(parents, born, f, Size(t))
    ensures Grown(parents, born, parents, born[(t, b) := e], Size(t))
    ensures EdgesTrue(parents, born[(t, b) := e]) && SettledTo(parents, born[(t, b) := e], f, Size(t) - 1)
    ensures Visible(f, born[(t, b) := e], t, b, e)
  {
    hide Size;
    var born' := born[(t, b) := e];
    if (t, b) in born && born[(t, b)] <= e {
      BornEarlier(f, born, t, b, e);
    }
    assert Grown(parents, born, parents, born', Size(t));
    assert (t, b) in born' && f(b, e, b, e);
    forall x | x in parents ensures Indexed(born', x.1) {
      GrownNode(f, parents, born, parents, born', Size(t), x.1);
    }
    forall n | Size(n) <= Size(t) - 1
      ensures (Indexed(born', n) ==> Complete(parents, born', n)) && BornBelow(f, born', n) {
      SmallerKept(f, parents, born, born', t, b, e, n);
    }
  }

  lemma SmallerKept(f: (nat, nat, nat, nat) -> bool, parents: set<(Node, Node, int)>, born: Born, born': Born, t: Node,
                    b: nat, e: nat, n: Node)
    requires Flows(f) && n != t && born' == born[(t, b) := e] && Grown(parents, born, parents, born', Size(t))
    ensures Indexed(born', n) && Complete(parents, born, n) ==> Complete(parents, born', n)
    ensures Indexed(born', n) ==> Indexed(born, n)
    ensures BornBelow(f, born, n) ==> BornBelow(f, born', n)
  {
    hide Size, Visible, Grown;
    GrownNode(f, parents, born, parents, born', Size(t), n);
    if c :| (n, c) in born' {
      assert (n, c) in born;
    }
    if BornBelow(f, born, n) {
      forall c, k | (n, c) in born' && k in n.kids ensures Visible(f, born', k.node, c, born'[(n, c)]) {
        assert (n, c) in born;
        GrownVisible(f, parents, born, parents, born', Size(t), k.node, c, born[(n, c)]);
      }
    }
  }

  lemma EdgeAdded(f: (nat, nat, nat, nat) -> bool, parents0: set<(Node, Node, int)>, parents: set<(Node, Node, int)>,
                  born0: Born, born: Born,
                  t: Node, b: nat, c: Kid, m: int)
    requires Flows(f) && EdgesTrue(parents, born) && SettledTo(parents, born, f, m) &&
      Grown(parents0, born0, parents, born, m)
    requires c in t.kids && (t, b) in born0
    ensures var parents' := parents + {(c.node, t, c.dsp)};
      EdgesTrue(parents', born) && SettledTo(parents', born, f, m) && Grown(parents0, born0, parents', born, m)
  {
    hide Size, BornBelow;
    var parents' := parents + {(c.node, t, c.dsp)};
    assert (t, b) in born;
    assert Indexed(born, t);
    assert Kid(c.node, c.dsp) == c;
    forall n | Indexed(born, n) && Size(n) <= m ensures Complete(parents', born, n) {
      assert Complete(parents, born, n);
    }
  }

  /** The first `i` kids are recorded under their parent, and visible. */
  ghost predicate KidsWalked(f: (nat, nat, nat, nat) -> bool, parents: set<(Node, Node, int)>, born: Born, t: Node,
                             i: nat, b: nat, e: nat)
    requires i <= |t.kids|
  {
    forall j | 0 <= j < i :: (t.kids[j].node, t, t.kids[j].dsp) in parents && Visible(f, born, t.kids[j].node, b, e)
  }

  lemma NoneWalked(f: (nat, nat, nat, nat) -> bool, parents: set<(Node, Node, int)>, born: Born, t: Node, b: nat,
                   e: nat)
    ensures KidsWalked(f, parents, born, t, 0, b, e)
  {
  }

  lemma KidWalked(f: (nat, nat, nat, nat) -> bool, parents0: set<(Node, Node, int)>, bornT: Born,
                  parents1: set<(Node, Node, int)>, born1: Born,
                  parents: set<(Node, Node, int)>, born: Born, t: Node, i: nat, b: nat, e: nat)
    requires Flows(f) && i < |t.kids| && Size(t.kids[i].node) <= Size(t) - 1
    requires var parents2 := parents1 + {(t.kids[i].node, t, t.kids[i].dsp)};
      && SettledTo(parents2, born1, f, Size(t) - 1) && Grown(parents0, bornT, parents2, born1, Size(t) - 1)
      && Grown(parents2, born1, parents, born, Size(t.kids[i].node))
    requires SettledTo(parents, born, f, Size(t.kids[i].node)) && Visible(f, born, t.kids[i].node, b, e)
    requires KidsWalked(f, parents1, born1, t, i, b, e)
    ensures SettledTo(parents, born, f, Size(t) - 1) && Grown(parents0, bornT, parents, born, Size(t) - 1)
    ensures KidsWalked(f, parents, born, t, i + 1, b, e)
  {
    hide Size, Visible, SettledTo, Flows;
    var parents2 := parents1 + {(t.kids[i].node, t, t.kids[i].dsp)};
    GrownTwice(parents0, bornT, parents2, born1, parents, born, Size(t) - 1, Size(t.kids[i].node));
    GrownSettled(f, parents2, born1, parents, born, Size(t) - 1, Size(t.kids[i].node));
    forall j | 0 <= j < i ensures Visible(f, born, t.kids[j].node, b, e) {
      GrownVisible(f, parents2, born1, parents, born, Size(t.kids[i].node), t.kids[j].node, b, e);
    }
  }

  /** Once its children are walked the node itself is recorded as it should be. */
  lemma NodeSettled(f: (nat, nat, nat, nat) -> bool, parents0: set<(Node, Node, int)>, born0: Born, bornT: Born,
                    parents: set<(Node, Node, int)>, born: Born, t: Node, b: nat, e: nat)
    requires Flows(f) && SettledTo(parents0, born0, f, Size(t)) && bornT == born0[(t, b) := e]
    requires Grown(parents0, born0, parents0, bornT, Size(t)) && Grown(parents0, bornT, parents, born, Size(t) - 1)
    requires SettledTo(parents, born, f, Size(t) - 1)
    requires KidsWalked(f, parents, born, t, |t.kids|, b, e)
    ensures SettledTo(parents, born, f, Size(t)) && Grown(parents0, born0, parents, born, Size(t))
    ensures Visible(f, born, t, b, e)
  {
    hide Size, Visible, Complete, BornBelow, Indexed, Grown, SettledTo, Flows;
    GrownTwice(parents0, born0, parents0, bornT, parents, born, Size(t), Size(t) - 1);
    BornHere(f, bornT, t, b, e);
    GrownVisible(f, parents0, bornT, parents, born, Size(t) - 1, t, b, e);
    forall n | Size(n) <= Size(t) ensures (Indexed(born, n) ==> Complete(parents, born, n)) && BornBelow(f, born, n) {
      SettledNode(parents0, born0, f, Size(t), n);
      if n == t {
        ThisNode(f, parents0, born0, bornT, parents, born, t, b, e);
      } else if Size(n) == Size(t) {
        SmallerKept(f, parents0, born0, bornT, t, b, e, n);
        GrownNode(f, parents0, bornT, parents, born, Size(t) - 1, n);
      } else {
        SettledNode(parents, born, f, Size(t) - 1, n);
      }
    }
    SettledFrom(parents, born, f, Size(t));
  }

  lemma SettledNode(parents: set<(Node, Node, int)>, born: Born, f: (nat, nat, nat, nat) -> bool, m: int, n: Node)
    requires SettledTo(parents, born, f, m) && Size(n) <= m
    ensures (Indexed(born, n) ==> Complete(parents, born, n)) && BornBelow(f, born, n)
  {
    hide Size, Complete, BornBelow, Indexed;
  }

  lemma SettledFrom(parents: set<(Node, Node, int)>, born: Born, f: (nat, nat, nat, nat) -> bool, m: int)
    requires forall n | Size(n) <= m :: (Indexed(born, n) ==> Complete(parents, born, n)) && BornBelow(f, born, n)
    ensures SettledTo(parents, born, f, m)
  {
    hide Size, Complete, BornBelow, Indexed;
  }

  lemma ThisNode(f: (nat, nat, nat, nat) -> bool, parents0: set<(Node, Node, int)>, born0: Born, bornT: Born,
                 parents: set<(Node, Node, int)>, born: Born, t: Node, b: nat, e: nat)
    requires Flows(f) && BornBelow(f, born0, t) && bornT == born0[(t, b) := e]
    requires Grown(parents0, bornT, parents, born, Size(t) - 1) && Grown(parents0, born0, parents, born, Size(t))
    requires forall j | 0 <= j < |t.kids| ::
      (t.kids[j].node, t, t.kids[j].dsp) in parents && Visible(f, born, t.kids[j].node, b, e)
    ensures Complete(parents, born, t) && BornBelow(f, born, t)
  {
    hide Size, Visible;
    assert (t, b) in bornT && born[(t, b)] == e;
    forall k | k in t.kids ensures (k.node, t, k.dsp) in parents && Indexed(born, k.node) {
      VisibleIndexed(f, born, k.node, b, e);
    }
    forall c, k | (t, c) in born && k in t.kids ensures Visible(f, born, k.node, c, born[(t, c)]) {
      if c != b {
        assert (t, c) in bornT && (t, c) in born0 && born0[(t, c)] == born[(t, c)];
        GrownVisible(f, parents0, born0, parents, born, Size(t), k.node, c, born[(t, c)]);
      }
    }
  }

  lemma BornHere(f: (nat, nat, nat, nat) -> bool, born: Born, t: Node, b: nat, e: nat)
    requires Flows(f) && (t, b) in born && born[(t, b)] == e
    ensures Visible(f, born, t, b, e)
  {
    assert f(b, e, b, e);
  }

  lemma VisibleIndexed(f: (nat, nat, nat, nat) -> bool, born: Born, n: Node, b: nat, e: nat)
    requires Visible(f, born, n, b, e)
    ensures Indexed(born, n)
  {
  }

  class History {
    var parents: set<(Node, Node, int)>
    var holders: set<(Node, Holder)>
    var born: Born

    /** How history flows between points; the edges of a branch never change once it
        is made, so this stands for the graph at any time. */
    ghost const flow: (nat, nat, nat, nat) -> bool

    ghost predicate Valid()
      reads this
    {
      && Flows(flow) && EdgesTrue(parents, born)
      && (forall n | Indexed(born, n) :: Complete(parents, born, n))
      && (forall n :: BornBelow(flow, born, n))
      && (forall h <- holders :: Visible(flow, born, h.0, h.1.branch, h.1.edition))
    }

    constructor (ghost f: (nat, nat, nat, nat) -> bool)
      requires Flows(f)
      ensures Valid() && holders == {} && flow == f
    {
      flow := f;
      parents, holders, born := {}, {}, map[];
    }

    /** Whether `n` was born on a lineage, given branch by branch with the greatest
        edition of each that flows into the point. */
    method IsVisible(n: Node, lineage: seq<(nat, nat)>, ghost b: nat, ghost e: nat) returns (r: bool)
      requires LineageOf(flow, lineage, b, e)
      ensures r <==> Visible(flow, born, n, b, e)
    {
      for i := 0 to |lineage|
        invariant forall j | 0 <= j < i :: !((n, lineage[j].0) in born && born[(n, lineage[j].0)] <= lineage[j].1)
      {
        var p := lineage[i];
        if (n, p.0) in born && born[(n, p.0)] <= p.1 {
          assert p in lineage;
          return true;
        }
      }
      r := false;
    }

    /** Indexes a version: its root's holder, and every node under it not yet born on
        its lineage. Returns how many nodes that was. */
    method IndexVersion(h: Holder, root: Node, lineage: seq<(nat, nat)>) returns (visited: nat)
      requires Valid() && LineageOf(flow, lineage, h.branch, h.edition)
      modifies this`parents, this`holders, this`born
      ensures Valid() && holders == old(holders) + {(root, h)}
      ensures forall n: Node, o: int | Occurs(root, n, o) :: Visible(flow, born, n, h.branch, h.edition)
      ensures Visible(flow, old(born), root, h.branch, h.edition) ==>
        visited == 0 && born == old(born) && parents == old(parents)
    {
      hide Visible, Occurs, Size, Complete, BornBelow, EdgesTrue;
      ghost var parents0, born0 := parents, born;
      visited := Visit(root, lineage, h.branch, h.edition);
      GrownAll(flow, parents0, born0, parents, born, Size(root));
      forall x | x in holders ensures Visible(flow, born, x.0, x.1.branch, x.1.edition) {
        GrownVisible(flow, parents0, born0, parents, born, Size(root), x.0, x.1.branch, x.1.edition);
      }
      holders := holders + {(root, h)};
      forall n: Node, o: int | Occurs(root, n, o) ensures Visible(flow, born, n, h.branch, h.edition) {
        VisibleBelow(flow, born, root, n, o, h.branch, h.edition);
      }
    }

    /** The walk: it stops at a node already born on the lineage, since everything
        beneath it is too. */
    method Visit(t: Node, lineage: seq<(nat, nat)>, b: nat, e: nat) returns (visited: nat)
      requires LineageOf(flow, lineage, b, e) && Flows(flow)
      requires EdgesTrue(parents, born) && SettledTo(parents, born, flow, Size(t))
      modifies this`parents, this`born
      ensures EdgesTrue(parents, born) && Grown(old(parents), old(born), parents, born, Size(t))
      ensures Visible(flow, born, t, b, e) && SettledTo(parents, born, flow, Size(t))
      ensures Visible(flow, old(born), t, b, e) ==> visited == 0 && born == old(born) && parents == old(parents)
      decreases Size(t)
    {
      hide Visible, Occurs, Size, Complete, BornBelow, EdgesTrue, SettledTo, Grown, Flows, LineageOf, Indexed,
        KidsWalked;
      var seen := IsVisible(t, lineage, b, e);
      if seen {
        GrownSelf(parents, born, Size(t));
        return 0;
      }
      BornFirst(flow, parents, born, t, b, e);
      ghost var parents0, born0 := parents, born;
      born := born[(t, b) := e];
      ghost var bornT := born;
      visited := 1;
      GrownSelf(parents, born, Size(t) - 1);
      NoneWalked(flow, parents, born, t, b, e);
      for i := 0 to |t.kids|
        invariant EdgesTrue(parents, born) && SettledTo(parents, born, flow, Size(t) - 1)
        invariant Grown(parents0, bornT, parents, born, Size(t) - 1) && KidsWalked(flow, parents, born, t, i, b, e)
      {
        var c := t.kids[i];
        assert c in t.kids;
        SizeOfKid(t, c);
        EdgeAdded(flow, parents0, parents, bornT, born, t, b, c, Size(t) - 1);
        ghost var parents1, born1 := parents, born;
        parents := parents + {(c.node, t, c.dsp)};
        SettledLess(parents, born, flow, Size(t) - 1, Size(c.node));
        var more := Visit(c.node, lineage, b, e);
        visited := visited + more;
        KidWalked(flow, parents0, bornT, parents1, born1, parents, born, t, i, b, e);
      }
      NodeSettled(flow, parents0, born0, bornT, parents, born, t, b, e);
    }

    /** Backfollow: every version whose tree holds `ck`, with the offset of each
        occurrence, found by climbing the recorded parents. Answers already in the
        memo are used and kept. */
    method Reach(ck: Node, memo: map<Node, set<(Holder, int, Node)>>, ghost bound: nat)
      returns (out: set<(Holder, int, Node)>, memo': map<Node, set<(Holder, int, Node)>>)
      requires Valid() && Size(ck) <= bound && (forall e <- parents :: Size(e.1) <= bound)
      requires forall n | n in memo :: IsReach(memo[n], holders, n)
      ensures IsReach(out, holders, ck)
      ensures forall n | n in memo' :: IsReach(memo'[n], holders, n)
      decreases bound - Size(ck)
    {
      hide Complete, BornBelow, Visible, Occurs, Size, Flows;
      if ck in memo {
        return memo[ck], memo;
      }
      memo' := memo;
      out := set h | h in holders && h.0 == ck :: (h.1, 0, ck);
      var todo := set e | e in parents && e.0 == ck;
      ghost var all := todo;
      ghost var done: set<(Node, Node, int)> := {};
      while todo != {}
        invariant todo <= all && done == all - todo
        invariant forall n | n in memo' :: IsReach(memo'[n], holders, n)
        invariant forall x: (Holder, int, Node) :: x in out <==> ReachedBy(x, holders, ck, done)
        decreases todo
      {
        var edge :| edge in todo;
        todo := todo - {edge};
        assert Kid(ck, edge.2) in edge.1.kids;
        SizeOfKid(edge.1, Kid(ck, edge.2));
        var up;
        up, memo' := Reach(edge.1, memo', bound);
        ReachedOne(holders, ck, done, edge, up, out);
        out := out + set x | x in up :: (x.0, x.1 + edge.2, x.2);
        done := done + {edge};
      }
      assert done == all;
      ClimbIsExact(parents, holders, born, flow, ck, all, out);
      memo' := memo'[ck := out];
    }

    /** Where in one tree a node sits, by a climb that looks only at parents `admit` lets
        through; it has to let through all of that tree. */
    method OffsetsIn(ck: Node, target: Node, admit: Node -> bool, memo: map<Node, set<int>>, ghost bound: nat)
      returns (out: set<int>, memo': map<Node, set<int>>)
      requires Valid() && Indexed(born, target) && Size(ck) <= bound && (forall e <- parents :: Size(e.1) <= bound)
      requires forall n, o | Occurs(target, n, o) :: admit(n)
      requires forall n | n in memo :: IsOffsets(memo[n], target, n)
      ensures IsOffsets(out, target, ck)
      ensures forall n | n in memo' :: IsOffsets(memo'[n], target, n)
      decreases bound - Size(ck)
    {
      hide Complete, BornBelow, Visible, Occurs, Size, Flows;
      if ck in memo {
        return memo[ck], memo;
      }
      memo' := memo;
      out := if ck == target then {0} else {};
      var todo := set e | e in parents && e.0 == ck;
      ghost var all := todo;
      ghost var done: set<(Node, Node, int)> := {};
      while todo != {}
        invariant todo <= all && done == all - todo
        invariant forall n | n in memo' :: IsOffsets(memo'[n], target, n)
        invariant forall o: int :: o in out <==> OffsetBy(o, target, ck, done)
        decreases todo
      {
        var edge :| edge in todo;
        todo := todo - {edge};
        assert Kid(ck, edge.2) in edge.1.kids;
        SizeOfKid(edge.1, Kid(ck, edge.2));
        if edge.1 in memo' || admit(edge.1) {
          var up;
          up, memo' := OffsetsIn(edge.1, target, admit, memo', bound);
          OffsetOne(target, ck, done, edge, up, out);
          out := out + set o | o in up :: o + edge.2;
        } else {
          forall o: int ensures OffsetBy(o, target, ck, done + {edge}) <==> OffsetBy(o, target, ck, done) {
            OffsetSkip(target, ck, done, edge, o);
          }
        }
        done := done + {edge};
      }
      assert done == all;
      OffsetsAreExact(parents, born, target, ck, all, out);
      memo' := memo'[ck := out];
    }

    /** The versions a node is in were indexed from a place where it was visible. */
    lemma HeldIsVisible(h: (Node, Holder), n: Node, o: int)
      requires Valid() && h in holders && Occurs(h.0, n, o)
      ensures Visible(flow, born, n, h.1.branch, h.1.edition)
    {
      VisibleBelow(flow, born, h.0, n, o, h.1.branch, h.1.edition);
    }
  }

  // ----- climbing -----

  /** Exactly the indexed versions whose tree holds `n`, with every offset of it. */
  ghost predicate IsReach(out: set<(Holder, int, Node)>, holders: set<(Node, Holder)>, n: Node) {
    forall h, o: int, r :: (h, o, r) in out <==> (r, h) in holders && Occurs(r, n, o)
  }

  ghost predicate IsOffsets(out: set<int>, target: Node, n: Node) {
    forall o: int :: o in out <==> Occurs(target, n, o)
  }

  /** A holding found at the node itself, or through one of the edges climbed. */
  ghost predicate ReachedBy(x: (Holder, int, Node), holders: set<(Node, Holder)>, n: Node,
                            edges: set<(Node, Node, int)>) {
    (x.2, x.0) in holders && ((x.2 == n && x.1 == 0) || exists e <- edges :: Occurs(x.2, e.1, x.1 - e.2))
  }

  lemma ReachedOne(holders: set<(Node, Holder)>, n: Node, done: set<(Node, Node, int)>, edge: (Node, Node, int),
                   up: set<(Holder, int, Node)>, out: set<(Holder, int, Node)>)
    requires IsReach(up, holders, edge.1)
    requires forall x: (Holder, int, Node) :: x in out <==> ReachedBy(x, holders, n, done)
    ensures var out' := out + set x | x in up :: (x.0, x.1 + edge.2, x.2);
      forall x: (Holder, int, Node) :: x in out' <==> ReachedBy(x, holders, n, done + {edge})
  {
    hide Occurs;
    var out' := out + set x | x in up :: (x.0, x.1 + edge.2, x.2);
    forall x: (Holder, int, Node) ensures x in out' <==> ReachedBy(x, holders, n, done + {edge}) {
      var y := (x.0, x.1 - edge.2, x.2);
      assert y in up <==> (x.2, x.0) in holders && Occurs(x.2, edge.1, x.1 - edge.2);
      assert y in up ==> x == (y.0, y.1 + edge.2, y.2);
      if x in out' && x !in out {
        var z :| z in up && x == (z.0, z.1 + edge.2, z.2);
        assert z == y;
      }
      assert edge in done + {edge};
    }
  }

  /** Climbing every recorded parent of a node finds exactly what holds it. */
  lemma ClimbIsExact(parents: set<(Node, Node, int)>, holders: set<(Node, Holder)>, born: Born,
                     f: (nat, nat, nat, nat) -> bool,
                     n: Node, edges: set<(Node, Node, int)>, out: set<(Holder, int, Node)>)
    requires EdgesTrue(parents, born) && (forall x | Indexed(born, x) :: Complete(parents, born, x))
    requires forall h <- holders :: Visible(f, born, h.0, h.1.branch, h.1.edition)
    requires edges == set e | e in parents && e.0 == n
    requires forall x: (Holder, int, Node) :: x in out <==> ReachedBy(x, holders, n, edges)
    ensures IsReach(out, holders, n)
  {
    hide Occurs, Complete, Visible;
    forall h, o: int, r ensures (h, o, r) in out <==> (r, h) in holders && Occurs(r, n, o) {
      var x := (h, o, r);
      if ReachedBy(x, holders, n, edges) {
        if e :| e in edges && Occurs(r, e.1, o - e.2) {
          ChildOccurs(r, e.1, o - e.2, n, e.2);
        } else {
          SelfOccurs(n);
        }
      } else if (r, h) in holders && Occurs(r, n, o) {
        VisibleIndexed(f, born, r, h.branch, h.edition);
        StepUp(parents, born, r, n, o);
      }
    }
  }

  lemma SelfOccurs(n: Node)
    ensures Occurs(n, n, 0)
  {
  }

  /** An occurrence in an indexed tree is the root's own or under a recorded edge. */
  lemma StepUp(parents: set<(Node, Node, int)>, born: Born, r: Node, n: Node, o: int)
    requires forall x | Indexed(born, x) :: Complete(parents, born, x)
    requires Indexed(born, r) && Occurs(r, n, o)
    ensures (r == n && o == 0) || exists e <- parents :: e.0 == n && Occurs(r, e.1, o - e.2)
  {
    hide Occurs, Indexed;
    OccursUnderParent(r, n, o);
    if !(r == n && o == 0) {
      var p: Node, d: int :| Kid(n, d) in p.kids && Occurs(r, p, o - d);
      AllRecorded(parents, born, r, p, o - d);
      assert Complete(parents, born, p);
      assert (n, p, d) in parents;
    }
  }

  ghost predicate OffsetBy(o: int, target: Node, n: Node, edges: set<(Node, Node, int)>) {
    (n == target && o == 0) || exists e <- edges :: Occurs(target, e.1, o - e.2)
  }

  lemma OffsetOne(target: Node, n: Node, done: set<(Node, Node, int)>, edge: (Node, Node, int), up: set<int>,
                  out: set<int>)
    requires IsOffsets(up, target, edge.1)
    requires forall o: int :: o in out <==> OffsetBy(o, target, n, done)
    ensures var out' := out + set o | o in up :: o + edge.2;
      forall o: int :: o in out' <==> OffsetBy(o, target, n, done + {edge})
  {
    hide Occurs;
    var out' := out + set o | o in up :: o + edge.2;
    forall o: int ensures o in out' <==> OffsetBy(o, target, n, done + {edge}) {
      var y := o - edge.2;
      assert y in up <==> Occurs(target, edge.1, o - edge.2);
      assert y in up ==> o == y + edge.2;
      if o in out' && o !in out {
        var z :| z in up && o == z + edge.2;
        assert z == y;
      }
      assert edge in done + {edge};
    }
  }

  /** A parent nothing admits lies nowhere in the target. */
  lemma OffsetSkip(target: Node, n: Node, done: set<(Node, Node, int)>, edge: (Node, Node, int), o: int)
    requires forall x: int :: !Occurs(target, edge.1, x)
    ensures OffsetBy(o, target, n, done + {edge}) <==> OffsetBy(o, target, n, done)
  {
    hide Occurs;
  }

  lemma OffsetsAreExact(parents: set<(Node, Node, int)>, born: Born, target: Node, n: Node,
                        edges: set<(Node, Node, int)>, out: set<int>)
    requires EdgesTrue(parents, born) && (forall x | Indexed(born, x) :: Complete(parents, born, x)) &&
      Indexed(born, target)
    requires edges == set e | e in parents && e.0 == n
    requires forall o: int :: o in out <==> OffsetBy(o, target, n, edges)
    ensures IsOffsets(out, target, n)
  {
    hide Occurs, Complete;
    forall o: int ensures o in out <==> Occurs(target, n, o) {
      if OffsetBy(o, target, n, edges) {
        if e :| e in edges && Occurs(target, e.1, o - e.2) {
          ChildOccurs(target, e.1, o - e.2, n, e.2);
        } else {
          SelfOccurs(n);
        }
      } else if Occurs(target, n, o) {
        StepUp(parents, born, target, n, o);
      }
    }
  }
}
