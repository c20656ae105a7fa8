/** Branches joined by forks and merges, and the ancestry of their points. */
module Dags {
  import opened Values

  /** Where a branch hangs: its first parent and the edition there; and, when it is a merge,
      the other parent, the edition there, and the edition of its own from which that parent
      counts. */
  datatype Branch = Branch(parent: Option<(nat, nat)>, merged: Option<(nat, nat, nat)>)

  type Graph = map<nat, Branch>

  /** Branches are numbered as they are made, and every edge points at an older one. */
  ghost predicate Rooted(g: Graph, next: nat) {
    && 0 in g && g[0] == Branch(None, None)
    && (forall b | b in g :: b < next && (b > 0 ==> g[b].parent.Some?))
    && (forall b | b in g && g[b].parent.Some? :: g[b].parent.value.0 in g && g[b].parent.value.0 < b)
    && (forall b | b in g && g[b].merged.Some? :: g[b].merged.value.0 in g && g[b].merged.value.0 < b)
  }

  /** Some walk back from `(b, ed)` passes `(x, e)`. The first parent may always be taken;
      the other only from the edition at which it begins to count. */
  ghost predicate Reaches(g: Graph, next: nat, b: nat, ed: nat, x: nat, e: nat)
    requires Rooted(g, next) && b in g
    decreases b
  {
    || (x == b && e == ed)
    || (g[b].parent.Some? && Reaches(g, next, g[b].parent.value.0, g[b].parent.value.1, x, e))
    || (g[b].merged.Some? && ed >= g[b].merged.value.2
        && Reaches(g, next, g[b].merged.value.0, g[b].merged.value.1, x, e))
  }

  /** A later edition of a branch reaches everything an earlier one does, or a later
      edition of the branch itself. */
  lemma LaterReachesMore(g: Graph, next: nat, b: nat, ed: nat, ed': nat, x: nat, e: nat)
    requires Rooted(g, next) && b in g && ed <= ed' && Reaches(g, next, b, ed, x, e)
    ensures Reaches(g, next, b, ed', x, if x == b && e == ed then ed' else e)
  {
  }

  lemma {:induction false} ReachesOlder(g: Graph, next: nat, b: nat, ed: nat, x: nat, e: nat)
    requires Rooted(g, next) && b in g && Reaches(g, next, b, ed, x, e)
    ensures x in g && x <= b && (x == b ==> e == ed)
    decreases b
  {
    if !(x == b && e == ed) {
      if g[b].parent.Some? && Reaches(g, next, g[b].parent.value.0, g[b].parent.value.1, x, e) {
        ReachesOlder(g, next, g[b].parent.value.0, g[b].parent.value.1, x, e);
      } else {
        ReachesOlder(g, next, g[b].merged.value.0, g[b].merged.value.1, x, e);
      }
    }
  }

  /** A path followed by a path. */
  lemma {:induction false} ReachesOn(g: Graph, next: nat, b: nat, ed: nat, y: nat, f: nat, x: nat, e: nat)
    requires Rooted(g, next) && b in g && y in g && Reaches(g, next, b, ed, y, f) && Reaches(g, next, y, f, x, e)
    ensures Reaches(g, next, b, ed, x, e)
    decreases b
  {
    if !(y == b && f == ed) {
      if g[b].parent.Some? && Reaches(g, next, g[b].parent.value.0, g[b].parent.value.1, y, f) {
        ReachesOn(g, next, g[b].parent.value.0, g[b].parent.value.1, y, f, x, e);
      } else {
        ReachesOn(g, next, g[b].merged.value.0, g[b].merged.value.1, y, f, x, e);
      }
    }
  }

  ghost predicate Distinctly(line: seq<(nat, nat)>) {
    forall i, j | 0 <= i < j < |line| :: line[i].0 != line[j].0
  }

  ghost predicate Covers(g: Graph, next: nat, b: nat, at: nat, line: seq<(nat, nat)>)
    requires Rooted(g, next) && b in g
  {
    forall x, e: nat :: Reaches(g, next, b, at, x, e) ==> exists p <- line :: p.0 == x && e <= p.1
  }

  /** The list names each branch that can be walked back to, once, at the greatest edition
      any walk meets it; where there are only forks it is the chain to the root, in order. */
  ghost predicate IsLineage(g: Graph, next: nat, b: nat, at: nat, line: seq<(nat, nat)>)
    requires Rooted(g, next) && b in g
  {
    && Distinctly(line) && (forall p <- line :: Reaches(g, next, b, at, p.0, p.1)) && Covers(g, next, b, at, line)
    && (ForksOnly(g) ==> line == Chain(g, next, b, at))
  }

  // ----- ancestry -----

  /** Some walk back from `(bb, eb)` meets `ba` at `ea` or later. */
  ghost predicate Ancestor(g: Graph, next: nat, ba: nat, ea: nat, bb: nat, eb: nat)
    requires Rooted(g, next) && bb in g
  {
    exists e: nat :: Reaches(g, next, bb, eb, ba, e) && ea <= e
  }

  lemma AncestorReflexive(g: Graph, next: nat, b: nat, e: nat)
    requires Rooted(g, next) && b in g
    ensures Ancestor(g, next, b, e, b, e)
  {
    assert Reaches(g, next, b, e, b, e);
  }

  /** Ancestry is transitive in every graph of forks and merges. */
  lemma AncestorTransitive(g: Graph, next: nat, a: nat, ea: nat, b: nat, eb: nat, c: nat, ec: nat)
    requires Rooted(g, next) && b in g && c in g
    requires Ancestor(g, next, a, ea, b, eb) && Ancestor(g, next, b, eb, c, ec)
    ensures Ancestor(g, next, a, ea, c, ec)
  {
    var x :| Reaches(g, next, b, eb, a, x) && ea <= x;
    var y :| Reaches(g, next, c, ec, b, y) && eb <= y;
    LaterReachesMore(g, next, b, eb, y, a, x);
    var x' := if a == b && x == eb then y else x;
    ReachesOn(g, next, c, ec, b, y, a, x');
  }

  // ----- the worklist -----

  /** How much walking a branch can cause. */
  ghost function Work(g: Graph, next: nat, b: nat): nat
    requires Rooted(g, next) && b in g
    decreases b
  {
    1 + (if g[b].parent.Some? then Work(g, next, g[b].parent.value.0) else 0)
      + (if g[b].merged.Some? then Work(g, next, g[b].merged.value.0) else 0)
  }

  ghost predicate Known(g: Graph, stack: seq<(nat, nat)>) {
    forall s <- stack :: s.0 in g
  }

  ghost function StackWork(g: Graph, next: nat, stack: seq<(nat, nat)>): nat
    requires Rooted(g, next)
  {
    if stack == [] then 0 else
    var top := stack[|stack| - 1].0;
    StackWork(g, next, stack[..|stack| - 1]) + if top in g then Work(g, next, top) else 0
  }

  /** A point is accounted for: walked at its edition or a later one, or still to walk. */
  ghost predicate Due(best: map<nat, nat>, stack: seq<(nat, nat)>, x: nat, e: nat) {
    (x in best && e <= best[x]) || exists s <- stack :: s.0 == x && e <= s.1
  }

  /** Whatever a walked point leads to directly is accounted for. */
  ghost predicate EdgesDue(g: Graph, best: map<nat, nat>, stack: seq<(nat, nat)>) {
    forall y | y in best :: y in g
      && (g[y].parent.Some? ==> Due(best, stack, g[y].parent.value.0, g[y].parent.value.1))
      && (g[y].merged.Some? && best[y] >= g[y].merged.value.2 ==>
            Due(best, stack, g[y].merged.value.0, g[y].merged.value.1))
  }

  /** With nothing left to walk, everything reached has been. */
  lemma {:induction false} AllWalked(g: Graph, next: nat, best: map<nat, nat>, b: nat, ed: nat, x: nat, e: nat)
    requires Rooted(g, next) && EdgesDue(g, best, []) && b in best && ed <= best[b] && b in g &&
      Reaches(g, next, b, ed, x, e)
    ensures x in best && e <= best[x]
    decreases b
  {
    if !(x == b && e == ed) {
      if g[b].parent.Some? && Reaches(g, next, g[b].parent.value.0, g[b].parent.value.1, x, e) {
        AllWalked(g, next, best, g[b].parent.value.0, g[b].parent.value.1, x, e);
      } else {
        AllWalked(g, next, best, g[b].merged.value.0, g[b].merged.value.1, x, e);
      }
    }
  }

  /** Popping a point already walked, or walking it, keeps everything accounted for. */
  lemma DueMoves(best: map<nat, nat>, stack: seq<(nat, nat)>, rest: seq<(nat, nat)>, s: (nat, nat),
                 best': map<nat, nat>,
                 stack': seq<(nat, nat)>, x: nat, e: nat)
    requires stack == rest + [s] && Due(best, stack, x, e)
    requires s.0 in best' && s.1 <= best'[s.0] && (forall y | y in best :: y in best' && best[y] <= best'[y])
    requires forall r <- rest :: r in stack'
    ensures Due(best', stack', x, e)
  {
    if !(x in best && e <= best[x]) {
      var r :| r in stack && r.0 == x && e <= r.1;
      assert r in rest || r == s;
    }
  }

  // ----- chains of forks -----

  ghost predicate ForksOnly(g: Graph) {
    forall b | b in g :: g[b].merged.None?
  }

  /** From a point to the root, one entry a branch. */
  ghost function Chain(g: Graph, next: nat, b: nat, at: nat): seq<(nat, nat)>
    requires Rooted(g, next) && b in g
    decreases b
  {
    [(b, at)] + if g[b].parent.Some? then Chain(g, next, g[b].parent.value.0, g[b].parent.value.1) else []
  }

  /** The entries of a walk so far, each with its best edition. */
  function Entries(order: seq<nat>, best: map<nat, nat>): (r: seq<(nat, nat)>)
    requires forall x <- order :: x in best
    ensures |r| == |order| && forall i | 0 <= i < |order| :: r[i] == (order[i], best[order[i]])
  {
    seq(|order|, i requires 0 <= i < |order| => assert order[i] in order; (order[i], best[order[i]]))
  }

  class Dag {
    var branches: Graph
    var next: nat

    ghost predicate Valid()
      reads this
    {
      Rooted(branches, next)
    }

    constructor ()
      ensures Valid() && branches == map[0 := Branch(None, None)]
    {
      branches, next := map[0 := Branch(None, None)], 1;
    }

    /** Makes a branch with one parent. */
    method Fork(parent: nat, at: nat) returns (id: nat)
      requires Valid() && parent in branches
      modifies this
      ensures Valid() && id == old(next) && id !in old(branches)
      ensures branches == old(branches)[id := Branch(Some((parent, at)), None)]
    {
      id := next;
      next := next + 1;
      branches := branches[id := Branch(Some((parent, at)), None)];
    }

    /** Makes a branch with two parents, the other one counting from edition `since`. */
    method Merge(parent: nat, at: nat, other: nat, otherAt: nat, since: nat) returns (id: nat)
      requires Valid() && parent in branches && other in branches
      modifies this
      ensures Valid() && id == old(next) && id !in old(branches)
      ensures branches == old(branches)[id := Branch(Some((parent, at)), Some((other, otherAt, since)))]
    {
      id := next;
      next := next + 1;
      branches := branches[id := Branch(Some((parent, at)), Some((other, otherAt, since)))];
    }

    /** The worklist walk back from a point: a branch is walked again only when met at a
        later edition than before. */
    method Lineage(b: nat, at: nat) returns (line: seq<(nat, nat)>)
      requires Valid() && b in branches
      ensures IsLineage(branches, next, b, at, line)
    {
      hide WalkOk, OneWalk, Reaches, Chain, Work, StackWork;
      var g := branches;
      var order: seq<nat>, best: map<nat, nat>, stack := [], map[], [(b, at)];
      WalkStarts(g, next, b, at);
      while stack != []
        invariant WalkOk(g, next, b, at, order, best, stack)
        invariant ForksOnly(g) ==> OneWalk(g, next, b, at, order, best, stack)
        decreases StackWork(g, next, stack)
      {
        var (br, ed) := stack[|stack| - 1];
        var rest := stack[..|stack| - 1];
        Popped(g, next, b, at, order, best, stack);
        if br in best && best[br] >= ed {
          SkipKeeps(g, next, b, at, order, best, stack);
          stack := rest;
          continue;
        }
        WalkKeeps(g, next, b, at, order, best, stack);
        if ForksOnly(g) {
          ForkKeeps(g, next, b, at, order, best, stack);
        }
        if br !in best {
          order := order + [br];
        }
        best := best[br := ed];
        stack := rest + Onward(g[br], ed);
      }
      WalkEnds(g, next, b, at, order, best);
      line := Entries(order, best);
    }

    /** Ancestry, read off the lineage. */
    method IsAncestor(ba: nat, ea: nat, bb: nat, eb: nat) returns (r: bool)
      requires Valid() && bb in branches
      ensures r <==> Ancestor(branches, next, ba, ea, bb, eb)
    {
      hide IsLineage, Ancestor, Rooted;
      var line := Lineage(bb, eb);
      for i := 0 to |line|
        invariant forall j | 0 <= j < i :: line[j].0 != ba
      {
        if line[i].0 == ba {
          AncestorInLine(branches, next, ba, ea, bb, eb, line, i);
          return ea <= line[i].1;
        }
      }
      AncestorInLine(branches, next, ba, ea, bb, eb, line, |line|);
      r := false;
    }

    /** The point where two histories last coincided. It is always found, and is an
        ancestor of both; among forks alone, every common ancestor is one of its own. */
    method CommonAncestor(ba: nat, ea: nat, bb: nat, eb: nat) returns (r: Option<(nat, nat)>)
      requires Valid() && ba in branches && bb in branches
      ensures r.Some? && r.value.0 in branches
      ensures SharedBy(branches, next, ba, ea, bb, eb, r.value.0, r.value.1)
      ensures ForksOnly(branches) ==> LatestShared(branches, next, ba, ea, bb, eb, r.value.0, r.value.1)
    {
      hide IsLineage, SharedBy, LatestShared, ForksOnly, Rooted, Held, Holds;
      var lineA := Lineage(ba, ea);
      var line := Lineage(bb, eb);
      LineIs(branches, next, ba, ea, lineA);
      var held := Held(lineA);
      var i := 0;
      while i < |line| && line[i].0 !in held
        invariant i <= |line| && forall j | 0 <= j < i :: line[j].0 !in held
      {
        i := i + 1;
      }
      if i == |line| {
        RootIsShared(branches, next, ba, ea, bb, eb, lineA, line, held);
        assert false;
      } else {
        var (br, here) := line[i];
        Coincides(branches, next, ba, ea, bb, eb, lineA, line, held, i);
        r := Some((br, if held[br] < here then held[br] else here));
      }
    }
  }

  /** The editions a history holds, by branch. */
  function Held(line: seq<(nat, nat)>): (m: map<nat, nat>)
    requires Distinctly(line)
    ensures Holds(m, line)
  {
    map p | p in line :: p.0 := p.1
  }

  /** The map has exactly the branches of a line, each at its edition there. */
  ghost predicate Holds(held: map<nat, nat>, line: seq<(nat, nat)>) {
    && (forall x :: x in held <==> exists p <- line :: p.0 == x)
    && (forall x | x in held :: (x, held[x]) in line)
  }

  lemma LineIs(g: Graph, next: nat, b: nat, at: nat, line: seq<(nat, nat)>)
    requires Rooted(g, next) && b in g && IsLineage(g, next, b, at, line)
    ensures Distinctly(line) && Covers(g, next, b, at, line)
    ensures forall i | 0 <= i < |line| :: Reaches(g, next, b, at, line[i].0, line[i].1)
    ensures ForksOnly(g) ==> line == Chain(g, next, b, at)
  {
    hide Reaches, Chain, Distinctly, Covers;
  }

  lemma SamePlace(line: seq<(nat, nat)>, i: nat, j: nat)
    requires Distinctly(line) && i < |line| && j < |line| && line[i].0 == line[j].0
    ensures i == j
  {
  }

  lemma AncestorInLine(g: Graph, next: nat, ba: nat, ea: nat, bb: nat, eb: nat, line: seq<(nat, nat)>, i: nat)
    requires Rooted(g, next) && bb in g && IsLineage(g, next, bb, eb, line)
    ensures i < |line| && line[i].0 == ba ==> (Ancestor(g, next, ba, ea, bb, eb) <==> ea <= line[i].1)
    ensures (forall j | 0 <= j < |line| :: line[j].0 != ba) ==> !Ancestor(g, next, ba, ea, bb, eb)
  {
    hide Reaches, Distinctly, IsLineage, Rooted, Chain, ForksOnly, Covers;
    LineIs(g, next, bb, eb, line);
    if Ancestor(g, next, ba, ea, bb, eb) {
      var j := PlaceInLine(g, next, ba, ea, bb, eb, line);
      if i < |line| && line[i].0 == ba {
        SamePlace(line, i, j);
      }
    }
  }

  lemma PlaceInLine(g: Graph, next: nat, ba: nat, ea: nat, bb: nat, eb: nat, line: seq<(nat, nat)>) returns (j: nat)
    requires Rooted(g, next) && bb in g && Covers(g, next, bb, eb, line) && Ancestor(g, next, ba, ea, bb, eb)
    ensures j < |line| && line[j].0 == ba && ea <= line[j].1
  {
    hide Reaches, Rooted;
    var e: nat :| Reaches(g, next, bb, eb, ba, e) && ea <= e;
    var p :| p in line && p.0 == ba && e <= p.1;
    j :| 0 <= j < |line| && line[j] == p;
  }

  lemma SharedPoint(g: Graph, next: nat, b: nat, at: nat, x: nat, e: nat, least: nat)
    requires Rooted(g, next) && b in g && Reaches(g, next, b, at, x, e) && least <= e
    ensures Ancestor(g, next, x, least, b, at)
  {
  }

  /** Every walk back ends at the root. */
  lemma {:induction false} RootReached(g: Graph, next: nat, b: nat, at: nat) returns (e: nat)
    requires Rooted(g, next) && b in g
    ensures Reaches(g, next, b, at, 0, e)
    decreases b
  {
    if b == 0 {
      e := at;
    } else {
      e := RootReached(g, next, g[b].parent.value.0, g[b].parent.value.1);
    }
  }

  lemma RootIsShared(g: Graph, next: nat, ba: nat, ea: nat, bb: nat, eb: nat, lineA: seq<(nat, nat)>,
                     line: seq<(nat, nat)>, held: map<nat, nat>)
    requires Rooted(g, next) && ba in g && bb in g
    requires IsLineage(g, next, ba, ea, lineA) && IsLineage(g, next, bb, eb, line)
    requires Holds(held, lineA)
    ensures exists j | 0 <= j < |line| :: line[j].0 in held
  {
    hide Reaches, Distinctly, IsLineage, Rooted, Chain;
    LineIs(g, next, ba, ea, lineA);
    LineIs(g, next, bb, eb, line);
    var e := RootReached(g, next, ba, ea);
    var f := RootReached(g, next, bb, eb);
    var p :| p in line && p.0 == 0;
    var j :| 0 <= j < |line| && line[j] == p;
    assert line[j].0 in held;
  }

  /** Among forks, what is reached is exactly what the chain lists. */
  lemma {:induction false} ChainIsReached(g: Graph, next: nat, b: nat, at: nat, x: nat, e: nat)
    requires Rooted(g, next) && b in g && ForksOnly(g)
    ensures Reaches(g, next, b, at, x, e) <==> (x, e) in Chain(g, next, b, at)
    decreases b
  {
    if g[b].parent.Some? {
      ChainIsReached(g, next, g[b].parent.value.0, g[b].parent.value.1, x, e);
    }
  }

  /** The rest of a chain is a chain of its own. */
  lemma {:induction false} ChainSuffix(g: Graph, next: nat, b: nat, at: nat, i: nat)
    requires Rooted(g, next) && b in g && i < |Chain(g, next, b, at)|
    ensures var line := Chain(g, next, b, at);
      line[i].0 in g && line[i..] == Chain(g, next, line[i].0, line[i].1)
    decreases b
  {
    var line := Chain(g, next, b, at);
    if i == 0 {
      assert line[0..] == line;
    } else {
      var (p, e) := g[b].parent.value;
      assert p in g && p < b;
      var rest := Chain(g, next, p, e);
      assert line == [(b, at)] + rest;
      hide Chain, Rooted;
      ChainSuffix(g, next, p, e, i - 1);
      assert line[i..] == rest[i - 1..];
    }
  }

  /** Past its own branch, a fork's history does not depend on how far it went. */
  lemma ForkedHistory(g: Graph, next: nat, b: nat, ed: nat, ed': nat, x: nat, e: nat)
    requires Rooted(g, next) && b in g && ForksOnly(g) && x != b && Reaches(g, next, b, ed, x, e)
    ensures Reaches(g, next, b, ed', x, e)
  {
  }

  lemma SharedIsGreatest(g: Graph, next: nat, ba: nat, ea: nat, bb: nat, eb: nat, lineA: seq<(nat, nat)>,
                         line: seq<(nat, nat)>,
                         held: map<nat, nat>, i: nat, x: nat, e: nat)
    requires Rooted(g, next) && ba in g && bb in g && ForksOnly(g)
    requires Ancestor(g, next, x, e, ba, ea) && Ancestor(g, next, x, e, bb, eb)
    requires lineA == Chain(g, next, ba, ea) && line == Chain(g, next, bb, eb)
    requires Distinctly(lineA)
    requires Holds(held, lineA)
    requires Distinctly(line) && i < |line| && line[i].0 in held && (forall j | 0 <= j < i :: line[j].0 !in held) &&
      line[i].0 in g
    ensures Ancestor(g, next, x, e, line[i].0, if held[line[i].0] < line[i].1 then held[line[i].0] else line[i].1)
  {
    hide Reaches, Chain, Distinctly, Rooted;
    var br, here := line[i].0, line[i].1;
    var least := if held[br] < here then held[br] else here;
    var f: nat :| Reaches(g, next, ba, ea, x, f) && e <= f;
    var h: nat :| Reaches(g, next, bb, eb, x, h) && e <= h;
    ChainIsReached(g, next, ba, ea, x, f);
    ChainIsReached(g, next, bb, eb, x, h);
    var j :| 0 <= j < |line| && line[j] == (x, h);
    assert x in held;
    if x == br {
      var k :| 0 <= k < |lineA| && lineA[k] == (x, f);
      var l :| 0 <= l < |lineA| && lineA[l] == (x, held[x]);
      SamePlace(lineA, k, l);
      SamePlace(line, i, j);
      ReachesSelf(g, next, br, least);
    } else {
      assert j >= i;
      ChainSuffix(g, next, bb, eb, i);
      assert line[i..][j - i] == (x, h);
      assert (x, h) in Chain(g, next, br, here);
      ChainIsReached(g, next, br, here, x, h);
      ForkedHistory(g, next, br, here, least, x, h);
    }
  }

  /** A point both points descend from. */
  ghost predicate SharedBy(g: Graph, next: nat, ba: nat, ea: nat, bb: nat, eb: nat, x: nat, e: nat)
    requires Rooted(g, next) && ba in g && bb in g
  {
    Ancestor(g, next, x, e, ba, ea) && Ancestor(g, next, x, e, bb, eb)
  }

  /** Every point both points descend from is an ancestor of this one. */
  ghost predicate LatestShared(g: Graph, next: nat, ba: nat, ea: nat, bb: nat, eb: nat, x: nat, e: nat)
    requires Rooted(g, next) && ba in g && bb in g && x in g
  {
    forall y, f: nat | SharedBy(g, next, ba, ea, bb, eb, y, f) :: Ancestor(g, next, y, f, x, e)
  }

  /** The first branch of one history that the other holds is where they coincided. */
  lemma Coincides(g: Graph, next: nat, ba: nat, ea: nat, bb: nat, eb: nat, lineA: seq<(nat, nat)>,
                  line: seq<(nat, nat)>, held: map<nat, nat>, i: nat)
    requires Rooted(g, next) && ba in g && bb in g
    requires IsLineage(g, next, ba, ea, lineA) && IsLineage(g, next, bb, eb, line)
    requires Holds(held, lineA)
    requires i < |line| && line[i].0 in held && (forall j | 0 <= j < i :: line[j].0 !in held)
    ensures var br, least := line[i].0, if held[line[i].0] < line[i].1 then held[line[i].0] else line[i].1;
      && br in g && SharedBy(g, next, ba, ea, bb, eb, br, least)
      && (ForksOnly(g) ==> LatestShared(g, next, ba, ea, bb, eb, br, least))
  {
    hide Reaches, Chain, Ancestor, ForksOnly, IsLineage, Distinctly, Covers, Rooted;
    var br, here := line[i].0, line[i].1;
    var least := if held[br] < here then held[br] else here;
    LineIs(g, next, ba, ea, lineA);
    LineIs(g, next, bb, eb, line);
    var k :| 0 <= k < |lineA| && lineA[k] == (br, held[br]);
    ReachesOlder(g, next, bb, eb, br, here);
    SharedPoint(g, next, ba, ea, br, held[br], least);
    SharedPoint(g, next, bb, eb, br, here, least);
    if ForksOnly(g) {
      forall x, e: nat | SharedBy(g, next, ba, ea, bb, eb, x, e) ensures Ancestor(g, next, x, e, br, least) {
        SharedIsGreatest(g, next, ba, ea, bb, eb, lineA, line, held, i, x, e);
      }
    }
  }

  lemma ReachesSelf(g: Graph, next: nat, b: nat, e: nat)
    requires Rooted(g, next) && b in g
    ensures Reaches(g, next, b, e, b, e)
  {
  }

  /** Where a point leads. The second parent goes on the stack first, so that the first
      is walked first. */
  function Onward(branch: Branch, ed: nat): seq<(nat, nat)> {
    (if branch.merged.Some? && ed >= branch.merged.value.2
      then [(branch.merged.value.0, branch.merged.value.1)] else [])
    + (if branch.parent.Some? then [branch.parent.value] else [])
  }

  /** The branches met so far, each once. */
  ghost predicate Listed(order: seq<nat>, best: map<nat, nat>) {
    && (forall x :: x in order <==> x in best)
    && (forall i, j | 0 <= i < j < |order| :: order[i] != order[j])
  }

  lemma ListedGrows(order: seq<nat>, best: map<nat, nat>, s: (nat, nat))
    requires Listed(order, best)
    ensures Listed(if s.0 in best then order else order + [s.0], best[s.0 := s.1])
  {
  }

  ghost predicate WalkOk(g: Graph, next: nat, b: nat, at: nat, order: seq<nat>, best: map<nat, nat>,
                         stack: seq<(nat, nat)>)
    requires Rooted(g, next) && b in g
  {
    && Known(g, stack) && (forall s <- stack :: Reaches(g, next, b, at, s.0, s.1))
    && (forall x | x in best :: x in g && Reaches(g, next, b, at, x, best[x]))
    && Listed(order, best) && Due(best, stack, b, at) && EdgesDue(g, best, stack)
  }

  lemma WalkStarts(g: Graph, next: nat, b: nat, at: nat)
    requires Rooted(g, next) && b in g
    ensures WalkOk(g, next, b, at, [], map[], [(b, at)]) && OneWalk(g, next, b, at, [], map[], [(b, at)])
  {
    assert [] + Chain(g, next, b, at) == Chain(g, next, b, at);
    assert (b, at) in [(b, at)];
  }

  lemma Popped(g: Graph, next: nat, b: nat, at: nat, order: seq<nat>, best: map<nat, nat>, stack: seq<(nat, nat)>)
    requires Rooted(g, next) && b in g && stack != [] && WalkOk(g, next, b, at, order, best, stack)
    ensures var s, rest := stack[|stack| - 1], stack[..|stack| - 1];
      && Known(g, stack) && s.0 in g && Known(g, rest)
      && StackWork(g, next, rest) < StackWork(g, next, stack)
      && Known(g, rest + Onward(g[s.0], s.1))
      && StackWork(g, next, rest + Onward(g[s.0], s.1)) < StackWork(g, next, stack)
    ensures forall x <- order :: x in best
  {
    hide Reaches, Due, EdgesDue, Work, Onward, Rooted;
    var s, rest := stack[|stack| - 1], stack[..|stack| - 1];
    assert s in stack && forall r <- rest :: r in stack;
    WorkPush(g, next, rest, s);
    assert rest + [s] == stack;
    OnwardWork(g, next, rest, s);
  }

  lemma OnwardWork(g: Graph, next: nat, rest: seq<(nat, nat)>, s: (nat, nat))
    requires Rooted(g, next) && Known(g, rest) && s.0 in g
    ensures Work(g, next, s.0) > 0
    ensures Known(g, rest + Onward(g[s.0], s.1)) &&
      StackWork(g, next, rest + Onward(g[s.0], s.1)) < StackWork(g, next, rest) + Work(g, next, s.0)
  {
    hide Work, StackWork, Known;
    WorkStep(g, next, s.0);
    var branch := g[s.0];
    var p := if branch.parent.Some? then [branch.parent.value] else [];
    if branch.merged.Some? && s.1 >= branch.merged.value.2 {
      var m := (branch.merged.value.0, branch.merged.value.1);
      WorkPush(g, next, rest, m);
      OnwardParent(g, next, rest + [m], branch);
      assert rest + Onward(branch, s.1) == rest + [m] + p;
    } else {
      OnwardParent(g, next, rest, branch);
      assert rest + Onward(branch, s.1) == rest + p;
    }
  }

  lemma OnwardParent(g: Graph, next: nat, rest: seq<(nat, nat)>, branch: Branch)
    requires Rooted(g, next) && Known(g, rest) && (branch.parent.Some? ==> branch.parent.value.0 in g)
    ensures var p := if branch.parent.Some? then [branch.parent.value] else [];
      Known(g, rest + p)
      && StackWork(g, next, rest + p)
         == StackWork(g, next, rest) + if p == [] then 0 else Work(g, next, branch.parent.value.0)
  {
    hide Work, StackWork;
    if branch.parent.Some? {
      WorkPush(g, next, rest, branch.parent.value);
    } else {
      assert rest + [] == rest;
    }
  }

  lemma WorkStep(g: Graph, next: nat, b: nat)
    requires Rooted(g, next) && b in g
    ensures Work(g, next, b) == 1 + (if g[b].parent.Some? then Work(g, next, g[b].parent.value.0) else 0)
                                  + (if g[b].merged.Some? then Work(g, next, g[b].merged.value.0) else 0)
  {
  }

  lemma WorkPush(g: Graph, next: nat, stack: seq<(nat, nat)>, s: (nat, nat))
    requires Rooted(g, next) && Known(g, stack) && s.0 in g
    ensures Known(g, stack + [s]) && StackWork(g, next, stack + [s]) == StackWork(g, next, stack) + Work(g, next, s.0)
  {
    assert (stack + [s])[..|stack|] == stack;
  }

  lemma SkipKeeps(g: Graph, next: nat, b: nat, at: nat, order: seq<nat>, best: map<nat, nat>, stack: seq<(nat, nat)>)
    requires Rooted(g, next) && b in g && stack != [] && WalkOk(g, next, b, at, order, best, stack)
    requires stack[|stack| - 1].0 in best && best[stack[|stack| - 1].0] >= stack[|stack| - 1].1
    ensures WalkOk(g, next, b, at, order, best, stack[..|stack| - 1])
    ensures ForksOnly(g) && OneWalk(g, next, b, at, order, best, stack) ==>
      OneWalk(g, next, b, at, order, best, stack[..|stack| - 1])
  {
    hide Reaches, Due, Rooted, Chain;
    var s, rest := stack[|stack| - 1], stack[..|stack| - 1];
    assert stack == rest + [s];
    forall x: nat, e: nat | Due(best, stack, x, e) ensures Due(best, rest, x, e) {
      DueMoves(best, stack, rest, s, best, rest, x, e);
    }
    assert s.0 in order;
  }

  lemma WalkKeeps(g: Graph, next: nat, b: nat, at: nat, order: seq<nat>, best: map<nat, nat>, stack: seq<(nat, nat)>)
    requires Rooted(g, next) && b in g && stack != [] && WalkOk(g, next, b, at, order, best, stack)
    requires !(stack[|stack| - 1].0 in best && best[stack[|stack| - 1].0] >= stack[|stack| - 1].1) &&
      stack[|stack| - 1].0 in g
    ensures var s, rest := stack[|stack| - 1], stack[..|stack| - 1];
      var order' := if s.0 in best then order else order + [s.0];
      WalkOk(g, next, b, at, order', best[s.0 := s.1], rest + Onward(g[s.0], s.1))
  {
    hide Reaches, Due, Chain, EdgesDue, Listed, Rooted, Onward;
    var s, rest := stack[|stack| - 1], stack[..|stack| - 1];
    assert stack == rest + [s] && s in stack;
    var best', stack' := best[s.0 := s.1], rest + Onward(g[s.0], s.1);
    ListedGrows(order, best, s);
    StackReached(g, next, b, at, stack, rest, s);
    forall x: nat, e: nat | Due(best, stack, x, e) ensures Due(best', stack', x, e) {
      DueMoves(best, stack, rest, s, best', stack', x, e);
    }
    forall r | r in stack' ensures Due(best', stack', r.0, r.1) {
      DueThere(best', stack', r);
    }
    EdgesKeep(g, next, best, stack, rest, s, best', stack');
  }

  lemma EdgesKeep(g: Graph, next: nat, best: map<nat, nat>, stack: seq<(nat, nat)>, rest: seq<(nat, nat)>,
                  s: (nat, nat),
                  best': map<nat, nat>, stack': seq<(nat, nat)>)
    requires Rooted(g, next) && s.0 in g && EdgesDue(g, best, stack)
    requires best' == best[s.0 := s.1] && stack' == rest + Onward(g[s.0], s.1)
    requires forall x: nat, e: nat | Due(best, stack, x, e) :: Due(best', stack', x, e)
    ensures EdgesDue(g, best', stack')
  {
    hide Due;
    NewEdges(g, next, best', stack', s, rest);
  }

  lemma ForkKeeps(g: Graph, next: nat, b: nat, at: nat, order: seq<nat>, best: map<nat, nat>, stack: seq<(nat, nat)>)
    requires Rooted(g, next) && b in g && stack != [] && stack[|stack| - 1].0 in g
    requires ForksOnly(g) && OneWalk(g, next, b, at, order, best, stack)
    ensures var s, rest := stack[|stack| - 1], stack[..|stack| - 1];
      OneWalk(g, next, b, at, if s.0 in best then order else order + [s.0], best[s.0 := s.1],
        rest + Onward(g[s.0], s.1))
  {
    hide Chain, Entries;
    var s, rest := stack[|stack| - 1], stack[..|stack| - 1];
    assert stack == [s] && rest + Onward(g[s.0], s.1) == Onward(g[s.0], s.1);
    OneMoreFork(g, next, b, at, order, best, s);
  }

  lemma StackReached(g: Graph, next: nat, b: nat, at: nat, stack: seq<(nat, nat)>, rest: seq<(nat, nat)>, s: (nat, nat))
    requires Rooted(g, next) && b in g && stack == rest + [s] && Known(g, stack) && s.0 in g
    requires forall r <- stack :: Reaches(g, next, b, at, r.0, r.1)
    ensures Known(g, rest + Onward(g[s.0], s.1)) && forall r <- rest + Onward(g[s.0], s.1) ::
      Reaches(g, next, b, at, r.0, r.1)
  {
    hide Reaches, Onward;
    assert s in stack;
    forall r | r in rest + Onward(g[s.0], s.1) ensures r.0 in g && Reaches(g, next, b, at, r.0, r.1) {
      if r in rest {
        assert r in stack;
      } else {
        OneStep(g, next, s.0, s.1, r);
        ReachesOn(g, next, b, at, s.0, s.1, r.0, r.1);
      }
    }
  }

  lemma DueThere(best: map<nat, nat>, stack: seq<(nat, nat)>, r: (nat, nat))
    requires r in stack
    ensures Due(best, stack, r.0, r.1)
  {
  }

  lemma OneStep(g: Graph, next: nat, b: nat, ed: nat, r: (nat, nat))
    requires Rooted(g, next) && b in g && r in Onward(g[b], ed)
    ensures r.0 in g && Reaches(g, next, b, ed, r.0, r.1)
  {
    assert r.0 in g && Reaches(g, next, r.0, r.1, r.0, r.1);
  }

  lemma NewEdges(g: Graph, next: nat, best: map<nat, nat>, stack: seq<(nat, nat)>, s: (nat, nat), rest: seq<(nat, nat)>)
    requires Rooted(g, next) && s.0 in g && s.0 in best && best[s.0] == s.1 && stack == rest + Onward(g[s.0], s.1)
    ensures g[s.0].parent.Some? ==> Due(best, stack, g[s.0].parent.value.0, g[s.0].parent.value.1)
    ensures g[s.0].merged.Some? && s.1 >= g[s.0].merged.value.2 ==>
      Due(best, stack, g[s.0].merged.value.0, g[s.0].merged.value.1)
  {
    var o := Onward(g[s.0], s.1);
    if g[s.0].parent.Some? {
      assert o[|o| - 1] == g[s.0].parent.value;
      assert stack[|stack| - 1] in stack;
    }
    if g[s.0].merged.Some? && s.1 >= g[s.0].merged.value.2 {
      assert o[0] == (g[s.0].merged.value.0, g[s.0].merged.value.1);
      assert stack[|rest|] in stack;
    }
  }

  lemma EntriesSnoc(order: seq<nat>, best: map<nat, nat>, x: nat, e: nat)
    requires (forall y <- order :: y in best) && x !in order
    ensures Entries(order + [x], best[x := e]) == Entries(order, best) + [(x, e)]
  {
  }

  lemma ChainStep(g: Graph, next: nat, b: nat, at: nat)
    requires Rooted(g, next) && b in g
    ensures Chain(g, next, b, at)
         == [(b, at)] + if g[b].parent.Some? then Chain(g, next, g[b].parent.value.0, g[b].parent.value.1) else []
  {
  }

  lemma OneMoreFork(g: Graph, next: nat, b: nat, at: nat, order: seq<nat>, best: map<nat, nat>, s: (nat, nat))
    requires Rooted(g, next) && b in g && s.0 in g && ForksOnly(g) && OneWalk(g, next, b, at, order, best, [s])
    ensures s.0 !in order && OneWalk(g, next, b, at, order + [s.0], best[s.0 := s.1], Onward(g[s.0], s.1))
  {
    hide Entries, Chain;
    assert [s][0] == s;
    assert s.0 !in order;
    ChainStep(g, next, s.0, s.1);
    EntriesSnoc(order, best, s.0, s.1);
    var c, on := Chain(g, next, s.0, s.1), Onward(g[s.0], s.1);
    if g[s.0].parent.Some? {
      var p := g[s.0].parent.value;
      assert on == [p] && p in on && on[0] == p;
      var rest := Chain(g, next, p.0, p.1);
      assert c == [s] + rest;
      assert Entries(order, best) + c == Entries(order, best) + [s] + rest;
    } else {
      assert on == [];
      assert c == [s];
    }
  }

  lemma WalkEnds(g: Graph, next: nat, b: nat, at: nat, order: seq<nat>, best: map<nat, nat>)
    requires Rooted(g, next) && b in g && WalkOk(g, next, b, at, order, best, [])
    requires ForksOnly(g) ==> OneWalk(g, next, b, at, order, best, [])
    ensures forall x <- order :: x in best
    ensures IsLineage(g, next, b, at, Entries(order, best))
  {
    hide Reaches, Chain, EdgesDue, Covers, ForksOnly;
    EntriesCover(g, next, b, at, order, best);
  }

  lemma EntriesCover(g: Graph, next: nat, b: nat, at: nat, order: seq<nat>, best: map<nat, nat>)
    requires Rooted(g, next) && b in g && WalkOk(g, next, b, at, order, best, [])
    ensures forall x <- order :: x in best
    ensures Covers(g, next, b, at, Entries(order, best))
  {
    hide Reaches, Chain, EdgesDue;
    var line := Entries(order, best);
    forall x, e: nat | Reaches(g, next, b, at, x, e) ensures exists p <- line :: p.0 == x && e <= p.1 {
      AllWalked(g, next, best, b, at, x, e);
      var i :| 0 <= i < |order| && order[i] == x;
      assert line[i] in line;
    }
  }

  /** In a graph of forks a walk holds one point at a time: what it has listed, and the
      chain still ahead of it. */
  ghost predicate OneWalk(g: Graph, next: nat, b: nat, at: nat, order: seq<nat>, best: map<nat, nat>,
                          stack: seq<(nat, nat)>)
    requires Rooted(g, next) && b in g
  {
    && |stack| <= 1 && (forall x <- order :: x in best) && (forall x | x in best :: x in order) && Known(g, stack)
    && (stack == [] ==> Entries(order, best) == Chain(g, next, b, at))
    && (stack != [] ==>
          stack[0] in stack && Entries(order, best) + Chain(g, next, stack[0].0, stack[0].1) == Chain(g, next, b, at))
    && (stack != [] ==> forall x <- order :: x > stack[0].0)
  }
}
