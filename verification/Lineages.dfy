/** The history index over the branch graph: history flows along ancestry, however the
    graph grows afterwards. */
module Lineages {
  import opened Values
  import opened Dags
  import opened Histories

  /** How history flows in a graph. A branch not made yet has only its own. */
  ghost function FlowOf(g: Graph, next: nat): (nat, nat, nat, nat) -> bool
    requires Rooted(g, next)
  {
    (ba: nat, ea: nat, bb: nat, eb: nat) => if bb in g then Ancestor(g, next, ba, ea, bb, eb) else ba == bb && ea <= eb
  }

  lemma GraphFlows(g: Graph, next: nat)
    requires Rooted(g, next)
    ensures Flows(FlowOf(g, next))
  {
    hide Rooted, Reaches;
    var f := FlowOf(g, next);
    forall b: nat, e: nat, e': nat | e <= e' ensures f(b, e, b, e') {
      if b in g {
        ReachesSelf(g, next, b, e');
      }
    }
    forall a: nat, ea: nat, b: nat, eb: nat, c: nat, ec: nat | f(a, ea, b, eb) && f(b, eb, c, ec)
      ensures f(a, ea, c, ec) {
      if c in g {
        var e: nat :| Reaches(g, next, c, ec, b, e) && eb <= e;
        ReachesOlder(g, next, c, ec, b, e);
        AncestorTransitive(g, next, a, ea, b, eb, c, ec);
      }
    }
  }

  /** A graph with every branch of another, as it was made. */
  ghost predicate Extends(g: Graph, later: Graph) {
    forall b | b in g :: b in later && later[b] == g[b]
  }

  /** New branches change nothing about the paths back from old ones. */
  lemma {:induction false} PathsStand(g: Graph, next: nat, later: Graph, next': nat, b: nat, ed: nat, x: nat, e: nat)
    requires Rooted(g, next) && Rooted(later, next') && Extends(g, later) && b in g
    ensures Reaches(later, next', b, ed, x, e) <==> Reaches(g, next, b, ed, x, e)
    decreases b
  {
    if g[b].parent.Some? {
      PathsStand(g, next, later, next', g[b].parent.value.0, g[b].parent.value.1, x, e);
    }
    if g[b].merged.Some? {
      PathsStand(g, next, later, next', g[b].merged.value.0, g[b].merged.value.1, x, e);
    }
  }

  /** A lineage walked in one graph says what flows into its point in every later one. */
  lemma LineageStands(g: Graph, next: nat, later: Graph, next': nat, b: nat, e: nat, line: seq<(nat, nat)>)
    requires Rooted(g, next) && Rooted(later, next') && Extends(g, later) && b in g
    requires IsLineage(g, next, b, e, line)
    ensures LineageOf(FlowOf(later, next'), line, b, e)
  {
    hide Rooted, Reaches, ForksOnly, Chain, Distinctly;
    var f := FlowOf(later, next');
    forall b': nat, e': nat ensures f(b', e', b, e) <==> exists p <- line :: p.0 == b' && e' <= p.1 {
      if f(b', e', b, e) {
        var x: nat :| Reaches(later, next', b, e, b', x) && e' <= x;
        PathsStand(g, next, later, next', b, e, b', x);
      }
      if p :| p in line && p.0 == b' && e' <= p.1 {
        PathsStand(g, next, later, next', b, e, p.0, p.1);
      }
    }
  }

  /** Indexes a version at its place in the graph. The index is kept over whatever the
      graph grows into. */
  method IndexOn(dag: Dag, history: History, h: Holder, root: Node, ghost later: Graph, ghost next': nat)
    returns (visited: nat)
    requires dag.Valid() && h.branch in dag.branches && history.Valid()
    requires Rooted(later, next') && Extends(dag.branches, later) && history.flow == FlowOf(later, next')
    modifies history`parents, history`holders, history`born
    ensures history.Valid() && history.holders == old(history.holders) + {(root, h)}
    ensures forall n: Node, o: int | Occurs(root, n, o) :: Visible(history.flow, history.born, n, h.branch, h.edition)
  {
    hide Extends, Rooted, IsLineage, Flows, Visible, Occurs;
    var line := dag.Lineage(h.branch, h.edition);
    LineageStands(dag.branches, dag.next, later, next', h.branch, h.edition, line);
    visited := history.IndexVersion(h, root, line);
  }
}
