/** The node store: frames under content keys, a root record, and the nodes held in
    memory, some of them known only by key until they are read. */
module Granfilades {
  import opened Values

  /** A content key. It closes over the frame, and so over the keys of everything the
      frame refers to: two keys are equal exactly when their frames are. */
  datatype Key = Key(payload: int, refs: seq<Key>)

  /** A node in memory: the key of its contents and whether that has been worked out,
      and, once read, the nodes its frame refers to. */
  datatype Cell = Cell(key: Key, memo: bool, resident: bool, kids: seq<nat>)

  /** A staged write: new frames, and the root record as of the stage. */
  datatype Staged = Staged(frames: seq<Key>, root: seq<Option<Key>>)

  function AsSet<T>(s: seq<T>): set<T> {
    set x | x in s
  }

  function RootKeys(root: seq<Option<Key>>): set<Key> {
    set r | r in root && r.Some? :: r.value
  }

  /** Whatever a stored frame refers to is stored. */
  ghost predicate Closed(s: set<Key>) {
    forall k, r | k in s && r in k.refs :: r in s
  }

  // ----- reachability -----

  /** Everything reached from `k` through the references of stored frames. */
  ghost function Below(frames: set<Key>, k: Key): set<Key>
    decreases k, 0
  {
    {k} + if k in frames then BelowAll(frames, k.refs) else {}
  }

  ghost function BelowAll(frames: set<Key>, ks: seq<Key>): set<Key>
    decreases ks, 1
  {
    if ks == [] then {} else BelowAll(frames, ks[..|ks| - 1]) + Below(frames, ks[|ks| - 1])
  }

  lemma {:induction false} BelowAllHas(frames: set<Key>, ks: seq<Key>, k: Key)
    requires k in ks
    ensures Below(frames, k) <= BelowAll(frames, ks)
    decreases |ks|
  {
    if k != ks[|ks| - 1] {
      BelowAllHas(frames, ks[..|ks| - 1], k);
    }
  }

  /** A set that holds `k` and follows stored references holds everything below. */
  lemma {:induction false} FollowedHolds(frames: set<Key>, s: set<Key>, k: Key)
    requires k in s && forall x, r | x in s && x in frames && r in x.refs :: r in s
    ensures Below(frames, k) <= s
    decreases k, 0
  {
    if k in frames {
      FollowedHoldsAll(frames, s, k.refs);
    }
  }

  lemma {:induction false} FollowedHoldsAll(frames: set<Key>, s: set<Key>, ks: seq<Key>)
    requires (forall k <- ks :: k in s) && forall x, r | x in s && x in frames && r in x.refs :: r in s
    ensures BelowAll(frames, ks) <= s
    decreases ks, 1
  {
    if ks != [] {
      assert ks[|ks| - 1] in ks;
      FollowedHolds(frames, s, ks[|ks| - 1]);
      FollowedHoldsAll(frames, s, ks[..|ks| - 1]);
    }
  }

  lemma {:induction false} BelowFollows(frames: set<Key>, k: Key, x: Key, r: Key)
    requires x in Below(frames, k) && x in frames && r in x.refs
    ensures r in Below(frames, k)
    decreases k, 0
  {
    if x == k {
      BelowAllHas(frames, k.refs, r);
    } else {
      BelowAllFollows(frames, k.refs, x, r);
    }
  }

  lemma {:induction false} BelowAllFollows(frames: set<Key>, ks: seq<Key>, x: Key, r: Key)
    requires x in BelowAll(frames, ks) && x in frames && r in x.refs
    ensures r in BelowAll(frames, ks)
    decreases ks, 1
  {
    var n := |ks| - 1;
    if x in Below(frames, ks[n]) {
      BelowFollows(frames, ks[n], x, r);
    } else {
      BelowAllFollows(frames, ks[..n], x, r);
    }
  }

  /** When stored frames refer only to stored ones, a stored key can be read to the
      bottom. */
  lemma ClosedIsReadable(frames: set<Key>, k: Key)
    requires Closed(frames) && k in frames
    ensures Below(frames, k) <= frames
  {
    FollowedHolds(frames, frames, k);
  }

  /** The mark walk: exactly what the roots reach, each frame followed once. */
  method Mark(frames: set<Key>, roots: seq<Key>) returns (marked: set<Key>)
    ensures marked == BelowAll(frames, roots)
  {
    ghost var all := BelowAll(frames, roots);
    forall k | k in roots ensures k in all {
      BelowAllHas(frames, roots, k);
    }
    forall x, r | x in all && x in frames && r in x.refs ensures r in all {
      BelowAllFollows(frames, roots, x, r);
    }
    var stack := roots;
    marked := {};
    while stack != []
      invariant marked <= all && forall k <- stack :: k in all
      invariant forall k <- roots :: k in marked || k in stack
      invariant forall x, r | x in marked && x in frames && r in x.refs :: r in marked || r in stack
      decreases |all - marked|, |stack|
    {
      var ck := stack[|stack| - 1];
      ghost var before := stack;
      stack := stack[..|stack| - 1];
      assert forall k <- before :: k == ck || k in stack;
      if ck in marked {
        continue;
      }
      assert all - (marked + {ck}) < all - marked;
      SmallerSet(all - (marked + {ck}), all - marked);
      marked := marked + {ck};
      if ck in frames {
        stack := stack + ck.refs;
      }
    }
    FollowedHoldsAll(frames, marked, roots);
  }

  lemma SmallerSet<T>(a: set<T>, b: set<T>)
    requires a < b
    ensures |a| < |b|
  {
    var x :| x in b && x !in a;
    assert a <= b - {x};
    SubsetSize(a, b - {x});
  }

  lemma {:induction false} SubsetSize<T>(a: set<T>, b: set<T>)
    requires a <= b
    ensures |a| <= |b|
  {
    if a != {} {
      var x :| x in a;
      SubsetSize(a - {x}, b - {x});
    }
  }

  /** `k` is the key of `top` or of something its frames refer to, however far down. */
  ghost predicate Under(k: Key, top: Key) {
    k == top || exists r <- top.refs :: Under(k, r)
  }

  // ----- the store -----

  /** A write may land: with what is already stored, nothing it names is missing. */
  ghost predicate Lands(frames: set<Key>, w: Staged) {
    Closed(frames + AsSet(w.frames)) && RootKeys(w.root) <= frames + AsSet(w.frames)
  }

  /** The frames of a run of writes. */
  function FramesOf(g: seq<Staged>): set<Key> {
    if g == [] then {} else FramesOf(g[..|g| - 1]) + AsSet(g[|g| - 1].frames)
  }

  lemma ClosedUnion(a: set<Key>, b: set<Key>)
    requires Closed(a) && Closed(b)
    ensures Closed(a + b)
  {
  }

  lemma {:induction false} GroupLands(frames: set<Key>, g: seq<Staged>)
    requires Closed(frames) && forall w <- g :: Lands(frames, w)
    ensures Closed(frames + FramesOf(g))
    ensures forall w <- g :: AsSet(w.frames) <= FramesOf(g)
  {
    if g == [] {
      assert frames + {} == frames;
    } else {
      var n := |g| - 1;
      assert g[n] in g;
      GroupLands(frames, g[..n]);
      ClosedUnion(frames + FramesOf(g[..n]), frames + AsSet(g[n].frames));
      assert frames + FramesOf(g) == (frames + FramesOf(g[..n])) + (frames + AsSet(g[n].frames));
    }
  }

  /** A node of memory agrees with its key: read, it has a node for each reference;
      unread, its frame is known to be stored and the collector knows of it. */
  ghost predicate CellOk(cells: map<nat, Cell>, present: set<Key>, remembered: seq<(Key, nat)>, id: nat)
    requires id in cells
  {
    var c := cells[id];
    if c.resident then
      |c.kids| == |c.key.refs| && forall i | 0 <= i < |c.kids| ::
        c.kids[i] in cells && cells[c.kids[i]].key == c.key.refs[i]
    else
      c.memo && c.key in present && (c.key, id) in remembered
  }

  ghost predicate CellsOk(cells: map<nat, Cell>, present: set<Key>, remembered: seq<(Key, nat)>, next: nat) {
    && (forall id | id in cells :: id < next && CellOk(cells, present, remembered, id))
    && (forall x | x in remembered :: x.1 < next && (x.1 in cells ==> cells[x.1].key == x.0))
  }

  function KeysOf(cells: map<nat, Cell>, kids: seq<nat>): (ks: seq<Key>)
    requires forall k <- kids :: k in cells
    ensures |ks| == |kids| && forall i | 0 <= i < |kids| :: ks[i] == cells[kids[i]].key
  {
    seq(|kids|, i requires 0 <= i < |kids| => cells[kids[i]].key)
  }

  lemma NewCellOk(cells: map<nat, Cell>, present: set<Key>, remembered: seq<(Key, nat)>, next: nat, c: Cell)
    requires CellsOk(cells, present, remembered, next)
    requires c.resident && (forall k <- c.kids :: k in cells) && KeysOf(cells, c.kids) == c.key.refs
    ensures next !in cells && CellsOk(cells[next := c], present, remembered, next + 1)
  {
    var cells' := cells[next := c];
    forall id | id in cells' ensures id < next + 1 && CellOk(cells', present, remembered, id) {
      if id != next {
        assert CellOk(cells, present, remembered, id);
      } else {
        assert forall i | 0 <= i < |c.kids| :: c.kids[i] in c.kids;
      }
    }
  }

  lemma StubOk(cells: map<nat, Cell>, present: set<Key>, remembered: seq<(Key, nat)>, next: nat, ck: Key)
    requires CellsOk(cells, present, remembered, next)
    ensures next !in cells
    ensures CellsOk(cells[next := Cell(ck, true, false, [])], present + {ck}, remembered + [(ck, next)], next + 1)
  {
    var cells', remembered' := cells[next := Cell(ck, true, false, [])], remembered + [(ck, next)];
    assert (ck, next) in remembered';
    forall id | id in cells' ensures id < next + 1 && CellOk(cells', present + {ck}, remembered', id) {
      if id != next {
        assert CellOk(cells, present, remembered, id);
      }
    }
  }

  lemma ChangedCellOk(cells: map<nat, Cell>, present: set<Key>, remembered: seq<(Key, nat)>, next: nat, id: nat,
                      c: Cell)
    requires CellsOk(cells, present, remembered, next) && id in cells && c.key == cells[id].key
    requires (c.resident && (forall k <- c.kids :: k in cells) && KeysOf(cells, c.kids) == c.key.refs) ||
      c == cells[id].(memo := true)
    ensures CellsOk(cells[id := c], present, remembered, next)
  {
    var cells' := cells[id := c];
    forall i | i in cells' ensures i < next && CellOk(cells', present, remembered, i) {
      assert CellOk(cells, present, remembered, i);
      if i == id && c != cells[id].(memo := true) {
        assert forall j | 0 <= j < |c.kids| :: c.kids[j] in c.kids;
      }
    }
  }

  lemma MoreKnown(cells: map<nat, Cell>, present: set<Key>, remembered: seq<(Key, nat)>, next: nat, present': set<Key>,
                  remembered': seq<(Key, nat)>)
    requires CellsOk(cells, present, remembered, next)
    requires forall id | id in cells && !cells[id].resident ::
      cells[id].key in present' && (cells[id].key, id) in remembered'
    requires forall x | x in remembered' :: x in remembered || (x.1 < next && (x.1 in cells ==> cells[x.1].key == x.0))
    ensures CellsOk(cells, present', remembered', next)
  {
    forall id | id in cells ensures id < next && CellOk(cells, present', remembered', id) {
      assert CellOk(cells, present, remembered, id);
    }
  }

  lemma CellIs(cells: map<nat, Cell>, present: set<Key>, remembered: seq<(Key, nat)>, next: nat, id: nat)
    requires CellsOk(cells, present, remembered, next) && id in cells
    ensures cells[id].resident ==>
      (forall k <- cells[id].kids :: k in cells) && KeysOf(cells, cells[id].kids) == cells[id].key.refs
    ensures !cells[id].resident ==> cells[id].memo && cells[id].key in present && (cells[id].key, id) in remembered
  {
    assert CellOk(cells, present, remembered, id);
  }

  /** What is on disk, what is known of it, and what waits to join it. */
  ghost predicate DiskOk(frames: set<Key>, root: seq<Option<Key>>, present: set<Key>, pending: seq<Staged>) {
    && Closed(frames) && present <= frames && RootKeys(root) <= frames
    && (forall w <- pending :: Lands(frames, w))
  }

  /** The same nodes, with some more keys worked out. */
  ghost predicate SameButMemos(a: map<nat, Cell>, b: map<nat, Cell>) {
    a.Keys == b.Keys && forall i | i in a :: b[i] == a[i] || b[i] == a[i].(memo := true)
  }

  class Granfilade {
    /** On disk: the keys frames are stored under, and the root record. */
    var frames: set<Key>
    var root: seq<Option<Key>>

    /** The keys known to be durable here. */
    var present: set<Key>

    /** Writes staged and not yet taken to disk, in staging order. */
    var pending: seq<Staged>

    /** The nodes held in memory, and a weak handle on every unread one handed out. */
    var cells: map<nat, Cell>
    var next: nat
    var remembered: seq<(Key, nat)>
    var pruneAt: nat

    ghost predicate Valid()
      reads this
    {
      DiskOk(frames, root, present, pending) && CellsOk(cells, present, remembered, next)
    }

    constructor ()
      ensures Valid() && frames == {} && root == [] && cells == map[]
    {
      frames, root, present, pending, cells, next, remembered, pruneAt := {}, [], {}, [], map[], 0, [], 1024;
    }

    /** Whatever memory still knows only by key can be read to the bottom. */
    lemma UnreadIsReadable(id: nat)
      requires Valid() && id in cells && !cells[id].resident
      ensures cells[id].key in frames && Below(frames, cells[id].key) <= frames
    {
      ClosedIsReadable(frames, cells[id].key);
    }

    /** Everything the root record reaches is stored. */
    lemma RootIsReadable(k: Key)
      requires Valid() && k in RootKeys(root)
      ensures Below(frames, k) <= frames
    {
      ClosedIsReadable(frames, k);
    }

    /** Everything beneath a key marked present is stored. */
    lemma PresentIsReadable(k: Key)
      requires Valid() && k in present
      ensures Below(frames, k) <= frames
    {
      ClosedIsReadable(frames, k);
    }

    /** A new node over nodes in memory; its key is not worked out yet. */
    method Build(payload: int, kids: seq<nat>) returns (id: nat)
      requires Valid() && forall k <- kids :: k in cells
      modifies this`cells, this`next
      ensures Valid() && id !in old(cells)
      ensures cells == old(cells)[id := Cell(Key(payload, KeysOf(old(cells), kids)), false, true, kids)]
    {
      id := next;
      var c := Cell(Key(payload, KeysOf(cells, kids)), false, true, kids);
      NewCellOk(cells, present, remembered, next, c);
      cells := cells[id := c];
      next := next + 1;
    }

    /** The new frames under a node, children first, and its key. A node whose key is
        worked out and present is passed over with everything beneath it; so nothing
        is ever read in to be written out. */
    method Collect(id: nat) returns (ck: Key, out: seq<Key>)
      requires Valid() && id in cells
      modifies this`cells
      ensures Valid() && ck == old(cells)[id].key && ck in frames + AsSet(out)
      ensures Closed(frames + AsSet(out))
      ensures SameButMemos(old(cells), cells)
      ensures forall k <- out :: Under(k, ck)
      ensures old(cells)[id].memo && ck in present ==> out == []
      decreases cells[id].key
    {
      hide CellsOk, DiskOk, Closed, Under, SameButMemos;
      SameSelf(cells);
      var c := cells[id];
      CellIs(cells, present, remembered, next, id);
      DiskIs(frames, root, present, pending);
      ck := c.key;
      out := [];
      assert frames + AsSet<Key>([]) == frames;
      if c.memo && ck in present {
        return;
      }
      ghost var was := cells;
      for i := 0 to |c.kids|
        invariant Valid() && SameButMemos(was, cells)
        invariant Closed(frames + AsSet(out))
        invariant forall j | 0 <= j < i :: ck.refs[j] in frames + AsSet(out)
        invariant forall k <- out :: Under(k, ck)
      {
        ghost var so, sc := out, cells;
        assert c.kids[i] in c.kids && ck.refs[i] in ck.refs;
        SameKeys(was, cells, c.kids[i]);
        assert cells[c.kids[i]].key == ck.refs[i];
        var _, more := Collect(c.kids[i]);
        out := out + more;
        ClosedUnion(frames + AsSet(so), frames + AsSet(more));
        assert frames + AsSet(out) == (frames + AsSet(so)) + (frames + AsSet(more));
        UnderMore(so, more, ck, ck.refs[i]);
        SameTwice(was, sc, cells);
      }
      UnderMore(out, [], ck, ck);
      SameKeys(was, cells, id);
      SameTwice(was, cells, cells[id := cells[id].(memo := true)]);
      ChangedCellOk(cells, present, remembered, next, id, cells[id].(memo := true));
      cells := cells[id := cells[id].(memo := true)];
      ClosedWith(frames + AsSet(out), ck);
      assert frames + AsSet(out + [ck]) == frames + AsSet(out) + {ck};
      out := out + [ck];
    }

    /** Stages the trees under `roots` as the new root record. */
    method Stage(roots: seq<Option<nat>>)
      requires Valid() && forall r <- roots :: r.Some? ==> r.value in cells
      modifies this`cells, this`pending
      ensures Valid() && SameButMemos(old(cells), cells)
      ensures |pending| == |old(pending)| + 1 && pending[..|old(pending)|] == old(pending)
      ensures var w := pending[|old(pending)|];
        |w.root| == |roots| && forall i | 0 <= i < |roots| ::
          w.root[i] == if roots[i].None? then None else Some(old(cells)[roots[i].value].key)
    {
      hide CellsOk, Closed, DiskOk, RootKeys, AsSet, Lands, SameButMemos;
      SameSelf(cells);
      var out: seq<Key>, slots: seq<Option<Key>> := [], [];
      ghost var was := cells;
      NothingNamed(frames);
      DiskIs(frames, root, present, pending);
      for i := 0 to |roots|
        invariant Valid() && SameButMemos(was, cells) && pending == old(pending)
        invariant Closed(frames + AsSet(out)) && RootKeys(slots) <= frames + AsSet(out)
        invariant |slots| == i
        invariant forall j | 0 <= j < i :: slots[j] == if roots[j].None? then None else Some(was[roots[j].value].key)
      {
        ghost var so, ss, sc := out, slots, cells;
        assert roots[i] in roots;
        if roots[i].None? {
          slots := slots + [None];
          NamedMore(frames, so, ss, [], None);
          assert so + [] == so;
        } else {
          SameKeys(was, cells, roots[i].value);
          var ck, more := Collect(roots[i].value);
          slots := slots + [Some(ck)];
          out := out + more;
          NamedMore(frames, so, ss, more, Some(ck));
          SameTwice(was, sc, cells);
        }
      }
      Queued(frames, root, present, pending, out, slots);
      pending := pending + [Staged(out, slots)];
    }

    /** The first `n` staged writes leave the queue for disk as one batch. Only once it
        is durable do their frames count as present; a write that fails may or may not
        have reached disk. */
    method WriteGroup(n: nat, ok: bool, reached: bool)
      requires Valid() && 0 < n <= |pending| && (ok ==> reached)
      modifies this`frames, this`root, this`present, this`pending
      ensures Valid() && pending == old(pending)[n..]
      ensures frames == if reached then old(frames) + FramesOf(old(pending)[..n]) else old(frames)
      ensures root == if reached then old(pending)[n - 1].root else old(root)
      ensures present == if ok then old(present) + FramesOf(old(pending)[..n]) else old(present)
    {
      hide CellsOk;
      var group := pending[..n];
      GroupLands(frames, group);
      pending := pending[n..];
      if reached {
        assert group[n - 1] in group;
        MoreLand(frames, pending, frames + FramesOf(group));
        frames := frames + FramesOf(group);
        root := group[n - 1].root;
      }
      if ok {
        UnreadKnown(cells, present, remembered, next, present + FramesOf(group), remembered);
        present := present + FramesOf(group);
      }
    }

    /** A node known by key alone, its frame durable; remembered so that the collector
        keeps the frame while it is unread. */
    method Stub(ck: Key) returns (id: nat)
      requires Valid() && ck in frames
      modifies this`present, this`cells, this`next, this`remembered, this`pruneAt
      ensures Valid() && id == old(next) && next == old(next) + 1
      ensures cells == old(cells)[id := Cell(ck, true, false, [])] && present == old(present) + {ck}
    {
      hide CellsOk, Closed, DiskOk;
      id := next;
      Marked(frames, root, present, pending, ck);
      present := present + {ck};
      StubOk(cells, old(present), remembered, next, ck);
      remembered := remembered + [(ck, id)];
      cells := cells[id := Cell(ck, true, false, [])];
      next := next + 1;
      if |remembered| >= pruneAt {
        UnreadKnown(cells, present, remembered, next, present, Unread(cells, remembered));
        remembered := Unread(cells, remembered);
        pruneAt := if |remembered| * 2 < 1024 then 1024 else |remembered| * 2;
      }
    }

    /** Reads the frame of `ck`: a node for each of its references, unread. */
    method ReadNode(ck: Key) returns (kids: seq<nat>)
      requires Valid() && ck in frames
      modifies this`present, this`cells, this`next, this`remembered, this`pruneAt
      ensures Valid() && old(next) <= next
      ensures (forall k <- kids :: k in cells) && KeysOf(cells, kids) == ck.refs
      ensures forall id | id in old(cells) :: id in cells && cells[id] == old(cells)[id]
      ensures forall id | id in cells && id !in old(cells) ::
        id >= old(next) && cells[id].memo && !cells[id].resident && cells[id].key in ck.refs
      ensures present == old(present) + AsSet(ck.refs)
    {
      hide CellsOk, DiskOk, Closed, Stubbed;
      DiskIs(frames, root, present, pending);
      RefsStored(frames, ck);
      kids := [];
      ghost var was, first := cells, next;
      NextIsNew(cells, present, remembered, next);
      NoneStubbed(was, first, ck.refs);
      for i := 0 to |ck.refs|
        invariant Valid() && first <= next && Stubbed(was, cells, first, ck.refs)
        invariant |kids| == i && forall j | 0 <= j < i :: kids[j] in cells && cells[kids[j]].key == ck.refs[j]
        invariant present == old(present) + AsSet(ck.refs[..i])
      {
        NextIsNew(cells, present, remembered, next);
        StubbedMore(was, cells, first, ck.refs, next, ck.refs[i]);
        var id := Stub(ck.refs[i]);
        kids := kids + [id];
        assert ck.refs[..i + 1] == ck.refs[..i] + [ck.refs[i]];
      }
      assert ck.refs[..|ck.refs|] == ck.refs;
      StubbedIs(was, cells, first, ck.refs);
    }

    /** The tree stored under `ck`, reading one frame; none if it is not stored. */
    method Load(ck: Key) returns (r: Option<nat>)
      requires Valid()
      modifies this`present, this`cells, this`next, this`remembered, this`pruneAt
      ensures Valid() && (r.Some? <==> ck in frames)
      ensures r.Some? ==>
        r.value in cells && r.value !in old(cells) && cells[r.value].key == ck && cells[r.value].resident
      ensures forall id | id in old(cells) :: id in cells && cells[id] == old(cells)[id]
    {
      hide AsSet;
      if ck !in frames {
        return None;
      }
      hide CellsOk, DiskOk, Closed;
      var kids := ReadNode(ck);
      Marked(frames, root, present, pending, ck);
      UnreadKnown(cells, present, remembered, next, present + {ck}, remembered);
      present := present + {ck};
      NewCellOk(cells, present, remembered, next, Cell(ck, true, true, kids));
      NextIsNew(cells, present, remembered, next);
      r := Some(next);
      cells := cells[next := Cell(ck, true, true, kids)];
      next := next + 1;
    }

    /** The first read of an unread node. Its frame is there to be read. */
    method PageIn(id: nat)
      requires Valid() && id in cells && !cells[id].resident
      modifies this`present, this`cells, this`next, this`remembered, this`pruneAt
      ensures Valid() && id in cells && cells[id].resident && cells[id].key == old(cells)[id].key
      ensures forall i | i in old(cells) && i != id :: i in cells && cells[i] == old(cells)[i]
    {
      hide CellsOk;
      var ck := cells[id].key;
      CellIs(cells, present, remembered, next, id);
      var kids := ReadNode(ck);
      ChangedCellOk(cells, present, remembered, next, id, Cell(ck, true, true, kids));
      cells := cells[id := Cell(ck, true, true, kids)];
    }

    /** Nodes no handle holds any more leave memory. */
    method Drop(gone: set<nat>)
      requires Valid()
      requires forall id | id in cells && id !in gone :: forall k <- cells[id].kids :: k !in gone
      modifies this`cells
      ensures Valid() && cells == old(cells) - gone
    {
      hide Closed;
      var left := cells - gone;
      forall id | id in left ensures id < next && CellOk(left, present, remembered, id) {
        assert CellOk(cells, present, remembered, id);
        assert forall i | 0 <= i < |cells[id].kids| :: cells[id].kids[i] in cells[id].kids;
      }
      cells := left;
    }

    /** Collects every frame reached neither from the root record nor from a node still
        unread in memory, and nothing else. Whatever is staged has landed first, and
        nothing is staged while it runs. */
    method Gc() returns (collected: nat)
      requires Valid() && pending == []
      modifies this`frames, this`present, this`remembered
      ensures Valid()
      ensures forall k :: k in frames <==> k in old(frames) && Live(old(frames), root, cells, k)
      ensures present == old(present) * frames
      ensures collected == |old(frames) - frames|
    {
      hide CellsOk, DiskOk, Closed, Below, BelowAll, Live, Slots, Firsts, Unread;
      UnreadKnown(cells, present, remembered, next, present, Unread(cells, remembered));
      remembered := Unread(cells, remembered);
      var roots := Slots(root) + Firsts(remembered);
      var marked := Mark(frames, roots);
      LiveIsMarked(frames, root, cells, present, remembered, next, roots);
      SweepKeeps(frames, root, cells, present, remembered, next, roots);
      var swept := frames - marked;
      assert pending == [];
      assert present - swept == present * (frames - swept) by {
        DiskIs(frames, root, present, pending);
      }
      assert frames - (frames - swept) == swept;
      frames := frames - swept;
      present := present - swept;
      collected := |swept|;
    }
  }

  /** The remembered entries whose node is still held and still unread. */
  function Unread(cells: map<nat, Cell>, remembered: seq<(Key, nat)>): (r: seq<(Key, nat)>)
    ensures forall x :: x in r <==> x in remembered && x.1 in cells && !cells[x.1].resident
  {
    if remembered == [] then [] else
    var n := |remembered| - 1;
    var x := remembered[n];
    assert remembered == remembered[..n] + [x];
    Unread(cells, remembered[..n]) + if x.1 in cells && !cells[x.1].resident then [x] else []
  }

  function Firsts(s: seq<(Key, nat)>): seq<Key> {
    if s == [] then [] else Firsts(s[..|s| - 1]) + [s[|s| - 1].0]
  }

  function Slots(root: seq<Option<Key>>): (r: seq<Key>)
    ensures forall k :: k in r <==> Some(k) in root
  {
    if root == [] then [] else
    var n := |root| - 1;
    assert root == root[..n] + [root[n]];
    var rest := Slots(root[..n]);
    match root[n] case None => rest case Some(k) => rest + [k]
  }

  /** Reached from the root record, or from a node still unread in memory. */
  ghost predicate Live(frames: set<Key>, root: seq<Option<Key>>, cells: map<nat, Cell>, k: Key) {
    || (exists r :: r in RootKeys(root) && k in Below(frames, r))
    || (exists id :: id in cells && !cells[id].resident && k in Below(frames, cells[id].key))
  }

  lemma {:induction false} FirstsHas(s: seq<(Key, nat)>, k: Key)
    ensures k in Firsts(s) <==> exists x :: x in s && x.0 == k
  {
    if s != [] {
      FirstsHas(s[..|s| - 1], k);
      assert s == s[..|s| - 1] + [s[|s| - 1]];
    }
  }

  lemma {:induction false} InBelowAll(frames: set<Key>, ks: seq<Key>, x: Key)
    ensures x in BelowAll(frames, ks) <==> exists k :: k in ks && x in Below(frames, k)
  {
    if ks != [] {
      var n := |ks| - 1;
      InBelowAll(frames, ks[..n], x);
      assert ks == ks[..n] + [ks[n]];
      if x in Below(frames, ks[n]) {
        assert ks[n] in ks;
      } else if x in BelowAll(frames, ks[..n]) {
        var k :| k in ks[..n] && x in Below(frames, k);
        assert k in ks;
      }
    }
  }

  /** The roots the collector gathers reach exactly what is live. */
  lemma LiveIsMarked(frames: set<Key>, root: seq<Option<Key>>, cells: map<nat, Cell>, present: set<Key>,
                     remembered: seq<(Key, nat)>, next: nat, roots: seq<Key>)
    requires CellsOk(cells, present, remembered, next)
    requires forall x <- remembered :: x.1 in cells && !cells[x.1].resident
    requires roots == Slots(root) + Firsts(remembered)
    ensures forall k :: k in BelowAll(frames, roots) <==> Live(frames, root, cells, k)
    ensures forall k <- RootKeys(root) :: k in roots
    ensures forall id | id in cells && !cells[id].resident :: cells[id].key in roots
  {
    hide Below, BelowAll, CellsOk, Firsts;
    forall r ensures r in roots <==>
      r in RootKeys(root) || exists id :: id in cells && !cells[id].resident && cells[id].key == r {
      assert r in RootKeys(root) <==> Some(r) in root;
      FirstsHas(remembered, r);
      if x :| x in remembered && x.0 == r {
        RememberedIs(cells, present, remembered, next, x);
      }
      if id :| id in cells && !cells[id].resident && cells[id].key == r {
        CellIs(cells, present, remembered, next, id);
      }
    }
    forall k ensures k in BelowAll(frames, roots) <==> Live(frames, root, cells, k) {
      InBelowAll(frames, roots, k);
      if r :| r in roots && k in Below(frames, r) && r !in RootKeys(root) {
        var id :| id in cells && !cells[id].resident && cells[id].key == r;
      }
    }
  }

  lemma RememberedIs(cells: map<nat, Cell>, present: set<Key>, remembered: seq<(Key, nat)>, next: nat, x: (Key, nat))
    requires CellsOk(cells, present, remembered, next) && x in remembered
    ensures x.1 in cells ==> cells[x.1].key == x.0
  {
  }

  /** What is left after a sweep is as sound as what was there. */
  lemma SweepKeeps(frames: set<Key>, root: seq<Option<Key>>, cells: map<nat, Cell>, present: set<Key>,
                   remembered: seq<(Key, nat)>, next: nat, roots: seq<Key>)
    requires DiskOk(frames, root, present, []) && CellsOk(cells, present, remembered, next)
    requires forall k <- RootKeys(root) :: k in roots
    requires forall id | id in cells && !cells[id].resident :: cells[id].key in roots
    ensures var swept := frames - BelowAll(frames, roots);
      DiskOk(frames - swept, root, present - swept, []) && CellsOk(cells, present - swept, remembered, next)
  {
    hide Below, BelowAll, CellOk;
    var marked := BelowAll(frames, roots);
    var swept := frames - marked;
    forall k | k in roots ensures k in marked {
      BelowAllHas(frames, roots, k);
      BelowSelf(frames, k);
    }
    forall k, r | k in frames - swept && r in k.refs ensures r in frames - swept {
      BelowAllFollows(frames, roots, k, r);
    }
    forall id | id in cells && !cells[id].resident
      ensures cells[id].key in present - swept && (cells[id].key, id) in remembered
    {
      CellIs(cells, present, remembered, next, id);
    }
    MoreKnown(cells, present, remembered, next, present - swept, remembered);
  }

  lemma BelowSelf(frames: set<Key>, k: Key)
    ensures k in Below(frames, k)
  {
  }

  lemma NextIsNew(cells: map<nat, Cell>, present: set<Key>, remembered: seq<(Key, nat)>, next: nat)
    requires CellsOk(cells, present, remembered, next)
    ensures forall id | id in cells :: id < next
  {
  }

  /** More may be known, and less remembered, so long as every unread node is. */
  lemma UnreadKnown(cells: map<nat, Cell>, present: set<Key>, remembered: seq<(Key, nat)>, next: nat,
                    present': set<Key>, remembered': seq<(Key, nat)>)
    requires CellsOk(cells, present, remembered, next) && present <= present'
    requires forall x | x in remembered && x.1 in cells && !cells[x.1].resident :: x in remembered'
    requires forall x | x in remembered' :: x in remembered || (x.1 < next && (x.1 in cells ==> cells[x.1].key == x.0))
    ensures CellsOk(cells, present', remembered', next)
  {
    forall id | id in cells && !cells[id].resident
      ensures cells[id].key in present' && (cells[id].key, id) in remembered' {
      CellIs(cells, present, remembered, next, id);
    }
    MoreKnown(cells, present, remembered, next, present', remembered');
  }

  lemma MoreLand(frames: set<Key>, ws: seq<Staged>, frames': set<Key>)
    requires (forall w <- ws :: Lands(frames, w)) && frames <= frames' && Closed(frames')
    ensures forall w <- ws :: Lands(frames', w)
  {
    forall w | w in ws ensures Lands(frames', w) {
      ClosedUnion(frames', frames + AsSet(w.frames));
      assert frames' + AsSet(w.frames) == frames' + (frames + AsSet(w.frames));
    }
  }

  lemma DiskIs(frames: set<Key>, root: seq<Option<Key>>, present: set<Key>, pending: seq<Staged>)
    requires DiskOk(frames, root, present, pending)
    ensures Closed(frames) && present <= frames
  {
  }

  lemma UnderMore(out: seq<Key>, more: seq<Key>, top: Key, r: Key)
    requires (forall k <- out :: Under(k, top)) && (forall k <- more :: Under(k, r)) && (r in top.refs || more == [])
    ensures forall k <- out + more :: Under(k, top)
    ensures Under(top, top)
  {
  }

  lemma SameSelf(a: map<nat, Cell>)
    ensures SameButMemos(a, a)
  {
  }

  lemma SameKeys(a: map<nat, Cell>, b: map<nat, Cell>, id: nat)
    requires SameButMemos(a, b) && id in a
    ensures id in b && b[id].key == a[id].key
    ensures SameButMemos(b, b[id := b[id].(memo := true)])
  {
  }

  lemma SameTwice(a: map<nat, Cell>, b: map<nat, Cell>, c: map<nat, Cell>)
    requires SameButMemos(a, b)
    ensures SameButMemos(b, c) ==> SameButMemos(a, c)
  {
  }

  lemma RefsStored(frames: set<Key>, ck: Key)
    requires Closed(frames) && ck in frames
    ensures forall i | 0 <= i < |ck.refs| :: ck.refs[i] in frames
  {
  }

  lemma NothingNamed(frames: set<Key>)
    ensures frames + AsSet<Key>([]) == frames && RootKeys([]) == {}
  {
  }

  /** A root more, and the frames collected for it. */
  lemma NamedMore(frames: set<Key>, out: seq<Key>, slots: seq<Option<Key>>, more: seq<Key>, slot: Option<Key>)
    requires Closed(frames + AsSet(out)) && RootKeys(slots) <= frames + AsSet(out)
    requires slot.Some? ==> slot.value in frames + AsSet(more) && Closed(frames + AsSet(more))
    requires slot.None? ==> more == []
    ensures Closed(frames + AsSet(out + more)) && RootKeys(slots + [slot]) <= frames + AsSet(out + more)
  {
    hide Closed;
    assert frames + AsSet(out + more) == (frames + AsSet(out)) + (frames + AsSet(more));
    if slot.Some? {
      ClosedUnion(frames + AsSet(out), frames + AsSet(more));
    } else {
      assert out + more == out;
    }
  }

  lemma Queued(frames: set<Key>, root: seq<Option<Key>>, present: set<Key>, pending: seq<Staged>, out: seq<Key>,
               slots: seq<Option<Key>>)
    requires DiskOk(frames, root, present, pending)
    requires Closed(frames + AsSet(out)) && RootKeys(slots) <= frames + AsSet(out)
    ensures DiskOk(frames, root, present, pending + [Staged(out, slots)])
  {
    hide Closed, RootKeys;
    assert Lands(frames, Staged(out, slots));
  }

  /** Cells added from `first` on, each unread and naming one of `refs`; the others as they were. */
  ghost predicate Stubbed(was: map<nat, Cell>, cells: map<nat, Cell>, first: nat, refs: seq<Key>) {
    && (forall id | id in was :: id in cells && cells[id] == was[id])
    && forall id | id in cells && id !in was ::
         id >= first && cells[id].memo && !cells[id].resident && cells[id].key in refs
  }

  lemma NoneStubbed(was: map<nat, Cell>, first: nat, refs: seq<Key>)
    ensures Stubbed(was, was, first, refs)
  {
  }

  lemma StubbedMore(was: map<nat, Cell>, cells: map<nat, Cell>, first: nat, refs: seq<Key>, id: nat, ck: Key)
    requires Stubbed(was, cells, first, refs) && id !in cells && id >= first && ck in refs
    ensures Stubbed(was, cells[id := Cell(ck, true, false, [])], first, refs)
  {
  }

  lemma StubbedIs(was: map<nat, Cell>, cells: map<nat, Cell>, first: nat, refs: seq<Key>)
    requires Stubbed(was, cells, first, refs)
    ensures forall id | id in was :: id in cells && cells[id] == was[id]
    ensures forall id | id in cells && id !in was ::
      id >= first && cells[id].memo && !cells[id].resident && cells[id].key in refs
  {
  }

  lemma Marked(frames: set<Key>, root: seq<Option<Key>>, present: set<Key>, pending: seq<Staged>, ck: Key)
    requires DiskOk(frames, root, present, pending) && ck in frames
    ensures DiskOk(frames, root, present + {ck}, pending)
  {
  }

  lemma ClosedWith(s: set<Key>, k: Key)
    requires Closed(s) && forall i | 0 <= i < |k.refs| :: k.refs[i] in s
    ensures Closed(s + {k})
  {
  }
}
