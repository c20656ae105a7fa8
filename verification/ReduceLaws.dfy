/** The per-group aggregate delta: re-folding only the groups a changed row falls
    in gives the same delta as re-folding everything at both ends. */
module ReduceLaws {
  import opened Values
  import opened Multisets
  import opened Plans
  import opened Traces
  import opened Deltas
  import opened LinearLaws
  import opened Operators

  // ----- row-wise inputs -----

  /** The arity rows leave a stack of steps with, once something has projected them. */
  function Width(steps: seq<Step>): Option<nat> {
    if steps == [] then None else
    match steps[|steps| - 1]
    case Filtered(_) => Width(steps[..|steps| - 1])
    case Projected(cols) => Some(|cols|)
  }

  /** No projection names a column that the projection beneath it removed. */
  predicate StepsFit(steps: seq<Step>) {
    steps == [] ||
    (StepsFit(steps[..|steps| - 1]) &&
     match steps[|steps| - 1]
     case Filtered(_) => true
     case Projected(cols) =>
       match Width(steps[..|steps| - 1])
       case None => true
       case Some(w) => forall c <- cols :: c < w)
  }

  lemma {:induction false} ThroughWidth(steps: seq<Step>, t: Tuple)
    requires Through(steps, t).Row?
    ensures match Width(steps) case None => Through(steps, t).t == t case Some(w) => |Through(steps, t).t| == w
  {
    if steps != [] {
      ThroughWidth(steps[..|steps| - 1], t);
    }
  }

  lemma {:induction false} ThroughSource(steps: seq<Step>, t: Tuple, c: nat)
    requires Through(steps, t).Row? && c < |Through(steps, t).t| && Source(steps, c).Some?
    ensures Source(steps, c).value < |t| && Through(steps, t).t[c] == t[Source(steps, c).value]
  {
    if steps != [] {
      var init := steps[..|steps| - 1];
      match steps[|steps| - 1] {
        case Filtered(_) => ThroughSource(init, t, c);
        case Projected(cols) => ThroughSource(init, t, cols[c]);
      }
    }
  }

  lemma ImageSame(m: Multiset, g: Tuple -> Option<Tuple>, h: Tuple -> Option<Tuple>)
    requires forall x <- m :: g(x) == h(x)
    ensures Image(m, g) == Image(m, h)
  {
    SpreadAgree(m, Single(g), Single(h));
  }

  /** A row that only itself can become keeps its weight. */
  lemma ImageFixed(m: Multiset, g: Tuple -> Option<Tuple>, t: Tuple)
    requires g(t) == Some(t) && forall x :: g(x) == Some(t) ==> x == t
    ensures W(Image(m, g), t) == W(m, t)
  {
    var one := One(t, W(m, t));
    ImageAgree(m, one, g, t);
    ImageOne(t, W(m, t), g);
  }

  lemma BaseMeaning(q: Query, base: BaseRel, db: Db, recur: Multiset)
    requires BaseOf(q) == Some(base)
    ensures Eval(q, db, recur) == Some(Keep(Read(db, base.rel), t => Admits(base, t)))
    ensures RelsOf(q) == {base.rel}
  {
    match q {
      case Shared(a) => BaseMeaning(a, base, db, recur);
      case Rel(r) => SameWeights(Read(db, r), Keep(Read(db, r), t => Admits(base, t)));
      case RangeRel(r, lo, hi) =>
        SameWeights(Keep(Read(db, r), t => InRange(t, lo, hi)), Keep(Read(db, r), t => Admits(base, t)));
      case RangeRelOn(r, col, lo, hi) =>
        SameWeights(Keep(Read(db, r), t => InColumnRange(t, col, lo, hi)), Keep(Read(db, r), t => Admits(base, t)));
    }
  }

  lemma StepImager(base: BaseRel, init: seq<Step>, last: Step, x: Tuple)
    ensures var inner, outer := Imager(Rows(base, init))(x), Imager(Rows(base, init + [last]))(x);
      outer == match inner
               case None => None
               case Some(y) =>
                 match last case Filtered(pred) => Sifter(pred)(y) case Projected(cols) => Projector(cols)(y)
  {
    var steps := init + [last];
    assert steps[..|steps| - 1] == init;
  }

  /** A query of this shape is its base relation with each row replaced by its image. */
  lemma {:induction false} RowsMeaning(q: Query, rows: Rows, db: Db, recur: Multiset)
    requires RowsOf(q) == Some(rows) && Eval(q, db, recur).Some?
    ensures Eval(q, db, recur).value == Image(Read(db, rows.base.rel), Imager(rows))
    ensures StepsFit(rows.steps) ==> ImagesReturn(rows, Read(db, rows.base.rel).Keys)
    ensures rows.base.rel in RelsOf(q)
  {
    hide Image, Imager, Keep, StepsFit, ImagesReturn, BaseOf, Read;
    match q {
      case Shared(a) =>
        RowsMeaning(a, rows, db, recur);
      case Filter(a, pred) =>
        RowsMeaning(a, RowsOf(a).value, db, recur);
        FilterMeaning(a, pred, RowsOf(a).value, rows, db, recur);
      case Project(a, cols) =>
        RowsMeaning(a, RowsOf(a).value, db, recur);
        ProjectMeaning(a, cols, RowsOf(a).value, rows, db, recur);
      case _ =>
        WholeMeaning(q, rows, db, recur);
    }
  }

  lemma WholeMeaning(q: Query, rows: Rows, db: Db, recur: Multiset)
    requires BaseOf(q) == Some(rows.base) && rows.steps == []
    ensures Eval(q, db, recur).Some? && Eval(q, db, recur).value == Image(Read(db, rows.base.rel), Imager(rows))
    ensures ImagesReturn(rows, Read(db, rows.base.rel).Keys) && rows.base.rel in RelsOf(q)
  {
    hide Image, Keep, Eval;
    var b := Read(db, rows.base.rel);
    BaseMeaning(q, rows.base, db, recur);
    KeepIsImage(b, t => Admits(rows.base, t));
    ImageSame(b, Sifter(t => Admits(rows.base, t)), Imager(rows));
  }

  lemma FilterMeaning(a: Query, pred: Tuple -> bool, inner: Rows, rows: Rows, db: Db, recur: Multiset)
    requires RowsOf(a) == Some(inner) && RowsOf(Filter(a, pred)) == Some(rows) && Eval(a, db, recur).Some?
    requires Eval(a, db, recur).value == Image(Read(db, inner.base.rel), Imager(inner))
    requires StepsFit(inner.steps) ==> ImagesReturn(inner, Read(db, inner.base.rel).Keys)
    ensures Eval(Filter(a, pred), db, recur).value == Image(Read(db, rows.base.rel), Imager(rows))
    ensures StepsFit(rows.steps) ==> ImagesReturn(rows, Read(db, rows.base.rel).Keys)
  {
    hide Image, Keep, Imager;
    KeepIsImage(Eval(a, db, recur).value, pred);
    StepMeaning(Read(db, rows.base.rel), inner, rows, Filtered(pred), Sifter(pred));
    assert rows.steps[..|rows.steps| - 1] == inner.steps;
  }

  lemma ProjectMeaning(a: Query, cols: seq<nat>, inner: Rows, rows: Rows, db: Db, recur: Multiset)
    requires RowsOf(a) == Some(inner) && RowsOf(Project(a, cols)) == Some(rows) &&
      Eval(Project(a, cols), db, recur).Some?
    requires Eval(a, db, recur).value == Image(Read(db, inner.base.rel), Imager(inner))
    requires StepsFit(inner.steps) ==> ImagesReturn(inner, Read(db, inner.base.rel).Keys)
    ensures Eval(Project(a, cols), db, recur).value == Image(Read(db, rows.base.rel), Imager(rows))
    ensures StepsFit(rows.steps) ==> ImagesReturn(rows, Read(db, rows.base.rel).Keys)
  {
    hide Image, Imager;
    var b := Read(db, rows.base.rel);
    StepMeaning(b, inner, rows, Projected(cols), Projector(cols));
    assert rows.steps[..|rows.steps| - 1] == inner.steps;
    if StepsFit(rows.steps) {
      assert ImagesReturn(inner, b.Keys);
      forall t | t in b.Keys ensures !ImageOf(rows, t).TooShort? {
        ProjectReturns(inner, cols, b, Eval(a, db, recur).value, t);
      }
    }
  }

  /** One more step takes the images through one more image. */
  lemma StepMeaning(b: Multiset, inner: Rows, rows: Rows, step: Step, g: Tuple -> Option<Tuple>)
    requires rows == Rows(inner.base, inner.steps + [step])
    requires g == match step case Filtered(pred) => Sifter(pred) case Projected(cols) => Projector(cols)
    ensures Image(Image(b, Imager(inner)), g) == Image(b, Imager(rows))
  {
    hide Image;
    forall x ensures Imager(rows)(x) == match Imager(inner)(x) case None => None case Some(y) => g(y) {
      StepImager(inner.base, inner.steps, step, x);
    }
    ImageCompose(b, Imager(inner), g, Imager(rows));
  }

  lemma WideEnough(t: Tuple, cols: seq<nat>)
    requires forall c <- cols :: c < |t|
    ensures Cells(t, cols).Some?
  {
    assert forall i | 0 <= i < |cols| :: cols[i] in cols;
  }

  lemma ProjectReturns(inner: Rows, cols: seq<nat>, b: Multiset, m: Multiset, t: Tuple)
    requires t in b && m == Image(b, Imager(inner)) && AllFit(m, cols)
    requires !ImageOf(inner, t).TooShort?
    requires match Width(inner.steps) case None => true case Some(w) => forall c <- cols :: c < w
    ensures !ImageOf(Rows(inner.base, inner.steps + [Projected(cols)]), t).TooShort?
  {
    hide Image;
    hide Cells;
    hide Width;
    var steps := inner.steps + [Projected(cols)];
    assert steps[..|steps| - 1] == inner.steps;
    if ImageOf(inner, t).Row? {
      ThroughWidth(inner.steps, t);
      if Width(inner.steps).None? {
        forall x | Imager(inner)(x) == Some(t) ensures x == t {
          ThroughWidth(inner.steps, x);
        }
        ImageFixed(b, Imager(inner), t);
        assert t in m;
      } else {
        WideEnough(ImageOf(inner, t).t, cols);
      }
    }
  }

  // ----- which rows are present is all that counts -----

  lemma PresentParts(m: map<Tuple, int>, key: seq<nat>)
    ensures Groups(m, key) == set t | t in Present(m) && Cells(t, key).Some? :: Cells(t, key).value
    ensures forall g :: Members(m, key, g) == set t | t in Present(m) && Cells(t, key) == Some(g)
  {
    assert forall t :: t in m && m[t] > 0 <==> t in Present(m);
  }

  lemma PresenceDecides(a: map<Tuple, int>, b: map<Tuple, int>, key: seq<nat>, agg: Agg)
    requires Present(a) == Present(b)
    ensures ReduceOf(a, key, agg) == ReduceOf(b, key, agg)
    ensures ReduceFits(a, key, agg) <==> ReduceFits(b, key, agg)
  {
    PresentParts(a, key);
    PresentParts(b, key);
    PresentFits(a, key, agg);
    PresentFits(b, key, agg);
    SameGroups(a, b, key, agg);
  }

  lemma PresentFits(m: map<Tuple, int>, key: seq<nat>, agg: Agg)
    ensures ReduceFits(m, key, agg) <==> forall t <- Present(m) :: Cells(t, key).Some? && AggFits(agg, t)
  {
    assert forall t :: t in m && m[t] > 0 <==> t in Present(m);
  }

  lemma SameGroups(a: map<Tuple, int>, b: map<Tuple, int>, key: seq<nat>, agg: Agg)
    requires Groups(a, key) == Groups(b, key)
    requires forall g :: Members(a, key, g) == Members(b, key, g)
    ensures ReduceOf(a, key, agg) == ReduceOf(b, key, agg)
  {
    hide AggOf;
    hide Groups;
    hide Members;
    assert forall g :: GroupRow(a, key, agg, g) == GroupRow(b, key, agg, g);
  }

  lemma {:induction false} StripMeaning(q: Query, db: Db, recur: Multiset)
    requires Eval(q, db, recur).Some?
    ensures Eval(Strip(q), db, recur).Some?
    ensures Present(Eval(Strip(q), db, recur).value) == Present(Eval(q, db, recur).value)
    ensures RelsOf(Strip(q)) == RelsOf(q)
  {
    match q {
      case Shared(a) => StripMeaning(a, db, recur);
      case Distinct(a) =>
        StripMeaning(a, db, recur);
        var m := Eval(a, db, recur).value;
        assert forall t :: W(DistinctOf(m), t) > 0 <==> W(m, t) > 0;
      case _ =>
    }
  }

  // ----- only the changed groups move -----

  /** `r` is the output row of group `g`. */
  lemma ReduceWeight(m: map<Tuple, int>, key: seq<nat>, agg: Agg, r: Tuple)
    ensures W(ReduceOf(m, key, agg), r) ==
      if r != [] && r[..|r| - 1] in Groups(m, key) && r[|r| - 1] == AggOf(Members(m, key, r[..|r| - 1]), agg)
        then 1 else 0
  {
    hide AggOf;
    if r != [] {
      var g := r[..|r| - 1];
      assert r == g + [r[|r| - 1]];
    }
    if r in ReduceOf(m, key, agg) {
      var g :| g in Groups(m, key) && r == GroupRow(m, key, agg, g);
      assert r[..|r| - 1] == g;
    }
  }

  lemma GroupsKept(m: Multiset, groups: set<Tuple>, key: seq<nat>, g: Tuple)
    ensures g in groups ==> Members(Keep(m, InGroups(groups, key)), key, g) == Members(m, key, g)
    ensures g in Groups(Keep(m, InGroups(groups, key)), key) <==> g in groups && g in Groups(m, key)
  {
    var k := Keep(m, InGroups(groups, key));
    assert forall t :: t in k && k[t] > 0 <==> t in m && m[t] > 0 && InGroups(groups, key)(t);
    if g in groups {
      forall t ensures t in Members(k, key, g) <==> t in Members(m, key, g) {
      }
    }
  }

  lemma SameGroup(m0: Multiset, m1: Multiset, key: seq<nat>, g: Tuple)
    requires forall t :: Cells(t, key) == Some(g) ==> W(m0, t) == W(m1, t)
    ensures Members(m0, key, g) == Members(m1, key, g)
    ensures g in Groups(m0, key) <==> g in Groups(m1, key)
  {
    forall t ensures t in Members(m0, key, g) <==> t in Members(m1, key, g) {
      if Cells(t, key) == Some(g) {
        assert W(m0, t) == W(m1, t);
      }
    }
    GroupHasMember(m0, key, g);
    GroupHasMember(m1, key, g);
  }

  lemma GroupHasMember(m: Multiset, key: seq<nat>, g: Tuple)
    ensures g in Groups(m, key) <==> Members(m, key, g) != {}
  {
    if g in Groups(m, key) {
      var t :| t in m && m[t] > 0 && Cells(t, key) == Some(g);
      assert t in Members(m, key, g);
    }
    if Members(m, key, g) != {} {
      var t :| t in Members(m, key, g);
    }
  }

  /** If two inputs differ only within `groups`, folding just those groups at both
      ends gives the whole delta. */
  lemma OnlyChangedGroups(m0: Multiset, m1: Multiset, groups: set<Tuple>, key: seq<nat>, agg: Agg)
    requires forall t :: !InGroups(groups, key)(t) ==> W(m0, t) == W(m1, t)
    ensures Minus(ReduceOf(Keep(m1, InGroups(groups, key)), key, agg),
      ReduceOf(Keep(m0, InGroups(groups, key)), key, agg))
         == Minus(ReduceOf(m1, key, agg), ReduceOf(m0, key, agg))
  {
    hide AggOf;
    hide ReduceOf;
    var k0, k1 := Keep(m0, InGroups(groups, key)), Keep(m1, InGroups(groups, key));
    forall r ensures W(ReduceOf(k1, key, agg), r) - W(ReduceOf(k0, key, agg), r) ==
      W(ReduceOf(m1, key, agg), r) - W(ReduceOf(m0, key, agg), r) {
      ReduceWeight(k0, key, agg, r);
      ReduceWeight(k1, key, agg, r);
      ReduceWeight(m0, key, agg, r);
      ReduceWeight(m1, key, agg, r);
      if r != [] {
        var g := r[..|r| - 1];
        GroupsKept(m0, groups, key, g);
        GroupsKept(m1, groups, key, g);
        if g !in groups {
          SameGroup(m0, m1, key, g);
        }
      }
    }
    SameWeights(Minus(ReduceOf(k1, key, agg), ReduceOf(k0, key, agg)),
      Minus(ReduceOf(m1, key, agg), ReduceOf(m0, key, agg)));
  }

  // ----- the per-group delta -----

  /** The rows of the input outside the changed groups weigh the same at both ends. */
  lemma OutsideGroupsUnchanged(rows: Rows, b0: Multiset, b1: Multiset, changed: set<Tuple>, key: seq<nat>, r: Tuple)
    requires forall x :: W(b0, x) != W(b1, x) ==> x in changed
    requires ImagesGrouped(rows, changed, key)
    requires !InGroups(GroupsHit(rows, changed, key), key)(r)
    ensures W(Image(b0, Imager(rows)), r) == W(Image(b1, Imager(rows)), r)
  {
    forall x | Imager(rows)(x) == Some(r) ensures W(b0, x) == W(b1, x) {
      if x in changed {
        assert Cells(ImageOf(rows, x).t, key).value in GroupsHit(rows, changed, key);
      }
    }
    ImageAgree(b0, b1, Imager(rows), r);
  }

  /** The keyed lookup finds every row whose image falls in a changed group. */
  lemma LookupFindsMembers(rows: Rows, b: Multiset, groups: set<Tuple>, key: seq<nat>, col: nat)
    requires key != [] && Source(rows.steps, key[0]) == Some(col)
    ensures Keep(Image(Keep(b, t => col < |t| && t[col] in Leads(groups)), Imager(rows)), InGroups(groups, key))
         == Keep(Image(b, Imager(rows)), InGroups(groups, key))
  {
    var keep: Tuple -> bool := t => col < |t| && t[col] in Leads(groups);
    forall x | x in b && Imager(rows)(x).Some? && InGroups(groups, key)(Imager(rows)(x).value) ensures keep(x) {
      var r := Imager(rows)(x).value;
      var g := Cells(r, key).value;
      assert g[0] == r[key[0]];
      ThroughSource(rows.steps, x, key[0]);
      assert g[0] in Leads(groups);
    }
    ImageRestrict(b, Imager(rows), keep, InGroups(groups, key));
  }

  /** Putting the changes back turns the groups at `to` into the groups at `from`. */
  lemma PuttingBack(m0: Multiset, m1: Multiset, p: Tuple -> bool)
    requires forall t :: !p(t) ==> W(m0, t) == W(m1, t)
    ensures Plus(Keep(m1, p), Minus(m0, m1)) == Keep(m0, p)
  {
    SameWeights(Plus(Keep(m1, p), Minus(m0, m1)), Keep(m0, p));
  }

  lemma FitsKept(m: Multiset, p: Tuple -> bool, key: seq<nat>, agg: Agg)
    requires ReduceFits(m, key, agg)
    ensures ReduceFits(Keep(m, p), key, agg)
  {
    forall t | t in Keep(m, p) ensures t in m && Keep(m, p)[t] == m[t] {
      assert W(Keep(m, p), t) != 0;
    }
  }

  lemma ReadChange(s: Store, rel: RelId, from: nat, to: nat)
    ensures forall x :: x in Changed(s, rel, from, to) <==> W(ReadAt(s, rel, from), x) != W(ReadAt(s, rel, to), x)
    ensures Changed(s, rel, from, to) <= ReadAt(s, rel, from).Keys + ReadAt(s, rel, to).Keys
  {
    forall x | W(ReadAt(s, rel, from), x) != W(ReadAt(s, rel, to), x)
      ensures x in ReadAt(s, rel, from).Keys + ReadAt(s, rel, to).Keys {
    }
  }

  /** What the per-group fold computes from the two ends' base rows. */
  lemma RefoldCorrect(rows: Rows, b0: Multiset, b1: Multiset, changed: set<Tuple>, key: seq<nat>, col: nat, agg: Agg)
    requires key != [] && Source(rows.steps, key[0]) == Some(col)
    requires forall x :: W(b0, x) != W(b1, x) ==> x in changed
    requires ImagesGrouped(rows, changed, key)
    ensures var groups := GroupsHit(rows, changed, key);
      var p := InGroups(groups, key);
      var g := Imager(rows);
      var atTo := Keep(Image(Keep(b1, t => col < |t| && t[col] in Leads(groups)), g), p);
      var atFrom := Plus(atTo, Image(Minus(b0, b1), g));
      && atTo == Keep(Image(b1, g), p)
      && atFrom == Keep(Image(b0, g), p)
      && Minus(ReduceOf(atTo, key, agg), ReduceOf(atFrom, key, agg)) ==
         Minus(ReduceOf(Image(b1, g), key, agg), ReduceOf(Image(b0, g), key, agg))
      && (Leads(groups) == {} ==> Image(b0, g) == Image(b1, g))
  {
    hide ReduceOf;
    hide Image;
    var groups := GroupsHit(rows, changed, key);
    var p := InGroups(groups, key);
    var m0, m1 := Image(b0, Imager(rows)), Image(b1, Imager(rows));
    forall r | !p(r) ensures W(m0, r) == W(m1, r) {
      OutsideGroupsUnchanged(rows, b0, b1, changed, key, r);
    }
    ImageMinus(b0, b1, Imager(rows));
    OnlyChangedGroups(m0, m1, groups, key, agg);
    LookupFindsMembers(rows, b1, groups, key, col);
    PuttingBack(m0, m1, p);
    if Leads(groups) == {} {
      forall r ensures !p(r) {
        if p(r) {
          HitHasLead(rows, changed, key, Cells(r, key).value);
          assert false;
        }
      }
      SameWeights(m0, m1);
    }
  }

  lemma HitHasLead(rows: Rows, changed: set<Tuple>, key: seq<nat>, g: Tuple)
    requires key != [] && g in GroupsHit(rows, changed, key)
    ensures g != [] && g[0] in Leads(GroupsHit(rows, changed, key))
  {
  }

  /** Every base row the per-group delta looks at is long enough for the projections
      above it: the rows that changed and, if it gets as far as the keyed lookup,
      the rows found. */
  ghost predicate RowsLongEnough(input: Query, key: seq<nat>, s: Store, from: nat, to: nat) {
    var shape := RowsOf(Strip(input));
    shape.None? || key == [] || Source(shape.value.steps, key[0]).None? ||
    var rows := shape.value;
    var changed := Changed(s, rows.base.rel, from, to);
    ImagesReturn(rows, changed) && (
    !ImagesGrouped(rows, changed, key) ||
    var leads := Leads(GroupsHit(rows, changed, key));
    leads == {} || |leads| > PROBE_LIMIT ||
    ImagesReturn(rows, Lookup(s, rows.base.rel, to, Source(rows.steps, key[0]).value, leads).Keys))
  }

  /** The per-group delta returns exactly when the rows it looks at are long enough,
      and then it is the difference of the two full aggregates. */
  lemma ReduceByKeyCorrect(input: Query, key: seq<nat>, agg: Agg, s: Store, from: nat, to: nat)
    requires Meaning(Reduce(input, key, agg), s, from).Some? && Meaning(Reduce(input, key, agg), s, to).Some?
    ensures ReduceByKey(input, key, agg, s, from, to) != Refused <==> RowsLongEnough(input, key, s, from, to)
    ensures match ReduceByKey(input, key, agg, s, from, to)
            case Done(d) =>
              d == Minus(Meaning(Reduce(input, key, agg), s, to).value, Meaning(Reduce(input, key, agg), s, from).value)
            case _ => true
  {
    hide ReduceOf;
    hide ReduceFits;
    hide Strip;
    hide RowsOf;
    hide Image;
    hide Meaning;
    hide Changed;
    hide Keep;
    hide Plus;
    hide GroupsHit;
    hide Leads;
    hide InGroups;
    hide Imager;
    hide Through;
    hide ImageOf;
    hide Source;
    var q := Strip(input);
    if RowsOf(q).Some? && key != [] && Source(RowsOf(q).value.steps, key[0]).Some? {
      var rows := RowsOf(q).value;
      var col := Source(rows.steps, key[0]).value;
      var b0, m0 := StrippedEnd(input, rows, key, agg, s, from);
      var b1, m1 := StrippedEnd(input, rows, key, agg, s, to);
      var changed := Changed(s, rows.base.rel, from, to);
      ReadChange(s, rows.base.rel, from, to);
      if ImagesGrouped(rows, changed, key) {
        var groups := GroupsHit(rows, changed, key);
        RefoldCorrect(rows, b0, b1, changed, key, col, agg);
        FitsKept(m0, InGroups(groups, key), key, agg);
        FitsKept(m1, InGroups(groups, key), key, agg);
        SelfDifference(ReduceOf(m1, key, agg));
      }
    }
  }

  /** No row is too short when no projection names a column its input has lost. */
  lemma StackedRowsLongEnough(input: Query, key: seq<nat>, agg: Agg, s: Store, from: nat, to: nat)
    requires Meaning(Reduce(input, key, agg), s, from).Some? && Meaning(Reduce(input, key, agg), s, to).Some?
    requires RowsOf(Strip(input)).Some? ==> StepsFit(RowsOf(Strip(input)).value.steps)
    ensures RowsLongEnough(input, key, s, from, to)
  {
    hide ReduceOf;
    hide ReduceFits;
    hide Strip;
    hide RowsOf;
    hide Image;
    hide Meaning;
    hide Changed;
    hide Keep;
    hide GroupsHit;
    hide Leads;
    hide Imager;
    hide ImageOf;
    hide Source;
    if RowsOf(Strip(input)).Some? && key != [] && Source(RowsOf(Strip(input)).value.steps, key[0]).Some? {
      var rows := RowsOf(Strip(input)).value;
      var col := Source(rows.steps, key[0]).value;
      var b0, m0 := StrippedEnd(input, rows, key, agg, s, from);
      var b1, m1 := StrippedEnd(input, rows, key, agg, s, to);
      var changed := Changed(s, rows.base.rel, from, to);
      ReadChange(s, rows.base.rel, from, to);
      KeptKeys(b1, t => col < |t| && t[col] in Leads(GroupsHit(rows, changed, key)));
    }
  }

  lemma KeptKeys(m: Multiset, p: Tuple -> bool)
    ensures Keep(m, p).Keys <= m.Keys
  {
  }

  lemma SelfDifference(a: Multiset)
    ensures Minus(a, a) == map[]
  {
    SameWeights(Minus(a, a), map[]);
  }

  lemma MeaningOfReduce(input: Query, key: seq<nat>, agg: Agg, db: Db)
    requires Eval(Reduce(input, key, agg), db, map[]).Some?
    ensures Eval(input, db, map[]).Some? && ReduceFits(Eval(input, db, map[]).value, key, agg)
    ensures Eval(Reduce(input, key, agg), db, map[]) == Some(ReduceOf(Eval(input, db, map[]).value, key, agg))
  {
    hide ReduceFits;
    hide ReduceOf;
  }

  /** One end of the interval: the base rows, the rows the aggregate really reads, and what they fold to. */
  lemma StrippedEnd(input: Query, rows: Rows, key: seq<nat>, agg: Agg, s: Store, at: nat)
    returns (b: Multiset, m: Multiset)
    requires Meaning(Reduce(input, key, agg), s, at).Some?
    requires RowsOf(Strip(input)) == Some(rows)
    ensures b == ReadAt(s, rows.base.rel, at) && m == Image(b, Imager(rows))
    ensures StepsFit(rows.steps) ==> ImagesReturn(rows, b.Keys)
    ensures ReduceFits(m, key, agg) && Meaning(Reduce(input, key, agg), s, at) == Some(ReduceOf(m, key, agg))
  {
    hide Image;
    hide ReduceOf;
    hide ReduceFits;
    hide Strip;
    hide RowsOf;
    hide StepsFit;
    hide Snapshot;
    hide ReadAt;
    hide Present;
    MeaningOfReduce(input, key, agg, Snapshot(s, at));
    hide Eval;
    var db := Snapshot(s, at);
    b := ReadAt(s, rows.base.rel, at);
    SnapshotReads(s, rows.base.rel, at);
    StripMeaning(input, db, map[]);
    RowsMeaning(Strip(input), rows, db, map[]);
    m := Eval(Strip(input), db, map[]).value;
    PresenceDecides(m, Eval(input, db, map[]).value, key, agg);
  }
}
