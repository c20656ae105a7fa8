/** The branch's routing, carried out by the canopy's walks: the interests the tree
    finds are the ones a scan of the branch's interests would. */
module Routing {
  import opened Values
  import opened Logs
  import opened CanopyTrees
  import opened Canopies
  import Stores

  function Entered(canopy: map<nat, Stores.Interest>, id: nat): Interest
    requires id in canopy
  {
    Interest(Key(canopy[id].rel, canopy[id].lo, id), canopy[id].hi, ALL)
  }

  /** The tree holds the standing interests of a branch, each with every flag. */
  ghost predicate Holds(es: set<Interest>, canopy: map<nat, Stores.Interest>) {
    es == set id | id in canopy :: Entered(canopy, id)
  }

  lemma HitTouches(canopy: map<nat, Stores.Interest>, id: nat, rel: nat, t: Tuple)
    requires id in canopy
    ensures forall d :: Stores.Touches(canopy[id], rel, Update(t, d)) <==>
      Hit(Entered(canopy, id), AtPoint(rel, t, NONE))
  {
    hide Less;
    EndsOfFlags(ALL);
  }

  lemma ReachedIsStabbed(es: set<Interest>, canopy: map<nat, Stores.Interest>, us: Stores.Updates, points: Updates,
                         id: nat)
    requires Holds(es, canopy)
    requires |points| == |us| && forall i | 0 <= i < |us| :: points[i] == (us[i].0, us[i].1)
    ensures Reached(es, points, NONE, id) <==> id in Stores.Stabbed(canopy, us)
  {
    hide Hit, Stores.Touches;
    if Reached(es, points, NONE, id) {
      var e, u :| e in es && u in points && e.key.id == id && Hit(e, AtPoint(u.0, u.1, NONE));
      var j :| 0 <= j < |points| && points[j] == u;
      assert e == Entered(canopy, id);
      HitTouches(canopy, id, u.0, u.1);
      assert Stores.Touches(canopy[id], us[j].0, Update(us[j].1, us[j].2));
    }
    if id in Stores.Stabbed(canopy, us) {
      var j :| 0 <= j < |us| && Stores.Touches(canopy[id], us[j].0, Update(us[j].1, us[j].2));
      HitTouches(canopy, id, us[j].0, us[j].1);
      assert Entered(canopy, id) in es && points[j] in points;
      assert Hit(Entered(canopy, id), AtPoint(points[j].0, points[j].1, NONE));
    }
  }

  lemma MetIsOverlapped(es: set<Interest>, canopy: map<nat, Stores.Interest>, rel: nat, lo: Tuple, hi: Tuple, id: nat)
    requires Holds(es, canopy)
    ensures Less(lo, hi) && Met(es, OverSpan(rel, lo, hi), id) <==>
      id in Stores.Overlapped(canopy, {rel}, GraftEntry(lo, hi))
  {
    hide Less;
    if e :| e in es && e.key.id == id {
      assert e == Entered(canopy, id);
    }
    if id in canopy {
      assert Entered(canopy, id) in es;
    }
  }

  /** The interests a patch touches. */
  method RouteUpdates(c: Canopy, canopy: map<nat, Stores.Interest>, us: Stores.Updates) returns (hits: seq<nat>)
    requires c.Valid() && Holds(c.Standing(), canopy)
    ensures Increasing(hits) && forall id :: id in hits <==> id in Stores.Stabbed(canopy, us)
  {
    hide Increasing, Reached, Holds, Stores.Stabbed;
    var points := seq(|us|, i requires 0 <= i < |us| => (us[i].0, us[i].1));
    hits := c.RouteEndorsed(points, NONE);
    forall id: nat ensures id in hits <==> id in Stores.Stabbed(canopy, us) {
      ReachedIsStabbed(c.Standing(), canopy, us, points, id);
    }
  }

  /** The interests the span of a copied block overlaps. */
  method RouteGraft(c: Canopy, canopy: map<nat, Stores.Interest>, rel: nat, lo: Tuple, hi: Tuple)
    returns (hits: seq<nat>)
    requires c.Valid() && Holds(c.Standing(), canopy)
    ensures Increasing(hits) && forall id :: id in hits <==> id in Stores.Overlapped(canopy, {rel}, GraftEntry(lo, hi))
  {
    hide Increasing, Met, Holds, Less, Stores.Overlapped;
    hits := c.RouteSpan(rel, lo, hi);
    forall id: nat ensures id in hits <==> id in Stores.Overlapped(canopy, {rel}, GraftEntry(lo, hi)) {
      MetIsOverlapped(c.Standing(), canopy, rel, lo, hi, id);
    }
  }
}
