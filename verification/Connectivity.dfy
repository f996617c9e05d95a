/** 4-connected components of a set of pixels: the mathematics that the
    breadth-first blob labeller is measured against. Nothing here mentions
    labels, queues or scan order. */
module Connectivity {
  import opened Image

  predicate Adjacent(p: Point, q: Point) {
    || (p.y == q.y && (p.x == q.x + 1 || q.x == p.x + 1))
    || (p.x == q.x && (p.y == q.y + 1 || q.y == p.y + 1))
  }

  /** A non-empty walk through `s` whose consecutive pixels are 4-neighbours. */
  ghost predicate IsPath(s: set<Point>, path: seq<Point>) {
    && |path| > 0
    && (forall i :: 0 <= i < |path| ==> path[i] in s)
    && (forall i :: 0 < i < |path| ==> Adjacent(path[i - 1], path[i]))
  }

  ghost predicate Joins(s: set<Point>, path: seq<Point>, p: Point, q: Point) {
    IsPath(s, path) && path[0] == p && path[|path| - 1] == q
  }

  ghost predicate Connected(s: set<Point>, p: Point, q: Point) {
    exists path :: Joins(s, path, p, q)
  }

  ghost function Component(s: set<Point>, p: Point): set<Point> {
    set q | q in s && Connected(s, p, q)
  }

  ghost function Components(s: set<Point>): set<set<Point>> {
    set p | p in s :: Component(s, p)
  }

  /** No 4-neighbour of a member is left outside. */
  ghost predicate ClosedIn(s: set<Point>, c: set<Point>) {
    c <= s && forall p, q :: p in c && q in s && Adjacent(p, q) ==> q in c
  }

  lemma ConnectedSelf(s: set<Point>, p: Point)
    requires p in s
    ensures Connected(s, p, p)
  {
    assert Joins(s, [p], p, p);
  }

  lemma ConnectedStep(s: set<Point>, p: Point, q: Point, r: Point)
    requires Connected(s, p, q) && r in s && Adjacent(q, r)
    ensures Connected(s, p, r)
  {
    var path :| Joins(s, path, p, q);
    assert Joins(s, path + [r], p, r);
  }

  lemma ConnectedSymmetric(s: set<Point>, p: Point, q: Point)
    requires Connected(s, p, q)
    ensures Connected(s, q, p)
  {
    var path :| Joins(s, path, p, q);
    var back := seq(|path|, i requires 0 <= i < |path| => path[|path| - 1 - i]);
    forall i | 0 < i < |back| ensures Adjacent(back[i - 1], back[i]) {
      assert Adjacent(path[|path| - 1 - i], path[|path| - i]);
    }
    assert Joins(s, back, q, p);
  }

  /** A closed set that a path enters, the path never leaves. */
  lemma {:induction false} ClosedTraps(s: set<Point>, c: set<Point>, path: seq<Point>, k: nat)
    requires ClosedIn(s, c) && IsPath(s, path) && path[0] in c && k < |path|
    ensures path[k] in c
  {
    if k > 0 {
      ClosedTraps(s, c, path, k - 1);
      assert Adjacent(path[k - 1], path[k]);
    }
  }

  lemma ClosedContains(s: set<Point>, c: set<Point>, p: Point, q: Point)
    requires ClosedIn(s, c) && p in c && Connected(s, p, q)
    ensures q in c
  {
    var path :| Joins(s, path, p, q);
    ClosedTraps(s, c, path, |path| - 1);
  }

  lemma ComponentClosed(s: set<Point>, p: Point)
    ensures ClosedIn(s, Component(s, p))
  {
    forall q, r | q in Component(s, p) && r in s && Adjacent(q, r)
      ensures r in Component(s, p)
    {
      ConnectedStep(s, p, q, r);
    }
  }

  /** The component of p is the one closed, connected set around p. */
  lemma ComponentUnique(s: set<Point>, c: set<Point>, p: Point)
    requires ClosedIn(s, c) && p in c
    requires forall q :: q in c ==> Connected(s, p, q)
    ensures c == Component(s, p)
  {
    forall q | q in Component(s, p) ensures q in c {
      ClosedContains(s, c, p, q);
    }
  }

  /** Pixels of one component name the same component. */
  lemma ComponentShared(s: set<Point>, p: Point, q: Point)
    requires p in s && q in Component(s, p)
    ensures p in Component(s, p) && Component(s, q) == Component(s, p)
  {
    ConnectedSelf(s, p);
    ConnectedSelf(s, q);
    ConnectedSymmetric(s, p, q);
    ComponentClosed(s, p);
    ComponentClosed(s, q);
    forall r | r in Component(s, q) ensures r in Component(s, p) {
      ClosedContains(s, Component(s, p), q, r);
    }
    forall r | r in Component(s, p) ensures r in Component(s, q) {
      ClosedContains(s, Component(s, q), p, r);
    }
  }

  /** Dropping whole components leaves every other component as it was. */
  lemma ComponentSurvives(s: set<Point>, t: set<Point>, p: Point)
    requires ClosedIn(s, t) && p in t
    ensures Component(t, p) == Component(s, p)
  {
    forall q | q in Component(t, p) ensures q in Component(s, p) {
      var path :| Joins(t, path, p, q);
      assert Joins(s, path, p, q);
    }
    forall q | q in Component(s, p) ensures q in Component(t, p) {
      var path :| Joins(s, path, p, q);
      forall i | 0 <= i < |path| ensures path[i] in t {
        ClosedTraps(s, t, path, i);
      }
      assert Joins(t, path, p, q);
    }
  }
}
