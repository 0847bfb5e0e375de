/** Finding the view under the pointer, kits/interface/Window.cpp, and converting between a view's coordinates and the
    screen's, kits/interface/View.cpp.  A window's own conversions change nothing. */
module HitTest {
  import opened Geometry
  import opened Views

  function Frame(v: BView): Rect
    reads v`bounds, v`parentOffset
  {
    v.bounds.OffsetTo(v.parentOffset)
  }

  function ConvertToParent(v: BView, p: Point): Point
    reads v`parentOffset
  {
    p.Plus(v.parentOffset)
  }

  function ConvertFromParent(v: BView, p: Point): Point
    reads v`parentOffset
  {
    p.Minus(v.parentOffset)
  }

  /** A view's frame contains exactly the points of the parent that its bounds contain as its own, if and only if its
      bounds are at the origin. */
  lemma {:induction false} FrameIff(v: BView)
    requires v.bounds.IsValid()
    ensures
      (forall p: Point :: Frame(v).Contains(p) <==> v.bounds.Contains(ConvertFromParent(v, p)))
      <==> v.bounds.left == v.bounds.top == 0.0
  {
    var corner := Point(v.bounds.left, v.bounds.top);
    assert v.bounds.Contains(ConvertFromParent(v, ConvertToParent(v, corner)));
    assert Frame(v).Contains(ConvertToParent(v, B_ORIGIN));
  }

  function ConvertToScreen(v: BView, p: Point, ghost views: set<BView>): Point
    requires v in views && Paths(views)
    reads views`parent, views`path, views`parentOffset
    decreases |v.path|
  {
    PathEnd(v, views);
    var q := ConvertToParent(v, p);
    if v.parent != null then ConvertToScreen(v.parent, q, views) else q
  }

  function ConvertFromScreen(v: BView, p: Point, ghost views: set<BView>): Point
    requires v in views && Paths(views)
    reads views`parent, views`path, views`parentOffset
    decreases |v.path|
  {
    PathEnd(v, views);
    var q := ConvertFromParent(v, p);
    if v.parent != null then ConvertFromScreen(v.parent, q, views) else q
  }

  /** `ConvertToScreen` and `ConvertFromScreen` of a rectangle move its left top corner. */
  function RectToScreen(v: BView, r: Rect, ghost views: set<BView>): Rect
    requires v in views && Paths(views)
    reads views`parent, views`path, views`parentOffset
  {
    r.OffsetTo(ConvertToScreen(v, Point(r.left, r.top), views))
  }

  function RectFromScreen(v: BView, r: Rect, ghost views: set<BView>): Rect
    requires v in views && Paths(views)
    reads views`parent, views`path, views`parentOffset
  {
    r.OffsetTo(ConvertFromScreen(v, Point(r.left, r.top), views))
  }

  /** Both conversions move every point by the same distance, the view's position on the screen. */
  lemma {:induction false} ConversionsMove(v: BView, p: Point, views: set<BView>)
    requires v in views && Paths(views)
    ensures ConvertToScreen(v, p, views) == p.Plus(ConvertToScreen(v, B_ORIGIN, views))
    ensures ConvertFromScreen(v, p, views) == p.Minus(ConvertToScreen(v, B_ORIGIN, views))
    decreases |v.path|
  {
    PathEnd(v, views);
    if v.parent != null {
      var o := v.parentOffset;
      ConversionsMove(v.parent, p.Plus(o), views);
      ConversionsMove(v.parent, p.Minus(o), views);
      ConversionsMove(v.parent, B_ORIGIN.Plus(o), views);
    }
  }

  /** The conversions are inverses along any chain of parents. */
  lemma {:induction false} ConversionsAreInverse(v: BView, p: Point, views: set<BView>)
    requires v in views && Paths(views)
    ensures ConvertFromScreen(v, ConvertToScreen(v, p, views), views) == p
    ensures ConvertToScreen(v, ConvertFromScreen(v, p, views), views) == p
  {
    ConversionsMove(v, p, views);
    ConversionsMove(v, ConvertToScreen(v, p, views), views);
    ConversionsMove(v, ConvertFromScreen(v, p, views), views);
  }

  /** So are those of rectangles, which also keep the size and what the rectangle contains. */
  lemma {:induction false} RectConversionsAreInverse(v: BView, r: Rect, p: Point, views: set<BView>)
    requires v in views && Paths(views)
    ensures RectFromScreen(v, RectToScreen(v, r, views), views) == r
    ensures RectToScreen(v, RectFromScreen(v, r, views), views) == r
    ensures RectToScreen(v, r, views).Contains(ConvertToScreen(v, p, views)) <==> r.Contains(p)
  {
    var corner := Point(r.left, r.top);
    ConversionsAreInverse(v, corner, views);
    ConversionsMove(v, corner, views);
    ConversionsMove(v, p, views);
  }

  /** `v` is the first child of its parent whose frame contains this point of the parent. */
  ghost predicate IsFirstHit(v: BView, p: Point, views: set<BView>)
    reads views
  {
    && v in views && v.parent != null && v.parent in views
    && 0 <= v.index < |v.parent.kids| && v.parent.kids[v.index] == v
    && Frame(v).Contains(p)
    && forall i | 0 <= i < v.index :: v.parent.kids[i] in views && !Frame(v.parent.kids[i]).Contains(p)
  }

  /** What a point of the root of the tree is in the coordinates of `v`. */
  ghost function PointIn(v: BView, p: Point, views: set<BView>): Point
    requires v in views && Paths(views)
    reads views`parent, views`path, views`parentOffset
    decreases |v.path|
  {
    PathEnd(v, views);
    if v.parent == null then p else ConvertFromParent(v, PointIn(v.parent, p, views))
  }

  /** Every view from below the root down to `v` is the first one hit. */
  ghost predicate HitAllAlong(v: BView, p: Point, views: set<BView>)
    requires v in views && Paths(views)
    reads views
    decreases |v.path|
  {
    PathEnd(v, views);
    v.parent == null || (HitAllAlong(v.parent, p, views) && IsFirstHit(v, PointIn(v.parent, p, views), views))
  }

  /** No child of `v` contains the point. */
  ghost predicate HitsNoChild(v: BView, where: Point, views: set<BView>)
    reads v, views
  {
    forall i | 0 <= i < |v.kids| :: v.kids[i] in views && !Frame(v.kids[i]).Contains(where)
  }

  /** The first child that contains a point, in the order of the list. */
  method FirstHit(v: BView, where: Point, ghost views: set<BView>) returns (child: BView?)
    requires v in views && Lists(views)
    ensures child == null ==> HitsNoChild(v, where, views)
    ensures child != null ==> IsFirstHit(child, where, views) && child.parent == v && child in views
    ensures child != null ==> 0 <= child.index < |v.kids| && v.kids[child.index] == child
  {
    assert Listed(v, views);
    child := v.firstChild;
    ghost var k := 0;
    while child != null
      invariant 0 <= k <= |v.kids| && child == At(v.kids, k)
      invariant forall i | 0 <= i < k :: v.kids[i] in views && !Frame(v.kids[i]).Contains(where)
      decreases |v.kids| - k
    {
      assert Listed(child, views);
      if Frame(child).Contains(where) {
        return;
      }
      child := child.nextSibling;
      k := k + 1;
    }
  }

  /** The loop that `DispatchMessage` runs for a pointer event.  It descends from the top view, each time to the first
      child that contains the point, and ends at a view no child of which does; `where` is the point in that view's
      coordinates. */
  method ViewUnderPointer(top: BView, screenWhere: Point, ghost views: set<BView>) returns (v: BView, where: Point)
    requires top in views && Forest(views) && top.parent == null
    ensures v in Tree(top, views)
    ensures HitAllAlong(v, screenWhere, views)
    ensures HitsNoChild(v, where, views)
    ensures where == PointIn(v, screenWhere, views)
    ensures v != top && v.bounds.left == v.bounds.top == 0.0 ==> v.bounds.Contains(where)
  {
    where := screenWhere;
    v := top;
    PathEnd(top, views);
    var stop := false;
    while !stop
      invariant v in Tree(top, views)
      invariant HitAllAlong(v, screenWhere, views)
      invariant where == PointIn(v, screenWhere, views)
      invariant stop ==> HitsNoChild(v, where, views)
      decreases Subtree(v, views), !stop
    {
      hide IsFirstHit, HitsNoChild, Lists;
      stop := true;
      var child := FirstHit(v, where, views);
      if child != null {
        SubtreeOfChild(v, child.index, views);
        PathEnd(v, views);
        PathEnd(child, views);
        v := child;
        where := ConvertFromParent(child, where);
        stop := false;
      }
    }
    PathEnd(v, views);
    HitIsWithin(v, screenWhere, views);
  }

  /** A view that was hit contains the point, in its own coordinates. */
  lemma {:induction false} HitIsWithin(v: BView, p: Point, views: set<BView>)
    requires v in views && Paths(views) && HitAllAlong(v, p, views)
    ensures v.parent != null && v.bounds.left == v.bounds.top == 0.0 ==> v.bounds.Contains(PointIn(v, p, views))
  {
    PathEnd(v, views);
  }

  /** The point that the loop carries, seen from the screen: the window's top view is taken to be at the origin. */
  lemma {:induction false} PointInIsFromScreen(v: BView, p: Point, views: set<BView>)
    requires v in views && Paths(views) && v.path != [] && v.path[0] in views
    ensures ConvertFromScreen(v, p, views) == PointIn(v, p, views).Minus(v.path[0].parentOffset)
    decreases |v.path|
  {
    PathEnd(v, views);
    if v.parent != null {
      PathEnd(v.parent, views);
      ConversionsMove(v, p, views);
      ConversionsMove(v.parent, p, views);
      ConversionsMove(v.parent, B_ORIGIN.Plus(v.parentOffset), views);
      PointInIsFromScreen(v.parent, p, views);
    }
  }

  /** Hence it is the result's `ConvertFromScreen` of the pointer if and only if the top view is at the origin, where
      a window creates it. */
  lemma {:induction false} CarriedPointIff(v: BView, p: Point, views: set<BView>)
    requires v in views && Paths(views) && v.path != [] && v.path[0] in views
    ensures PointIn(v, p, views) == ConvertFromScreen(v, p, views) <==> v.path[0].parentOffset == B_ORIGIN
  {
    PointInIsFromScreen(v, p, views);
  }

  lemma {:induction false} HitAllAlongPrefix(v: BView, k: nat, p: Point, views: set<BView>)
    requires v in views && Paths(views) && k < |v.path| && HitAllAlong(v, p, views)
    ensures v.path[k] in views && HitAllAlong(v.path[k], p, views)
    decreases |v.path|
  {
    PathEnd(v, views);
    if k < |v.path| - 1 {
      HitAllAlongPrefix(v.parent, k, p, views);
    }
  }

  /** Two descents to first hits take the same way. */
  lemma {:induction false} HitsAgree(u: BView, v: BView, k: nat, p: Point, views: set<BView>)
    requires u in views && v in views && Forest(views) && k < |u.path| && k < |v.path| && u.path[0] == v.path[0]
    requires HitAllAlong(u, p, views) && HitAllAlong(v, p, views)
    ensures u.path[k] == v.path[k]
    decreases k
  {
    if k > 0 {
      HitsAgree(u, v, k - 1, p, views);
      PathStep(u, k, views);
      PathStep(v, k, views);
      HitAllAlongPrefix(u, k, p, views);
      HitAllAlongPrefix(v, k, p, views);
      FirstHitIsUnique(u.path[k], v.path[k], PointIn(u.path[k - 1], p, views), views);
    }
  }

  lemma {:induction false} FirstHitIsUnique(u: BView, v: BView, p: Point, views: set<BView>)
    requires IsFirstHit(u, p, views) && IsFirstHit(v, p, views) && u.parent == v.parent
    ensures u == v
  {
    assert v.parent.kids[u.index] == u && u.parent.kids[v.index] == v;
  }

  /** What ViewUnderPointer promises determines its result: there is only one such view in a window. */
  lemma {:induction false} HitIsUnique(u: BView, v: BView, top: BView, p: Point, views: set<BView>)
    requires Forest(views) && u in Tree(top, views) && v in Tree(top, views)
    requires HitAllAlong(u, p, views) && HitAllAlong(v, p, views)
    requires HitsNoChild(u, PointIn(u, p, views), views) && HitsNoChild(v, PointIn(v, p, views), views)
    ensures u == v
  {
    PathEnd(u, views);
    PathEnd(v, views);
    if |u.path| < |v.path| {
      HitMeansHitChild(u, v, p, views);
    } else if |v.path| < |u.path| {
      HitMeansHitChild(v, u, p, views);
    } else {
      HitsAgree(u, v, |u.path| - 1, p, views);
    }
  }

  /** A descent that goes on below `u` hits a child of `u`. */
  lemma {:induction false} HitMeansHitChild(u: BView, v: BView, p: Point, views: set<BView>)
    requires u in views && v in views && Forest(views) && 0 < |u.path| < |v.path| && u.path[0] == v.path[0]
    requires HitAllAlong(u, p, views) && HitAllAlong(v, p, views)
    ensures !HitsNoChild(u, PointIn(u, p, views), views)
  {
    var k := |u.path|;
    PathEnd(u, views);
    HitsAgree(u, v, k - 1, p, views);
    PathStep(v, k, views);
    HitAllAlongPrefix(v, k, p, views);
    assert IsFirstHit(v.path[k], PointIn(u, p, views), views);
    assert u.kids[v.path[k].index] == v.path[k];
  }

  /** A pointer event leaves the view under the pointer as the last one. */
  method PointerMoved(w: BWindow, screenWhere: Point, ghost views: set<BView>, ghost windows: set<BWindow>)
    requires Agreement(views, windows) && w in windows
    modifies w`lastMouseMoved
    ensures Agreement(views, windows)
    ensures
      var v := w.lastMouseMoved;
      && v != null && v in Tree(w.topView, views)
      && HitAllAlong(v, screenWhere, views) && HitsNoChild(v, PointIn(v, screenWhere, views), views)
      && (v != w.topView && v.bounds.left == v.bounds.top == 0.0 ==>
            v.bounds.Contains(PointIn(v, screenWhere, views)))
  {
    assert Settled(w, views);
    var v, where := ViewUnderPointer(w.topView, screenWhere, views);
    OwnedIffInTree(v, w, views, windows);
    w.lastMouseMoved := v;
    hide *;
    forall u | u in windows ensures Settled(u, views) {
      assert old(Settled(u, views));
    }
  }
}
