/** The tree of views and the windows they are attached to, kits/interface/View.cpp, kits/interface/Window.cpp and
    kits/app/Looper.cpp.  `views` is always the set of all views. */
module Views {
  import opened Geometry
  import opened Sequences

  /** `debugger` does not return: the program ends. */
  datatype Outcome = Done | Aborted

  class BView {
    var parent: BView?
    var firstChild: BView?
    var nextSibling: BView?
    var prevSibling: BView?
    var owner: BWindow?
    var looper: BWindow?
    var parentOffset: Point
    var bounds: Rect

    /** The children in order, and the place of this view among its parent's. */
    ghost var kids: seq<BView>
    ghost var index: int

    /** The views from the root of the tree down to this one. */
    ghost var path: seq<BView>

    /** A new view joins the views as a tree of its own. */
    constructor (frame: Rect, ghost views: set<BView>, ghost windows: set<BWindow>)
      requires Agreement(views, windows)
      ensures parent == firstChild == nextSibling == prevSibling == null && owner == looper == null
      ensures kids == [] && path == [this]
      ensures bounds.OffsetTo(parentOffset) == frame.Floored() && bounds.left == bounds.top == 0.0
      ensures Agreement(views + {this}, windows)
    {
      parent, firstChild, nextSibling, prevSibling, owner, looper := null, null, null, null, null, null;
      parentOffset := Point(frame.Floored().left, frame.Floored().top);
      bounds := frame.Floored().OffsetTo(B_ORIGIN);
      kids, index, path := [], 0, [this];
      new;
      ghost var all := views + {this};
      forall v | v in all ensures Listed(v, all) && HasPath(v, all) && Tied(v, all) {
        if v != this {
          assert Listed(v, views) && HasPath(v, views) && Tied(v, views);
        }
      }
      forall w | w in windows ensures Settled(w, all) {
        assert Settled(w, views);
      }
    }

    /** Links a view without a parent into the list of children, in front of `before` or at the end. */
    method AddChildToList(child: BView, before: BView?, ghost views: set<BView>)
      requires this in views && child in views && child != this && child.parent == null
      requires Lists(views) && (before != null ==> before in views && before.parent == this)
      modifies views`parent, views`firstChild, views`nextSibling, views`prevSibling, views`index, this`kids
      ensures Lists(views)
      ensures Inserted(this, child, old(PlaceFor(this, before)), views)
      ensures
        if before == null then kids == old(kids) + [child]
        else 0 <= old(before.index) <= |old(kids)|
             && kids == old(kids)[..old(before.index)] + [child] + old(kids)[old(before.index)..]
    {
      hide Lists, Listed, At;
      ghost var i := PlaceFor(this, before);
      LinkChild(child, before, views);
      Shift(i, 1, views);
      child.parent := this;
      child.index := i;
      kids := kids[..i] + [child] + kids[i..];
      child.InsertedKeepsLists(views);
    }

    method LinkChild(child: BView, before: BView?, ghost views: set<BView>)
      requires this in views && child in views && child != this && child.parent == null
      requires Lists(views) && (before != null ==> before in views && before.parent == this)
      modifies views`firstChild, views`nextSibling, views`prevSibling
      ensures 0 <= PlaceFor(this, before) <= |kids| && Linked(this, child, PlaceFor(this, before), views)
    {
      hide Lists, Listed, At;
      if before != null {
        LinkBefore(child, before, views);
      } else {
        LinkLast(child, views);
      }
    }

    ghost method Shift(from: int, d: int, views: set<BView>)
      modifies views`index
      ensures forall v {:trigger v.index} | v in views ::
                v.index == if v.parent == this && old(v.index) >= from then old(v.index) + d else old(v.index)
    {
      forall v | v in views && v.parent == this && v.index >= from {
        v.index := v.index + d;
      }
    }

    twostate lemma InsertedKeepsLists(views: set<BView>)
      requires this in views && old(parent) == null && parent in views && parent != this
      requires old(Lists(views)) && Inserted(parent, this, index, views)
      ensures Lists(views)
    {
      InsertedKeepsFirst(views);
      InsertedKeepsPlaces(views);
      hide Inserted, HasChildren, HasPlace;
      forall v | v in views ensures Listed(v, views) {
        assert HasChildren(v, views) && HasPlace(v, views);
      }
    }

    twostate lemma InsertedKeepsFirst(views: set<BView>)
      requires this in views && old(parent) == null && parent in views && parent != this
      requires old(Lists(views)) && Inserted(parent, this, index, views)
      ensures forall v {:trigger HasChildren(v, views)} | v in views :: HasChildren(v, views)
    {
      ghost var p := parent;
      assert old(Listed(p, views));
      forall v | v in views ensures HasChildren(v, views) {
        assert old(Listed(v, views));
      }
    }

    twostate lemma InsertedKeepsPlaces(views: set<BView>)
      requires this in views && old(parent) == null && parent in views && parent != this
      requires old(Lists(views)) && Inserted(parent, this, index, views)
      ensures forall v {:trigger HasPlace(v, views)} | v in views :: HasPlace(v, views)
    {
      ghost var p := parent;
      assert old(Listed(p, views));
      forall v | v in views ensures HasPlace(v, views) {
        assert old(Listed(v, views));
      }
    }

    method LinkBefore(child: BView, before: BView, ghost views: set<BView>)
      requires this in views && child in views && child != this && child.parent == null
      requires Lists(views) && before in views && before.parent == this
      modifies views`firstChild, views`nextSibling, views`prevSibling
      ensures 0 <= before.index <= |kids| && Linked(this, child, before.index, views)
    {
      assert Listed(this, views) && Listed(before, views);
      KidsOf(this, views);
      hide Lists, Listed;
      PointToNeighbours(child, before, views);
      before.prevSibling := child;
      if firstChild == before {
        firstChild := child;
      }
    }

    /** The new child points to its neighbours, and the one in front of it to the new child. */
    method PointToNeighbours(child: BView, before: BView, ghost views: set<BView>)
      requires this in views && child in views && child != this && child.parent == null
      requires Lists(views) && before in views && before.parent == this
      modifies views`nextSibling, child`prevSibling
      ensures child.prevSibling == At(kids, before.index - 1)
      ensures forall v {:trigger v.nextSibling} | v in views :: v.nextSibling ==
                if v == child then before
                else if v.parent == this && v.index + 1 == before.index then child else old(v.nextSibling)
    {
      assert Listed(this, views) && Listed(before, views);
      KidsOf(this, views);
      hide Lists, Listed;
      child.nextSibling := before;
      child.prevSibling := before.prevSibling;
      if child.prevSibling != null {
        child.prevSibling.nextSibling := child;
      }
    }

    method LinkLast(child: BView, ghost views: set<BView>)
      requires this in views && child in views && child != this && child.parent == null
      requires Lists(views)
      modifies views`firstChild, views`nextSibling, views`prevSibling
      ensures Linked(this, child, |kids|, views)
    {
      assert Listed(this, views);
      var last := firstChild;
      ghost var k := 0;
      while last != null && last.nextSibling != null
        invariant last == At(kids, k) && (kids != [] ==> k < |kids|)
        decreases |kids| - k
      {
        assert Listed(last, views);
        last := last.nextSibling;
        k := k + 1;
      }
      KidsOf(this, views);
      if last != null {
        assert Listed(last, views);
      }
      hide Lists, Listed;
      if last != null {
        last.nextSibling := child;
        child.prevSibling := last;
      } else {
        firstChild := child;
        child.prevSibling := null;
      }
      child.nextSibling := null;
    }

    /** Takes a child out of the list of children. */
    method RemoveChildFromList(child: BView, ghost views: set<BView>)
      requires this in views && child in views && child.parent == this && Lists(views)
      modifies views`parent, views`firstChild, views`nextSibling, views`prevSibling, views`index, this`kids
      ensures Lists(views)
      ensures Removed(this, child, views)
    {
      Unlink(child, views);
      child.parent := null;
      child.nextSibling := null;
      child.prevSibling := null;
      ghost var i := child.index;
      Shift(i + 1, -1, views);
      kids := kids[..i] + kids[i + 1..];
      child.RemovedKeepsLists(views);
    }

    twostate lemma RemovedKeepsLists(views: set<BView>)
      requires this in views && old(parent) in views
      requires old(Lists(views)) && Removed(old(parent), this, views)
      ensures Lists(views)
    {
      assert old(Listed(this, views)) && old(Listed(parent, views));
      forall v | v in views ensures Listed(v, views) {
        assert old(Listed(v, views));
      }
    }

    method Unlink(child: BView, ghost views: set<BView>)
      requires this in views && child in views && child.parent == this && Lists(views)
      modifies views`firstChild, views`nextSibling, views`prevSibling
      ensures 0 <= child.index < |kids| && Unlinked(this, child, views)
    {
      assert Listed(this, views) && Listed(child, views);
      KidsOf(this, views);
      if child.nextSibling != null {
        assert Listed(child.nextSibling, views);
      }
      hide Lists, Listed;
      if firstChild == child {
        firstChild := child.nextSibling;
      } else {
        child.prevSibling.nextSibling := child.nextSibling;
      }
      if child.nextSibling != null {
        child.nextSibling.prevSibling := child.prevSibling;
      }
    }

    method CountChildren(ghost views: set<BView>) returns (count: nat)
      requires this in views && Lists(views)
      ensures count == |kids|
    {
      assert Listed(this, views);
      count := 0;
      var child := firstChild;
      while child != null
        invariant count <= |kids| && child == At(kids, count)
        decreases |kids| - count
      {
        assert Listed(child, views);
        count := count + 1;
        child := child.nextSibling;
      }
    }

    /** The child at `index`; a negative index gives the first child. */
    method ChildAt(index: int, ghost views: set<BView>) returns (child: BView?)
      requires this in views && Lists(views)
      ensures child == At(kids, if index < 0 then 0 else index)
    {
      assert Listed(this, views);
      child := firstChild;
      var left := index;
      ghost var i := 0;
      while child != null && left > 0
        invariant 0 <= i <= |kids| && child == At(kids, i)
        invariant left == index - i && (left < 0 ==> i == 0)
        decreases left
      {
        assert Listed(child, views);
        child := child.nextSibling;
        left := left - 1;
        i := i + 1;
      }
    }

    // Attaching to a window

    /** `_attach`, with hooks that do nothing: registers the views of the subtree. */
    method Attach(window: BWindow, ghost views: set<BView>)
      requires this in views && Forest(views) && Registered(window, views) && Loopers(views)
      requires Owned(Subtree(this, views), null)
      modifies views`owner, views`looper, window`handlers
      ensures Registered(window, views) && Loopers(views)
      ensures OwnersChanged(Subtree(this, views), window, views)
      ensures window.handlers == old(window.handlers) + Preorder(this, views)
      decreases Subtree(this, views), 1
    {
      hide Lists, Paths, InSubtree, BelowFirst, PreorderBelow;
      SubtreeParts(this, views);
      assert this !in window.handlers;
      owner := window;
      window.AddHandler(this, {}, {});
      AttachChildren(window, views);
    }

    /** The loop of `_attach`. */
    method AttachChildren(window: BWindow, ghost views: set<BView>)
      requires this in views && Forest(views) && Registered(window, views) && Loopers(views)
      requires Owned(Below(this, |kids|, views), null)
      modifies views`owner, views`looper, window`handlers
      ensures Registered(window, views) && Loopers(views)
      ensures OwnersChanged(Below(this, |kids|, views), window, views)
      ensures window.handlers == old(window.handlers) + PreorderBelow(this, |kids|, views)
      decreases Subtree(this, views), 0
    {
      hide Lists, Paths, InSubtree, BelowFirst, Registered, Loopers, Preorder;
      SubtreeParts(this, views);
      var child := firstChild;
      ghost var i := 0;
      while child != null
        invariant 0 <= i <= |kids| && child == At(kids, i)
        invariant Registered(window, views) && Loopers(views)
        invariant OwnersChanged(Below(this, i, views), window, views)
        invariant window.handlers == old(window.handlers) + PreorderBelow(this, i, views)
        decreases |kids| - i
      {
        SubtreeOfChild(this, i, views);
        if child.owner == null {
          child.Attach(window, views);
        }
        i := i + 1;
        child := child.nextSibling;
      }
    }

    // Detaching

    /** Gives the focus to this view, or takes it from this view. */
    method MakeFocus(state: bool, ghost views: set<BView>, ghost windows: set<BWindow>)
      requires owner != null && owner.focus != null ==> owner.focus.owner == owner
      modifies if owner == null then {} else {owner}
      ensures owner != null ==>
                && owner.handlers == old(owner.handlers) && owner.lastMouseMoved == old(owner.lastMouseMoved)
                && owner.focus == (if state then this else if old(owner.focus) == this then null else old(owner.focus))
                && owner.preferred ==
                   if old(owner.focus) == this then (if state then old(owner.preferred) else null)
                   else if !state then old(owner.preferred)
                   else if looper == owner && this in owner.handlers then this else null
      ensures this in views && old(Agreement(views, windows)) ==> Agreement(views, windows)
      decreases state
    {
      if owner == null {
        return;
      }
      var focusView := owner.focus;
      if state {
        if focusView != null && focusView != this {
          focusView.MakeFocus(false, {}, {});
        }
        owner.SetFocus(this);
      } else {
        if focusView == this {
          owner.SetFocus(null);
        }
      }
      if this in views && old(Agreement(views, windows)) {
        assert old(Settled(owner, views));
        forall w | w in windows ensures Settled(w, views) {
          assert old(Settled(w, views));
        }
      }
    }

    /** `_detach`, with hooks that do nothing: takes the views of the subtree out of the window. */
    method Detach(ghost window: BWindow, ghost views: set<BView>)
      requires this in views && Forest(views) && Registered(window, views) && Loopers(views) && Pointing(window)
      requires Owned(Subtree(this, views), window)
      modifies views`owner, views`looper, window
      ensures Registered(window, views) && Loopers(views) && Pointing(window)
      ensures OwnersChanged(Subtree(this, views), null, views)
      ensures PointersCleared(Subtree(this, views), window)
      decreases Subtree(this, views), 1
    {
      hide Lists, Paths, InSubtree, BelowFirst, Registered, Pointing, Cleared;
      SubtreeParts(this, views);
      ghost var below := Below(this, |kids|, views);
      assert Subtree(this, views) == below + {this};
      DetachChildren(window, views);
      LeaveWindow(window, views);
      ClearedTwice(old(PointersOf(window)), below, {this});
    }

    /** The end of `_detach`. */
    method LeaveWindow(ghost window: BWindow, ghost views: set<BView>)
      requires this in views && owner == looper == window
      requires Registered(window, views) && Loopers(views) && Pointing(window)
      modifies this`owner, this`looper, window
      ensures owner == looper == null && Registered(window, views) && Loopers(views) && Pointing(window)
      ensures PointersCleared({this}, window)
    {
      RemoveFirstOfDistinct(owner.handlers, this);
      hide RemoveFirst, Without;
      if owner.focus == this {
        MakeFocus(false, {}, {});
      }
      if owner.lastMouseMoved == this {
        owner.lastMouseMoved := null;
      }
      var removed := owner.RemoveHandler(this, {}, {});
      owner := null;
    }

    /** The loop of `_detach`. */
    method DetachChildren(ghost window: BWindow, ghost views: set<BView>)
      requires this in views && Forest(views) && Registered(window, views) && Loopers(views) && Pointing(window)
      requires Owned(Below(this, |kids|, views), window)
      modifies views`owner, views`looper, window
      ensures Registered(window, views) && Loopers(views) && Pointing(window)
      ensures OwnersChanged(Below(this, |kids|, views), null, views)
      ensures PointersCleared(Below(this, |kids|, views), window)
      decreases Subtree(this, views), 0
    {
      SubtreeParts(this, views);
      ClearedNone(PointersOf(window));
      hide *;
      var child := firstChild;
      ghost var i := 0;
      while child != null
        invariant 0 <= i <= |kids| && child == At(kids, i)
        invariant Registered(window, views) && Loopers(views) && Pointing(window)
        invariant OwnersChanged(Below(this, i, views), null, views)
        invariant PointersCleared(Below(this, i, views), window)
        modifies views`owner, views`looper, window
        decreases |kids| - i
      {
        ghost var done, next := Below(this, i, views), Subtree(child, views);
        SubtreeOfChild(this, i, views);
        assert Below(this, i + 1, views) == done + next && done !! next;
        assert Owned(next, window);
        child.Detach(window, views);
        assert OwnersChanged(done + next, null, views);
        ClearedTwice(old(PointersOf(window)), done, next);
        i := i + 1;
        child := child.nextSibling;
      }
    }

    // Adding and removing children

    /** Links a view and its subtree below this one.  They still form a forest if the view is not an ancestor of this
        one; otherwise the parents now form a cycle. */
    method AddSubtree(child: BView, before: BView?, ghost views: set<BView>)
      requires this in views && child in views && child != this && child.parent == null
      requires Forest(views) && (before != null ==> before in views && before.parent == this)
      modifies views`parent, views`firstChild, views`nextSibling, views`prevSibling, views`index, this`kids, views`path
      ensures Inserted(this, child, old(PlaceFor(this, before)), views)
      ensures child !in old(path) ==>
                && Forest(views)
                && (forall v {:trigger v.path} | v in views ::
                      v.path == if v in old(Tree(child, views)) then old(path) + old(v.path) else old(v.path))
                && Subtree(child, views) == old(Tree(child, views))
      ensures child in old(path) ==> OwnAncestor(child, old(path))
    {
      PathEnd(this, views);
      PathEnd(child, views);
      assert child.path == [child] by {
        assert HasPath(child, views);
      }
      ghost var d := |path|;
      forall v | v in views && v.path != [] ensures v.path[0] in views && v.path[0].path == [v.path[0]] {
        PathStep(v, 0, views);
      }
      if child in path {
        RootOnPath(this, child, views);
      } else {
        forall v | v in views && d < |v.path| ensures v.path[d] != child {
          PathStep(v, d, views);
        }
      }
      hide Lists, Linked;
      AddChildToList(child, before, views);
      if child !in path {
        ExtendPaths(child, views);
      }
    }

    ghost method ExtendPaths(child: BView, views: set<BView>)
      requires this in views && child in views && child.parent == this && child.path == [child] && child !in path
      requires forall v {:trigger HasPath(v, views)} | v in views && v != child :: HasPath(v, views)
      modifies views`path
      ensures Paths(views)
      ensures forall v {:trigger v.path} | v in views ::
                v.path == if v in old(Tree(child, views)) then old(path) + old(v.path) else old(v.path)
    {
      assert HasPath(this, views);
      forall v | v in views && At(v.path, 0) == child {
        v.path := path + v.path;
      }
      forall v | v in views ensures HasPath(v, views) {
        if v != child {
          assert old(HasPath(v, views));
          if v.parent != null && v.parent != child {
            assert old(HasPath(v.parent, views));
          }
        }
      }
    }

    /** Takes a child and its subtree away. */
    method RemoveSubtree(child: BView, ghost views: set<BView>)
      requires this in views && child in views && child.parent == this && Forest(views)
      modifies views`parent, views`firstChild, views`nextSibling, views`prevSibling, views`index, this`kids, views`path
      ensures Forest(views) && Removed(this, child, views)
      ensures forall v {:trigger v.parent} | v in views :: v.parent == if v == child then null else old(v.parent)
      ensures forall v {:trigger v.path} | v in views ::
                v.path == if v in old(Subtree(child, views)) then old(v.path[|child.path| - 1..]) else old(v.path)
    {
      PathEnd(this, views);
      PathEnd(child, views);
      RemoveChildFromList(child, views);
      ShortenPaths(child, views);
    }

    ghost method ShortenPaths(child: BView, views: set<BView>)
      requires this in views && child in views && child.parent == null && child.path == path + [child] && path != []
      requires forall v {:trigger HasPath(v, views)} | v in views && v != child :: HasPath(v, views)
      modifies views`path
      ensures Paths(views)
      ensures forall v {:trigger v.path} | v in views ::
                v.path == if v in old(Subtree(child, views)) then old(v.path)[|old(path)|..] else old(v.path)
    {
      ghost var d := |path|;
      forall v | v in Subtree(child, views) {
        v.path := v.path[d..];
      }
      forall v | v in views ensures HasPath(v, views) {
        if v != child {
          assert old(HasPath(v, views));
          if v.parent != null {
            if v in old(Subtree(child, views)) {
              assert v.parent in old(Subtree(child, views));
            }
          }
        }
      }
    }

    twostate lemma JoinedKeepsTied(views: set<BView>)
      requires this in views && old(parent) == null && parent != null && parent in views && old(owner) == null
      requires old(Paths(views) && AllTied(views))
      requires
        var p := parent;
        p.owner == old(p.owner) && Extended(p, this, views)
      requires forall v {:trigger v.parent} | v in views :: v.parent == if v == this then parent else old(v.parent)
      ensures AllTied(views)
    {
      assert old(HasPath(this, views));
      forall v | v in views ensures Tied(v, views) {
        assert old(Tied(v, views) && HasPath(v, views));
        if v.parent != null && v != this {
          assert old(HasPath(v.parent, views));
        }
      }
    }

    /** The part of AddChild behind its checks.  `_attach` aborts if the child has an owner. */
    method LinkAndAttach(child: BView, before: BView?, ghost views: set<BView>, ghost windows: set<BWindow>)
        returns (outcome: Outcome)
      requires this in views && Agreement(views, windows)
      requires child in views && child != this && child.parent == null
      requires before != null ==> before in views && before.parent == this
      modifies views`parent, views`firstChild, views`nextSibling, views`prevSibling, views`index, views`kids, views`path
      modifies views`owner, views`looper, windows`handlers
      ensures outcome == if old(owner) != null && old(child.owner) != null then Aborted else Done
      ensures Inserted(this, child, old(PlaceFor(this, before)), views)
      ensures owner == old(owner) && (old(child.owner) != null ==> child.owner == old(child.owner))
      ensures forall w | w in windows && w != owner :: w.handlers == old(w.handlers)
      ensures child !in old(path) && old(child.owner) == null ==>
                && Forest(views) && Loopers(views) && (owner != null ==> Registered(owner, views))
                && Extended(this, child, views)
                && (owner != null ==> owner.handlers == old(owner.handlers) + Preorder(child, views))
                && forall v {:trigger v.owner} | v in views :: v.owner == old(v.owner) || old(v.owner) == null
      ensures child in old(path) ==> OwnAncestor(child, old(path))
    {
      ghost var tree := Tree(child, views);
      if child.owner == null {
        TreeIsUnowned(this, child, views, windows);
      }
      hide *;
      AddSubtree(child, before, views);
      if owner != null {
        if child.owner != null {
          return Aborted;
        }
        child.Attach(owner, views);
      }
      assert child.owner == old(child.owner) || OwnersChanged(tree, old(owner), views);
      return Done;
    }

    /** Adds a view, in front of `before` or at the end, and attaches its subtree to this view's window.  It aborts at
        once for a child that has a parent, for this view itself and for a sibling that is none, and after linking for
        the top view of a window if this view has a window too.  Otherwise views and windows agree afterwards if and
        only if the child is neither an ancestor of this view nor a window's top view. */
    method AddChild(child: BView?, before: BView?, ghost views: set<BView>, ghost windows: set<BWindow>)
        returns (outcome: Outcome)
      requires this in views && Agreement(views, windows)
      requires (child != null ==> child in views) && (before != null ==> before in views)
      modifies views`parent, views`firstChild, views`nextSibling, views`prevSibling, views`index, views`kids, views`path
      modifies views`owner, views`looper, windows`handlers
      ensures outcome == if child != null && old(Refused(child, before) || (owner != null && child.owner != null))
                         then Aborted else Done
      ensures child == null || old(Refused(child, before)) ==> unchanged(views) && unchanged(windows)
      ensures outcome == Done && child != null && before == null ==> kids == old(kids) + [child]
      ensures outcome == Done && child != null && before != null ==>
                && 0 <= old(before.index) < |old(kids)| && old(kids)[old(before.index)] == before
                && kids == old(kids)[..old(before.index)] + [child] + old(kids)[old(before.index)..]
      ensures outcome == Done && child != null ==>
                && Inserted(this, child, old(PlaceFor(this, before)), views) && child.parent == this
                && (Agreement(views, windows) <==> child !in old(path) && old(child.owner) == null)
      ensures outcome == Done && child != null && child !in old(path) && old(child.owner) == null ==>
                && owner == old(owner) && Extended(this, child, views)
                && (owner != null ==> owner.handlers == old(owner.handlers) + Preorder(child, views))
      ensures outcome == Done && child != null && child in old(path) ==> OwnAncestor(child, old(path)) && !Paths(views)
      ensures forall w | w in windows && w != old(owner) :: w.handlers == old(w.handlers)
    {
      if child == null {
        return Done;
      }
      if child.parent != null {
        return Aborted;
      }
      if child == this {
        return Aborted;
      }
      if before != null && before.parent != this {
        return Aborted;
      }
      assert Tied(this, views);
      assert before != null ==> Listed(before, views);
      if child in path {
        RootOnPath(this, child, views);
      }
      outcome := LinkAndAttach(child, before, views, windows);
      if outcome == Aborted {
        return;
      }
      if old(child.owner) != null {
        assert !Tied(child, views);
      }
      if child in old(path) {
        CycleIsNoForest(child, old(path), views);
      } else if old(child.owner) == null {
        child.JoinedKeepsTied(views);
        forall w | w in windows ensures Settled(w, views) {
          assert old(Settled(w, views));
          w.JoinedKeepsSettled(views);
        }
      }
    }

    /** The arguments for which AddChild aborts before it changes anything. */
    ghost predicate Refused(child: BView, before: BView?)
      reads child, before
    {
      child.parent != null || child == this || (before != null && before.parent != this)
    }

    /** When a subtree has lost its owner, only its top differs from its parent. */
    lemma {:induction false} LeftIsTied(v: BView, views: set<BView>)
      requires this in views && v in views && Paths(views)
      ensures v != this && v.parent != null ==> v.parent in views && (InSubtree(v, this) <==> InSubtree(v.parent, this))
      ensures v.parent == null && parent != null ==> !InSubtree(v, this)
    {
      PathEnd(this, views);
      PathEnd(v, views);
      if v.parent != null {
        PathEnd(v.parent, views);
      }
      if parent != null {
        PathEnd(parent, views);
      }
    }

    ghost predicate TiedBelow(views: set<BView>)
      reads views`parent, views`owner
    {
      forall v {:trigger Tied(v, views)} | v in views && v != this :: Tied(v, views)
    }

    /** Detaches a subtree if it has an owner. */
    method DetachIfOwned(child: BView, ghost gone: set<BView>, ghost window: BWindow?, ghost views: set<BView>)
      requires child in views && Forest(views) && Loopers(views) && Owned(gone, window)
      requires gone == Subtree(child, views) && window == child.owner && AllTied(views) && child.parent != null
      requires window != null ==> Registered(window, views) && Pointing(window)
      modifies views`owner, views`looper, if window == null then {} else {window}
      ensures Loopers(views) && child.TiedBelow(views) && child.owner == null
      ensures OwnersChanged(gone, null, views)
      ensures window != null ==> Registered(window, views) && Pointing(window) && PointersCleared(gone, window)
    {
      forall v | v in views && Tied(v, views)
        ensures v != child && v.parent != null ==> (v in Subtree(child, views) <==> v.parent in Subtree(child, views))
        ensures v.parent == null ==> v !in Subtree(child, views)
      {
        child.LeftIsTied(v, views);
      }
      PathEnd(child, views);
      assert child in Subtree(child, views);
      hide Forest, Loopers, Registered, Pointing, Subtree;
      if child.owner != null {
        child.Detach(child.owner, views);
      }
      forall v | v in views && v != child ensures Tied(v, views) {
        assert old(Tied(v, views));
      }
    }

    /** The part of RemoveChild behind its checks. */
    method DetachAndUnlink(child: BView, ghost gone: set<BView>, ghost window: BWindow?,
                           ghost views: set<BView>, ghost windows: set<BWindow>)
      requires this in views && Agreement(views, windows) && child in views && child.parent == this
      requires gone == Subtree(child, views) && window == owner
      modifies views`parent, views`firstChild, views`nextSibling, views`prevSibling, views`index, views`kids, views`path
      modifies views`owner, views`looper, if window == null then {} else {window}
      ensures Forest(views) && Loopers(views) && AllTied(views) && Removed(this, child, views)
      ensures forall v {:trigger v.path} | v in views ::
                v.path == if v in gone then old(v.path[|child.path| - 1..]) else old(v.path)
      ensures OwnersChanged(gone, null, views)
      ensures window != null ==> Registered(window, views) && Pointing(window) && PointersCleared(gone, window)
    {
      hide Agreement, Forest, Lists, Paths, AllTied, TiedBelow, Loopers, Registered, Pointing, Subtree, Owned;
      hide OwnersChanged, PointersCleared, Cleared, PointersOf;
      WhatIsDetached(child, views, windows);
      DetachIfOwned(child, gone, window, views);
      UnlinkOrphan(child, gone, views);
    }

    method UnlinkOrphan(child: BView, ghost gone: set<BView>, ghost views: set<BView>)
      requires this in views && Forest(views) && child in views && child.parent == this && child.owner == null
      requires gone == Subtree(child, views) && child.TiedBelow(views)
      modifies views`parent, views`firstChild, views`nextSibling, views`prevSibling, views`index, this`kids, views`path
      ensures Forest(views) && AllTied(views) && Removed(this, child, views)
      ensures forall v {:trigger v.path} | v in views ::
                v.path == if v in gone then old(v.path[|child.path| - 1..]) else old(v.path)
    {
      hide Forest, Removed, Subtree;
      RemoveSubtree(child, views);
      forall v | v in views ensures Tied(v, views) {
        assert v != child ==> old(Tied(v, views));
      }
    }

    /** Removes a child and detaches its subtree from the window. */
    method RemoveChild(child: BView?, ghost views: set<BView>, ghost windows: set<BWindow>) returns (removed: bool)
      requires this in views && Agreement(views, windows) && (child != null ==> child in views)
      modifies views`parent, views`firstChild, views`nextSibling, views`prevSibling, views`index, views`kids, views`path
      modifies views`owner, views`looper, windows
      ensures removed <==> child != null && old(child.parent) == this
      ensures !removed ==> unchanged(views) && unchanged(windows)
      ensures removed ==>
                && 0 <= old(child.index) < |old(kids)| && old(kids)[old(child.index)] == child
                && kids == old(kids)[..old(child.index)] + old(kids)[old(child.index) + 1..]
      ensures removed ==>
                && Agreement(views, windows) && Removed(this, child, views)
                && (forall v {:trigger v.path} | v in views ::
                      v.path == if v in old(Subtree(child, views)) then old(v.path[|child.path| - 1..])
                                else old(v.path))
                && OwnersChanged(old(Subtree(child, views)), null, views)
                && (old(owner) != null ==> PointersCleared(old(Subtree(child, views)), old(owner)))
      ensures forall w | w in windows && w != old(owner) :: unchanged(w)
    {
      if child == null {
        return false;
      }
      if child.parent != this {
        return false;
      }
      OwnersOfSubtree(child, views, windows);
      RootsOutside(child, views);
      assert Tied(child, views) && Listed(child, views);
      DetachAndUnlink(child, Subtree(child, views), owner, views, windows);
      hide Forest, Registered, Loopers, Pointing, PointersCleared, Subtree, Tied;
      forall w | w in windows ensures Settled(w, views) {
        assert old(Settled(w, views));
        w.LeftKeepsSettled(views);
      }
      return true;
    }
  }

  /** The part of a window that refers to views. */
  class BWindow {
    var handlers: seq<BView>
    var preferred: BView?
    var focus: BView?
    var lastMouseMoved: BView?
    const topView: BView

    /** A new window attaches its own top view. */
    constructor (top: BView, ghost views: set<BView>, ghost windows: set<BWindow>)
      requires Agreement(views, windows) && top in views && top.parent == null && top.owner == null && top.kids == []
      modifies views`owner, views`looper
      ensures topView == top && top.owner == this && preferred == focus == lastMouseMoved == null
      ensures Agreement(views, windows + {this})
      ensures forall v | v in views && v != top :: v.owner == old(v.owner)
    {
      topView := top;
      handlers := [];
      preferred, focus, lastMouseMoved := null, null, null;
      new;
      AttachTop(views, windows);
    }

    /** The call of `_attach` at the end of a window's construction. */
    method AttachTop(ghost views: set<BView>, ghost windows: set<BWindow>)
      requires Agreement(views, windows) && this !in windows
      requires topView in views && topView.parent == null && topView.owner == null && topView.kids == []
      requires handlers == [] && preferred == focus == lastMouseMoved == null
      modifies views`owner, views`looper, `handlers
      ensures topView.owner == this && Agreement(views, windows + {this})
      ensures forall v | v in views && v != topView :: v.owner == old(v.owner)
    {
      SubtreeParts(topView, views);
      forall v | v in views ensures v.parent != topView {
        assert Listed(v, views);
      }
      assert forall v {:trigger v.owner} | v in views :: v.owner != this;
      assert Below(topView, |topView.kids|, views) == {};
      hide Forest, Subtree, Below, Listed;
      topView.Attach(this, views);
      hide NoDuplicates;
      forall v | v in views ensures Tied(v, views) {
        assert old(Tied(v, views));
      }
      hide Registered, Tied;
      forall w | w in windows ensures Settled(w, views) {
        assert old(Settled(w, views));
        w.JoinedKeepsSettled(views);
      }
    }

    /** Registers a handler that has no looper.  For a view that is not attached this alone breaks the agreement. */
    method AddHandler(handler: BView, ghost views: set<BView>, ghost windows: set<BWindow>)
      modifies this`handlers, handler`looper
      ensures handler in views && old(Agreement(views, windows)) ==>
                (Agreement(views, windows) <==> old(handler.owner) != null)
      ensures
        if old(handler.looper) == null then handlers == old(handlers) + [handler] && handler.looper == this
        else handlers == old(handlers) && handler.looper == old(handler.looper)
    {
      assert handler in views && Agreement(views, windows) ==> handler.looper == handler.owner;
      if handler.looper == null {
        handlers := handlers + [handler];
        handler.looper := this;
      }
    }

    /** Takes out a handler of this window.  For a view that the window owns this alone breaks the agreement. */
    method RemoveHandler(handler: BView, ghost views: set<BView>, ghost windows: set<BWindow>) returns (removed: bool)
      modifies this`handlers, this`preferred, handler`looper
      ensures handler in views && old(Agreement(views, windows)) ==>
                (Agreement(views, windows) <==> old(handler.owner) != this)
      ensures removed <==> old(handler.looper) == this && handler in old(handlers)
      ensures
        if removed then
          && handlers == RemoveFirst(old(handlers), handler)
          && handler.looper == null
          && preferred == if old(preferred) == handler then null else old(preferred)
        else handlers == old(handlers) && handler.looper == old(handler.looper) && preferred == old(preferred)
    {
      if handler in views && Agreement(views, windows) {
        assert handler.looper == handler.owner && (handler.owner == this ==> Settled(this, views));
      }
      if handler.looper == this && handler in handlers {
        handlers := RemoveFirst(handlers, handler);
        if handler == preferred {
          preferred := null;
        }
        handler.looper := null;
        return true;
      }
      return false;
    }

    /** Views that had no owner do not matter to this window, unless they have become its own. */
    twostate lemma JoinedKeepsSettled(views: set<BView>)
      requires old(Settled(this, views)) && old(Loopers(views)) && Loopers(views)
      requires focus == old(focus) && lastMouseMoved == old(lastMouseMoved) && preferred == old(preferred)
      requires forall v {:trigger v.owner} | v in views :: v.owner == old(v.owner) || old(v.owner) == null
      requires topView.parent == old(topView.parent)
      requires
        || Registered(this, views)
        || (handlers == old(handlers)
            && forall v {:trigger v.owner} | v in views && v.owner == this :: old(v.owner) == this)
      ensures Settled(this, views)
    {
      forall v | v in old(handlers) ensures v in handlers {
        assert old(v.looper) == old(v.owner) == v.owner == v.looper;
      }
    }

    /** Views that have lost their owner do not matter to this window, unless they were its own. */
    twostate lemma LeftKeepsSettled(views: set<BView>)
      requires old(Settled(this, views)) && old(Loopers(views)) && Loopers(views)
      requires topView.parent == old(topView.parent) && topView.owner == old(topView.owner)
      requires
        || (Registered(this, views) && Pointing(this))
        || (handlers == old(handlers)
            && focus == old(focus) && lastMouseMoved == old(lastMouseMoved) && preferred == old(preferred)
            && forall v {:trigger v.owner} | v in views :: v.owner == this <==> old(v.owner) == this)
      ensures Settled(this, views)
    {
    }

    /** A handler that is not registered here stands for none. */
    method SetPreferredHandler(handler: BView?, ghost views: set<BView>, ghost windows: set<BWindow>)
      modifies this`preferred
      ensures old(Agreement(views, windows)) ==> Agreement(views, windows)
      ensures preferred == if handler != null && handler.looper == this && handler in handlers then handler else null
    {
      if handler != null && handler.looper == this && handler in handlers {
        preferred := handler;
      } else {
        preferred := null;
      }
      if old(Agreement(views, windows)) {
        forall w | w in windows ensures Settled(w, views) {
          assert old(Settled(w, views));
        }
      }
    }

    method SetFocus(view: BView?)
      modifies this`preferred, this`focus
      ensures focus == view
      ensures preferred ==
              if old(focus) == view then old(preferred)
              else if view != null && view.looper == this && view in handlers then view else null
    {
      if focus == view {
        return;
      }
      focus := view;
      SetPreferredHandler(view, {}, {});
    }
  }

  ghost function At(s: seq<BView>, i: int): BView? {
    if 0 <= i < |s| then s[i] else null
  }

  /** The pointers of `v` agree with its children and with its own place among its parent's. */
  ghost predicate Listed(v: BView, views: set<BView>)
    requires v in views
    reads views`parent, views`firstChild, views`nextSibling, views`prevSibling, views`kids, views`index
  {
    HasChildren(v, views) && HasPlace(v, views)
  }

  ghost predicate HasChildren(v: BView, views: set<BView>)
    requires v in views
    reads views`parent, views`firstChild, views`kids, views`index
  {
    && v.firstChild == At(v.kids, 0)
    && forall i | 0 <= i < |v.kids| :: v.kids[i] in views && v.kids[i].parent == v && v.kids[i].index == i
  }

  ghost predicate HasPlace(v: BView, views: set<BView>)
    requires v in views
    reads views`parent, views`nextSibling, views`prevSibling, views`kids, views`index
  {
    if v.parent == null then v.nextSibling == v.prevSibling == null
    else
      && v.parent in views && 0 <= v.index < |v.parent.kids| && v.parent.kids[v.index] == v
      && v.nextSibling == At(v.parent.kids, v.index + 1)
      && v.prevSibling == At(v.parent.kids, v.index - 1)
  }

  ghost predicate Lists(views: set<BView>)
    reads views`parent, views`firstChild, views`nextSibling, views`prevSibling, views`kids, views`index
  {
    forall v {:trigger Listed(v, views)} | v in views :: Listed(v, views)
  }

  /** The children are exactly the views with this parent. */
  lemma KidsOf(p: BView, views: set<BView>)
    requires p in views && Lists(views)
    ensures forall v {:trigger v.index} | v in views && v.parent == p :: 0 <= v.index < |p.kids| && p.kids[v.index] == v
  {
    assert Listed(p, views);
    forall v | v in views ensures v.parent == p ==> 0 <= v.index < |p.kids| && p.kids[v.index] == v {
      assert Listed(v, views);
    }
  }

  /** Where a new child goes: the place of `before`, or the end. */
  ghost function PlaceFor(p: BView, before: BView?): int
    reads p, before
  {
    if before == null then |p.kids| else before.index
  }

  /** `child` has become child `i` of `p`, and nothing else has changed. */
  twostate predicate Inserted(p: BView, child: BView, i: int, views: set<BView>)
    reads p`kids, views`parent, views`firstChild, views`nextSibling, views`prevSibling, views`kids, views`index
  {
    && 0 <= i <= |old(p.kids)|
    && p.kids == old(p.kids)[..i] + [child] + old(p.kids)[i..]
    && (forall v {:trigger v.kids} | v in views && v != p :: v.kids == old(v.kids))
    && (forall v {:trigger v.parent} | v in views :: v.parent == if v == child then p else old(v.parent))
    && (forall v {:trigger v.index} | v in views :: v.index ==
          if v == child then i
          else if old(v.parent) == p && old(v.index) >= i then old(v.index) + 1 else old(v.index))
    && Linked(p, child, i, views)
  }

  /** The pointers to siblings and first children after `child` was inserted. */
  twostate predicate Linked(p: BView, child: BView, i: int, views: set<BView>)
    reads views`firstChild, views`nextSibling, views`prevSibling
  {
    && (forall v {:trigger v.firstChild} | v in views ::
          v.firstChild == if v == p && i == 0 then child else old(v.firstChild))
    && (forall v {:trigger v.nextSibling} | v in views :: v.nextSibling ==
          if v == child then old(At(p.kids, i))
          else if old(v.parent) == p && old(v.index) + 1 == i then child else old(v.nextSibling))
    && (forall v {:trigger v.prevSibling} | v in views :: v.prevSibling ==
          if v == child then old(At(p.kids, i - 1))
          else if old(v.parent) == p && old(v.index) == i then child else old(v.prevSibling))
  }

  /** `child` is no longer a child of `p`, and nothing else has changed. */
  twostate predicate Removed(p: BView, child: BView, views: set<BView>)
    reads p`kids, child`nextSibling, child`prevSibling
    reads views`parent, views`firstChild, views`nextSibling, views`prevSibling, views`kids, views`index
  {
    var i := old(child.index);
    && 0 <= i < |old(p.kids)|
    && p.kids == old(p.kids)[..i] + old(p.kids)[i + 1..]
    && (forall v {:trigger v.kids} | v in views && v != p :: v.kids == old(v.kids))
    && (forall v {:trigger v.parent} | v in views :: v.parent == if v == child then null else old(v.parent))
    && (forall v {:trigger v.index} | v in views :: v.index ==
          if old(v.parent) == p && old(v.index) > i then old(v.index) - 1 else old(v.index))
    && child.nextSibling == child.prevSibling == null
    && (forall v {:trigger v.firstChild} | v in views ::
          v.firstChild == if v == p && i == 0 then old(At(p.kids, 1)) else old(v.firstChild))
    && (forall v {:trigger v.nextSibling} | v in views && v != child :: v.nextSibling ==
          if old(v.parent) == p && old(v.index) + 1 == i then old(child.nextSibling) else old(v.nextSibling))
    && (forall v {:trigger v.prevSibling} | v in views && v != child :: v.prevSibling ==
          if old(v.parent) == p && old(v.index) == i + 1 then old(child.prevSibling) else old(v.prevSibling))
  }

  /** The pointers to siblings and first children after those past `child` were moved. */
  twostate predicate Unlinked(p: BView, child: BView, views: set<BView>)
    reads views`firstChild, views`nextSibling, views`prevSibling
  {
    var i := old(child.index);
    && (forall v {:trigger v.firstChild} | v in views ::
          v.firstChild == if v == p && i == 0 then old(At(p.kids, 1)) else old(v.firstChild))
    && (forall v {:trigger v.nextSibling} | v in views && v != child :: v.nextSibling ==
          if old(v.parent) == p && old(v.index) + 1 == i then old(child.nextSibling) else old(v.nextSibling))
    && (forall v {:trigger v.prevSibling} | v in views && v != child :: v.prevSibling ==
          if old(v.parent) == p && old(v.index) == i + 1 then old(child.prevSibling) else old(v.prevSibling))
  }

  // Paths

  /** The path of `v` is its parent's path and `v`. */
  ghost predicate HasPath(v: BView, views: set<BView>)
    reads v`parent, v`path, views`path
  {
    if v.parent == null then v.path == [v] else v.parent in views && v.path == v.parent.path + [v]
  }

  /** Every view has a path from a root, so no view is its own ancestor. */
  ghost predicate Paths(views: set<BView>)
    reads views`parent, views`path
  {
    forall v {:trigger HasPath(v, views)} | v in views :: HasPath(v, views)
  }

  /** The views are a forest whose sibling lists are consistent. */
  ghost predicate Forest(views: set<BView>)
    reads views`parent, views`firstChild, views`nextSibling, views`prevSibling, views`kids, views`index, views`path
  {
    Lists(views) && Paths(views)
  }

  ghost predicate InSubtree(v: BView, top: BView)
    reads v`path, top`path
  {
    0 < |top.path| <= |v.path| && v.path[|top.path| - 1] == top
  }

  /** Every prefix of a path is the path of its last view, and follows the parent pointers. */
  lemma {:induction false} PathStep(v: BView, i: nat, views: set<BView>)
    requires v in views && Paths(views) && i < |v.path|
    ensures v.path[i] in views && v.path[i].path == v.path[..i + 1]
    ensures v.path[i].parent == At(v.path, i - 1)
    decreases |v.path|
  {
    assert HasPath(v, views);
    if i < |v.path| - 1 {
      PathStep(v.parent, i, views);
      assert v.path[..i + 1] == v.parent.path[..i + 1];
    } else {
      assert v.path[..i + 1] == v.path;
      if v.parent != null {
        assert HasPath(v.parent, views);
      }
    }
  }

  lemma {:induction false} PathEnd(v: BView, views: set<BView>)
    requires v in views && Paths(views)
    ensures |v.path| > 0 && v.path[|v.path| - 1] == v
    ensures if v.parent == null then v.path == [v] else v.parent in views && v.path == v.parent.path + [v]
  {
    assert HasPath(v, views);
  }

  /** `v` is below one of the first `i` children of `p`. */
  ghost predicate BelowFirst(v: BView, p: BView, i: int, views: set<BView>)
    reads v`path, p`path, views`index
  {
    && 0 < |p.path| < |v.path| && v.path[|p.path| - 1] == p
    && v.path[|p.path|] in views && v.path[|p.path|].index < i
  }

  /** The subtree of the next child. */
  lemma {:induction false} BelowNext(v: BView, p: BView, i: int, views: set<BView>)
    requires v in views && p in views && Forest(views) && 0 <= i < |p.kids|
    ensures p.kids[i] in views && p.kids[i].path == p.path + [p.kids[i]] && |p.path| > 0
    ensures InSubtree(v, p.kids[i]) <==> BelowFirst(v, p, i + 1, views) && !BelowFirst(v, p, i, views)
  {
    assert Listed(p, views);
    var c, d := p.kids[i], |p.path|;
    PathEnd(p, views);
    PathEnd(c, views);
    if d < |v.path| {
      PathStep(v, d, views);
      assert Listed(v.path[d], views);
    }
  }

  /** A subtree is its top and what is below the top's children. */
  lemma {:induction false} BelowAll(v: BView, p: BView, views: set<BView>)
    requires v in views && p in views && Forest(views)
    ensures InSubtree(v, p) <==> v == p || BelowFirst(v, p, |p.kids|, views)
    ensures !BelowFirst(v, p, 0, views)
  {
    var d := |p.path|;
    PathEnd(p, views);
    PathEnd(v, views);
    if d < |v.path| {
      PathStep(v, d, views);
      assert Listed(v.path[d], views);
    }
  }

  ghost function Subtree(top: BView, views: set<BView>): set<BView>
    reads top`path, views`path
  {
    set v | v in views && InSubtree(v, top)
  }

  /** The tree with this root. */
  ghost function Tree(root: BView, views: set<BView>): set<BView>
    reads views`path
  {
    set v | v in views && At(v.path, 0) == root
  }

  /** The views below the first `i` children of `p`. */
  ghost function Below(p: BView, i: int, views: set<BView>): set<BView>
    reads p`path, views`path, views`index
  {
    set v | v in views && BelowFirst(v, p, i, views)
  }

  ghost predicate Owned(some: set<BView>, w: BWindow?)
    reads some`owner
  {
    forall v {:trigger v.owner} | v in some :: v.owner == w
  }

  /** A view's looper is its owner. */
  ghost predicate Loopers(views: set<BView>)
    reads views`owner, views`looper
  {
    forall v {:trigger v.owner} {:trigger v.looper} | v in views :: v.looper == v.owner
  }

  /** A window's handlers are the views that have it as looper, each once. */
  ghost predicate Registered(w: BWindow, views: set<BView>)
    reads w`handlers, views`looper
  {
    && NoDuplicates(w.handlers)
    && (forall v {:trigger v in w.handlers} | v in w.handlers :: v in views && v.looper == w)
    && (forall v {:trigger v.looper} | v in views && v.looper == w :: v in w.handlers)
  }

  /** The focus, the view last under the pointer and the preferred handler are registered. */
  ghost predicate Pointing(w: BWindow)
    reads w
  {
    && (w.focus == null || w.focus in w.handlers)
    && (w.lastMouseMoved == null || w.lastMouseMoved in w.handlers)
    && (w.preferred == null || w.preferred in w.handlers)
  }

  /** Some views have a new owner, and no others. */
  twostate predicate OwnersChanged(some: set<BView>, w: BWindow?, views: set<BView>)
    reads views`owner
  {
    forall v {:trigger v.owner} | v in views :: v.owner == if v in some then w else old(v.owner)
  }

  /** A window's pointers to views. */
  datatype Pointers = Pointers(handlers: seq<BView>, focus: BView?, lastMouseMoved: BView?, preferred: BView?)

  ghost function PointersOf(w: BWindow): Pointers
    reads w`handlers, w`focus, w`lastMouseMoved, w`preferred
  {
    Pointers(w.handlers, w.focus, w.lastMouseMoved, w.preferred)
  }

  /** Those to some views are taken out or cleared, and the preferred handler also with the focus. */
  ghost function Cleared(p: Pointers, some: set<BView>): Pointers {
    Pointers(
      Without(p.handlers, some),
      if p.focus in some then null else p.focus,
      if p.lastMouseMoved in some then null else p.lastMouseMoved,
      if p.focus in some || p.preferred in some then null else p.preferred)
  }

  lemma {:induction false} ClearedTwice(p: Pointers, some: set<BView>, more: set<BView>)
    ensures Cleared(Cleared(p, some), more) == Cleared(p, some + more)
  {
    WithoutTwice(p.handlers, some, more);
  }

  lemma {:induction false} ClearedNone(p: Pointers)
    ensures Cleared(p, {}) == p
  {
    WithoutNothing(p.handlers, {});
  }

  twostate predicate PointersCleared(some: set<BView>, w: BWindow)
    reads w`handlers, w`focus, w`lastMouseMoved, w`preferred
  {
    PointersOf(w) == Cleared(old(PointersOf(w)), some)
  }

  /** A subtree is its top and what is below the top's children. */
  lemma SubtreeParts(p: BView, views: set<BView>)
    requires p in views && Forest(views)
    ensures Below(p, 0, views) == {} && p !in Below(p, |p.kids|, views)
    ensures Subtree(p, views) == {p} + Below(p, |p.kids|, views)
    ensures p.firstChild == At(p.kids, 0)
  {
    assert Listed(p, views);
    PathEnd(p, views);
    forall v | v in views
      ensures !BelowFirst(v, p, 0, views) && (InSubtree(v, p) <==> v == p || BelowFirst(v, p, |p.kids|, views))
    {
      BelowAll(v, p, views);
    }
  }

  /** What is below the first children, with the subtree of the next child, is what is below one child more. */
  lemma SubtreeOfChild(p: BView, i: int, views: set<BView>)
    requires p in views && Forest(views) && 0 <= i < |p.kids|
    ensures p.kids[i] in views && p.kids[i] in Subtree(p.kids[i], views)
    ensures p.kids[i].nextSibling == At(p.kids, i + 1)
    ensures Below(p, i + 1, views) == Below(p, i, views) + Subtree(p.kids[i], views)
    ensures Below(p, i, views) !! Subtree(p.kids[i], views)
    ensures Subtree(p.kids[i], views) <= Below(p, |p.kids|, views)
    ensures Subtree(p.kids[i], views) < Subtree(p, views)
  {
    assert Listed(p, views);
    var c := p.kids[i];
    assert Listed(c, views);
    PathEnd(p, views);
    PathEnd(c, views);
    forall v | v in views
      ensures InSubtree(v, c) <==> BelowFirst(v, p, i + 1, views) && !BelowFirst(v, p, i, views)
      ensures InSubtree(v, c) ==> BelowFirst(v, p, |p.kids|, views)
    {
      BelowNext(v, p, i, views);
    }
    SubtreeParts(p, views);
  }

  /** The views of a subtree: each in front of those below it, and these in the order of the children. */
  ghost function Preorder(v: BView, views: set<BView>): seq<BView>
    requires v in views && Forest(views)
    reads views`parent, views`firstChild, views`nextSibling, views`prevSibling, views`kids, views`index, views`path
    decreases Subtree(v, views), 1
  {
    [v] + PreorderBelow(v, |v.kids|, views)
  }

  /** The views below the first `i` children. */
  ghost function PreorderBelow(v: BView, i: int, views: set<BView>): seq<BView>
    requires v in views && Forest(views) && 0 <= i <= |v.kids|
    reads views`parent, views`firstChild, views`nextSibling, views`prevSibling, views`kids, views`index, views`path
    decreases Subtree(v, views), 0, i
  {
    if i == 0 then []
    else
      SubtreeOfChild(v, i - 1, views);
      PreorderBelow(v, i - 1, views) + Preorder(v.kids[i - 1], views)
  }

  // Views and windows

  /** The tree of `child` has been put below `p`: the views' paths and owners. */
  twostate predicate Extended(p: BView, child: BView, views: set<BView>)
    reads views`path, views`owner
  {
    && (forall v {:trigger v.path} | v in views ::
          v.path == if v in old(Tree(child, views)) then old(p.path) + old(v.path) else old(v.path))
    && OwnersChanged(old(Tree(child, views)), old(p.owner), views)
  }

  /** A view has its parent's owner; a root has an owner only if it is the owner's top view. */
  ghost predicate Tied(v: BView, views: set<BView>)
    requires v in views
    reads views`parent, views`owner
  {
    && (v.parent != null ==> v.parent in views && v.parent.owner == v.owner)
    && (v.parent == null && v.owner != null ==> v.owner.topView == v)
  }

  ghost predicate AllTied(views: set<BView>)
    reads views`parent, views`owner
  {
    forall v {:trigger Tied(v, views)} | v in views :: Tied(v, views)
  }

  /** A window owns its top view, and its handlers and pointers are right. */
  ghost predicate Settled(w: BWindow, views: set<BView>)
    reads w, views`parent, views`owner, views`looper
  {
    && w.topView in views && w.topView.parent == null && w.topView.owner == w
    && Registered(w, views) && Pointing(w)
  }

  ghost predicate Agreement(views: set<BView>, windows: set<BWindow>)
    reads views, windows
  {
    && Forest(views) && Loopers(views)
    && AllTied(views)
    && (forall v {:trigger v.owner} | v in views && v.owner != null :: v.owner in windows)
    && (forall w {:trigger Settled(w, views)} | w in windows :: Settled(w, views))
  }

  /** The owner of a tree's views is the owner of its root. */
  lemma {:induction false} OwnerOfRoot(v: BView, views: set<BView>, windows: set<BWindow>)
    requires Agreement(views, windows) && v in views
    ensures |v.path| > 0 && v.path[0] in views && v.path[0].owner == v.owner
    decreases |v.path|
  {
    PathEnd(v, views);
    assert Tied(v, views);
    if v.parent != null {
      OwnerOfRoot(v.parent, views, windows);
    }
  }

  /** The tree of a root without owner has none, so a view in it has no window, and neither has an ancestor's. */
  lemma TreeIsUnowned(p: BView, root: BView, views: set<BView>, windows: set<BWindow>)
    requires Agreement(views, windows) && p in views && root in views && root.parent == null && root.owner == null
    ensures Owned(Tree(root, views), null)
    ensures p.owner != null ==> root !in p.path && p !in Tree(root, views)
    ensures p.owner != null ==> p.owner in windows && Registered(p.owner, views)
  {
    forall v | v in Tree(root, views) ensures v.owner == null {
      OwnerOfRoot(v, views, windows);
    }
    if root in p.path {
      RootOnPath(p, root, views);
      OwnerOfRoot(p, views, windows);
    }
    assert p.owner != null ==> Settled(p.owner, views);
  }

  /** A subtree has one owner. */
  lemma OwnersOfSubtree(top: BView, views: set<BView>, windows: set<BWindow>)
    requires Agreement(views, windows) && top in views
    ensures Owned(Subtree(top, views), top.owner)
  {
    forall v | v in views && InSubtree(v, top) ensures v.owner == top.owner {
      PathStep(v, |top.path| - 1, views);
      OwnerOfRoot(v, views, windows);
      OwnerOfRoot(top, views, windows);
    }
  }

  /** The views that leave a window with a view, and what holds of that window. */
  lemma WhatIsDetached(top: BView, views: set<BView>, windows: set<BWindow>)
    requires Agreement(views, windows) && top in views && top.parent != null
    ensures Forest(views) && Loopers(views) && AllTied(views)
    ensures top.parent.owner == top.owner && Owned(Subtree(top, views), top.owner)
    ensures top.owner != null ==> Registered(top.owner, views) && Pointing(top.owner)
  {
    OwnersOfSubtree(top, views, windows);
    assert Tied(top, views) && (top.owner != null ==> Settled(top.owner, views));
  }

  lemma RootsOutside(top: BView, views: set<BView>)
    requires top in views && top.parent != null && Paths(views)
    ensures forall v {:trigger v in Subtree(top, views)} | v in Subtree(top, views) :: v.parent != null
  {
    PathEnd(top, views);
    PathEnd(top.parent, views);
    forall v | v in views && InSubtree(v, top) ensures v.parent != null {
      PathEnd(v, views);
    }
  }

  /** Following the parents from the last view of `p` leads back to it, through `v`. */
  ghost predicate OwnAncestor(v: BView, p: seq<BView>)
    reads v`parent, p`parent
  {
    p != [] && v == p[0] && v.parent == p[|p| - 1] && forall i | 0 < i < |p| :: p[i].parent == p[i - 1]
  }

  lemma {:induction false} PathsAlongCycle(p: seq<BView>, i: nat, views: set<BView>)
    requires Paths(views) && i < |p| && forall k | 0 <= k < |p| :: p[k] in views
    requires forall k | 0 < k < |p| :: p[k].parent == p[k - 1]
    ensures |p[i].path| == |p[0].path| + i
  {
    if i > 0 {
      PathsAlongCycle(p, i - 1, views);
      assert HasPath(p[i], views) && p[i].parent == p[i - 1];
    }
  }

  /** Views with such a cycle are no forest, whatever paths are given to them. */
  lemma {:induction false} CycleIsNoForest(v: BView, p: seq<BView>, views: set<BView>)
    requires OwnAncestor(v, p) && forall k | 0 <= k < |p| :: p[k] in views
    ensures !Paths(views)
  {
    if Paths(views) {
      PathsAlongCycle(p, |p| - 1, views);
      PathEnd(v, views);
      assert false;
    }
  }

  lemma {:induction false} RootOnPath(v: BView, root: BView, views: set<BView>)
    requires v in views && Paths(views) && root in v.path && root.parent == null
    ensures v.path[0] == root && forall i | 0 < i < |v.path| :: v.path[i] in views && v.path[i].parent == v.path[i - 1]
    ensures forall i | 0 < i < |v.path| :: v.path[i] != root
  {
    forall i | 0 <= i < |v.path| ensures v.path[i] in views && v.path[i].parent == At(v.path, i - 1) {
      PathStep(v, i, views);
    }
  }

  /** The views of a window's tree are exactly those that it owns, and exactly its handlers, each once. */
  lemma {:induction false} OwnedIffInTree(v: BView, w: BWindow, views: set<BView>, windows: set<BWindow>)
    requires Agreement(views, windows) && v in views && w in windows
    ensures v.owner == w <==> v in Tree(w.topView, views)
    ensures v in w.handlers <==> v in Tree(w.topView, views)
    ensures NoDuplicates(w.handlers)
  {
    OwnerOfRoot(v, views, windows);
    PathStep(v, 0, views);
    assert Settled(w, views);
    assert Tied(v.path[0], views);
  }

  /** No view is its own ancestor. */
  lemma {:induction false} PathsAreSimple(v: BView, i: nat, j: nat, views: set<BView>)
    requires v in views && Paths(views) && i < j < |v.path|
    ensures v.path[i] != v.path[j]
  {
    PathStep(v, i, views);
    PathStep(v, j, views);
  }

  /** A subtree has exactly the views on whose path its top is, and a tree those whose path begins with its root. */
  lemma {:induction false} SubtreeIff(v: BView, top: BView, views: set<BView>)
    requires v in views && top in views && Paths(views)
    ensures v in Subtree(top, views) <==> top in v.path
    ensures top.parent == null ==> (v in Tree(top, views) <==> top in v.path)
  {
    PathEnd(top, views);
    if i :| 0 <= i < |v.path| && v.path[i] == top {
      PathStep(v, i, views);
    }
    if v in Subtree(top, views) {
      assert v.path[|top.path| - 1] in v.path;
    }
  }
}
