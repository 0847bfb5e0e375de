/** Redrawing: how a view merges the redraws pending for it, kits/interface/View.cpp, and how a window does all that are
    pending, kits/interface/Window.cpp.  Drawing itself posts nothing. */
module Updates {
  import opened Geometry
  import opened MessageQueue
  import opened Options
  import opened Sequences
  import opened Views

  const UPDATE := 0x5f55_5044
  const UPDATE_IF_NEEDED := 0x5f55_504e

  /** One call of the drawing hooks. */
  datatype Draw = Draw(view: BView, rect: Rect)

  datatype Ending = Finished | NullLooper

  predicate IsUpdate(m: QueuedMessage) {
    m.what == UPDATE
  }

  predicate IsUpdateFor(m: QueuedMessage, view: BView) {
    IsUpdate(m) && m.handler == AView(view)
  }

  ghost function UpdatesFor(items: seq<QueuedMessage>, view: BView): set<QueuedMessage> {
    set m | m in items && IsUpdateFor(m, view)
  }

  /** Every redraw addressed to a view has a valid rectangle, as `Invalidate` makes sure. */
  ghost predicate Drawable(items: seq<QueuedMessage>) {
    forall m | m in items && IsUpdate(m) && m.handler.AView? :: m.updateRect.Some? && m.updateRect.value.IsValid()
  }

  // Rectangles

  ghost predicate CoversAll(r: Rect, some: set<QueuedMessage>) {
    forall m | m in some :: m.updateRect.Some? && r.Covers(m.updateRect.value)
  }

  /** The smallest rectangle that covers those of the messages. */
  ghost predicate IsHull(rect: Rect, some: set<QueuedMessage>) {
    CoversAll(rect, some) && forall r: Rect | CoversAll(r, some) :: r.Covers(rect)
  }

  /** There is only one. */
  lemma {:induction false} HullIsUnique(a: Rect, b: Rect, some: set<QueuedMessage>)
    requires IsHull(a, some) && IsHull(b, some)
    ensures a == b
  {
    assert a.Covers(b) && b.Covers(a);
  }

  /** `operator|` makes the smallest rectangle that covers one message more. */
  lemma {:induction false} UnionIsHull(rect: Rect, some: set<QueuedMessage>, m: QueuedMessage)
    requires IsHull(rect, some) && m.updateRect.Some? && rect.IsValid() && m.updateRect.value.IsValid()
    ensures IsHull(rect.Union(m.updateRect.value), some + {m}) && rect.Union(m.updateRect.value).IsValid()
  {
    var all, union := some + {m}, rect.Union(m.updateRect.value);
    forall k | k in all ensures k.updateRect.Some? && union.Covers(k.updateRect.value) {
      if k in some {
        assert rect.Covers(k.updateRect.value);
      }
    }
    forall r: Rect | CoversAll(r, all) ensures r.Covers(union) {
      assert CoversAll(r, some);
      assert m in all;
    }
  }

  // Merging

  /** Removing the message at an index of the redraws leaves those in front of it and behind it. */
  lemma {:induction false} RemoveFound(items: seq<QueuedMessage>, index: nat)
    requires NoDuplicates(items) && index < |Having(items, UPDATE)|
    ensures
      var some := Having(items, UPDATE);
      Having(Without(items, {some[index]}), UPDATE) == some[..index] + some[index + 1..]
  {
    var some := Having(items, UPDATE);
    HavingWithout(items, UPDATE, {some[index]});
    HavingDistinct(items, UPDATE);
    hide Having, Without;
    WithoutOne(some, index);
  }

  /** If no redraw of the view is left, all were taken out. */
  lemma {:induction false} NoneLeft(items: seq<QueuedMessage>, merged: set<QueuedMessage>, view: BView,
                                   some: seq<QueuedMessage>)
    requires merged <= UpdatesFor(items, view) && some == Having(Without(items, merged), UPDATE)
    requires Scanned(some, |some|, view)
    ensures merged == UpdatesFor(items, view)
  {
    var left := Without(items, merged);
    HavingContains(left, UPDATE);
    forall m | m in some ensures !IsUpdateFor(m, view) {
      var i :| 0 <= i < |some| && some[i] == m;
    }
    forall m | m in UpdatesFor(items, view) ensures m in merged {
      assert m in left ==> m in some;
    }
  }

  /** None of the first `index` redraws is the view's. */
  ghost predicate Scanned(some: seq<QueuedMessage>, index: int, view: BView) {
    0 <= index <= |some| && forall i | 0 <= i < index :: !IsUpdateFor(some[i], view)
  }

  lemma {:induction false} ScanOne(some: seq<QueuedMessage>, index: int, view: BView)
    requires Scanned(some, index, view)
    ensures index < |some| && some[index].handler != AView(view) ==> Scanned(some, index + 1, view)
    ensures index < |some| ==> Scanned(some[..index] + some[index + 1..], index, view)
  {
  }

  /** One more of the view's redraws is taken out. */
  lemma {:induction false} MergeOneMore(items: seq<QueuedMessage>, merged: set<QueuedMessage>, view: BView, index: nat)
    requires NoDuplicates(items) && merged <= UpdatesFor(items, view)
    requires index < |Having(Without(items, merged), UPDATE)|
    requires Having(Without(items, merged), UPDATE)[index].handler == AView(view)
    ensures
      var left := Without(items, merged);
      var some := Having(left, UPDATE);
      var m := some[index];
      && m in UpdatesFor(items, view)
      && Without(left, {m}) == Without(items, merged + {m})
      && Having(Without(left, {m}), UPDATE) == some[..index] + some[index + 1..]
  {
    var left := Without(items, merged);
    var some := Having(left, UPDATE);
    var m := some[index];
    assert m in some;
    HavingContains(left, UPDATE);
    assert m in left && m in items && m.what == UPDATE;
    hide Having, Without;
    WithoutKeepsDistinct(items, merged);
    RemoveFound(left, index);
    WithoutTwice(items, merged, {m});
  }

  /** The branch of that loop for a redraw of the view itself. */
  method TakeOver(queue: BMessageQueue, pending: QueuedMessage, rect: Rect, ghost items: seq<QueuedMessage>,
                  ghost merged: set<QueuedMessage>, ghost all: set<QueuedMessage>, ghost index: nat, ghost view: BView)
      returns (rect': Rect)
    requires NoDuplicates(items) && Drawable(items)
    requires merged <= UpdatesFor(items, view) && queue.items == Without(items, merged)
    requires IsHull(rect, all) && rect.IsValid()
    requires Scanned(Having(queue.items, UPDATE), index, view) && index < |Having(queue.items, UPDATE)|
    requires pending == Having(queue.items, UPDATE)[index] && pending.handler == AView(view)
    modifies queue
    ensures pending in UpdatesFor(items, view) && queue.items == Without(items, merged + {pending})
    ensures IsHull(rect', all + {pending}) && rect'.IsValid()
    ensures Scanned(Having(queue.items, UPDATE), index, view)
    ensures |Having(queue.items, UPDATE)| < |Having(old(queue.items), UPDATE)|
  {
    MergeOneMore(items, merged, view, index);
    ScanOne(Having(queue.items, UPDATE), index, view);
    assert pending.updateRect.Some? && pending.updateRect.value.IsValid();
    hide *;
    queue.RemoveMessage(pending);
    UnionIsHull(rect, all, pending);
    rect' := rect.Union(pending.updateRect.value);
  }

  /** The loop of `BView::MessageReceived`: takes the view's other pending redraws out of the queue and covers them all
      with one rectangle. */
  method MergeUpdates(queue: BMessageQueue, view: BView, message: QueuedMessage) returns (rect: Rect)
    requires NoDuplicates(queue.items) && Drawable(queue.items)
    requires message.updateRect.Some? && message.updateRect.value.IsValid()
    modifies queue
    ensures queue.items == Without(old(queue.items), UpdatesFor(old(queue.items), view))
    ensures IsHull(rect, {message} + UpdatesFor(old(queue.items), view))
  {
    rect := message.updateRect.value;
    var index := 0;
    ghost var items, merged: set<QueuedMessage> := queue.items, {};
    WithoutNothing(items, merged);
    assert IsHull(rect, {message} + merged);
    hide *;
    var pending := queue.FindMessage(UPDATE, index);
    while pending != null
      invariant 0 <= index && Scanned(Having(queue.items, UPDATE), index, view)
      invariant pending == if index < |Having(queue.items, UPDATE)| then Having(queue.items, UPDATE)[index] else null
      invariant index <= |Having(queue.items, UPDATE)|
      invariant merged <= UpdatesFor(items, view) && queue.items == Without(items, merged)
      invariant IsHull(rect, {message} + merged) && rect.IsValid()
      decreases |Having(queue.items, UPDATE)| - index
    {
      if pending.handler == AView(view) {
        rect := TakeOver(queue, pending, rect, items, merged, {message} + merged, index, view);
        assert {message} + merged + {pending} == {message} + (merged + {pending});
        merged := merged + {pending};
        assert index <= |Having(queue.items, UPDATE)| by {
          ScannedWithin(Having(queue.items, UPDATE), index, view);
        }
      } else {
        ScanOne(Having(queue.items, UPDATE), index, view);
        index := index + 1;
      }
      pending := queue.FindMessage(UPDATE, index);
    }
    NoneLeft(items, merged, view, Having(queue.items, UPDATE));
  }

  lemma {:induction false} ScannedWithin(some: seq<QueuedMessage>, index: int, view: BView)
    requires Scanned(some, index, view)
    ensures 0 <= index <= |some|
  {
  }

  // All that are pending

  /** The other messages, in order. */
  function Rest(items: seq<QueuedMessage>): seq<QueuedMessage> {
    if items == [] then []
    else (if IsUpdate(items[0]) then [] else [items[0]]) + Rest(items[1..])
  }

  lemma {:induction false} RestWithout(items: seq<QueuedMessage>, out: set<QueuedMessage>)
    requires forall m | m in out :: IsUpdate(m)
    ensures Rest(Without(items, out)) == Rest(items)
  {
    if items != [] {
      RestWithout(items[1..], out);
      var rest := Without(items[1..], out);
      if items[0] in out {
        assert Without(items, out) == rest;
      } else {
        assert Without(items, out)[0] == items[0] && Without(items, out)[1..] == rest;
      }
    }
  }

  lemma {:induction false} RestAppend(items: seq<QueuedMessage>, m: QueuedMessage)
    requires IsUpdate(m)
    ensures Rest(items + [m]) == Rest(items)
  {
    if items == [] {
      assert [m][1..] == [];
    } else {
      assert (items + [m])[0] == items[0] && (items + [m])[1..] == items[1..] + [m];
      RestAppend(items[1..], m);
    }
  }

  lemma {:induction false} RestIsAll(items: seq<QueuedMessage>)
    requires Having(items, UPDATE) == []
    ensures Rest(items) == items
  {
    if items != [] {
      RestIsAll(items[1..]);
    }
  }

  /** How often the loop may still turn: a redraw of the window's becomes one of its top view. */
  function Weight(items: seq<QueuedMessage>): nat {
    if items == [] then 0 else WeightOf(items[0]) + Weight(items[1..])
  }

  function WeightOf(m: QueuedMessage): nat {
    if !IsUpdate(m) then 0 else if m.handler.AView? then 1 else 2
  }

  lemma {:induction false} WeightWithout(items: seq<QueuedMessage>, out: set<QueuedMessage>)
    ensures Weight(Without(items, out)) <= Weight(items)
    ensures forall m | m in items && m in out :: Weight(Without(items, out)) + WeightOf(m) <= Weight(items)
  {
    if items != [] {
      WeightWithout(items[1..], out);
      var rest := Without(items[1..], out);
      if items[0] in out {
        assert Without(items, out) == rest;
      } else {
        assert Without(items, out)[0] == items[0] && Without(items, out)[1..] == rest;
      }
    }
  }

  lemma {:induction false} WeightAppend(items: seq<QueuedMessage>, m: QueuedMessage)
    ensures Weight(items + [m]) == Weight(items) + WeightOf(m)
  {
    if items == [] {
      assert [m][1..] == [];
    } else {
      assert (items + [m])[0] == items[0] && (items + [m])[1..] == items[1..] + [m];
      WeightAppend(items[1..], m);
    }
  }

  /** A redraw is pending that is addressed to the window or to nobody; either redraws the top view. */
  ghost predicate Windowed(items: seq<QueuedMessage>) {
    exists m | m in items :: IsUpdate(m) && !m.handler.AView?
  }

  /** The views that are redrawn only for what was pending: all but the top view, and that too unless the window has a
      redraw pending. */
  ghost predicate Plain(view: BView, items: seq<QueuedMessage>, top: BView) {
    view != top || !Windowed(items)
  }

  ghost predicate PlainUpdate(m: QueuedMessage, items: seq<QueuedMessage>, top: BView) {
    IsUpdate(m) && m.handler.AView? && Plain(m.handler.view, items, top)
  }

  ghost function DrawnViews(drawn: seq<Draw>): set<BView> {
    set d | d in drawn :: d.view
  }

  /** Each view was drawn at most once, for redraws that were pending, in the smallest rectangle covering all of
      them. */
  ghost predicate DrawnOnce(items: seq<QueuedMessage>, drawn: seq<Draw>, top: BView) {
    && (forall i, j | 0 <= i < j < |drawn| && Plain(drawn[i].view, items, top) :: drawn[i].view != drawn[j].view)
    && (forall d | d in drawn && Plain(d.view, items, top) ::
          UpdatesFor(items, d.view) != {} && IsHull(d.rect, UpdatesFor(items, d.view)))
  }

  /** What of the pending redraws in `items` is left in `now` when `drawn` has been drawn. */
  ghost predicate Progress(items: seq<QueuedMessage>, now: seq<QueuedMessage>, drawn: seq<Draw>, top: BView) {
    && NoDuplicates(now) && Drawable(now) && Rest(now) == Rest(items)
    && (forall m | m in now && PlainUpdate(m, items, top) :: m in items && m.handler.view !in DrawnViews(drawn))
    && (forall m | m in items && PlainUpdate(m, items, top) && m.handler.view !in DrawnViews(drawn) :: m in now)
    && (forall m | m in now && IsUpdate(m) && !m.handler.AView? :: m in items)
    && (Windowed(items) && top !in DrawnViews(drawn) ==> TopDue(now, top))
    && DrawnOnce(items, drawn, top)
  }

  ghost predicate TopDue(now: seq<QueuedMessage>, top: BView) {
    exists m | m in now :: IsUpdate(m) && (m.handler.AView? ==> m.handler.view == top)
  }

  lemma {:induction false} DrawnViewsAppend(drawn: seq<Draw>, d: Draw)
    ensures DrawnViews(drawn + [d]) == DrawnViews(drawn) + {d.view}
  {
  }

  /** After a view was drawn with all that was pending for it. */
  lemma {:induction false} ViewTurn(items: seq<QueuedMessage>, now: seq<QueuedMessage>, drawn: seq<Draw>, top: BView,
                                   d: Draw)
    requires Progress(items, now, drawn, top)
    requires UpdatesFor(now, d.view) != {} && IsHull(d.rect, UpdatesFor(now, d.view))
    ensures Progress(items, Without(now, UpdatesFor(now, d.view)), drawn + [d], top)
  {
    var next := Without(now, UpdatesFor(now, d.view));
    DrawnViewsAppend(drawn, d);
    RestWithout(now, UpdatesFor(now, d.view));
    WithoutKeepsDistinct(now, UpdatesFor(now, d.view));
    if Plain(d.view, items, top) {
      assert UpdatesFor(now, d.view) == UpdatesFor(items, d.view);
    }
  }

  /** After a redraw of the window's became one of the top view. */
  lemma {:induction false} WindowTurn(items: seq<QueuedMessage>, now: seq<QueuedMessage>, drawn: seq<Draw>, top: BView,
                                     m: QueuedMessage, posted: QueuedMessage)
    requires Progress(items, now, drawn, top) && m in now && IsUpdate(m) && !m.handler.AView?
    requires posted !in now && IsUpdateFor(posted, top) && posted.updateRect.Some? && posted.updateRect.value.IsValid()
    ensures Progress(items, Without(now, {m}) + [posted], drawn, top)
  {
    var left := Without(now, {m});
    RestWithout(now, {m});
    WithoutKeepsDistinct(now, {m});
    RestAppend(left, posted);
    assert Windowed(items);
    assert posted in left + [posted] && posted !in left;
  }

  // The top view, when redraws of the window are pending

  /** How often a view was drawn. */
  function DrawsOf(drawn: seq<Draw>, view: BView): nat {
    if drawn == [] then 0
    else DrawsOf(drawn[..|drawn| - 1], view) + if drawn[|drawn| - 1].view == view then 1 else 0
  }

  /** No redraw of the window comes behind one of the top view. */
  predicate TopLast(some: seq<QueuedMessage>, top: BView) {
    some == []
    || (TopLast(some[1..], top)
        && (some[0].handler == AView(top) ==> forall m | m in some[1..] :: m.handler.AView?))
  }

  /** No redraw of the window or of the top view is left. */
  predicate TopDone(some: seq<QueuedMessage>, top: BView) {
    forall m | m in some :: m.handler.AView? && m.handler.view != top
  }

  /** Once the top view has been drawn, all that is due for it comes behind the redraws of the window, and so is drawn
      together. */
  ghost predicate TopBounded(now: seq<QueuedMessage>, drawn: seq<Draw>, top: BView) {
    var some, n := Having(now, UPDATE), DrawsOf(drawn, top);
    n == 0 || (n == 1 && TopLast(some, top)) || (n == 2 && TopDone(some, top))
  }

  /** What was pending for the top view is pending still or has been drawn. */
  ghost predicate TopCovered(items: seq<QueuedMessage>, now: seq<QueuedMessage>, drawn: seq<Draw>, top: BView) {
    forall m | m in items && IsUpdateFor(m, top) :: m in now || CoveredBy(m, drawn, top)
  }

  ghost predicate CoveredBy(m: QueuedMessage, drawn: seq<Draw>, view: BView) {
    m.updateRect.Some? && exists d | d in drawn :: d.view == view && d.rect.Covers(m.updateRect.value)
  }

  ghost predicate TopProgress(items: seq<QueuedMessage>, now: seq<QueuedMessage>, drawn: seq<Draw>, top: BView) {
    TopBounded(now, drawn, top) && TopCovered(items, now, drawn, top)
  }

  lemma {:induction false} DoneIsLast(some: seq<QueuedMessage>, top: BView)
    requires forall m | m in some :: m.handler != AView(top)
    ensures TopLast(some, top)
  {
    if some != [] {
      DoneIsLast(some[1..], top);
    }
  }

  lemma {:induction false} TopLastWithout(some: seq<QueuedMessage>, out: set<QueuedMessage>, top: BView)
    requires TopLast(some, top)
    ensures TopLast(Without(some, out), top)
  {
    if some != [] {
      TopLastWithout(some[1..], out, top);
      var rest := Without(some[1..], out);
      if some[0] in out {
        assert Without(some, out) == rest;
      } else {
        assert Without(some, out)[0] == some[0] && Without(some, out)[1..] == rest;
      }
    }
  }

  lemma {:induction false} TopLastAppend(some: seq<QueuedMessage>, posted: QueuedMessage, top: BView)
    requires TopLast(some, top) && posted.handler == AView(top)
    ensures TopLast(some + [posted], top)
  {
    if some == [] {
      assert ([] + [posted])[1..] == [];
    } else {
      assert (some + [posted])[0] == some[0] && (some + [posted])[1..] == some[1..] + [posted];
      TopLastAppend(some[1..], posted, top);
    }
  }

  lemma {:induction false} DrawsAppend(drawn: seq<Draw>, d: Draw, view: BView)
    ensures DrawsOf(drawn + [d], view) == DrawsOf(drawn, view) + if d.view == view then 1 else 0
  {
    assert (drawn + [d])[..|drawn|] == drawn;
  }

  lemma {:induction false} ViewTurnCovers(items: seq<QueuedMessage>, now: seq<QueuedMessage>, drawn: seq<Draw>,
                                         top: BView, d: Draw)
    requires TopCovered(items, now, drawn, top) && IsHull(d.rect, UpdatesFor(now, d.view))
    ensures TopCovered(items, Without(now, UpdatesFor(now, d.view)), drawn + [d], top)
  {
    forall m | m in items && IsUpdateFor(m, top) && m !in Without(now, UpdatesFor(now, d.view))
      ensures CoveredBy(m, drawn + [d], top)
    {
      if m in now {
        assert m in UpdatesFor(now, d.view) && d in drawn + [d];
      } else {
        var e :| e in drawn && e.view == top && e.rect.Covers(m.updateRect.value);
        assert e in drawn + [d];
      }
    }
  }

  lemma {:induction false} ViewTurnBounds(now: seq<QueuedMessage>, drawn: seq<Draw>, top: BView, m: QueuedMessage,
                                         d: Draw)
    requires TopBounded(now, drawn, top) && Having(now, UPDATE) != [] && m == Having(now, UPDATE)[0]
    requires m.handler == AView(d.view)
    ensures TopBounded(Without(now, UpdatesFor(now, d.view)), drawn + [d], top)
  {
    var some, out := Having(now, UPDATE), UpdatesFor(now, d.view);
    var next := Without(some, out);
    HavingWithout(now, UPDATE, out);
    HavingContains(now, UPDATE);
    DrawsAppend(drawn, d, top);
    assert forall x | x in next :: x in some && x !in out && x.handler != AView(d.view);
    if d.view == top {
      DoneIsLast(next, top);
      assert m in some && forall x | x in some :: x == m || x in some[1..];
    } else if DrawsOf(drawn, top) == 1 {
      TopLastWithout(some, out, top);
    }
  }

  lemma {:induction false} WindowTurnHaving(now: seq<QueuedMessage>, m: QueuedMessage, posted: QueuedMessage)
    requires NoDuplicates(now) && Having(now, UPDATE) != [] && m == Having(now, UPDATE)[0] && IsUpdate(posted)
    ensures Having(Without(now, {m}) + [posted], UPDATE) == Having(now, UPDATE)[1..] + [posted]
  {
    var some := Having(now, UPDATE);
    RemoveFound(now, 0);
    HavingConcat(Without(now, {m}), [posted], UPDATE);
    assert Having([posted], UPDATE) == [posted] by {
      assert [posted][1..] == [];
    }
    assert some[..0] + some[1..] == some[1..];
  }

  lemma {:induction false} WindowTurnTop(items: seq<QueuedMessage>, now: seq<QueuedMessage>, drawn: seq<Draw>,
                                        top: BView, m: QueuedMessage, posted: QueuedMessage)
    requires TopProgress(items, now, drawn, top) && NoDuplicates(now)
    requires Having(now, UPDATE) != [] && m == Having(now, UPDATE)[0] && !m.handler.AView? && IsUpdateFor(posted, top)
    ensures TopProgress(items, Without(now, {m}) + [posted], drawn, top)
  {
    var some, next := Having(now, UPDATE), Without(now, {m}) + [posted];
    WindowTurnHaving(now, m, posted);
    assert forall x | x in now && x != m :: x in next;
    assert TopCovered(items, next, drawn, top);
    hide Having, Without, TopCovered, NoDuplicates;
    assert m in some;
    if DrawsOf(drawn, top) == 1 {
      TopLastAppend(some[1..], posted, top);
    }
  }

  /** Every rectangle that was pending for the top view is covered by one that was drawn of it, in at most two draws. */
  ghost predicate TopRedrawn(items: seq<QueuedMessage>, drawn: seq<Draw>, top: BView) {
    DrawsOf(drawn, top) <= 2 && forall m | m in items && IsUpdateFor(m, top) :: CoveredBy(m, drawn, top)
  }

  /** A redraw of the window is still pending, or one of the whole top view is, or the whole top view has been drawn. */
  ghost predicate WholeDue(now: seq<QueuedMessage>, drawn: seq<Draw>, top: BView, bounds: Rect) {
    || (exists m | m in now :: IsUpdate(m) && !m.handler.AView?)
    || (exists m | m in now :: IsUpdateFor(m, top) && m.updateRect.Some? && m.updateRect.value.Covers(bounds))
    || DrawnWhole(drawn, top, bounds)
  }

  ghost predicate DrawnWhole(drawn: seq<Draw>, top: BView, bounds: Rect) {
    exists d | d in drawn :: d.view == top && d.rect.Covers(bounds)
  }

  /** Nothing is pending for the top view but what was and redraws of the whole of it, and nothing beyond that has been
      drawn of it. */
  ghost predicate NothingElse(items: seq<QueuedMessage>, now: seq<QueuedMessage>, drawn: seq<Draw>, top: BView,
                              bounds: Rect) {
    && (forall m | m in now && IsUpdateFor(m, top) :: m in items || m.updateRect == Some(bounds))
    && forall d | d in drawn && d.view == top :: Within(d.rect, items, top, bounds)
  }

  /** Whatever covers the bounds and all that was pending for the view covers this rectangle. */
  ghost predicate Within(rect: Rect, items: seq<QueuedMessage>, view: BView, bounds: Rect) {
    forall r: Rect | r.Covers(bounds) && CoversAll(r, UpdatesFor(items, view)) :: r.Covers(rect)
  }

  ghost predicate WholeProgress(items: seq<QueuedMessage>, now: seq<QueuedMessage>, drawn: seq<Draw>, top: BView,
                                bounds: Rect) {
    (Windowed(items) ==> WholeDue(now, drawn, top, bounds)) && NothingElse(items, now, drawn, top, bounds)
  }

  lemma {:induction false} ViewTurnDue(now: seq<QueuedMessage>, drawn: seq<Draw>, top: BView, bounds: Rect, d: Draw)
    requires WholeDue(now, drawn, top, bounds) && IsHull(d.rect, UpdatesFor(now, d.view))
    ensures WholeDue(Without(now, UpdatesFor(now, d.view)), drawn + [d], top, bounds)
  {
    var next := Without(now, UpdatesFor(now, d.view));
    if m :| m in now && IsUpdate(m) && !m.handler.AView? {
      assert m in next;
    } else if m :| m in now && IsUpdateFor(m, top) && m.updateRect.Some? && m.updateRect.value.Covers(bounds) {
      if d.view == top {
        assert m in UpdatesFor(now, top) && d in drawn + [d];
      } else {
        assert m in next;
      }
    } else {
      var e :| e in drawn && e.view == top && e.rect.Covers(bounds);
      assert e in drawn + [d];
    }
  }

  lemma {:induction false} ViewTurnWhole(items: seq<QueuedMessage>, now: seq<QueuedMessage>, drawn: seq<Draw>,
                                        top: BView, bounds: Rect, d: Draw)
    requires WholeProgress(items, now, drawn, top, bounds) && IsHull(d.rect, UpdatesFor(now, d.view))
    ensures WholeProgress(items, Without(now, UpdatesFor(now, d.view)), drawn + [d], top, bounds)
  {
    if Windowed(items) {
      ViewTurnDue(now, drawn, top, bounds, d);
    }
    hide Windowed, WholeDue;
    if d.view == top {
      forall r: Rect | r.Covers(bounds) && CoversAll(r, UpdatesFor(items, top)) ensures r.Covers(d.rect) {
        assert forall m | m in UpdatesFor(now, top) && m in items :: m in UpdatesFor(items, top);
        assert CoversAll(r, UpdatesFor(now, top));
      }
    }
  }

  lemma {:induction false} WindowTurnWhole(items: seq<QueuedMessage>, now: seq<QueuedMessage>, drawn: seq<Draw>,
                                          top: BView, bounds: Rect, m: QueuedMessage, posted: QueuedMessage)
    requires WholeProgress(items, now, drawn, top, bounds) && m in now && IsUpdate(m) && !m.handler.AView?
    requires IsUpdateFor(posted, top) && posted.updateRect == Some(bounds)
    ensures WholeProgress(items, Without(now, {m}) + [posted], drawn, top, bounds)
  {
    assert posted in Without(now, {m}) + [posted];
  }

  // The order of drawing

  /** The view that is redrawn not only for what was pending for it, if there is one. */
  ghost function Skipped(items: seq<QueuedMessage>, top: BView): BView? {
    if Windowed(items) then top else null
  }

  predicate IsOrdinary(m: QueuedMessage, skipped: BView?) {
    IsUpdate(m) && m.handler.AView? && m.handler.view != skipped
  }

  /** The redraws for the other views, in order. */
  function Ordinary(items: seq<QueuedMessage>, skipped: BView?): seq<QueuedMessage> {
    if items == [] then []
    else (if IsOrdinary(items[0], skipped) then [items[0]] else []) + Ordinary(items[1..], skipped)
  }

  lemma {:induction false} OrdinaryConcat(a: seq<QueuedMessage>, b: seq<QueuedMessage>, skipped: BView?)
    ensures Ordinary(a + b, skipped) == Ordinary(a, skipped) + Ordinary(b, skipped)
  {
    if a == [] {
      assert a + b == b;
    } else {
      assert (a + b)[0] == a[0] && (a + b)[1..] == a[1..] + b;
      OrdinaryConcat(a[1..], b, skipped);
    }
  }

  lemma {:induction false} OrdinaryContains(items: seq<QueuedMessage>, skipped: BView?)
    ensures forall m | m in Ordinary(items, skipped) :: m in items && IsOrdinary(m, skipped)
  {
    if items != [] {
      OrdinaryContains(items[1..], skipped);
    }
  }

  lemma {:induction false} OrdinaryWithout(items: seq<QueuedMessage>, out: set<QueuedMessage>, skipped: BView?)
    ensures Ordinary(Without(items, out), skipped) == Without(Ordinary(items, skipped), out)
  {
    if items != [] {
      var head := [items[0]];
      assert head[1..] == [];
      OrdinaryWithout(items[1..], out, skipped);
      OrdinaryConcat(if items[0] in out then [] else head, Without(items[1..], out), skipped);
      WithoutConcat(if IsOrdinary(items[0], skipped) then head else [], Ordinary(items[1..], skipped), out);
    }
  }

  /** The first redraw is the first of these if it is one of them. */
  lemma {:induction false} OrdinaryFirst(items: seq<QueuedMessage>, skipped: BView?)
    requires Having(items, UPDATE) != [] && IsOrdinary(Having(items, UPDATE)[0], skipped)
    ensures Ordinary(items, skipped) != [] && Ordinary(items, skipped)[0] == Having(items, UPDATE)[0]
  {
    if !IsUpdate(items[0]) {
      OrdinaryFirst(items[1..], skipped);
    }
  }

  /** What is drawn of a message's view. */
  predicate IsShown(m: QueuedMessage, drawn: seq<Draw>) {
    m.handler.AView? && exists d | d in drawn :: d.view == m.handler.view
  }

  /** Each view is drawn when its first redraw has come to the front: those in front of it are for views drawn
      before. */
  ghost predicate InOrder(some: seq<QueuedMessage>, drawn: seq<Draw>, skipped: BView?) {
    forall j | 0 <= j < |drawn| && drawn[j].view != skipped :: IsNext(some, drawn[..j], drawn[j].view)
  }

  ghost predicate IsNext(some: seq<QueuedMessage>, drawn: seq<Draw>, view: BView) {
    exists p | 0 <= p < |some| :: some[p].handler == AView(view) && forall k | 0 <= k < p :: IsShown(some[k], drawn)
  }

  ghost function ShownIn(some: seq<QueuedMessage>, drawn: seq<Draw>): set<QueuedMessage> {
    set m | m in some && IsShown(m, drawn)
  }

  /** The views other than that one are drawn in the order in which redraws were first posted for them. */
  ghost predicate DrawnInOrder(items: seq<QueuedMessage>, drawn: seq<Draw>, top: BView) {
    InOrder(Ordinary(items, Skipped(items, top)), drawn, Skipped(items, top))
  }

  ghost predicate OrderProgress(items: seq<QueuedMessage>, now: seq<QueuedMessage>, drawn: seq<Draw>, top: BView) {
    var skipped := Skipped(items, top);
    var some := Ordinary(items, skipped);
    Ordinary(now, skipped) == Without(some, ShownIn(some, drawn)) && InOrder(some, drawn, skipped)
  }

  lemma {:induction false} WithoutSame(some: seq<QueuedMessage>, out: set<QueuedMessage>, out': set<QueuedMessage>)
    requires forall m | m in some :: m in out <==> m in out'
    ensures Without(some, out) == Without(some, out')
  {
    if some != [] {
      WithoutSame(some[1..], out, out');
    }
  }

  /** In front of the first element that is left there were only others that were taken out. */
  lemma {:induction false} FirstLeft(some: seq<QueuedMessage>, out: set<QueuedMessage>) returns (p: nat)
    requires Without(some, out) != []
    ensures p < |some| && some[p] == Without(some, out)[0] && forall k | 0 <= k < p :: some[k] in out
  {
    if some[0] in out {
      var q := FirstLeft(some[1..], out);
      p := q + 1;
    } else {
      p := 0;
    }
  }

  lemma {:induction false} InOrderAppend(some: seq<QueuedMessage>, drawn: seq<Draw>, d: Draw, skipped: BView?)
    requires InOrder(some, drawn, skipped) && (d.view != skipped ==> IsNext(some, drawn, d.view))
    ensures InOrder(some, drawn + [d], skipped)
  {
    var longer := drawn + [d];
    forall j | 0 <= j < |longer| && longer[j].view != skipped ensures IsNext(some, longer[..j], longer[j].view) {
      if j < |drawn| {
        assert longer[..j] == drawn[..j];
      } else {
        assert longer[..j] == drawn;
      }
    }
  }

  /** The view whose redraw is the first pending one is the next to be drawn. */
  lemma {:induction false} FirstIsNext(items: seq<QueuedMessage>, now: seq<QueuedMessage>, drawn: seq<Draw>, top: BView,
                                      m: QueuedMessage)
    requires OrderProgress(items, now, drawn, top) && Having(now, UPDATE) != [] && m == Having(now, UPDATE)[0]
    requires IsOrdinary(m, Skipped(items, top))
    ensures IsNext(Ordinary(items, Skipped(items, top)), drawn, m.handler.view)
  {
    var skipped := Skipped(items, top);
    var some := Ordinary(items, skipped);
    OrdinaryFirst(now, skipped);
    var p := FirstLeft(some, ShownIn(some, drawn));
    assert some[p] == m;
  }

  lemma {:induction false} ViewTurnOrder(items: seq<QueuedMessage>, now: seq<QueuedMessage>, drawn: seq<Draw>,
                                        top: BView, m: QueuedMessage, d: Draw)
    requires Progress(items, now, drawn, top) && OrderProgress(items, now, drawn, top)
    requires Having(now, UPDATE) != [] && m == Having(now, UPDATE)[0] && IsUpdateFor(m, d.view)
    ensures OrderProgress(items, Without(now, UpdatesFor(now, d.view)), drawn + [d], top)
  {
    var skipped := Skipped(items, top);
    var some := Ordinary(items, skipped);
    if d.view != skipped {
      FirstIsNext(items, now, drawn, top, m);
    }
    InOrderAppend(some, drawn, d, skipped);
    OrdinaryWithout(now, UpdatesFor(now, d.view), skipped);
    WithoutTwice(some, ShownIn(some, drawn), UpdatesFor(now, d.view));
    OrdinaryContains(items, skipped);
    ShownAppend(drawn, d);
    hide Having, Ordinary, InOrder, Without, IsShown;
    forall x | x in some
      ensures x in ShownIn(some, drawn) + UpdatesFor(now, d.view) <==> x in ShownIn(some, drawn + [d])
    {
      if x.handler == AView(d.view) && !IsShown(x, drawn) {
        NotDrawn(x, drawn);
        assert PlainUpdate(x, items, top);
      }
    }
    WithoutSame(some, ShownIn(some, drawn) + UpdatesFor(now, d.view), ShownIn(some, drawn + [d]));
  }

  lemma {:induction false} ShownAppend(drawn: seq<Draw>, d: Draw)
    ensures forall m :: IsShown(m, drawn + [d]) <==> IsShown(m, drawn) || m.handler == AView(d.view)
  {
    assert d in drawn + [d];
    assert forall e | e in drawn :: e in drawn + [d];
  }

  lemma {:induction false} NotDrawn(m: QueuedMessage, drawn: seq<Draw>)
    requires m.handler.AView?
    ensures IsShown(m, drawn) <==> m.handler.view in DrawnViews(drawn)
  {
  }

  lemma {:induction false} WindowTurnOrder(items: seq<QueuedMessage>, now: seq<QueuedMessage>, drawn: seq<Draw>,
                                          top: BView, m: QueuedMessage, posted: QueuedMessage)
    requires Progress(items, now, drawn, top) && OrderProgress(items, now, drawn, top)
    requires m in now && IsUpdate(m) && !m.handler.AView? && IsUpdateFor(posted, top)
    ensures OrderProgress(items, Without(now, {m}) + [posted], drawn, top)
  {
    var skipped := Skipped(items, top);
    assert Windowed(items) && skipped == top;
    OrdinaryConcat(Without(now, {m}), [posted], skipped);
    assert Ordinary([posted], skipped) == [] by {
      assert [posted][1..] == [];
    }
    OrdinaryWithout(now, {m}, skipped);
    OrdinaryContains(now, skipped);
    WithoutNothing(Ordinary(now, skipped), {m});
  }

  lemma {:induction false} OrderStart(items: seq<QueuedMessage>, top: BView)
    ensures OrderProgress(items, items, [], top)
  {
    var some := Ordinary(items, Skipped(items, top));
    assert ShownIn(some, []) == {};
    WithoutNothing(some, {});
  }

  /** When no redraw is left. */
  lemma {:induction false} AllDone(items: seq<QueuedMessage>, now: seq<QueuedMessage>, drawn: seq<Draw>, top: BView,
                                  bounds: Rect)
    requires InStep(items, now, drawn, top, bounds) && Having(now, UPDATE) == []
    ensures Windowed(items) ==> DrawnWhole(drawn, top, bounds)
    ensures forall d | d in drawn && d.view == top :: Within(d.rect, items, top, bounds)
    ensures now == Rest(items) && DrawnOnce(items, drawn, top)
    ensures TopRedrawn(items, drawn, top)
    ensures forall m | m in items && PlainUpdate(m, items, top) :: m.handler.view in DrawnViews(drawn)
    ensures Windowed(items) ==> top in DrawnViews(drawn)
  {
    RestIsAll(now);
    HavingContains(now, UPDATE);
  }

  lemma {:induction false} TakenOut(now: seq<QueuedMessage>, m: QueuedMessage)
    requires NoDuplicates(now) && Drawable(now) && Having(now, UPDATE) != [] && m == Having(now, UPDATE)[0]
    ensures m in now && IsUpdate(m)
    ensures NoDuplicates(Without(now, {m})) && Drawable(Without(now, {m}))
    ensures Weight(Without(now, {m})) + WeightOf(m) <= Weight(now)
  {
    assert m in Having(now, UPDATE);
    HavingContains(now, UPDATE);
    WithoutKeepsDistinct(now, {m});
    WeightWithout(now, {m});
  }

  /** Taking out one redraw of a view and then the others is taking out all. */
  lemma {:induction false} MergedOut(now: seq<QueuedMessage>, m: QueuedMessage, view: BView)
    requires m in now && IsUpdateFor(m, view)
    ensures
      var left := Without(now, {m});
      && {m} + UpdatesFor(left, view) == UpdatesFor(now, view)
      && Without(left, UpdatesFor(left, view)) == Without(now, UpdatesFor(now, view))
    ensures Weight(Without(now, UpdatesFor(now, view))) < Weight(now)
  {
    var left := Without(now, {m});
    assert {m} + UpdatesFor(left, view) == UpdatesFor(now, view);
    WithoutTwice(now, {m}, UpdatesFor(left, view));
    WeightWithout(now, UpdatesFor(now, view));
  }

  /** A redraw for a view that has no looper. */
  ghost predicate IsDetached(m: QueuedMessage)
    reads if m.handler.AView? then {m.handler.view} else {}
  {
    IsUpdate(m) && m.handler.AView? && m.handler.view.looper == null
  }

  /** A redraw is pending for a view that has been detached. */
  ghost predicate LooperMissing(items: seq<QueuedMessage>)
    reads set m | m in items && m.handler.AView? :: m.handler.view
  {
    exists m | m in items :: IsDetached(m)
  }

  /** What the loop in `UpdateIfNeeded` keeps. */
  ghost predicate InStep(items: seq<QueuedMessage>, now: seq<QueuedMessage>, drawn: seq<Draw>, top: BView,
                         bounds: Rect) {
    && Progress(items, now, drawn, top) && TopProgress(items, now, drawn, top)
    && WholeProgress(items, now, drawn, top, bounds) && OrderProgress(items, now, drawn, top)
  }

  lemma {:induction false} ViewTurnKeepsStep(items: seq<QueuedMessage>, now: seq<QueuedMessage>, drawn: seq<Draw>,
                                            top: BView, bounds: Rect, m: QueuedMessage, d: Draw)
    requires InStep(items, now, drawn, top, bounds) && Having(now, UPDATE) != [] && m == Having(now, UPDATE)[0]
    requires IsUpdateFor(m, d.view) && m in now && IsHull(d.rect, UpdatesFor(now, d.view))
    ensures InStep(items, Without(now, UpdatesFor(now, d.view)), drawn + [d], top, bounds)
  {
    assert m in UpdatesFor(now, d.view);
    hide Progress, TopBounded, TopCovered, WholeProgress, OrderProgress, Having, IsHull;
    ViewTurn(items, now, drawn, top, d);
    ViewTurnCovers(items, now, drawn, top, d);
    ViewTurnBounds(now, drawn, top, m, d);
    ViewTurnWhole(items, now, drawn, top, bounds, d);
    ViewTurnOrder(items, now, drawn, top, m, d);
  }

  lemma {:induction false} WindowTurnKeepsStep(items: seq<QueuedMessage>, now: seq<QueuedMessage>, drawn: seq<Draw>,
                                              top: BView, bounds: Rect, m: QueuedMessage, posted: QueuedMessage)
    requires InStep(items, now, drawn, top, bounds) && Having(now, UPDATE) != [] && m == Having(now, UPDATE)[0]
    requires m in now && IsUpdate(m) && !m.handler.AView?
    requires posted !in now && IsUpdateFor(posted, top) && posted.updateRect == Some(bounds) && bounds.IsValid()
    ensures InStep(items, Without(now, {m}) + [posted], drawn, top, bounds)
  {
    assert NoDuplicates(now);
    hide Progress, TopProgress, WholeProgress, OrderProgress, Having, NoDuplicates;
    WindowTurn(items, now, drawn, top, m, posted);
    WindowTurnTop(items, now, drawn, top, m, posted);
    WindowTurnWhole(items, now, drawn, top, bounds, m, posted);
    WindowTurnOrder(items, now, drawn, top, m, posted);
  }

  lemma {:induction false} StartsInStep(items: seq<QueuedMessage>, top: BView, bounds: Rect)
    requires NoDuplicates(items) && Drawable(items)
    ensures InStep(items, items, [], top, bounds)
  {
    OrderStart(items, top);
    hide OrderProgress;
  }

  /** One turn of that loop. */
  method UpdateOne(queue: BMessageQueue, pending: QueuedMessage, top: BView, drawn: seq<Draw>,
                   ghost items: seq<QueuedMessage>)
      returns (ending: Ending, drawn': seq<Draw>)
    requires InStep(items, queue.items, drawn, top, top.bounds)
    requires Having(queue.items, UPDATE) != [] && pending == Having(queue.items, UPDATE)[0]
    requires top.looper != null && top.bounds.IsValid()
    modifies queue
    ensures pending in old(queue.items) && IsUpdate(pending)
    ensures ending == NullLooper <==> IsDetached(pending)
    ensures ending == NullLooper ==> drawn' == drawn
    ensures ending == Finished ==>
              && InStep(items, queue.items, drawn', top, top.bounds)
              && Weight(queue.items) < Weight(old(queue.items))
              && forall m | m in old(queue.items) && IsDetached(m) :: m in queue.items
  {
    ghost var now := queue.items;
    ghost var left: seq<QueuedMessage> := Without<QueuedMessage>(now, {pending});
    TakenOut(now, pending);
    queue.RemoveMessage(pending);
    ending, drawn' := Finished, drawn;
    match pending.handler
    case AView(view) =>
      if view.looper == null {
        return NullLooper, drawn;
      }
      MergedOut(now, pending, view);
      hide InStep, Having, NoDuplicates, Drawable, Weight, IsHull;
      var rect := MergeUpdates(queue, view, pending);
      drawn' := drawn + [Draw(view, rect)];
      ViewTurnKeepsStep(items, now, drawn, top, top.bounds, pending, Draw(view, rect));
    case _ =>
      // BWindow::MessageReceived invalidates the top view.
      if top.looper != null {
        hide InStep, Having, NoDuplicates, Drawable, Weight;
        var posted := new QueuedMessage(UPDATE, AView(top), Some(top.bounds));
        queue.AddMessage(posted);
        WindowTurnKeepsStep(items, now, drawn, top, top.bounds, pending, posted);
        WeightAppend(left, posted);
      }
  }

  lemma {:induction false} OthersWerePending(items: seq<QueuedMessage>, now: seq<QueuedMessage>, drawn: seq<Draw>,
                                            top: BView, bounds: Rect, m: QueuedMessage)
    requires InStep(items, now, drawn, top, bounds)
    requires m in now && IsUpdate(m) && m.handler.AView? && m.handler.view != top
    ensures m in items
  {
    assert PlainUpdate(m, items, top);
  }

  lemma {:induction false} DrawnSoFar(items: seq<QueuedMessage>, now: seq<QueuedMessage>, drawn: seq<Draw>, top: BView,
                                     bounds: Rect)
    requires InStep(items, now, drawn, top, bounds)
    ensures DrawnOnce(items, drawn, top) && DrawnInOrder(items, drawn, top)
  {
    hide DrawnOnce;
  }

  /** The loop of `UpdateIfNeeded`. */
  method RedrawAll(queue: BMessageQueue, top: BView, ghost items: seq<QueuedMessage>)
      returns (ending: Ending, drawn: seq<Draw>)
    requires items == queue.items && NoDuplicates(items) && Drawable(items)
    requires top.looper != null && top.bounds.IsValid()
    modifies queue
    ensures ending == Finished <==> !LooperMissing(items)
    ensures ending == Finished ==>
              InStep(items, queue.items, drawn, top, top.bounds) && Having(queue.items, UPDATE) == []
    ensures DrawnOnce(items, drawn, top) && DrawnInOrder(items, drawn, top)
  {
    drawn := [];
    StartsInStep(items, top, top.bounds);
    hide InStep, Having, Weight, NoDuplicates, DrawnOnce, Drawable;
    var pending := queue.FindMessage(UPDATE, 0);
    while pending != null
      invariant pending == if Having(queue.items, UPDATE) == [] then null else Having(queue.items, UPDATE)[0]
      invariant InStep(items, queue.items, drawn, top, top.bounds)
      invariant forall m | m in items && IsDetached(m) :: m in queue.items
      decreases Weight(queue.items)
    {
      ghost var now, before := queue.items, drawn;
      ending, drawn := UpdateOne(queue, pending, top, drawn, items);
      if ending == NullLooper {
        OthersWerePending(items, now, before, top, top.bounds, pending);
        DrawnSoFar(items, now, before, top, top.bounds);
        assert IsDetached(pending);
        return;
      }
      pending := queue.FindMessage(UPDATE, 0);
    }
    HavingContains(queue.items, UPDATE);
    DrawnSoFar(items, queue.items, drawn, top, top.bounds);
    ending := Finished;
  }

  /** `UpdateIfNeeded`: redraws all that is pending, unless it meets a view that has been detached and so has no looper
      any more.  Without redraws of the window's own every pending view is drawn exactly once, in its smallest
      rectangle, and the views are drawn in the order in which redraws were first posted for them; with them this holds
      of all views but the top view, which is drawn once or twice, once as a whole, in rectangles that cover all that
      was pending for it and nothing beyond that and its bounds. */
  method UpdateIfNeeded(queue: BMessageQueue, top: BView, ghost window: BWindow)
      returns (ending: Ending, drawn: seq<Draw>)
    requires NoDuplicates(queue.items) && Drawable(queue.items)
    requires top.looper == window && top.bounds.IsValid()
    requires forall m | m in queue.items && IsUpdate(m) && m.handler.AView? :: m.handler.view.looper in [null, window]
    modifies queue
    ensures ending == Finished <==> !LooperMissing(old(queue.items))
    ensures DrawnOnce(old(queue.items), drawn, top) && DrawnInOrder(old(queue.items), drawn, top)
    ensures ending == Finished ==>
              exists done :: queue.items == Rest(old(queue.items)) + [done]
                             && done.what == UPDATE_IF_NEEDED && done.handler == TheWindow
    ensures ending == Finished ==>
              forall m | m in old(queue.items) && PlainUpdate(m, old(queue.items), top) ::
                m.handler.view in DrawnViews(drawn)
    ensures ending == Finished && Windowed(old(queue.items)) ==> top in DrawnViews(drawn)
    ensures ending == Finished ==> TopRedrawn(old(queue.items), drawn, top)
    ensures ending == Finished && Windowed(old(queue.items)) ==> DrawnWhole(drawn, top, top.bounds)
    ensures ending == Finished ==>
              forall d | d in drawn && d.view == top :: Within(d.rect, old(queue.items), top, top.bounds)
  {
    ghost var items := queue.items;
    ending, drawn := RedrawAll(queue, top, items);
    if ending == Finished {
      AllDone(items, queue.items, drawn, top, top.bounds);
      var done := new QueuedMessage(UPDATE_IF_NEEDED, TheWindow, None);
      queue.AddMessage(done);
    }
  }

  // A redraw for a detached view

  /** Every pending redraw is for the window or for one of its views. */
  ghost predicate AllAttached(items: seq<QueuedMessage>, window: BWindow, views: set<BView>)
    reads views`looper
  {
    forall m | m in items && IsUpdate(m) && m.handler.AView? ::
      m.handler.view in views && m.handler.view.looper == window
  }

  /** Removing a child from a window that shows it.  `_detach` posts a redraw of the child while that still has its
      looper; those that it posts for the child's own subtree are left out. */
  method RemoveShown(parent: BView, child: BView, window: BWindow, queue: BMessageQueue,
                     ghost views: set<BView>, ghost windows: set<BWindow>)
    requires Agreement(views, windows) && parent in views && child in views && child.parent == parent
    requires parent.owner == window && window in windows
    requires NoDuplicates(queue.items) && Drawable(queue.items) && AllAttached(queue.items, window, views)
    requires child.bounds.IsValid()
    modifies queue, windows
    modifies views`parent, views`firstChild, views`nextSibling, views`prevSibling, views`index, views`kids, views`path
    modifies views`owner, views`looper
    ensures Agreement(views, windows) && child.parent == null && window.topView.looper == window
    ensures NoDuplicates(queue.items) && Drawable(queue.items) && LooperMissing(queue.items)
    ensures forall m | m in queue.items && IsUpdate(m) && m.handler.AView? :: m.handler.view.looper in [null, window]
  {
    assert Tied(child, views) && child.looper == window;
    PathEnd(child, views);
    assert child in Subtree(child, views);
    var posted := new QueuedMessage(UPDATE, AView(child), Some(child.bounds));
    queue.AddMessage(posted);
    assert NoDuplicates(queue.items) && Drawable(queue.items) && posted in queue.items;
    assert AllAttached(queue.items, window, views);
    ghost var gone := Subtree(child, views);
    hide Forest, AllTied, Tied, NoDuplicates, Drawable, Subtree, PointersCleared, Registered, Pointing;
    var removed := parent.RemoveChild(child, views, windows);
    assert OwnersChanged(gone, null, views) && Loopers(views);
    assert Settled(window, views);
    hide Agreement, Removed, Settled;
    assert IsDetached(posted);
  }

  /** Updating the window then never finishes. */
  method RemoveShownAndUpdate(parent: BView, child: BView, window: BWindow, queue: BMessageQueue,
                              ghost views: set<BView>, ghost windows: set<BWindow>)
      returns (ending: Ending, drawn: seq<Draw>)
    requires Agreement(views, windows) && parent in views && child in views && child.parent == parent
    requires parent.owner == window && window in windows
    requires NoDuplicates(queue.items) && Drawable(queue.items) && AllAttached(queue.items, window, views)
    requires child.bounds.IsValid() && window.topView.bounds.IsValid()
    modifies queue, windows
    modifies views`parent, views`firstChild, views`nextSibling, views`prevSibling, views`index, views`kids, views`path
    modifies views`owner, views`looper
    ensures ending == NullLooper && Agreement(views, windows) && child.parent == null
  {
    hide Agreement, NoDuplicates, Drawable, AllAttached, LooperMissing;
    RemoveShown(parent, child, window, queue, views, windows);
    ending, drawn := UpdateIfNeeded(queue, window.topView, window);
  }

  /** A new window and a new view beside it. */
  method NewWindow(frame: Rect) returns (window: BWindow, child: BView, ghost views: set<BView>)
    requires frame.IsValid() && frame.Floored() == frame
    ensures fresh(window) && fresh(views) && Agreement(views, {window})
    ensures window.topView in views && window.topView.owner == window && window.topView.path == [window.topView]
    ensures child in views && child.parent == null && child.owner == null && child != window.topView
    ensures child.bounds.IsValid() && window.topView.bounds.IsValid()
  {
    var top := new BView(frame, {}, {});
    child := new BView(frame, {top}, {});
    views := {top} + {child};
    hide *;
    window := new BWindow(top, views, {});
    assert {} + {window} == {window};
  }

  /** It happens: a new window with one view, which is removed again. */
  method DetachedRedrawOccurs() returns (ending: Ending)
    ensures ending == NullLooper
  {
    var frame := Rect(0.0, 0.0, 10.0, 10.0);
    assert frame.IsValid() && frame.Floored() == frame;
    var queue := new BMessageQueue();
    var window, child, views := NewWindow(frame);
    var top := window.topView;
    assert !top.Refused(child, null) && NoDuplicates(queue.items) && Drawable(queue.items);
    assert AllAttached(queue.items, window, views);
    hide *;
    var outcome := top.AddChild(child, null, views, {window});
    var drawn;
    ending, drawn := RemoveShownAndUpdate(top, child, window, queue, views, {window});
  }
}
