/** BMessageQueue, kits/app/MessageQueue.cpp: a list of message pointers. */
module MessageQueue {
  import opened Geometry
  import opened Options
  import opened Sequences
  import opened Views

  datatype Handler = NoHandler | TheWindow | AView(view: BView)

  /** A queued message, as far as redrawing looks at it. */
  class QueuedMessage {
    const what: int
    const handler: Handler
    const updateRect: Option<Rect>

    constructor (what: int, handler: Handler, updateRect: Option<Rect>)
      ensures this.what == what && this.handler == handler && this.updateRect == updateRect
    {
      this.what, this.handler, this.updateRect := what, handler, updateRect;
    }
  }

  function Picked(m: QueuedMessage, what: int): seq<QueuedMessage> {
    if m.what == what then [m] else []
  }

  /** The messages with this code, in order. */
  function Having(items: seq<QueuedMessage>, what: int): seq<QueuedMessage> {
    if items == [] then []
    else Picked(items[0], what) + Having(items[1..], what)
  }

  lemma {:induction false} HavingStep(items: seq<QueuedMessage>, what: int, i: nat)
    requires i < |items|
    ensures Having(items[i..], what) == Picked(items[i], what) + Having(items[i + 1..], what)
  {
    assert items[i..][1..] == items[i + 1..];
  }

  lemma {:induction false} HavingConcat(a: seq<QueuedMessage>, b: seq<QueuedMessage>, what: int)
    ensures Having(a + b, what) == Having(a, what) + Having(b, what)
  {
    if a == [] {
      assert a + b == b;
    } else {
      assert (a + b)[0] == a[0] && (a + b)[1..] == a[1..] + b;
      HavingConcat(a[1..], b, what);
      Regroup(Picked(a[0], what), Having(a[1..], what), Having(b, what));
    }
  }

  lemma {:induction false} HavingContains(items: seq<QueuedMessage>, what: int)
    ensures forall m {:trigger m in Having(items, what)} | m in Having(items, what) :: m in items && m.what == what
    ensures forall m {:trigger m in items} | m in items && m.what == what :: m in Having(items, what)
  {
    if items != [] {
      HavingContains(items[1..], what);
      assert forall m {:trigger m in items} | m in items :: m == items[0] || m in items[1..];
    }
  }

  /** Searching after removing is removing from what is searched. */
  lemma {:induction false} HavingWithout(items: seq<QueuedMessage>, what: int, out: set<QueuedMessage>)
    ensures Having(Without(items, out), what) == Without(Having(items, what), out)
  {
    if items != [] {
      var head := [items[0]];
      HavingWithout(items[1..], what, out);
      HavingConcat(if items[0] in out then [] else head, Without(items[1..], out), what);
      WithoutConcat(Picked(items[0], what), Having(items[1..], what), out);
    }
  }

  lemma {:induction false} HavingDistinct(items: seq<QueuedMessage>, what: int)
    requires NoDuplicates(items)
    ensures NoDuplicates(Having(items, what))
  {
    if items != [] {
      HavingDistinct(items[1..], what);
      HavingContains(items[1..], what);
      var r := Having(items[1..], what);
      assert items[0] !in items[1..];
      forall j | 0 <= j < |r| ensures r[j] != items[0] {
        assert r[j] in r;
      }
    }
  }

  class BMessageQueue {
    var items: seq<QueuedMessage>

    constructor ()
      ensures items == []
    {
      items := [];
    }

    method AddMessage(message: QueuedMessage?)
      modifies this
      ensures items == if message == null then old(items) else old(items) + [message]
    {
      if message == null {
        return;
      }
      items := items + [message];
    }

    /** Removes the message wherever it is in the list. */
    method RemoveMessage(message: QueuedMessage?)
      modifies this
      ensures items == if message == null then old(items) else Without<QueuedMessage>(old(items), {message})
    {
      if message == null {
        return;
      }
      items := Without<QueuedMessage>(items, {message});
    }

    method NextMessage() returns (next: QueuedMessage?)
      modifies this
      ensures if old(items) == [] then next == null && items == []
              else next == old(items)[0] && items == old(items)[1..]
    {
      if items == [] {
        return null;
      }
      next := items[0];
      items := items[1..];
    }

    /** The message at an index, if there is one. */
    method FindMessageAt(index: int) returns (found: QueuedMessage?)
      ensures found == if 0 <= index < |items| then items[index] else null
    {
      if items == [] {
        return null;
      }
      var left, i := index, 0;
      while i < |items|
        invariant i <= |items| && left == index - i
        invariant !(0 <= index < i)
      {
        if left == 0 {
          return items[i];
        }
        left := left - 1;
        i := i + 1;
      }
      return null;
    }

    /** The message at an index among those with this code, if there is one. */
    method FindMessage(what: int, index: int) returns (found: QueuedMessage?)
      ensures
        var some := Having(items, what);
        found == if 0 <= index < |some| then some[index] else null
    {
      if items == [] {
        return null;
      }
      var left, i := index, 0;
      ghost var some := Having(items, what);
      while i < |items|
        invariant i <= |items| && left <= index && (index < 0 || left >= 0)
        invariant index - left <= |some| && some[index - left..] == Having(items[i..], what)
      {
        HavingStep(items, what, i);
        hide Having;
        if items[i].what == what {
          if left == 0 {
            return items[i];
          }
          left := left - 1;
        }
        i := i + 1;
      }
      return null;
    }
  }
}
