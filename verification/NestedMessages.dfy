/** Messages inside messages, kits/app/Message.cpp: what AddMessage puts in, FindMessage gets out, at any depth. */
module NestedMessages {
  import opened Bytes
  import opened MessageStore
  import opened MessageFormat
  import opened Options

  /** What a BMessage object holds. */
  datatype Content = Content(what: UInt32, fields: seq<Field>)

  /** A message that AddData built from nonzero type codes. */
  ghost predicate Built(c: Content) {
    Valid(c.fields) && NoZeroKind(c.fields)
  }

  /** A successful AddMessage leaves this. */
  function Put(outer: Content, name: CString, inner: Content): Content {
    outer.(fields := Push(outer.fields, name, B_MESSAGE_TYPE, MessageBytes(inner.what, inner.fields)))
  }

  /** It succeeds if the inner message can be flattened and no field of another type has the name. */
  ghost predicate CanPut(outer: Content, name: CString, inner: Content) {
    && IsCString(name)
    && Encodable(inner.fields) && MessageSize(inner.fields) <= SSIZE_MAX
    && PushStatus(outer.fields, name, B_MESSAGE_TYPE) == Ok
  }

  /** What FindMessage rebuilds, if it finds the item and reads it without an error. */
  function Get(outer: Content, name: CString, index: int): Option<Content> {
    match Find(outer.fields, name, B_MESSAGE_TYPE, index)
    case Found(item) =>
      (match ReadMessage(item)
       case Read(fields, Ok) => Some(Content(Load32(item, 0), fields))
       case _ => None)
    case _ => None
  }

  /** The items that a field of that name has. */
  function CountOf(c: Content, name: CString): nat {
    var i := Locate(c.fields, name);
    if i < |c.fields| then |c.fields[i].items| else 0
  }

  lemma {:induction false} ReadBack(c: Content)
    requires Built(c) && Encodable(c.fields)
    ensures
      var bytes := MessageBytes(c.what, c.fields);
      |bytes| >= 4 && Load32(bytes, 0) == c.what && ReadMessage(bytes) == Read(c.fields, Ok)
  {
    RoundTrip(c.what, c.fields, []);
    assert MessageBytes(c.what, c.fields) + [] == MessageBytes(c.what, c.fields);
  }

  /** A message that was added is found behind the items that were there, and is equal to the one added. */
  lemma {:induction false} GetPut(outer: Content, name: CString, inner: Content)
    requires Built(outer) && Built(inner) && CanPut(outer, name, inner)
    ensures Get(Put(outer, name, inner), name, CountOf(outer, name)) == Some(inner)
  {
    hide MessageBytes, ReadMessage, Push, PushStatus, Locate, Load32;
    ReadBack(inner);
    FindAdded(outer.fields, name, B_MESSAGE_TYPE, MessageBytes(inner.what, inner.fields));
  }

  lemma {:induction false} PutKeepsBuilt(outer: Content, name: CString, inner: Content)
    requires Built(outer) && CanPut(outer, name, inner)
    ensures Built(Put(outer, name, inner))
  {
    hide MessageBytes, MessageSize, Locate;
    SizeIsLength(inner.what, inner.fields);
    PushKeepsValid(outer.fields, name, B_MESSAGE_TYPE, MessageBytes(inner.what, inner.fields));
  }

  // Any depth

  /** One enclosing message and the name under which it holds the next. */
  datatype Level = Level(outer: Content, name: CString)

  /** `inner` inside the last level, inside the one in front of it, and so on to the `k`-th. */
  function Nest(levels: seq<Level>, k: nat, inner: Content): Content
    requires k <= |levels|
    decreases |levels| - k
  {
    if k == |levels| then inner else Put(levels[k].outer, levels[k].name, Nest(levels, k + 1, inner))
  }

  /** Every AddMessage of the nesting succeeds, on messages that were built. */
  ghost predicate CanNest(levels: seq<Level>, inner: Content) {
    && Built(inner)
    && forall k | 0 <= k < |levels| ::
         Built(levels[k].outer) && CanPut(levels[k].outer, levels[k].name, Nest(levels, k + 1, inner))
  }

  /** The chain of FindMessage calls that unpacks the levels from the `k`-th on. */
  function Unpack(c: Content, levels: seq<Level>, k: nat): Option<Content>
    requires k <= |levels|
    decreases |levels| - k
  {
    if k == |levels| then Some(c)
    else
      match Get(c, levels[k].name, CountOf(levels[k].outer, levels[k].name))
      case None => None
      case Some(next) => Unpack(next, levels, k + 1)
  }

  lemma {:induction false} NestIsBuilt(levels: seq<Level>, k: nat, inner: Content)
    requires CanNest(levels, inner) && k <= |levels|
    ensures Built(Nest(levels, k, inner))
  {
    hide Built, CanPut;
    if k < |levels| {
      PutKeepsBuilt(levels[k].outer, levels[k].name, Nest(levels, k + 1, inner));
    }
  }

  /** Unpacking gives back the innermost message at any depth. */
  lemma {:induction false} UnpackNest(levels: seq<Level>, k: nat, inner: Content)
    requires CanNest(levels, inner) && k <= |levels|
    ensures Unpack(Nest(levels, k, inner), levels, k) == Some(inner)
    decreases |levels| - k
  {
    hide Built, CanPut, Get, Put, CountOf;
    if k < |levels| {
      NestIsBuilt(levels, k + 1, inner);
      GetPut(levels[k].outer, levels[k].name, Nest(levels, k + 1, inner));
      UnpackNest(levels, k + 1, inner);
    }
  }

  // Later changes of the outer message

  /** Adding anything to a message changes nothing that was found in it. */
  lemma {:induction false} AddingKeepsFound(fields: seq<Field>, name: CString, kind: UInt32, item: Item,
                                           other: CString, k: UInt32, index: int)
    requires Valid(fields) && Find(fields, other, k, index).Found?
    ensures Find(Push(fields, name, kind, item), other, k, index) == Find(fields, other, k, index)
  {
    if SameName(Clip(name, B_FIELD_NAME_LENGTH), other, B_FIELD_NAME_LENGTH) {
      LocateByName(fields, name);
      LocateByName(fields, other);
      SameLocate(fields, name, other);
      if PushStatus(fields, name, kind) == Ok {
        PushLocates(fields, name, kind, item);
        var after := Push(fields, name, kind, item);
        PushKeepsNames(fields, name, kind, item);
        SameLocate(after, name, other);
      }
    } else {
      PushKeepsOthers(fields, name, kind, item, other, k, index);
    }
  }

  /** Hence a nested message stays where it is when the outer message gets more data. */
  lemma {:induction false} UnpackAfterAdding(levels: seq<Level>, inner: Content, name: CString, kind: UInt32,
                                            item: Item)
    requires CanNest(levels, inner) && |levels| > 0
    ensures
      var c := Nest(levels, 0, inner);
      Unpack(c.(fields := Push(c.fields, name, kind, item)), levels, 0) == Some(inner)
  {
    hide Push, CanPut, Put, CountOf;
    var c, l := Nest(levels, 0, inner), levels[0];
    NestIsBuilt(levels, 0, inner);
    NestIsBuilt(levels, 1, inner);
    GetPut(l.outer, l.name, Nest(levels, 1, inner));
    UnpackNest(levels, 0, inner);
    AddingKeepsFound(c.fields, name, kind, item, l.name, B_MESSAGE_TYPE, CountOf(l.outer, l.name));
  }
}
