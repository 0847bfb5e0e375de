/** BMessage, kits/app/Message.cpp: the object whose `what` and fields are changed in place, flattened into a
    caller's buffer and rebuilt from one.  Each method is proved against the functions of modules MessageStore
    and MessageFormat. */
module Message {
  import opened Bytes
  import opened MessageStore
  import opened MessageFormat
  import opened NestedMessages
  import opened Sequences

  /** Memory whose beginning has been overwritten. */
  function Overwritten(memory: seq<Byte>, bytes: seq<Byte>): (r: seq<Byte>)
    requires |bytes| <= |memory|
    ensures |r| == |memory|
  {
    bytes + memory[|bytes|..]
  }

  lemma {:induction false} KeepsBehind(memory: seq<Byte>, bytes: seq<Byte>, from: nat, after: seq<Byte>)
    requires |bytes| <= from <= |memory| && after == Overwritten(memory, bytes)
    ensures after[from..] == memory[from..]
  {
  }

  /** A `memcpy` or an assignment through a cast pointer, at the end of what has been written. */
  method Append(buffer: array<Byte>, end: nat, bytes: seq<Byte>, ghost memory: seq<Byte>, ghost written: seq<Byte>)
    requires end == |written| && end + |bytes| <= buffer.Length == |memory|
    requires buffer[..] == Overwritten(memory, written)
    modifies buffer
    ensures buffer[..] == Overwritten(memory, written + bytes)
  {
    forall k | 0 <= k < |bytes| {
      buffer[end + k] := bytes[k];
    }
  }

  class BMessage {
    var what: UInt32
    var fields: seq<Field>

    constructor (what: UInt32)
      ensures this.what == what && fields == []
    {
      this.what := what;
      fields := [];
    }

    method AddData(name: CString, kind: UInt32, item: Item) returns (status: Status)
      modifies this
      ensures fields == Push(old(fields), name, kind, item)
      ensures status == PushStatus(old(fields), name, kind) && what == old(what)
    {
      var i := 0;
      while i < |fields| && !Matches(fields[i], name)
        invariant i <= |fields| && LocateFrom(fields, name, i) == Locate(fields, name)
      {
        i := i + 1;
      }
      if i < |fields| && fields[i].kind != kind {
        return BadType;
      }
      if i == |fields| {
        fields := fields + [Field(Clip(name, B_FIELD_NAME_LENGTH), kind, [])];
      }
      fields := fields[i := fields[i].(items := fields[i].items + [item])];
      assert [] + [item] == [item];
      return Ok;
    }

    method FindData(name: CString, kind: UInt32, index: int) returns (found: Lookup)
      ensures found == Find(fields, name, kind, index)
    {
      var i := 0;
      while i < |fields|
        invariant i <= |fields| && LocateFrom(fields, name, i) == Locate(fields, name)
      {
        if Matches(fields[i], name) {
          if kind != B_ANY_TYPE && fields[i].kind != kind {
            return Missing(BadType);
          }
          if index < 0 || index > |fields[i].items| {
            return Missing(BadIndex);
          }
          return if index == |fields[i].items| then PastEnd else Found(fields[i].items[index]);
        }
        i := i + 1;
      }
      return Missing(NameNotFound);
    }

    /** With the index one past the last item the code would write behind the items. */
    method ReplaceData(name: CString, kind: UInt32, index: int, item: Item) returns (status: Status)
      modifies this
      ensures what == old(what)
      ensures
        if kind == B_ANY_TYPE then status == BadType && fields == old(fields)
        else
          var found := Find(old(fields), name, kind, index);
          if found.Missing? then status == found.status && fields == old(fields)
          else if found.PastEnd? then status == Undefined && fields == old(fields)
          else status == Ok && fields == Replace(old(fields), name, kind, index, item)
    {
      if kind == B_ANY_TYPE {
        return BadType;
      }
      var found := FindData(name, kind, index);
      if found.Missing? {
        return found.status;
      }
      if found.PastEnd? {
        return Undefined;
      }
      var i := Locate(fields, name);
      fields := fields[i := fields[i].(items := fields[i].items[index := item])];
      return Ok;
    }

    method FlattenedSize() returns (size: nat)
      ensures size == MessageSize(fields)
    {
      size := 4;
      size := size + 4;
      var i := 0;
      while i < |fields|
        invariant i <= |fields| && size + FieldsSize(fields, i) == MessageSize(fields) + 4
      {
        var f := fields[i];
        size := size + 4;
        size := size + 1;
        size := size + |f.name|;
        size := size + 4;
        var k := 0;
        while k < |f.items|
          invariant k <= |f.items|
          invariant size + ItemsSize(f.items, k) + FieldsSize(fields, i + 1) == MessageSize(fields) + 4
        {
          size := size + 8;
          size := size + |f.items[k]|;
          k := k + 1;
        }
        i := i + 1;
      }
    }

    /** One item of a field, as `Flatten` writes it behind `written`; `done` is all that has been written then. */
    method FlattenItem(item: Item, buffer: array<Byte>, start: nat, maxSize: int, ghost memory: seq<Byte>,
                       ghost written: seq<Byte>) returns (status: Status, end: nat, ghost done: seq<Byte>)
      requires start == |written| <= maxSize <= buffer.Length == |memory|
      requires buffer[..] == Overwritten(memory, written)
      modifies buffer
      ensures status == if |item| > UINT64_MAX then BadValue else if start + 8 + |item| > maxSize then NoMemory else Ok
      ensures end == |done| <= maxSize && buffer[..] == Overwritten(memory, done)
      ensures status == Ok ==> done == written + ItemBytes(item)
    {
      end, done := start, written;
      if |item| > UINT64_MAX {
        return BadValue, end, done;
      }
      if end + 8 > maxSize {
        return NoMemory, end, done;
      }
      Append(buffer, end, Store(|item|, 8), memory, done);
      end, done := end + 8, done + Store(|item|, 8);
      if end + |item| > maxSize {
        return NoMemory, end, done;
      }
      Append(buffer, end, item, memory, done);
      end, done := end + |item|, done + item;
      assert done == written + ItemBytes(item);
      return Ok, end, done;
    }

    /** The type, name and item count of a field. */
    method FlattenHead(f: Field, buffer: array<Byte>, start: nat, maxSize: int, ghost memory: seq<Byte>,
                       ghost written: seq<Byte>) returns (status: Status, end: nat, ghost done: seq<Byte>)
      requires start == |written| <= maxSize <= buffer.Length == |memory|
      requires buffer[..] == Overwritten(memory, written)
      modifies buffer
      ensures end == |done| <= maxSize && buffer[..] == Overwritten(memory, done)
      ensures status == Ok ==> done == written + FieldHead(f) && |f.name| <= UINT8_MAX && |f.items| <= UINT32_MAX
      ensures status == BadValue ==> |f.name| > UINT8_MAX || |f.items| > UINT32_MAX
      ensures status == NoMemory ==> start + 9 + |f.name| > maxSize
      ensures status in {Ok, BadValue, NoMemory}
    {
      // type
      end, done := start, written;
      if end + 4 > maxSize {
        return NoMemory, end, done;
      }
      Append(buffer, end, Store(f.kind, 4), memory, done);
      end, done := end + 4, done + Store(f.kind, 4);

      // name length
      if |f.name| > UINT8_MAX {
        return BadValue, end, done;
      }
      if end + 1 > maxSize {
        return NoMemory, end, done;
      }
      Append(buffer, end, Store(|f.name|, 1), memory, done);
      end, done := end + 1, done + Store(|f.name|, 1);

      // name
      if end + |f.name| > maxSize {
        return NoMemory, end, done;
      }
      Append(buffer, end, f.name, memory, done);
      end, done := end + |f.name|, done + f.name;

      // data vector length
      if |f.items| > UINT32_MAX {
        return BadValue, end, done;
      }
      if end + 4 > maxSize {
        return NoMemory, end, done;
      }
      Append(buffer, end, Store(|f.items|, 4), memory, done);
      end, done := end + 4, done + Store(|f.items|, 4);
      assert done == written + FieldHead(f);
      return Ok, end, done;
    }

    /** One field, as `Flatten` writes it. */
    method FlattenField(f: Field, buffer: array<Byte>, start: nat, maxSize: int, ghost memory: seq<Byte>,
                        ghost written: seq<Byte>) returns (status: Status, end: nat, ghost done: seq<Byte>)
      requires start == |written| <= maxSize <= buffer.Length == |memory|
      requires buffer[..] == Overwritten(memory, written)
      modifies buffer
      ensures end == |done| <= maxSize && buffer[..] == Overwritten(memory, done)
      ensures status == Ok ==> done == written + FieldBytes(f) && end == start + FieldSize(f) && FieldEncodable(f)
      ensures status == BadValue ==> !FieldEncodable(f)
      ensures status == NoMemory ==> start + FieldSize(f) > maxSize
      ensures status in {Ok, BadValue, NoMemory}
    {
      status, end, done := FlattenHead(f, buffer, start, maxSize, memory, written);
      if status != Ok {
        return;
      }
      ghost var head := done;
      assert head == written + FieldHead(f) && |head| == start + 9 + |f.name|;
      hide FieldHead, Overwritten;
      status, end, done := FlattenItems(f.items, buffer, end, maxSize, memory, done);
      Regroup(written, FieldHead(f), ItemsBytes(f.items, 0));
    }

    /** The items of a field. */
    method FlattenItems(items: seq<Item>, buffer: array<Byte>, start: nat, maxSize: int, ghost memory: seq<Byte>,
                        ghost written: seq<Byte>) returns (status: Status, end: nat, ghost done: seq<Byte>)
      requires start == |written| <= maxSize <= buffer.Length == |memory|
      requires buffer[..] == Overwritten(memory, written)
      modifies buffer
      ensures end == |done| <= maxSize && buffer[..] == Overwritten(memory, done)
      ensures status == Ok ==>
                done == written + ItemsBytes(items, 0) && end == start + ItemsSize(items, 0) && ItemsEncodable(items)
      ensures status == BadValue ==> !ItemsEncodable(items)
      ensures status == NoMemory ==> start + ItemsSize(items, 0) > maxSize
      ensures status in {Ok, BadValue, NoMemory}
    {
      hide ItemBytes, Overwritten;
      status, end, done := Ok, start, written;
      ghost var target := written + ItemsBytes(items, 0);
      var k := 0;
      while k < |items|
        invariant k <= |items| && end == |done| <= maxSize && buffer[..] == Overwritten(memory, done)
        invariant status == Ok
        invariant forall j | 0 <= j < k :: |items[j]| <= UINT64_MAX
        invariant end + ItemsSize(items, k) == start + ItemsSize(items, 0)
        invariant done + ItemsBytes(items, k) == target
      {
        var from := end;
        ghost var before := done;
        status, end, done := FlattenItem(items[k], buffer, from, maxSize, memory, before);
        if status != Ok {
          assert from + 8 + |items[k]| <= start + ItemsSize(items, 0);
          return;
        }
        assert |ItemBytes(items[k])| == 8 + |items[k]| by {
          ItemBytesLength(items[k]);
        }
        Regroup(before, ItemBytes(items[k]), ItemsBytes(items, k + 1));
        k := k + 1;
      }
    }

    /** The loop of `Flatten` over all fields. */
    method FlattenFields(buffer: array<Byte>, start: nat, maxSize: int,
                         ghost memory: seq<Byte>, ghost written: seq<Byte>)
        returns (status: Status, end: nat, ghost done: seq<Byte>)
      requires start == |written| <= maxSize <= buffer.Length == |memory|
      requires buffer[..] == Overwritten(memory, written)
      modifies buffer
      ensures end == |done| <= maxSize && buffer[..] == Overwritten(memory, done)
      ensures status == Ok ==>
                Encodable(fields) && end + 4 == start + FieldsSize(fields, 0)
                && done + TERMINATOR == written + FieldsBytes(fields, 0)
      ensures status == BadValue ==> !Encodable(fields)
      ensures status == NoMemory ==> start + FieldsSize(fields, 0) > maxSize
      ensures status in {Ok, BadValue, NoMemory}
    {
      hide FieldBytes, FieldSize, FieldEncodable, Overwritten;
      status, end, done := Ok, start, written;
      ghost var target := written + FieldsBytes(fields, 0);
      var i := 0;
      while i < |fields|
        invariant i <= |fields| && end == |done| <= maxSize && buffer[..] == Overwritten(memory, done)
        invariant status == Ok
        invariant forall j | 0 <= j < i :: FieldEncodable(fields[j])
        invariant end + FieldsSize(fields, i) == start + FieldsSize(fields, 0)
        invariant done + FieldsBytes(fields, i) == target
      {
        var from := end;
        ghost var before := done;
        status, end, done := FlattenField(fields[i], buffer, from, maxSize, memory, before);
        if status != Ok {
          assert from + FieldSize(fields[i]) <= start + FieldsSize(fields, 0);
          return;
        }
        Regroup(before, FieldBytes(fields[i]), FieldsBytes(fields, i + 1));
        i := i + 1;
      }
    }

    /** `Flatten` succeeds exactly when the lengths fit in the format and `maxSize` is at least the flattened size.
        Then the buffer begins with the flattened message and is otherwise unchanged; when it fails, nothing at or
        beyond `maxSize` has changed. */
    method Flatten(buffer: array<Byte>, maxSize: int) returns (status: Status)
      requires maxSize <= buffer.Length
      modifies buffer
      ensures status == Ok <==> Encodable(fields) && MessageSize(fields) <= maxSize
      ensures status == Ok ==>
                |MessageBytes(what, fields)| == MessageSize(fields)
                && buffer[..] == Overwritten(old(buffer[..]), MessageBytes(what, fields))
      ensures maxSize >= 0 ==> buffer[maxSize..] == old(buffer[maxSize..])
      ensures maxSize < 0 ==> buffer[..] == old(buffer[..])
      ensures status == BadValue ==> !Encodable(fields)
      ensures status == NoMemory ==> MessageSize(fields) > maxSize
      ensures status in {Ok, BadValue, NoMemory}
    {
      ghost var memory := buffer[..];
      SizeIsLength(what, fields);
      if 4 > maxSize {
        return NoMemory;
      }
      assert [] + memory[0..] == memory && [] + Store(what, 4) == Store(what, 4);
      Append(buffer, 0, Store(what, 4), memory, []);
      var end: nat;
      ghost var done;
      status, end, done := FlattenFields(buffer, 4, maxSize, memory, Store(what, 4));
      if status == Ok {
        if end + 4 > maxSize {
          status := NoMemory;
        } else {
          Append(buffer, end, TERMINATOR, memory, done);
          done := done + TERMINATOR;
          assert done == MessageBytes(what, fields);
        }
      }
      KeepsBehind(memory, done, maxSize, buffer[..]);
    }

    /** The inner loop of `Unflatten`: the items of one field. */
    method UnflattenItems(buf: seq<Byte>, start: nat, count: nat, name: CString, kind: UInt32)
        returns (status: Status, pos: nat)
      requires start <= |buf| && ReadItems(buf, start, count, name, kind, fields) != ItemsFailed(Overrun)
      modifies this
      ensures what == old(what)
      ensures match ReadItems(buf, start, count, name, kind, old(fields))
              case ItemsRead(after, end) => status == Ok && fields == after && pos == end
              case ItemsFailed(reading) => status != Ok && reading == Read(fields, status)
    {
      hide Push, PushStatus, Load;
      ghost var all := ReadItems(buf, start, count, name, kind, fields);
      pos := start;
      var dataSize := count;
      while dataSize > 0
        invariant pos <= |buf| && what == old(what)
        invariant ReadItems(buf, pos, dataSize, name, kind, fields) == all
      {
        ReadItemsStep(buf, pos, dataSize, name, kind, fields, all);
        var size := Load(buf, pos, 8);
        pos := pos + 8;
        status := AddData(name, kind, buf[pos..pos + size]);
        if status != Ok {
          return;
        }
        dataSize := dataSize - 1;
        pos := pos + size;
      }
      status := Ok;
    }

    /** `Unflatten` clears the message and rebuilds it from bytes, which must hold a complete flattened message. */
    method Unflatten(buf: seq<Byte>) returns (status: Status)
      requires ReadMessage(buf) != Overrun
      modifies this
      ensures what == Load32(buf, 0) && Read(fields, status) == ReadMessage(buf)
    {
      hide Push, PushStatus, ReadItems, Load, ZeroFrom;
      ghost var all := ReadMessage(buf);
      fields := [];
      what := Load32(buf, 0);
      var pos := 4;
      while true
        invariant 4 <= pos <= |buf| && what == Load32(buf, 0)
        invariant ReadFields(buf, pos, fields) == all
        decreases |buf| - pos
      {
        var kind := Load32(buf, pos);
        if kind == 0 {
          return Ok;
        }
        pos := pos + 4;
        var nameLength := buf[pos] as int;
        pos := pos + 1;
        var name := CStringOf(buf[pos..pos + nameLength]);
        pos := pos + nameLength;
        var dataSize := Load32(buf, pos);
        pos := pos + 4;
        status, pos := UnflattenItems(buf, pos, dataSize, name, kind);
        if status != Ok {
          return;
        }
      }
    }

    /** `operator=`: clears the fields and adds the other message's one item at a time.  A message assigned to
        itself has been cleared by then. */
    method Assign(other: BMessage)
      modifies this
      ensures what == old(other.what)
      ensures fields == if this == other then [] else PushFields([], other.fields, 0)
      ensures Valid(old(other.fields)) && (this != other || old(other.fields) == []) ==> fields == old(other.fields)
    {
      what := other.what;
      fields := [];
      var i := 0;
      while i < |other.fields|
        invariant this == other ==> fields == []
        invariant this != other ==>
                    i <= |other.fields| && PushFields(fields, other.fields, i) == PushFields([], other.fields, 0)
        invariant what == old(other.what)
        decreases |other.fields| - i
      {
        var node := other.fields[i];
        var k := 0;
        while k < |node.items|
          invariant this != other && i < |other.fields| && node == other.fields[i] && k <= |node.items|
          invariant PushFields(PushAll(fields, node.name, node.kind, node.items, k), other.fields, i + 1)
                 == PushFields([], other.fields, 0)
          invariant what == old(other.what)
        {
          var status := AddData(node.name, node.kind, node.items[k]);
          k := k + 1;
        }
        i := i + 1;
      }
      if Valid(old(other.fields)) {
        CopyIsExact(old(other.fields));
      }
    }

    /** Adds another message as an item: its flattened form. */
    method AddMessage(name: CString, message: BMessage?) returns (status: Status)
      modifies this
      ensures what == old(what)
      ensures
        if message == null || !Encodable(old(message.fields)) then status == BadValue && fields == old(fields)
        else
          && status == PushStatus(old(fields), name, B_MESSAGE_TYPE)
          && fields == Push(old(fields), name, B_MESSAGE_TYPE, MessageBytes(old(message.what), old(message.fields)))
    {
      if message == null {
        return BadValue;
      }
      var size := message.FlattenedSize();
      var buffer := new Byte[size];
      status := message.Flatten(buffer, size);
      if status == Ok {
        assert buffer[..] == MessageBytes(message.what, message.fields);
        status := AddData(name, B_MESSAGE_TYPE, buffer[..]);
      }
    }

    /** Rebuilds `message` from an item, or empties it.  An item found must be one that a message was flattened to.
        Where the code reads behind the items, or an item of this message after it has emptied it, nothing is said. */
    method FindMessage(name: CString, index: int, message: BMessage?) returns (status: Status)
      requires Find(fields, name, B_MESSAGE_TYPE, index).Found? ==>
                 ReadMessage(Find(fields, name, B_MESSAGE_TYPE, index).item) != Overrun
      modifies if message == null then {} else {message}
      ensures message == null ==> status == BadValue
      ensures
        message != null ==>
          var found := old(Find(fields, name, B_MESSAGE_TYPE, index));
          if found.PastEnd? || (found.Found? && message == this) then status == Undefined
          else if found.Found? then
            message.what == Load32(found.item, 0) && Read(message.fields, status) == ReadMessage(found.item)
          else
            status == found.status && message.what == 0 && message.fields == []
    {
      if message == null {
        return BadValue;
      }
      var found := FindData(name, B_MESSAGE_TYPE, index);
      if found.PastEnd? || (found.Found? && message == this) {
        return Undefined;
      }
      if found.Found? {
        status := message.Unflatten(found.item);
      } else {
        status := found.status;
        message.what, message.fields := 0, [];
      }
    }

    ghost function Holds(): Content
      reads this
    {
      Content(what, fields)
    }
  }

  /** A message added to another one and found there again is equal to what was added; it can be added exactly if it can
      be flattened and no field of another type has the name. */
  method AddAndFind(outer: BMessage, name: CString, inner: BMessage, target: BMessage)
      returns (added: Status, found: Status)
    requires Built(outer.Holds()) && Built(inner.Holds()) && target != outer
    requires IsCString(name) && MessageSize(inner.fields) <= SSIZE_MAX
    modifies outer, target
    ensures added == Ok <==> old(CanPut(outer.Holds(), name, inner.Holds()))
    ensures added == Ok ==> found == Ok && target.Holds() == old(inner.Holds())
    ensures added == Ok ==> outer.Holds() == Put(old(outer.Holds()), name, old(inner.Holds()))
    ensures added != Ok ==> outer.Holds() == old(outer.Holds())
  {
    ghost var before, put := outer.Holds(), inner.Holds();
    var index := CountOf(Content(outer.what, outer.fields), name);
    added := outer.AddMessage(name, inner);
    found := added;
    if added == Ok {
      GetPut(before, name, put);
      ReadBack(put);
      FindAdded(before.fields, name, B_MESSAGE_TYPE, MessageBytes(put.what, put.fields));
      hide ReadMessage, Push, PushStatus, Locate, Load32, MessageBytes;
      found := outer.FindMessage(name, index, target);
    }
  }
}
