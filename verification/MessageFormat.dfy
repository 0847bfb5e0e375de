/** The flattened form of a message, kits/app/Message.cpp: what its bytes are, how long they are, and what reading
    bytes back builds.  All integers are little-endian. */
module MessageFormat {
  import opened Bytes
  import opened MessageStore

  // Printing

  function ItemBytes(item: Item): seq<Byte> {
    Store(|item|, 8) + item
  }

  /** The items from the `k`-th on. */
  function ItemsBytes(items: seq<Item>, k: nat): seq<Byte>
    requires k <= |items|
    decreases |items| - k
  {
    if k == |items| then [] else ItemBytes(items[k]) + ItemsBytes(items, k + 1)
  }

  function FieldHead(f: Field): seq<Byte> {
    Store(f.kind, 4) + Store(|f.name|, 1) + f.name + Store(|f.items|, 4)
  }

  function FieldBytes(f: Field): seq<Byte> {
    FieldHead(f) + ItemsBytes(f.items, 0)
  }

  const TERMINATOR: seq<Byte> := [0, 0, 0, 0]

  /** The fields from the `k`-th on, and the end mark. */
  function FieldsBytes(fields: seq<Field>, k: nat): seq<Byte>
    requires k <= |fields|
    decreases |fields| - k
  {
    if k == |fields| then TERMINATOR else FieldBytes(fields[k]) + FieldsBytes(fields, k + 1)
  }

  /** The flattened message. */
  function MessageBytes(what: UInt32, fields: seq<Field>): seq<Byte> {
    Store(what, 4) + FieldsBytes(fields, 0)
  }

  /** Whether the lengths that the format stores fit in their places. */
  predicate FieldEncodable(f: Field) {
    |f.name| <= UINT8_MAX && |f.items| <= UINT32_MAX && ItemsEncodable(f.items)
  }

  predicate ItemsEncodable(items: seq<Item>) {
    forall i | 0 <= i < |items| :: |items[i]| <= UINT64_MAX
  }

  predicate Encodable(fields: seq<Field>) {
    forall i | 0 <= i < |fields| :: FieldEncodable(fields[i])
  }

  // Sizes

  function ItemsSize(items: seq<Item>, k: nat): nat
    requires k <= |items|
    decreases |items| - k
  {
    if k == |items| then 0 else 8 + |items[k]| + ItemsSize(items, k + 1)
  }

  function FieldSize(f: Field): nat {
    4 + 1 + |f.name| + 4 + ItemsSize(f.items, 0)
  }

  function FieldsSize(fields: seq<Field>, k: nat): nat
    requires k <= |fields|
    decreases |fields| - k
  {
    if k == |fields| then 4 else FieldSize(fields[k]) + FieldsSize(fields, k + 1)
  }

  /** The sum that `FlattenedSize` computes. */
  function MessageSize(fields: seq<Field>): nat {
    4 + FieldsSize(fields, 0)
  }

  lemma {:induction false} ItemBytesLength(item: Item)
    ensures |ItemBytes(item)| == 8 + |item|
  {
  }

  lemma {:induction false} ItemsBytesLength(items: seq<Item>, k: nat)
    requires k <= |items|
    ensures |ItemsBytes(items, k)| == ItemsSize(items, k)
    decreases |items| - k
  {
    if k < |items| {
      ItemsBytesLength(items, k + 1);
    }
  }

  lemma {:induction false} FieldsBytesLength(fields: seq<Field>, k: nat)
    requires k <= |fields|
    ensures |FieldsBytes(fields, k)| == FieldsSize(fields, k)
    decreases |fields| - k
  {
    if k < |fields| {
      ItemsBytesLength(fields[k].items, 0);
      FieldsBytesLength(fields, k + 1);
    }
  }

  /** The size is exact. */
  lemma {:induction false} SizeIsLength(what: UInt32, fields: seq<Field>)
    ensures |MessageBytes(what, fields)| == MessageSize(fields)
  {
    FieldsBytesLength(fields, 0);
  }

  // Reading

  /** What `Unflatten` leaves in the store and returns, or that it read past the bytes it was given. */
  datatype Reading = Read(fields: seq<Field>, status: Status) | Overrun

  /** Where the items of one field end: the store and the cursor then, or a failure. */
  datatype ItemsReading = ItemsRead(fields: seq<Field>, end: nat) | ItemsFailed(reading: Reading)

  /** The inner loop of `Unflatten`: `count` items of one field from `pos` on. */
  function ReadItems(buf: seq<Byte>, pos: nat, count: nat, name: CString, kind: UInt32, fields: seq<Field>)
      : (r: ItemsReading)
    requires pos <= |buf|
    ensures r.ItemsRead? ==> pos <= r.end <= |buf|
    decreases count
  {
    if count == 0 then ItemsRead(fields, pos)
    else if pos + 8 > |buf| then ItemsFailed(Overrun)
    else
      var end := pos + 8 + Load(buf, pos, 8);
      if end > |buf| then ItemsFailed(Overrun)
      else
        var status, after := PushStatus(fields, name, kind), Push(fields, name, kind, buf[pos + 8..end]);
        if status != Ok then ItemsFailed(Read(after, status))
        else ReadItems(buf, end, count - 1, name, kind, after)
  }

  /** One turn of that loop, if it ends within the bytes. */
  lemma {:induction false} ReadItemsStep(buf: seq<Byte>, pos: nat, count: nat, name: CString, kind: UInt32,
                                        fields: seq<Field>, r: ItemsReading)
    requires pos <= |buf| && count > 0
    requires ReadItems(buf, pos, count, name, kind, fields) == r != ItemsFailed(Overrun)
    ensures pos + 8 <= |buf|
    ensures
      var end := pos + 8 + Load(buf, pos, 8);
      && end <= |buf|
      && var status, after := PushStatus(fields, name, kind), Push(fields, name, kind, buf[pos + 8..end]);
      if status == Ok then ReadItems(buf, end, count - 1, name, kind, after) == r
      else r == ItemsFailed(Read(after, status))
  {
    hide Push, PushStatus, Load;
  }

  /** The outer loop of `Unflatten`: fields from `pos` on until a zero type code. */
  function ReadFields(buf: seq<Byte>, pos: nat, fields: seq<Field>): Reading
    requires pos <= |buf|
    decreases |buf| - pos
  {
    if pos + 4 > |buf| then Overrun
    else
      var kind := Load32(buf, pos);
      if kind == 0 then Read(fields, Ok)
      else if pos + 5 > |buf| then Overrun
      else
        var nameEnd := pos + 5 + buf[pos + 4] as int;
        if nameEnd + 4 > |buf| then Overrun
        else
          var items := ReadItems(buf, nameEnd + 4, Load32(buf, nameEnd),
                                 CStringOf(buf[pos + 5..nameEnd]), kind, fields);
          match items
          case ItemsFailed(reading) => reading
          case ItemsRead(after, end) => ReadFields(buf, end, after)
  }

  /** What `Unflatten` makes of the bytes after the first four, which it loads into `what`. */
  function ReadMessage(buf: seq<Byte>): Reading {
    if 4 > |buf| then Overrun else ReadFields(buf, 4, [])
  }

  // Round trip

  /** Reading one item adds it to the store. */
  lemma {:induction false} ReadOneItem(buf: seq<Byte>, pos: nat, item: Item, count: nat,
                                      name: CString, kind: UInt32, fields: seq<Field>, r: ItemsReading)
    requires |item| <= UINT64_MAX && HasAt(buf, pos, ItemBytes(item)) && count > 0
    requires PushStatus(fields, name, kind) == Ok
    requires ReadItems(buf, pos + 8 + |item|, count - 1, name, kind, Push(fields, name, kind, item)) == r
    ensures ReadItems(buf, pos, count, name, kind, fields) == r
  {
    hide Push, PushStatus;
    HasBoth(buf, pos, Store(|item|, 8), item);
    LoadStored64(buf, pos, |item|);
  }

  /** The store after the items from the `k`-th on are added to the field of that name. */
  function PushAll(fields: seq<Field>, name: CString, kind: UInt32, items: seq<Item>, k: nat): seq<Field>
    requires k <= |items|
    decreases |items| - k
  {
    if k == |items| then fields else PushAll(Push(fields, name, kind, items[k]), name, kind, items, k + 1)
  }

  /** Reading the last `left` items of a field adds them to the store. */
  lemma {:induction false} ReadAllItems(buf: seq<Byte>, pos: nat, items: seq<Item>, k: nat, left: nat,
                                       name: CString, kind: UInt32, fields: seq<Field>, r: ItemsReading)
    requires ItemsEncodable(items) && k + left == |items| && PushStatus(fields, name, kind) == Ok
    requires HasAt(buf, pos, ItemsBytes(items, k))
    requires r == ItemsRead(PushAll(fields, name, kind, items, k), pos + |ItemsBytes(items, k)|)
    ensures ReadItems(buf, pos, left, name, kind, fields) == r
    decreases left
  {
    hide Push, PushStatus, Store, Load;
    if left > 0 {
      hide ReadItems;
      HasBoth(buf, pos, ItemBytes(items[k]), ItemsBytes(items, k + 1));
      PushKeepsStatus(fields, name, kind, items[k]);
      ReadAllItems(buf, pos + 8 + |items[k]|, items, k + 1, left - 1, name, kind,
                   Push(fields, name, kind, items[k]), r);
      ReadOneItem(buf, pos, items[k], left, name, kind, fields, r);
    } else {
      assert k == |items|;
    }
  }

  /** The store when the fields in front of the `i`-th are complete and the `i`-th has its first `k` items. */
  function Partly(fields: seq<Field>, i: nat, k: nat): seq<Field>
    requires i < |fields| && k <= |fields[i].items|
  {
    if k == 0 then fields[..i] else fields[..i] + [fields[i].(items := fields[i].items[..k])]
  }

  lemma {:induction false} LocateInPartly(fields: seq<Field>, i: nat, k: nat)
    requires Valid(fields) && i < |fields| && k <= |fields[i].items|
    ensures Locate(Partly(fields, i, k), fields[i].name) == i
  {
    var part := Partly(fields, i, k);
    assert forall j | 0 <= j < |part| :: part[j].name == fields[j].name;
    assert forall j | 0 <= j < |part| :: FieldValid(fields[j]);
    assert FieldValid(fields[i]);
    LocateByName(part, fields[i].name);
  }

  /** Adding the next item to a partly read store. */
  lemma {:induction false} PushToPartly(fields: seq<Field>, i: nat, k: nat)
    requires Valid(fields) && i < |fields| && k < |fields[i].items|
    ensures
      var f, part := fields[i], Partly(fields, i, k);
      && PushStatus(part, f.name, f.kind) == Ok
      && Push(part, f.name, f.kind, f.items[k]) == Partly(fields, i, k + 1)
  {
    var f := fields[i];
    LocateInPartly(fields, i, k);
    assert FieldValid(f);
    if k == 0 {
      assert f.items[..1] == [f.items[0]];
    } else {
      assert f.items[..k] + [f.items[k]] == f.items[..k + 1];
    }
  }

  lemma {:induction false} PushAllCompletes(fields: seq<Field>, i: nat, k: nat)
    requires Valid(fields) && i < |fields| && k <= |fields[i].items|
    ensures PushAll(Partly(fields, i, k), fields[i].name, fields[i].kind, fields[i].items, k)
         == Partly(fields, i, |fields[i].items|)
    decreases |fields[i].items| - k
  {
    if k < |fields[i].items| {
      PushToPartly(fields, i, k);
      PushAllCompletes(fields, i, k + 1);
    }
  }

  lemma {:induction false} PartlyIsPrefix(fields: seq<Field>, i: nat)
    requires Valid(fields) && i < |fields|
    ensures Partly(fields, i, |fields[i].items|) == fields[..i + 1]
  {
    assert FieldValid(fields[i]);
    assert fields[i].items[..|fields[i].items|] == fields[i].items;
  }

  /** The head of a field is read back. */
  lemma {:induction false} ReadFieldHead(buf: seq<Byte>, pos: nat, f: Field)
    requires FieldEncodable(f) && IsCString(f.name) && HasAt(buf, pos, FieldHead(f))
    ensures
      var nameEnd := pos + 5 + |f.name|;
      && nameEnd + 4 <= |buf|
      && Load32(buf, pos) == f.kind
      && buf[pos + 4] == |f.name|
      && CStringOf(buf[pos + 5..nameEnd]) == f.name
      && Load32(buf, nameEnd) == |f.items|
  {
    var kind, length, count := Store(f.kind, 4), Store(|f.name|, 1), Store(|f.items|, 4);
    HasBoth(buf, pos, kind + length + f.name, count);
    HasBoth(buf, pos, kind + length, f.name);
    HasBoth(buf, pos, kind, length);
    LoadStored32(buf, pos, f.kind);
    LoadStored32(buf, pos + 5 + |f.name|, |f.items|);
    CStringOfIff(f.name);
    assert buf[pos + 4] == buf[pos + 4..pos + 5][0];
  }

  /** Reading the items of field `i` completes it. */
  lemma {:induction false} ReadItemsOf(buf: seq<Byte>, pos: nat, fields: seq<Field>, i: nat)
    requires Valid(fields) && i < |fields| && FieldEncodable(fields[i])
    requires HasAt(buf, pos, ItemsBytes(fields[i].items, 0))
    ensures
      var f := fields[i];
      ReadItems(buf, pos, |f.items|, f.name, f.kind, fields[..i])
      == ItemsRead(fields[..i + 1], pos + |ItemsBytes(f.items, 0)|)
  {
    hide ReadItems, Push, PushStatus, PushAll, Store, Load;
    var f := fields[i];
    assert FieldValid(f);
    PushToPartly(fields, i, 0);
    PushAllCompletes(fields, i, 0);
    PartlyIsPrefix(fields, i);
    ReadAllItems(buf, pos, f.items, 0, |f.items|, f.name, f.kind, fields[..i],
                 ItemsRead(fields[..i + 1], pos + |ItemsBytes(f.items, 0)|));
  }

  /** Reading the head of a field and then its items. */
  lemma {:induction false} ReadHeadAndItems(buf: seq<Byte>, pos: nat, f: Field, before: seq<Field>, after: seq<Field>,
                                           end: nat, r: Reading)
    requires FieldEncodable(f) && IsCString(f.name) && f.kind != 0 && HasAt(buf, pos, FieldHead(f))
    requires ReadItems(buf, pos + |FieldHead(f)|, |f.items|, f.name, f.kind, before) == ItemsRead(after, end)
    requires end <= |buf| && ReadFields(buf, end, after) == r
    ensures ReadFields(buf, pos, before) == r
  {
    hide Store, Load, ReadItems, ZeroFrom, Push, PushStatus;
    ReadFieldHead(buf, pos, f);
  }

  lemma {:induction false} ReadOneField(buf: seq<Byte>, pos: nat, fields: seq<Field>, i: nat, r: Reading)
    requires Valid(fields) && i < |fields| && FieldEncodable(fields[i]) && fields[i].kind != 0
    requires HasAt(buf, pos, FieldBytes(fields[i]))
    requires ReadFields(buf, pos + |FieldBytes(fields[i])|, fields[..i + 1]) == r
    ensures ReadFields(buf, pos, fields[..i]) == r
  {
    hide ReadItems, ReadFields, Store, Load, Push, PushStatus;
    var f := fields[i];
    assert FieldValid(f);
    HasBoth(buf, pos, FieldHead(f), ItemsBytes(f.items, 0));
    var from := pos + |FieldHead(f)|;
    ReadItemsOf(buf, from, fields, i);
    ReadHeadAndItems(buf, pos, f, fields[..i], fields[..i + 1], from + |ItemsBytes(f.items, 0)|, r);
  }

  lemma {:induction false} ReadZeroKind(buf: seq<Byte>, pos: nat, done: seq<Field>)
    requires HasAt(buf, pos, Store(0, 4))
    ensures ReadFields(buf, pos, done) == Read(done, Ok)
  {
    LoadStored32(buf, pos, 0);
  }

  /** The first field at or after the `k`-th whose type code is zero, or the number of fields. */
  function ZeroKind(fields: seq<Field>, k: nat): (z: nat)
    requires k <= |fields|
    ensures k <= z <= |fields|
    ensures z == |fields| <==> forall i | k <= i < |fields| :: fields[i].kind != 0
    decreases |fields| - k
  {
    if k == |fields| || fields[k].kind == 0 then k else ZeroKind(fields, k + 1)
  }

  lemma {:induction false} TerminatorIsZero()
    ensures TERMINATOR == Store(0, 4)
  {
    assert Store(0, 1) == [0] && Store(0, 2) == [0, 0] && Store(0, 3) == [0, 0, 0];
  }

  /** A field begins with its type code. */
  lemma {:induction false} KindIsFirst(buf: seq<Byte>, pos: nat, f: Field)
    requires HasAt(buf, pos, FieldBytes(f))
    ensures HasAt(buf, pos, Store(f.kind, 4))
  {
    hide Store;
    var kind, length, count := Store(f.kind, 4), Store(|f.name|, 1), Store(|f.items|, 4);
    HasBoth(buf, pos, FieldHead(f), ItemsBytes(f.items, 0));
    HasBoth(buf, pos, kind + length + f.name, count);
    HasBoth(buf, pos, kind + length, f.name);
    HasBoth(buf, pos, kind, length);
  }

  lemma {:induction false} ReadEnd(buf: seq<Byte>, pos: nat, fields: seq<Field>, k: nat, done: seq<Field>)
    requires k <= |fields| && (k == |fields| || fields[k].kind == 0) && HasAt(buf, pos, FieldsBytes(fields, k))
    ensures ReadFields(buf, pos, done) == Read(done, Ok)
  {
    hide Store, ReadFields;
    if k == |fields| {
      TerminatorIsZero();
    } else {
      HasBoth(buf, pos, FieldBytes(fields[k]), FieldsBytes(fields, k + 1));
      KindIsFirst(buf, pos, fields[k]);
    }
    ReadZeroKind(buf, pos, done);
  }

  lemma {:induction false} ReadFieldsBack(buf: seq<Byte>, pos: nat, fields: seq<Field>, k: nat, r: Reading)
    requires Valid(fields) && Encodable(fields) && k <= |fields| && HasAt(buf, pos, FieldsBytes(fields, k))
    requires r == Read(fields[..ZeroKind(fields, k)], Ok)
    ensures ReadFields(buf, pos, fields[..k]) == r
    decreases |fields| - k
  {
    hide ReadItems, ReadFields, Store, Load, Push, PushStatus;
    if k == |fields| || fields[k].kind == 0 {
      ReadEnd(buf, pos, fields, k, fields[..k]);
    } else {
      HasBoth(buf, pos, FieldBytes(fields[k]), FieldsBytes(fields, k + 1));
      ReadFieldsBack(buf, pos + |FieldBytes(fields[k])|, fields, k + 1, r);
      ReadOneField(buf, pos, fields, k, r);
    }
  }

  predicate NoZeroKind(fields: seq<Field>) {
    forall i | 0 <= i < |fields| :: fields[i].kind != 0
  }

  /** The round trip: if a buffer begins with a flattened message, whatever follows, then reading it gives the same
      `what`, no error, and the same fields and items in the same order, if and only if no type code is zero; in
      general it gives the fields in front of the first zero type code. */
  lemma {:induction false} RoundTrip(what: UInt32, fields: seq<Field>, rest: seq<Byte>)
    requires Valid(fields) && Encodable(fields)
    ensures Load32(MessageBytes(what, fields) + rest, 0) == what
    ensures ReadMessage(MessageBytes(what, fields) + rest) == Read(fields[..ZeroKind(fields, 0)], Ok)
    ensures ReadMessage(MessageBytes(what, fields) + rest) == Read(fields, Ok) <==> NoZeroKind(fields)
  {
    var buf := MessageBytes(what, fields) + rest;
    assert HasAt(buf, 0, MessageBytes(what, fields));
    HasBoth(buf, 0, Store(what, 4), FieldsBytes(fields, 0));
    LoadStored32(buf, 0, what);
    ReadFieldsBack(buf, 4, fields, 0, Read(fields[..ZeroKind(fields, 0)], Ok));
    assert fields[..|fields|] == fields && fields[..0] == [];
  }

  /** Hence two different messages never have the same bytes, nor is one a prefix of the other's. */
  lemma {:induction false} FormatIsUnambiguous(what: UInt32, fields: seq<Field>, rest: seq<Byte>,
                                               what': UInt32, fields': seq<Field>, rest': seq<Byte>)
    requires Valid(fields) && Encodable(fields) && NoZeroKind(fields)
    requires Valid(fields') && Encodable(fields') && NoZeroKind(fields')
    requires MessageBytes(what, fields) + rest == MessageBytes(what', fields') + rest'
    ensures what == what' && fields == fields' && rest == rest'
  {
    RoundTrip(what, fields, rest);
    RoundTrip(what', fields', rest');
    var size := |MessageBytes(what, fields)|;
    assert rest == (MessageBytes(what, fields) + rest)[size..] == rest';
  }

  // Copying

  /** The store after the fields of another one, from the `i`-th on, are added item by item. */
  function PushFields(fields: seq<Field>, other: seq<Field>, i: nat): seq<Field>
    requires i <= |other|
    decreases |other| - i
  {
    if i == |other| then fields
    else PushFields(PushAll(fields, other[i].name, other[i].kind, other[i].items, 0), other, i + 1)
  }

  lemma {:induction false} PushFieldsCompletes(other: seq<Field>, i: nat, all: seq<Field>)
    requires Valid(other) && i <= |other| && all == other
    ensures PushFields(other[..i], other, i) == all
    decreases |other| - i
  {
    if i < |other| {
      PushAllCompletes(other, i, 0);
      PartlyIsPrefix(other, i);
      PushFieldsCompletes(other, i + 1, all);
    } else {
      assert other[..i] == other;
    }
  }

  /** Copying a valid store item by item reproduces it. */
  lemma {:induction false} CopyIsExact(other: seq<Field>)
    requires Valid(other)
    ensures PushFields([], other, 0) == other
  {
    assert other[..0] == [];
    PushFieldsCompletes(other, 0, other);
  }
}
