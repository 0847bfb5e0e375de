/** The field store of a BMessage, kits/app/Message.cpp: an ordered list of fields with distinct names, each with
    a type and a list of items.  This module says what the operations on it mean; class BMessage does them. */
module MessageStore {
  import opened Bytes
  import opened Options

  const B_FIELD_NAME_LENGTH := 255
  const B_ANY_TYPE: UInt32 := 0x414e_5954
  const B_MESSAGE_TYPE: UInt32 := 0x4d53_4747

  type Item = seq<Byte>

  /** The largest `ssize_t`, which bounds the size of an item. */
  const SSIZE_MAX := 0x7fff_ffff_ffff_ffff

  datatype Field = Field(name: CString, kind: UInt32, items: seq<Item>)

  /** `Undefined` is for calls that go on with memory that is not theirs. */
  datatype Status = Ok | BadValue | BadType | BadIndex | NameNotFound | NoMemory | Undefined

  /** The outcome of a lookup.  `PastEnd` is a reference to the item after the last one, which the code lets
      through. */
  datatype Lookup = Found(item: Item) | Missing(status: Status) | PastEnd

  predicate Matches(f: Field, name: CString) {
    SameName(f.name, name, B_FIELD_NAME_LENGTH)
  }

  function LocateFrom(fields: seq<Field>, name: CString, k: nat): (i: nat)
    requires k <= |fields|
    ensures k <= i <= |fields|
    decreases |fields| - k
  {
    if k == |fields| || Matches(fields[k], name) then k else LocateFrom(fields, name, k + 1)
  }

  /** The first field whose name matches, or the number of fields. */
  function Locate(fields: seq<Field>, name: CString): (i: nat)
    ensures i <= |fields|
  {
    LocateFrom(fields, name, 0)
  }

  lemma {:induction false} LocateFromIsFirst(fields: seq<Field>, name: CString, k: nat)
    requires k <= |fields|
    ensures forall j | k <= j < LocateFrom(fields, name, k) :: !Matches(fields[j], name)
    ensures
      var i := LocateFrom(fields, name, k);
      i < |fields| ==> Matches(fields[i], name)
    decreases |fields| - k
  {
    if k < |fields| && !Matches(fields[k], name) {
      LocateFromIsFirst(fields, name, k + 1);
    }
  }

  lemma {:induction false} LocateIsFirst(fields: seq<Field>, name: CString)
    ensures forall k | 0 <= k < Locate(fields, name) :: !Matches(fields[k], name)
    ensures
      var i := Locate(fields, name);
      i < |fields| ==> Matches(fields[i], name)
  {
    LocateFromIsFirst(fields, name, 0);
  }

  /** The store after an item is added: to the field of that name, or to a new one at the end. */
  function Push(fields: seq<Field>, name: CString, kind: UInt32, item: Item): seq<Field> {
    var i := Locate(fields, name);
    if i == |fields| then fields + [Field(Clip(name, B_FIELD_NAME_LENGTH), kind, [item])]
    else if fields[i].kind != kind then fields
    else fields[i := fields[i].(items := fields[i].items + [item])]
  }

  function PushStatus(fields: seq<Field>, name: CString, kind: UInt32): Status {
    var i := Locate(fields, name);
    if i < |fields| && fields[i].kind != kind then BadType else Ok
  }

  /** Item `index` of the field of that name, if it has the type asked for. */
  function Find(fields: seq<Field>, name: CString, kind: UInt32, index: int): Lookup {
    var i := Locate(fields, name);
    if i == |fields| then Missing(NameNotFound)
    else if kind != B_ANY_TYPE && fields[i].kind != kind then Missing(BadType)
    else if index < 0 || index > |fields[i].items| then Missing(BadIndex)
    else if index == |fields[i].items| then PastEnd
    else Found(fields[i].items[index])
  }

  /** The store after a found item is replaced. */
  function Replace(fields: seq<Field>, name: CString, kind: UInt32, index: nat, item: Item): seq<Field>
    requires Find(fields, name, kind, index).Found?
  {
    var i := Locate(fields, name);
    fields[i := fields[i].(items := fields[i].items[index := item])]
  }

  // The store's invariant

  predicate FieldValid(f: Field) {
    && |f.name| <= B_FIELD_NAME_LENGTH && IsCString(f.name)
    && f.items != [] && forall i | 0 <= i < |f.items| :: |f.items[i]| <= SSIZE_MAX
  }

  ghost predicate DistinctNames(fields: seq<Field>) {
    forall i, j | 0 <= i < j < |fields| :: fields[i].name != fields[j].name
  }

  /** Names are distinct and at most 255 bytes long, and no field is without items. */
  ghost predicate Valid(fields: seq<Field>) {
    (forall i | 0 <= i < |fields| :: FieldValid(fields[i])) && DistinctNames(fields)
  }

  /** In a valid store a name matches exactly the field whose name is its first 255 bytes. */
  lemma {:induction false} LocateByName(fields: seq<Field>, name: CString)
    requires forall i | 0 <= i < |fields| :: |fields[i].name| <= B_FIELD_NAME_LENGTH
    ensures forall k | 0 <= k < |fields| ::
              Matches(fields[k], name) <==> fields[k].name == Clip(name, B_FIELD_NAME_LENGTH)
    ensures
      var i := Locate(fields, name);
      && (forall k | 0 <= k < i :: fields[k].name != Clip(name, B_FIELD_NAME_LENGTH))
      && (i < |fields| ==> fields[i].name == Clip(name, B_FIELD_NAME_LENGTH))
  {
    LocateIsFirst(fields, name);
  }

  /** Adding data keeps the invariant. */
  lemma {:induction false} PushKeepsValid(fields: seq<Field>, name: CString, kind: UInt32, item: Item)
    requires Valid(fields) && |item| <= SSIZE_MAX && IsCString(name)
    ensures Valid(Push(fields, name, kind, item))
  {
    LocateByName(fields, name);
  }

  lemma {:induction false} ReplaceKeepsValid(fields: seq<Field>, name: CString, kind: UInt32, index: nat, item: Item)
    requires Valid(fields) && |item| <= SSIZE_MAX && Find(fields, name, kind, index).Found?
    ensures Valid(Replace(fields, name, kind, index, item))
  {
    assert FieldValid(fields[Locate(fields, name)]);
  }

  /** One call of AddData. */
  datatype Addition = Addition(name: CString, kind: UInt32, item: Item)

  /** The store after a sequence of AddData calls on an empty message, whether or not each succeeded. */
  function Build(additions: seq<Addition>): seq<Field> {
    if additions == [] then []
    else
      var last := additions[|additions| - 1];
      Push(Build(additions[..|additions| - 1]), last.name, last.kind, last.item)
  }

  /** Every store that AddData can build is valid, and all its type codes were passed to AddData. */
  lemma {:induction false} BuildIsValid(additions: seq<Addition>)
    requires forall a <- additions :: |a.item| <= SSIZE_MAX && IsCString(a.name)
    ensures Valid(Build(additions))
    ensures forall f <- Build(additions) :: exists a <- additions :: a.kind == f.kind
  {
    if additions != [] {
      var rest, last := additions[..|additions| - 1], additions[|additions| - 1];
      assert last in additions;
      BuildIsValid(rest);
      PushKeepsValid(Build(rest), last.name, last.kind, last.item);
      forall f <- Build(additions) ensures exists a <- additions :: a.kind == f.kind {
        if f !in Build(rest) {
          assert last.kind == f.kind;
        }
      }
    }
  }

  // Adding, finding and replacing

  /** Two stores that agree on names up to the length of the first, and where nothing behind it matches. */
  lemma {:induction false} LocateSame(fields: seq<Field>, after: seq<Field>, name: CString)
    requires |fields| <= |after|
    requires forall k | 0 <= k < |fields| :: after[k].name == fields[k].name
    requires forall k | |fields| <= k < |after| :: !Matches(after[k], name)
    ensures
      var i := Locate(fields, name);
      Locate(after, name) == if i == |fields| then |after| else i
  {
    LocateIsFirst(fields, name);
    LocateIsFirst(after, name);
    var i, j := Locate(fields, name), Locate(after, name);
    if j < |after| {
      assert Matches(after[j], name);
    }
  }

  lemma {:induction false} PushLocates(fields: seq<Field>, name: CString, kind: UInt32, item: Item)
    requires Valid(fields) && PushStatus(fields, name, kind) == Ok
    ensures Locate(Push(fields, name, kind, item), name) == Locate(fields, name)
  {
    var i, after := Locate(fields, name), Push(fields, name, kind, item);
    assert forall k | 0 <= k < |fields| :: after[k].name == fields[k].name;
    LocateIsFirst(fields, name);
    LocateIsFirst(after, name);
    assert Matches(after[i], name);
  }

  /** Where one item could be added, another of the same name and type can. */
  lemma {:induction false} PushKeepsStatus(fields: seq<Field>, name: CString, kind: UInt32, item: Item)
    requires PushStatus(fields, name, kind) == Ok
    ensures PushStatus(Push(fields, name, kind, item), name, kind) == Ok
  {
    var i, after := Locate(fields, name), Push(fields, name, kind, item);
    LocateIsFirst(fields, name);
    LocateIsFirst(after, name);
    assert Matches(after[i], name);
    assert forall k | 0 <= k < i :: after[k] == fields[k];
  }

  /** An added item is found behind the items that were there, which stay found where they were. */
  lemma {:induction false} FindAdded(fields: seq<Field>, name: CString, kind: UInt32, item: Item)
    requires Valid(fields) && PushStatus(fields, name, kind) == Ok
    ensures
      var i, after := Locate(fields, name), Push(fields, name, kind, item);
      var before := if i < |fields| then |fields[i].items| else 0;
      && Find(after, name, kind, before) == Found(item)
      && forall k | 0 <= k < before :: Find(after, name, kind, k) == Find(fields, name, kind, k)
  {
    PushLocates(fields, name, kind, item);
  }

  /** Adding to one field leaves every other field as it was ... */
  lemma {:induction false} PushKeepsOthers(fields: seq<Field>, name: CString, kind: UInt32, item: Item,
                                           other: CString, k: UInt32, index: int)
    requires Valid(fields) && !SameName(Clip(name, B_FIELD_NAME_LENGTH), other, B_FIELD_NAME_LENGTH)
    ensures Find(Push(fields, name, kind, item), other, k, index) == Find(fields, other, k, index)
  {
    var i, j, after := Locate(fields, name), Locate(fields, other), Push(fields, name, kind, item);
    LocateSame(fields, after, other);
    LocateByName(fields, name);
    LocateIsFirst(fields, other);
    assert i < |fields| ==> j != i;
  }

  /** ... and so does replacing. */
  lemma {:induction false} ReplaceKeepsOthers(fields: seq<Field>, name: CString, kind: UInt32, n: nat, item: Item,
                                              other: CString, k: UInt32, index: int)
    requires Valid(fields) && !SameName(Clip(name, B_FIELD_NAME_LENGTH), other, B_FIELD_NAME_LENGTH)
    requires Find(fields, name, kind, n).Found?
    ensures Find(Replace(fields, name, kind, n, item), other, k, index) == Find(fields, other, k, index)
  {
    var i, j, after := Locate(fields, name), Locate(fields, other), Replace(fields, name, kind, n, item);
    LocateSame(fields, after, other);
    LocateByName(fields, name);
    LocateIsFirst(fields, other);
    assert j != i;
  }

  /** A replaced item is found in place of the old one, and the other items of the field stay. */
  lemma {:induction false} FindReplaced(fields: seq<Field>, name: CString, kind: UInt32, index: nat, item: Item, k: int)
    requires Find(fields, name, kind, index).Found?
    ensures Find(Replace(fields, name, kind, index, item), name, kind, k)
         == if k == index then Found(item) else Find(fields, name, kind, k)
  {
    LocateSame(fields, Replace(fields, name, kind, index, item), name);
  }

  lemma {:induction false} PushKeepsNames(fields: seq<Field>, name: CString, kind: UInt32, item: Item)
    requires Valid(fields)
    ensures forall i | 0 <= i < |Push(fields, name, kind, item)| ::
              |Push(fields, name, kind, item)[i].name| <= B_FIELD_NAME_LENGTH
  {
    hide Locate;
  }

  /** Names that agree in their first 255 bytes locate the same field. */
  lemma {:induction false} SameLocate(fields: seq<Field>, name: CString, other: CString)
    requires forall i | 0 <= i < |fields| :: |fields[i].name| <= B_FIELD_NAME_LENGTH
    requires Clip(name, B_FIELD_NAME_LENGTH) == Clip(other, B_FIELD_NAME_LENGTH)
    ensures Locate(fields, name) == Locate(fields, other)
  {
    LocateByName(fields, name);
    LocateByName(fields, other);
    hide Locate;
  }

  // Lookups and the history of a message

  /** The type of the field of that name: that of the first addition under it. */
  function KindAdded(additions: seq<Addition>, name: CString): Option<UInt32> {
    if additions == [] then None
    else
      var last, before := additions[|additions| - 1], KindAdded(additions[..|additions| - 1], name);
      if before == None && SameName(last.name, name, B_FIELD_NAME_LENGTH) then Some(last.kind) else before
  }

  /** What was added under that name and was of that type, in order. */
  function ItemsAdded(additions: seq<Addition>, name: CString): seq<Item> {
    if additions == [] then []
    else
      var last, before := additions[|additions| - 1], ItemsAdded(additions[..|additions| - 1], name);
      if SameName(last.name, name, B_FIELD_NAME_LENGTH) && KindAdded(additions, name) == Some(last.kind)
      then before + [last.item] else before
  }

  /** The field that a name locates is of the type and has the items that were added under it. */
  ghost predicate Reflects(fields: seq<Field>, name: CString, kind: Option<UInt32>, items: seq<Item>) {
    var i := Locate(fields, name);
    if i == |fields| then kind == None && items == [] else kind == Some(fields[i].kind) && items == fields[i].items
  }

  lemma {:induction false} PushReflects(fields: seq<Field>, added: Addition, name: CString, kind: Option<UInt32>,
                                       items: seq<Item>)
    requires Valid(fields) && Reflects(fields, name, kind, items)
    ensures
      var after := Push(fields, added.name, added.kind, added.item);
      if !SameName(added.name, name, B_FIELD_NAME_LENGTH) then Reflects(after, name, kind, items)
      else if kind == None then Reflects(after, name, Some(added.kind), [added.item])
      else if kind == Some(added.kind) then Reflects(after, name, kind, items + [added.item])
      else Reflects(after, name, kind, items)
  {
    var after := Push(fields, added.name, added.kind, added.item);
    if SameName(added.name, name, B_FIELD_NAME_LENGTH) {
      SameLocate(fields, added.name, name);
      if PushStatus(fields, added.name, added.kind) == Ok {
        PushLocates(fields, added.name, added.kind, added.item);
        PushKeepsNames(fields, added.name, added.kind, added.item);
        SameLocate(after, added.name, name);
      }
    } else {
      var i, j := Locate(fields, added.name), Locate(fields, name);
      LocateSame(fields, after, name);
      LocateByName(fields, added.name);
      LocateIsFirst(fields, name);
      assert i < |fields| ==> j != i;
    }
  }

  lemma {:induction false} BuildReflects(additions: seq<Addition>, name: CString)
    requires forall a <- additions :: |a.item| <= SSIZE_MAX && IsCString(a.name)
    ensures Reflects(Build(additions), name, KindAdded(additions, name), ItemsAdded(additions, name))
  {
    if additions != [] {
      var rest, last := additions[..|additions| - 1], additions[|additions| - 1];
      BuildReflects(rest, name);
      BuildIsValid(rest);
      NoneAdded(rest, name);
      hide Push, Locate, Build, Valid;
      assert Build(additions) == Push(Build(rest), last.name, last.kind, last.item) by {
        BuildStep(additions);
      }
      PushReflects(Build(rest), last, name, KindAdded(rest, name), ItemsAdded(rest, name));
    }
  }

  lemma {:induction false} BuildStep(additions: seq<Addition>)
    requires additions != []
    ensures
      var rest, last := additions[..|additions| - 1], additions[|additions| - 1];
      Build(additions) == Push(Build(rest), last.name, last.kind, last.item)
  {
  }

  lemma {:induction false} NoneAdded(additions: seq<Addition>, name: CString)
    ensures KindAdded(additions, name) == None ==> ItemsAdded(additions, name) == []
  {
    if additions != [] {
      NoneAdded(additions[..|additions| - 1], name);
    }
  }

  /** What every lookup gives, for a message built by any calls of AddData: the items added under the name with the type
      of the first of them, by their place in that order, and nothing else.  The index one past the last of them is let
      through. */
  lemma {:induction false} FindIsAdded(additions: seq<Addition>, name: CString, kind: UInt32, index: int)
    requires forall a <- additions :: |a.item| <= SSIZE_MAX && IsCString(a.name)
    ensures
      var found, items := Find(Build(additions), name, kind, index), ItemsAdded(additions, name);
      match KindAdded(additions, name)
      case None => found == Missing(NameNotFound)
      case Some(k) =>
        if kind != B_ANY_TYPE && kind != k then found == Missing(BadType)
        else if 0 <= index < |items| then found == Found(items[index])
        else found == if index == |items| then PastEnd else Missing(BadIndex)
  {
    BuildReflects(additions, name);
  }
}
