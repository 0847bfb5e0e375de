/** BMallocIO and the positioned calls of BPositionIO, kits/support/DataIO.cpp: a byte stream in a buffer that grows in
    blocks.  Offsets are not negative; `canAlloc` says whether `realloc` finds memory. */
module MallocIO {
  import opened Bytes

  datatype Result = Size(bytes: nat) | BadValue | NoMemory

  datatype SeekMode = FromStart | FromEnd | FromHere | Unknown

  // The stream as a sequence of bytes

  /** `contents` with `bytes` at `pos`, and zeros between its end and `pos`. */
  function Written(contents: seq<Byte>, pos: nat, bytes: seq<Byte>): (r: seq<Byte>)
    ensures |r| == if pos + |bytes| > |contents| then pos + |bytes| else |contents|
  {
    var size := if pos + |bytes| > |contents| then pos + |bytes| else |contents|;
    seq(size, k requires 0 <= k < size =>
      if pos <= k < pos + |bytes| then bytes[k - pos] else if k < |contents| then contents[k] else 0)
  }

  /** The first `size` bytes, with zeros behind the end. */
  function Resized(contents: seq<Byte>, size: nat): (r: seq<Byte>)
    ensures |r| == size
  {
    seq(size, k requires 0 <= k < size => if k < |contents| then contents[k] else 0)
  }

  lemma {:induction false} WrittenAt(contents: seq<Byte>, pos: nat, bytes: seq<Byte>, k: nat)
    ensures k < |Written(contents, pos, bytes)| ==>
              Written(contents, pos, bytes)[k]
              == if pos <= k < pos + |bytes| then bytes[k - pos] else if k < |contents| then contents[k] else 0
  {
  }

  lemma {:induction false} ResizedAt(contents: seq<Byte>, size: nat, k: nat)
    ensures k < size ==> Resized(contents, size)[k] == if k < |contents| then contents[k] else 0
  {
  }

  function RoundUp(size: nat, block: nat): (r: nat)
    requires block > 0
  {
    (size + block - 1) / block * block
  }

  /** The next multiple of the block size. */
  lemma {:induction false} RoundUpIsNext(size: nat, block: nat)
    requires block > 0
    ensures size <= RoundUp(size, block) < size + block
    ensures RoundUp(size, block) % block == 0
  {
    var q := (size + block - 1) / block;
    assert q * block + (size + block - 1) % block == size + block - 1;
    MultipleHasNoRest(q, block);
  }

  lemma {:induction false} MultipleHasNoRest(q: nat, block: nat)
    requires block > 0
    ensures q * block % block == 0
  {
    var n := q * block;
    var laps, rest := n / block, n % block;
    assert n == laps * block + rest;
    NoRest(q - laps, block, rest);
  }

  /** A multiple that is less than one block is none. */
  lemma {:induction false} NoRest(d: int, block: nat, rest: nat)
    requires d * block == rest < block
    ensures rest == 0
  {
    assert d >= 1 ==> d * block >= block;
    assert d <= -1 ==> d * block <= -(block as int);
  }

  class BMallocIO {
    var blockSize: nat
    var mallocSize: nat
    var length: nat
    var data: array<Byte>
    var position: int

    ghost predicate Valid()
      reads `blockSize, `mallocSize, `length, `data
    {
      blockSize > 0 && data.Length == mallocSize && length <= mallocSize
    }

    /** What the stream holds. */
    ghost function Contents(): seq<Byte>
      reads `blockSize, `mallocSize, `length, `data, data
      requires Valid()
    {
      data[..length]
    }

    /** A byte of the buffer; behind the buffer there are only zeros to come. */
    ghost function At(k: nat): Byte
      reads `mallocSize, `data, data
      requires data.Length == mallocSize
    {
      if k < mallocSize then data[k] else 0
    }

    /** Nothing is left behind the end of the stream. */
    ghost predicate ZeroTail()
      reads `blockSize, `mallocSize, `length, `data, data
      requires Valid()
    {
      forall k: nat | length <= k :: At(k) == 0
    }

    /** Bytes of the buffer are those of the stream, and zero behind its end. */
    ghost predicate Holds(contents: seq<Byte>)
      reads `blockSize, `mallocSize, `length, `data, data
      requires Valid()
    {
      forall k: nat :: At(k) == if k < |contents| then contents[k] else 0
    }

    lemma {:induction false} HoldsContents()
      requires Valid()
      ensures ZeroTail() <==> Holds(Contents())
      ensures forall contents | length == |contents| && Holds(contents) :: Contents() == contents
    {
      assert forall k | 0 <= k < length :: Contents()[k] == At(k);
    }

    constructor ()
      ensures Valid() && ZeroTail() && Contents() == [] && position == 0 && blockSize == 256 && fresh(data)
    {
      blockSize, mallocSize, length, position := 256, 0, 0, 0;
      data := new Byte[0];
    }

    method SetBlockSize(size: nat)
      requires Valid()
      modifies `blockSize
      ensures Valid() && blockSize == if size == 0 then 1 else size
    {
      blockSize := if size == 0 then 1 else size;
    }

    /** Changes the length.  The bytes in front of the new end stay, and those behind it become zero or are gone, except
        those that a smaller size leaves within the buffer: nothing is left behind the end if and only if those are
        zero. */
    method SetSize(size: nat, canAlloc: bool) returns (result: Result)
      requires Valid()
      modifies `mallocSize, `length, `data
      ensures Valid() && (fresh(data) || data == old(data))
      ensures result == if size != 0 && size != old(mallocSize) && !canAlloc then NoMemory else Size(0)
      ensures result == NoMemory ==> data == old(data) && mallocSize == old(mallocSize) && length == old(length)
      ensures result != NoMemory ==>
                && length == size
                && mallocSize == (if size == 0 || size == old(mallocSize) then size else RoundUp(size, blockSize))
                && forall k: nat :: At(k) == if k < mallocSize then old(At(k)) else 0
      ensures result != NoMemory && old(ZeroTail()) ==>
                && Contents() == Resized(old(Contents()), size)
                && (ZeroTail() <==> forall k | size <= k < old(length) && k < mallocSize :: old(At(k)) == 0)
    {
      HoldsContents();
      result := Reallocate(size, canAlloc);
      if result == NoMemory {
        return;
      }
      length := size;
      ghost var was := old(Contents());
      assert forall k | 0 <= k < size :: Contents()[k] == At(k);
      assert old(ZeroTail()) ==> Contents() == Resized(was, size);
    }

    /** The part of `SetSize` that changes the buffer. */
    method Reallocate(size: nat, canAlloc: bool) returns (result: Result)
      requires Valid()
      modifies `mallocSize, `data
      ensures blockSize > 0 && data.Length == mallocSize && (fresh(data) || data == old(data))
      ensures result == if size != 0 && size != old(mallocSize) && !canAlloc then NoMemory else Size(0)
      ensures result == NoMemory ==> data == old(data) && mallocSize == old(mallocSize)
      ensures result != NoMemory ==>
                && size <= mallocSize
                && mallocSize == (if size == 0 || size == old(mallocSize) then size else RoundUp(size, blockSize))
                && forall k | 0 <= k < mallocSize :: data[k] == old(At(k))
    {
      if size == 0 {
        data := new Byte[0];
        mallocSize := 0;
      } else {
        var newSize := RoundUp(size, blockSize);
        RoundUpIsNext(size, blockSize);
        if size != mallocSize {
          if !canAlloc {
            return NoMemory;
          }
          var newData := new Byte[newSize](k reads this, data requires Valid() =>
            if 0 <= k < mallocSize then data[k] else 0);
          data := newData;
          mallocSize := newSize;
        }
      }
      return Size(0);
    }

    /** Writes bytes at an offset, growing the buffer if they do not fit.  Every other byte of the buffer stays. */
    method WriteAt(pos: nat, buffer: array?<Byte>, size: nat, canAlloc: bool) returns (result: Result)
      requires Valid() && (buffer != null ==> size <= buffer.Length && buffer != data)
      modifies `mallocSize, `length, `data, data
      ensures Valid() && (fresh(data) || data == old(data))
      ensures result ==
              if buffer == null then BadValue
              else if pos + size > old(mallocSize) && !canAlloc then NoMemory
              else Size(size)
      ensures result != Size(size) ==>
                data == old(data) && mallocSize == old(mallocSize) && length == old(length) && data[..] == old(data[..])
      ensures result == Size(size) && buffer != null ==>
                && length == (if pos + size > old(length) then pos + size else old(length))
                && forall k: nat :: At(k) == if pos <= k < pos + size then buffer[k - pos] else old(At(k))
      ensures result == Size(size) && buffer != null && old(ZeroTail()) ==>
                ZeroTail() && Contents() == Written(old(Contents()), pos, buffer[..size])
    {
      if buffer == null {
        return BadValue;
      }
      HoldsContents();
      var newSize := if pos + size > length then pos + size else length;
      result := Reserve(newSize, canAlloc);
      if result == NoMemory {
        return;
      }
      Store(pos, buffer, size);
      if pos + size > length {
        length := pos + size;
      }
      result := Size(size);
      WrittenHolds(old(Contents()), pos, buffer[..size]);
    }

    /** Grows the buffer if it has to be larger. */
    method Reserve(newSize: nat, canAlloc: bool) returns (result: Result)
      requires Valid() && length <= newSize
      modifies `mallocSize, `length, `data
      ensures Valid() && (fresh(data) || data == old(data))
      ensures result == if newSize > old(mallocSize) && !canAlloc then NoMemory else Size(0)
      ensures result == NoMemory ==> data == old(data) && mallocSize == old(mallocSize) && length == old(length)
      ensures result != NoMemory ==>
                && newSize <= mallocSize && old(length) <= length <= newSize
                && forall k: nat :: At(k) == old(At(k))
    {
      if newSize > mallocSize {
        result := SetSize(newSize, canAlloc);
        RoundUpIsNext(newSize, blockSize);
      } else {
        result := Size(0);
      }
    }

    /** The `memcpy` of a write. */
    method Store(pos: nat, buffer: array<Byte>, size: nat)
      requires Valid() && size <= buffer.Length && buffer != data && pos + size <= mallocSize
      modifies data
      ensures forall k: nat :: At(k) == if pos <= k < pos + size then buffer[k - pos] else old(At(k))
    {
      forall k | 0 <= k < size {
        data[pos + k] := buffer[k];
      }
    }

    lemma {:induction false} WrittenHolds(was: seq<Byte>, pos: nat, bytes: seq<Byte>)
      requires Valid() && length == |Written(was, pos, bytes)|
      ensures (forall k: nat ::
                 At(k) == if pos <= k < pos + |bytes| then bytes[k - pos] else if k < |was| then was[k] else 0)
              ==> ZeroTail() && Contents() == Written(was, pos, bytes)
    {
      assert forall k | 0 <= k < length :: Contents()[k] == At(k);
    }

    /** Reads the part of a range that lies in front of the end. */
    method ReadAt(pos: nat, buffer: array?<Byte>, size: nat) returns (result: Result)
      requires Valid() && (buffer != null ==> size <= buffer.Length && buffer != data)
      modifies if buffer == null then {} else {buffer}
      ensures buffer == null ==> result == BadValue
      ensures buffer != null ==>
                var n := if pos >= length then 0 else if size < length - pos then size else length - pos;
                && result == Size(n)
                && (n > 0 ==> buffer[..n] == Contents()[pos..pos + n])
                && buffer[n..] == old(buffer[n..])
    {
      if buffer == null {
        return BadValue;
      }
      var sizeRead := 0;
      if pos < length {
        sizeRead := if size < length - pos then size else length - pos;
        forall k | 0 <= k < sizeRead {
          buffer[k] := data[pos + k];
        }
        ghost var slice := Contents()[pos..pos + sizeRead];
        assert forall k | 0 <= k < sizeRead :: slice[k] == buffer[k];
        assert buffer[..sizeRead] == slice;
      }
      return Size(sizeRead);
    }

    method Seek(offset: int, mode: SeekMode) returns (now: int)
      modifies `position
      ensures now == position == match mode
                                 case FromStart => offset
                                 case FromEnd => length + offset
                                 case FromHere => old(position) + offset
                                 case Unknown => old(position)
    {
      match mode {
        case FromStart => position := offset;
        case FromEnd => position := length + offset;
        case FromHere => position := position + offset;
        case Unknown =>
      }
      return position;
    }

    /** `BPositionIO::Write`: writes at the position and moves it behind what was written. */
    method Write(buffer: array?<Byte>, size: nat, canAlloc: bool) returns (result: Result)
      requires Valid() && position >= 0 && (buffer != null ==> size <= buffer.Length && buffer != data)
      modifies this, data
      ensures Valid() && (fresh(data) || data == old(data)) && blockSize == old(blockSize)
      ensures position == old(position) + (if result.Size? then size else 0)
      ensures result ==
              if buffer == null then BadValue
              else if old(position) + size > old(mallocSize) && !canAlloc then NoMemory
              else Size(size)
      ensures !result.Size? ==> length == old(length) && data == old(data) && data[..] == old(data[..])
      ensures result.Size? && buffer != null ==>
                && length == (if old(position) + size > old(length) then old(position) + size else old(length))
                && forall k: nat ::
                     At(k) == if old(position) <= k < old(position) + size then buffer[k - old(position)]
                              else old(At(k))
      ensures result.Size? && old(ZeroTail()) ==>
                buffer != null && ZeroTail() && Contents() == Written(old(Contents()), old(position), buffer[..size])
    {
      result := WriteAt(position, buffer, size, canAlloc);
      if result.Size? && result.bytes > 0 {
        var now := Seek(result.bytes, FromHere);
      }
    }

    /** `BPositionIO::Read`: reads at the position and moves it behind what was read. */
    method Read(buffer: array?<Byte>, size: nat) returns (result: Result)
      requires Valid() && position >= 0 && (buffer != null ==> size <= buffer.Length && buffer != data)
      modifies `position, if buffer == null then {} else {buffer}
      ensures Valid() && Contents() == old(Contents())
      ensures buffer == null ==> result == BadValue && position == old(position)
      ensures buffer != null ==>
                && result.Size? && position == old(position) + result.bytes
                && result.bytes == (if old(position) >= length then 0 else if size < length - old(position) then size
                                    else length - old(position))
                && (result.bytes > 0 ==> buffer[..result.bytes] == Contents()[old(position)..position])
                && buffer[result.bytes..] == old(buffer[result.bytes..])
    {
      result := ReadAt(position, buffer, size);
      if result.Size? && result.bytes > 0 {
        var now := Seek(result.bytes, FromHere);
      }
    }
  }

  // Whole runs

  /** A call that changes the stream or how it grows. */
  datatype Op = Write(pos: nat, bytes: seq<Byte>) | Resize(size: nat) | SetBlock(size: nat)

  /** The stream after the first `n` calls. */
  function After(ops: seq<Op>, n: nat): seq<Byte>
    requires n <= |ops|
  {
    if n == 0 then []
    else
      match ops[n - 1]
      case Write(pos, bytes) => Written(After(ops, n - 1), pos, bytes)
      case Resize(size) => Resized(After(ops, n - 1), size)
      case SetBlock(_) => After(ops, n - 1)
  }

  /** Every change of the size grows the stream or resets it. */
  predicate GrowsOrResets(ops: seq<Op>) {
    forall i | 0 <= i < |ops| && ops[i].Resize? :: ops[i].size == 0 || ops[i].size >= |After(ops, i)|
  }

  /** The byte at `k` that the last call among the first `n` wrote there since the last reset, or zero. */
  function LastWrite(ops: seq<Op>, n: nat, k: nat): Byte
    requires n <= |ops|
  {
    if n == 0 then 0
    else
      match ops[n - 1]
      case Write(pos, bytes) => if pos <= k < pos + |bytes| then bytes[k - pos] else LastWrite(ops, n - 1, k)
      case Resize(size) => if size == 0 then 0 else LastWrite(ops, n - 1, k)
      case SetBlock(_) => LastWrite(ops, n - 1, k)
  }

  lemma {:induction false} StreamHoldsLastWrites(ops: seq<Op>, n: nat, k: nat)
    requires n <= |ops| && GrowsOrResets(ops)
    ensures k < |After(ops, n)| ==> After(ops, n)[k] == LastWrite(ops, n, k)
    ensures k >= |After(ops, n)| ==> LastWrite(ops, n, k) == 0
  {
    if n > 0 {
      StreamHoldsLastWrites(ops, n - 1, k);
      var op := ops[n - 1];
      assert op.Resize? ==> op.size == 0 || op.size >= |After(ops, n - 1)|;
      hide GrowsOrResets, Written, Resized;
      match op
      case Write(pos, bytes) => WrittenAt(After(ops, n - 1), pos, bytes, k);
      case Resize(size) => ResizedAt(After(ops, n - 1), size, k);
      case SetBlock(_) =>
    }
  }

  /** One call on a stream that has only zeros behind its end; a change of the size grows or resets it. */
  method RunCall(io: BMallocIO, op: Op)
    requires io.Valid() && io.ZeroTail() && (op.Resize? ==> op.size == 0 || op.size >= |io.Contents()|)
    modifies io, io.data
    ensures io.Valid() && io.ZeroTail() && (fresh(io.data) || io.data == old(io.data))
    ensures io.Contents() == match op
                             case Write(pos, bytes) => Written(old(io.Contents()), pos, bytes)
                             case Resize(size) => Resized(old(io.Contents()), size)
                             case SetBlock(_) => old(io.Contents())
  {
    match op {
      case Write(pos, bytes) =>
        var buffer := new Byte[|bytes|](k requires 0 <= k < |bytes| => bytes[k]);
        assert buffer[..|bytes|] == bytes;
        var result := io.WriteAt(pos, buffer, |bytes|, true);
      case Resize(size) =>
        var result := io.SetSize(size, true);
      case SetBlock(size) =>
        io.SetBlockSize(size);
    }
  }

  /** Any run of writes, sizes that grow or reset, and block sizes on a new stream, each with memory to be had: every
      byte of the stream is the last one written there since the last reset, the gaps are zero, and so is all that is
      left of the buffer, whatever was reallocated on the way. */
  method RunCalls(ops: seq<Op>) returns (io: BMallocIO)
    requires GrowsOrResets(ops)
    ensures fresh(io) && io.Valid() && io.ZeroTail() && io.Contents() == After(ops, |ops|)
    ensures forall k | 0 <= k < |io.Contents()| :: io.Contents()[k] == LastWrite(ops, |ops|, k)
  {
    io := new BMallocIO();
    var i := 0;
    while i < |ops|
      invariant 0 <= i <= |ops|
      invariant fresh(io) && fresh(io.data) && io.Valid() && io.ZeroTail() && io.Contents() == After(ops, i)
    {
      RunCall(io, ops[i]);
      i := i + 1;
    }
    forall k | 0 <= k < |io.Contents()| ensures io.Contents()[k] == LastWrite(ops, |ops|, k) {
      StreamHoldsLastWrites(ops, |ops|, k);
    }
  }
}
