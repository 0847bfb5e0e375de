/** Bytes, little-endian integers and C strings, as the flattened format of a message stores them. */
module Bytes {
  type Byte = b: int | 0 <= b < 256

  const UINT8_MAX := 0xff
  const UINT32_MAX := 0xffff_ffff
  const UINT64_MAX := 0xffff_ffff_ffff_ffff

  type UInt32 = n: int | 0 <= n <= UINT32_MAX

  /** A C string without its terminating zero: bytes other than zero, see `IsCString`. */
  type CString = seq<Byte>

  predicate IsCString(s: seq<Byte>) {
    forall i | 0 <= i < |s| :: s[i] != 0
  }

  /** The numbers that fit in `width` bytes are those below this one. */
  function Range(width: nat): nat {
    if width == 0 then 1 else 256 * Range(width - 1)
  }

  /** What a store of `n` as an integer of `width` bytes leaves in memory. */
  function Store(n: nat, width: nat): (bytes: seq<Byte>)
    ensures |bytes| == width
  {
    if width == 0 then [] else [n % 256] + Store(n / 256, width - 1)
  }

  /** What a load of an integer of `width` bytes at `pos` gives. */
  function Load(buf: seq<Byte>, pos: nat, width: nat): nat
    requires pos + width <= |buf|
    decreases |buf| - pos
  {
    if width == 0 then 0 else buf[pos] + 256 * Load(buf, pos + 1, width - 1)
  }

  function Load32(buf: seq<Byte>, pos: nat): UInt32
    requires pos + 4 <= |buf|
  {
    LoadInRange(buf, pos, 4);
    Ranges();
    Load(buf, pos, 4)
  }

  /** The buffer has these bytes at `pos`. */
  predicate HasAt(buf: seq<Byte>, pos: nat, bytes: seq<Byte>) {
    pos + |bytes| <= |buf| && buf[pos..pos + |bytes|] == bytes
  }

  lemma {:induction false} HasBoth(buf: seq<Byte>, pos: nat, a: seq<Byte>, b: seq<Byte>)
    requires HasAt(buf, pos, a + b)
    ensures HasAt(buf, pos, a) && HasAt(buf, pos + |a|, b)
  {
    assert buf[pos..pos + |a|] == buf[pos..pos + |a + b|][..|a|];
    assert buf[pos + |a|..pos + |a| + |b|] == buf[pos..pos + |a + b|][|a|..];
  }

  /** A load gives back what was stored there, if it fits. */
  lemma {:induction false} LoadStored(buf: seq<Byte>, pos: nat, n: nat, width: nat)
    requires HasAt(buf, pos, Store(n, width)) && n < Range(width)
    ensures Load(buf, pos, width) == n
    decreases width
  {
    if width > 0 {
      HasBoth(buf, pos, [n % 256], Store(n / 256, width - 1));
      assert buf[pos] == buf[pos..pos + 1][0];
      LoadStored(buf, pos + 1, n / 256, width - 1);
    }
  }

  /** The least significant byte comes first: byte `i` is the digit of 256 to the power of `i`. */
  lemma {:induction false} StoredByte(n: nat, width: nat, i: nat)
    requires i < width
    ensures Range(i) > 0 && Store(n, width)[i] == n / Range(i) % 256
    decreases width
  {
    if i > 0 {
      StoredByte(n / 256, width - 1, i - 1);
      DivideTwice(n, Range(i - 1));
    }
  }

  lemma {:induction false} DivideTwice(n: nat, d: nat)
    requires d > 0
    ensures n / 256 / d == n / (256 * d)
  {
    var q := n / 256 / d;
    var rest := n - 256 * d * q;
    assert 0 <= n / 256 - d * q < d;
    assert 0 <= rest < 256 * d;
    QuotientIs(n, 256 * d, q, rest);
  }

  lemma {:induction false} QuotientIs(n: nat, d: nat, q: nat, rest: nat)
    requires d > 0 && n == d * q + rest && rest < d
    ensures n / d == q
  {
    var p, r := n / d, n % d;
    assert n == d * p + r;
    Distribute(d, q, p);
    SmallMultiple(d, q - p, r - rest);
  }

  lemma {:induction false} Distribute(d: int, q: int, p: int)
    ensures d * (q - p) == d * q - d * p
  {
  }

  lemma {:induction false} SmallMultiple(d: int, k: int, m: int)
    requires d * k == m && -d < m < d
    ensures k == 0
  {
    assert k >= 1 ==> d * k >= d;
    assert k <= -1 ==> d * k <= -d;
  }

  lemma {:induction false} LoadInRange(buf: seq<Byte>, pos: nat, width: nat)
    requires pos + width <= |buf|
    ensures Load(buf, pos, width) < Range(width)
    decreases width
  {
    if width > 0 {
      LoadInRange(buf, pos + 1, width - 1);
    }
  }

  lemma {:induction false} Ranges()
    ensures Range(4) == UINT32_MAX + 1 && Range(8) == UINT64_MAX + 1
  {
    assert Range(1) == 256 && Range(2) == 0x1_0000 && Range(3) == 0x100_0000;
    assert Range(4) == 0x1_0000_0000;
    assert Range(5) == 0x100_0000_0000 && Range(6) == 0x1_0000_0000_0000 && Range(7) == 0x100_0000_0000_0000;
  }

  lemma {:induction false} LoadStored32(buf: seq<Byte>, pos: nat, n: UInt32)
    requires HasAt(buf, pos, Store(n, 4))
    ensures Load32(buf, pos) == n
  {
    Ranges();
    LoadStored(buf, pos, n, 4);
  }

  lemma {:induction false} LoadStored64(buf: seq<Byte>, pos: nat, n: nat)
    requires HasAt(buf, pos, Store(n, 8)) && n <= UINT64_MAX
    ensures Load(buf, pos, 8) == n
  {
    Ranges();
    LoadStored(buf, pos, n, 8);
  }

  /** The length of the C string that starts at `k`: the distance to the next zero, or to the end. */
  function ZeroFrom(bytes: seq<Byte>, k: nat): (z: nat)
    requires k <= |bytes|
    ensures k <= z <= |bytes|
    decreases |bytes| - k
  {
    if k == |bytes| || bytes[k] == 0 then k else ZeroFrom(bytes, k + 1)
  }

  /** The C string at the start of some bytes: up to the first zero. */
  function CStringOf(bytes: seq<Byte>): CString {
    bytes[..ZeroFrom(bytes, 0)]
  }

  lemma {:induction false} ZeroFromIsFirst(bytes: seq<Byte>, k: nat)
    requires k <= |bytes|
    ensures forall i | k <= i < ZeroFrom(bytes, k) :: bytes[i] != 0
    ensures ZeroFrom(bytes, k) < |bytes| ==> bytes[ZeroFrom(bytes, k)] == 0
    decreases |bytes| - k
  {
    if k < |bytes| && bytes[k] != 0 {
      ZeroFromIsFirst(bytes, k + 1);
    }
  }

  /** It is a C string, and is all of the bytes exactly if they hold no zero. */
  lemma {:induction false} CStringOfIff(bytes: seq<Byte>)
    ensures IsCString(CStringOf(bytes))
    ensures CStringOf(bytes) == bytes <==> IsCString(bytes)
  {
    ZeroFromIsFirst(bytes, 0);
    var z := ZeroFrom(bytes, 0);
    if z < |bytes| {
      assert bytes[z] == 0;
      assert |CStringOf(bytes)| < |bytes|;
    }
  }

  /** At most the first `n` characters. */
  function Clip(s: CString, n: nat): CString {
    if |s| <= n then s else s[..n]
  }

  /** `strncmp(a, b, n) == 0`: the strings agree up to the end of both or for `n` characters. */
  predicate SameName(a: CString, b: CString, n: nat) {
    Clip(a, n) == Clip(b, n)
  }

  /** A character of a C string as the functions of the C library see it: behind the end there is the terminator. */
  function CharAt(s: CString, i: nat): Byte {
    if i < |s| then s[i] else 0
  }

  /** Two names are the same exactly if the first `n` characters are, terminator included. */
  lemma {:induction false} SameNameIff(a: CString, b: CString, n: nat)
    requires IsCString(a) && IsCString(b)
    ensures SameName(a, b, n) <==> forall i: nat | i < n :: CharAt(a, i) == CharAt(b, i)
  {
    var x, y := Clip(a, n), Clip(b, n);
    if x == y {
      forall i: nat | i < n ensures CharAt(a, i) == CharAt(b, i) {
        assert i < |x| ==> x[i] == y[i];
      }
    } else if |x| == |y| {
      var i :| 0 <= i < |x| && x[i] != y[i];
      assert CharAt(a, i) != CharAt(b, i);
    } else {
      var i := if |x| < |y| then |x| else |y|;
      assert CharAt(a, i) != CharAt(b, i);
    }
  }
}
