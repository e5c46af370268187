/** Bytes in memory: little-endian fields, in-place stores, and the C memory
    routines the driver calls (authvars_test/host/edk2/uefi_c.c). */
module Bytes {
  type u8 = x: int | 0 <= x < 0x100
  type u16 = x: int | 0 <= x < 0x1_0000
  type u32 = x: int | 0 <= x < 0x1_0000_0000
  type u64 = x: int | 0 <= x < 0x1_0000_0000_0000_0000

  datatype Option<+T> = None | Some(value: T)

  lemma Associative<T>(a: seq<T>, b: seq<T>, c: seq<T>)
    ensures a + b + c == a + (b + c)
  {}

  // ---- little-endian fields ----

  function Le16(v: u16): (b: seq<u8>)
    ensures |b| == 2
  {
    [v % 0x100, v / 0x100]
  }

  function Le32(v: u32): (b: seq<u8>)
    ensures |b| == 4
  {
    Le16(v % 0x1_0000) + Le16(v / 0x1_0000)
  }

  function Le64(v: u64): (b: seq<u8>)
    ensures |b| == 8
  {
    Le32(v % 0x1_0000_0000) + Le32(v / 0x1_0000_0000)
  }

  function U16(b: seq<u8>, at: nat): u16
    requires at + 2 <= |b|
  {
    var lo: int := b[at];
    var hi: int := b[at + 1];
    lo + 0x100 * hi
  }

  function U32(b: seq<u8>, at: nat): u32
    requires at + 4 <= |b|
  {
    U16(b, at) + 0x1_0000 * U16(b, at + 2)
  }

  function U64(b: seq<u8>, at: nat): u64
    requires at + 8 <= |b|
  {
    U32(b, at) + 0x1_0000_0000 * U32(b, at + 4)
  }

  /** The bytes t are found in b, starting at byte at. */
  ghost predicate Slot(b: seq<u8>, at: nat, t: seq<u8>) {
    at + |t| <= |b| && b[at..at + |t|] == t
  }

  lemma SlotByte(b: seq<u8>, at: nat, t: seq<u8>, i: nat)
    requires Slot(b, at, t) && i < |t|
    ensures b[at + i] == t[i]
  {}

  lemma ReadsLe16(b: seq<u8>, at: nat, v: u16)
    requires Slot(b, at, Le16(v))
    ensures U16(b, at) == v
  {}

  lemma ReadsLe32(b: seq<u8>, at: nat, v: u32)
    requires Slot(b, at, Le32(v))
    ensures U32(b, at) == v
  {}

  lemma ReadsLe64(b: seq<u8>, at: nat, v: u64)
    requires Slot(b, at, Le64(v))
    ensures U64(b, at) == v
  {
    SlotPart(b, at, Le32(v % 0x1_0000_0000), Le32(v / 0x1_0000_0000));
    ReadsLe32(b, at, v % 0x1_0000_0000);
    ReadsLe32(b, at + 4, v / 0x1_0000_0000);
  }

  /** A field made of two parts is read as its two parts. */
  lemma SlotPart(b: seq<u8>, at: nat, t: seq<u8>, u: seq<u8>)
    requires Slot(b, at, t + u)
    ensures Slot(b, at, t) && Slot(b, at + |t|, u)
  {
    var s := b[at..at + |t| + |u|];
    assert s == t + u;
    assert b[at..at + |t|] == s[..|t|];
    assert b[at + |t|..at + |t| + |u|] == s[|t|..];
  }

  // ---- memory with one stretch overwritten ----

  /** b with the bytes t stored from byte at on. */
  function Splice(b: seq<u8>, at: nat, t: seq<u8>): (r: seq<u8>)
    requires at + |t| <= |b|
    ensures |r| == |b|
    decreases |t|
  {
    if t == [] then b else Splice(b[at := t[0]], at + 1, t[1..])
  }

  /** Splice, as a concatenation and byte by byte. */
  lemma {:induction false} SpliceIs(b: seq<u8>, at: nat, t: seq<u8>)
    requires at + |t| <= |b|
    ensures Splice(b, at, t) == b[..at] + t + b[at + |t|..]
    ensures forall i :: 0 <= i < |b| ==> Splice(b, at, t)[i] == if at <= i < at + |t| then t[i - at] else b[i]
    decreases |t|
  {
    if t == [] {
    } else {
      SpliceIs(b[at := t[0]], at + 1, t[1..]);
    }
  }

  /** Memory that agrees with t on the stretch and with b elsewhere is the splice. */
  lemma IsSplice(r: seq<u8>, b: seq<u8>, at: nat, t: seq<u8>)
    requires at + |t| <= |b| == |r|
    requires forall i :: 0 <= i < |b| ==> r[i] == if at <= i < at + |t| then t[i - at] else b[i]
    ensures r == Splice(b, at, t)
  {
    SpliceIs(b, at, t);
  }

  lemma SpliceSlot(b: seq<u8>, at: nat, t: seq<u8>)
    requires at + |t| <= |b|
    ensures Slot(Splice(b, at, t), at, t)
  {
    SpliceIs(b, at, t);
  }

  lemma SpliceKeeps(b: seq<u8>, at: nat, t: seq<u8>, at': nat, t': seq<u8>)
    requires at + |t| <= |b| && Slot(b, at', t')
    requires at' + |t'| <= at || at + |t| <= at'
    ensures Slot(Splice(b, at, t), at', t')
  {
    SpliceIs(b, at, t);
    assert Splice(b, at, t)[at'..at' + |t'|] == b[at'..at' + |t'|];
  }

  /** A store puts its bytes in place and keeps every field it does not overlap. */
  lemma SpliceFields(b: seq<u8>, at: nat, t: seq<u8>)
    requires at + |t| <= |b|
    ensures Slot(Splice(b, at, t), at, t)
    ensures forall at': nat, t': seq<u8> {:trigger Slot(Splice(b, at, t), at', t')} ::
              Slot(b, at', t') && (at' + |t'| <= at || at + |t| <= at') ==> Slot(Splice(b, at, t), at', t')
  {
    SpliceSlot(b, at, t);
    forall at': nat, t': seq<u8> | Slot(b, at', t') && (at' + |t'| <= at || at + |t| <= at')
      ensures Slot(Splice(b, at, t), at', t')
    {
      SpliceKeeps(b, at, t, at', t');
    }
  }

  lemma SpliceTwice(b: seq<u8>, at: nat, t: seq<u8>, u: seq<u8>)
    requires at + |t| + |u| <= |b|
    ensures Splice(Splice(b, at, t), at + |t|, u) == Splice(b, at, t + u)
  {
    SpliceIs(b, at, t);
    SpliceIs(Splice(b, at, t), at + |t|, u);
    SpliceIs(b, at, t + u);
  }

  lemma SpliceBefore(b: seq<u8>, at: nat, t: seq<u8>, u: seq<u8>)
    requires at + |t| + |u| <= |b|
    ensures Splice(Splice(b, at + |t|, u), at, t) == Splice(b, at, t + u)
  {
    SpliceIs(b, at + |t|, u);
    SpliceIs(Splice(b, at + |t|, u), at, t);
    SpliceIs(b, at, t + u);
  }

  /** A later store over the same stretch wins. */
  lemma SpliceOver(b: seq<u8>, at: nat, t: seq<u8>, u: seq<u8>)
    requires |t| <= |u| && at + |u| <= |b|
    ensures Splice(Splice(b, at, t), at, u) == Splice(b, at, u)
  {
    SpliceIs(b, at, t);
    SpliceIs(Splice(b, at, t), at, u);
    SpliceIs(b, at, u);
  }

  lemma SpliceTail(b: seq<u8>, at: nat, t: seq<u8>)
    requires at + |t| <= |b|
    ensures Splice(b, at, t)[at..] == t + b[at + |t|..]
  {
    SpliceIs(b, at, t);
  }

  lemma SpliceHead(b: seq<u8>, t: seq<u8>)
    requires |t| <= |b|
    ensures Splice(b, 0, t)[..|t|] == t
  {
    SpliceIs(b, 0, t);
  }

  lemma SlotInPrefix(b: seq<u8>, n: nat, at: nat, t: seq<u8>)
    requires at + |t| <= n <= |b| && Slot(b, at, t)
    ensures Slot(b[..n], at, t)
  {}

  /** Overwriting a stretch with what is already there changes nothing. */
  lemma SpliceSame(b: seq<u8>, at: nat, t: seq<u8>)
    requires Slot(b, at, t)
    ensures Splice(b, at, t) == b
  {
    SpliceIs(b, at, t);
    assert b == b[..at] + b[at..at + |t|] + b[at + |t|..];
  }

  lemma SpliceAll(b: seq<u8>, t: seq<u8>)
    requires |t| == |b|
    ensures Splice(b, 0, t) == t
  {
    SpliceIs(b, 0, t);
  }

  function Fill(n: nat, v: u8): (b: seq<u8>)
    ensures |b| == n
  {
    seq(n, _ => v)
  }

  // ---- the C routines ----

  function Load16(a: array<u8>, at: nat): (v: u16)
    requires at + 2 <= a.Length
    reads a
    ensures v == U16(a[..], at)
  {
    var lo: int := a[at];
    var hi: int := a[at + 1];
    lo + 0x100 * hi
  }

  function Load32(a: array<u8>, at: nat): (v: u32)
    requires at + 4 <= a.Length
    reads a
    ensures v == U32(a[..], at)
  {
    Load16(a, at) + 0x1_0000 * Load16(a, at + 2)
  }

  method Store16(a: array<u8>, at: nat, v: u16)
    requires at + 2 <= a.Length
    modifies a
    ensures a[..] == Splice(old(a[..]), at, Le16(v))
    ensures forall j :: 0 <= j < a.Length && !(at <= j < at + 2) ==> a[j] == old(a[j])
  {
    a[at] := v % 0x100;
    a[at + 1] := v / 0x100;
    IsSplice(a[..], old(a[..]), at, Le16(v));
  }

  method Store32(a: array<u8>, at: nat, v: u32)
    requires at + 4 <= a.Length
    modifies a
    ensures a[..] == Splice(old(a[..]), at, Le32(v))
    ensures forall j :: 0 <= j < a.Length && !(at <= j < at + 4) ==> a[j] == old(a[j])
  {
    Store16(a, at, v % 0x1_0000);
    Store16(a, at + 2, v / 0x1_0000);
    SpliceTwice(old(a[..]), at, Le16(v % 0x1_0000), Le16(v / 0x1_0000));
  }

  method Memset(a: array<u8>, value: nat, size: nat)
    requires size <= a.Length
    modifies a
    ensures a[..] == Splice(old(a[..]), 0, Fill(size, value % 0x100))
  {
    var i := 0;
    while i < size
      invariant i <= size
      invariant forall j :: 0 <= j < a.Length ==> a[j] == if j < i then value % 0x100 else old(a[j])
    {
      a[i] := value % 0x100;
      i := i + 1;
    }
    IsSplice(a[..], old(a[..]), 0, Fill(size, value % 0x100));
  }

  method ZeroMem(buffer: array<u8>, size: nat)
    requires size <= buffer.Length
    modifies buffer
    ensures buffer[..] == Splice(old(buffer[..]), 0, Fill(size, 0))
  {
    Memset(buffer, 0, size);
  }

  /** memset receives the length where it expects the value and the value where
      it expects the length, so Value bytes are overwritten, each with the low
      byte of Length; a zero Value clears nothing. */
  method SetMem(buffer: array<u8>, length: nat, value: u8)
    requires value <= buffer.Length
    modifies buffer
    ensures length == 0 ==> buffer[..] == old(buffer[..])
    ensures length != 0 ==> buffer[..] == Splice(old(buffer[..]), 0, Fill(value, length % 0x100))
    ensures value == 0 ==> buffer[..] == old(buffer[..])
  {
    if length == 0 {
      return;
    }
    Memset(buffer, length, value);
  }

  method CopyMem(dst: array<u8>, to: nat, src: seq<u8>)
    requires to + |src| <= dst.Length
    modifies dst
    ensures dst[..] == Splice(old(dst[..]), to, src)
  {
    var i := 0;
    while i < |src|
      invariant i <= |src|
      invariant forall j :: 0 <= j < dst.Length ==> dst[j] == if to <= j < to + i then src[j - to] else old(dst[j])
    {
      dst[to + i] := src[i];
      i := i + 1;
    }
    IsSplice(dst[..], old(dst[..]), to, src);
  }

  /** realloc keeps the common prefix; a NULL buffer is calloc'ed. */
  method ReallocatePool(newSize: nat, oldBuffer: array?<u8>) returns (newBuffer: array<u8>)
    ensures fresh(newBuffer) && newBuffer.Length == newSize
    ensures oldBuffer == null ==> newBuffer[..] == Fill(newSize, 0)
    ensures oldBuffer != null && oldBuffer.Length <= newSize ==> newBuffer[..oldBuffer.Length] == oldBuffer[..]
    ensures oldBuffer != null && newSize < oldBuffer.Length ==> newBuffer[..] == oldBuffer[..newSize]
  {
    if oldBuffer == null {
      newBuffer := new u8[newSize](_ => 0);
    } else {
      newBuffer := new u8[newSize](i requires 0 <= i < newSize reads oldBuffer =>
        if i < oldBuffer.Length then oldBuffer[i] else 0);
    }
  }
}
