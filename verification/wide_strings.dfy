/** The two string conversions of authvars_test/host/edk2/linux_fixup.c, between
    the 32-bit wchar_t of the client and the 16-bit characters of the trusted
    application. Strings live in byte arrays, so that a conversion whose source
    and destination overlap is covered by the same proof. */
module WideStrings {
  import opened Bytes

  // ---- characters ----

  /** The (INT16) cast: the low half of a wchar_t. */
  function Narrow(c: u32): u16 { c % 0x1_0000 }

  /** The assignment *wc = *sc, which sign-extends an INT16. */
  function Widen(c: u16): u32 {
    if c < 0x8000 then c else 0xFFFF_0000 + c
  }

  predicate Fits(c: u32) { c < 0x8000 || 0xFFFF_8000 <= c }

  function NarrowAll(s: seq<u32>): (r: seq<u16>)
    ensures |r| == |s|
    ensures forall i :: 0 <= i < |s| ==> r[i] == Narrow(s[i])
  {
    seq(|s|, i requires 0 <= i < |s| => Narrow(s[i]))
  }

  function WidenAll(s: seq<u16>): (r: seq<u32>)
    ensures |r| == |s|
    ensures forall i :: 0 <= i < |s| ==> r[i] == Widen(s[i])
  {
    seq(|s|, i requires 0 <= i < |s| => Widen(s[i]))
  }

  predicate AllFit(s: seq<u32>) { forall i :: 0 <= i < |s| ==> Fits(s[i]) }

  /** Exactly the characters in the signed 16-bit range survive both conversions. */
  lemma NarrowThenWiden(c: u32)
    ensures Widen(Narrow(c)) == c <==> Fits(c)
  {}

  lemma WidenThenNarrow(c: u16)
    ensures Narrow(Widen(c)) == c && Fits(Widen(c))
    ensures Widen(c) == 0 <==> c == 0
  {}

  lemma NarrowThenWidenAll(s: seq<u32>)
    ensures WidenAll(NarrowAll(s)) == s <==> AllFit(s)
  {}

  lemma WidenThenNarrowAll(s: seq<u16>)
    ensures NarrowAll(WidenAll(s)) == s && AllFit(WidenAll(s))
    ensures 0 in WidenAll(s) <==> 0 in s
  {}

  /** The characters before the first NUL. */
  function Cut(s: seq<u16>): (r: seq<u16>)
    ensures |r| <= |s| && r == s[..|r|] && 0 !in r
    ensures |r| < |s| ==> s[|r|] == 0
    ensures 0 !in s ==> r == s
  {
    if s == [] || s[0] == 0 then [] else [s[0]] + Cut(s[1..])
  }

  // ---- strings in memory ----

  function Enc16(s: seq<u16>): (b: seq<u8>)
    ensures |b| == 2 * |s|
  {
    if s == [] then [] else Le16(s[0]) + Enc16(s[1..])
  }

  function Enc32(s: seq<u32>): (b: seq<u8>)
    ensures |b| == 4 * |s|
  {
    if s == [] then [] else Le32(s[0]) + Enc32(s[1..])
  }

  /** The 16-bit characters at the start of b, up to the first NUL or the end of b. */
  function NarrowString(b: seq<u8>): (s: seq<u16>)
    ensures 2 * |s| <= |b| && 0 !in s
  {
    if |b| < 2 || U16(b, 0) == 0 then [] else [U16(b, 0)] + NarrowString(b[2..])
  }

  function WideString(b: seq<u8>): (s: seq<u32>)
    ensures 4 * |s| <= |b| && 0 !in s
  {
    if |b| < 4 || U32(b, 0) == 0 then [] else [U32(b, 0)] + WideString(b[4..])
  }

  /** A C string: the characters are followed by a NUL that is still inside b. */
  ghost predicate NarrowTerminated(b: seq<u8>) { 2 * |NarrowString(b)| + 2 <= |b| }
  ghost predicate WideTerminated(b: seq<u8>) { 4 * |WideString(b)| + 4 <= |b| }

  /** StrSize: bytes of a wide string with its terminator (authvars_test/host/edk2/uefi_c.c). */
  function StrSize(s: seq<u32>): nat { (|s| + 1) * 4 }

  lemma {:induction false} WideUnit(b: seq<u8>, k: nat)
    requires WideTerminated(b) && k <= |WideString(b)|
    ensures U32(b, 4 * k) == (WideString(b) + [0])[k]
  {
    if k == 0 {
    } else {
      WideUnit(b[4..], k - 1);
      assert U32(b, 4 * k) == U32(b[4..], 4 * (k - 1));
    }
  }

  /** An empty string starts with its terminator, any other one with its first character. */
  lemma FirstUnit(b: seq<u8>)
    requires WideTerminated(b)
    ensures U32(b, 0) == (WideString(b) + [0])[0] && (U32(b, 0) == 0 <==> WideString(b) == [])
  {}

  lemma {:induction false} NarrowUnit(b: seq<u8>, k: nat)
    requires NarrowTerminated(b) && k <= |NarrowString(b)|
    ensures U16(b, 2 * k) == (NarrowString(b) + [0])[k]
  {
    if k == 0 {
    } else {
      NarrowUnit(b[2..], k - 1);
      assert U16(b, 2 * k) == U16(b[2..], 2 * (k - 1));
    }
  }

  lemma {:induction false} Enc16Append(s: seq<u16>, t: seq<u16>)
    ensures Enc16(s + t) == Enc16(s) + Enc16(t)
  {
    hide Le16;
    if s == [] {
      assert s + t == t;
    } else {
      Enc16Append(s[1..], t);
      assert (s + t)[1..] == s[1..] + t;
      Associative(Le16(s[0]), Enc16(s[1..]), Enc16(t));
    }
  }

  lemma {:induction false} Enc32Append(s: seq<u32>, t: seq<u32>)
    ensures Enc32(s + t) == Enc32(s) + Enc32(t)
  {
    hide Le32;
    if s == [] {
      assert s + t == t;
    } else {
      Enc32Append(s[1..], t);
      assert (s + t)[1..] == s[1..] + t;
      Associative(Le32(s[0]), Enc32(s[1..]), Enc32(t));
    }
  }

  /** Reading back a stored 16-bit string gives its characters up to the first NUL,
      whatever bytes follow it. */
  lemma {:induction false} NarrowRoundTrip(s: seq<u16>, rest: seq<u8>)
    ensures NarrowString(Enc16(s + [0]) + rest) == Cut(s)
    ensures NarrowTerminated(Enc16(s + [0]) + rest)
  {
    var b := Enc16(s + [0]) + rest;
    if s == [] {
      assert (s + [0])[0] == 0;
      assert b[..2] == Le16(0);
      ReadsLe16(b, 0, 0);
    } else {
      assert (s + [0])[1..] == s[1..] + [0];
      var tail := Enc16(s[1..] + [0]) + rest;
      assert b == Le16(s[0]) + tail;
      assert b[..2] == Le16(s[0]);
      ReadsLe16(b, 0, s[0]);
      assert b[2..] == tail;
      NarrowRoundTrip(s[1..], rest);
    }
  }

  lemma {:induction false} WideRoundTrip(s: seq<u32>, rest: seq<u8>)
    requires 0 !in s
    ensures WideString(Enc32(s + [0]) + rest) == s
    ensures WideTerminated(Enc32(s + [0]) + rest)
  {
    var b := Enc32(s + [0]) + rest;
    if s == [] {
      assert (s + [0])[0] == 0;
      assert b[..4] == Le32(0);
      ReadsLe32(b, 0, 0);
    } else {
      assert (s + [0])[1..] == s[1..] + [0];
      var tail := Enc32(s[1..] + [0]) + rest;
      assert b == Le32(s[0]) + tail;
      assert b[..4] == Le32(s[0]);
      ReadsLe32(b, 0, s[0]);
      assert b[4..] == tail;
      WideRoundTrip(s[1..], rest);
    }
  }

  /** The bytes of a terminated wide string are the encoding of its characters. */
  lemma {:induction false} WideBytes(b: seq<u8>)
    requires WideTerminated(b)
    ensures Slot(b, 0, Enc32(WideString(b) + [0]))
  {
    var s := WideString(b);
    Le32Bytes(b);
    if s == [] {
      assert Enc32(s + [0]) == Le32(0) + Enc32([]);
    } else {
      WideBytes(b[4..]);
      assert (s + [0])[1..] == WideString(b[4..]) + [0];
      assert Enc32(s + [0]) == Le32(s[0]) + Enc32(s[1..] + [0]);
      var n := 4 * |s|;
      assert b[0..4 + n] == b[..4] + b[4..][0..n];
    }
  }

  lemma Le32Bytes(b: seq<u8>)
    requires |b| >= 4
    ensures b[..4] == Le32(U32(b, 0))
  {
    var lo, hi := U16(b, 0), U16(b, 2);
    assert U32(b, 0) % 0x1_0000 == lo && U32(b, 0) / 0x1_0000 == hi;
    assert b[..4] == [b[0], b[1]] + [b[2], b[3]];
  }

  /** A string does not depend on what follows its terminator. */
  lemma WidePrefix(b: seq<u8>, c: seq<u8>)
    requires WideTerminated(b) && b <= c
    ensures WideTerminated(c) && WideString(c) == WideString(b)
  {
    var t := Enc32(WideString(b) + [0]);
    WideBytes(b);
    assert c == t + c[|t|..];
    WideRoundTrip(WideString(b), c[|t|..]);
  }

  /** A string stored at the start of a buffer is read back. */
  lemma StoredString(b: seq<u8>, s: seq<u32>, t: seq<u8>)
    requires 0 !in s && t == Enc32(s + [0]) && |t| <= |b|
    ensures WideTerminated(Splice(b, 0, t)) && WideString(Splice(b, 0, t)) == s
  {
    var r := Splice(b, 0, t);
    SpliceTail(b, 0, t);
    assert r == r[0..];
    WideRoundTrip(s, b[|t|..]);
  }

  // ---- the conversions ----

  /** Memory after FixWideString has copied the string s to byte `to`. */
  function Narrowed(b: seq<u8>, to: nat, s: seq<u32>): seq<u8>
    requires to + 2 * (|s| + 1) <= |b|
  {
    Splice(b, to, Enc16(NarrowAll(s) + [0]))
  }

  /** Memory after RestoreWideString has copied the string s to byte `to`. */
  function Widened(b: seq<u8>, to: nat, s: seq<u16>): seq<u8>
    requires to + 4 * (|s| + 1) <= |b|
  {
    Splice(b, to, Enc32(WidenAll(s) + [0]))
  }

  /** Memory after the first k units of s (terminator included) are narrowed to byte `to`. */
  ghost function NarrowedPart(b: seq<u8>, to: nat, s: seq<u32>, k: nat): (r: seq<u8>)
    requires k <= |s| + 1 && to + 2 * (|s| + 1) <= |b|
    ensures |r| == |b|
  {
    Splice(b, to, Enc16((NarrowAll(s) + [0])[..k]))
  }

  /** Memory after all but the first k units of s (terminator included) are widened to byte `to`. */
  ghost function WidenedPart(b: seq<u8>, to: nat, s: seq<u16>, k: nat): (r: seq<u8>)
    requires k <= |s| + 1 && to + 4 * (|s| + 1) <= |b|
    ensures |r| == |b|
  {
    Splice(b, to + 4 * k, Enc32((WidenAll(s) + [0])[k..]))
  }

  lemma NarrowStep(b: seq<u8>, to: nat, s: seq<u32>, k: nat)
    requires k <= |s| && to + 2 * (|s| + 1) <= |b|
    ensures Splice(NarrowedPart(b, to, s, k), to + 2 * k, Le16(Narrow((s + [0])[k]))) == NarrowedPart(b, to, s, k + 1)
  {
    var units := NarrowAll(s) + [0];
    var done := Enc16(units[..k]);
    assert Narrow((s + [0])[k]) == units[k];
    SpliceTwice(b, to, done, Le16(units[k]));
    assert |done| == 2 * k;
    Enc16Append(units[..k], [units[k]]);
    assert units[..k + 1] == units[..k] + [units[k]];
    assert Enc16([units[k]]) == Le16(units[k]) + Enc16([]);
    assert Enc16(units[..k + 1]) == done + Le16(units[k]);
  }

  lemma NarrowEnds(b: seq<u8>, to: nat, s: seq<u32>)
    requires to + 2 * (|s| + 1) <= |b|
    ensures NarrowedPart(b, to, s, 0) == b
    ensures NarrowedPart(b, to, s, |s| + 1) == Narrowed(b, to, s)
  {
    var units := NarrowAll(s) + [0];
    assert Enc16(units[..0]) == [] && units[..|units|] == units;
  }

  lemma WidenStep(b: seq<u8>, to: nat, s: seq<u16>, k: nat)
    requires k <= |s| && to + 4 * (|s| + 1) <= |b|
    ensures Splice(WidenedPart(b, to, s, k + 1), to + 4 * k, Le32(Widen((s + [0])[k]))) == WidenedPart(b, to, s, k)
  {
    var units := WidenAll(s) + [0];
    assert Widen((s + [0])[k]) == units[k];
    SpliceBefore(b, to + 4 * k, Le32(units[k]), Enc32(units[k + 1..]));
    assert units[k..][1..] == units[k + 1..];
  }

  lemma WidenEnds(b: seq<u8>, to: nat, s: seq<u16>)
    requires to + 4 * (|s| + 1) <= |b|
    ensures WidenedPart(b, to, s, |s| + 1) == b
    ensures WidenedPart(b, to, s, 0) == Widened(b, to, s)
  {}

  /** Forward narrowing. When both pointers are in one buffer, the destination starts at the
      source, at least one unit before it, or behind its terminator; then no unit is
      overwritten before it is read for the last time. */
  method FixWideString(src: array<u8>, from: nat, dst: array<u8>, to: nat)
    requires from <= src.Length && WideTerminated(src[from..])
    requires to + 2 * (|WideString(src[from..])| + 1) <= dst.Length
    requires src == dst ==> to == from || to + 2 <= from || from + StrSize(WideString(src[from..])) <= to
    modifies dst
    ensures dst[..] == Narrowed(old(dst[..]), to, old(WideString(src[from..])))
  {
    ghost var s := WideString(src[from..]);
    WideUnitsAt(src[..], from);
    assert src[..][from..] == src[from..];
    NarrowUnits(src, from, dst, to, s);
    NarrowEnds(old(dst[..]), to, s);
  }

  ghost predicate HasUnits32(b: seq<u8>, from: nat, s: seq<u32>) {
    && 0 !in s && from + 4 * (|s| + 1) <= |b|
    && forall k :: 0 <= k <= |s| ==> U32(b, from + 4 * k) == (s + [0])[k]
  }

  ghost predicate HasUnits16(b: seq<u8>, from: nat, s: seq<u16>) {
    && 0 !in s && from + 2 * (|s| + 1) <= |b|
    && forall k :: 0 <= k <= |s| ==> U16(b, from + 2 * k) == (s + [0])[k]
  }

  lemma WideUnitsAt(b: seq<u8>, from: nat)
    requires from <= |b| && WideTerminated(b[from..])
    ensures HasUnits32(b, from, WideString(b[from..]))
  {
    forall k | 0 <= k <= |WideString(b[from..])|
      ensures U32(b, from + 4 * k) == (WideString(b[from..]) + [0])[k]
    {
      WideUnit(b[from..], k);
      assert U32(b, from + 4 * k) == U32(b[from..], 4 * k);
    }
  }

  lemma NarrowUnitsAt(b: seq<u8>, from: nat)
    requires from <= |b| && NarrowTerminated(b[from..])
    ensures HasUnits16(b, from, NarrowString(b[from..]))
  {
    forall k | 0 <= k <= |NarrowString(b[from..])|
      ensures U16(b, from + 2 * k) == (NarrowString(b[from..]) + [0])[k]
    {
      NarrowUnit(b[from..], k);
      assert U16(b, from + 2 * k) == U16(b[from..], 2 * k);
    }
  }

  /** Unit k is read a second time, after its narrowed form is stored. Where the store
      overlaps it (the first unit of an in-place conversion), it rewrites the low half
      of the unit with itself. */
  lemma ReadAgain(b: seq<u8>, wc: nat, sc: nat)
    requires wc + 4 <= |b| && sc + 2 <= |b| && (sc == wc || sc + 2 <= wc || wc + 4 <= sc)
    ensures U32(Splice(b, sc, Le16(Narrow(U32(b, wc)))), wc) == U32(b, wc)
  {
    hide Splice, Le16, U16, Narrow;
    var t := Le16(Narrow(U32(b, wc)));
    var r := Splice(b, sc, t);
    SpliceIs(b, sc, t);
    SameUnit(b, r, wc + 2);
    if sc == wc {
      SpliceSlot(b, sc, t);
      ReadsLe16(r, sc, Narrow(U32(b, wc)));
      LowHalf(b, wc);
    } else {
      SameUnit(b, r, wc);
    }
  }

  lemma SameUnit(b: seq<u8>, r: seq<u8>, at: nat)
    requires at + 2 <= |b| == |r| && b[at] == r[at] && b[at + 1] == r[at + 1]
    ensures U16(r, at) == U16(b, at)
  {}

  lemma LowHalf(b: seq<u8>, at: nat)
    requires at + 4 <= |b|
    ensures Narrow(U32(b, at)) == U16(b, at)
  {}

  /** A destination one byte behind the source, which aligned pointers never are, would end
      the conversion after its first unit: the second read finds zero. */
  lemma OneByteBehindStops()
    ensures var b := [0] + Le32(0x41);
            U32(b, 1) == 0x41 && U32(Splice(b, 0, Le16(Narrow(0x41))), 1) == 0
  {
    SpliceIs([0] + Le32(0x41), 0, Le16(0x41));
  }

  /** The loop of FixWideString. The test at its end reads the unit again. */
  method NarrowUnits(src: array<u8>, from: nat, dst: array<u8>, to: nat, ghost s: seq<u32>)
    requires HasUnits32(src[..], from, s) && to + 2 * (|s| + 1) <= dst.Length
    requires src == dst ==> to == from || to + 2 <= from || from + StrSize(s) <= to
    modifies dst
    ensures dst[..] == NarrowedPart(old(dst[..]), to, s, |s| + 1)
  {
    hide Splice, Le16, NarrowedPart, Narrow;
    ghost var was, k := dst[..], 0;
    var wc, sc, more := from, to, true;
    NarrowEnds(was, to, s);
    while more
      invariant k <= |s| + 1 && (more <==> k <= |s|)
      invariant wc == from + 4 * k && sc == to + 2 * k
      invariant dst[..] == NarrowedPart(was, to, s, k)
      invariant forall j :: wc <= j < from + StrSize(s) ==> src[j] == old(src[j])
      decreases |s| + 1 - k
    {
      NarrowStep(was, to, s, k);
      var c := Load32(src, wc);
      assert c == U32(old(src[..]), from + 4 * k) == (s + [0])[k];
      assert k < |s| ==> s[k] in s;
      if src == dst {
        ReadAgain(src[..], wc, sc);
      }
      Store16(dst, sc, Narrow(c));
      sc := sc + 2;
      more := Load32(src, wc) != 0;
      wc := wc + 4;
      k := k + 1;
    }
  }

  /** Backward widening. When both pointers are in one buffer, the destination must not
      start before the source unless it also ends there; then no unit is overwritten
      before it is read. */
  method RestoreWideString(src: array<u8>, from: nat, dst: array<u8>, to: nat)
    requires from <= src.Length && NarrowTerminated(src[from..])
    requires to + 4 * (|NarrowString(src[from..])| + 1) <= dst.Length
    requires src == dst ==> from <= to || to + 4 * (|NarrowString(src[from..])| + 1) <= from
    modifies dst
    ensures dst[..] == Widened(old(dst[..]), to, old(NarrowString(src[from..])))
  {
    ghost var s := NarrowString(src[from..]);
    NarrowUnitsAt(src[..], from);
    assert src[..][from..] == src[from..];
    var length := CountUnits(src, from, s);
    WidenUnits(src, from, dst, to, length, s);
    WidenEnds(old(dst[..]), to, s);
  }

  /** The first loop of RestoreWideString: units up to and including the terminator. */
  method CountUnits(src: array<u8>, from: nat, ghost s: seq<u16>) returns (length: nat)
    requires HasUnits16(src[..], from, s)
    ensures length == |s| + 1
  {
    var sc := from;
    length := 1;
    assert U16(src[..], from + 2 * 0) == (s + [0])[0];
    while Load16(src, sc) != 0
      invariant 1 <= length <= |s| + 1 && sc == from + 2 * (length - 1)
      invariant Load16(src, sc) == (s + [0])[length - 1]
      decreases |s| + 1 - length
    {
      length := length + 1;
      sc := sc + 2;
      assert U16(src[..], from + 2 * (length - 1)) == (s + [0])[length - 1];
    }
    assert forall k :: 0 <= k < |s| ==> s[k] in s;
  }

  /** The second loop of RestoreWideString: from the terminator down to the first unit. */
  method WidenUnits(src: array<u8>, from: nat, dst: array<u8>, to: nat, length: nat, ghost s: seq<u16>)
    requires HasUnits16(src[..], from, s) && length == |s| + 1 && to + 4 * (|s| + 1) <= dst.Length
    requires src == dst ==> from <= to || to + 4 * (|s| + 1) <= from
    modifies dst
    ensures dst[..] == WidenedPart(old(dst[..]), to, s, 0)
  {
    hide Splice, Le32, WidenedPart, Widen;
    ghost var was := dst[..];
    // left counts the units still to be copied; sc and wc point at the last of them.
    var left, sc, wc := length, from + 2 * (length - 1), to + 4 * (length - 1);
    WidenEnds(was, to, s);
    while left > 0
      invariant 0 <= left <= |s| + 1
      invariant sc == from + 2 * (left - 1) && wc == to + 4 * (left - 1)
      invariant dst[..] == WidenedPart(was, to, s, left)
      invariant forall j :: from <= j < sc + 2 ==> src[j] == old(src[j])
    {
      WidenStep(was, to, s, left - 1);
      var c := Load16(src, sc);
      assert c == U16(old(src[..]), from + 2 * (left - 1)) == (s + [0])[left - 1];
      Store32(dst, wc, Widen(c));
      wc := wc - 4;
      sc := sc - 2;
      left := left - 1;
    }
  }

  /** StrSize as the client computes it, by a walk to the terminator. */
  method MeasureString(name: array<u8>) returns (size: nat)
    requires WideTerminated(name[..])
    ensures size == StrSize(WideString(name[..]))
  {
    ghost var s := WideString(name[..]);
    assert name[..][0..] == name[..];
    WideUnitsAt(name[..], 0);
    var length := 0;
    assert forall k :: 0 <= k < |s| ==> s[k] in s;
    assert U32(name[..], 0 + 4 * 0) == (s + [0])[0];
    while Load32(name, 4 * length) != 0
      invariant 0 <= length <= |s|
      invariant Load32(name, 4 * length) == (s + [0])[length]
      decreases |s| - length
    {
      length := length + 1;
      assert U32(name[..], 0 + 4 * length) == (s + [0])[length];
    }
    size := (length + 1) * 4;
  }

  // ---- in place ----

  /** Narrowing a terminated wide string in place and widening it back gives the same
      memory, byte for byte, exactly when every character fits in a signed 16-bit unit. */
  lemma InPlaceRoundTrip(b: seq<u8>, at: nat)
    requires at <= |b| && WideTerminated(b[at..])
    ensures var s := WideString(b[at..]);
            var narrowed := Narrowed(b, at, s);
            var back := NarrowString(narrowed[at..]);
            && NarrowTerminated(narrowed[at..])
            && back == Cut(NarrowAll(s))
            && (AllFit(s) <==> Widened(narrowed, at, back) == b)
  {
    var s := WideString(b[at..]);
    var t := Enc16(NarrowAll(s) + [0]);
    var narrowed := Narrowed(b, at, s);
    var rest := b[at + |t|..];
    SpliceTail(b, at, t);
    NarrowRoundTrip(NarrowAll(s), rest);
    var back := Cut(NarrowAll(s));
    var w := Enc32(WidenAll(back) + [0]);
    var final := Widened(narrowed, at, back);
    WideBytes(b[at..]);
    if AllFit(s) {
      NarrowThenWidenAll(s);
      NoNulls(s);
      assert back == NarrowAll(s) && w == Enc32(s + [0]);
      assert Slot(b, at, w) by { assert b[at..][0..|w|] == b[at..at + |w|]; }
      assert |t| <= |w|;
      SpliceOver(b, at, t, w);
      SpliceSame(b, at, w);
    }
    if final == b {
      SpliceTail(narrowed, at, w);
      WidenThenNarrowAll(back);
      WideRoundTrip(WidenAll(back), narrowed[at + |w|..]);
      assert WidenAll(back) == s;
    }
  }

  lemma NoNulls(s: seq<u32>)
    requires AllFit(s) && 0 !in s
    ensures 0 !in NarrowAll(s)
  {}

  /** Where it fails: U+8000 narrows to a negative unit and comes back as 0xFFFF8000. */
  lemma WideCharacterLost()
    ensures !AllFit([0x8000])
    ensures WidenAll(NarrowAll([0x8000])) == [0xFFFF_8000]
  {
    assert !Fits([0x8000][0]);
  }
}
