/** Base-128 varints: the minimal form, the two fixed-width "overlong" forms and their decoders.
    Shifts and masks are written as division and remainder; `|` of disjoint bit fields is `+`. */
module Varint {
  import opened Bytes

  const TWO16: nat := 0x1_0000
  const TWO32: nat := 0x1_0000_0000
  const TWO63: nat := 0x8000_0000_0000_0000
  const TWO64: nat := 0x1_0000_0000_0000_0000

  /** `x as u64` for a signed 64-bit integer. */
  function AsU64(x: int): nat { x % TWO64 }

  /** `x as i64` for an unsigned 64-bit integer. */
  function AsI64(x: nat): int { if x < TWO63 then x else x - TWO64 }

  predicate IsI64(x: int) { -0x8000_0000_0000_0000 <= x < 0x8000_0000_0000_0000 }

  /** Casting a signed integer to `u64` and back loses nothing. */
  lemma CastRoundTrip(x: int)
    requires IsI64(x)
    ensures AsI64(AsU64(x)) == x && AsU64(x) < TWO64
  {}

  /** `v >> (7 * i)`. */
  function Shift7(v: nat, i: nat): nat {
    if i == 0 then v else Shift7(v / 128, i - 1)
  }

  function Pow128(n: nat): nat {
    if n == 0 then 1 else 128 * Pow128(n - 1)
  }

  // ------------------------------------------------------------ specification

  /** The value of a little-endian string of 7-bit groups (continuation bits ignored). */
  function Groups(s: Blob): nat {
    if s == [] then 0 else s[0] % 128 + 128 * Groups(s[1..])
  }

  /** The minimal encoding. */
  function Minimal(v: nat): Blob {
    if v < 128 then [v] else [v % 128 + 128] + Minimal(v / 128)
  }

  /** The encoding padded to exactly `n` bytes. */
  function Overlong(v: nat, n: nat): Blob
    requires n > 0
    decreases n, v
  {
    if n == 1 then [v % 128] else [v % 128 + 128] + Overlong(v / 128, n - 1)
  }

  /** Continuation bits set on every byte but the last. */
  predicate Terminated(s: Blob) {
    s != [] && s[|s| - 1] < 128 && forall i :: 0 <= i < |s| - 1 ==> s[i] >= 128
  }

  /** Number of leading bytes with the continuation bit set. */
  function Continuations(s: Blob): (n: nat)
    ensures n <= |s|
    ensures forall i :: 0 <= i < n ==> s[i] >= 128
    ensures n < |s| ==> s[n] < 128
  {
    if s == [] || s[0] < 128 then 0 else 1 + Continuations(s[1..])
  }

  /** What the standard decoder reads from the front of `buf`, and how many bytes it consumes. */
  function Decoded(buf: Blob): Option<(nat, nat)> {
    var n := Continuations(buf);
    if n < |buf| && n < 10 then Some((Groups(buf[..n + 1]) % TWO64, n + 1)) else None
  }

  // ------------------------------------------------------------------- lemmas

  lemma SplitGroup(v: nat)
    ensures (v % 128 + 128) % 128 == v % 128
    ensures v == v % 128 + 128 * (v / 128)
    ensures v % 128 < 128
  {}

  lemma QuotientBound(v: nat, p: nat)
    requires v < 128 * p
    ensures v / 128 < p
  {}

  lemma {:induction false} ConsGroup(b: Byte, s: Blob)
    ensures Groups([b] + s) == b % 128 + 128 * Groups(s)
    ensures b >= 128 && Terminated(s) ==> Terminated([b] + s)
  {
    assert ([b] + s)[1..] == s;
    assert b >= 128 && Terminated(s) ==> forall i :: 0 < i < |s| ==> ([b] + s)[i] == s[i - 1];
  }

  lemma PrependGroup(v: nat, rest: Blob)
    requires Terminated(rest) && Groups(rest) == v / 128
    ensures Terminated([v % 128 + 128] + rest) && Groups([v % 128 + 128] + rest) == v
  {
    SplitGroup(v);
    ConsGroup(v % 128 + 128, rest);
  }

  lemma OneGroup(b: Byte)
    requires b < 128
    ensures Terminated([b]) && Groups([b]) == b
  {
    assert [b][1..] == [];
  }

  lemma {:induction false} MinimalShape(v: nat)
    ensures Terminated(Minimal(v)) && Groups(Minimal(v)) == v
  {
    if v >= 128 {
      MinimalShape(v / 128);
      PrependGroup(v, Minimal(v / 128));
    } else {
      OneGroup(v);
    }
  }

  lemma {:induction false} MinimalLength(v: nat, n: nat)
    requires n > 0 && v < Pow128(n)
    ensures 0 < |Minimal(v)| <= n
  {
    if v >= 128 {
      assert Pow128(1) == 128 * Pow128(0);
      QuotientBound(v, Pow128(n - 1));
      MinimalLength(v / 128, n - 1);
    }
  }

  lemma MinimalLengthU64(v: nat)
    requires v < TWO64
    ensures 0 < |Minimal(v)| <= 10
  {
    assert Pow128(10) == 0x40_0000_0000_0000_0000;
    MinimalLength(v, 10);
  }

  lemma {:induction false} OverlongShape(v: nat, n: nat)
    requires n > 0 && v < Pow128(n)
    ensures |Overlong(v, n)| == n && Terminated(Overlong(v, n)) && Groups(Overlong(v, n)) == v
  {
    if n > 1 {
      var rest := Overlong(v / 128, n - 1);
      QuotientBound(v, Pow128(n - 1));
      OverlongShape(v / 128, n - 1);
      PrependGroup(v, rest);
    } else {
      assert Pow128(1) == 128 * Pow128(0);
      OneGroup(v);
    }
  }

  lemma {:induction false} OverlongLength(v: nat, n: nat)
    requires n > 0
    ensures |Overlong(v, n)| == n
  {
    if n > 1 { OverlongLength(v / 128, n - 1); }
  }

  /** The standard decoder stops at the end of a terminated string, whatever follows it. */
  lemma DecodesTerminated(s: Blob, rest: Blob)
    requires Terminated(s) && |s| <= 10
    ensures Decoded(s + rest) == Some((Groups(s) % TWO64, |s|))
  {
    var buf := s + rest;
    var n := Continuations(buf);
    assert buf[|s| - 1] < 128;
    assert forall i :: 0 <= i < |s| ==> buf[i] == s[i];
    assert n == |s| - 1;
    assert buf[..n + 1] == s;
  }

  lemma DecodesTo(s: Blob, v: nat, rest: Blob)
    requires Terminated(s) && |s| <= 10 && Groups(s) == v && v < TWO64
    ensures Decoded(s + rest) == Some((v, |s|))
  {
    assert v % TWO64 == v;
    DecodesTerminated(s, rest);
  }

  /** The standard decoder inverts the minimal encoder on every 64-bit value. */
  lemma MinimalRoundTrip(v: nat, rest: Blob)
    requires v < TWO64
    ensures Decoded(Minimal(v) + rest) == Some((v, |Minimal(v)|))
  {
    MinimalShape(v);
    MinimalLengthU64(v);
    DecodesTo(Minimal(v), v, rest);
  }

  /** Both overlong widths are read back to the same value by the standard decoder. */
  lemma OverlongRoundTrip(v: nat, n: nat, rest: Blob)
    requires 0 < n <= 10 && v < Pow128(n) && v < TWO64
    ensures Decoded(Overlong(v, n) + rest) == Some((v, n))
  {
    OverlongShape(v, n);
    DecodesTo(Overlong(v, n), v, rest);
  }

  /** Either field width at once: five bytes for a `u32`, ten for a `u64`. */
  lemma FieldRoundTrip(v: nat, n: nat, rest: Blob)
    requires (n == 5 && v < TWO32) || (n == 10 && v < TWO64)
    ensures |Overlong(v, n)| == n && Decoded(Overlong(v, n) + rest) == Some((v, n))
  {
    OverlongWidths();
    OverlongLength(v, n);
    OverlongRoundTrip(v, n, rest);
  }

  lemma OverlongWidths()
    ensures Pow128(5) == 0x8_0000_0000 && TWO32 < Pow128(5)
    ensures Pow128(10) == 0x40_0000_0000_0000_0000 && TWO64 < Pow128(10)
  {}

  // ----------------------------------------------- the source's encoding loops

  lemma {:induction false} ShiftStep(v: nat, i: nat)
    ensures Shift7(v, i + 1) == Shift7(v, i) / 128
  {
    if i > 0 { ShiftStep(v / 128, i - 1); }
  }

  lemma {:induction false} OverlongTail(v: nat, n: nat, i: nat)
    requires i < n
    ensures |Overlong(v, n)| == n
    ensures Overlong(v, n)[i..] == Overlong(Shift7(v, i), n - i)
  {
    OverlongLength(v, n);
    if i > 0 {
      OverlongTail(v / 128, n - 1, i - 1);
      assert Overlong(v, n)[i..] == Overlong(v / 128, n - 1)[i - 1..];
    }
  }

  /** The loop shared by the two fixed-width encoders: `groups` bytes with the continuation bit. */
  method EncodeGroups(v: nat, groups: nat) returns (buf: Blob)
    ensures |Overlong(v, groups + 1)| == groups + 1
    ensures buf == Overlong(v, groups + 1)[..groups]
  {
    ghost var all := Overlong(v, groups + 1);
    OverlongLength(v, groups + 1);
    buf := [];
    for i := 0 to groups
      invariant buf == all[..i]
    {
      OverlongTail(v, groups + 1, i);
      assert all[i] == all[i..][0] == Shift7(v, i) % 128 + 128;
      buf := buf + [Shift7(v, i) % 128 + 128];
    }
  }

  /** The last byte carries what is left of the value. */
  lemma OverlongLast(v: nat, groups: nat)
    ensures |Overlong(v, groups + 1)| == groups + 1
    ensures Overlong(v, groups + 1) == Overlong(v, groups + 1)[..groups] + [Shift7(v, groups) % 128]
  {
    OverlongTail(v, groups + 1, groups);
  }

  lemma ShiftU32(v: nat)
    requires v < TWO32
    ensures Shift7(v, 4) < 16
  {
    ShiftStep(v, 3); ShiftStep(v, 2); ShiftStep(v, 1); ShiftStep(v, 0);
  }

  lemma ShiftU64(v: nat)
    requires v < TWO64
    ensures Shift7(v, 9) < 2
  {
    ShiftStep(v, 8); ShiftStep(v, 7); ShiftStep(v, 6); ShiftStep(v, 5); ShiftStep(v, 4);
    ShiftStep(v, 3); ShiftStep(v, 2); ShiftStep(v, 1); ShiftStep(v, 0);
  }

  method EncodeOverlongU32(v: nat) returns (buf: Blob)
    requires v < TWO32
    ensures |buf| == 5 && buf == Overlong(v, 5)
  {
    ShiftU32(v);
    OverlongLast(v, 4);
    buf := EncodeGroups(v, 4);
    buf := buf + [Shift7(v, 4) % 0x10];
  }

  method EncodeOverlongU64(v: nat) returns (buf: Blob)
    requires v < TWO64
    ensures |buf| == 10 && buf == Overlong(v, 10)
  {
    ShiftU64(v);
    OverlongLast(v, 9);
    buf := EncodeGroups(v, 9);
    buf := buf + [Shift7(v, 9) % 2];
  }

  method EncodeVarint(value: nat) returns (buf: Blob)
    requires value < TWO64
    ensures buf == Minimal(value) && |buf| <= 10
  {
    MinimalLengthU64(value);
    buf := [];
    var v := value;
    while v >= 0x80
      invariant buf + Minimal(v) == Minimal(value)
    {
      assert buf + Minimal(v) == (buf + [v % 128 + 128]) + Minimal(v / 128);
      buf := buf + [v % 128 + 128];
      v := v / 128;
    }
    buf := buf + [v];
  }

  // ----------------------------------------------- the source's decoding loops

  lemma {:induction false} GroupsAppend(s: Blob, b: Byte)
    ensures Groups(s + [b]) == Groups(s) + Place(|s|, b)
  {
    if s == [] {
      assert (s + [b])[1..] == [];
    } else {
      GroupsAppend(s[1..], b);
      assert (s + [b])[1..] == s[1..] + [b];
      var p, d := Pow128(|s| - 1), b % 128;
      assert Pow128(|s|) == 128 * p;
      assert 128 * (p * d) == (128 * p) * d;
    }
  }

  /** `(b & 0x7f) << (7 * i)` before it is truncated to the register. */
  function Place(i: nat, b: Byte): nat {
    Pow128(i) * (b % 128)
  }

  lemma AccumulateGroup(register: nat, s: Blob, b: Byte)
    requires register == Groups(s) % TWO64
    ensures (register + Place(|s|, b)) % TWO64 == Groups(s + [b]) % TWO64
  {
    hide Pow128;
    GroupsAppend(s, b);
    var place := Place(|s|, b);
    ModAdd(Groups(s), place);
  }

  lemma ModAdd(a: nat, c: nat)
    ensures (a % TWO64 + c) % TWO64 == (a + c) % TWO64
  {}

  /** Accumulates `n` 7-bit groups in a 64-bit register, dropping what is shifted out. */
  method AccumulateGroups(buf: Blob, n: nat) returns (v: nat)
    requires n <= |buf|
    ensures v == Groups(buf[..n]) % TWO64
  {
    v := 0;
    for i := 0 to n
      invariant v == Groups(buf[..i]) % TWO64
    {
      AccumulateGroup(v, buf[..i], buf[i]);
      assert buf[..i + 1] == buf[..i] + [buf[i]];
      v := (v + Place(i, buf[i])) % TWO64;
    }
  }

  function DecodedU32(buf: Blob): Option<nat> {
    if |buf| < 5 then None else Some(Groups(buf[..5]) % TWO64 % TWO32)
  }

  function DecodedU64(buf: Blob): Option<nat> {
    if |buf| < 10 then None else Some(Groups(buf[..10]) % TWO64)
  }

  method DecodeOverlongU32(buf: Blob) returns (r: Option<nat>)
    ensures r == DecodedU32(buf)
  {
    if |buf| < 5 { return None; }
    var v := AccumulateGroups(buf, 5);
    return Some(v % TWO32);
  }

  method DecodeOverlongU64(buf: Blob) returns (r: Option<nat>)
    ensures r == DecodedU64(buf)
  {
    if |buf| < 10 { return None; }
    var v := AccumulateGroups(buf, 10);
    return Some(v);
  }

  lemma OverlongFront(v: nat, n: nat, rest: Blob)
    requires n > 0 && v < Pow128(n)
    ensures |Overlong(v, n)| == n && Groups((Overlong(v, n) + rest)[..n]) == v
  {
    OverlongShape(v, n);
    assert (Overlong(v, n) + rest)[..n] == Overlong(v, n);
  }

  lemma FixedRoundTrip(v: nat, n: nat, rest: Blob)
    requires (n == 5 && v < TWO32) || (n == 10 && v < TWO64)
    ensures |Overlong(v, n)| == n && Groups((Overlong(v, n) + rest)[..n]) == v
  {
    OverlongWidths();
    OverlongFront(v, n, rest);
  }

  lemma FixedU32(v: nat, n: nat, rest: Blob)
    requires v < TWO32 && n == 5
    ensures |Overlong(v, n)| == n && DecodedU32(Overlong(v, n) + rest) == Some(v)
  {
    FixedRoundTrip(v, n, rest);
  }

  lemma FixedU64(v: nat, n: nat, rest: Blob)
    requires v < TWO64 && n == 10
    ensures |Overlong(v, n)| == n && DecodedU64(Overlong(v, n) + rest) == Some(v)
  {
    FixedRoundTrip(v, n, rest);
  }

  /** The fixed-width decoders read back what the fixed-width encoders wrote. */
  lemma FixedU32RoundTrip(v: nat, rest: Blob)
    requires v < TWO32
    ensures |Overlong(v, 5)| == 5 && DecodedU32(Overlong(v, 5) + rest) == Some(v)
  {
    FixedU32(v, 5, rest);
  }

  lemma FixedU64RoundTrip(v: nat, rest: Blob)
    requires v < TWO64
    ensures |Overlong(v, 10)| == 10 && DecodedU64(Overlong(v, 10) + rest) == Some(v)
  {
    FixedU64(v, 10, rest);
  }

  method DecodeVarint(buf: Blob) returns (r: Option<(nat, nat)>)
    ensures r == Decoded(buf)
  {
    var value, shift := 0, 0;
    for i := 0 to |buf|
      invariant shift == 7 * i && i <= 9
      invariant i <= Continuations(buf)
      invariant value == Groups(buf[..i]) % TWO64
    {
      AccumulateGroup(value, buf[..i], buf[i]);
      assert buf[..i + 1] == buf[..i] + [buf[i]];
      value := (value + Place(i, buf[i])) % TWO64;
      if buf[i] < 0x80 {
        return Some((value, i + 1));
      }
      shift := shift + 7;
      if shift > 63 {
        return None;
      }
    }
    return None;
  }
}
