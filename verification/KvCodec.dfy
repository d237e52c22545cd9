/** The `mvccpb.KeyValue` blob: the encoder, the offset accessors and the in-place patch of
    `mod_revision`. */
module KvCodec {
  import opened Bytes
  import opened Varint

  /** The arguments of `encode_kv`, with the four numbers as the `u64` they are cast to. */
  datatype Kv = Kv(key: Blob, value: Blob, createRev: nat, modRev: nat, version: nat, lease: nat)

  /** The field values a 64-bit build can hold, with lengths that fit their prefixes. */
  predicate Representable(kv: Kv) {
    |kv.key| < TWO32 && |kv.value| < TWO32
    && kv.createRev < TWO64 && kv.modRev < TWO64 && kv.version < TWO64 && kv.lease < TWO64
  }

  /** A length prefix: the length `as u32`, five bytes wide. */
  function LenField(n: nat): Blob {
    Overlong(n % TWO32, 5)
  }

  /** The part of the blob before the `mod_revision` varint. */
  function Head(key: Blob, createRev: nat): Blob {
    [0x0a] + (LenField(|key|) + (key + ([0x10] + (Minimal(createRev) + [0x18]))))
  }

  /** The part after it. */
  function Tail(value: Blob, version: nat, lease: nat): Blob {
    [0x20] + (Minimal(version) + ([0x2a] + (LenField(|value|) + (value + ([0x30] + Minimal(lease))))))
  }

  function Encode(kv: Kv): Blob {
    Head(kv.key, kv.createRev) + (Overlong(kv.modRev, 10) + Tail(kv.value, kv.version, kv.lease))
  }

  const KEY_OFFSET: nat := 1

  /** Where the encoder placed the `mod_revision` varint. */
  function ModRevPosition(key: Blob, createRev: nat): nat {
    8 + |key| + |Minimal(createRev)|
  }

  /** The `u16` header field: the position, truncated. */
  function ModRevOffset(kv: Kv): nat {
    ModRevPosition(kv.key, kv.createRev) % TWO16
  }

  lemma LenFieldLength(n: nat)
    ensures |LenField(n)| == 5
  {
    OverlongLength(n % TWO32, 5);
  }

  lemma LenFieldRoundTrip(n: nat, rest: Blob)
    requires n < TWO32
    ensures |LenField(n)| == 5 && Decoded(LenField(n) + rest) == Some((n, 5)) && DecodedU32(LenField(n) + rest) == Some(n)
  {
    assert n % TWO32 == n;
    FieldRoundTrip(n, 5, rest);
    FixedU32RoundTrip(n, rest);
  }

  lemma HeadLength(key: Blob, createRev: nat)
    ensures |Head(key, createRev)| == ModRevPosition(key, createRev)
  {
    LenFieldLength(|key|);
  }

  /** The blob split at the key, as the front-to-back readers see it. */
  lemma EncodeSplitsAtKey(kv: Kv)
    ensures Encode(kv) == [0x0a] + (LenField(|kv.key|) + (kv.key + AfterKey(kv)))
  {
    Regroup([0x0a], LenField(|kv.key|), kv.key, [0x10], Minimal(kv.createRev), [0x18],
            Overlong(kv.modRev, 10) + Tail(kv.value, kv.version, kv.lease));
  }

  function AfterKey(kv: Kv): Blob {
    [0x10] + (Minimal(kv.createRev) + ([0x18] + (Overlong(kv.modRev, 10) + Tail(kv.value, kv.version, kv.lease))))
  }

  lemma Regroup(a: Blob, b: Blob, c: Blob, d: Blob, e: Blob, f: Blob, rest: Blob)
    ensures (a + (b + (c + (d + (e + f))))) + rest == a + (b + (c + (d + (e + (f + rest)))))
  {}

  // ---------------------------------------------------------------- accessors

  function ReadKey(blob: Blob, keyOffset: nat): Option<Blob> {
    if keyOffset >= |blob| then None
    else match Decoded(blob[keyOffset..])
      case None => None
      case Some((len, width)) =>
        var start := keyOffset + width;
        if start + len > |blob| then None else Some(blob[start..start + len])
  }

  /** The revision `as u64`, which is how every caller uses it. */
  function ReadModRevision(blob: Blob, modRevOffset: nat): Option<nat> {
    if modRevOffset + 10 > |blob| then None else DecodedU64(blob[modRevOffset..])
  }

  lemma ReadKeyAfter(tag: Blob, len: Blob, key: Blob, rest: Blob)
    requires Decoded(len + (key + rest)) == Some((|key|, |len|))
    ensures ReadKey(tag + (len + (key + rest)), |tag|) == Some(key)
  {
    var blob := tag + (len + (key + rest));
    assert blob[|tag|..] == len + (key + rest);
    var start := |tag| + |len|;
    assert blob[start..start + |key|] == key;
  }

  /** The key accessor recovers the encoded key. */
  lemma ReadKeyRoundTrip(kv: Kv)
    requires |kv.key| < TWO32
    ensures ReadKey(Encode(kv), KEY_OFFSET) == Some(kv.key)
  {
    EncodeSplitsAtKey(kv);
    LenFieldRoundTrip(|kv.key|, kv.key + AfterKey(kv));
    ReadKeyAfter([0x0a], LenField(|kv.key|), kv.key, AfterKey(kv));
  }

  lemma ReadModRevisionAt(head: Blob, varint: Blob, tail: Blob)
    requires |varint| == 10
    ensures ReadModRevision(head + (varint + tail), |head|) == DecodedU64(varint + tail)
  {
    assert (head + (varint + tail))[|head|..] == varint + tail;
  }

  /** The `mod_revision` accessor recovers the encoded revision when given the real position. */
  lemma ReadModRevisionRoundTrip(kv: Kv)
    requires kv.modRev < TWO64
    ensures ReadModRevision(Encode(kv), ModRevPosition(kv.key, kv.createRev)) == Some(kv.modRev)
  {
    HeadLength(kv.key, kv.createRev);
    var tail := Tail(kv.value, kv.version, kv.lease);
    FixedU64RoundTrip(kv.modRev, tail);
    ReadModRevisionAt(Head(kv.key, kv.createRev), Overlong(kv.modRev, 10), tail);
  }

  // ----------------------------------------------------- in-place patching

  /** `mod_revision_field_offset` as a function of the blob; `None` where the source would index
      out of bounds. */
  function PatchPosition(blob: Blob): Option<nat> {
    if |blob| < 6 then None
    else
      var i := 7 + DecodedU32(blob[1..]).value;
      if i > |blob| then None
      else
        var n := Continuations(blob[i..]);
        if i + n >= |blob| then None else Some(i + n + 2)
  }

  /** The blob with its ten `mod_revision` bytes overwritten. */
  function Patched(blob: Blob, rev: nat): Blob {
    match PatchPosition(blob)
    case None => blob
    case Some(p) => if p + 10 > |blob| then blob else blob[..p] + Overlong(rev, 10) + blob[p + 10..]
  }

  lemma PatchPositionAfter(tag: Blob, len: Blob, key: Blob, tag2: Blob, varint: Blob, rest: Blob)
    requires |tag| == 1 && |len| == 5 && |tag2| == 1 && Terminated(varint)
    requires DecodedU32(len + (key + (tag2 + (varint + rest)))) == Some(|key|)
    ensures PatchPosition(tag + (len + (key + (tag2 + (varint + rest))))) == Some(|key| + |varint| + 8)
  {
    var blob := tag + (len + (key + (tag2 + (varint + rest))));
    assert blob[1..] == len + (key + (tag2 + (varint + rest)));
    var i := 7 + |key|;
    assert blob[i..] == varint + rest;
    ContinuationsOf(varint, rest);
  }

  lemma ContinuationsOf(s: Blob, rest: Blob)
    requires Terminated(s)
    ensures Continuations(s + rest) == |s| - 1
  {
    var buf := s + rest;
    assert forall i :: 0 <= i < |s| ==> buf[i] == s[i];
  }

  /** The hard-coded offset arithmetic agrees with the position the encoder chose, for every key
      length and every width of the `create_revision` varint. */
  lemma PatchPositionIsModRevPosition(kv: Kv)
    requires |kv.key| < TWO32
    ensures PatchPosition(Encode(kv)) == Some(ModRevPosition(kv.key, kv.createRev))
  {
    EncodeSplitsAtKey(kv);
    PatchPositionOf(Encode(kv), kv.key, kv.createRev, [0x18] + (Overlong(kv.modRev, 10) + Tail(kv.value, kv.version, kv.lease)));
  }

  lemma PatchPositionOf(blob: Blob, key: Blob, createRev: nat, rest: Blob)
    requires |key| < TWO32
    requires blob == [0x0a] + (LenField(|key|) + (key + ([0x10] + (Minimal(createRev) + rest))))
    ensures PatchPosition(blob) == Some(ModRevPosition(key, createRev))
  {
    var varint := Minimal(createRev);
    MinimalShape(createRev);
    LenFieldRoundTrip(|key|, key + ([0x10] + (varint + rest)));
    PatchPositionAfter([0x0a], LenField(|key|), key, [0x10], varint, rest);
  }

  lemma OverwriteMiddle(a: Blob, b: Blob, c: Blob, b': Blob)
    requires |b| == |b'|
    ensures var s := a + (b + c); s[..|a|] + b' + s[|a| + |b|..] == a + (b' + c)
  {}

  lemma OverwrittenBytes(kv: Kv, rev: nat)
    ensures var blob, p := Encode(kv), ModRevPosition(kv.key, kv.createRev);
            p + 10 <= |blob| && blob[..p] + Overlong(rev, 10) + blob[p + 10..] == Encode(kv.(modRev := rev))
  {
    HeadLength(kv.key, kv.createRev);
    OverlongLength(kv.modRev, 10);
    OverlongLength(rev, 10);
    OverwriteMiddle(Head(kv.key, kv.createRev), Overlong(kv.modRev, 10),
                    Tail(kv.value, kv.version, kv.lease), Overlong(rev, 10));
  }

  /** Patching equals re-encoding: overwriting `mod_revision` in an encoded blob gives, byte for
      byte, the encoding with the new revision. */
  lemma PatchEqualsReencode(kv: Kv, rev: nat)
    requires |kv.key| < TWO32
    ensures Patched(Encode(kv), rev) == Encode(kv.(modRev := rev))
  {
    PatchPositionIsModRevPosition(kv);
    OverwrittenBytes(kv, rev);
  }

  function FiveMasked(b0: int, b1: int, b2: int, b3: int, b4: int): int {
    b0 % 128 + b1 % 128 * 0x80 + b2 % 128 * 0x4000 + b3 % 128 * 0x20_0000 + b4 % 16 * 0x1000_0000
  }

  function Horner(b0: int, b1: int, b2: int, b3: int, b4: int): int {
    b0 % 128 + 128 * (b1 % 128 + 128 * (b2 % 128 + 128 * (b3 % 128 + 128 * (b4 % 128))))
  }

  lemma FiveGroups(s: Blob)
    requires |s| == 5
    ensures Groups(s) == Horner(s[0], s[1], s[2], s[3], s[4])
  {
    assert s[1..][1..] == s[2..] && s[2..][1..] == s[3..] && s[3..][1..] == s[4..] && s[4..][1..] == [];
    assert Groups(s[4..]) == s[4] % 128;
    assert Groups(s[3..]) == s[3] % 128 + 128 * Groups(s[4..]);
    assert Groups(s[2..]) == s[2] % 128 + 128 * Groups(s[3..]);
    assert Groups(s[1..]) == s[1] % 128 + 128 * Groups(s[2..]);
  }

  lemma DropHighPart(low: nat, q: nat)
    requires low < TWO32 && q < 8
    ensures (low + TWO32 * q) % TWO64 % TWO32 == low
  {
    var x := low + TWO32 * q;
    assert x < TWO64;
    assert x % TWO64 == x;
  }

  lemma TopGroup(b4: int)
    requires 0 <= b4 < 256
    ensures b4 % 128 == 16 * (b4 % 128 / 16) + b4 % 16 && 0 <= b4 % 128 / 16 < 8
  {}

  lemma SplitHorner(a: int, b: int, c: int, d: int, low: int, q: int)
    ensures a + 128 * (b + 128 * (c + 128 * (d + 128 * (16 * q + low))))
         == a + b * 0x80 + c * 0x4000 + d * 0x20_0000 + low * 0x1000_0000 + TWO32 * q
  {}

  lemma HornerMasked(b0: int, b1: int, b2: int, b3: int, b4: int)
    requires 0 <= b4 < 256
    ensures Horner(b0, b1, b2, b3, b4) % TWO64 % TWO32 == FiveMasked(b0, b1, b2, b3, b4)
  {
    var q, low := b4 % 128 / 16, b4 % 16;
    TopGroup(b4);
    var a, b, c, d := b0 % 128, b1 % 128, b2 % 128, b3 % 128;
    SplitHorner(a, b, c, d, low, q);
    var masked := a + b * 0x80 + c * 0x4000 + d * 0x20_0000 + low * 0x1000_0000;
    assert 0 <= masked < TWO32;
    DropHighPart(masked, q);
  }

  lemma FiveMaskedValue(b: Blob)
    requires |b| >= 5
    ensures DecodedU32(b) == Some(FiveMasked(b[0], b[1], b[2], b[3], b[4]))
  {
    FiveGroups(b[..5]);
    HornerMasked(b[0], b[1], b[2], b[3], b[4]);
  }

  /** Advance to the first byte without a continuation bit. */
  method SkipContinuations(blob: Blob, first: nat) returns (i: nat)
    requires first <= |blob| && Continuations(blob[first..]) < |blob| - first
    ensures i == first + Continuations(blob[first..])
  {
    i := first;
    ghost var n := Continuations(blob[first..]);
    assert forall j :: 0 <= j < |blob| - first ==> blob[first..][j] == blob[first + j];
    while blob[i] >= 0x80
      invariant first <= i <= first + n < |blob|
      decreases |blob| - i
    {
      i := i + 1;
    }
  }

  /** The source's offset computation: five masked bytes, then a walk to the terminating byte. */
  method ModRevisionFieldOffset(blob: Blob, ghost kv: Kv) returns (p: nat)
    requires blob == Encode(kv) && |kv.key| < TWO32
    ensures p == ModRevPosition(kv.key, kv.createRev)
  {
    PatchPositionIsModRevPosition(kv);
    FiveMaskedValue(blob[1..]);
    var keyLen := FiveMasked(blob[1], blob[2], blob[3], blob[4], blob[5]);
    var i := SkipContinuations(blob, 1 + 5 + keyLen + 1);
    p := i + 2;
  }

  /** `copy_from_slice` into ten bytes of a buffer. */
  method OverwriteTen(buf: array<Byte>, offset: nat, bytes: Blob)
    requires |bytes| == 10 && offset + 10 <= buf.Length
    modifies buf
    ensures buf[..] == old(buf[..offset]) + bytes + old(buf[offset + 10..])
  {
    for j := 0 to 10
      invariant forall i :: 0 <= i < buf.Length ==>
                  buf[i] == if offset <= i < offset + j then bytes[i - offset] else old(buf[i])
    {
      buf[offset + j] := bytes[j];
    }
  }

  /** Copy a blob and overwrite ten bytes of the copy. */
  method CopyAndOverwrite(blob: Blob, offset: nat, bytes: Blob) returns (out: Blob)
    requires |bytes| == 10 && offset + 10 <= |blob|
    ensures out == blob[..offset] + bytes + blob[offset + 10..]
  {
    var copy := new Byte[|blob|](i requires 0 <= i < |blob| => blob[i]);
    assert copy[..] == blob;
    OverwriteTen(copy, offset, bytes);
    out := copy[..];
  }

  /** The source's copy-and-overwrite of the `mod_revision` bytes. */
  method WithModRevision(blob: Blob, rev: nat, ghost kv: Kv) returns (out: Blob)
    requires blob == Encode(kv) && |kv.key| < TWO32 && rev < TWO64
    ensures out == Encode(kv.(modRev := rev))
  {
    OverwrittenBytes(kv, rev);
    var offset := ModRevisionFieldOffset(blob, kv);
    var bytes := EncodeOverlongU64(rev);
    out := CopyAndOverwrite(blob, offset, bytes);
  }

  // ----------------------------------------------------------------- an example

  lemma PaddedByte(v: nat, n: nat)
    requires v < 128 && n > 1
    ensures Overlong(v, n) == [v + 128] + Overlong(0, n - 1)
  {}

  lemma PaddedZeros()
    ensures Overlong(0, 4) == [0x80, 0x80, 0x80, 0x00]
    ensures Overlong(0, 9) == [0x80, 0x80, 0x80, 0x80, 0x80, 0x80, 0x80, 0x80, 0x00]
  {
    assert Overlong(0, 1) == [0];
    PaddedByte(0, 2);
    PaddedByte(0, 3);
    PaddedByte(0, 4);
    PaddedByte(0, 5);
    PaddedByte(0, 6);
    PaddedByte(0, 7);
    PaddedByte(0, 8);
    PaddedByte(0, 9);
  }

  lemma ExampleParts()
    ensures Overlong(2, 10) == [0x82, 0x80, 0x80, 0x80, 0x80, 0x80, 0x80, 0x80, 0x80, 0x00]
    ensures Head([0x61], 1) == [0x0a, 0x81, 0x80, 0x80, 0x80, 0x00, 0x61, 0x10, 0x01, 0x18]
    ensures Tail([0x62], 3, 4) == [0x20, 0x03, 0x2a, 0x81, 0x80, 0x80, 0x80, 0x00, 0x62, 0x30, 0x04]
  {
    hide Overlong;
    PaddedZeros();
    PaddedByte(1, 5);
    PaddedByte(2, 10);
    assert Minimal(1) == [1] && Minimal(3) == [3] && Minimal(4) == [4];
    var len: Blob := [0x81, 0x80, 0x80, 0x80, 0x00];
    assert LenField(1) == len;
  }

  /** The layout by example: key "a", value "b", created at 1, modified at 2, version 3, lease 4. */
  lemma EncodedExample()
    ensures Encode(Kv([0x61], [0x62], 1, 2, 3, 4))
         == [0x0a, 0x81, 0x80, 0x80, 0x80, 0x00, 0x61, 0x10, 0x01, 0x18]
            + ([0x82, 0x80, 0x80, 0x80, 0x80, 0x80, 0x80, 0x80, 0x80, 0x00]
               + [0x20, 0x03, 0x2a, 0x81, 0x80, 0x80, 0x80, 0x00, 0x62, 0x30, 0x04])
  {
    hide Head, Tail, Overlong;
    ExampleParts();
  }
}
