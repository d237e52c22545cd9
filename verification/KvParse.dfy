/** Reading a `KeyValue` blob back: the one-pass cursor used for sorting, and the tag-driven
    decoder used when a record is replayed. */
module KvParse {
  import opened Bytes
  import opened Varint
  import opened KvCodec

  // --------------------------------------------- readers over the remaining bytes

  function Skip(b: Blob, n: nat): Option<Blob> {
    if n <= |b| then Some(b[n..]) else None
  }

  function Take(b: Blob, n: nat): Option<(Blob, Blob)> {
    if n <= |b| then Some((b[..n], b[n..])) else None
  }

  function TakeVarint(b: Blob): Option<(nat, Blob)> {
    match Decoded(b)
    case None => None
    case Some((v, n)) => if n <= |b| then Some((v, b[n..])) else None
  }

  function TakeU32(b: Blob): Option<(nat, Blob)> {
    var (s, rest) :- Take(b, 5);
    var v :- DecodedU32(s);
    Some((v, rest))
  }

  function TakeU64(b: Blob): Option<(nat, Blob)> {
    var (s, rest) :- Take(b, 10);
    var v :- DecodedU64(s);
    Some((v, rest))
  }

  lemma SkipPrefix(tag: Blob, rest: Blob)
    ensures Skip(tag + rest, |tag|) == Some(rest)
  {}

  lemma TakePrefix(s: Blob, rest: Blob)
    ensures Take(s + rest, |s|) == Some((s, rest))
  {}

  lemma TakeVarintPrefix(v: nat, s: Blob, rest: Blob)
    requires Decoded(s + rest) == Some((v, |s|))
    ensures TakeVarint(s + rest) == Some((v, rest))
  {
    assert (s + rest)[|s|..] == rest;
  }

  lemma TakeLenPrefix(n: nat, rest: Blob)
    requires n < TWO32
    ensures TakeU32(LenField(n) + rest) == Some((n, rest))
  {
    LenFieldRoundTrip(n, []);
    assert LenField(n) + [] == LenField(n);
    TakePrefix(LenField(n), rest);
  }

  lemma TakeU64Prefix(v: nat, rest: Blob)
    requires v < TWO64
    ensures TakeU64(Overlong(v, 10) + rest) == Some((v, rest))
  {
    FixedU64RoundTrip(v, []);
    assert Overlong(v, 10) + [] == Overlong(v, 10);
    TakePrefix(Overlong(v, 10), rest);
  }

  // ----------------------------------------------------------------- parse_kv

  /** The sortable fields of a blob. */
  datatype KvFields = KvFields(key: Blob, createRev: nat, modRev: nat, version: nat, value: Blob)

  /** Fields read front to back; tags are skipped, not checked. */
  function ParsedHead(buf: Blob): Option<(Blob, nat, Blob)> {
    var b1 :- Skip(buf, 1);
    var (keyLen, b2) :- TakeU32(b1);
    var (key, b3) :- Take(b2, keyLen);
    var b4 :- Skip(b3, 1);
    var (createRev, b5) :- TakeVarint(b4);
    Some((key, createRev, b5))
  }

  function ParsedTail(b: Blob): Option<(nat, Blob)> {
    var b1 :- Skip(b, 1);
    var (version, b2) :- TakeVarint(b1);
    var b3 :- Skip(b2, 1);
    var (valueLen, b4) :- TakeU32(b3);
    var (value, b5) :- Take(b4, valueLen);
    Some((version, value))
  }

  function ParsedKv(buf: Blob): Option<KvFields> {
    var (key, createRev, b1) :- ParsedHead(buf);
    var b2 :- Skip(b1, 1);
    var (modRev, b3) :- TakeU64(b2);
    var (version, value) :- ParsedTail(b3);
    Some(KvFields(key, createRev, modRev, version, value))
  }

  lemma ParsedHeadRoundTrip(key: Blob, createRev: nat, rest: Blob)
    requires |key| < TWO32 && createRev < TWO64
    ensures ParsedHead([0x0a] + (LenField(|key|) + (key + ([0x10] + (Minimal(createRev) + rest))))) == Some((key, createRev, rest))
  {
    var r4 := Minimal(createRev) + rest;
    var r3 := [0x10] + r4;
    var r2 := key + r3;
    SkipPrefix([0x0a], LenField(|key|) + r2);
    TakeLenPrefix(|key|, r2);
    TakePrefix(key, r3);
    SkipPrefix([0x10], r4);
    MinimalRoundTrip(createRev, rest);
    TakeVarintPrefix(createRev, Minimal(createRev), rest);
  }

  lemma ParsedTailRoundTrip(value: Blob, version: nat, lease: nat)
    requires |value| < TWO32 && version < TWO64
    ensures ParsedTail(Tail(value, version, lease)) == Some((version, value))
  {
    var r4 := [0x30] + Minimal(lease);
    var r3 := value + r4;
    var r2 := LenField(|value|) + r3;
    var r1 := [0x2a] + r2;
    SkipPrefix([0x20], Minimal(version) + r1);
    MinimalRoundTrip(version, r1);
    TakeVarintPrefix(version, Minimal(version), r1);
    SkipPrefix([0x2a], r2);
    TakeLenPrefix(|value|, r3);
    TakePrefix(value, r4);
  }

  /** One pass over an encoded blob recovers every sortable field. */
  lemma ParseRoundTrip(kv: Kv)
    requires Representable(kv)
    ensures ParsedKv(Encode(kv)) == Some(KvFields(kv.key, kv.createRev, kv.modRev, kv.version, kv.value))
  {
    EncodeSplitsAtKey(kv);
    var tail := Tail(kv.value, kv.version, kv.lease);
    var r2 := Overlong(kv.modRev, 10) + tail;
    var r1 := [0x18] + r2;
    ParsedHeadRoundTrip(kv.key, kv.createRev, r1);
    SkipPrefix([0x18], r2);
    TakeU64Prefix(kv.modRev, tail);
    ParsedTailRoundTrip(kv.value, kv.version, kv.lease);
  }

  /** The cursor the source moves over the blob. */
  class KvCursor {
    const buf: Blob
    var i: nat

    constructor (b: Blob)
      ensures buf == b && i == 0
    {
      buf, i := b, 0;
    }

    ghost predicate Valid()
      reads this
    {
      i <= |buf|
    }

    ghost function Rest(): Blob
      requires Valid()
      reads this
    {
      buf[i..]
    }

    method SkipBytes(n: nat) returns (ok: bool)
      requires Valid()
      modifies this
      ensures ok <==> Skip(old(Rest()), n).Some?
      ensures ok ==> Valid() && Rest() == Skip(old(Rest()), n).value
    {
      i := i + n;
      ok := i <= |buf|;
    }

    method TakeBytes(n: nat) returns (r: Option<Blob>)
      requires Valid()
      modifies this
      ensures Valid() && (r.Some? <==> Take(old(Rest()), n).Some?)
      ensures r.Some? ==> Take(old(Rest()), n) == Some((r.value, Rest()))
    {
      if i + n > |buf| { return None; }
      assert buf[i..][..n] == buf[i..i + n];
      r := Some(buf[i..i + n]);
      i := i + n;
    }

    method ReadVarint() returns (r: Option<nat>)
      requires Valid()
      modifies this
      ensures Valid() && (r.Some? <==> TakeVarint(old(Rest())).Some?)
      ensures r.Some? ==> TakeVarint(old(Rest())) == Some((r.value, Rest()))
    {
      var d := DecodeVarint(buf[i..]);
      if d.None? { return None; }
      i := i + d.value.1;
      return Some(d.value.0);
    }

    method ReadU32() returns (r: Option<nat>)
      requires Valid()
      modifies this
      ensures Valid() && (r.Some? <==> TakeU32(old(Rest())).Some?)
      ensures r.Some? ==> TakeU32(old(Rest())) == Some((r.value, Rest()))
    {
      var s := TakeBytes(5);
      if s.None? { return None; }
      r := DecodeOverlongU32(s.value);
    }

    method ReadU64() returns (r: Option<nat>)
      requires Valid()
      modifies this
      ensures Valid() && (r.Some? <==> TakeU64(old(Rest())).Some?)
      ensures r.Some? ==> TakeU64(old(Rest())) == Some((r.value, Rest()))
    {
      var s := TakeBytes(10);
      if s.None? { return None; }
      r := DecodeOverlongU64(s.value);
    }
  }

  method ParseKv(buf: Blob) returns (r: Option<KvFields>)
    ensures r == ParsedKv(buf)
  {
    var c := new KvCursor(buf);
    var ok := c.SkipBytes(1);
    if !ok { return None; }
    var keyLen := c.ReadU32();
    if keyLen.None? { return None; }
    var key := c.TakeBytes(keyLen.value);
    if key.None? { return None; }
    ok := c.SkipBytes(1);
    if !ok { return None; }
    var createRev := c.ReadVarint();
    if createRev.None? { return None; }
    ok := c.SkipBytes(1);
    if !ok { return None; }
    var modRev := c.ReadU64();
    if modRev.None? { return None; }
    ok := c.SkipBytes(1);
    if !ok { return None; }
    var version := c.ReadVarint();
    if version.None? { return None; }
    ok := c.SkipBytes(1);
    if !ok { return None; }
    var valueLen := c.ReadU32();
    if valueLen.None? { return None; }
    var value := c.TakeBytes(valueLen.value);
    if value.None? { return None; }
    return Some(KvFields(key.value, createRev.value, modRev.value, version.value, value.value));
  }

  // ---------------------------------------------------- tag-driven decoding

  const DEFAULT_KV := Kv([], [], 0, 0, 0, 0)

  /** One field: a tag, then a varint or a length-prefixed byte string. Only the six fields of the
      message are known. */
  function DecodeField(b: Blob, acc: Kv): Option<(Kv, Blob)> {
    var (tag, b1) :- TakeVarint(b);
    if tag == 0x0a || tag == 0x2a then
      var (len, b2) :- TakeVarint(b1);
      var (s, b3) :- Take(b2, len);
      Some((if tag == 0x0a then acc.(key := s) else acc.(value := s), b3))
    else
      var (v, b2) :- TakeVarint(b1);
      if tag == 0x10 then Some((acc.(createRev := v), b2))
      else if tag == 0x18 then Some((acc.(modRev := v), b2))
      else if tag == 0x20 then Some((acc.(version := v), b2))
      else if tag == 0x30 then Some((acc.(lease := v), b2))
      else None
  }

  /** Fields in any order, later ones overriding earlier ones, until the blob is used up. */
  function DecodeFields(b: Blob, acc: Kv): Option<Kv>
    decreases |b|
  {
    if b == [] then Some(acc)
    else
      var (acc', b') :- DecodeField(b, acc);
      if |b'| < |b| then DecodeFields(b', acc') else None
  }

  function DecodeKv(b: Blob): Option<Kv> {
    DecodeFields(b, DEFAULT_KV)
  }

  lemma TakeTag(tag: Byte, rest: Blob)
    requires tag < 128
    ensures TakeVarint([tag] + rest) == Some((tag as nat, rest))
  {
    OneGroup(tag);
    DecodesTerminated([tag], rest);
    TakeVarintPrefix(tag, [tag], rest);
  }

  lemma BytesField(tag: Byte, s: Blob, rest: Blob, acc: Kv)
    requires (tag == 0x0a || tag == 0x2a) && |s| < TWO32
    ensures DecodeFields([tag] + (LenField(|s|) + (s + rest)), acc)
         == DecodeFields(rest, if tag == 0x0a then acc.(key := s) else acc.(value := s))
  {
    TakeTag(tag, LenField(|s|) + (s + rest));
    LenFieldRoundTrip(|s|, s + rest);
    TakeVarintPrefix(|s|, LenField(|s|), s + rest);
    TakePrefix(s, rest);
  }

  /** The accumulator after a numeric field. */
  function SetNumber(acc: Kv, tag: Byte, v: nat): Kv
    requires tag == 0x10 || tag == 0x18 || tag == 0x20 || tag == 0x30
  {
    if tag == 0x10 then acc.(createRev := v)
    else if tag == 0x18 then acc.(modRev := v)
    else if tag == 0x20 then acc.(version := v)
    else acc.(lease := v)
  }

  lemma NumberField(tag: Byte, v: nat, varint: Blob, rest: Blob, acc: Kv)
    requires tag == 0x10 || tag == 0x18 || tag == 0x20 || tag == 0x30
    requires Decoded(varint + rest) == Some((v, |varint|))
    ensures DecodeFields([tag] + (varint + rest), acc) == DecodeFields(rest, SetNumber(acc, tag, v))
  {
    TakeTag(tag, varint + rest);
    TakeVarintPrefix(v, varint, rest);
  }

  lemma DecodeTail(kv: Kv, acc: Kv)
    requires |kv.value| < TWO32 && kv.version < TWO64 && kv.lease < TWO64
    ensures DecodeFields(Tail(kv.value, kv.version, kv.lease), acc)
         == Some(acc.(version := kv.version, value := kv.value, lease := kv.lease))
  {
    var acc1 := acc.(version := kv.version);
    var acc2 := acc1.(value := kv.value);
    var last := [0x30] + Minimal(kv.lease);
    var valueField := [0x2a] + (LenField(|kv.value|) + (kv.value + last));
    MinimalRoundTrip(kv.version, valueField);
    NumberField(0x20, kv.version, Minimal(kv.version), valueField, acc);
    BytesField(0x2a, kv.value, last, acc1);
    MinimalRoundTrip(kv.lease, []);
    NumberField(0x30, kv.lease, Minimal(kv.lease), [], acc2);
    assert Minimal(kv.lease) + [] == Minimal(kv.lease);
  }

  lemma DecodeMiddle(kv: Kv, acc: Kv)
    requires Representable(kv)
    ensures DecodeFields(AfterKey(kv), acc)
         == DecodeFields(Tail(kv.value, kv.version, kv.lease), acc.(createRev := kv.createRev, modRev := kv.modRev))
  {
    var tail := Tail(kv.value, kv.version, kv.lease);
    var modField := [0x18] + (Overlong(kv.modRev, 10) + tail);
    MinimalRoundTrip(kv.createRev, modField);
    NumberField(0x10, kv.createRev, Minimal(kv.createRev), modField, acc);
    FieldRoundTrip(kv.modRev, 10, tail);
    NumberField(0x18, kv.modRev, Overlong(kv.modRev, 10), tail, acc.(createRev := kv.createRev));
  }

  /** The tag-driven decoder recovers every field, overlong varints included. */
  lemma DecodeRoundTrip(kv: Kv)
    requires Representable(kv)
    ensures DecodeKv(Encode(kv)) == Some(kv)
  {
    EncodeSplitsAtKey(kv);
    BytesField(0x0a, kv.key, AfterKey(kv), DEFAULT_KV);
    DecodeMiddle(kv, DEFAULT_KV.(key := kv.key));
    DecodeTail(kv, DEFAULT_KV.(key := kv.key, createRev := kv.createRev, modRev := kv.modRev));
  }

  /** Different messages have different blobs. */
  lemma EncodeInjective(a: Kv, b: Kv)
    requires Representable(a) && Representable(b)
    ensures Encode(a) == Encode(b) <==> a == b
  {
    DecodeRoundTrip(a);
    DecodeRoundTrip(b);
  }
}
