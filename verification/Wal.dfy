/** The write-ahead log on disk: framed, checksummed records and the scanner that reads them. */
module Wal {
  import opened Bytes
  import opened Varint
  import opened KvCodec
  import opened Seqs
  import opened Scanner
  import Crc32c

  const DELETED: Byte := 0x01
  const IS_CREATE: Byte := 0x02
  const HAS_LEASE: Byte := 0x04
  const HEADER_SIZE: nat := 9
  const CRC_SIZE: nat := 4
  const MIN_RECORD: nat := HEADER_SIZE + CRC_SIZE

  /** What a writer asks to be logged: the arguments of `KvWalRecord::new`. */
  datatype Record = Record(flags: Byte, key: Blob, value: Blob, createRev: nat, modRev: nat, version: nat, lease: int)

  predicate Deleted(r: Record) { r.flags % 2 == 1 }

  function KvOf(r: Record): Kv {
    Kv(r.key, r.value, r.createRev, r.modRev, r.version, AsU64(r.lease))
  }

  /** The record's `KeyValue` blob. */
  function KvBytes(r: Record): Blob {
    Encode(KvOf(r))
  }

  /** The framed record as it is held in memory. */
  datatype KvWalRecord = KvWalRecord(flags: Byte, kvBytes: Blob, keyOffset: nat, modRevOffset: nat, recLen: nat, crc: nat)

  datatype WalError = TooShort | RecLenTooSmall | PastBuffer | CrcMismatch | OffsetOutOfBounds

  // -------------------------------------------------------- little-endian ints

  function U16Bytes(v: nat): Blob { [v % 256, v / 256 % 256] }

  function U32Bytes(v: nat): Blob { [v % 256, v / 256 % 256, v / 256 / 256 % 256, v / 256 / 256 / 256 % 256] }

  function U16Of(b0: int, b1: int): int { b0 + 256 * b1 }

  function U32Of(b0: int, b1: int, b2: int, b3: int): int { b0 + 0x100 * b1 + 0x1_0000 * b2 + 0x100_0000 * b3 }

  lemma U16RoundTrip(v: nat)
    requires v < TWO16
    ensures U16Of(v % 256, v / 256 % 256) == v
  {}

  lemma U32RoundTrip(v: nat)
    requires v < TWO32
    ensures U32Of(v % 256, v / 256 % 256, v / 256 / 256 % 256, v / 256 / 256 / 256 % 256) == v
  {
    var q1 := v / 256;
    var q2 := q1 / 256;
    var q3 := q2 / 256;
    assert v == v % 256 + 256 * q1 && q1 == q1 % 256 + 256 * q2 && q2 == q2 % 256 + 256 * q3;
    assert q3 < 256;
  }

  // ------------------------------------------------------------------- framing

  function Header(flags: Byte, keyOffset: nat, modRevOffset: nat, recLen: nat): Blob {
    [flags] + U16Bytes(keyOffset) + U16Bytes(modRevOffset) + U32Bytes(recLen)
  }

  function AsNat(crc: bv32): (n: nat)
    ensures n < TWO32
  {
    crc as int
  }

  function Crc(data: Blob): nat { AsNat(Crc32c.Checksum(data)) }

  function RecLen(r: Record): nat { MIN_RECORD + |KvBytes(r)| }

  /** `KvWalRecord::new`: encode, then checksum the header fields and the blob piece by piece. */
  function NewRecord(r: Record): KvWalRecord {
    var kvBytes := KvBytes(r);
    var recLen := RecLen(r) % TWO32;
    var c0 := Crc32c.Checksum([r.flags]);
    var c1 := Crc32c.Append(c0, U16Bytes(KEY_OFFSET));
    var c2 := Crc32c.Append(c1, U16Bytes(ModRevOffset(KvOf(r))));
    var c3 := Crc32c.Append(c2, U32Bytes(recLen));
    var c4 := Crc32c.Append(c3, kvBytes);
    KvWalRecord(r.flags, kvBytes, KEY_OFFSET, ModRevOffset(KvOf(r)), recLen, AsNat(c4))
  }

  function Serialize(w: KvWalRecord): Blob {
    Header(w.flags, w.keyOffset, w.modRevOffset, w.recLen) + (w.kvBytes + U32Bytes(w.crc))
  }

  function SerializeRecord(r: Record): Blob { Serialize(NewRecord(r)) }

  /** The log file after appending `recs` to an empty file. */
  function SerializeAll(recs: seq<Record>): Blob {
    Flatten(Map(SerializeRecord, recs))
  }

  function Deserialize(data: Blob): Result<(KvWalRecord, nat), WalError> {
    if |data| < MIN_RECORD then Err(TooShort)
    else
      var recLen := U32Of(data[5], data[6], data[7], data[8]);
      if recLen < MIN_RECORD then Err(RecLenTooSmall)
      else if recLen > |data| then Err(PastBuffer)
      else
        var kvEnd := recLen - CRC_SIZE;
        var kvBytes := data[HEADER_SIZE..kvEnd];
        var stored := U32Of(data[kvEnd], data[kvEnd + 1], data[kvEnd + 2], data[kvEnd + 3]);
        var keyOffset := U16Of(data[1], data[2]);
        var modRevOffset := U16Of(data[3], data[4]);
        if Crc(data[..kvEnd]) != stored then Err(CrcMismatch)
        else if keyOffset >= |kvBytes| || modRevOffset + 10 > |kvBytes| then Err(OffsetOutOfBounds)
        else Ok((KvWalRecord(data[0], kvBytes, keyOffset, modRevOffset, recLen, stored), recLen))
  }

  // ------------------------------------------------------------------ scanning

  /** `read_exact` of a header, then of the body it announces, then decoding. */
  function ReadOne(b: Blob): ReadStep<KvWalRecord> {
    if |b| < HEADER_SIZE then End
    else
      var recLen := U32Of(b[5], b[6], b[7], b[8]);
      if recLen < MIN_RECORD then Fail
      else if recLen > |b| then End
      else match Deserialize(b[..recLen])
        case Err(_) => End
        case Ok((rec, consumed)) => Got(rec, consumed)
  }

  lemma ReadOneProgresses()
    ensures Progressing(ReadOne)
  {}

  /** What the log scanner reads from the bytes that remain in the file. */
  ghost function Scan(b: Blob): Scanned<KvWalRecord> {
    ReadOneProgresses();
    ScanWith(ReadOne, b)
  }

  method ScanKvFile(file: Blob, offset: nat) returns (scanned: Scanned<KvWalRecord>)
    ensures scanned == Scan(From(file, offset))
  {
    ReadOneProgresses();
    scanned := ScanLoop(ReadOne, From(file, offset));
  }

  /** Records counted by header lengths alone. */
  function Count(b: Blob): nat
    decreases |b|
  {
    if |b| < MIN_RECORD then 0
    else
      var recLen := U32Of(b[5], b[6], b[7], b[8]);
      if recLen < MIN_RECORD || recLen > |b| then 0 else 1 + Count(b[recLen..])
  }

  method CountWalRecords(data: Blob) returns (count: nat)
    ensures count == Count(data)
  {
    count := 0;
    var ofs := 0;
    while ofs + HEADER_SIZE + CRC_SIZE <= |data|
      invariant ofs <= |data| && count + Count(data[ofs..]) == Count(data)
      decreases |data| - ofs
    {
      var recLen := U32Of(data[ofs + 5], data[ofs + 6], data[ofs + 7], data[ofs + 8]);
      if recLen < HEADER_SIZE + CRC_SIZE || recLen > |data| - ofs { break; }
      assert data[ofs..][recLen..] == data[ofs + recLen..];
      count := count + 1;
      ofs := ofs + recLen;
    }
  }

  // ---------------------------------------------------------- framing theorems

  /** The record's length fits the header's 32-bit length field. */
  predicate Framable(r: Record) { RecLen(r) < TWO32 }

  lemma SerializeAllConcat(a: seq<Record>, b: seq<Record>)
    ensures SerializeAll(a + b) == SerializeAll(a) + SerializeAll(b)
  {
    FlatMapConcat(SerializeRecord, a, b);
  }

  /** Appending one record extends the file by its serialized form. */
  lemma SerializeAllSnoc(a: seq<Record>, r: Record)
    ensures SerializeAll(a + [r]) == SerializeAll(a) + SerializeRecord(r)
  {
    FlatMapConcat(SerializeRecord, a, [r]);
    FlatMapSingle(SerializeRecord, r);
  }

  /** The piecewise checksum is the checksum of the bytes written before it. */
  lemma PiecewiseCrc(r: Record)
    ensures var w := NewRecord(r);
            w.crc == Crc(Header(w.flags, w.keyOffset, w.modRevOffset, w.recLen) + w.kvBytes)
  {
    var w := NewRecord(r);
    PiecewiseChecksum([w.flags], U16Bytes(w.keyOffset), U16Bytes(w.modRevOffset), U32Bytes(w.recLen), w.kvBytes);
  }

  lemma PiecewiseChecksum(a: Blob, b: Blob, c: Blob, d: Blob, e: Blob)
    ensures Crc32c.Append(Crc32c.Append(Crc32c.Append(Crc32c.Append(Crc32c.Checksum(a), b), c), d), e)
         == Crc32c.Checksum(a + b + c + d + e)
  {
    Crc32c.AppendLaw(0, a, b);
    Crc32c.AppendLaw(0, a + b, c);
    Crc32c.AppendLaw(0, a + b + c, d);
    Crc32c.AppendLaw(0, a + b + c + d, e);
  }

  lemma HeaderFields(flags: Byte, keyOffset: nat, modRevOffset: nat, recLen: nat)
    requires keyOffset < TWO16 && modRevOffset < TWO16 && recLen < TWO32
    ensures var h := Header(flags, keyOffset, modRevOffset, recLen);
            |h| == HEADER_SIZE && h[0] == flags && U16Of(h[1], h[2]) == keyOffset
            && U16Of(h[3], h[4]) == modRevOffset && U32Of(h[5], h[6], h[7], h[8]) == recLen
  {
    U16RoundTrip(keyOffset);
    U16RoundTrip(modRevOffset);
    U32RoundTrip(recLen);
  }

  lemma U32Trailer(pre: Blob, v: nat)
    requires v < TWO32
    ensures var d, n := pre + U32Bytes(v), |pre|; U32Of(d[n], d[n + 1], d[n + 2], d[n + 3]) == v
  {
    U32RoundTrip(v);
  }

  /** A well-formed frame decodes to its parts. */
  lemma DeserializeFrame(h: Blob, kv: Blob, w: KvWalRecord)
    requires |h| == HEADER_SIZE && h[0] == w.flags && kv == w.kvBytes && w.recLen == MIN_RECORD + |kv|
    requires U16Of(h[1], h[2]) == w.keyOffset && U16Of(h[3], h[4]) == w.modRevOffset
    requires U32Of(h[5], h[6], h[7], h[8]) == w.recLen
    requires w.crc == Crc(h + kv) && w.crc < TWO32
    requires w.keyOffset < |kv| && w.modRevOffset + 10 <= |kv|
    ensures Deserialize(h + (kv + U32Bytes(w.crc))) == Ok((w, w.recLen))
  {
    var data := h + (kv + U32Bytes(w.crc));
    var kvEnd := w.recLen - CRC_SIZE;
    assert data == (h + kv) + U32Bytes(w.crc);
    U32Trailer(h + kv, w.crc);
    assert data[..kvEnd] == h + kv && data[HEADER_SIZE..kvEnd] == kv;
    assert forall i :: 0 <= i < 9 ==> data[i] == h[i];
  }

  lemma OffsetsInBounds(kv: Kv)
    ensures KEY_OFFSET < |Encode(kv)| && ModRevOffset(kv) + 10 <= |Encode(kv)|
  {
    HeadLength(kv.key, kv.createRev);
    OverlongLength(kv.modRev, 10);
  }

  /** What `KvWalRecord::new` establishes about a record whose length fits the header. */
  predicate WellFramed(w: KvWalRecord) {
    w.keyOffset < TWO16 && w.modRevOffset < TWO16 && w.recLen < TWO32 && w.crc < TWO32
    && w.recLen == MIN_RECORD + |w.kvBytes| && w.keyOffset < |w.kvBytes| && w.modRevOffset + 10 <= |w.kvBytes|
    && w.crc == Crc(Header(w.flags, w.keyOffset, w.modRevOffset, w.recLen) + w.kvBytes)
  }

  lemma NewIsWellFramed(r: Record)
    requires Framable(r)
    ensures WellFramed(NewRecord(r)) && NewRecord(r).recLen == RecLen(r)
  {
    PiecewiseCrc(r);
    OffsetsInBounds(KvOf(r));
    NewFields(r);
  }

  lemma NewFields(r: Record)
    requires Framable(r)
    ensures var w := NewRecord(r);
            w.flags == r.flags && w.kvBytes == KvBytes(r) && w.keyOffset == KEY_OFFSET
            && w.modRevOffset == ModRevOffset(KvOf(r)) < TWO16
            && w.recLen == RecLen(r) == MIN_RECORD + |w.kvBytes| && w.crc < TWO32
  {
    assert RecLen(r) % TWO32 == RecLen(r);
  }

  lemma FrameRoundTrip(w: KvWalRecord)
    requires WellFramed(w)
    ensures var s := Serialize(w);
            |s| == w.recLen && U32Of(s[5], s[6], s[7], s[8]) == |s| && Deserialize(s) == Ok((w, |s|))
  {
    var h := Header(w.flags, w.keyOffset, w.modRevOffset, w.recLen);
    HeaderFields(w.flags, w.keyOffset, w.modRevOffset, w.recLen);
    DeserializeFrame(h, w.kvBytes, w);
    SerializedHeader(h, w.kvBytes + U32Bytes(w.crc));
  }

  lemma SerializedHeader(h: Blob, rest: Blob)
    requires |h| == HEADER_SIZE
    ensures var s := h + rest; s[5] == h[5] && s[6] == h[6] && s[7] == h[7] && s[8] == h[8]
  {}

  /** A complete frame: its header announces its own length and it decodes to `w`. */
  predicate Complete(s: Blob, w: KvWalRecord) {
    |s| >= MIN_RECORD && U32Of(s[5], s[6], s[7], s[8]) == |s| && Deserialize(s) == Ok((w, |s|))
  }

  lemma RecordRoundTrip(r: Record)
    requires Framable(r)
    ensures |SerializeRecord(r)| == RecLen(r) && Complete(SerializeRecord(r), NewRecord(r))
  {
    NewIsWellFramed(r);
    FrameRoundTrip(NewRecord(r));
  }

  lemma DeserializeIgnoresRest(s: Blob, w: KvWalRecord, rest: Blob)
    requires Complete(s, w)
    ensures Deserialize(s + rest) == Ok((w, |s|))
  {
    hide Crc, U32Of, U16Of;
    PrefixSlices(s, rest, |s| - CRC_SIZE);
  }

  /** What the decoder looks at in a frame does not depend on what follows it. */
  lemma PrefixSlices(s: Blob, rest: Blob, kvEnd: nat)
    requires |s| >= MIN_RECORD && kvEnd == |s| - CRC_SIZE
    ensures var d := s + rest;
            d[..kvEnd] == s[..kvEnd] && d[HEADER_SIZE..kvEnd] == s[HEADER_SIZE..kvEnd]
            && d[0] == s[0] && d[1] == s[1] && d[2] == s[2] && d[3] == s[3] && d[4] == s[4]
            && d[5] == s[5] && d[6] == s[6] && d[7] == s[7] && d[8] == s[8]
            && d[kvEnd] == s[kvEnd] && d[kvEnd + 1] == s[kvEnd + 1] && d[kvEnd + 2] == s[kvEnd + 2] && d[kvEnd + 3] == s[kvEnd + 3]
  {}

  /** Deserializing a serialized record, whatever follows it, gives the record and its length back. */
  lemma DeserializeSerialized(r: Record, rest: Blob)
    requires Framable(r)
    ensures Deserialize(SerializeRecord(r) + rest) == Ok((NewRecord(r), RecLen(r)))
  {
    hide Deserialize, NewRecord, Serialize;
    RecordRoundTrip(r);
    DeserializeIgnoresRest(SerializeRecord(r), NewRecord(r), rest);
  }

  lemma ReadFrame(s: Blob, w: KvWalRecord, rest: Blob)
    requires Complete(s, w)
    ensures ReadOne(s + rest) == Got(w, |s|)
  {
    assert (s + rest)[..|s|] == s;
  }

  lemma RecordIsFrame(r: Record)
    requires Framable(r)
    ensures IsFrame(ReadOne, SerializeRecord(r), NewRecord(r))
  {
    RecordRoundTrip(r);
    forall rest ensures ReadOne(SerializeRecord(r) + rest) == Got(NewRecord(r), |SerializeRecord(r)|) {
      ReadFrame(SerializeRecord(r), NewRecord(r), rest);
    }
  }

  /** A strict prefix of a serialized record: what a crash in the middle of a write leaves. */
  ghost predicate TornWrite(torn: Blob) {
    exists r :: Framable(r) && torn < SerializeRecord(r)
  }

  lemma TornEndsScan(torn: Blob)
    requires TornWrite(torn)
    ensures ReadOne(torn) == End && Count(torn) == 0
  {
    var r :| Framable(r) && torn < SerializeRecord(r);
    RecordRoundTrip(r);
    TornStrictPrefix(SerializeRecord(r), torn);
  }

  lemma TornStrictPrefix(s: Blob, torn: Blob)
    requires |s| >= MIN_RECORD && U32Of(s[5], s[6], s[7], s[8]) == |s| && torn < s
    ensures ReadOne(torn) == End && Count(torn) == 0
  {
    assert forall i :: 0 <= i < |torn| ==> torn[i] == s[i];
  }

  /** Torn-tail recovery: scanning any serialized records followed by nothing or by a torn write
      yields exactly the complete records and the offset where they end. */
  lemma ScanRecovers(recs: seq<Record>, torn: Blob)
    requires forall r :: r in recs ==> Framable(r)
    requires torn == [] || TornWrite(torn)
    ensures Scan(SerializeAll(recs) + torn) == Scanned(Map(NewRecord, recs), |SerializeAll(recs)|, false)
  {
    var frames, news := Map(SerializeRecord, recs), Map(NewRecord, recs);
    ReadOneProgresses();
    forall i | 0 <= i < |frames| ensures IsFrame(ReadOne, frames[i], news[i]) { RecordIsFrame(recs[i]); }
    ScanFrames(ReadOne, frames, news, torn);
    if torn != [] { TornEndsScan(torn); }
    ContinuedEnds(ReadOne, news, |SerializeAll(recs)|, torn);
  }

  lemma CountFrame(s: Blob, rest: Blob)
    requires |s| >= MIN_RECORD && U32Of(s[5], s[6], s[7], s[8]) == |s|
    ensures Count(s + rest) == 1 + Count(rest)
  {
    assert (s + rest)[|s|..] == rest;
    assert forall i :: 0 <= i < |s| ==> (s + rest)[i] == s[i];
  }

  lemma {:induction false} CountFrames(frames: seq<Blob>, torn: Blob)
    requires forall s :: s in frames ==> |s| >= MIN_RECORD && U32Of(s[5], s[6], s[7], s[8]) == |s|
    requires Count(torn) == 0
    ensures Count(Flatten(frames) + torn) == |frames|
  {
    if frames == [] {
      assert Flatten(frames) + torn == torn;
    } else {
      CountFrames(frames[1..], torn);
      Associative(frames[0], Flatten(frames[1..]), torn);
      CountFrame(frames[0], Flatten(frames[1..]) + torn);
    }
  }

  /** The header-only count agrees with the scan on every log, torn tail included. */
  lemma CountAgreesWithScan(recs: seq<Record>, torn: Blob)
    requires forall r :: r in recs ==> Framable(r)
    requires torn == [] || TornWrite(torn)
    ensures Count(SerializeAll(recs) + torn) == |recs| == |Scan(SerializeAll(recs) + torn).records|
  {
    var frames := Map(SerializeRecord, recs);
    forall s | s in frames ensures |s| >= MIN_RECORD && U32Of(s[5], s[6], s[7], s[8]) == |s| {
      var i :| 0 <= i < |frames| && frames[i] == s;
      RecordRoundTrip(recs[i]);
    }
    if torn != [] { TornEndsScan(torn); }
    CountFrames(frames, torn);
    ScanRecovers(recs, torn);
  }

  // ----------------------------------------------------------------- accessors

  function RecordKey(w: KvWalRecord): Option<Blob> { ReadKey(w.kvBytes, w.keyOffset) }

  /** `mod_revision().unwrap_or(0) as u64`. */
  function RecordRev(w: KvWalRecord): nat { ReadModRevision(w.kvBytes, w.modRevOffset).UnwrapOr(0) }

  /** Records whose fields all fit their encodings: 32-bit lengths, 64-bit numbers, and a
      `mod_revision` position that fits the 16-bit header offset. */
  predicate Fits(r: Record) {
    Framable(r) && Representable(KvOf(r)) && IsI64(r.lease) && ModRevPosition(r.key, r.createRev) < TWO16
  }

  /** Within those bounds the offset accessors recover key and revision. */
  lemma AccessorsExact(r: Record)
    requires Fits(r)
    ensures RecordKey(NewRecord(r)) == Some(r.key) && RecordRev(NewRecord(r)) == r.modRev
  {
    NewFields(r);
    ReadsBack(NewRecord(r), KvOf(r));
  }

  lemma ReadsBack(w: KvWalRecord, kv: Kv)
    requires w.kvBytes == Encode(kv) && w.keyOffset == KEY_OFFSET && w.modRevOffset == ModRevOffset(kv)
    requires Representable(kv) && ModRevPosition(kv.key, kv.createRev) < TWO16
    ensures RecordKey(w) == Some(kv.key) && RecordRev(w) == kv.modRev
  {
    assert w.modRevOffset == ModRevPosition(kv.key, kv.createRev);
    ReadKeyRoundTrip(kv);
    ReadModRevisionRoundTrip(kv);
  }

  /** The bytes read past the 16-bit bound lie in the part before the revision. */
  lemma WrappedOffsetMissesRevision(kv: Kv, rev: nat)
    requires ModRevPosition(kv.key, kv.createRev) >= TWO16
    ensures ReadModRevision(Encode(kv.(modRev := rev)), ModRevOffset(kv)) == ReadModRevision(Encode(kv), ModRevOffset(kv))
  {
    var offset, head := ModRevOffset(kv), Head(kv.key, kv.createRev);
    HeadLength(kv.key, kv.createRev);
    assert offset + 10 <= |head|;
    ReadWithinHead(head, Overlong(kv.modRev, 10) + Tail(kv.value, kv.version, kv.lease), offset);
    ReadWithinHead(head, Overlong(rev, 10) + Tail(kv.value, kv.version, kv.lease), offset);
  }

  lemma ReadWithinHead(head: Blob, rest: Blob, offset: nat)
    requires offset + 10 <= |head|
    ensures ReadModRevision(head + rest, offset) == ReadModRevision(head, offset)
  {
    assert (head + rest)[offset..][..10] == head[offset..][..10];
  }

  /** The revision accessor is right for every revision if and only if the position of the field
      fits the 16-bit header offset. */
  lemma AccessorBoundIsExact(r: Record)
    ensures (forall rev: nat :: rev < TWO64 ==> RecordRev(NewRecord(r.(modRev := rev))) == rev)
            <==> ModRevPosition(r.key, r.createRev) < TWO16
  {
    hide Encode, ReadModRevision, NewRecord, ModRevOffset;
    var kv := KvOf(r);
    var offset := ModRevOffset(kv);
    forall rev: nat ensures RecordRev(NewRecord(r.(modRev := rev))) == ReadModRevision(Encode(kv.(modRev := rev)), offset).UnwrapOr(0) {
      RevisionRead(r, rev);
    }
    if ModRevPosition(r.key, r.createRev) < TWO16 {
      OffsetIsPosition(kv);
      forall rev: nat | rev < TWO64 ensures RecordRev(NewRecord(r.(modRev := rev))) == rev {
        ReadModRevisionRoundTrip(kv.(modRev := rev));
      }
    } else {
      WrappedOffsetMissesRevision(kv, 0);
      WrappedOffsetMissesRevision(kv, 1);
      assert RecordRev(NewRecord(r.(modRev := 0))) == RecordRev(NewRecord(r.(modRev := 1)));
    }
  }

  lemma RevisionRead(r: Record, rev: nat)
    ensures RecordRev(NewRecord(r.(modRev := rev)))
         == ReadModRevision(Encode(KvOf(r).(modRev := rev)), ModRevOffset(KvOf(r))).UnwrapOr(0)
  {
    assert KvOf(r.(modRev := rev)) == KvOf(r).(modRev := rev);
  }

  lemma OffsetIsPosition(kv: Kv)
    requires ModRevPosition(kv.key, kv.createRev) < TWO16
    ensures ModRevOffset(kv) == ModRevPosition(kv.key, kv.createRev)
  {}

  function Zeros(n: nat): Blob { seq(n, i => 0) }

  lemma {:induction false} GroupsOfZeros(s: Blob)
    requires forall i :: 0 <= i < |s| ==> s[i] == 0
    ensures Groups(s) == 0
  {
    if s != [] { GroupsOfZeros(s[1..]); }
  }

  lemma KeyBytesAt(kv: Kv, i: nat)
    requires 6 <= i < 6 + |kv.key|
    ensures i < |Encode(kv)| && Encode(kv)[i] == kv.key[i - 6]
  {
    EncodeSplitsAtKey(kv);
    LenFieldLength(|kv.key|);
  }

  lemma MinimalOfOne()
    ensures |Minimal(1)| == 1
  {}

  /** Past the 16-bit bound the accessor reads key bytes: a 64 KiB key of zero bytes reports
      revision 0 whatever revision was written. */
  lemma WideKeyLosesRevision(r: Record)
    requires r.key == Zeros(65536) && r.createRev == 1
    ensures RecordRev(NewRecord(r)) == 0
  {
    var kv := KvOf(r);
    MinimalOfOne();
    assert ModRevOffset(kv) == 9;
    OffsetsInBounds(kv);
    var ten := Encode(kv)[9..][..10];
    forall i | 0 <= i < 10 ensures ten[i] == 0 { KeyBytesAt(kv, 9 + i); }
    GroupsOfZeros(ten);
  }

  /** The length the header at the start of `tail` announces. */
  function Announced(tail: Blob): nat
    requires |tail| >= HEADER_SIZE
  {
    U32Of(tail[5], tail[6], tail[7], tail[8])
  }

  /** No record can be read from the start of `tail`. */
  predicate Unreadable(tail: Blob) {
    |tail| < HEADER_SIZE || Announced(tail) < MIN_RECORD || |tail| < Announced(tail)
    || Deserialize(tail[..Announced(tail)]).Err?
  }

  /** A scan gets past the complete records if and only if a record can be read from what follows,
      and it fails there if and only if a whole header announces an impossible length. */
  lemma ScanPast(recs: seq<Record>, tail: Blob)
    requires forall q :: q in recs ==> Framable(q)
    ensures Scan(SerializeAll(recs) + tail).records == Map(NewRecord, recs) <==> Unreadable(tail)
    ensures Unreadable(tail) ==>
              Scan(SerializeAll(recs) + tail).failed == (|tail| >= HEADER_SIZE && Announced(tail) < MIN_RECORD)
  {
    var frames, news := Map(SerializeRecord, recs), Map(NewRecord, recs);
    ReadOneProgresses();
    forall i | 0 <= i < |frames| ensures IsFrame(ReadOne, frames[i], news[i]) { RecordIsFrame(recs[i]); }
    ScanFrames(ReadOne, frames, news, tail);
    ReadOneStops(tail);
    StopsOrGoesOn(news, |SerializeAll(recs)|, tail);
  }

  lemma ReadOneStops(tail: Blob)
    ensures ReadOne(tail).Got? <==> !Unreadable(tail)
    ensures ReadOne(tail).Fail? <==> |tail| >= HEADER_SIZE && Announced(tail) < MIN_RECORD
  {}

  lemma StopsOrGoesOn(news: seq<KvWalRecord>, consumed: nat, tail: Blob)
    requires Progressing(ReadOne)
    ensures Continued(ReadOne, news, consumed, tail).records == news <==> !ReadOne(tail).Got?
    ensures !ReadOne(tail).Got? ==> Continued(ReadOne, news, consumed, tail).failed == ReadOne(tail).Fail?
  {
    var rest := ScanWith(ReadOne, tail);
    if ReadOne(tail).Got? { assert |(news + rest.records)| > |news|; }
  }

  /** Opening does not cut a torn write off, so what is appended later continues it. Once the torn
      part holds a whole header, the scan stays at the complete records if and only if the file has
      not grown to the length that header announces, or the bytes up to there fail the checks. */
  lemma AppendAfterTornIsLost(recs: seq<Record>, r: Record, torn: Blob, appended: Blob)
    requires (forall q :: q in recs ==> Framable(q)) && Framable(r) && torn < SerializeRecord(r) && |torn| >= HEADER_SIZE
    ensures Scan(SerializeAll(recs) + (torn + appended)).records == Map(NewRecord, recs)
            <==> |torn| + |appended| < RecLen(r) || Deserialize((torn + appended)[..RecLen(r)]).Err?
    ensures Scan(SerializeAll(recs) + (torn + appended)).records == Map(NewRecord, recs)
            ==> !Scan(SerializeAll(recs) + (torn + appended)).failed
  {
    hide Deserialize;
    ScanPast(recs, torn + appended);
    RecordRoundTrip(r);
    TornAnnounces(SerializeRecord(r), torn, appended);
  }

  lemma TornAnnounces(s: Blob, torn: Blob, appended: Blob)
    requires |s| >= MIN_RECORD && U32Of(s[5], s[6], s[7], s[8]) == |s| && torn < s && |torn| >= HEADER_SIZE
    ensures Announced(torn + appended) == |s|
  {
    assert forall i :: 0 <= i < |torn| ==> (torn + appended)[i] == s[i];
  }

  /** A byte of the header that a torn part and the record appended after it make together. */
  function Borrowed(torn: Blob, next: Blob, i: nat): Byte
    requires i < |torn| + |next|
  {
    if i < |torn| then torn[i] else next[i - |torn|]
  }

  /** A torn part shorter than a header takes the rest of its header from the record appended next,
      and the length they announce together decides in the same way. */
  lemma ShortTornBorrowsHeader(recs: seq<Record>, torn: Blob, q: Record, more: Blob)
    requires (forall x :: x in recs ==> Framable(x)) && Framable(q) && |torn| < HEADER_SIZE
    ensures |SerializeRecord(q)| >= HEADER_SIZE
    ensures var tail, next := torn + (SerializeRecord(q) + more), SerializeRecord(q);
            var announced := U32Of(Borrowed(torn, next, 5), Borrowed(torn, next, 6), Borrowed(torn, next, 7), Borrowed(torn, next, 8));
            (Scan(SerializeAll(recs) + tail).records == Map(NewRecord, recs)
             <==> |tail| < announced || Deserialize(tail[..announced]).Err?)
            && (Scan(SerializeAll(recs) + tail).records == Map(NewRecord, recs)
                ==> (Scan(SerializeAll(recs) + tail).failed <==> announced < MIN_RECORD))
  {
    hide Deserialize, NewRecord, SerializeAll, Serialize, Scan, Map, RecLen;
    var tail := torn + (SerializeRecord(q) + more);
    RecordRoundTrip(q);
    ScanPast(recs, tail);
    HeaderAcross(torn, SerializeRecord(q), more);
    if |tail| >= Announced(tail) { TooShortFails(tail[..Announced(tail)]); }
  }

  lemma HeaderAcross(torn: Blob, next: Blob, more: Blob)
    requires |torn| < HEADER_SIZE <= |next|
    ensures var tail := torn + (next + more);
            |tail| >= HEADER_SIZE
            && Announced(tail) == U32Of(Borrowed(torn, next, 5), Borrowed(torn, next, 6), Borrowed(torn, next, 7), Borrowed(torn, next, 8))
  {
    var tail := torn + (next + more);
    assert forall i :: 0 <= i < HEADER_SIZE ==> tail[i] == Borrowed(torn, next, i);
  }

  /** After one torn byte, for example, the length is made of the offset's high byte and the low bytes
      of that record's length. */
  lemma OneTornByte(recs: seq<Record>, torn: Byte, q: Record, more: Blob)
    requires (forall x :: x in recs ==> Framable(x)) && Framable(q)
    ensures var tail, w := [torn] + (SerializeRecord(q) + more), NewRecord(q);
            var announced := w.modRevOffset / 256 + 256 * (RecLen(q) % 0x100_0000);
            Scan(SerializeAll(recs) + tail).records == Map(NewRecord, recs)
            <==> |tail| < announced || Deserialize(tail[..announced]).Err?
  {
    hide Deserialize, NewRecord, SerializeAll, Serialize, Scan, Map, WellFramed, RecLen;
    var tail, w := [torn] + (SerializeRecord(q) + more), NewRecord(q);
    NewFields(q);
    ScanPast(recs, tail);
    ShiftedHeader(torn, w, more);
    if |tail| >= Announced(tail) { TooShortFails(tail[..Announced(tail)]); }
  }

  lemma TooShortFails(data: Blob)
    ensures |data| < MIN_RECORD ==> Deserialize(data).Err?
  {}

  lemma ShiftedHeader(torn: Byte, w: KvWalRecord, more: Blob)
    requires w.modRevOffset < TWO16
    ensures var tail := [torn] + (Serialize(w) + more);
            |tail| >= HEADER_SIZE && Announced(tail) == w.modRevOffset / 256 + 256 * (w.recLen % 0x100_0000)
  {
    var h := Header(w.flags, w.keyOffset, w.modRevOffset, w.recLen);
    var rest := w.kvBytes + U32Bytes(w.crc);
    var tail := [torn] + (Serialize(w) + more);
    assert tail == ([torn] + h) + (rest + more);
    assert tail[5] == h[4] && tail[6] == h[5] && tail[7] == h[6] && tail[8] == h[7];
    LowThreeBytes(w.recLen);
  }

  lemma LowThreeBytes(v: nat)
    ensures v % 256 + 256 * (v / 256 % 256) + 0x1_0000 * (v / 256 / 256 % 256) == v % 0x100_0000
  {
    var q1 := v / 256;
    var q2 := q1 / 256;
    assert v == v % 256 + 256 * q1 && q1 == q1 % 256 + 256 * q2 && q2 == q2 % 256 + 256 * (q2 / 256);
    assert v == (v % 256 + 256 * (q1 % 256) + 0x1_0000 * (q2 % 256)) + 0x100_0000 * (q2 / 256);
  }

  /** Reading from the offset where `log` ends finds exactly what was appended since. */
  lemma FileFromOffset(log: seq<Record>, more: seq<Record>)
    ensures Scanner.From(SerializeAll(log + more), |SerializeAll(log)|) == SerializeAll(more) + []
  {
    SerializeAllConcat(log, more);
    DropPrefix(SerializeAll(log), SerializeAll(more));
  }

  lemma DropPrefix(a: Blob, b: Blob)
    ensures Scanner.From(a + b, |a|) == b + []
  {}

  lemma PrefixRest(base: Blob, rest: Blob, view: Blob)
    requires |base| <= |view| && view <= base + rest
    ensures view == base + view[|base|..] && view[|base|..] <= rest
  {}

  lemma MapPrefix<T, U>(f: T -> U, s: seq<T>, j: nat)
    requires j <= |s|
    ensures Map(f, s)[..j] == Map(f, s[..j])
  {}

  /** A prefix of a log file that contains all of `log` is `log`, some further whole records, and
      nothing or a torn write. */
  lemma FilePrefix(log: seq<Record>, more: seq<Record>, view: Blob) returns (j: nat, torn: Blob)
    requires forall r :: r in more ==> Framable(r)
    requires |SerializeAll(log)| <= |view| && view <= SerializeAll(log + more)
    ensures j <= |more| && view == SerializeAll(log + more[..j]) + torn
    ensures torn == [] || TornWrite(torn)
  {
    SerializeAllConcat(log, more);
    PrefixRest(SerializeAll(log), SerializeAll(more), view);
    j, torn := FlattenPrefix(Map(SerializeRecord, more), view[|SerializeAll(log)|..]);
    MapPrefix(SerializeRecord, more, j);
    SerializeAllConcat(log, more[..j]);
    Associative(SerializeAll(log), SerializeAll(more[..j]), torn);
    if torn != [] { TornFrame(more, j, torn); }
  }

  lemma TornFrame(recs: seq<Record>, j: nat, torn: Blob)
    requires (forall r :: r in recs ==> Framable(r)) && j < |recs| && torn < Map(SerializeRecord, recs)[j]
    ensures TornWrite(torn)
  {
    var r := recs[j];
    assert r in recs && Framable(r) && torn < SerializeRecord(r);
  }

  /** The frame by position: flags, the two 16-bit offsets and the 32-bit length, all little-endian,
      then the blob, then the checksum of everything before it. */
  lemma FrameLayout(w: KvWalRecord)
    requires WellFramed(w)
    ensures var s, n := Serialize(w), |w.kvBytes|;
            |s| == 9 + n + 4 && s[0] == w.flags
            && s[1] as int + 256 * (s[2] as int) == w.keyOffset && s[3] as int + 256 * (s[4] as int) == w.modRevOffset
            && s[5] as int + 0x100 * (s[6] as int) + 0x1_0000 * (s[7] as int) + 0x100_0000 * (s[8] as int) == |s|
            && s[9..9 + n] == w.kvBytes && Crc(s[..9 + n]) == w.crc
            && s[9 + n] as int + 0x100 * (s[10 + n] as int) + 0x1_0000 * (s[11 + n] as int) + 0x100_0000 * (s[12 + n] as int) == w.crc
  {
    hide Crc;
    var h := Header(w.flags, w.keyOffset, w.modRevOffset, w.recLen);
    HeaderFields(w.flags, w.keyOffset, w.modRevOffset, w.recLen);
    U32RoundTrip(w.crc);
    var s := h + (w.kvBytes + U32Bytes(w.crc));
    assert s == (h + w.kvBytes) + U32Bytes(w.crc);
    assert s[..9 + |w.kvBytes|] == h + w.kvBytes;
  }

  /** What a new record puts there: bit 0 of the flags for a delete, the key at offset 1, the revision
      after the key and the creation revision. */
  lemma NewLayout(r: Record)
    requires Framable(r) && ModRevPosition(r.key, r.createRev) < TWO16
    ensures var w := NewRecord(r);
            WellFramed(w) && w.flags == r.flags && w.kvBytes == KvBytes(r) && w.keyOffset == 1
            && w.modRevOffset == 8 + |r.key| + |Minimal(r.createRev)|
  {
    hide KvBytes, Crc, Minimal, NewRecord, WellFramed, RecLen, Serialize, Header;
    NewIsWellFramed(r);
    NewFields(r);
    OffsetIsPosition(KvOf(r));
  }
}
