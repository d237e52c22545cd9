/** The old log format: plain key/value records with a magic number, read by the migration tool. */
module LegacyWal {
  import opened Bytes
  import opened Varint
  import opened Seqs
  import opened Scanner
  import opened Wal

  const MAGIC: nat := 0x5255
  const OLD_HEADER: nat := 23

  datatype OldRecord = OldRecord(revision: nat, key: Blob, value: Blob, flags: Byte, leaseId: Option<int>)

  datatype OldError = ShortRecord | BadMagic | TruncatedPayload | TruncatedLease | OldCrcMismatch

  predicate OldDeleted(r: OldRecord) { r.flags % 2 == 1 }

  predicate LeaseFlag(flags: Byte) { flags / 4 % 2 == 1 }

  // --------------------------------------------------------------------- codec

  function U64Bytes(v: nat): Blob { U32Bytes(v % TWO32) + U32Bytes(v / TWO32 % TWO32) }

  function U32At(d: Blob, i: nat): nat
    requires i + 4 <= |d|
  {
    U32Of(d[i], d[i + 1], d[i + 2], d[i + 3])
  }

  function U64At(d: Blob, i: nat): nat
    requires i + 8 <= |d|
  {
    U32At(d, i) + TWO32 * U32At(d, i + 4)
  }

  function LeaseBytes(lease: Option<int>): Blob {
    match lease
    case None => []
    case Some(id) => U64Bytes(AsU64(id))
  }

  function OldPayload(r: OldRecord): Blob { r.key + (r.value + LeaseBytes(r.leaseId)) }

  /** The lease is written whenever there is one, whatever the flags say. */
  function OldSerialize(r: OldRecord): Blob {
    OldHead(r.revision, Crc([r.flags] + OldPayload(r)), |r.key|, |r.value|, r.flags) + OldPayload(r)
  }

  function OldHead(revision: nat, crc: nat, keyLen: nat, valueLen: nat, flags: Byte): Blob {
    U16Bytes(MAGIC) + (U64Bytes(revision) + (U32Bytes(crc) + (U32Bytes(keyLen) + (U32Bytes(valueLen) + [flags]))))
  }

  /** The lease is read exactly when the flags announce one. */
  function OldDeserialize(data: Blob): Result<(OldRecord, nat), OldError> {
    if |data| < OLD_HEADER then Err(ShortRecord)
    else if U16Of(data[0], data[1]) != MAGIC then Err(BadMagic)
    else
      var keyEnd := OLD_HEADER + U32At(data, 14);
      var payloadEnd := keyEnd + U32At(data, 18);
      var flags := data[22];
      if |data| < payloadEnd then Err(TruncatedPayload)
      else if LeaseFlag(flags) && |data| < payloadEnd + 8 then Err(TruncatedLease)
      else
        var end := if LeaseFlag(flags) then payloadEnd + 8 else payloadEnd;
        var leaseId := if LeaseFlag(flags) then Some(AsI64(U64At(data, payloadEnd))) else None;
        if Crc(data[22..end]) != U32At(data, 10) then Err(OldCrcMismatch)
        else Ok((OldRecord(U64At(data, 2), data[OLD_HEADER..keyEnd], data[keyEnd..payloadEnd], flags, leaseId), end))
  }

  /** Values the struct's integer types can hold, with lengths that fit their 32-bit fields. */
  predicate OldRepresentable(r: OldRecord) {
    r.revision < TWO64 && |r.key| < TWO32 && |r.value| < TWO32 && (r.leaseId.Some? ==> IsI64(r.leaseId.value))
  }

  predicate LeaseConsistent(r: OldRecord) { LeaseFlag(r.flags) <==> r.leaseId.Some? }

  lemma U32AtConcat(pre: Blob, v: nat, rest: Blob)
    requires v < TWO32
    ensures U32At(pre + (U32Bytes(v) + rest), |pre|) == v
  {
    U32RoundTrip(v);
    var d, i := pre + (U32Bytes(v) + rest), |pre|;
    assert d[i] == U32Bytes(v)[0] && d[i + 1] == U32Bytes(v)[1] && d[i + 2] == U32Bytes(v)[2] && d[i + 3] == U32Bytes(v)[3];
  }

  lemma U64AtConcat(pre: Blob, v: nat, rest: Blob)
    requires v < TWO64
    ensures U64At(pre + (U64Bytes(v) + rest), |pre|) == v
  {
    var lo, hi := U32Bytes(v % TWO32), U32Bytes(v / TWO32 % TWO32);
    var d := pre + (U64Bytes(v) + rest);
    assert d == pre + (lo + (hi + rest));
    U32AtConcat(pre, v % TWO32, hi + rest);
    assert d == (pre + lo) + (hi + rest);
    U32AtConcat(pre + lo, v / TWO32 % TWO32, rest);
    assert v / TWO32 < TWO32;
  }

  lemma HeadFields(revision: nat, crc: nat, keyLen: nat, valueLen: nat, flags: Byte, rest: Blob)
    requires revision < TWO64 && crc < TWO32 && keyLen < TWO32 && valueLen < TWO32
    ensures var d := OldHead(revision, crc, keyLen, valueLen, flags) + rest;
            |OldHead(revision, crc, keyLen, valueLen, flags)| == OLD_HEADER && U16Of(d[0], d[1]) == MAGIC
            && U64At(d, 2) == revision && U32At(d, 10) == crc && U32At(d, 14) == keyLen && U32At(d, 18) == valueLen
            && d[22] == flags
  {
    hide U32Bytes, U32At, U64At, U64Bytes;
    var m, r, c, k, v := U16Bytes(MAGIC), U64Bytes(revision), U32Bytes(crc), U32Bytes(keyLen), U32Bytes(valueLen);
    FieldWidths(revision, crc);
    FieldWidths(keyLen, keyLen);
    FieldWidths(valueLen, valueLen);
    var d := OldHead(revision, crc, keyLen, valueLen, flags) + rest;
    assert d == m + (r + (c + (k + (v + ([flags] + rest)))));
    U64AtConcat(m, revision, c + (k + (v + ([flags] + rest))));
    assert d == (m + r) + (c + (k + (v + ([flags] + rest))));
    U32AtConcat(m + r, crc, k + (v + ([flags] + rest)));
    assert d == (m + r + c) + (k + (v + ([flags] + rest)));
    U32AtConcat(m + r + c, keyLen, v + ([flags] + rest));
    assert d == (m + r + c + k) + (v + ([flags] + rest));
    U32AtConcat(m + r + c + k, valueLen, [flags] + rest);
    assert d == (m + r + c + k + v) + ([flags] + rest);
  }

  lemma FieldWidths(v: nat, w: nat)
    ensures |U64Bytes(v)| == 8 && |U32Bytes(w)| == 4
  {}

  /** A record reads back as itself, whatever follows it, exactly when its flags and its lease agree. */
  lemma OldRoundTrip(r: OldRecord, rest: Blob)
    requires OldRepresentable(r)
    ensures OldDeserialize(OldSerialize(r) + rest) == Ok((r, |OldSerialize(r)|)) <==> LeaseConsistent(r)
  {
    hide OldHeadFor, OldPayload, OldSerialize, OldDeserialize, LeaseFlag, OldRepresentable;
    SerializeIsHeadAndPayload(r, rest);
    if LeaseConsistent(r) {
      OldReadsBack(r, rest);
    } else {
      OldReadsLeaseByFlag(OldSerialize(r) + rest);
    }
  }

  function OldHeadFor(r: OldRecord): Blob {
    OldHead(r.revision, Crc([r.flags] + OldPayload(r)), |r.key|, |r.value|, r.flags)
  }

  lemma OldHeadOf(r: OldRecord, rest: Blob)
    requires OldRepresentable(r)
    ensures var d := OldHeadFor(r) + rest;
            |OldHeadFor(r)| == OLD_HEADER && U16Of(d[0], d[1]) == MAGIC
            && U64At(d, 2) == r.revision && U32At(d, 10) == Crc([r.flags] + OldPayload(r))
            && U32At(d, 14) == |r.key| && U32At(d, 18) == |r.value| && d[22] == r.flags
  {
    HeadFields(r.revision, Crc([r.flags] + OldPayload(r)), |r.key|, |r.value|, r.flags, rest);
  }

  lemma OldReadsLeaseByFlag(data: Blob)
    ensures OldDeserialize(data).Ok? ==> LeaseConsistent(OldDeserialize(data).value.0)
  {}

  /** Slices of a head, three parts and a rest. */
  lemma PartsOf(h: Blob, a: Blob, b: Blob, c: Blob, rest: Blob)
    requires |h| > 0
    ensures var d, n, m := h + ((a + (b + c)) + rest), |h| + |a|, |h| + |a| + |b|;
            |d| == m + |c| + |rest| && d[|h|..n] == a && d[n..m] == b && d == (h + a + b) + (c + rest)
            && d[|h| - 1..m + |c|] == [h[|h| - 1]] + (a + (b + c))
  {
    var d, n, m := h + ((a + (b + c)) + rest), |h| + |a|, |h| + |a| + |b|;
    assert d == (h + a + b) + (c + rest);
    assert (h + a + b)[|h|..n] == a && (h + a + b)[n..m] == b;
    SliceAcross(h, a + (b + c), rest);
  }

  lemma SliceAcross(h: Blob, p: Blob, rest: Blob)
    requires |h| > 0
    ensures (h + (p + rest))[|h| - 1..|h| + |p|] == [h[|h| - 1]] + p
  {}

  /** The payload's parts, by position. */
  lemma PayloadParts(r: OldRecord, rest: Blob)
    requires OldRepresentable(r)
    ensures var d, k := OldHeadFor(r) + (OldPayload(r) + rest), OLD_HEADER + |r.key|;
            |OldHeadFor(r)| == OLD_HEADER && |d| == k + |r.value| + |LeaseBytes(r.leaseId)| + |rest|
            && d[OLD_HEADER..k] == r.key && d[k..k + |r.value|] == r.value
            && d == (OldHeadFor(r) + r.key + r.value) + (LeaseBytes(r.leaseId) + rest)
            && d[22..k + |r.value| + |LeaseBytes(r.leaseId)|] == [r.flags] + OldPayload(r)
  {
    hide OldHeadFor, LeaseBytes, OldRepresentable;
    OldHeadOf(r, OldPayload(r) + rest);
    var h := OldHeadFor(r);
    assert (h + (OldPayload(r) + rest))[22] == h[22];
    PartsOf(h, r.key, r.value, LeaseBytes(r.leaseId), rest);
  }

  lemma OldReadsBack(r: OldRecord, rest: Blob)
    requires OldRepresentable(r) && LeaseConsistent(r)
    ensures OldDeserialize(OldSerialize(r) + rest) == Ok((r, |OldSerialize(r)|))
  {
    hide OldHeadFor, OldPayload, U64At, U32At, U64Bytes, LeaseFlag;
    OldHeadOf(r, OldPayload(r) + rest);
    PayloadParts(r, rest);
    var d := OldHeadFor(r) + (OldPayload(r) + rest);
    SerializeIsHeadAndPayload(r, rest);
    if r.leaseId.Some? {
      LeaseReadsBack(OldHeadFor(r) + r.key + r.value, r.leaseId.value, rest);
    }
  }

  lemma SerializeIsHeadAndPayload(r: OldRecord, rest: Blob)
    ensures OldSerialize(r) + rest == OldHeadFor(r) + (OldPayload(r) + rest)
    ensures |OldSerialize(r)| == |OldHeadFor(r)| + |r.key| + |r.value| + |LeaseBytes(r.leaseId)|
  {}

  lemma LeaseReadsBack(pre: Blob, lease: int, rest: Blob)
    requires IsI64(lease)
    ensures |LeaseBytes(Some(lease))| == 8 && AsI64(U64At(pre + (LeaseBytes(Some(lease)) + rest), |pre|)) == lease
  {
    hide AsU64, AsI64, U64At, U64Bytes;
    CastRoundTrip(lease);
    FieldWidths(AsU64(lease), 0);
    U64AtConcat(pre, AsU64(lease), rest);
  }

  // ------------------------------------------------------------------- scanning

  /** One turn of the migration tool's read loop: any error ends it. */
  function OldReadOne(b: Blob): ReadStep<OldRecord> {
    if b == [] then End
    else match OldDeserialize(b)
      case Err(_) => End
      case Ok((rec, consumed)) => Got(rec, consumed)
  }

  lemma OldReadProgresses()
    ensures Progressing(OldReadOne)
  {
    forall b | OldReadOne(b).Got? ensures 0 < OldReadOne(b).len <= |b| { OldReadWithin(b); }
  }

  lemma OldReadWithin(b: Blob)
    requires OldReadOne(b).Got?
    ensures 0 < OldReadOne(b).len <= |b|
  {}

  ghost function OldScan(b: Blob): Scanned<OldRecord> {
    OldReadProgresses();
    ScanWith(OldReadOne, b)
  }

  method ReadOldRecords(file: Blob) returns (records: seq<OldRecord>)
    ensures records == OldScan(file).records
  {
    OldReadProgresses();
    var scanned := ScanLoop(OldReadOne, file);
    records := scanned.records;
  }

  predicate OldWritten(r: OldRecord) { OldRepresentable(r) && LeaseConsistent(r) }

  function OldSerializeAll(recs: seq<OldRecord>): Blob { Flatten(Map(OldSerialize, recs)) }

  /** A strict prefix of a record does not read as one. */
  lemma OldTornIsEnd(r: OldRecord, torn: Blob)
    requires OldWritten(r) && torn < OldSerialize(r)
    ensures OldReadOne(torn) == End
  {
    hide OldHeadFor, OldPayload, U64Bytes, LeaseFlag, Crc;
    SerializeIsHeadAndPayload(r, []);
    OldHeadOf(r, OldPayload(r) + []);
    var d := OldSerialize(r) + [];
    assert d == OldSerialize(r);
    if |torn| >= OLD_HEADER {
      assert U32At(torn, 14) == U32At(d, 14) && U32At(torn, 18) == U32At(d, 18) && torn[22] == d[22];
      if r.leaseId.Some? { LeaseReadsBack([], r.leaseId.value, []); }
    }
  }

  lemma OldIsFrame(r: OldRecord)
    requires OldWritten(r)
    ensures IsFrame(OldReadOne, OldSerialize(r), r)
  {
    hide OldDeserialize, OldSerialize;
    OldHeadOf(r, []);
    SerializeIsHeadAndPayload(r, []);
    forall rest ensures OldReadOne(OldSerialize(r) + rest) == Got(r, |OldSerialize(r)|) { OldReadsBack(r, rest); }
  }

  /** Reading an old log, cut off anywhere in its last record, recovers every complete record. */
  lemma OldScanRecovers(recs: seq<OldRecord>, next: OldRecord, torn: Blob)
    requires (forall r :: r in recs ==> OldWritten(r)) && OldWritten(next) && torn < OldSerialize(next)
    ensures OldScan(OldSerializeAll(recs) + torn).records == recs
  {
    hide OldWritten, OldSerialize;
    OldReadProgresses();
    var frames := Map(OldSerialize, recs);
    forall i | 0 <= i < |frames| ensures IsFrame(OldReadOne, frames[i], recs[i]) { OldIsFrame(recs[i]); }
    ScanFrames(OldReadOne, frames, recs, torn);
    OldTornIsEnd(next, torn);
    ContinuedEnds(OldReadOne, recs, |Flatten(frames)|, torn);
  }

  /** The flags are bits: 1 for a delete, 4 for a lease. */
  lemma OldFlags(r: OldRecord, d: nat, c: nat, l: nat)
    requires d < 2 && c < 2 && l < 2 && r.flags == d + 2 * c + 4 * l
    ensures (OldDeleted(r) <==> d == 1) && (LeaseFlag(r.flags) <==> l == 1)
  {}

  /** The record by position. */
  lemma OldLayout(r: OldRecord)
    requires OldRepresentable(r)
    ensures var s := OldSerialize(r);
            |s| >= 23 && s[0] == 0x55 && s[1] == 0x52 && s[22] == r.flags && U64At(s, 2) == r.revision
            && U32At(s, 14) == |r.key| && U32At(s, 18) == |r.value| && s[23..] == OldPayload(r)
  {
    hide OldPayload, U64At, U32At, Crc;
    OldHeadOf(r, OldPayload(r));
  }
}
