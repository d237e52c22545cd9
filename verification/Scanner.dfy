/** Reading a file record by record, apart from what a record is. */
module Scanner {
  import opened Bytes
  import opened Seqs

  /** One turn of a scanner: the next record, a clean end (end of file, torn or damaged record)
      or an error. */
  datatype ReadStep<T> = Got(rec: T, len: nat) | End | Fail

  type Reader<!T> = Blob -> ReadStep<T>

  /** A reader that always makes progress and never reads past the end. */
  ghost predicate Progressing<T>(read: Reader<T>) {
    forall b :: read(b).Got? ==> 0 < read(b).len <= |b|
  }

  /** Records found, bytes they occupy, and whether the scan ended with an error. */
  datatype Scanned<T> = Scanned(records: seq<T>, consumed: nat, failed: bool)

  /** What a scanner reads from the bytes that remain in the file. */
  ghost function ScanWith<T>(read: Reader<T>, b: Blob): Scanned<T>
    requires Progressing(read)
    decreases |b|
  {
    match read(b)
    case End => Scanned([], 0, false)
    case Fail => Scanned([], 0, true)
    case Got(rec, len) =>
      var rest := ScanWith(read, b[len..]);
      Scanned([rec] + rest.records, len + rest.consumed, rest.failed)
  }

  /** The file from `offset` on; seeking past the end leaves nothing to read. */
  function From(file: Blob, offset: nat): Blob {
    if offset <= |file| then file[offset..] else []
  }

  /** Where a scan stands: what it has reported plus what it will still report. */
  ghost function Continued<T>(read: Reader<T>, records: seq<T>, consumed: nat, b: Blob): Scanned<T>
    requires Progressing(read)
  {
    var rest := ScanWith(read, b);
    Scanned(records + rest.records, consumed + rest.consumed, rest.failed)
  }

  lemma ContinuedStep<T>(read: Reader<T>, records: seq<T>, consumed: nat, b: Blob)
    requires Progressing(read) && read(b).Got?
    ensures Continued(read, records, consumed, b)
         == Continued(read, records + [read(b).rec], consumed + read(b).len, b[read(b).len..])
  {
    var rest := ScanWith(read, b[read(b).len..]);
    assert (records + [read(b).rec]) + rest.records == records + ([read(b).rec] + rest.records);
  }

  lemma ContinuedEnds<T>(read: Reader<T>, records: seq<T>, consumed: nat, b: Blob)
    requires Progressing(read)
    ensures Continued(read, [], 0, b) == ScanWith(read, b)
    ensures !read(b).Got? ==> Continued(read, records, consumed, b) == Scanned(records, consumed, read(b).Fail?)
  {}

  /** The read loop over the bytes after the seek position. Records reach the caller as they are
      read, so a failed scan still reports the ones before the failure. */
  method ScanLoop<T>(read: Reader<T>, bytes: Blob) returns (scanned: Scanned<T>)
    requires Progressing(read)
    ensures scanned == ScanWith(read, bytes)
  {
    var records: seq<T>, cur: nat, b := [], 0, bytes;
    ContinuedEnds(read, [], 0, b);
    var step := read(b);
    while step.Got?
      invariant step == read(b)
      invariant Continued(read, records, cur, b) == ScanWith(read, bytes)
      decreases |b|
    {
      ContinuedStep(read, records, cur, b);
      records := records + [step.rec];
      cur := cur + step.len;
      b := b[step.len..];
      step := read(b);
    }
    ContinuedEnds(read, records, cur, b);
    return Scanned(records, cur, step.Fail?);
  }

  /** `b` is a complete record holding `rec`, and stays one whatever follows it. */
  ghost predicate IsFrame<T>(read: Reader<T>, b: Blob, rec: T) {
    |b| > 0 && forall rest :: read(b + rest) == Got(rec, |b|)
  }

  lemma ScanFrame<T>(read: Reader<T>, frame: Blob, rec: T, rest: Blob)
    requires Progressing(read) && IsFrame(read, frame, rec)
    ensures ScanWith(read, frame + rest) == Continued(read, [rec], |frame|, rest)
  {
    assert (frame + rest)[|frame|..] == rest;
  }

  lemma ContinuedFrames<T>(read: Reader<T>, rec: T, len: nat, recs: seq<T>, len': nat, b: Blob, b': Blob)
    requires Progressing(read)
    requires ScanWith(read, b') == Continued(read, recs, len', b)
    ensures Continued(read, [rec], len, b') == Continued(read, [rec] + recs, len + len', b)
  {
    assert [rec] + (recs + ScanWith(read, b).records) == ([rec] + recs) + ScanWith(read, b).records;
  }

  /** Complete records are read one by one, and the scan then goes on with what follows them. */
  lemma {:induction false} ScanFrames<T>(read: Reader<T>, frames: seq<Blob>, recs: seq<T>, rest: Blob)
    requires Progressing(read) && |frames| == |recs|
    requires forall i :: 0 <= i < |frames| ==> IsFrame(read, frames[i], recs[i])
    ensures ScanWith(read, Flatten(frames) + rest) == Continued(read, recs, |Flatten(frames)|, rest)
  {
    if frames == [] {
      assert Flatten(frames) + rest == rest;
      ContinuedEnds(read, [], 0, rest);
    } else {
      var tail := Flatten(frames[1..]);
      ScanFrames(read, frames[1..], recs[1..], rest);
      Associative(frames[0], tail, rest);
      ScanFrame(read, frames[0], recs[0], tail + rest);
      ContinuedFrames(read, recs[0], |frames[0]|, recs[1..], |tail|, rest, tail + rest);
      assert recs == [recs[0]] + recs[1..];
    }
  }
}
