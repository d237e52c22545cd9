/** Range reads at a past revision: the map is consulted first, the log only for keys whose current
    entry is too new, and the two are merged. The three phases take their own locks, so each sees
    its own state. */
module HistoricalRead {
  import opened Bytes
  import opened Varint
  import opened Seqs
  import opened Wal
  import opened Ranges
  import opened OrderedKeys
  import opened KeyMap
  import opened History
  import Scanner

  /** The optional revision filters of a range request; 0 or less means unset. */
  datatype RevFilter = RevFilter(minMod: int, maxMod: int, minCreate: int, maxCreate: int)

  const NO_FILTER := RevFilter(0, 0, 0, 0)

  predicate Passes(f: RevFilter, ks: KeyState) {
    !(f.minMod > 0 && ks.modRev < f.minMod) && !(f.maxMod > 0 && ks.modRev > f.maxMod)
    && !(f.minCreate > 0 && ks.createRev < f.minCreate) && !(f.maxCreate > 0 && ks.createRev > f.maxCreate)
  }

  // ------------------------------------------------------------------- phase 1

  datatype Verdict = Absent | Direct | Stale

  /** What the current entry is taken to say about revision `t`. */
  function Classify(ks: KeyState, f: RevFilter, t: nat): Verdict {
    if !Alive(ks) then
      if ks.createRev > t then Absent
      else if ks.deleteRev <= t then Absent
      else if ks.modRev <= t then Direct
      else Stale
    else if !Passes(f, ks) then Absent
    else if ks.createRev > t then (if ks.rebirth then Stale else Absent)
    else if ks.modRev <= t then Direct
    else Stale
  }

  function WithVerdict(keys: Keys, bound: RangeBound, f: RevFilter, t: nat, v: Verdict): set<Blob> {
    set k | k in keys && Matches(bound, k) && Classify(keys[k], f, t) == v
  }

  function BlobsOf(keys: Keys, ks: set<Blob>): Blobs {
    map k | k in ks && k in keys :: keys[k].kvBytes
  }

  /** The keys of a scan with a given verdict. */
  function Picked(keys: Keys, scanned: seq<Blob>, f: RevFilter, t: nat, v: Verdict): set<Blob> {
    set k | k in scanned && k in keys && Classify(keys[k], f, t) == v
  }

  lemma BlobsOfInsert(keys: Keys, ks: set<Blob>, k: Blob)
    requires k in keys
    ensures BlobsOf(keys, ks + {k}) == BlobsOf(keys, ks)[k := keys[k].kvBytes]
    ensures BlobsOf(keys, ks + {}) == BlobsOf(keys, ks)
  {}

  lemma PickedSnoc(keys: Keys, scanned: seq<Blob>, i: nat, f: RevFilter, t: nat, v: Verdict)
    requires i < |scanned| && scanned[i] in keys
    ensures Picked(keys, scanned[..i + 1], f, t, v)
         == Picked(keys, scanned[..i], f, t, v) + if Classify(keys[scanned[i]], f, t) == v then {scanned[i]} else {}
  {
    assert scanned[..i + 1] == scanned[..i] + [scanned[i]];
  }

  /** The scan of the map under the read lock. */
  method PhaseOne(keys: Keys, bound: RangeBound, f: RevFilter, t: nat) returns (direct: Blobs, stale: set<Blob>)
    requires Scannable(bound)
    ensures direct == BlobsOf(keys, WithVerdict(keys, bound, f, t, Direct))
    ensures stale == WithVerdict(keys, bound, f, t, Stale)
  {
    var visited := ScanRange(keys.Keys, bound);
    direct, stale := map[], {};
    for i := 0 to |visited|
      invariant direct == BlobsOf(keys, Picked(keys, visited[..i], f, t, Direct))
      invariant stale == Picked(keys, visited[..i], f, t, Stale)
    {
      var k := visited[i];
      assert k in Elements(visited);
      PickedSnoc(keys, visited, i, f, t, Direct);
      PickedSnoc(keys, visited, i, f, t, Stale);
      BlobsOfInsert(keys, Picked(keys, visited[..i], f, t, Direct), k);
      var verdict := Classify(keys[k], f, t);
      if verdict == Direct {
        direct := direct[k := keys[k].kvBytes];
      } else if verdict == Stale {
        stale := stale + {k};
      }
    }
    assert visited[..|visited|] == visited;
    ScannedIsWhole(keys, visited, bound, f, t, Direct);
    ScannedIsWhole(keys, visited, bound, f, t, Stale);
  }

  lemma ScannedIsWhole(keys: Keys, visited: seq<Blob>, bound: RangeBound, f: RevFilter, t: nat, v: Verdict)
    requires visited == Sorted(set k | k in keys.Keys && Matches(bound, k))
    ensures Picked(keys, visited, f, t, v) == WithVerdict(keys, bound, f, t, v)
  {
    assert forall k :: k in visited <==> k in Elements(visited);
  }

  // ------------------------------------------------------------------- phase 2

  /** The fold of a log scan over the records of a range, up to a revision. */
  function WalFold(ws: seq<KvWalRecord>, bound: RangeBound, t: nat): Blobs {
    if ws == [] then map[] else WalFoldStep(WalFold(ws[..|ws| - 1], bound, t), ws[|ws| - 1], bound, t)
  }

  function WalFoldStep(state: Blobs, w: KvWalRecord, bound: RangeBound, t: nat): Blobs {
    match RecordKey(w)
    case None => state
    case Some(key) =>
      if !Matches(bound, key) || RecordRev(w) > t then state
      else if w.flags % 2 == 1 then state - {key}
      else state[key := w.kvBytes]
  }

  /** `scan_wal_range` on the bytes another handle reads; `None` when the scan fails. */
  method ScanWalRange(file: Blob, bound: RangeBound, t: nat) returns (state: Option<Blobs>)
    ensures state == if Scan(file).failed then None else Some(WalFold(Scan(file).records, bound, t))
  {
    hide WalFoldStep, Scan;
    var scanned := ScanKvFile(file, 0);
    assert Scanner.From(file, 0) == file;
    if scanned.failed { return None; }
    var records := scanned.records;
    var m: Blobs := map[];
    for i := 0 to |records|
      invariant m == WalFold(records[..i], bound, t)
    {
      assert records[..i + 1][..i] == records[..i];
      m := WalFoldStep(m, records[i], bound, t);
    }
    assert records[..|records|] == records;
    return Some(m);
  }

  function Restrict(s: Blobs, bound: RangeBound): Blobs {
    map k | k in s && Matches(bound, k) :: s[k]
  }

  /** A scanned record reads as the logged one it stands for. */
  ghost predicate ReadsAs(w: KvWalRecord, r: Record) {
    RecordKey(w) == Some(r.key) && RecordRev(w) == r.modRev && w.flags == r.flags && w.kvBytes == KvBytes(r)
  }

  lemma NewReadsAs(r: Record)
    requires Fits(r)
    ensures ReadsAs(NewRecord(r), r)
  {
    NewFields(r);
    AccessorsExact(r);
  }

  lemma {:induction false} WalFoldIsSnapshot(ws: seq<KvWalRecord>, log: seq<Record>, bound: RangeBound, t: nat)
    requires |ws| == |log| && forall i :: 0 <= i < |ws| ==> ReadsAs(ws[i], log[i])
    ensures WalFold(ws, bound, t) == Restrict(Snapshot(log, t), bound)
  {
    if log != [] {
      var n := |log| - 1;
      WalFoldIsSnapshot(ws[..n], log[..n], bound, t);
      assert ReadsAs(ws[n], log[n]);
      FoldStepRestricts(Snapshot(log[..n], t), ws[n], log[n].key, bound, t);
    }
  }

  lemma FoldStepRestricts(s: Blobs, w: KvWalRecord, key: Blob, bound: RangeBound, t: nat)
    requires RecordKey(w) == Some(key)
    ensures WalFoldStep(Restrict(s, bound), w, bound, t)
         == Restrict(if RecordRev(w) > t then s else if w.flags % 2 == 1 then s - {key} else s[key := w.kvBytes], bound)
  {}

  /** Scanning the log file, torn tail included, reads the snapshot of the range. */
  lemma WalScanReadsSnapshot(log: seq<Record>, torn: Blob, bound: RangeBound, t: nat)
    requires (forall r :: r in log ==> Fits(r)) && (torn == [] || TornWrite(torn))
    ensures var scanned := Scan(SerializeAll(log) + torn);
            !scanned.failed && WalFold(scanned.records, bound, t) == Restrict(Snapshot(log, t), bound)
  {
    ScanRecovers(log, torn);
    var ws := Map(NewRecord, log);
    forall i | 0 <= i < |ws| ensures ReadsAs(ws[i], log[i]) { NewReadsAs(log[i]); }
    WalFoldIsSnapshot(ws, log, bound, t);
  }

  // ------------------------------------------------------------------- phase 3

  /** The map as it stands when a key is looked up: each lookup takes its own lock. */
  type Lookups = Blob -> Keys

  /** Stale keys the log says nothing about fall back to their value when they are looked up. */
  function Fallback(stale: set<Blob>, wal: Blobs, later: Lookups): Blobs {
    map k | k in stale && k !in wal && Live(later(k), k) :: later(k)[k].kvBytes
  }

  /** Direct values win, then the log, then the fallback. */
  function Merge(direct: Blobs, stale: set<Blob>, wal: Blobs, later: Lookups): Blobs {
    wal + Fallback(stale, wal, later) + direct
  }

  /** Values found for the stale keys in `done`: from the log, else the fallback. */
  function Found(done: set<Blob>, wal: Blobs, later: Lookups): Blobs {
    map k | k in done && (k in wal || Live(later(k), k)) :: if k in wal then wal[k] else later(k)[k].kvBytes
  }

  /** The merged map after the stale keys in `done` have been looked up. */
  function MergedSoFar(direct: Blobs, done: set<Blob>, wal: Blobs, later: Lookups): Blobs {
    direct + Found(done, wal, later)
  }

  lemma FoundOne(done: set<Blob>, wal: Blobs, later: Lookups, k: Blob)
    ensures k in wal ==> Found(done + {k}, wal, later) == Found(done, wal, later)[k := wal[k]]
    ensures k !in wal && Live(later(k), k) ==> Found(done + {k}, wal, later) == Found(done, wal, later)[k := later(k)[k].kvBytes]
    ensures k !in wal && !Live(later(k), k) ==> Found(done + {k}, wal, later) == Found(done, wal, later)
  {}

  lemma OverlayOne(direct: Blobs, found: Blobs, k: Blob, v: Blob)
    ensures direct + found[k := v] == (direct + found)[k := v]
  {}

  lemma MergeOne(direct: Blobs, done: set<Blob>, wal: Blobs, later: Lookups, k: Blob)
    requires k !in direct && k !in done
    ensures k !in MergedSoFar(direct, done, wal, later)
    ensures MergedSoFar(direct, done + {k}, wal, later)
         == if k in wal then MergedSoFar(direct, done, wal, later)[k := wal[k]]
            else if Live(later(k), k) then MergedSoFar(direct, done, wal, later)[k := later(k)[k].kvBytes]
            else MergedSoFar(direct, done, wal, later)
  {
    FoundOne(done, wal, later, k);
    var found := Found(done, wal, later);
    if k in wal {
      OverlayOne(direct, found, k, wal[k]);
    } else if Live(later(k), k) {
      OverlayOne(direct, found, k, later(k)[k].kvBytes);
    }
  }

  lemma MergeRest(direct: Blobs, stale: set<Blob>, wal: Blobs, later: Lookups)
    requires stale !! direct.Keys
    ensures wal + MergedSoFar(direct, stale, wal, later) == Merge(direct, stale, wal, later)
  {}

  /** The merge loops of the source: the stale keys one by one, then what the log has beyond them. */
  method PhaseThree(direct: Blobs, stale: set<Blob>, wal: Blobs, later: Lookups) returns (merged: Blobs)
    requires stale !! direct.Keys
    ensures merged == Merge(direct, stale, wal, later)
  {
    merged := direct;
    var left := stale;
    assert MergedSoFar(direct, {}, wal, later) == direct;
    assert stale - left == {};
    while left != {}
      invariant left <= stale
      invariant merged == MergedSoFar(direct, stale - left, wal, later)
      decreases |left|
    {
      var k :| k in left;
      MergeOne(direct, stale - left, wal, later, k);
      assert stale - (left - {k}) == (stale - left) + {k};
      if k in wal {
        merged := merged[k := wal[k]];
      }
      if k !in merged && Live(later(k), k) {
        merged := merged[k := later(k)[k].kvBytes];
      }
      left := left - {k};
    }
    assert stale - left == stale;
    MergeRest(direct, stale, wal, later);
    merged := wal + merged;
  }

  /** The whole read: `keys` is the map under the first lock, `wal` what the log scan returned and
      `later` the map at each lookup of the merge. */
  function HistoricalResult(keys: Keys, wal: Blobs, later: Lookups, bound: RangeBound, f: RevFilter, t: nat): Blobs {
    var direct := BlobsOf(keys, WithVerdict(keys, bound, f, t, Direct));
    var stale := WithVerdict(keys, bound, f, t, Stale);
    if stale == {} then direct else Merge(direct, stale, wal, later)
  }

  /** `range_historical` up to sorting and limiting, with its early return when nothing is stale;
      `None` when the log has to be scanned and the scan fails. */
  method RangeHistorical(keys: Keys, file: Blob, later: Lookups, bound: RangeBound, f: RevFilter, t: nat)
    returns (result: Option<Blobs>)
    requires Scannable(bound)
    ensures result.None? <==> WithVerdict(keys, bound, f, t, Stale) != {} && Scan(file).failed
    ensures result.Some? ==> result.value == HistoricalResult(keys, WalFold(Scan(file).records, bound, t), later, bound, f, t)
  {
    var direct, stale := PhaseOne(keys, bound, f, t);
    if stale == {} { return Some(direct); }
    var wal := ScanWalRange(file, bound, t);
    if wal.None? { return None; }
    var merged := PhaseThree(direct, stale, wal.value, later);
    return Some(merged);
  }

  // ------------------------------------------------------------------ exactness

  /** The key was alive at `t`, with revisions that pass the filters. */
  ghost predicate WasSelected(log: seq<Record>, f: RevFilter, t: nat, k: Blob) {
    Live(StateAt(log, t).keys, k) && Passes(f, StateAt(log, t).keys[k])
  }

  /** The right answer: the entries at `t` that pass the filters, as they were then. */
  ghost function Filtered(log: seq<Record>, bound: RangeBound, f: RevFilter, t: nat): Blobs {
    map k | k in StateAt(log, t).keys && Matches(bound, k) && WasSelected(log, f, t, k) :: StateAt(log, t).keys[k].kvBytes
  }

  /** The right answer without filters. */
  ghost function Expected(log: seq<Record>, bound: RangeBound, t: nat): Blobs {
    Restrict(Snapshot(log, t), bound)
  }

  lemma BlobsEqual(a: Blobs, b: Blobs)
    requires forall k :: k in a <==> k in b
    requires forall k :: k in a ==> k in b && a[k] == b[k]
    ensures a == b
  {}

  lemma FilteredIsExpected(log: seq<Record>, bound: RangeBound, t: nat)
    requires Positive(log)
    ensures Filtered(log, bound, NO_FILTER, t) == Expected(log, bound, t)
  {
    forall k ensures k in Filtered(log, bound, NO_FILTER, t) <==> k in Expected(log, bound, t)
             ensures k in Expected(log, bound, t) ==> k in StateAt(log, t).keys && Expected(log, bound, t)[k] == StateAt(log, t).keys[k].kvBytes
    {
      SnapshotIsLivePart(log, t, k);
    }
    BlobsEqual(Filtered(log, bound, NO_FILTER, t), Expected(log, bound, t));
  }

  /** The map says the key was not there, or hides it because its newest entry does not pass, but it
      was there and did: in an earlier lifetime, or before its last write. */
  ghost predicate Missed(log: seq<Record>, f: RevFilter, t: nat, k: Blob) {
    k in Replay(log).keys && WasSelected(log, f, t, k)
    && (Replay(log).keys[k].createRev > t || (Alive(Replay(log).keys[k]) && !Passes(f, Replay(log).keys[k])))
  }

  /** A key deleted after `t` that does not pass the filters: tombstones are not filtered. */
  ghost predicate Unfiltered(log: seq<Record>, f: RevFilter, t: nat, k: Blob) {
    k in Replay(log).keys && !Alive(Replay(log).keys[k]) && !Passes(f, Replay(log).keys[k])
    && Replay(log).keys[k].modRev <= t < Replay(log).keys[k].deleteRev
  }

  /** A key whose entry is too new, that did not exist at `t`, and is alive when the merge looks at it. */
  ghost predicate Resurrected(log: seq<Record>, later: Lookups, f: RevFilter, t: nat, k: Blob) {
    k in Replay(log).keys && Classify(Replay(log).keys[k], f, t) == Stale
    && k !in Snapshot(log, t) && Live(later(k), k)
  }

  lemma DirectIsRight(log: seq<Record>, bound: RangeBound, f: RevFilter, t: nat, k: Blob)
    requires WfLog(log) && k in WithVerdict(Replay(log).keys, bound, f, t, Direct)
    ensures k in Expected(log, bound, t) && Expected(log, bound, t)[k] == Replay(log).keys[k].kvBytes
    ensures Live(StateAt(log, t).keys, k) && StateAt(log, t).keys[k].kvBytes == Replay(log).keys[k].kvBytes
    ensures Passes(f, StateAt(log, t).keys[k]) <==> Passes(f, Replay(log).keys[k])
  {
    EntryTellsHistory(log, t, k);
    EntryAt(log, t, k);
  }

  /** How one key of the range fares without stale keys. */
  lemma OneKeyWithoutStale(log: seq<Record>, bound: RangeBound, f: RevFilter, t: nat, k: Blob)
    requires WfLog(log) && Matches(bound, k) && k !in WithVerdict(Replay(log).keys, bound, f, t, Stale)
    ensures k in WithVerdict(Replay(log).keys, bound, f, t, Direct) && !WasSelected(log, f, t, k) <==> Unfiltered(log, f, t, k)
    ensures k !in WithVerdict(Replay(log).keys, bound, f, t, Direct) && WasSelected(log, f, t, k) <==> Missed(log, f, t, k)
  {
    hide Matches, Passes;
    EntryAt(log, t, k);
    WfLogMem(log);
    if k in WithVerdict(Replay(log).keys, bound, f, t, Direct) { DirectIsRight(log, bound, f, t, k); }
    if k in Replay(log).keys { assert EntryOk(k, Replay(log).keys[k]); }
  }

  /** Without stale keys the read is right if and only if no key in range is missed and no tombstone
      in range escapes the filters. */
  lemma ExactWithoutStale(log: seq<Record>, wal: Blobs, later: Lookups, bound: RangeBound, f: RevFilter, t: nat)
    requires WfLog(log) && WithVerdict(Replay(log).keys, bound, f, t, Stale) == {}
    ensures HistoricalResult(Replay(log).keys, wal, later, bound, f, t) == Filtered(log, bound, f, t)
            <==> !exists k :: Matches(bound, k) && (Missed(log, f, t, k) || Unfiltered(log, f, t, k))
  {
    hide Matches, WasSelected, Missed, Unfiltered, Replay, StateAt;
    var keys, right := Replay(log).keys, Filtered(log, bound, f, t);
    var direct := WithVerdict(keys, bound, f, t, Direct);
    var result := HistoricalResult(keys, wal, later, bound, f, t);
    forall k ensures k in result <==> k in direct {}
    forall k ensures k in right <==> Matches(bound, k) && WasSelected(log, f, t, k) { WasSelectedIsThere(log, f, t, k); }
    forall k | Matches(bound, k) ensures (k in result <==> k in right) <==> !Missed(log, f, t, k) && !Unfiltered(log, f, t, k) {
      OneKeyWithoutStale(log, bound, f, t, k);
    }
    forall k | k in result && k in right ensures result[k] == right[k] { DirectIsRight(log, bound, f, t, k); }
    if !exists k :: Matches(bound, k) && (Missed(log, f, t, k) || Unfiltered(log, f, t, k)) {
      BlobsEqual(result, right);
    }
  }

  lemma WasSelectedIsThere(log: seq<Record>, f: RevFilter, t: nat, k: Blob)
    ensures WasSelected(log, f, t, k) ==> k in StateAt(log, t).keys
  {}

  /** With stale keys the log scan supplies every key that existed at `t`, whatever the filters say,
      and the fallback may add keys that did not. */
  lemma MergeIsUnfiltered(log: seq<Record>, later: Lookups, bound: RangeBound, f: RevFilter, t: nat)
    requires WfLog(log) && WithVerdict(Replay(log).keys, bound, f, t, Stale) != {}
    ensures forall k :: k in Expected(log, bound, t) ==>
              k in HistoricalResult(Replay(log).keys, Expected(log, bound, t), later, bound, f, t)
              && HistoricalResult(Replay(log).keys, Expected(log, bound, t), later, bound, f, t)[k] == Expected(log, bound, t)[k]
    ensures HistoricalResult(Replay(log).keys, Expected(log, bound, t), later, bound, f, t) == Expected(log, bound, t)
            <==> !exists k :: Matches(bound, k) && Resurrected(log, later, f, t, k)
  {
    hide Matches, Replay, Snapshot;
    var keys, expected := Replay(log).keys, Expected(log, bound, t);
    var stale := WithVerdict(keys, bound, f, t, Stale);
    var result := HistoricalResult(keys, expected, later, bound, f, t);
    forall k | k in expected ensures k in result && result[k] == expected[k] {
      if k in WithVerdict(keys, bound, f, t, Direct) { DirectIsRight(log, bound, f, t, k); }
    }
    forall k | k in result && k !in expected ensures Matches(bound, k) && Resurrected(log, later, f, t, k) {
      if k in WithVerdict(keys, bound, f, t, Direct) { DirectIsRight(log, bound, f, t, k); }
      assert k in Fallback(stale, expected, later);
    }
    if k :| Matches(bound, k) && Resurrected(log, later, f, t, k) {
      assert k in Fallback(stale, expected, later);
      assert k in result && k !in expected;
    } else {
      BlobsEqual(result, expected);
    }
  }

  /** Every key in range that existed at `t` passes the filters. */
  ghost predicate AllPass(log: seq<Record>, bound: RangeBound, f: RevFilter, t: nat) {
    forall k :: k in Expected(log, bound, t) ==> WasSelected(log, f, t, k)
  }

  lemma FilteredWithin(log: seq<Record>, bound: RangeBound, f: RevFilter, t: nat)
    requires Positive(log)
    ensures forall k :: k in Filtered(log, bound, f, t) ==> k in Expected(log, bound, t)
    ensures Filtered(log, bound, f, t) == Expected(log, bound, t) <==> AllPass(log, bound, f, t)
  {
    hide Passes, Matches;
    var right, expected := Filtered(log, bound, f, t), Expected(log, bound, t);
    forall k ensures (k in right <==> Matches(bound, k) && WasSelected(log, f, t, k))
             ensures k in right ==> k in expected && right[k] == expected[k]
    {
      SnapshotIsLivePart(log, t, k);
    }
    if AllPass(log, bound, f, t) { BlobsEqual(right, expected); }
  }

  /** With stale keys the read is right if and only if the fallback adds nothing and there is nothing
      to filter. */
  lemma ExactWithStale(log: seq<Record>, later: Lookups, bound: RangeBound, f: RevFilter, t: nat)
    requires WfLog(log) && WithVerdict(Replay(log).keys, bound, f, t, Stale) != {}
    ensures HistoricalResult(Replay(log).keys, Expected(log, bound, t), later, bound, f, t) == Filtered(log, bound, f, t)
            <==> AllPass(log, bound, f, t) && !exists k :: Matches(bound, k) && Resurrected(log, later, f, t, k)
  {
    hide Matches, Replay, Resurrected, AllPass, Filtered, Expected, HistoricalResult;
    WfPositive(log);
    MergeIsUnfiltered(log, later, bound, f, t);
    FilteredWithin(log, bound, f, t);
    var result, right, expected :=
      HistoricalResult(Replay(log).keys, Expected(log, bound, t), later, bound, f, t), Filtered(log, bound, f, t), Expected(log, bound, t);
    if result == right { BlobsEqual(expected, right); }
  }

  /** The condition, for either way through the read. */
  ghost predicate ReadsRight(log: seq<Record>, later: Lookups, bound: RangeBound, f: RevFilter, t: nat) {
    if WithVerdict(Replay(log).keys, bound, f, t, Stale) == {} then
      !exists k :: Matches(bound, k) && (Missed(log, f, t, k) || Unfiltered(log, f, t, k))
    else AllPass(log, bound, f, t) && !exists k :: Matches(bound, k) && Resurrected(log, later, f, t, k)
  }

  /** Any historical read, filters included, on the file as it is when the scan reads it and on the
      map as it is at each lookup: right if and only if the condition holds. */
  lemma HistoricalReadIsExact(log: seq<Record>, more: seq<Record>, torn: Blob, later: Lookups, bound: RangeBound, f: RevFilter, t: nat)
    requires WfLog(log) && (forall r :: r in log + more ==> Fits(r)) && (forall r :: r in more ==> r.modRev > t)
    requires torn == [] || TornWrite(torn)
    ensures ReadsRight(log, later, bound, f, t) <==>
            HistoricalResult(Replay(log).keys, WalFold(Scan(SerializeAll(log + more) + torn).records, bound, t), later, bound, f, t)
            == Filtered(log, bound, f, t)
  {
    hide Matches, Replay, Resurrected, AllPass, Filtered, HistoricalResult, WalFold, Snapshot, Fits, SerializeAll, TornWrite, WithVerdict, Missed, Unfiltered;
    WalScanReadsSnapshot(log + more, torn, bound, t);
    SnapshotStable(log, more, t);
    if WithVerdict(Replay(log).keys, bound, f, t, Stale) == {} {
      ExactWithoutStale(log, Expected(log, bound, t), later, bound, f, t);
    } else {
      ExactWithStale(log, later, bound, f, t);
    }
  }

  /** Every key in range was born once, or its current lifetime had begun by `t`. */
  ghost predicate LifetimesCover(log: seq<Record>, bound: RangeBound, t: nat) {
    forall k :: k in Replay(log).keys && Matches(bound, k) ==> Births(log, k) <= 1 || Replay(log).keys[k].createRev <= t
  }

  lemma NeverRebornNeverStale(log: seq<Record>, k: Blob)
    requires WfLog(log) && k in Replay(log).keys && Births(log, k) <= 1
    ensures !Replay(log).keys[k].rebirth
  {
    RebirthMeansTwoBirths(log, k);
  }

  lemma {:induction false} RebirthMeansTwoBirths(log: seq<Record>, k: Blob)
    requires WfLog(log)
    ensures k in Replay(log).keys ==> Births(log, k) > 0
    ensures k in Replay(log).keys && Replay(log).keys[k].rebirth ==> Births(log, k) > 1
  {
    if log != [] {
      var init, r := log[..|log| - 1], log[|log| - 1];
      RebirthMeansTwoBirths(init, k);
      WfPositive(init);
      VersionCountsPuts(init, k);
    }
  }

  /** A historical read refines the log. The log scan may run on any later state of the file, cut
      off in the middle of a write, and the merge on any later map: as long as every key in range
      was never recreated or already in its current lifetime at `t`, the read returns exactly the
      fold of the records at or below `t`. */
  lemma HistoricalReadRefinesLog(log: seq<Record>, more: seq<Record>, torn: Blob, later: Lookups, bound: RangeBound, t: nat)
    requires WfLog(log) && (forall r :: r in log + more ==> Fits(r)) && (forall r :: r in more ==> r.modRev > t)
    requires (torn == [] || TornWrite(torn)) && LifetimesCover(log, bound, t)
    ensures var wal := WalFold(Scan(SerializeAll(log + more) + torn).records, bound, t);
            HistoricalResult(Replay(log).keys, wal, later, bound, NO_FILTER, t) == Expected(log, bound, t)
  {
    hide ReadsRight, LifetimesCover, HistoricalResult, Filtered, Expected, WalFold, Replay, Fits, SerializeAll, TornWrite;
    WfPositive(log);
    CoverReadsRight(log, later, bound, t);
    HistoricalReadIsExact(log, more, torn, later, bound, NO_FILTER, t);
    FilteredIsExpected(log, bound, t);
  }

  /** Then every unfiltered read is right. */
  lemma CoverReadsRight(log: seq<Record>, later: Lookups, bound: RangeBound, t: nat)
    requires WfLog(log) && LifetimesCover(log, bound, t)
    ensures ReadsRight(log, later, bound, NO_FILTER, t)
  {
    hide StateAt, Snapshot, Matches;
    WfPositive(log);
    FilteredWithin(log, bound, NO_FILTER, t);
    FilteredIsExpected(log, bound, t);
    forall k | Matches(bound, k)
      ensures !Missed(log, NO_FILTER, t, k) && !Unfiltered(log, NO_FILTER, t, k) && !Resurrected(log, later, NO_FILTER, t, k)
    {
      SnapshotIsLivePart(log, t, k);
      EntryTellsHistory(log, t, k);
      if k in Replay(log).keys && Births(log, k) <= 1 { NeverRebornNeverStale(log, k); }
    }
  }

  /** The right answer never changes: later writes leave it as it was. */
  lemma ExpectedIsStable(log: seq<Record>, more: seq<Record>, bound: RangeBound, t: nat)
    requires forall r :: r in more ==> r.modRev > t
    ensures Expected(log + more, bound, t) == Expected(log, bound, t)
  {
    SnapshotStable(log, more, t);
  }

  // ------------------------------------------------------- where the read departs

  lemma PutNext(log: seq<Record>, key: Blob, value: Blob, rev: nat) returns (r: Record)
    requires WfLog(log) && MaxRev(log) <= rev && rev > 0 && |key| < TWO32
    ensures r.key == key && !Deleted(r) && r.modRev == rev && WfLog(log + [r]) && MaxRev(log + [r]) == rev
    ensures key in Replay(log + [r]).keys && Replay(log + [r]).keys == Replay(log).keys[key := Replay(log + [r]).keys[key]]
    ensures Replay(log + [r]).keys[key].kvBytes == KvBytes(r)
    ensures var before, ks := Replay(log).keys, Replay(log + [r]).keys[key];
            Alive(ks) && ks.modRev == rev && ks.createRev == (if Live(before, key) then before[key].createRev else rev)
            && (ks.rebirth <==> key in before && !Alive(before[key]))
  {
    r := PutRecord(Replay(log).keys, key, value, 0, rev);
    LoggedRecords(Replay(log).keys, key, value, 0, rev);
    WfLogSnoc(log, r);
  }

  lemma DeleteNext(log: seq<Record>, key: Blob, rev: nat) returns (r: Record)
    requires WfLog(log) && MaxRev(log) <= rev && rev > 0 && Live(Replay(log).keys, key)
    ensures r.key == key && Deleted(r) && r.modRev == rev && WfLog(log + [r]) && MaxRev(log + [r]) == rev
    ensures key in Replay(log + [r]).keys && !Alive(Replay(log + [r]).keys[key])
    ensures Replay(log + [r]).keys == Replay(log).keys[key := Replay(log + [r]).keys[key]]
  {
    r := DeleteRecord(Replay(log).keys, key, rev);
    LoggedRecords(Replay(log).keys, key, [], 0, rev);
    WfLogSnoc(log, r);
  }

  lemma Recreated(key: Blob, value: Blob) returns (first: seq<Record>, second: Record, third: Record)
    requires |key| < TWO32
    ensures WfLog(first) && MaxRev(first) == 1 && Live(Replay(first).keys, key)
    ensures second.modRev == 2 && WfLog(first + [second]) && MaxRev(first + [second]) == 2
    ensures !Live(Replay(first + [second]).keys, key)
    ensures third.modRev == 3 && WfLog(first + [second] + [third]) && MaxRev(first + [second] + [third]) == 3
    ensures Live(Replay(first + [second] + [third]).keys, key)
    ensures var ks := Replay(first + [second] + [third]).keys[key]; ks.createRev == 3 && ks.rebirth
  {
    var r := PutNext([], key, value, 1);
    first := [] + [r];
    second := DeleteNext(first, key, 2);
    third := PutNext(first + [second], key, value, 3);
  }

  lemma FirstStaysVisible(first: seq<Record>, second: Record, third: Record, fourth: Record, key: Blob)
    requires WfLog(first) && MaxRev(first) == 1 && Live(Replay(first).keys, key)
    requires second.modRev > 1 && third.modRev > 1 && fourth.modRev > 1
    ensures key in Snapshot(first + [second] + [third] + [fourth], 1)
  {
    assert first + [second] + [third] + [fourth] == first + [second, third, fourth];
    SnapshotStable(first, [second, third, fourth], 1);
    SnapshotNow(first, 1, key);
  }

  /** Create, delete, recreate and update a key: the update clears the rebirth mark, and a read at
      the first revision finds nothing although the key existed then. */
  lemma EarlierLifetimeMissed(key: Blob, value: Blob, wal: Blobs, later: Lookups) returns (log: seq<Record>)
    requires |key| < TWO32
    ensures WfLog(log) && MaxRev(log) == 4 && key in Snapshot(log, 1)
    ensures HistoricalResult(Replay(log).keys, wal, later, Point(key), NO_FILTER, 1) == map[]
  {
    var first, second, third := Recreated(key, value);
    var fourth := PutNext(first + [second] + [third], key, value, 4);
    log := first + [second] + [third] + [fourth];
    FirstStaysVisible(first, second, third, fourth, key);
    NothingFound(Replay(log).keys, wal, later, key, 1);
  }

  lemma NothingFound(keys: Keys, wal: Blobs, later: Lookups, key: Blob, t: nat)
    requires Live(keys, key) && keys[key].createRev > t && !keys[key].rebirth
    ensures HistoricalResult(keys, wal, later, Point(key), NO_FILTER, t) == map[]
  {
    assert WithVerdict(keys, Point(key), NO_FILTER, t, Stale) == {};
    assert WithVerdict(keys, Point(key), NO_FILTER, t, Direct) == {};
  }

  /** Create, delete and recreate a key: a read at the revision of the delete is marked stale,
      misses in the log, and falls back to the value written afterwards. */
  lemma DeletedKeyResurrected(key: Blob, value: Blob) returns (log: seq<Record>)
    requires |key| < TWO32
    ensures WfLog(log) && MaxRev(log) == 3 && key !in Snapshot(log, 2)
    ensures key in HistoricalResult(Replay(log).keys, Expected(log, Point(key), 2), _ => Replay(log).keys, Point(key), NO_FILTER, 2)
  {
    var first, second, third := Recreated(key, value);
    var l2 := first + [second];
    log := l2 + [third];
    SnapshotStable(l2, [third], 2);
    SnapshotNow(l2, 2, key);
    var stale := WithVerdict(Replay(log).keys, Point(key), NO_FILTER, 2, Stale);
    assert key in stale;
    assert key in Fallback(stale, Expected(log, Point(key), 2), _ => Replay(log).keys);
  }

  /** Put `a` at 1 and `b` at 2 and 3, and read at 2 what was modified at 2 or later: `b` has changed
      since, so the log is scanned, and `a` comes out as well. */
  lemma FilterIgnored(a: Blob, b: Blob, value: Blob) returns (log: seq<Record>)
    requires a != b && |a| < TWO32 && |b| < TWO32
    ensures WfLog(log) && MaxRev(log) == 3
    ensures var f := RevFilter(2, 0, 0, 0);
            a !in Filtered(log, All, f, 2)
            && a in HistoricalResult(Replay(log).keys, Expected(log, All, 2), _ => Replay(log).keys, All, f, 2)
  {
    hide KvBytes;
    var none: seq<Record> := [];
    var first := PutNext(none, a, value, 1);
    var l1 := none + [first];
    var second := PutNext(l1, b, value, 2);
    var l2 := l1 + [second];
    var third := PutNext(l2, b, value, 3);
    log := l2 + [third];
    var f := RevFilter(2, 0, 0, 0);
    StateStable(l2, [third], 2);
    StateNow(l2, 2);
    WfPositive(log);
    SnapshotIsLivePart(log, 2, a);
    assert b in WithVerdict(Replay(log).keys, All, f, 2, Stale);
    MergeIsUnfiltered(log, _ => Replay(log).keys, All, f, 2);
  }
}
