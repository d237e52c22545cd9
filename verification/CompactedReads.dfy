/** Reads of a past revision in a process that has compacted its log file since. */
module CompactedReads {
  import opened Bytes
  import opened Varint
  import opened KvCodec
  import opened KvParse
  import opened Wal
  import opened Ranges
  import opened KeyMap
  import opened History
  import opened HistoricalRead
  import opened Compaction

  /** The snapshot holds no record of a key that is not alive. */
  lemma SnapshotHoldsLive(keys: Keys, r: Record)
    requires r in SnapshotLog(keys)
    ensures Live(keys, r.key) && r == SnapshotRecord(r.key, keys[r.key])
  {
    var ks, recs := InOrder(LiveKeys(keys)), SnapshotLog(keys);
    var i :| 0 <= i < |recs| && recs[i] == r;
    assert ks[i] in ks;
  }

  /** What a log says of a key at `t` comes from a record of that key at or below `t`. */
  lemma {:induction false} SnapshotFrom(log: seq<Record>, t: nat, k: Blob)
    requires k in Snapshot(log, t)
    ensures exists r :: r in log && r.key == k && r.modRev <= t
  {
    var n := |log| - 1;
    assert log == log[..n] + [log[n]];
    if log[n].key == k && log[n].modRev <= t {
      assert log[n] in log;
    } else {
      SnapshotFrom(log[..n], t, k);
      var r :| r in log[..n] && r.key == k && r.modRev <= t;
      assert r in log;
    }
  }

  /** A key that changed since `t` is not found in the compacted file. */
  lemma CompactedFileMisses(keys: Keys, t: nat, k: Blob)
    requires Live(keys, k) ==> keys[k].modRev > t
    ensures k !in Snapshot(SnapshotLog(keys), t)
  {
    hide SnapshotLog, Snapshot;
    if k in Snapshot(SnapshotLog(keys), t) {
      SnapshotFrom(SnapshotLog(keys), t, k);
      var r :| r in SnapshotLog(keys) && r.key == k && r.modRev <= t;
      SnapshotHoldsLive(keys, r);
    }
  }

  /** The blobs of two states of a key differ if its revision does. */
  lemma NewerBlobDiffers(k: Blob, a: KeyState, b: KeyState)
    requires EntryOk(k, a) && EntryOk(k, b) && a.modRev != b.modRev
    requires Representable(StateKv(k, a)) && Representable(StateKv(k, b))
    ensures a.kvBytes != b.kvBytes
  {
    EncodeInjective(StateKv(k, a), StateKv(k, b));
  }

  lemma {:induction false} StateAtOk(log: seq<Record>, t: nat)
    requires WfLog(log)
    ensures exists n :: 0 <= n <= |log| && StateAt(log, t) == Replay(log[..n]) && MaxRev(log[..n]) <= t
  {
    hide KvBytes, ApplyRecord;
    if log == [] {
      assert log[..0] == log;
    } else {
      var k := |log| - 1;
      StateAtOk(log[..k], t);
      if log[k].modRev <= t {
        StateNow(log, t);
        assert log[..|log|] == log;
      } else {
        var n :| 0 <= n <= k && StateAt(log[..k], t) == Replay(log[..k][..n]) && MaxRev(log[..k][..n]) <= t;
        assert log[..k][..n] == log[..n];
      }
    }
  }

  /** A key that changed since `t` had another blob then. */
  lemma OldBlobDiffers(log: seq<Record>, t: nat, k: Blob)
    requires WfLog(log) && k in Replay(log).keys && Replay(log).keys[k].modRev > t && Live(StateAt(log, t).keys, k)
    requires forall n :: 0 <= n <= |log| && k in Replay(log[..n]).keys ==> Representable(StateKv(k, Replay(log[..n]).keys[k]))
    ensures StateAt(log, t).keys[k].kvBytes != Replay(log).keys[k].kvBytes
  {
    hide KvBytes, StateBytes, StateAt, Replay, Representable;
    StateAtOk(log, t);
    var n :| 0 <= n <= |log| && StateAt(log, t) == Replay(log[..n]) && MaxRev(log[..n]) <= t;
    WfLogPrefix(log, n);
    WfLogMem(log[..n]);
    WfLogMem(log);
    assert log[..|log|] == log;
    var was, ks := Replay(log[..n]).keys[k], Replay(log).keys[k];
    assert EntryOk(k, was) && EntryOk(k, ks) && LastRev(was) <= MaxRev(log[..n]);
    NewerBlobDiffers(k, was, ks);
  }

  /** What the merge makes of a stale key the file does not have: its newest value, or nothing. */
  lemma StaleFallsBack(keys: Keys, wal: Blobs, bound: RangeBound, t: nat, k: Blob)
    requires k in WithVerdict(keys, bound, NO_FILTER, t, Stale) && k !in wal
    ensures var result := HistoricalResult(keys, wal, _ => keys, bound, NO_FILTER, t);
            k in result ==> result[k] == keys[k].kvBytes
  {
    hide Matches, Passes;
  }

  /** A stale key existed at `t` in its present lifetime. */
  lemma StaleWasAlive(log: seq<Record>, bound: RangeBound, t: nat, k: Blob)
    requires WfLog(log) && LifetimesCover(log, bound, t) && k in WithVerdict(Replay(log).keys, bound, NO_FILTER, t, Stale)
    ensures k in Expected(log, bound, t) && Live(StateAt(log, t).keys, k) && Expected(log, bound, t)[k] == StateAt(log, t).keys[k].kvBytes
    ensures Replay(log).keys[k].modRev > t
  {
    hide Replay, StateAt, Snapshot, Matches;
    EntryTellsHistory(log, t, k);
    WfPositive(log);
    SnapshotIsLivePart(log, t, k);
    WfLogMem(log);
    assert EntryOk(k, Replay(log).keys[k]);
    if Births(log, k) <= 1 { NeverRebornNeverStale(log, k); }
  }

  /** So a stale key's answer after a compaction is not the right one. */
  lemma StaleIsWrong(log: seq<Record>, bound: RangeBound, t: nat, k: Blob)
    requires WfLog(log) && LifetimesCover(log, bound, t) && k in WithVerdict(Replay(log).keys, bound, NO_FILTER, t, Stale)
    requires forall n :: 0 <= n <= |log| && k in Replay(log[..n]).keys ==> Representable(StateKv(k, Replay(log[..n]).keys[k]))
    ensures var keys := Replay(log).keys;
            var result := HistoricalResult(keys, Restrict(Snapshot(SnapshotLog(keys), t), bound), _ => keys, bound, NO_FILTER, t);
            k in Expected(log, bound, t)
            && (k !in result || (result[k] == keys[k].kvBytes && Expected(log, bound, t)[k] != result[k]))
  {
    hide SnapshotLog, Snapshot, StateAt, Replay, HistoricalResult, Expected, LifetimesCover, Representable;
    var keys := Replay(log).keys;
    StaleWasAlive(log, bound, t, k);
    OldBlobDiffers(log, t, k);
    CompactedFileMisses(keys, t, k);
    StaleFallsBack(keys, Restrict(Snapshot(SnapshotLog(keys), t), bound), bound, t, k);
  }

  /** In a process that has just compacted its file, a read of an earlier revision is right if and only
      if no key in range has changed since: the old values are not in the file any more. */
  lemma ReadAfterCompactionIsExact(log: seq<Record>, bound: RangeBound, t: nat)
    requires WfLog(log) && LifetimesCover(log, bound, t)
    requires forall n, k :: 0 <= n <= |log| && k in Replay(log[..n]).keys ==> Representable(StateKv(k, Replay(log[..n]).keys[k]))
    requires forall r :: r in SnapshotLog(Replay(log).keys) ==> Fits(r)
    ensures var keys := Replay(log).keys;
            WithVerdict(keys, bound, NO_FILTER, t, Stale) == {} <==>
            HistoricalResult(keys, WalFold(Scan(SerializeAll(SnapshotLog(keys)) + []).records, bound, t), _ => keys, bound, NO_FILTER, t)
            == Expected(log, bound, t)
  {
    hide SnapshotLog, Snapshot, KvBytes, Replay, Fits, WalFold, SerializeAll, LifetimesCover, Representable, ReadsRight, Filtered;
    var keys := Replay(log).keys;
    WalScanReadsSnapshot(SnapshotLog(keys), [], bound, t);
    var wal := Restrict(Snapshot(SnapshotLog(keys), t), bound);
    if k :| k in WithVerdict(keys, bound, NO_FILTER, t, Stale) {
      StaleIsWrong(log, bound, t, k);
    } else {
      WfPositive(log);
      CoverReadsRight(log, _ => keys, bound, t);
      NoStaleIsRight(log, wal, _ => keys, bound, t);
      FilteredIsExpected(log, bound, t);
    }
  }

  lemma NoStaleIsRight(log: seq<Record>, wal: Blobs, later: Lookups, bound: RangeBound, t: nat)
    requires WfLog(log) && WithVerdict(Replay(log).keys, bound, NO_FILTER, t, Stale) == {} && ReadsRight(log, later, bound, NO_FILTER, t)
    ensures HistoricalResult(Replay(log).keys, wal, later, bound, NO_FILTER, t) == Filtered(log, bound, NO_FILTER, t)
  {
    hide Replay, HistoricalResult, Filtered, WithVerdict, Missed, Unfiltered;
    ExactWithoutStale(log, wal, later, bound, NO_FILTER, t);
  }

  /** Put a key twice, compact, read at the first revision: the second value is returned. */
  lemma CompactedReadIsNewer(key: Blob, value: Blob) returns (log: seq<Record>)
    requires |key| < TWO32
    ensures WfLog(log) && MaxRev(log) == 2
    ensures var keys := Replay(log).keys;
            var wal := Restrict(Snapshot(SnapshotLog(keys), 1), Point(key));
            key in keys && keys[key].modRev == 2 && key in Snapshot(log, 1)
            && HistoricalResult(keys, wal, _ => keys, Point(key), NO_FILTER, 1) == map[key := keys[key].kvBytes]
  {
    hide KvBytes, SnapshotLog;
    var none: seq<Record> := [];
    var first := PutNext(none, key, value, 1);
    var one := none + [first];
    var second := PutNext(one, key, value, 2);
    log := one + [second];
    SnapshotStable(one, [second], 1);
    SnapshotNow(one, 1, key);
    var keys := Replay(log).keys;
    CompactedFileMisses(keys, 1, key);
    var wal := Restrict(Snapshot(SnapshotLog(keys), 1), Point(key));
    assert wal == map[];
    assert WithVerdict(keys, Point(key), NO_FILTER, 1, Stale) == {key};
    assert WithVerdict(keys, Point(key), NO_FILTER, 1, Direct) == {};
  }
}
