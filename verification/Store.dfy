/** The store as the source has it: an object whose methods update the key map, the counters, the
    watchers and the log file in place. Each method is proved against its function in the
    specification, so whatever holds of every run of those functions holds of this object. */
module Store {
  import opened Bytes
  import opened Varint
  import opened KvCodec
  import opened Seqs
  import opened Wal
  import opened Ranges
  import opened OrderedKeys
  import opened KeyMap
  import opened StoreSpec
  import opened Recovery
  import opened TxnSpec
  import opened TxnReplies
  import opened Reads
  import opened Runs
  import Watch
  import Spec = StoreSpec
  import TxnFn = TxnSpec

  /** `b` was made by the encoder for this key. */
  ghost predicate Encoded(key: Blob, b: Blob) {
    |key| < TWO32 && exists kv: Kv :: kv.key == key && Encode(kv) == b
  }

  /** The file consists of the records, in order, with what a crash left after the first `clean` of
      them still in place: opening does not cut it off. */
  ghost predicate Holds(file: Blob, log: seq<Record>, clean: nat, torn: Blob) {
    clean <= |log| && file == SerializeAll(log[..clean]) + (torn + SerializeAll(log[clean..]))
  }

  lemma HoldsSnoc(file: Blob, log: seq<Record>, clean: nat, torn: Blob, r: Record)
    requires Holds(file, log, clean, torn)
    ensures Holds(file + SerializeRecord(r), log + [r], clean, torn)
  {
    hide SerializeAll, SerializeRecord;
    SerializeAllSnoc(log[clean..], r);
    assert (log + [r])[..clean] == log[..clean] && (log + [r])[clean..] == log[clean..] + [r];
    Associative(SerializeAll(log[..clean]), torn + SerializeAll(log[clean..]), SerializeRecord(r));
    Associative(torn, SerializeAll(log[clean..]), SerializeRecord(r));
  }

  lemma HoldsAll(file: Blob, log: seq<Record>, torn: Blob)
    requires file == SerializeAll(log) + torn
    ensures Holds(file, log, |log|, torn)
  {
    assert log[..|log|] == log && SerializeAll(log[|log|..]) == [] && torn + [] == torn;
  }

  /** Without a torn write the file is the log. */
  lemma HoldsClean(file: Blob, log: seq<Record>, clean: nat)
    requires Holds(file, log, clean, [])
    ensures file == SerializeAll(log)
  {
    hide SerializeAll;
    var front, back := log[..clean], log[clean..];
    SerializeAllConcat(front, back);
    assert front + back == log && [] + SerializeAll(back) == SerializeAll(back);
  }

  /** Every blob in the map has the encoder's layout, which the in-place patch relies on. */
  ghost predicate Laid(keys: Keys) {
    forall k :: k in keys ==> Encoded(k, keys[k].kvBytes)
  }

  lemma LaidEntry(keys: Keys, key: Blob)
    requires Laid(keys) && key in keys
    ensures Encoded(key, keys[key].kvBytes)
  {}

  lemma PutKeepsLaid(m: Mem, key: Blob, value: Blob, lease: int, rev: nat, blob: Option<Blob>)
    requires Laid(m.keys) && |key| < TWO32 && (blob.Some? ==> Encoded(key, blob.value))
    ensures Laid(ApplyPut(m, key, value, lease, rev, blob).keys)
  {
    var ks := PutEntry(Entry(m.keys, key), key, value, lease, rev, blob);
    if blob.None? { assert ks.kvBytes == Encode(StateKv(key, ks)); }
  }

  lemma DeleteKeepsLaid(m: Mem, key: Blob, rev: nat)
    requires Laid(m.keys)
    ensures Laid(ApplyDelete(m, key, rev).keys)
  {}

  lemma {:induction false} ReplayIsLaid(log: seq<Record>)
    requires forall r :: r in log ==> |r.key| < TWO32
    ensures Laid(Replay(log).keys)
  {
    if log != [] {
      var init, r := log[..|log| - 1], log[|log| - 1];
      assert r in log && forall x :: x in init ==> x in log;
      ReplayIsLaid(init);
      assert KvOf(r).key == r.key && KvBytes(r) == Encode(KvOf(r));
    }
  }

  /** The patched blob of an entry. */
  method Tombstone(key: Blob, blob: Blob, rev: nat) returns (out: Blob)
    requires Encoded(key, blob) && rev < TWO64
    ensures out == Patched(blob, rev)
  {
    ghost var kv: Kv :| kv.key == key && Encode(kv) == blob;
    PatchEqualsReencode(kv, rev);
    out := WithModRevision(blob, rev, kv);
  }

  /** The leases of live keys, re-created one by one, and the next id to hand out. */
  method RestoreLeases(keys: Keys, now: nat) returns (leases: map<int, Lease>, nextId: int)
    ensures leases == RestoredLeases(keys, now) && nextId == NextLeaseId(LeaseIds(keys))
  {
    var unique := IdsInOrder(LeaseIds(keys));
    var maxId := if unique != [] then unique[|unique| - 1] else 0;
    nextId := if maxId > 0 then maxId + 1 else 1;
    leases := map[];
    for i := 0 to |unique|
      invariant leases == map id | id in unique[..i] :: Lease(RESTORED_TTL, now + RESTORED_TTL)
    {
      assert unique[..i + 1] == unique[..i] + [unique[i]];
      leases := leases[unique[i] := Lease(RESTORED_TTL, now + RESTORED_TTL)];
    }
    assert unique[..|unique|] == unique;
  }

  /** The live keys of a range, as `delete_range_at` collects them. */
  method CollectKeys(keys: Keys, bound: RangeBound) returns (ks: seq<Blob>)
    requires Scannable(bound)
    ensures ks == KeysToDelete(keys, bound)
  {
    hide Matches;
    if bound.Point? {
      ks := if Live(keys, bound.key) then [bound.key] else [];
      PointKeys(keys, bound.key);
    } else {
      var visited := ScanRange(keys.Keys, bound);
      ks := Filter(k => Live(keys, k), visited);
      FilterSorted(k => Live(keys, k), (set k | k in keys.Keys && Matches(bound, k)), LiveMatching(keys, bound));
    }
  }

  /** The live keys on a lease. */
  method CollectLeaseKeys(keys: Keys, id: int) returns (ks: seq<Blob>)
    ensures ks == LeaseKeys(keys, id)
  {
    var on := k => k in keys && keys[k].lease == id && Alive(keys[k]);
    ks := Filter(on, Sorted(keys.Keys));
    FilterSorted(on, keys.Keys, set k | k in keys && keys[k].lease == id && Alive(keys[k]));
  }

  /** The delete records of some live keys. */
  method BuildDeletes(keys: Keys, ks: seq<Blob>, rev: nat) returns (records: seq<Record>)
    requires forall k :: k in ks ==> Live(keys, k)
    ensures records == DeleteRecords(keys, ks, rev)
  {
    records := [];
    for i := 0 to |ks|
      invariant |records| == i
      invariant forall j :: 0 <= j < i ==> records[j] == DeleteRecord(keys, ks[j], rev)
    {
      assert ks[i] in ks;
      var p := keys[ks[i]];
      var flags := DELETED;
      if p.lease != 0 { flags := flags + HAS_LEASE; }
      records := records + [Record(flags, ks[i], p.value, p.createRev, rev, p.version, p.lease)];
    }
  }

  // ------------------------------------------------------- transaction validation

  /** The intervals pushed so far: those of the writes of a branch. */
  function Intervals(bounds: seq<RangeBound>): seq<Interval> {
    seq(|bounds|, i requires 0 <= i < |bounds| => BoundInterval(bounds[i]))
  }

  /** The pairwise comparison. */
  method AnyOverlap(intervals: seq<Interval>) returns (found: bool)
    ensures found <==> exists i, j :: 0 <= i < j < |intervals| && IntervalsOverlap(intervals[i], intervals[j])
  {
    for i := 0 to |intervals|
      invariant forall a, b :: 0 <= a < i && a < b < |intervals| ==> !IntervalsOverlap(intervals[a], intervals[b])
    {
      for j := i + 1 to |intervals|
        invariant forall b :: i < b < j ==> !IntervalsOverlap(intervals[i], intervals[b])
      {
        if IntervalsOverlap(intervals[i], intervals[j]) { return true; }
      }
    }
    return false;
  }

  lemma OverlapOfIntervals(bounds: seq<RangeBound>)
    ensures Overlapping(bounds)
       <==> exists i, j :: 0 <= i < j < |bounds| && IntervalsOverlap(Intervals(bounds)[i], Intervals(bounds)[j])
  {
    hide IntervalsOverlap, BoundInterval;
    var s := Intervals(bounds);
    assert forall i :: 0 <= i < |bounds| ==> s[i] == BoundInterval(bounds[i]);
    if i, j :| 0 <= i < j < |bounds| && IntervalsOverlap(BoundInterval(bounds[i]), BoundInterval(bounds[j])) {
      assert IntervalsOverlap(s[i], s[j]);
    }
    if i, j :| 0 <= i < j < |bounds| && IntervalsOverlap(s[i], s[j]) {
      assert IntervalsOverlap(BoundInterval(bounds[i]), BoundInterval(bounds[j]));
    }
  }

  /** One operation: its error, or the interval it writes. */
  method CheckTxnOp(op: Op) returns (e: Option<Error>, interval: Option<Interval>)
    ensures e == CheckOp(op)
    ensures e.None? ==> interval == match WriteBound(op) case None => None case Some(b) => Some(BoundInterval(b))
    decreases op
  {
    e, interval := None, None;
    match op
    case PutOp(p) =>
      if p.key == [] { return Some(KeyNotProvided), None; }
      interval := Some(BoundInterval(Point(p.key)));
    case DeleteOp(d) =>
      if d.key == [] { return Some(KeyNotProvided), None; }
      interval := Some(BoundInterval(ResolveRange(d.key, d.rangeEnd)));
    case RangeOp(r) =>
      if r.key == [] { return Some(KeyNotProvided), None; }
    case TxnOp(t) =>
      e := CheckTxnBranch(t.success);
      if e.Some? { return; }
      e := CheckTxnBranch(t.failure);
    case NoOp =>
  }

  /** `check_txn_branch`: keys first, nested branches as they come, then the overlap check. */
  method CheckTxnBranch(ops: seq<Op>) returns (e: Option<Error>)
    ensures e == CheckBranch(ops)
    decreases ops, 0
  {
    var intervals: seq<Interval> := [];
    for i := 0 to |ops|
      invariant CheckOps(ops[..i]).None?
      invariant intervals == Intervals(WriteBounds(ops[..i]))
    {
      assert ops[..i + 1][..i] == ops[..i];
      CheckOpsPrefix(ops, i + 1);
      var err, interval := CheckTxnOp(ops[i]);
      if err.Some? { return err; }
      if interval.Some? { intervals := intervals + [interval.value]; }
    }
    assert ops[..|ops|] == ops;
    OverlapOfIntervals(WriteBounds(ops));
    var found := AnyOverlap(intervals);
    return if found then Some(DuplicateKey) else None;
  }

  /** The first error of a prefix is the first error of the whole. */
  lemma {:induction false} CheckOpsPrefix(ops: seq<Op>, i: nat)
    requires i <= |ops|
    ensures CheckOps(ops[..i]).Some? ==> CheckOps(ops) == CheckOps(ops[..i])
    decreases |ops|
  {
    if i == |ops| {
      assert ops[..i] == ops;
    } else {
      var n := |ops| - 1;
      CheckOpsPrefix(ops[..n], i);
      assert ops[..n][..i] == ops[..i];
    }
  }

  class StoreState {
    var keys: Keys
    var keyCount: nat
    var leases: map<int, Lease>
    var watchers: seq<Watcher>
    var nextRev: nat
    var nextLeaseId: int
    var compactRev: nat
    /** The bytes of the log file. */
    var wal: Blob
    /** The records they hold. */
    ghost var log: seq<Record>
    /** The torn write found when the file was opened, and how many records precede it. */
    ghost const torn: Blob
    ghost const clean: nat

    ghost predicate Valid()
      reads this
    {
      Holds(wal, log, clean, torn) && Laid(keys)
    }

    ghost function View(): State
      reads this
    {
      State(Db(Mem(keys, keyCount), watchers, log), leases, nextRev, nextLeaseId, compactRev)
    }

    /** A store on an empty file. */
    constructor ()
      ensures Valid() && View() == INIT
    {
      keys, keyCount, leases, watchers := map[], 0, map[], [];
      nextRev, nextLeaseId, compactRev, wal, log, torn, clean := 1, 1, 0, [], [], [], 0;
      HoldsAll([], [], []);
    }

    /** `open`: scan the file, replay it, restore the clock and the leases. A torn write at the end
        is not read, and stays in the file. */
    constructor Open(file: Blob, ghost records: seq<Record>, ghost rest: Blob, now: nat)
      requires file == SerializeAll(records) + rest && (rest == [] || TornWrite(rest))
      requires forall r :: r in records ==> Fits(r) && r.modRev > 0
      ensures Valid() && View() == Reopen(records, now) && torn == rest && clean == |records|
    {
      hide KvBytes, SerializeAll, Replay, TornWrite;
      RecoverFile(records, rest);
      ReplayIsLaid(records);
      HoldsAll(file, records, rest);
      var rebuilt := RebuildFromFile(file);
      var mem := rebuilt.value.mem;
      var restored, nextId := RestoreLeases(mem.keys, now);
      keys, keyCount, leases, watchers := mem.keys, mem.keyCount, restored, [];
      nextRev, nextLeaseId, compactRev, wal, log := rebuilt.value.maxRev + 1, nextId, 0, file, records;
      torn, clean := rest, |records|;
    }

    // ------------------------------------------------------------------ watchers

    method RegisterWatcher(w: Watcher) returns (id: int)
      requires Valid()
      modifies this
      ensures Valid() && id == w.id
      ensures View() == old(View()).(db := old(View().db).(watchers := old(watchers) + [w]))
    {
      hide Holds, Laid, SerializeRecord;
      watchers := watchers + [w];
      id := w.id;
    }

    /** Drop the watchers with this id; says whether there were any. */
    method CancelWatcher(id: int) returns (found: bool)
      requires Valid()
      modifies this
      ensures Valid() && (found <==> exists w :: w in old(watchers) && w.id == id)
      ensures View() == old(View()).(db := old(View().db).(watchers := Retained(old(watchers), id)))
    {
      hide Holds, Laid, SerializeRecord;
      var kept: seq<Watcher> := [];
      for i := 0 to |watchers|
        invariant watchers == old(watchers) && View() == old(View())
        invariant kept == Retained(watchers[..i], id)
      {
        assert watchers[..i + 1][..i] == watchers[..i];
        if watchers[i].id != id { kept := kept + [watchers[i]]; }
      }
      assert watchers[..|watchers|] == watchers;
      RetainedIsRest(watchers, id);
      found := |kept| != |watchers|;
      watchers := kept;
    }

    /** Send an event down the channel of every watcher that wants it. */
    method NotifyWatchers(event: Event)
      modifies this`watchers
      ensures watchers == NotifyAll(old(watchers), event)
    {
      hide Holds, Laid, SerializeRecord;
      ghost var before := watchers;
      for i := 0 to |watchers|
        invariant |watchers| == |before|
        invariant forall j :: 0 <= j < i ==> watchers[j] == Notify(before[j], event)
        invariant forall j :: i <= j < |before| ==> watchers[j] == before[j]
      {
        var w := watchers[i];
        var send := Watch.ShouldSendEvent(w.filters, event.isDelete);
        if Matches(w.bound, event.key) && event.rev >= w.startRev && send {
          var e := event;
          if !w.prevKv { e := e.(prevKvBytes := []); }
          watchers := watchers[i := w.(received := w.received + [e])];
        }
      }
    }

    // ------------------------------------------------------------------- the log

    method AppendKv(r: Record)
      requires Valid()
      modifies this`wal, this`log
      ensures Valid() && log == old(log) + [r]
    {
      hide Holds, Laid, SerializeRecord;
      HoldsSnoc(wal, log, clean, torn, r);
      wal, log := wal + SerializeRecord(r), log + [r];
    }

    /** Several records, one after the other. */
    method AppendKvBatch(records: seq<Record>)
      requires Valid()
      modifies this`wal, this`log
      ensures Valid() && log == old(log) + records
    {
      hide Holds, Laid, SerializeRecord;
      for i := 0 to |records|
        invariant Valid() && log == old(log) + records[..i]
      {
        assert records[..i + 1] == records[..i] + [records[i]];
        AppendKv(records[i]);
      }
      assert records[..|records|] == records;
    }

    // --------------------------------------------------------------------- apply

    /** Insert or replace a key, count it if it is new, notify. The blob is encoded from the fields
        unless the log supplies it. */
    method Apply(key: Blob, value: Blob, lease: int, rev: nat, blob: Option<Blob>) returns (prev: Option<KeyState>)
      requires Valid() && |key| < TWO32 && (blob.Some? ==> Encoded(key, blob.value))
      modifies this`keys, this`keyCount, this`watchers
      ensures Valid() && prev == old(LiveEntry(keys, key))
      ensures View().db == ApplyGiven(old(View().db), key, value, lease, rev, blob)
    {
      hide Holds, Laid, SerializeRecord;
      PutKeepsLaid(Mem(keys, keyCount), key, value, lease, rev, blob);
      prev := if key in keys && Alive(keys[key]) then Some(keys[key]) else None;
      var rebirth := key in keys && keys[key].deleteRev != 0;
      var entry := KeyState(value, rev, if prev.Some? then prev.value.createRev else rev,
                            if prev.Some? then prev.value.version + 1 else 1, lease, 0, rebirth, []);
      entry := entry.(kvBytes := if blob.Some? then blob.value else StateBytes(key, entry));
      keys := keys[key := entry];
      if prev.None? { keyCount := keyCount + 1; }
      NotifyWatchers(Event(rev, false, key, entry.kvBytes, if prev.Some? then prev.value.kvBytes else []));
    }

    /** Turn a live key into a tombstone and notify with the patched blob. */
    method ApplyDelete(key: Blob, rev: nat) returns (prev: Option<KeyState>)
      requires Valid() && rev < TWO64
      modifies this`keys, this`keyCount, this`watchers
      ensures Valid() && prev == old(LiveEntry(keys, key))
      ensures View().db == DeleteLive(old(View().db), key, rev)
    {
      hide Holds, Laid, SerializeRecord;
      if key !in keys || keys[key].deleteRev != 0 { return None; }
      LaidEntry(keys, key);
      DeleteKeepsLaid(Mem(keys, keyCount), key, rev);
      var entry := keys[key];
      prev := Some(entry);
      var tombstone := Tombstone(key, entry.kvBytes, rev);
      keys := keys[key := entry.(deleteRev := rev)];
      keyCount := if keyCount > 0 then keyCount - 1 else 0;
      NotifyWatchers(Event(rev, true, key, tombstone, entry.kvBytes));
    }

    /** Log the deletes of some live keys as one batch, then apply them one by one. */
    method DeleteKeys(ks: seq<Blob>, rev: nat)
      requires Valid() && rev < TWO64 && forall k :: k in ks ==> Live(keys, k)
      modifies this`keys, this`keyCount, this`watchers, this`wal, this`log
      ensures Valid() && View().db == DeleteBatch(old(View().db), ks, rev)
    {
      hide Holds, Laid, SerializeRecord;
      var records := BuildDeletes(keys, ks, rev);
      AppendKvBatch(records);
      ghost var logged := View().db;
      for i := 0 to |ks|
        invariant Valid() && View().db == DeleteEach(logged, ks[..i], rev)
      {
        assert ks[..i + 1][..i] == ks[..i];
        var _ := ApplyDelete(ks[i], rev);
      }
      assert ks[..|ks|] == ks;
    }

    // ---------------------------------------------------------------- operations

    method AllocRevision() returns (rev: nat)
      modifies this`nextRev
      ensures rev == old(nextRev) && nextRev == old(nextRev) + 1
    {
      hide Holds, Laid, SerializeRecord;
      rev := nextRev;
      nextRev := nextRev + 1;
    }

    method PutAt(req: PutReq, rev: nat) returns (r: Result<Blob, Error>)
      requires Valid() && |req.key| < TWO32
      modifies this`keys, this`keyCount, this`watchers, this`wal, this`log
      ensures Valid() && Outcome(View(), r) == Spec.PutAt(old(View()), req, rev)
    {
      hide Holds, Laid, SerializeRecord;
      var alive := if req.key in keys && Alive(keys[req.key]) then Some(keys[req.key]) else None;
      if (req.ignoreValue || req.ignoreLease) && alive.None? { return Err(KeyNotFound); }
      var value := if req.ignoreValue then alive.value.value else req.value;
      var lease := if req.ignoreLease then alive.value.lease else req.lease;
      if lease != 0 && lease !in leases { return Err(LeaseNotFound); }
      var flags: Byte := 0;
      if alive.None? { flags := flags + IS_CREATE; }
      if lease != 0 { flags := flags + HAS_LEASE; }
      var record := Record(flags, req.key, value, if alive.Some? then alive.value.createRev else rev, rev,
                           if alive.Some? then alive.value.version + 1 else 1, lease);
      AppendKv(record);
      var prev := Apply(req.key, value, lease, rev, None);
      return Ok(if req.prevKv && prev.Some? then prev.value.kvBytes else []);
    }

    method DeleteRangeAt(req: DeleteReq, rev: nat) returns (r: Result<DeleteResp, Error>)
      requires Valid() && rev < TWO64 && Scannable(ResolveRange(req.key, req.rangeEnd))
      modifies this`keys, this`keyCount, this`watchers, this`wal, this`log
      ensures Valid() && Outcome(View(), r) == Spec.DeleteRangeAt(old(View()), req, rev)
    {
      hide Holds, Laid, SerializeRecord;
      var ks := CollectKeys(keys, ResolveRange(req.key, req.rangeEnd));
      var prevs := PrevBlobs(keys, ks);
      DeleteKeys(ks, rev);
      return Ok(DeleteResp(|ks|, if req.prevKv then prevs else []));
    }

    method Put(req: PutReq) returns (r: Result<Blob, Error>)
      requires Valid() && |req.key| < TWO32
      modifies this
      ensures Valid() && Outcome(View(), r) == Spec.Put(old(View()), req)
    {
      hide Holds, Laid, SerializeRecord;
      var e := ValidatePut(req);
      if e.Some? { return Err(e.value); }
      var rev := AllocRevision();
      r := PutAt(req, rev);
    }

    method ValidatePut(req: PutReq) returns (e: Option<Error>)
      ensures e == Spec.ValidatePut(View(), req)
    {
      hide Holds, Laid, SerializeRecord;
      if req.key == [] { return Some(KeyNotProvided); }
      if req.ignoreValue && req.value != [] { return Some(ValueProvided); }
      if req.ignoreLease && req.lease != 0 { return Some(LeaseProvided); }
      var alive := req.key in keys && Alive(keys[req.key]);
      if (req.ignoreValue || req.ignoreLease) && !alive { return Some(KeyNotFound); }
      var lease := if req.ignoreLease && alive then keys[req.key].lease else req.lease;
      if lease != 0 && lease !in leases { return Some(LeaseNotFound); }
      return None;
    }

    method DeleteRange(req: DeleteReq) returns (r: Result<DeleteResp, Error>)
      requires Valid() && nextRev < TWO64 && Scannable(ResolveRange(req.key, req.rangeEnd))
      modifies this
      ensures Valid() && Outcome(View(), r) == Spec.DeleteRange(old(View()), req)
    {
      hide Holds, Laid, SerializeRecord;
      if req.key == [] { return Err(KeyNotProvided); }
      var rev := AllocRevision();
      r := DeleteRangeAt(req, rev);
    }

    method Compact(rev: nat) returns (r: Result<(), Error>)
      requires Valid()
      modifies this
      ensures Valid() && Outcome(View(), r) == Spec.Compact(old(View()), rev)
    {
      hide Holds, Laid, SerializeRecord;
      if rev > (if nextRev > 0 then nextRev - 1 else 0) { return Err(FutureRevision); }
      if rev <= compactRev { return Err(RevisionCompacted); }
      compactRev := rev;
      return Ok(());
    }

    // -------------------------------------------------------------------- leases

    method LeaseGrant(id: int, ttl: int, now: nat) returns (r: Result<int, Error>)
      requires Valid()
      modifies this
      ensures Valid() && Outcome(View(), r) == Spec.LeaseGrant(old(View()), id, ttl, now)
    {
      hide Holds, Laid, SerializeRecord;
      if ttl > LEASE_MAX_TTL { return Err(TtlTooLarge); }
      var t := if ttl < LEASE_MIN_TTL then LEASE_MIN_TTL else ttl;
      var lid := id;
      if id == 0 {
        lid := nextLeaseId;
        nextLeaseId := nextLeaseId + 1;
      }
      if lid in leases { return Err(LeaseExists); }
      leases := leases[lid := Lease(t, now + t)];
      return Ok(lid);
    }

    /** All live keys on a lease go at one new revision. */
    method DeleteKeysForLease(id: int)
      requires Valid() && nextRev < TWO64
      modifies this
      ensures Valid() && View() == Spec.DeleteKeysForLease(old(View()), id)
    {
      hide Holds, Laid, SerializeRecord;
      var ks := CollectLeaseKeys(keys, id);
      if ks == [] { return; }
      var rev := AllocRevision();
      DeleteKeys(ks, rev);
    }

    method LeaseRevoke(id: int) returns (r: Result<(), Error>)
      requires Valid() && nextRev < TWO64
      modifies this
      ensures Valid() && Outcome(View(), r) == Spec.LeaseRevoke(old(View()), id)
    {
      hide Holds, Laid, SerializeRecord;
      if id !in leases { return Err(LeaseNotFound); }
      leases := leases - {id};
      DeleteKeysForLease(id);
      return Ok(());
    }

    method LeaseKeepAlive(id: int, now: nat) returns (r: Result<int, Error>)
      requires Valid()
      modifies this
      ensures Valid() && Outcome(View(), r) == Spec.LeaseKeepAlive(old(View()), id, now)
    {
      hide Holds, Laid, SerializeRecord;
      if id !in leases { return Err(LeaseNotFound); }
      var ttl := leases[id].ttl;
      leases := leases[id := Lease(ttl, now + ttl)];
      return Ok(ttl);
    }

    /** The locked section of the expiry task. */
    method Expire(now: nat)
      requires Valid() && nextRev + |IdsInOrder(Expired(leases, now))| <= TWO64
      modifies this
      ensures Valid() && View() == Spec.Expire(old(View()), now)
    {
      hide Holds, Laid, SerializeRecord;
      var expired := IdsInOrder(Expired(leases, now));
      for i := 0 to |expired|
        invariant Valid() && View() == DropEach(old(View()), expired[..i])
        invariant nextRev <= old(nextRev) + i
      {
        assert expired[..i + 1][..i] == expired[..i];
        leases := leases - {expired[i]};
        DeleteKeysForLease(expired[i]);
      }
      assert expired[..|expired|] == expired;
    }

    // -------------------------------------------------------------- transactions

    /** The transaction's revision, allocated by its first write. */
    method EnsureRevision(rev: Option<nat>) returns (r: nat)
      requires Valid()
      modifies this`nextRev
      ensures Valid() && Progress(View(), Some(r), None) == EnsureRev(Progress(old(View()), rev, None))
    {
      hide Holds, Laid;
      if rev.Some? { return rev.value; }
      r := AllocRevision();
    }

    /** One operation of a branch. */
    method ApplyTxnOp(op: Op, start: Option<nat>, path: Path, depth: nat)
      returns (rev: Option<nat>, error: Option<Error>, reply: Reply, deferred: seq<SetAside>)
      requires Valid() && SizedOp(op) && ScannableOp(op)
      requires start.None? ==> nextRev < TWO64
      requires start.Some? ==> start.value < TWO64
      modifies this
      ensures Valid() && (rev.Some? ==> rev.value < TWO64) && (rev.None? ==> nextRev < TWO64)
      ensures Progress(View(), rev, error) == ApplyOp(Progress(old(View()), start, None), op, depth)
      ensures error.None? ==> deferred == DeferredOf(Progress(old(View()), start, None), op, depth, path)
      ensures error.None? && ReadKeyed(Progress(old(View()), start, None), op, depth) ==>
                reply == ReplyTo(Progress(old(View()), start, None), op, depth, path, PENDING)
      decreases op
    {
      hide Holds, Laid;
      rev, error, reply, deferred := start, None, Blank, [];
      match op
      case RangeOp(req) =>
        if req.revision > 0 {
          deferred := [SetAside(path, req)];
        } else {
          var resp := RangeCurrent(keys, req);
          reply := Ranged(resp);
        }
      case PutOp(req) =>
        error := ValidatePut(req);
        if error.Some? { return; }
        var r := EnsureRevision(start);
        var o := PutAt(req, r);
        rev := Some(r);
        match o {
          case Ok(prev) => reply := PutDone(prev);
          case Err(e) => error := Some(e);
        }
      case DeleteOp(req) =>
        if req.key == [] {
          error := Some(KeyNotProvided);
          return;
        }
        var r := EnsureRevision(start);
        var o := DeleteRangeAt(req, r);
        rev := Some(r);
        match o {
          case Ok(d) => reply := Removed(d);
          case Err(e) => error := Some(e);
        }
      case TxnOp(t) =>
        if depth >= 1 {
          error := Some(NestedTxn);
          return;
        }
        var replies;
        if EvalAll(keys, t.compare) {
          rev, error, replies, deferred := ApplyTxnOps(t.success, start, path, depth + 1);
          reply := Nested(true, replies);
        } else {
          rev, error, replies, deferred := ApplyTxnOps(t.failure, start, path, depth + 1);
          reply := Nested(false, replies);
        }
      case NoOp =>
    }

    /** `apply_txn_ops`: the operations in order, nested branches included, at one revision. Reads
        of the current state see the writes before them; reads of a past one are set aside. The
        operations before an error stay applied. */
    method ApplyTxnOps(ops: seq<Op>, start: Option<nat>, path: Path, depth: nat)
      returns (rev: Option<nat>, error: Option<Error>, replies: seq<Reply>, deferred: seq<SetAside>)
      requires Valid() && SizedOps(ops) && ScannableOps(ops)
      requires start.None? ==> nextRev < TWO64
      requires start.Some? ==> start.value < TWO64
      modifies this
      ensures Valid() && (rev.Some? ==> rev.value < TWO64) && (rev.None? ==> nextRev < TWO64)
      ensures Progress(View(), rev, error) == ApplyOps(Progress(old(View()), start, None), ops, depth)
      ensures error.None? ==> deferred == DeferredIn(Progress(old(View()), start, None), ops, depth, path)
      ensures error.None? && ReadsKeyed(Progress(old(View()), start, None), ops, depth) ==>
                replies == RepliesTo(Progress(old(View()), start, None), ops, depth, path, PENDING)
      decreases ops, 0
    {
      hide Holds, Laid, ApplyOp, ReplyTo, DeferredOf, SizedOp, ScannableOp, ReadKeyed;
      ghost var p := Progress(View(), start, None);
      rev, error, replies, deferred := start, None, [], [];
      for i := 0 to |ops|
        invariant Valid() && error.None? && (rev.Some? ==> rev.value < TWO64) && (rev.None? ==> nextRev < TWO64)
        invariant Progress(View(), rev, None) == ApplyOps(p, ops[..i], depth)
        invariant ReadsKeyed(p, ops[..i], depth) ==> replies == RepliesTo(p, ops[..i], depth, path, PENDING)
        invariant deferred == DeferredIn(p, ops[..i], depth, path)
      {
        assert ops[..i + 1][..i] == ops[..i];
        assert ops[i] in ops;
        var reply, more;
        rev, error, reply, more := ApplyTxnOp(ops[i], rev, path + [i], depth);
        if error.Some? {
          ErrorStops(p, ops, i + 1, depth);
          return;
        }
        replies, deferred := replies + [reply], deferred + more;
      }
      assert ops[..|ops|] == ops;
    }

    /** `txn` up to the release of the lock: the outcome, the reply tree so far and the reads to run. */
    method Txn(t: TxnReq) returns (r: Result<bool, Error>, replies: seq<Reply>, deferred: seq<SetAside>)
      requires Valid() && nextRev < TWO64
      requires SizedOps(t.success) && SizedOps(t.failure) && ScannableOps(t.success) && ScannableOps(t.failure)
      modifies this
      ensures Valid() && Outcome(View(), r) == TxnFn.Txn(old(View()), t)
      ensures r.Ok? ==> var p, ops := Progress(old(View()), None, None), Branch(old(keys), t);
                        deferred == DeferredIn(p, ops, 0, [])
                        && (ReadsKeyed(p, ops, 0) ==> replies == RepliesTo(p, ops, 0, [], PENDING))
    {
      hide Holds, Laid, ApplyOps, RepliesTo, DeferredIn, SizedOps, ScannableOps, ReadsKeyed;
      replies, deferred := [], [];
      var e := CheckTxnBranch(t.success);
      if e.Some? { return Err(e.value), [], []; }
      e := CheckTxnBranch(t.failure);
      if e.Some? { return Err(e.value), [], []; }
      var succeeded := EvalAll(keys, t.compare);
      var rev;
      rev, e, replies, deferred := ApplyTxnOps(if succeeded then t.success else t.failure, None, [], 0);
      r := if e.Some? then Err(e.value) else Ok(succeeded);
    }
  }

  /** An error ends the branch: later operations change nothing. */
  lemma {:induction false} ErrorStops(p: Progress, ops: seq<Op>, i: nat, depth: nat)
    requires i <= |ops| && ApplyOps(p, ops[..i], depth).error.Some?
    ensures ApplyOps(p, ops, depth) == ApplyOps(p, ops[..i], depth)
    decreases |ops|
  {
    if i == |ops| {
      assert ops[..i] == ops;
    } else {
      var n := |ops| - 1;
      assert ops[..n][..i] == ops[..i];
      ErrorStops(p, ops[..n], i, depth);
    }
  }

  /** A whole transaction answers with the tree that running each operation in its turn, and each
      read of the past at its place, would give. The reads set aside run afterwards, each finding the
      store as it is `at` that moment. */
  method RunTxn(store: StoreState, t: TxnReq, at: Path -> Moment) returns (r: Result<(bool, seq<Reply>), Error>)
    requires store.Valid() && store.nextRev < TWO64
    requires SizedOps(t.success) && SizedOps(t.failure) && ScannableOps(t.success) && ScannableOps(t.failure)
    modifies store
    ensures store.Valid() && store.View() == TxnFn.Txn(old(store.View()), t).state
    ensures TxnFn.Txn(old(store.View()), t).result.Err? ==> r == Err(TxnFn.Txn(old(store.View()), t).result.error)
    ensures TxnFn.Txn(old(store.View()), t).result.Ok? ==>
              (r.Err? <==> exists d :: d in DeferredIn(Progress(old(store.View()), None, None), Branch(old(store.keys), t), 0, [])
                                       && AnswerOf(at(d.path), d.req).Err?)
    ensures r.Ok? ==> TxnFn.Txn(old(store.View()), t).result == Ok(r.value.0)
    ensures var p, ops := Progress(old(store.View()), None, None), Branch(old(store.keys), t);
            r.Ok? && ReadsKeyed(p, ops, 0) && MomentsKeyed(DeferredIn(p, ops, 0, []), at) ==>
              r.value.1 == RepliesTo(p, ops, 0, [], AnswersAt(at))
  {
    hide Holds, Laid, ApplyOps, RepliesTo, DeferredIn, PatchAll, ReadsKeyed, MomentsKeyed, AnswersAt, AnswerOf, ScannableReads;
    ghost var p, ops := Progress(store.View(), None, None), Branch(store.keys, t);
    DeferredScannable(p, ops, 0, []);
    var o, replies, deferred := store.Txn(t);
    if o.Err? { return Err(o.error); }
    var filled := FillIn(replies, deferred, at);
    if filled.Err? { return Err(filled.error); }
    PatchedIsDirect(p, ops, 0, [], AnswersAt(at));
    return Ok((o.value, filled.value));
  }

  /** The ranges of an action are ones the ordered map accepts, and the 64-bit clock has room for it. */
  predicate Performable(s: State, a: Action) {
    match a
    case DoDelete(req) => Scannable(ResolveRange(req.key, req.rangeEnd)) && s.nextRev < TWO64
    case DoTxn(t) => ScannableOps(t.success) && ScannableOps(t.failure) && s.nextRev < TWO64
    case DoRevoke(_) => s.nextRev < TWO64
    case DoExpire(now) => s.nextRev + |IdsInOrder(Expired(s.leases, now))| <= TWO64
    case DoReopen(_) => false
    case _ => true
  }

  /** The dispatch of one operation. */
  method PerformStep(store: StoreState, a: Action)
    requires store.Valid() && Inv(store.View()) && Sized(a) && Performable(store.View(), a)
    modifies store
    ensures store.Valid() && store.View() == Step(old(store.View()), a) && Inv(store.View())
  {
    hide Laid, Holds, WfLog, Replay, Extends, ApplyOps, IdsInOrder, LeasesOwned;
    StepIsGood(store.View(), a);
    match a
    case DoPut(req) => var _ := store.Put(req);
    case DoDelete(req) => var _ := store.DeleteRange(req);
    case DoTxn(t) => var _, _, _ := store.Txn(t);
    case DoCompact(rev) => var _ := store.Compact(rev);
    case DoGrant(id, ttl, now) => var _ := store.LeaseGrant(id, ttl, now);
    case DoRevoke(id) => var _ := store.LeaseRevoke(id);
    case DoKeepAlive(id, now) => var _ := store.LeaseKeepAlive(id, now);
    case DoExpire(now) => store.Expire(now);
  }

  /** Any operation on the object is a step of the specified store, so the object stays in the
      invariant of all runs, its file holds its log, and its key map is the fold of that log. */
  method Perform(store: StoreState, a: Action)
    requires store.Valid() && Inv(store.View()) && Sized(a) && Performable(store.View(), a)
    modifies store
    ensures store.Valid() && store.View() == Step(old(store.View()), a)
    ensures Inv(store.View()) && Mem(store.keys, store.keyCount) == Replay(store.log)
    ensures store.torn == [] ==> store.wal == SerializeAll(store.log)
  {
    PerformStep(store, a);
    if store.torn == [] { HoldsClean(store.wal, store.log, store.clean); }
  }
}
