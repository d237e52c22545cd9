/** The in-memory key map, how a put and a delete change it, and its reconstruction from the log. */
module KeyMap {
  import opened Bytes
  import opened Varint
  import opened KvCodec
  import opened Wal

  /** A key's entry; a deleted key stays as a tombstone with a non-zero `deleteRev`. */
  datatype KeyState = KeyState(value: Blob, modRev: nat, createRev: nat, version: nat, lease: int,
                               deleteRev: nat, rebirth: bool, kvBytes: Blob)

  type Keys = map<Blob, KeyState>

  /** The map together with the count of live keys the source maintains beside it. */
  datatype Mem = Mem(keys: Keys, keyCount: nat)

  const EMPTY := Mem(map[], 0)

  predicate Alive(ks: KeyState) { ks.deleteRev == 0 }

  predicate Live(keys: Keys, k: Blob) { k in keys && Alive(keys[k]) }

  function Entry(keys: Keys, k: Blob): Option<KeyState> {
    if k in keys then Some(keys[k]) else None
  }

  function LiveEntry(keys: Keys, k: Blob): Option<KeyState> {
    if Live(keys, k) then Some(keys[k]) else None
  }

  function LiveKeys(keys: Keys): set<Blob> {
    set k | k in keys && Alive(keys[k])
  }

  function StateKv(key: Blob, ks: KeyState): Kv {
    Kv(key, ks.value, ks.createRev, ks.modRev, ks.version, AsU64(ks.lease))
  }

  /** `make_kv_bytes`. */
  function StateBytes(key: Blob, ks: KeyState): Blob {
    Encode(StateKv(key, ks))
  }

  // ------------------------------------------------------------ apply functions

  /** The entry a put at `rev` leaves for `key`; `blob` is given when replaying a logged record. */
  function PutEntry(prev: Option<KeyState>, key: Blob, value: Blob, lease: int, rev: nat, blob: Option<Blob>): KeyState {
    var live := prev.Some? && Alive(prev.value);
    var ks := KeyState(value, rev,
                       if live then prev.value.createRev else rev,
                       if live then prev.value.version + 1 else 1,
                       lease, 0, prev.Some? && prev.value.deleteRev != 0, []);
    ks.(kvBytes := if blob.Some? then blob.value else StateBytes(key, ks))
  }

  function ApplyPut(m: Mem, key: Blob, value: Blob, lease: int, rev: nat, blob: Option<Blob>): Mem {
    Mem(m.keys[key := PutEntry(Entry(m.keys, key), key, value, lease, rev, blob)],
        if Live(m.keys, key) then m.keyCount else m.keyCount + 1)
  }

  function ApplyDelete(m: Mem, key: Blob, rev: nat): Mem {
    if Live(m.keys, key) then
      Mem(m.keys[key := m.keys[key].(deleteRev := rev)], if m.keyCount > 0 then m.keyCount - 1 else 0)
    else m
  }

  /** Replaying one logged record. */
  function ApplyRecord(m: Mem, r: Record): Mem {
    if Deleted(r) then ApplyDelete(m, r.key, r.modRev)
    else ApplyPut(m, r.key, r.value, r.lease, r.modRev, Some(KvBytes(r)))
  }

  function ReplayFrom(m: Mem, log: seq<Record>): Mem {
    if log == [] then m else ApplyRecord(ReplayFrom(m, log[..|log| - 1]), log[|log| - 1])
  }

  /** The fold of the log: what a restart rebuilds. */
  function Replay(log: seq<Record>): Mem { ReplayFrom(EMPTY, log) }

  lemma {:induction false} ReplayConcat(m: Mem, a: seq<Record>, b: seq<Record>)
    ensures ReplayFrom(m, a + b) == ReplayFrom(ReplayFrom(m, a), b)
  {
    if b == [] {
      assert a + b == a;
    } else {
      ReplayConcat(m, a, b[..|b| - 1]);
      assert (a + b)[..|a + b| - 1] == a + b[..|b| - 1];
    }
  }

  lemma ReplaySnoc(m: Mem, log: seq<Record>, r: Record)
    ensures ReplayFrom(m, log + [r]) == ApplyRecord(ReplayFrom(m, log), r)
  {
    assert (log + [r])[..|log|] == log;
  }

  // ------------------------------------------------- what the live store logs

  /** The record a live put of `key` at `rev` appends. */
  function PutRecord(keys: Keys, key: Blob, value: Blob, lease: int, rev: nat): Record {
    var live := Live(keys, key);
    Record((if live then 0 else IS_CREATE) + (if lease != 0 then HAS_LEASE else 0), key, value,
           if live then keys[key].createRev else rev, rev,
           if live then keys[key].version + 1 else 1, lease)
  }

  /** The record a live delete of a live `key` at `rev` appends. */
  function DeleteRecord(keys: Keys, key: Blob, rev: nat): Record
    requires Live(keys, key)
  {
    var p := keys[key];
    Record(DELETED + (if p.lease != 0 then HAS_LEASE else 0), key, p.value, p.createRev, rev, p.version, p.lease)
  }

  /** `r` is a record the live store could append in state `keys`; a key's length fits its 32-bit prefix. */
  predicate Logged(keys: Keys, r: Record) {
    if Deleted(r) then Live(keys, r.key) && r == DeleteRecord(keys, r.key, r.modRev)
    else |r.key| < TWO32 && r == PutRecord(keys, r.key, r.value, r.lease, r.modRev)
  }

  lemma LoggedRecords(keys: Keys, key: Blob, value: Blob, lease: int, rev: nat)
    ensures var r := PutRecord(keys, key, value, lease, rev); !Deleted(r) && (|key| < TWO32 ==> Logged(keys, r))
    ensures Live(keys, key) ==> var r := DeleteRecord(keys, key, rev); Deleted(r) && Logged(keys, r)
  {}

  /** Applying a write live and replaying the record it logged give the same state, blob included. */
  lemma LivePutIsReplay(m: Mem, key: Blob, value: Blob, lease: int, rev: nat)
    ensures ApplyPut(m, key, value, lease, rev, None) == ApplyRecord(m, PutRecord(m.keys, key, value, lease, rev))
  {
    LoggedRecords(m.keys, key, value, lease, rev);
  }

  lemma LiveDeleteIsReplay(m: Mem, key: Blob, rev: nat)
    requires Live(m.keys, key)
    ensures ApplyDelete(m, key, rev) == ApplyRecord(m, DeleteRecord(m.keys, key, rev))
  {
    LoggedRecords(m.keys, key, [], 0, rev);
  }

  // ------------------------------------------------------------- entry invariant

  /** What every entry of an uncompacted store satisfies. */
  predicate EntryOk(key: Blob, ks: KeyState) {
    |key| < TWO32 && 0 < ks.createRev <= ks.modRev && ks.version > 0
    && (ks.deleteRev != 0 ==> ks.modRev <= ks.deleteRev)
    && ks.kvBytes == StateBytes(key, ks)
  }

  ghost predicate KeysOk(keys: Keys) {
    forall k :: k in keys ==> EntryOk(k, keys[k])
  }

  ghost predicate MemOk(m: Mem) {
    KeysOk(m.keys) && m.keyCount == |LiveKeys(m.keys)|
  }

  /** The last revision at which an entry changed. */
  function LastRev(ks: KeyState): nat { if Alive(ks) then ks.modRev else ks.deleteRev }

  /** No entry was changed after `rev`. */
  ghost predicate UpTo(keys: Keys, rev: nat) {
    forall k :: k in keys ==> LastRev(keys[k]) <= rev
  }

  lemma LiveKeysUpdate(keys: Keys, k: Blob, ks: KeyState)
    ensures LiveKeys(keys[k := ks]) == if Alive(ks) then LiveKeys(keys) + {k} else LiveKeys(keys) - {k}
  {}

  /** The entry a logged record leaves behind satisfies the entry invariant. */
  lemma LoggedEntryOk(keys: Keys, r: Record)
    requires Logged(keys, r) && r.modRev > 0
    requires r.key in keys ==> EntryOk(r.key, keys[r.key]) && LastRev(keys[r.key]) <= r.modRev
    ensures r.key in ApplyRecord(Mem(keys, 0), r).keys
    ensures var ks := ApplyRecord(Mem(keys, 0), r).keys[r.key];
            EntryOk(r.key, ks) && LastRev(ks) == r.modRev
  {
    if !Deleted(r) {
      var ks := ApplyRecord(Mem(keys, 0), r).keys[r.key];
      assert KvOf(r) == StateKv(r.key, ks);
    }
  }

  lemma CountAfter(m: Mem, r: Record)
    requires m.keyCount == |LiveKeys(m.keys)| && (Deleted(r) ==> r.modRev > 0)
    ensures ApplyRecord(m, r).keyCount == |LiveKeys(ApplyRecord(m, r).keys)|
  {
    if Deleted(r) {
      if Live(m.keys, r.key) {
        assert r.key in LiveKeys(m.keys);
        LiveKeysUpdate(m.keys, r.key, m.keys[r.key].(deleteRev := r.modRev));
      }
    } else {
      LiveKeysUpdate(m.keys, r.key, ApplyRecord(m, r).keys[r.key]);
      assert Live(m.keys, r.key) <==> r.key in LiveKeys(m.keys);
      if Live(m.keys, r.key) { assert LiveKeys(m.keys) + {r.key} == LiveKeys(m.keys); }
    }
  }

  /** Only the record's own key changes. */
  lemma ApplyTouchesOneKey(m: Mem, r: Record)
    ensures forall k :: k != r.key ==> Entry(ApplyRecord(m, r).keys, k) == Entry(m.keys, k)
    ensures ApplyRecord(m, r).keys == ApplyRecord(Mem(m.keys, 0), r).keys
  {}

  /** Every record the store logs keeps the entry invariant and the live-key count. */
  lemma ApplyKeepsMemOk(m: Mem, r: Record)
    requires MemOk(m) && Logged(m.keys, r) && r.modRev > 0 && UpTo(m.keys, r.modRev)
    ensures MemOk(ApplyRecord(m, r)) && UpTo(ApplyRecord(m, r).keys, r.modRev)
    ensures r.key in ApplyRecord(m, r).keys && LastRev(ApplyRecord(m, r).keys[r.key]) == r.modRev
  {
    hide ApplyRecord, Logged;
    var keys' := ApplyRecord(m, r).keys;
    ApplyTouchesOneKey(m, r);
    LoggedEntryOk(m.keys, r);
    CountAfter(m, r);
    forall k | k in keys' ensures EntryOk(k, keys'[k]) && LastRev(keys'[k]) <= r.modRev {
      if k != r.key { assert Entry(keys', k) == Entry(m.keys, k); }
    }
  }

  // ------------------------------------------------------------- well-formed logs

  function MaxRev(log: seq<Record>): nat {
    if log == [] then 0
    else
      var m := MaxRev(log[..|log| - 1]);
      if log[|log| - 1].modRev > m then log[|log| - 1].modRev else m
  }

  /** Logs the live store can write: each record is what the state before it would log, and
      revisions start above zero and never go back. */
  ghost predicate WfLog(log: seq<Record>) {
    log == []
    || (var init, r := log[..|log| - 1], log[|log| - 1];
        WfLog(init) && Logged(Replay(init).keys, r) && r.modRev > 0 && MaxRev(init) <= r.modRev)
  }

  lemma {:induction false} WfLogMem(log: seq<Record>)
    requires WfLog(log)
    ensures MemOk(Replay(log)) && UpTo(Replay(log).keys, MaxRev(log))
  {
    if log == [] {
      assert LiveKeys(EMPTY.keys) == {};
    } else {
      var init, r := log[..|log| - 1], log[|log| - 1];
      WfLogMem(init);
      ApplyKeepsMemOk(Replay(init), r);
    }
  }

  lemma WfLogSnoc(log: seq<Record>, r: Record)
    requires WfLog(log) && Logged(Replay(log).keys, r) && r.modRev > 0 && MaxRev(log) <= r.modRev
    ensures WfLog(log + [r]) && MaxRev(log + [r]) == r.modRev
    ensures Replay(log + [r]) == ApplyRecord(Replay(log), r)
  {
    assert (log + [r])[..|log|] == log;
  }

  lemma {:induction false} MaxRevBounds(log: seq<Record>)
    ensures forall r :: r in log ==> r.modRev <= MaxRev(log)
    ensures MaxRev(log) == 0 || exists r :: r in log && r.modRev == MaxRev(log)
  {
    if log != [] {
      var init, last := log[..|log| - 1], log[|log| - 1];
      MaxRevBounds(init);
      assert log == init + [last];
      assert last in log;
      forall r | r in log ensures r.modRev <= MaxRev(log) { assert r == last || r in init; }
      if last.modRev <= MaxRev(init) && MaxRev(log) != 0 {
        var r :| r in init && r.modRev == MaxRev(init);
        assert r in log;
      }
    }
  }

  /** Revision 0 is never allocated. */
  ghost predicate Positive(log: seq<Record>) {
    forall r :: r in log ==> r.modRev > 0
  }

  /** Entries of a replayed log were modified at positive revisions and carry a blob, and the live
      ones are counted. */
  lemma {:induction false} ReplayPositive(log: seq<Record>)
    requires Positive(log)
    ensures forall k :: k in Replay(log).keys ==> Replay(log).keys[k].modRev > 0 && Replay(log).keys[k].kvBytes != []
    ensures Replay(log).keyCount == |LiveKeys(Replay(log).keys)|
  {
    if log == [] {
      assert LiveKeys(EMPTY.keys) == {};
    } else {
      var n := |log| - 1;
      assert log[n] in log && forall r :: r in log[..n] ==> r in log;
      ReplayPositive(log[..n]);
      CountAfter(Replay(log[..n]), log[n]);
      BlobNotEmpty(log[n]);
    }
  }

  /** No entry of a replayed log is newer than its records. */
  lemma {:induction false} ReplayBelow(log: seq<Record>, hi: nat)
    requires forall r :: r in log ==> r.modRev < hi
    ensures forall k :: k in Replay(log).keys ==> Replay(log).keys[k].modRev < hi
  {
    if log != [] {
      var n := |log| - 1;
      assert log[n] in log && forall r :: r in log[..n] ==> r in log;
      ReplayBelow(log[..n], hi);
      BelowAfter(Replay(log[..n]), log[n], hi);
    }
  }

  lemma BelowAfter(m: Mem, r: Record, hi: nat)
    requires r.modRev < hi && forall k :: k in m.keys ==> m.keys[k].modRev < hi
    ensures forall k :: k in ApplyRecord(m, r).keys ==> ApplyRecord(m, r).keys[k].modRev < hi
  {
    hide KvBytes;
  }

  lemma {:induction false} ReplayCounts(m: Mem, recs: seq<Record>)
    requires m.keyCount == |LiveKeys(m.keys)| && Positive(recs)
    ensures ReplayFrom(m, recs).keyCount == |LiveKeys(ReplayFrom(m, recs).keys)|
  {
    hide LiveKeys, ApplyRecord;
    if recs != [] {
      var n := |recs| - 1;
      assert recs[n] in recs && forall r :: r in recs[..n] ==> r in recs;
      ReplayCounts(m, recs[..n]);
      CountAfter(ReplayFrom(m, recs[..n]), recs[n]);
    }
  }

  lemma BlobNotEmpty(r: Record)
    ensures KvBytes(r) != []
  {}

  // --------------------------------------------------------- version is a count

  /** Puts of `k` since its last delete. */
  function PutsSinceDelete(log: seq<Record>, k: Blob): nat {
    if log == [] then 0
    else
      var init, r := log[..|log| - 1], log[|log| - 1];
      if r.key != k then PutsSinceDelete(init, k)
      else if Deleted(r) then 0
      else 1 + PutsSinceDelete(init, k)
  }

  /** A key is live exactly when it was put since its last delete, and its version counts those puts. */
  lemma {:induction false} VersionCountsPuts(log: seq<Record>, k: Blob)
    requires forall r :: r in log ==> r.modRev > 0
    ensures Live(Replay(log).keys, k) <==> PutsSinceDelete(log, k) > 0
    ensures Live(Replay(log).keys, k) ==> Replay(log).keys[k].version == PutsSinceDelete(log, k)
  {
    if log != [] {
      VersionCountsPuts(log[..|log| - 1], k);
      assert log[|log| - 1] in log;
    }
  }
}
