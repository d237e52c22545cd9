/** Every write is a sequence of commits: append a record, replay it on the key map, and send each
    watcher the event that a later replay of the log would rebuild. */
module Commits {
  import opened Bytes
  import opened Varint
  import opened KvCodec
  import opened KvParse
  import opened Wal
  import opened KeyMap
  import opened StoreSpec
  import opened Ranges
  import opened OrderedKeys

  /** The event a log replay rebuilds for `r` when `keys` is the state before it. */
  function RecordEvent(keys: Keys, r: Record): Event {
    Event(r.modRev, Deleted(r), r.key, KvBytes(r), PrevBytes(keys, r.key))
  }

  function Commit(d: Db, r: Record): Db {
    Db(ApplyRecord(d.mem, r), NotifyAll(d.watchers, RecordEvent(d.mem.keys, r)), d.log + [r])
  }

  function CommitAll(d: Db, recs: seq<Record>): Db {
    if recs == [] then d else Commit(CommitAll(d, recs[..|recs| - 1]), recs[|recs| - 1])
  }

  /** Each record is one the store would log at that point, at revision `rev`. */
  ghost predicate Legal(d: Db, recs: seq<Record>, rev: nat) {
    recs == []
    || (var init, r := recs[..|recs| - 1], recs[|recs| - 1];
        Legal(d, init, rev) && Logged(CommitAll(d, init).mem.keys, r) && r.modRev == rev)
  }

  lemma {:induction false} CommitAllConcat(d: Db, a: seq<Record>, b: seq<Record>)
    ensures CommitAll(d, a + b) == CommitAll(CommitAll(d, a), b)
  {
    if b == [] {
      assert a + b == a;
    } else {
      CommitAllConcat(d, a, b[..|b| - 1]);
      assert (a + b)[..|a + b| - 1] == a + b[..|b| - 1];
    }
  }

  lemma {:induction false} LegalConcat(d: Db, a: seq<Record>, b: seq<Record>, rev: nat)
    requires Legal(d, a, rev) && Legal(CommitAll(d, a), b, rev)
    ensures Legal(d, a + b, rev)
  {
    if b == [] {
      assert a + b == a;
    } else {
      var b' := b[..|b| - 1];
      LegalConcat(d, a, b', rev);
      CommitAllConcat(d, a, b');
      assert (a + b)[..|a + b| - 1] == a + b';
    }
  }

  lemma {:induction false} CommitAllParts(d: Db, recs: seq<Record>)
    ensures CommitAll(d, recs).log == d.log + recs
    ensures CommitAll(d, recs).mem == ReplayFrom(d.mem, recs)
  {
    if recs != [] {
      CommitAllParts(d, recs[..|recs| - 1]);
      assert recs == recs[..|recs| - 1] + [recs[|recs| - 1]];
    } else {
      assert d.log + recs == d.log;
    }
  }

  // ------------------------------------------------- the log invariant of a run

  /** The key map is the fold of the log, the log is well formed, and its revisions are at most `rev`. */
  ghost predicate Recorded(d: Db, rev: nat) {
    d.mem == Replay(d.log) && WfLog(d.log) && MaxRev(d.log) <= rev
  }

  /** Legal commits keep the log invariant. */
  lemma {:induction false} CommitsKeepRecorded(d: Db, recs: seq<Record>, rev: nat)
    requires Recorded(d, rev) && rev > 0 && Legal(d, recs, rev)
    ensures Recorded(CommitAll(d, recs), rev)
  {
    if recs != [] {
      var init, r := recs[..|recs| - 1], recs[|recs| - 1];
      CommitsKeepRecorded(d, init, rev);
      WfLogSnoc(CommitAll(d, init).log, r);
    }
  }

  lemma RecordedMem(d: Db, rev: nat)
    requires Recorded(d, rev)
    ensures MemOk(d.mem) && UpTo(d.mem.keys, rev)
  {
    WfLogMem(d.log);
  }

  // --------------------------------------------------------- writes are commits

  /** A live put is the commit of the record it logs: same map, same log, same event. */
  lemma PutIsCommit(d: Db, key: Blob, value: Blob, lease: int, rev: nat)
    ensures var r := PutRecord(d.mem.keys, key, value, lease, rev);
            ApplyLive(d.(log := d.log + [r]), key, value, lease, rev) == Commit(d, r)
  {
    LivePutIsReplay(d.mem, key, value, lease, rev);
    var r := PutRecord(d.mem.keys, key, value, lease, rev);
    assert ApplyPut(d.mem, key, value, lease, rev, None).keys[key].kvBytes == KvBytes(r);
  }

  /** The event a live delete builds by patching ten bytes is the one replay reads from the log. */
  lemma DeleteEventIsRecordEvent(keys: Keys, key: Blob, rev: nat)
    requires Live(keys, key) && EntryOk(key, keys[key])
    ensures DeleteEvent(keys, key, rev) == RecordEvent(keys, DeleteRecord(keys, key, rev))
  {
    var kv := StateKv(key, keys[key]);
    assert KvOf(DeleteRecord(keys, key, rev)) == kv.(modRev := rev);
    LoggedRecords(keys, key, [], 0, rev);
    PatchEqualsReencode(kv, rev);
  }

  // ------------------------------------------------ blobs that outlive their fields

  /** The entry's blob is an encoding of its key, value, lease and `mod_revision`; a compaction may
      have left it the creation revision and version of an earlier life. */
  ghost predicate Shaped(key: Blob, ks: KeyState) {
    exists own: Kv :: Representable(own) && ks.kvBytes == Encode(own)
                      && own == StateKv(key, ks).(createRev := own.createRev, version := own.version)
  }

  /** The blob says of creation revision and version what the entry says. */
  predicate BlobCurrent(key: Blob, ks: KeyState) { DecodeKv(ks.kvBytes) == Some(StateKv(key, ks)) }

  lemma {:induction false} ReplayShaped(log: seq<Record>)
    requires forall r :: r in log ==> Representable(KvOf(r))
    ensures forall k :: k in Replay(log).keys ==> Shaped(k, Replay(log).keys[k])
  {
    if log != [] {
      var init, r := log[..|log| - 1], log[|log| - 1];
      assert r in log && forall x :: x in init ==> x in log;
      ReplayShaped(init);
      ShapedAfter(Replay(init), r);
    }
  }

  lemma ShapedAfter(m: Mem, r: Record)
    requires Representable(KvOf(r)) && forall k :: k in m.keys ==> Shaped(k, m.keys[k])
    ensures forall k :: k in ApplyRecord(m, r).keys ==> Shaped(k, ApplyRecord(m, r).keys[k])
  {
    hide Encode, Representable, AsU64;
    var keys' := ApplyRecord(m, r).keys;
    if Deleted(r) {
      if Live(m.keys, r.key) { ShapedTombstone(r.key, m.keys[r.key], r.modRev); }
    } else {
      var own := KvOf(r);
      assert own == StateKv(r.key, keys'[r.key]).(createRev := own.createRev, version := own.version);
      assert Shaped(r.key, keys'[r.key]);
    }
  }

  lemma ShapedTombstone(key: Blob, ks: KeyState, rev: nat)
    requires Shaped(key, ks)
    ensures Shaped(key, ks.(deleteRev := rev))
  {
    var own: Kv :| Representable(own) && ks.kvBytes == Encode(own)
                   && own == StateKv(key, ks).(createRev := own.createRev, version := own.version);
    assert StateKv(key, ks.(deleteRev := rev)) == StateKv(key, ks);
  }

  /** Encoding the entry's fields gives its blob back if and only if the blob is current. */
  lemma ReencodeIsExact(key: Blob, ks: KeyState)
    requires Shaped(key, ks) && Representable(StateKv(key, ks))
    ensures StateBytes(key, ks) == ks.kvBytes <==> BlobCurrent(key, ks)
  {
    hide Encode, Representable, DecodeKv, StateKv;
    var own: Kv :| Representable(own) && ks.kvBytes == Encode(own)
                   && own == StateKv(key, ks).(createRev := own.createRev, version := own.version);
    DecodeRoundTrip(own);
    EncodeInjective(own, StateKv(key, ks));
  }

  /** In any state, restored ones included, the delete event sent live is the one replay rebuilds if
      and only if the blob is current. */
  lemma DeleteEventIsExact(keys: Keys, key: Blob, rev: nat)
    requires Live(keys, key) && Shaped(key, keys[key]) && Representable(StateKv(key, keys[key])) && rev < TWO64
    ensures DeleteEvent(keys, key, rev) == RecordEvent(keys, DeleteRecord(keys, key, rev)) <==> BlobCurrent(key, keys[key])
  {
    hide Encode, DecodeKv, Patched;
    var ks := keys[key];
    var own: Kv :| Representable(own) && ks.kvBytes == Encode(own)
                   && own == StateKv(key, ks).(createRev := own.createRev, version := own.version);
    PatchEqualsReencode(own, rev);
    LoggedRecords(keys, key, [], 0, rev);
    assert KvOf(DeleteRecord(keys, key, rev)) == StateKv(key, ks).(modRev := rev);
    EncodeInjective(own.(modRev := rev), StateKv(key, ks).(modRev := rev));
    DecodeRoundTrip(own);
  }

  lemma {:induction false} DeleteEachFrame(d: Db, ks: seq<Blob>, rev: nat, k: Blob)
    requires k !in ks
    ensures Entry(DeleteEach(d, ks, rev).mem.keys, k) == Entry(d.mem.keys, k)
  {
    if ks != [] {
      assert k !in ks[..|ks| - 1];
      DeleteEachFrame(d, ks[..|ks| - 1], rev, k);
    }
  }

  predicate Distinct(ks: seq<Blob>) {
    forall i, j :: 0 <= i < j < |ks| ==> ks[i] != ks[j]
  }

  /** Logging a batch of deletes and then applying them is committing them one by one. */
  lemma {:induction false} DeletesAreCommits(d: Db, all: seq<Record>, ks: seq<Blob>, rev: nat)
    requires Distinct(ks) && forall k :: k in ks ==> Live(d.mem.keys, k) && EntryOk(k, d.mem.keys[k])
    ensures var recs := DeleteRecords(d.mem.keys, ks, rev);
            DeleteEach(d.(log := all), ks, rev) == CommitAll(d, recs).(log := all) && Legal(d, recs, rev)
  {
    if ks != [] {
      var init, k := ks[..|ks| - 1], ks[|ks| - 1];
      DeletesAreCommits(d, all, init, rev);
      var recs := DeleteRecords(d.mem.keys, ks, rev);
      assert recs[..|recs| - 1] == DeleteRecords(d.mem.keys, init, rev);
      var d' := CommitAll(d, recs[..|recs| - 1]);
      assert k !in init;
      DeleteEachFrame(d.(log := all), init, rev, k);
      assert Entry(d'.mem.keys, k) == Entry(d.mem.keys, k);
      DeleteEventIsRecordEvent(d'.mem.keys, k, rev);
      LiveDeleteIsReplay(d'.mem, k, rev);
      assert DeleteRecord(d'.mem.keys, k, rev) == recs[|recs| - 1];
    }
  }

  lemma DeleteBatchIsCommits(d: Db, ks: seq<Blob>, rev: nat)
    requires Distinct(ks) && KeysOk(d.mem.keys) && forall k :: k in ks ==> Live(d.mem.keys, k)
    ensures var recs := DeleteRecords(d.mem.keys, ks, rev);
            DeleteBatch(d, ks, rev) == CommitAll(d, recs) && Legal(d, recs, rev)
  {
    var recs := DeleteRecords(d.mem.keys, ks, rev);
    DeletesAreCommits(d, d.log + recs, ks, rev);
    CommitAllParts(d, recs);
  }

  lemma SortedDistinct(keys: set<Blob>)
    ensures Distinct(Sorted(keys))
  {
    SortedAscends(keys);
    var s := Sorted(keys);
    forall i, j | 0 <= i < j < |s| ensures s[i] != s[j] { LessIrreflexive(s[i]); }
  }

  // ---------------------------------------------------------------- batches

  /** `d'` is reached from `d` by legal commits at revision `rev`; the log says which. */
  ghost predicate Batch(d: Db, d': Db, rev: nat) {
    d.log <= d'.log && Legal(d, d'.log[|d.log|..], rev) && d' == CommitAll(d, d'.log[|d.log|..])
  }

  lemma CommitsAreBatch(d: Db, recs: seq<Record>, rev: nat)
    requires Legal(d, recs, rev)
    ensures Batch(d, CommitAll(d, recs), rev)
  {
    CommitAllParts(d, recs);
    assert CommitAll(d, recs).log[|d.log|..] == recs;
  }

  lemma BatchTransitive(d: Db, d1: Db, d2: Db, rev: nat)
    requires Batch(d, d1, rev) && Batch(d1, d2, rev)
    ensures Batch(d, d2, rev)
  {
    hide Legal, CommitAll;
    var a, b := d1.log[|d.log|..], d2.log[|d1.log|..];
    assert d2.log[|d.log|..] == a + b;
    LegalConcat(d, a, b, rev);
    CommitAllConcat(d, a, b);
  }

  lemma BatchKeepsRecorded(d: Db, d': Db, rev: nat)
    requires Recorded(d, rev) && rev > 0 && Batch(d, d', rev)
    ensures Recorded(d', rev)
  {
    CommitsKeepRecorded(d, d'.log[|d.log|..], rev);
  }

  /** A put writes at most one record, at the revision it was given. */
  lemma PutAtIsBatch(s: State, req: PutReq, rev: nat)
    requires |req.key| < TWO32
    ensures Batch(s.db, PutAt(s, req, rev).state.db, rev)
    ensures PutAt(s, req, rev).state == s.(db := PutAt(s, req, rev).state.db)
  {
    var o := PutAt(s, req, rev);
    if o.result.Ok? {
      var value, lease := PutValue(KeysOf(s), req), PutLease(KeysOf(s), req);
      var r := PutRecord(KeysOf(s), req.key, value, lease, rev);
      PutIsCommit(s.db, req.key, value, lease, rev);
      LoggedRecords(KeysOf(s), req.key, value, lease, rev);
      assert [r][..0] == [];
      assert CommitAll(s.db, [r]) == Commit(s.db, r);
      CommitsAreBatch(s.db, [r], rev);
    } else {
      CommitsAreBatch(s.db, [], rev);
    }
  }

  /** A range delete writes one record per live matching key, in key order, at one revision. */
  lemma DeleteRangeAtIsBatch(s: State, req: DeleteReq, rev: nat)
    requires KeysOk(KeysOf(s))
    ensures Batch(s.db, DeleteRangeAt(s, req, rev).state.db, rev)
    ensures DeleteRangeAt(s, req, rev).state == s.(db := DeleteRangeAt(s, req, rev).state.db)
  {
    var ks := KeysToDelete(KeysOf(s), ResolveRange(req.key, req.rangeEnd));
    SortedDistinct(LiveMatching(KeysOf(s), ResolveRange(req.key, req.rangeEnd)));
    DeleteBatchIsCommits(s.db, ks, rev);
    CommitsAreBatch(s.db, DeleteRecords(KeysOf(s), ks, rev), rev);
  }

  lemma NoCommits(d: Db, rev: nat)
    ensures CommitAll(d, []) == d && Legal(d, [], rev)
  {}

  lemma DeleteKeysForLeaseIsBatch(s: State, id: int)
    requires KeysOk(KeysOf(s))
    ensures var s' := DeleteKeysForLease(s, id);
            Batch(s.db, s'.db, s.nextRev) && s' == s.(db := s'.db, nextRev := s'.nextRev)
            && s'.nextRev == (if LeaseKeys(KeysOf(s), id) == [] then s.nextRev else s.nextRev + 1)
            && (s'.nextRev == s.nextRev ==> s'.db == s.db)
  {
    hide Legal, CommitAll, Batch, DeleteRecord;
    NoCommits(s.db, s.nextRev);
    var ks := LeaseKeys(KeysOf(s), id);
    SortedDistinct(set k | k in KeysOf(s) && KeysOf(s)[k].lease == id && Alive(KeysOf(s)[k]));
    if ks == [] {
      CommitsAreBatch(s.db, [], s.nextRev);
    } else {
      DeleteBatchIsCommits(s.db, ks, s.nextRev);
      CommitsAreBatch(s.db, DeleteRecords(KeysOf(s), ks, s.nextRev), s.nextRev);
    }
  }
}
