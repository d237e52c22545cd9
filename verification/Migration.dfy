/** The migration tool: old records in, new log records out, with the per-key state it keeps. */
module Migration {
  import opened Bytes
  import opened Seqs
  import opened Wal
  import opened KeyMap
  import opened Recovery
  import opened LegacyWal

  /** What the tool remembers of a key that is alive. */
  datatype Tracked = Tracked(createRev: nat, version: nat, value: Blob, lease: int)

  /** A lease counts only when the flags announce it. */
  function OldLease(r: OldRecord): int {
    if LeaseFlag(r.flags) then r.leaseId.UnwrapOr(0) else 0
  }

  // ---------------------------------------------------------- the direct meaning

  /** What one old record does to the key map. */
  function ApplyOld(m: Mem, r: OldRecord): Mem {
    if OldDeleted(r) then ApplyDelete(m, r.key, r.revision)
    else ApplyPut(m, r.key, r.value, OldLease(r), r.revision, None)
  }

  /** The key map an old log stands for. */
  function FoldOld(rs: seq<OldRecord>): Mem {
    if rs == [] then EMPTY else ApplyOld(FoldOld(rs[..|rs| - 1]), rs[|rs| - 1])
  }

  /** What an old put leaves: its value, its revision, and its lease if it has one. */
  lemma OldPutMeaning(rs: seq<OldRecord>, r: OldRecord)
    requires !OldDeleted(r) && LeaseConsistent(r)
    ensures var keys := FoldOld(rs + [r]).keys;
            Live(keys, r.key) && keys[r.key].value == r.value && keys[r.key].modRev == r.revision
            && keys[r.key].lease == (match r.leaseId case Some(id) => id case None => 0)
  {
    hide StateBytes;
    assert (rs + [r])[..|rs|] == rs;
  }

  /** What an old delete leaves: a tombstone of a live key, and nothing otherwise. */
  lemma OldDeleteMeaning(rs: seq<OldRecord>, r: OldRecord)
    requires OldDeleted(r)
    ensures var before, after := FoldOld(rs).keys, FoldOld(rs + [r]).keys;
            Entry(after, r.key) == (if Live(before, r.key) then Some(before[r.key].(deleteRev := r.revision)) else Entry(before, r.key))
            && forall k :: k != r.key ==> Entry(after, k) == Entry(before, k)
  {
    assert (rs + [r])[..|rs|] == rs;
  }

  // ------------------------------------------------------------------ the tool

  /** What the tool holds: the keys alive so far and the log written. */
  datatype Tool = Tool(alive: map<Blob, Tracked>, log: seq<Record>)

  /** The record written for an old one. A delete of a key that is not alive still writes a record,
      and every put is flagged as a creation. */
  function NewOf(alive: map<Blob, Tracked>, r: OldRecord): Record {
    if OldDeleted(r) then
      if r.key in alive then
        var t := alive[r.key];
        Record(DELETED + (if t.lease != 0 then HAS_LEASE else 0), r.key, t.value, t.createRev, r.revision, t.version, t.lease)
      else Record(DELETED, r.key, [], 0, r.revision, 0, 0)
    else
      var lease := OldLease(r);
      Record(IS_CREATE + (if lease != 0 then HAS_LEASE else 0), r.key, r.value,
             if r.key in alive then alive[r.key].createRev else r.revision, r.revision,
             if r.key in alive then alive[r.key].version + 1 else 1, lease)
  }

  function MigrateStep(t: Tool, r: OldRecord): Tool {
    var out := NewOf(t.alive, r);
    Tool(if OldDeleted(r) then t.alive - {r.key} else t.alive[r.key := Tracked(out.createRev, out.version, r.value, out.lease)],
         t.log + [out])
  }

  function Migrating(rs: seq<OldRecord>): Tool {
    if rs == [] then Tool(map[], []) else MigrateStep(Migrating(rs[..|rs| - 1]), rs[|rs| - 1])
  }

  function Migrated(rs: seq<OldRecord>): seq<Record> { Migrating(rs).log }

  /** The new log holds one write per old record: same key, same revision, same kind. */
  predicate SameWrites(log: seq<Record>, rs: seq<OldRecord>) {
    |log| == |rs|
    && forall i :: 0 <= i < |log| ==>
         log[i].key == rs[i].key && log[i].modRev == rs[i].revision && (Deleted(log[i]) <==> OldDeleted(rs[i]))
  }

  lemma NewOfWrites(alive: map<Blob, Tracked>, r: OldRecord)
    ensures var out := NewOf(alive, r);
            out.key == r.key && out.modRev == r.revision && (Deleted(out) <==> OldDeleted(r))
  {}

  lemma {:induction false} MigratedWrites(rs: seq<OldRecord>)
    ensures SameWrites(Migrated(rs), rs)
  {
    hide NewOf, Deleted, OldDeleted;
    if rs != [] {
      MigratedWrites(rs[..|rs| - 1]);
      NewOfWrites(Migrating(rs[..|rs| - 1]).alive, rs[|rs| - 1]);
    }
  }

  // -------------------------------------------------------------- what it preserves

  /** The tracked state agrees with the key map so far. */
  ghost predicate Tracks(alive: map<Blob, Tracked>, keys: Keys) {
    (forall k :: k in alive <==> Live(keys, k))
    && (forall k :: k in alive ==> alive[k] == Tracked(keys[k].createRev, keys[k].version, keys[k].value, keys[k].lease))
  }

  /** The map counts its live keys and was modified at positive revisions. */
  ghost predicate Sound(m: Mem) {
    m.keyCount == |LiveKeys(m.keys)| && forall k :: k in m.keys ==> m.keys[k].modRev > 0
  }

  /** Revision 0, which no store allocates, marks at most a delete of a key that is not alive. */
  ghost predicate Dated(m: Mem, r: OldRecord) {
    r.revision == 0 ==> OldDeleted(r) && !Live(m.keys, r.key)
  }

  ghost predicate AllDated(rs: seq<OldRecord>) {
    rs == [] || (AllDated(rs[..|rs| - 1]) && Dated(FoldOld(rs[..|rs| - 1]), rs[|rs| - 1]))
  }

  lemma PutTracked(m: Mem, alive: map<Blob, Tracked>, r: OldRecord)
    requires Tracks(alive, m.keys) && !OldDeleted(r)
    ensures ApplyRecord(m, NewOf(alive, r)) == ApplyOld(m, r)
    ensures Tracks(MigrateStep(Tool(alive, []), r).alive, ApplyOld(m, r).keys)
  {
    var out := NewOf(alive, r);
    var ks := PutEntry(Entry(m.keys, r.key), r.key, r.value, OldLease(r), r.revision, None);
    assert KvOf(out) == StateKv(r.key, ks) && !Deleted(out);
  }

  lemma DeleteTracked(m: Mem, alive: map<Blob, Tracked>, r: OldRecord)
    requires Tracks(alive, m.keys) && OldDeleted(r) && Dated(m, r)
    ensures ApplyRecord(m, NewOf(alive, r)) == ApplyOld(m, r)
    ensures Tracks(alive - {r.key}, ApplyOld(m, r).keys)
  {
    NewOfWrites(alive, r);
  }

  lemma StepTracked(m: Mem, t: Tool, r: OldRecord)
    requires Tracks(t.alive, m.keys) && Dated(m, r)
    ensures ApplyRecord(m, NewOf(t.alive, r)) == ApplyOld(m, r)
    ensures Tracks(MigrateStep(t, r).alive, ApplyOld(m, r).keys)
  {
    hide ApplyRecord, ApplyOld, Tracks, Dated, NewOf;
    if OldDeleted(r) { DeleteTracked(m, t.alive, r); } else { PutTracked(m, t.alive, r); }
  }

  lemma SoundAfter(m: Mem, alive: map<Blob, Tracked>, r: OldRecord)
    requires Sound(m) && Dated(m, r) && ApplyRecord(m, NewOf(alive, r)) == ApplyOld(m, r)
    ensures Sound(ApplyOld(m, r))
  {
    if r.revision == 0 {
      assert ApplyOld(m, r) == m;
    } else {
      NewOfWrites(alive, r);
      CountAfter(m, NewOf(alive, r));
    }
  }

  /** What `open` rebuilds from a log: records at revision 0 are skipped. */
  function Opened(log: seq<Record>): Mem {
    if log == [] then EMPTY
    else
      var init, r := Opened(log[..|log| - 1]), log[|log| - 1];
      if r.modRev == 0 then init else ApplyRecord(init, r)
  }

  lemma {:induction false} OpenedIsReplayWal(log: seq<Record>)
    requires forall r :: r in log ==> Fits(r)
    ensures ReplayWal(Map(NewRecord, log)).mem == Opened(log)
  {
    hide Fits, ApplyWal, ApplyRecord, NewRecord;
    if log != [] {
      var n := |log| - 1;
      assert log[n] in log && forall r :: r in log[..n] ==> r in log;
      OpenedIsReplayWal(log[..n]);
      assert Map(NewRecord, log)[..n] == Map(NewRecord, log[..n]);
      AccessorsExact(log[n]);
      ApplyWalIsApplyRecord(Opened(log[..n]), log[n]);
    }
  }

  /** The migrated log means what the old one did. */
  lemma {:induction false} MigrationKeepsMeaning(rs: seq<OldRecord>)
    requires AllDated(rs)
    ensures Replay(Migrated(rs)) == Opened(Migrated(rs)) == FoldOld(rs)
    ensures Tracks(Migrating(rs).alive, FoldOld(rs).keys) && Sound(FoldOld(rs))
  {
    hide ApplyRecord, ApplyOld, NewOf, Dated, Tracks, Sound;
    if rs == [] {
      NothingYet();
    } else {
      var init, r := rs[..|rs| - 1], rs[|rs| - 1];
      MigrationKeepsMeaning(init);
      var t, m := Migrating(init), FoldOld(init);
      StepTracked(m, t, r);
      SoundAfter(m, t.alive, r);
      NewOfWrites(t.alive, r);
      ReplaySnoc(EMPTY, t.log, NewOf(t.alive, r));
      assert Migrated(rs)[..|t.log|] == t.log;
      if r.revision == 0 { UndatedDoesNothing(m, r); }
    }
  }

  lemma NothingYet()
    ensures Replay([]) == FoldOld([]) && Tracks(map[], EMPTY.keys) && Sound(EMPTY)
  {
    assert LiveKeys(EMPTY.keys) == {};
  }

  lemma UndatedDoesNothing(m: Mem, r: OldRecord)
    requires Dated(m, r) && r.revision == 0
    ensures ApplyOld(m, r) == m
  {}

  /** Any other record at revision 0 does something that opening the new log leaves out. */
  lemma UndatedIsLost(m: Mem, r: OldRecord)
    requires Sound(m) && !Dated(m, r)
    ensures ApplyOld(m, r) != m
  {
    if OldDeleted(r) {
      assert r.key in LiveKeys(m.keys);
    } else {
      assert ApplyOld(m, r).keys[r.key].modRev == 0;
    }
  }

  lemma OpenedSkips(rs: seq<OldRecord>)
    requires rs != [] && rs[|rs| - 1].revision == 0
    ensures Opened(Migrated(rs)) == Opened(Migrated(rs[..|rs| - 1]))
  {
    var t, r := Migrating(rs[..|rs| - 1]), rs[|rs| - 1];
    NewOfWrites(t.alive, r);
    assert Migrated(rs)[..|t.log|] == t.log;
  }

  /** The log written for every prefix of the old log opens to that prefix's meaning. */
  ghost predicate OpensRight(rs: seq<OldRecord>) {
    forall n: nat :: n <= |rs| ==> RightAt(rs, n)
  }

  ghost predicate RightAt(rs: seq<OldRecord>, n: nat)
    requires n <= |rs|
  {
    Opened(Migrated(rs[..n])) == FoldOld(rs[..n])
  }

  lemma RightAtPrefix(rs: seq<OldRecord>, n: nat)
    requires n < |rs|
    ensures RightAt(rs[..|rs| - 1], n) <==> RightAt(rs, n)
    ensures RightAt(rs, |rs|) <==> Opened(Migrated(rs)) == FoldOld(rs)
  {
    assert rs[..|rs| - 1][..n] == rs[..n] && rs[..|rs|] == rs;
  }

  /** Migration is right at every point of the old log if and only if no record at revision 0 does
      anything there. */
  lemma {:induction false} MigrationIsExact(rs: seq<OldRecord>)
    ensures OpensRight(rs) <==> AllDated(rs)
  {
    hide Opened, Migrated, FoldOld, Dated, Sound;
    if rs != [] {
      var k := |rs| - 1;
      var init, r := rs[..k], rs[k];
      MigrationIsExact(init);
      OpensRightSnoc(rs);
      if AllDated(init) {
        MigrationKeepsMeaning(init);
        if Dated(FoldOld(init), r) { MigrationKeepsMeaning(rs); } else { LastIsLost(rs); }
      }
    } else {
      assert rs[..0] == [];
      MigrationKeepsMeaning(rs);
    }
  }

  lemma OpensRightSnoc(rs: seq<OldRecord>)
    requires rs != []
    ensures OpensRight(rs) <==> OpensRight(rs[..|rs| - 1]) && Opened(Migrated(rs)) == FoldOld(rs)
  {
    hide RightAt, Opened, Migrated, FoldOld;
    var init := rs[..|rs| - 1];
    RightAtPrefix(rs, 0);
    forall n: nat | n <= |init| ensures RightAt(init, n) <==> RightAt(rs, n) { RightAtPrefix(rs, n); }
    if OpensRight(init) && RightAt(rs, |rs|) {
      forall n: nat | n <= |rs| ensures RightAt(rs, n) {
        if n < |rs| { assert RightAt(init, n); }
      }
    }
  }

  lemma LastIsLost(rs: seq<OldRecord>)
    requires rs != [] && AllDated(rs[..|rs| - 1]) && !Dated(FoldOld(rs[..|rs| - 1]), rs[|rs| - 1])
    ensures Opened(Migrated(rs)) != FoldOld(rs)
  {
    hide Opened, Migrated, Sound, ApplyOld;
    MigrationKeepsMeaning(rs[..|rs| - 1]);
    OpenedSkips(rs);
    UndatedIsLost(FoldOld(rs[..|rs| - 1]), rs[|rs| - 1]);
  }

  lemma {:induction false} PositiveIsDated(rs: seq<OldRecord>)
    requires forall r :: r in rs ==> r.revision > 0
    ensures AllDated(rs)
  {
    if rs != [] {
      assert rs[|rs| - 1] in rs && forall r :: r in rs[..|rs| - 1] ==> r in rs;
      PositiveIsDated(rs[..|rs| - 1]);
    }
  }

  // ------------------------------------------------------------------ the methods

  /** `migrate`: the log it writes holds one write per old record, and replays to the key map the old
      log stands for, blobs, tombstones, rebirth marks and live-key count included, whenever no record
      at revision 0 does anything. */
  method Migrate(records: seq<OldRecord>) returns (log: seq<Record>)
    ensures log == Migrated(records) && SameWrites(log, records)
    ensures AllDated(records) ==> Replay(log) == FoldOld(records)
  {
    hide Replay, FoldOld;
    log := [];
    var alive: map<Blob, Tracked> := map[];
    for i := 0 to |records|
      invariant Migrating(records[..i]) == Tool(alive, log)
    {
      var rec := records[i];
      assert records[..i + 1][..i] == records[..i];
      var out: Record;
      if OldDeleted(rec) {
        if rec.key in alive {
          var t := alive[rec.key];
          out := Record(DELETED + (if t.lease != 0 then HAS_LEASE else 0), rec.key, t.value, t.createRev, rec.revision, t.version, t.lease);
        } else {
          out := Record(DELETED, rec.key, [], 0, rec.revision, 0, 0);
        }
        alive := alive - {rec.key};
      } else {
        var lease := OldLease(rec);
        var createRev, version := rec.revision, 1;
        if rec.key in alive {
          createRev, version := alive[rec.key].createRev, alive[rec.key].version + 1;
        }
        out := Record(IS_CREATE + (if lease != 0 then HAS_LEASE else 0), rec.key, rec.value, createRev, rec.revision, version, lease);
        alive := alive[rec.key := Tracked(createRev, version, rec.value, lease)];
      }
      log := log + [out];
    }
    assert records[..|records|] == records;
    MigratedWrites(records);
    if AllDated(records) { MigrationKeepsMeaning(records); }
  }

  /** End to end: read the old file, cut off anywhere in its last record, migrate it and open the
      file written. The store starts from the key map the complete old records stand for. */
  method MigrateFile(file: Blob) returns (log: seq<Record>)
    ensures log == Migrated(OldScan(file).records)
    ensures (forall r :: r in log ==> Fits(r)) && AllDated(OldScan(file).records) ==>
              !Scan(SerializeAll(log)).failed && ReplayWal(Scan(SerializeAll(log)).records).mem == FoldOld(OldScan(file).records)
  {
    hide Fits, KvBytes, SerializeAll, FoldOld, Opened, Migrating;
    var records := ReadOldRecords(file);
    log := Migrate(records);
    if (forall r :: r in log ==> Fits(r)) && AllDated(records) {
      assert SerializeAll(log) + [] == SerializeAll(log);
      ScanWhole(log);
      OpenedIsReplayWal(log);
      MigrationKeepsMeaning(records);
    }
  }

  lemma ScanWhole(log: seq<Record>)
    requires forall r :: r in log ==> Fits(r)
    ensures !Scan(SerializeAll(log)).failed && Scan(SerializeAll(log)).records == Map(NewRecord, log)
  {
    assert SerializeAll(log) + [] == SerializeAll(log);
    ScanRecovers(log, []);
  }
}
