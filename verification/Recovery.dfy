/** Opening a store: scanning the log file and rebuilding the key map, the clock and the leases. */
module Recovery {
  import opened Bytes
  import opened Varint
  import opened KvParse
  import opened Seqs
  import opened Scanner
  import opened Wal
  import opened KeyMap
  import opened StoreSpec

  /** `apply_record` on a record as read from the file. */
  function ApplyWal(m: Mem, w: KvWalRecord): Mem {
    if w.flags % 2 == 1 then ApplyDelete(m, RecordKey(w).UnwrapOr([]), RecordRev(w))
    else match DecodeKv(w.kvBytes)
      case None => m
      case Some(kv) => ApplyPut(m, kv.key, kv.value, AsI64(kv.lease), RecordRev(w), Some(w.kvBytes))
  }

  /** The key map and the highest revision seen. */
  datatype Rebuilt = Rebuilt(mem: Mem, maxRev: nat)

  /** One turn of the replay loop; records at revision 0 are skipped like compacted ones. */
  function ReplayStep(b: Rebuilt, w: KvWalRecord): Rebuilt {
    var rev := RecordRev(w);
    if rev <= 0 then b
    else Rebuilt(ApplyWal(b.mem, w), if rev > b.maxRev then rev else b.maxRev)
  }

  function ReplayWal(ws: seq<KvWalRecord>): Rebuilt {
    if ws == [] then Rebuilt(EMPTY, 0) else ReplayStep(ReplayWal(ws[..|ws| - 1]), ws[|ws| - 1])
  }

  /** The replay loop of `open` over the file's bytes; `None` when the scan itself fails. */
  method RebuildFromFile(file: Blob) returns (b: Option<Rebuilt>)
    ensures b == if Scan(file).failed then None else Some(ReplayWal(Scan(file).records))
  {
    var scanned := ScanKvFile(file, 0);
    assert From(file, 0) == file;
    if scanned.failed { return None; }
    var mem, maxRev := EMPTY, 0;
    for i := 0 to |scanned.records|
      invariant Rebuilt(mem, maxRev) == ReplayWal(scanned.records[..i])
    {
      var rec := scanned.records[i];
      assert scanned.records[..i + 1][..i] == scanned.records[..i];
      var rev := RecordRev(rec);
      if rev > 0 {
        mem := ApplyWal(mem, rec);
        if rev > maxRev { maxRev := rev; }
      }
    }
    assert scanned.records[..|scanned.records|] == scanned.records;
    return Some(Rebuilt(mem, maxRev));
  }

  /** Replaying the framed bytes of a record is replaying the record. */
  lemma ApplyWalIsApplyRecord(m: Mem, r: Record)
    requires Fits(r)
    ensures ApplyWal(m, NewRecord(r)) == ApplyRecord(m, r)
  {
    NewFields(r);
    AccessorsExact(r);
    DecodeRoundTrip(KvOf(r));
    CastRoundTrip(r.lease);
  }

  /** A record read from the file stands for a logged one: same revision, same effect. */
  ghost predicate StandsFor(w: KvWalRecord, r: Record) {
    RecordRev(w) == r.modRev && forall m :: ApplyWal(m, w) == ApplyRecord(m, r)
  }

  lemma NewStandsFor(r: Record)
    requires Fits(r)
    ensures StandsFor(NewRecord(r), r)
  {
    AccessorsExact(r);
    forall m ensures ApplyWal(m, NewRecord(r)) == ApplyRecord(m, r) { ApplyWalIsApplyRecord(m, r); }
  }

  lemma {:induction false} ReplayStandIns(ws: seq<KvWalRecord>, log: seq<Record>)
    requires |ws| == |log| && forall i :: 0 <= i < |ws| ==> StandsFor(ws[i], log[i]) && log[i].modRev > 0
    ensures ReplayWal(ws) == Rebuilt(Replay(log), MaxRev(log))
  {
    if log != [] {
      var n := |log| - 1;
      ReplayStandIns(ws[..n], log[..n]);
      assert StandsFor(ws[n], log[n]);
    }
  }

  /** Replay of the bytes is the fold of the log. */
  lemma ReplayWalIsReplay(log: seq<Record>)
    requires forall r :: r in log ==> Fits(r) && r.modRev > 0
    ensures ReplayWal(Map(NewRecord, log)) == Rebuilt(Replay(log), MaxRev(log))
  {
    var ws := Map(NewRecord, log);
    forall i | 0 <= i < |ws| ensures StandsFor(ws[i], log[i]) && log[i].modRev > 0 { NewStandsFor(log[i]); }
    ReplayStandIns(ws, log);
  }

  /** Recovery: whatever a crash left after the last complete record, scanning and replaying the
      file gives exactly the fold of the log, and a highest revision above every logged one. */
  lemma RecoverFile(log: seq<Record>, torn: Blob)
    requires forall r :: r in log ==> Fits(r) && r.modRev > 0
    requires torn == [] || TornWrite(torn)
    ensures var scanned := Scan(SerializeAll(log) + torn);
            !scanned.failed && ReplayWal(scanned.records) == Rebuilt(Replay(log), MaxRev(log))
  {
    ScanRecovers(log, torn);
    ReplayWalIsReplay(log);
  }

  // ------------------------------------------------------------- restored state

  const RESTORED_TTL: nat := 3600

  function LeaseIds(keys: Keys): set<int> {
    set k | k in keys && Alive(keys[k]) && keys[k].lease != 0 :: keys[k].lease
  }

  function RestoredLeases(keys: Keys, now: nat): map<int, Lease> {
    map id | id in LeaseIds(keys) :: Lease(RESTORED_TTL, now + RESTORED_TTL)
  }

  /** One past the highest restored lease id, if that is positive. */
  function NextLeaseId(ids: set<int>): int {
    var s := IdsInOrder(ids);
    if s != [] && s[|s| - 1] > 0 then s[|s| - 1] + 1 else 1
  }

  /** The state a process starts with on a given log; watchers and compaction marks are not kept. */
  function Reopen(log: seq<Record>, now: nat): State {
    var mem := Replay(log);
    State(Db(mem, [], log), RestoredLeases(mem.keys, now), MaxRev(log) + 1, NextLeaseId(LeaseIds(mem.keys)), 0)
  }

  /** Each live key's lease exists. */
  ghost predicate LeasesOwned(keys: Keys, leases: map<int, Lease>) {
    forall k :: Live(keys, k) && keys[k].lease != 0 ==> keys[k].lease in leases
  }

  lemma ReopenOwnsLeases(log: seq<Record>, now: nat)
    ensures LeasesOwned(KeysOf(Reopen(log, now)), Reopen(log, now).leases)
  {}

  predicate AscendingIds(s: seq<int>) {
    forall i, j :: 0 <= i < j < |s| ==> s[i] < s[j]
  }

  lemma {:induction false} IdsAscend(ids: set<int>)
    ensures AscendingIds(IdsInOrder(ids))
    decreases |ids|
  {
    if ids != {} {
      var m := LeastId(ids);
      var rest := IdsInOrder(ids - {m});
      IdsAscend(ids - {m});
      forall j | 0 <= j < |rest| ensures m < rest[j] { assert rest[j] in ids - {m}; }
      var s := IdsInOrder(ids);
      assert s == [m] + rest;
      forall i, j | 0 <= i < j < |s| ensures s[i] < s[j] {
        assert s[j] == rest[j - 1];
        if i > 0 { assert s[i] == rest[i - 1]; }
      }
    }
  }

  /** Fresh lease ids handed out after reopening do not collide with restored ones. */
  lemma ReopenedIdsAreFresh(log: seq<Record>, now: nat, id: int)
    requires id >= Reopen(log, now).nextLeaseId
    ensures id !in Reopen(log, now).leases
  {
    var ids := LeaseIds(Replay(log).keys);
    var s := IdsInOrder(ids);
    IdsAscend(ids);
    forall i | 0 <= i < |s| ensures s[i] <= s[|s| - 1] {
      if i < |s| - 1 { assert s[i] < s[|s| - 1]; }
    }
    assert id in ids ==> id in s;
  }
}
