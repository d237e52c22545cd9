/** Compacting the log file: a snapshot of the live keys under the read lock, an unlocked write, and
    a locked copy of what was appended meanwhile, followed by the swap. */
module Compaction {
  import opened Bytes
  import opened Varint
  import opened Wal
  import opened OrderedKeys
  import opened KeyMap
  import opened StoreSpec
  import opened Commits
  import opened Recovery
  import opened Runs
  import opened KvCodec
  import opened KvParse
  import opened Sends
  import opened History
  import Scanner

  // -------------------------------------------------------------------- snapshot

  function SnapshotRecord(key: Blob, ks: KeyState): Record {
    Record(if ks.lease != 0 then HAS_LEASE else 0, key, ks.value, ks.createRev, ks.modRev, ks.version, ks.lease)
  }

  function SnapshotOf(keys: Keys, ks: seq<Blob>): seq<Record>
    requires forall k :: k in ks ==> k in keys
  {
    seq(|ks|, i requires 0 <= i < |ks| => SnapshotRecord(ks[i], keys[ks[i]]))
  }

  function InOrder(ks: set<Blob>): (s: seq<Blob>)
    ensures forall k :: k in s <==> k in ks
  {
    assert forall k :: k in Sorted(ks) <==> k in Elements(Sorted(ks));
    Sorted(ks)
  }

  /** One record per live key, in key order. */
  function SnapshotLog(keys: Keys): seq<Record> { SnapshotOf(keys, InOrder(LiveKeys(keys))) }

  /** The live keys among `all`, in the same order. */
  function LiveAmong(keys: Keys, all: seq<Blob>): (live: seq<Blob>)
    ensures forall k :: k in live <==> k in all && Live(keys, k)
  {
    Filter(k => Live(keys, k), all)
  }

  /** The snapshot loop of phase A. */
  method TakeSnapshot(keys: Keys) returns (recs: seq<Record>)
    ensures recs == SnapshotLog(keys)
  {
    var all := Sorted(keys.Keys);
    recs := [];
    for i := 0 to |all|
      invariant recs == SnapshotOf(keys, LiveAmong(keys, all[..i]))
    {
      var key := all[i];
      assert key in Elements(all);
      assert all[..i + 1][..i] == all[..i];
      if Alive(keys[key]) {
        recs := recs + [SnapshotRecord(key, keys[key])];
      }
    }
    assert all[..|all|] == all;
    FilterSorted(k => Live(keys, k), keys.Keys, LiveKeys(keys));
  }

  // ------------------------------------------------------------------ similarity

  /** The same data: value, lease and `mod_revision`. */
  predicate SameData(a: KeyState, b: KeyState) {
    a.value == b.value && a.lease == b.lease && a.modRev == b.modRev
  }

  /** Same live keys with the same data, and the same live-key count. */
  ghost predicate Alike(a: Mem, b: Mem) {
    a.keyCount == b.keyCount
    && forall k :: (Live(a.keys, k) <==> Live(b.keys, k)) && (Live(a.keys, k) ==> SameData(a.keys[k], b.keys[k]))
  }

  ghost predicate SameBlobs(a: Mem, b: Mem) {
    forall k :: Live(a.keys, k) && Live(b.keys, k) ==> a.keys[k].kvBytes == b.keys[k].kvBytes
  }

  /** Alike, with the same blobs. */
  ghost predicate Similar(a: Mem, b: Mem) { Alike(a, b) && SameBlobs(a, b) }

  /** Replaying the same record keeps two states alike, and similar if they were, whatever their
      tombstones, creation revisions and versions are. */
  lemma ApplyAlike(a: Mem, b: Mem, r: Record)
    requires Alike(a, b) && r.modRev > 0
    ensures Alike(ApplyRecord(a, r), ApplyRecord(b, r))
    ensures SameBlobs(a, b) ==> SameBlobs(ApplyRecord(a, r), ApplyRecord(b, r))
  {
    hide KvBytes;
    var a', b' := ApplyRecord(a, r), ApplyRecord(b, r);
    assert Live(a.keys, r.key) <==> Live(b.keys, r.key);
    forall k ensures (Live(a'.keys, k) <==> Live(b'.keys, k)) && (Live(a'.keys, k) ==> SameData(a'.keys[k], b'.keys[k])) {
      assert Live(a.keys, k) <==> Live(b.keys, k);
    }
    if SameBlobs(a, b) {
      forall k | Live(a'.keys, k) && Live(b'.keys, k) ensures a'.keys[k].kvBytes == b'.keys[k].kvBytes {
        assert k != r.key ==> Live(a.keys, k) && Live(b.keys, k);
      }
    }
  }

  /** The agreement of two states survives all later appends. */
  lemma {:induction false} ReplayAlike(a: Mem, b: Mem, recs: seq<Record>)
    requires Alike(a, b) && Positive(recs)
    ensures Alike(ReplayFrom(a, recs), ReplayFrom(b, recs))
    ensures SameBlobs(a, b) ==> SameBlobs(ReplayFrom(a, recs), ReplayFrom(b, recs))
  {
    if recs != [] {
      var n := |recs| - 1;
      assert recs[n] in recs && forall r :: r in recs[..n] ==> r in recs;
      ReplayAlike(a, b, recs[..n]);
      ApplyAlike(ReplayFrom(a, recs[..n]), ReplayFrom(b, recs[..n]), recs[n]);
    }
  }

  lemma AlikeTransitive(a: Mem, b: Mem, c: Mem)
    requires Alike(a, b) && Alike(b, c)
    ensures Alike(a, c)
  {
    forall k ensures (Live(a.keys, k) <==> Live(c.keys, k)) && (Live(a.keys, k) ==> SameData(a.keys[k], c.keys[k])) {
      assert Live(a.keys, k) <==> Live(b.keys, k);
    }
  }

  // ------------------------------------------------------------ replayed snapshots

  /** The entry a snapshot record restores: data as it was, but created at its last modification, at
      version 1, never reborn, and with a blob encoded anew from the fields. */
  function Restored(key: Blob, ks: KeyState): KeyState {
    ks.(createRev := ks.modRev, version := 1, rebirth := false, kvBytes := StateBytes(key, ks))
  }

  lemma {:induction false} ReplaySnapshotOf(keys: Keys, ks: seq<Blob>)
    requires Distinct(ks) && forall k :: k in ks ==> k in keys && Alive(keys[k])
    ensures var m := Replay(SnapshotOf(keys, ks));
            m.keyCount == |ks| && (forall k :: k in m.keys <==> k in ks) && forall k :: k in ks ==> m.keys[k] == Restored(k, keys[k])
  {
    if ks != [] {
      var n := |ks| - 1;
      ReplaySnapshotOf(keys, ks[..n]);
      var recs := SnapshotOf(keys, ks);
      assert recs[..n] == SnapshotOf(keys, ks[..n]);
      assert ks[n] !in ks[..n] && ks[n] in ks;
      assert forall k :: k in ks <==> k in ks[..n] || k == ks[n];
      SnapshotRecordRestores(Replay(recs[..n]), ks[n], keys[ks[n]]);
    }
  }

  lemma SnapshotRecordRestores(m: Mem, key: Blob, ks: KeyState)
    requires key !in m.keys && Alive(ks)
    ensures ApplyRecord(m, SnapshotRecord(key, ks)) == Mem(m.keys[key := Restored(key, ks)], m.keyCount + 1)
  {
    assert KvOf(SnapshotRecord(key, ks)) == StateKv(key, ks);
  }

  /** Replaying a snapshot restores every live key's data and the count, and nothing else. */
  lemma ReplaySnapshot(m: Mem)
    requires m.keyCount == |LiveKeys(m.keys)|
    ensures Alike(Replay(SnapshotLog(m.keys)), m)
    ensures forall k :: Entry(Replay(SnapshotLog(m.keys)).keys, k)
                     == if Live(m.keys, k) then Some(Restored(k, m.keys[k])) else None
  {
    hide KvBytes, StateBytes, Replay;
    var ks := InOrder(LiveKeys(m.keys));
    SortedDistinct(LiveKeys(m.keys));
    SortedLength(LiveKeys(m.keys));
    ReplaySnapshotOf(m.keys, ks);
  }

  /** On a map with the entry invariant the blobs come back too. */
  lemma SnapshotSimilar(m: Mem)
    requires MemOk(m)
    ensures Similar(Replay(SnapshotLog(m.keys)), m)
  {
    hide KvBytes, StateBytes, Replay;
    ReplaySnapshot(m);
    var restored := Replay(SnapshotLog(m.keys));
    forall k | Live(restored.keys, k) && Live(m.keys, k) ensures restored.keys[k].kvBytes == m.keys[k].kvBytes {
      assert Entry(restored.keys, k) == Some(Restored(k, m.keys[k])) && EntryOk(k, m.keys[k]);
    }
  }

  /** Reopening on a snapshot alone gives a live key back its exact entry if and only if it was
      written once in its current and only lifetime. */
  lemma RestoredExactly(m: Mem, k: Blob)
    requires MemOk(m) && Live(m.keys, k)
    ensures Entry(Replay(SnapshotLog(m.keys)).keys, k) == Some(m.keys[k])
            <==> m.keys[k].version == 1 && m.keys[k].createRev == m.keys[k].modRev && !m.keys[k].rebirth
  {
    ReplaySnapshot(m);
    assert EntryOk(k, m.keys[k]);
  }

  /** In any state, a snapshot keeps a live key's blob if and only if the blob is current. */
  lemma SnapshotBlobIsExact(m: Mem, k: Blob)
    requires m.keyCount == |LiveKeys(m.keys)| && Live(m.keys, k)
    requires Shaped(k, m.keys[k]) && Representable(StateKv(k, m.keys[k]))
    ensures k in Replay(SnapshotLog(m.keys)).keys
    ensures Replay(SnapshotLog(m.keys)).keys[k].kvBytes == m.keys[k].kvBytes <==> BlobCurrent(k, m.keys[k])
  {
    hide StateBytes, Replay, Shaped, BlobCurrent, Representable;
    ReplaySnapshot(m);
    assert Entry(Replay(SnapshotLog(m.keys)).keys, k) == Some(Restored(k, m.keys[k]));
    ReencodeIsExact(k, m.keys[k]);
  }

  /** A restored entry's blob is current if and only if the key had been written once in its life. */
  lemma RestoredBlobIsCurrent(k: Blob, ks: KeyState)
    requires EntryOk(k, ks) && Representable(StateKv(k, ks))
    ensures Shaped(k, Restored(k, ks)) && Representable(StateKv(k, Restored(k, ks)))
    ensures BlobCurrent(k, Restored(k, ks)) <==> ks.version == 1 && ks.createRev == ks.modRev
  {
    hide Encode, DecodeKv;
    var own, again := StateKv(k, ks), StateKv(k, Restored(k, ks));
    assert own == again.(createRev := own.createRev, version := own.version) && Restored(k, ks).kvBytes == Encode(own);
    DecodeRoundTrip(own);
  }

  // ---------------------------------------------------------------- the protocol

  /** A compaction between its phases: the snapshot written so far and the file length it covers,
      in records. */
  datatype Pending = Pending(snapshot: seq<Record>, base: nat)

  /** The running store, the records its log file holds, and every record it ever wrote. */
  datatype Disk = Disk(s: State, file: seq<Record>, pending: Option<Pending>, history: seq<Record>)

  const NEW_DISK := Disk(INIT, [], None, [])

  datatype DiskAction = Write(a: Action) | PhaseA | PhaseC | Restart(now: nat)

  /** The records a step appends. */
  function Appended(s: State, s': State): seq<Record> {
    if |s.db.log| <= |s'.db.log| then s'.db.log[|s.db.log|..] else []
  }

  function DiskStep(d: Disk, a: DiskAction): Disk {
    match a
    case Write(w) =>
      var s' := Step(d.s, w);
      var recs := Appended(d.s, s');
      Disk(s', d.file + recs, d.pending, d.history + recs)
    case PhaseA => if d.pending.Some? then d else d.(pending := Some(Pending(SnapshotLog(KeysOf(d.s)), |d.file|)))
    case PhaseC =>
      if d.pending.Some? && d.pending.value.base <= |d.file| then
        d.(file := d.pending.value.snapshot + d.file[d.pending.value.base..], pending := None)
      else d
    case Restart(now) => d.(s := Reopen(d.file, now), pending := None)
  }

  function DiskRun(d: Disk, actions: seq<DiskAction>): Disk {
    if actions == [] then d else DiskStep(DiskRun(d, actions[..|actions| - 1]), actions[|actions| - 1])
  }

  /** The bytes of phase C: reading the tail from the byte offset recorded in phase A and appending
      it to the compacted file writes exactly the records of the new file. */
  lemma SwapOnBytes(snapshot: seq<Record>, file: seq<Record>, base: nat)
    requires base <= |file|
    ensures SerializeAll(snapshot) + Scanner.From(SerializeAll(file), |SerializeAll(file[..base])|)
         == SerializeAll(snapshot + file[base..])
  {
    hide SerializeRecord;
    assert file == file[..base] + file[base..];
    FileFromOffset(file[..base], file[base..]);
    SerializeAllConcat(snapshot, file[base..]);
    assert SerializeAll(file[base..]) + [] == SerializeAll(file[base..]);
  }

  lemma SnapshotPositive(log: seq<Record>)
    requires Positive(log)
    ensures Positive(SnapshotLog(Replay(log).keys))
  {
    hide Replay;
    ReplayPositive(log);
    forall r | r in SnapshotLog(Replay(log).keys) ensures r.modRev > 0 { var k := SnapshotSource(Replay(log).keys, r); }
  }

  lemma AppendKeepsAlike(file: seq<Record>, m: Mem, recs: seq<Record>)
    requires Alike(Replay(file), m) && Positive(recs)
    ensures Alike(Replay(file + recs), ReplayFrom(m, recs))
    ensures SameBlobs(Replay(file), m) ==> SameBlobs(Replay(file + recs), ReplayFrom(m, recs))
  {
    ReplayConcat(EMPTY, file, recs);
    ReplayAlike(Replay(file), m, recs);
  }

  // ------------------------------------------------------------ where a file comes from

  /** The file is a snapshot of the state after the first `cut` records of the log, and the rest. */
  ghost predicate Lineage(file: seq<Record>, cut: nat, log: seq<Record>) {
    cut <= |log| && file == SnapshotLog(Replay(log[..cut]).keys) + log[cut..]
  }

  /** A file the live map could be rebuilt from. */
  ghost predicate Rebuilds(file: seq<Record>, m: Mem) { Positive(file) && Alike(Replay(file), m) }

  lemma SnapshotRebuilds(log: seq<Record>)
    requires Positive(log)
    ensures Rebuilds(SnapshotLog(Replay(log).keys), Replay(log))
  {
    ReplayPositive(log);
    ReplaySnapshot(Replay(log));
    SnapshotPositive(log);
  }

  lemma AppendKeepsRebuilds(file: seq<Record>, m: Mem, recs: seq<Record>)
    requires Rebuilds(file, m) && Positive(recs)
    ensures Rebuilds(file + recs, ReplayFrom(m, recs))
  {
    hide Alike;
    AppendKeepsAlike(file, m, recs);
    PositiveConcat(file, recs);
  }

  lemma SplitLog(log: seq<Record>, cut: nat)
    requires cut <= |log|
    ensures log[..cut] + log[cut..] == log
    ensures Positive(log) ==> Positive(log[..cut]) && Positive(log[cut..])
    ensures Replay(log) == ReplayFrom(Replay(log[..cut]), log[cut..])
  {
    hide ReplayFrom;
    assert log[..cut] + log[cut..] == log;
    PositiveConcat(log[..cut], log[cut..]);
    ReplayFromStart(log[..cut], log[cut..]);
  }

  /** Such a file rebuilds the live data, and holds nothing newer than the log. */
  lemma LineageRebuilds(file: seq<Record>, cut: nat, log: seq<Record>, hi: nat)
    requires Lineage(file, cut, log) && Positive(log) && Below(log, hi)
    ensures Rebuilds(file, Replay(log)) && Below(file, hi)
  {
    hide Rebuilds, Replay, ReplayFrom, SnapshotLog;
    var front := log[..cut];
    SplitLog(log, cut);
    SnapshotRebuilds(front);
    AppendKeepsRebuilds(SnapshotLog(Replay(front).keys), Replay(front), log[cut..]);
    SnapshotBelow(front, hi);
  }

  lemma SnapshotBelow(log: seq<Record>, hi: nat)
    requires Below(log, hi)
    ensures Below(SnapshotLog(Replay(log).keys), hi)
  {
    hide Replay;
    ReplayBelow(log, hi);
    forall r | r in SnapshotLog(Replay(log).keys) ensures r.modRev < hi { var k := SnapshotSource(Replay(log).keys, r); }
  }

  /** On a well-formed log the blobs come back as well. */
  lemma LineageKeepsBlobs(file: seq<Record>, cut: nat, log: seq<Record>)
    requires Lineage(file, cut, log) && WfLog(log)
    ensures Similar(Replay(file), Replay(log))
  {
    hide Replay, ReplayFrom, SnapshotLog, Alike, SameBlobs, WfLog;
    var front := log[..cut];
    WfPositive(log);
    SplitLog(log, cut);
    WfLogPrefix(log, cut);
    WfLogMem(front);
    SnapshotSimilar(Replay(front));
    AppendKeepsAlike(SnapshotLog(Replay(front).keys), Replay(front), log[cut..]);
  }

  lemma {:induction false} WfLogPrefix(log: seq<Record>, n: nat)
    requires WfLog(log) && n <= |log|
    ensures WfLog(log[..n])
  {
    if n < |log| {
      WfLogPrefix(log[..|log| - 1], n);
      assert log[..|log| - 1][..n] == log[..n];
    } else {
      assert log[..n] == log;
    }
  }

  lemma LineageGrows(file: seq<Record>, cut: nat, log: seq<Record>, recs: seq<Record>)
    requires Lineage(file, cut, log)
    ensures Lineage(file + recs, cut, log + recs)
  {
    hide SnapshotLog;
    assert (log + recs)[cut..] == log[cut..] + recs && (log + recs)[..cut] == log[..cut];
  }

  /** An uncompacted file. */
  lemma WholeLineage(log: seq<Record>)
    ensures Lineage(log, 0, log)
  {
    assert LiveKeys(EMPTY.keys) == {};
    assert log[..0] == [] && SnapshotLog(EMPTY.keys) == [] && [] + log[0..] == log;
  }

  /** A fresh snapshot. */
  lemma SnapshotLineage(log: seq<Record>)
    ensures Lineage(SnapshotLog(Replay(log).keys), |log|, log)
  {
    assert log[..|log|] == log && SnapshotLog(Replay(log).keys) + log[|log|..] == SnapshotLog(Replay(log).keys);
  }

  // ------------------------------------------------------------ runs with restarts

  /** Where the file comes from, and the one a pending compaction would make. */
  ghost predicate FileInv(d: Disk) {
    (exists cut :: Lineage(d.file, cut, d.s.db.log))
    && (d.pending.Some? ==>
          d.pending.value.base <= |d.file|
          && exists cut :: Lineage(d.pending.value.snapshot + d.file[d.pending.value.base..], cut, d.s.db.log))
  }

  /** The state is coherent and owns its leases, the file and a pending one stem from its log, and the
      whole history holds the same data. */
  ghost predicate DiskInv(d: Disk) {
    Coherent(d.s) && LeasesOwned(KeysOf(d.s), d.s.leases) && FileInv(d) && Rebuilds(d.history, d.s.db.mem)
  }

  lemma TailGrows(snapshot: seq<Record>, file: seq<Record>, base: nat, recs: seq<Record>)
    requires base <= |file|
    ensures snapshot + (file + recs)[base..] == (snapshot + file[base..]) + recs
  {
    assert (file + recs)[base..] == file[base..] + recs;
  }

  lemma WriteKeepsFileInv(d: Disk, recs: seq<Record>, s': State)
    requires FileInv(d) && s'.db.log == d.s.db.log + recs
    ensures FileInv(Disk(s', d.file + recs, d.pending, d.history + recs))
  {
    hide Lineage;
    var cut :| Lineage(d.file, cut, d.s.db.log);
    LineageGrows(d.file, cut, d.s.db.log, recs);
    if d.pending.Some? {
      var p := d.pending.value;
      var cut' :| Lineage(p.snapshot + d.file[p.base..], cut', d.s.db.log);
      TailGrows(p.snapshot, d.file, p.base, recs);
      LineageGrows(p.snapshot + d.file[p.base..], cut', d.s.db.log, recs);
    }
  }

  lemma WriteKeepsDiskInv(d: Disk, a: Action)
    requires DiskInv(d) && !a.DoReopen?
    ensures DiskInv(DiskStep(d, Write(a)))
  {
    hide Replay, ReplayFrom, Rebuilds, Step, FileInv, LeasesOwned, Appends, Below;
    var s' := Step(d.s, a);
    EveryStepAppends(d.s, a);
    StepAppendsMem(d.s, s');
    CoherentStep(d.s, s');
    EveryStepOwnsLeases(d.s, a);
    var recs := Appended(d.s, s');
    AppendKeepsRebuilds(d.history, d.s.db.mem, recs);
    WriteKeepsFileInv(d, recs, s');
  }

  lemma PhaseAKeepsFileInv(d: Disk)
    requires FileInv(d) && d.s.db.mem == Replay(d.s.db.log)
    ensures FileInv(DiskStep(d, PhaseA))
  {
    hide Lineage, SnapshotLog, Replay;
    if d.pending.None? {
      SnapshotLineage(d.s.db.log);
      var snapshot := SnapshotLog(KeysOf(d.s));
      assert snapshot + d.file[|d.file|..] == snapshot;
    }
  }

  lemma PhaseCKeepsFileInv(d: Disk)
    requires FileInv(d)
    ensures FileInv(DiskStep(d, PhaseC))
  {
    hide Lineage;
  }

  lemma ReopenCoherent(file: seq<Record>, now: nat)
    requires Positive(file)
    ensures Coherent(Reopen(file, now))
  {
    hide Replay;
    MaxRevBounds(file);
  }

  lemma RestartKeepsDiskInv(d: Disk, now: nat)
    requires DiskInv(d)
    ensures DiskInv(DiskStep(d, Restart(now)))
  {
    hide Replay, Lineage, Alike, Coherent, LeasesOwned;
    var cut := FileCut(d);
    CoherentParts(d.s);
    LineageRebuilds(d.file, cut, d.s.db.log, d.s.nextRev);
    ReopenCoherent(d.file, now);
    ReopenOwnsLeases(d.file, now);
    WholeLineage(d.file);
    AlikeSymmetric(Replay(d.file), d.s.db.mem);
    AlikeTransitive(Replay(d.history), d.s.db.mem, Replay(d.file));
  }

  lemma CoherentParts(s: State)
    requires Coherent(s)
    ensures Positive(s.db.log) && Below(s.db.log, s.nextRev) && s.db.mem == Replay(s.db.log) && s.nextRev > 0
  {}

  lemma FileCut(d: Disk) returns (cut: nat)
    requires FileInv(d)
    ensures Lineage(d.file, cut, d.s.db.log)
  {
    cut :| Lineage(d.file, cut, d.s.db.log);
  }

  lemma AlikeSymmetric(a: Mem, b: Mem)
    requires Alike(a, b)
    ensures Alike(b, a) && Alike(a, a)
  {
    forall k ensures (Live(b.keys, k) <==> Live(a.keys, k)) && (Live(b.keys, k) ==> SameData(b.keys[k], a.keys[k])) {
      assert Live(a.keys, k) <==> Live(b.keys, k);
    }
  }

  lemma NewDiskInv()
    ensures DiskInv(NEW_DISK)
  {
    AlikeSymmetric(EMPTY, EMPTY);
    WholeLineage([]);
    assert Lineage(NEW_DISK.file, 0, NEW_DISK.s.db.log);
  }

  predicate DiskRunning(actions: seq<DiskAction>) {
    forall a :: a in actions ==> a.Write? ==> !a.a.DoReopen?
  }

  /** The invariant holds in every state of every run, with any number of compactions, writes between
      their phases and restarts on whatever file there is. */
  lemma {:induction false} DiskRunKeepsInv(actions: seq<DiskAction>)
    requires DiskRunning(actions)
    ensures DiskInv(DiskRun(NEW_DISK, actions))
  {
    hide Rebuilds, FileInv, LeasesOwned, Coherent;
    if actions == [] {
      NewDiskInv();
    } else {
      var init, a := actions[..|actions| - 1], actions[|actions| - 1];
      assert a in actions && forall b :: b in init ==> b in actions;
      DiskRunKeepsInv(init);
      var d := DiskRun(NEW_DISK, init);
      CoherentMem(d.s);
      match a
      case Write(w) => WriteKeepsDiskInv(d, w);
      case PhaseA => PhaseAKeepsFileInv(d);
      case PhaseC => PhaseCKeepsFileInv(d);
      case Restart(now) => RestartKeepsDiskInv(d, now);
    }
  }

  lemma CoherentMem(s: State)
    requires Coherent(s)
    ensures s.db.mem == Replay(s.db.log)
  {}

  /** Compaction under concurrent writers: in every state of every run, restarts included, replaying
      the file gives the live keys with their value, lease and `mod_revision` and the live-key count;
      so would the file a pending compaction is about to make, and so does replaying every record
      ever written: compaction and restarts lose no write. */
  lemma CompactionPreservesData(actions: seq<DiskAction>)
    requires DiskRunning(actions)
    ensures var d := DiskRun(NEW_DISK, actions);
            Rebuilds(d.file, d.s.db.mem) && Rebuilds(d.history, d.s.db.mem)
            && (d.pending.Some? ==>
                  d.pending.value.base <= |d.file|
                  && Rebuilds(d.pending.value.snapshot + d.file[d.pending.value.base..], d.s.db.mem))
  {
    hide Rebuilds, Lineage;
    DiskRunKeepsInv(actions);
    var d := DiskRun(NEW_DISK, actions);
    var cut := FileCut(d);
    LineageRebuilds(d.file, cut, d.s.db.log, d.s.nextRev);
    if d.pending.Some? {
      var p := d.pending.value;
      var cut' :| Lineage(p.snapshot + d.file[p.base..], cut', d.s.db.log);
      LineageRebuilds(p.snapshot + d.file[p.base..], cut', d.s.db.log, d.s.nextRev);
    }
  }

  /** Lease ownership in every state of every run, restarts on compacted files included. */
  lemma LeaseOwnership(actions: seq<DiskAction>)
    requires DiskRunning(actions)
    ensures LeasesOwned(KeysOf(DiskRun(NEW_DISK, actions).s), DiskRun(NEW_DISK, actions).s.leases)
  {
    DiskRunKeepsInv(actions);
  }

  /** The live-key count in every state of every run. */
  lemma CountInEveryRun(actions: seq<DiskAction>)
    requires DiskRunning(actions)
    ensures var m := DiskRun(NEW_DISK, actions).s.db.mem; m.keyCount == |LiveKeys(m.keys)|
  {
    DiskRunKeepsInv(actions);
    ReplayPositive(DiskRun(NEW_DISK, actions).s.db.log);
  }

  /** And the bytes of that file, torn write included, start a store with that data. */
  lemma ReopenAfterCompaction(actions: seq<DiskAction>, torn: Blob)
    requires DiskRunning(actions) && (torn == [] || TornWrite(torn))
    requires forall r :: r in DiskRun(NEW_DISK, actions).file ==> Fits(r)
    ensures var d := DiskRun(NEW_DISK, actions);
            var scanned := Scan(SerializeAll(d.file) + torn);
            !scanned.failed && Alike(ReplayWal(scanned.records).mem, d.s.db.mem)
  {
    hide Alike, Replay, Fits;
    CompactionPreservesData(actions);
    RecoverFile(DiskRun(NEW_DISK, actions).file, torn);
  }

  // ---------------------------------------------------------------------- blobs

  predicate NoRestart(actions: seq<DiskAction>) {
    forall a :: a in actions ==> !a.Restart? && (a.Write? ==> Sized(a.a) && !a.a.DoReopen?)
  }

  lemma {:induction false} InvUntilRestart(actions: seq<DiskAction>)
    requires NoRestart(actions)
    ensures Inv(DiskRun(NEW_DISK, actions).s)
  {
    hide Inv;
    if actions == [] {
      RunKeepsInv([]);
    } else {
      var init, a := actions[..|actions| - 1], actions[|actions| - 1];
      assert a in actions && forall b :: b in init ==> b in actions;
      InvUntilRestart(init);
      if a.Write? { StepKeepsInv(DiskRun(NEW_DISK, init).s, a.a); }
    }
  }

  lemma StepKeepsInv(s: State, a: Action)
    requires Inv(s) && Sized(a) && !a.DoReopen?
    ensures Inv(Step(s, a))
  {
    StepIsGood(s, a);
  }

  /** Until a restart the blobs survive any number of compactions, with writes between their phases. */
  lemma CompactionPreservesBlobs(actions: seq<DiskAction>)
    requires NoRestart(actions)
    ensures var d := DiskRun(NEW_DISK, actions);
            Similar(Replay(d.file), d.s.db.mem)
            && (d.pending.Some? ==>
                  d.pending.value.base <= |d.file|
                  && Similar(Replay(d.pending.value.snapshot + d.file[d.pending.value.base..]), d.s.db.mem))
  {
    hide Similar, Replay, Lineage, WfLog;
    DiskRunKeepsInv(actions);
    InvUntilRestart(actions);
    var d := DiskRun(NEW_DISK, actions);
    var cut := FileCut(d);
    LineageKeepsBlobs(d.file, cut, d.s.db.log);
    if d.pending.Some? {
      var p := d.pending.value;
      var cut' :| Lineage(p.snapshot + d.file[p.base..], cut', d.s.db.log);
      LineageKeepsBlobs(p.snapshot + d.file[p.base..], cut', d.s.db.log);
    }
  }

  /** A compaction with nothing written between its phases, then a restart on the new file. */
  function CompactAndRestart(d: Disk, now: nat): Disk {
    DiskStep(DiskStep(DiskStep(d, PhaseA), PhaseC), Restart(now))
  }

  lemma CompactedFile(d: Disk, now: nat)
    requires d.pending.None?
    ensures var d' := CompactAndRestart(d, now);
            d'.file == SnapshotLog(KeysOf(d.s)) && d'.pending.None? && d'.s == Reopen(SnapshotLog(KeysOf(d.s)), now)
  {
    var snapshot := SnapshotLog(KeysOf(d.s));
    assert snapshot + d.file[|d.file|..] == snapshot;
  }

  /** In every state of every run, restarts included, compacting and restarting keeps a live key's
      blob if and only if the blob is current. */
  lemma CompactionBlobIsExact(d: Disk, now: nat, k: Blob)
    requires DiskInv(d) && d.pending.None? && Live(KeysOf(d.s), k)
    requires (forall r :: r in d.s.db.log ==> Representable(KvOf(r))) && Representable(StateKv(k, KeysOf(d.s)[k]))
    ensures k in KeysOf(CompactAndRestart(d, now).s)
    ensures KeysOf(CompactAndRestart(d, now).s)[k].kvBytes == KeysOf(d.s)[k].kvBytes <==> BlobCurrent(k, KeysOf(d.s)[k])
  {
    hide Replay, Shaped, BlobCurrent, Representable, CompactAndRestart, SnapshotLog, FileInv;
    CompactedFile(d, now);
    ReplayPositive(d.s.db.log);
    ReplayShaped(d.s.db.log);
    SnapshotBlobIsExact(d.s.db.mem, k);
  }

  /** Twice: the first compaction keeps every blob of a store with the invariant, and the second,
      after a restart on the first one's file, keeps it if and only if the key had been written once
      in its life. */
  lemma SecondCompactionIsExact(d: Disk, now: nat, later: nat, k: Blob)
    requires Inv(d.s) && d.pending.None? && Live(KeysOf(d.s), k) && Representable(StateKv(k, KeysOf(d.s)[k]))
    ensures var once := CompactAndRestart(d, now);
            var twice := CompactAndRestart(once, later);
            k in KeysOf(once.s) && k in KeysOf(twice.s) && KeysOf(once.s)[k].kvBytes == KeysOf(d.s)[k].kvBytes
            && (KeysOf(twice.s)[k].kvBytes == KeysOf(d.s)[k].kvBytes
                <==> KeysOf(d.s)[k].version == 1 && KeysOf(d.s)[k].createRev == KeysOf(d.s)[k].modRev)
  {
    hide Replay, Shaped, BlobCurrent, Representable, CompactAndRestart, SnapshotLog, StateBytes;
    WfPositive(d.s.db.log);
    var once, ks := CompactAndRestart(d, now), KeysOf(d.s)[k];
    CompactedFile(d, now);
    CompactedFile(once, later);
    RecordedMem(d.s.db, d.s.nextRev - 1);
    assert EntryOk(k, ks);
    ReplaySnapshot(d.s.db.mem);
    var m := Replay(SnapshotLog(KeysOf(d.s)));
    assert Entry(m.keys, k) == Some(Restored(k, ks));
    SnapshotPositive(d.s.db.log);
    ReplayPositive(SnapshotLog(KeysOf(d.s)));
    RestoredBlobIsCurrent(k, ks);
    SnapshotBlobIsExact(m, k);
  }

  /** Put a key twice, compact, restart and compact again: the key is still there, but its blob now
      says it was created by the second put, at version 1. */
  lemma BlobChangesUnderSecondCompaction(key: Blob, value: Blob, now: nat, later: nat)
    requires 0 < |key| < TWO32 && |value| < TWO32
    ensures var put := Write(DoPut(PutReq(key, value, 0, false, false, false)));
            var d := DiskRun(NEW_DISK, [put, put]);
            var twice := CompactAndRestart(CompactAndRestart(d, now), later);
            Live(KeysOf(d.s), key) && key in KeysOf(twice.s) && KeysOf(twice.s)[key].kvBytes != KeysOf(d.s)[key].kvBytes
  {
    hide StateBytes, Inv, CompactAndRestart, KvBytes;
    var req := PutReq(key, value, 0, false, false, false);
    var put := Write(DoPut(req));
    var d := DiskRun(NEW_DISK, [put, put]);
    InvUntilRestart([put, put]);
    TwoPuts(req);
    SecondCompactionIsExact(d, now, later, key);
  }

  lemma TwoPuts(req: PutReq)
    requires 0 < |req.key| < TWO32 && |req.value| < TWO32 && req.lease == 0 && !req.ignoreValue && !req.ignoreLease
    ensures var d := DiskRun(NEW_DISK, [Write(DoPut(req)), Write(DoPut(req))]);
            d.pending.None? && d.s.nextRev == 3 && KeysOf(d.s).Keys == {req.key} && Live(KeysOf(d.s), req.key)
            && Representable(StateKv(req.key, KeysOf(d.s)[req.key]))
            && var ks := KeysOf(d.s)[req.key];
               ks.value == req.value && ks.createRev == 1 && ks.modRev == 2 && ks.version == 2 && ks.lease == 0
  {
    hide StateBytes, KvBytes;
    var put := Write(DoPut(req));
    assert [put, put][..1] == [put] && [put][..0] == [];
    var d1 := DiskStep(NEW_DISK, put);
    assert DiskRun(NEW_DISK, [put]) == d1;
    var ks := KeysOf(d1.s)[req.key];
    assert Alive(ks) && ks.version == 1 && ks.createRev == 1 && d1.s.nextRev == 2 && d1.s.leases == map[];
    assert DiskRun(NEW_DISK, [put, put]) == DiskStep(d1, put);
  }

  // ---------------------------------------------------------------------- clock

  /** A compacted file may forget the clock: a store reopened on a fresh snapshot continues at the
      live revision if and only if some live key was written at the current revision. */
  lemma SnapshotClockAgreement(s: State, now: nat)
    requires Inv(s)
    ensures Reopen(SnapshotLog(KeysOf(s)), now).nextRev == s.nextRev
            <==> CurrentRevision(s) == 0 || exists k :: Live(KeysOf(s), k) && KeysOf(s)[k].modRev == CurrentRevision(s)
  {
    hide KvBytes, Replay, WfLog, SnapshotOf;
    var keys, recs := KeysOf(s), SnapshotLog(KeysOf(s));
    RecordedMem(s.db, s.nextRev - 1);
    MaxRevBounds(recs);
    forall r | r in recs ensures exists k :: Live(keys, k) && keys[k].modRev == r.modRev && r.modRev <= CurrentRevision(s) {
      var k := SnapshotSource(keys, r);
      assert LastRev(keys[k]) <= s.nextRev - 1;
    }
    if k :| Live(keys, k) && keys[k].modRev == CurrentRevision(s) {
      var r := SnapshotHas(keys, k);
      assert r.modRev <= MaxRev(recs);
    }
  }

  lemma SnapshotSource(keys: Keys, r: Record) returns (k: Blob)
    requires r in SnapshotLog(keys)
    ensures Live(keys, k) && keys[k].modRev == r.modRev
  {
    var ks, recs := InOrder(LiveKeys(keys)), SnapshotLog(keys);
    var i :| 0 <= i < |recs| && recs[i] == r;
    k := ks[i];
    assert k in ks;
  }

  lemma SnapshotHas(keys: Keys, k: Blob) returns (r: Record)
    requires Live(keys, k)
    ensures r in SnapshotLog(keys) && r.modRev == keys[k].modRev
  {
    var ks, recs := InOrder(LiveKeys(keys)), SnapshotLog(keys);
    assert k in ks;
    var i :| 0 <= i < |ks| && ks[i] == k;
    r := recs[i];
  }
}
