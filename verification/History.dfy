/** The store at a past revision, read from the log alone, and what the current entry of a key
    says about it. */
module History {
  import opened Bytes
  import opened Wal
  import opened KeyMap

  type Blobs = map<Blob, Blob>

  /** Key to blob at revision `t`: the fold of the records at or below it. */
  function Snapshot(log: seq<Record>, t: nat): Blobs {
    if log == [] then map[]
    else
      var before, r := Snapshot(log[..|log| - 1], t), log[|log| - 1];
      if r.modRev > t then before
      else if Deleted(r) then before - {r.key}
      else before[r.key := KvBytes(r)]
  }

  /** History does not change: records above `t` leave the snapshot at `t` as it was. */
  lemma {:induction false} SnapshotStable(log: seq<Record>, later: seq<Record>, t: nat)
    requires forall r :: r in later ==> r.modRev > t
    ensures Snapshot(log + later, t) == Snapshot(log, t)
  {
    if later == [] {
      assert log + later == log;
    } else {
      var init := later[..|later| - 1];
      assert later[|later| - 1] in later && forall r :: r in init ==> r in later;
      SnapshotStable(log, init, t);
      assert (log + later)[..|log + later| - 1] == log + init;
    }
  }

  /** How often `k` came into being: puts that found it absent or deleted. */
  function Births(log: seq<Record>, k: Blob): nat {
    if log == [] then 0
    else
      var init, r := log[..|log| - 1], log[|log| - 1];
      Births(init, k) + if r.key == k && !Deleted(r) && PutsSinceDelete(init, k) == 0 then 1 else 0
  }

  /** What the current entry `e` of `k` tells about the snapshot at `t`. */
  ghost predicate EntryTells(e: Option<KeyState>, births: nat, s: Blobs, t: nat, k: Blob) {
    if e.None? then births == 0 && k !in s
    else
      var ks := e.value;
      births > 0
      && (Alive(ks) && ks.modRev <= t ==> k in s && s[k] == ks.kvBytes)
      && (!Alive(ks) && ks.deleteRev <= t ==> k !in s)
      && (!Alive(ks) && ks.modRev <= t < ks.deleteRev ==> k in s && s[k] == ks.kvBytes)
      && (ks.createRev <= t && (Alive(ks) || t < ks.deleteRev) ==> k in s)
      && (ks.createRev > t && births == 1 ==> k !in s)
  }

  lemma {:induction false} EntryTellsHistory(log: seq<Record>, t: nat, k: Blob)
    requires WfLog(log)
    ensures EntryTells(Entry(Replay(log).keys, k), Births(log, k), Snapshot(log, t), t, k)
  {
    if log != [] {
      var init, r := log[..|log| - 1], log[|log| - 1];
      EntryTellsHistory(init, t, k);
      WfLogMem(init);
      WfPositive(init);
      VersionCountsPuts(init, k);
      EntryTellsStep(Replay(init), Births(init, k), PutsSinceDelete(init, k), Snapshot(init, t), t, k, r);
    }
  }

  lemma {:induction false} WfPositive(log: seq<Record>)
    requires WfLog(log)
    ensures forall r :: r in log ==> r.modRev > 0
  {
    if log != [] {
      WfPositive(log[..|log| - 1]);
      assert log == log[..|log| - 1] + [log[|log| - 1]];
    }
  }

  lemma EntryTellsStep(m: Mem, births: nat, puts: nat, s: Blobs, t: nat, k: Blob, r: Record)
    requires EntryTells(Entry(m.keys, k), births, s, t, k) && KeysOk(m.keys)
    requires Logged(m.keys, r) && r.modRev > 0
    requires Live(m.keys, k) <==> puts > 0
    requires k in m.keys ==> LastRev(m.keys[k]) <= r.modRev
    ensures var births' := births + if r.key == k && !Deleted(r) && puts == 0 then 1 else 0;
            var s' := if r.modRev > t then s else if Deleted(r) then s - {r.key} else s[r.key := KvBytes(r)];
            EntryTells(Entry(ApplyRecord(m, r).keys, k), births', s', t, k)
  {
    if r.key == k && k in m.keys { assert EntryOk(k, m.keys[k]); }
  }

  /** At or after the last logged revision, the snapshot is the live part of the map. */
  lemma SnapshotNow(log: seq<Record>, t: nat, k: Blob)
    requires WfLog(log) && MaxRev(log) <= t
    ensures k in Snapshot(log, t) <==> Live(Replay(log).keys, k)
    ensures k in Snapshot(log, t) ==> Snapshot(log, t)[k] == Replay(log).keys[k].kvBytes
  {
    WfLogMem(log);
    EntryTellsHistory(log, t, k);
  }

  // -------------------------------------------------------------- entries at a revision

  /** The whole state at revision `t`, entries with their revisions and versions. */
  function StateAt(log: seq<Record>, t: nat): Mem {
    if log == [] then EMPTY
    else
      var before, r := StateAt(log[..|log| - 1], t), log[|log| - 1];
      if r.modRev > t then before else ApplyRecord(before, r)
  }

  /** The snapshot is the live part of that state. */
  lemma {:induction false} SnapshotIsLivePart(log: seq<Record>, t: nat, k: Blob)
    requires Positive(log)
    ensures k in Snapshot(log, t) <==> Live(StateAt(log, t).keys, k)
    ensures k in Snapshot(log, t) ==> Snapshot(log, t)[k] == StateAt(log, t).keys[k].kvBytes
  {
    hide KvBytes;
    if log != [] {
      var n := |log| - 1;
      assert log[n] in log && forall r :: r in log[..n] ==> r in log;
      SnapshotIsLivePart(log[..n], t, k);
    }
  }

  /** An entry that did not change after `t` was the same at `t`; one deleted after `t` was alive. */
  lemma {:induction false} EntryAt(log: seq<Record>, t: nat, k: Blob)
    requires WfLog(log)
    ensures k !in Replay(log).keys ==> k !in StateAt(log, t).keys
    ensures k in Replay(log).keys && LastRev(Replay(log).keys[k]) <= t ==> Entry(StateAt(log, t).keys, k) == Some(Replay(log).keys[k])
    ensures k in Replay(log).keys && !Alive(Replay(log).keys[k]) && Replay(log).keys[k].modRev <= t < Replay(log).keys[k].deleteRev
            ==> Entry(StateAt(log, t).keys, k) == Some(Replay(log).keys[k].(deleteRev := 0))
  {
    hide KvBytes, StateBytes;
    if log != [] {
      var init, r := log[..|log| - 1], log[|log| - 1];
      EntryAt(init, t, k);
      WfLogMem(init);
      if k in Replay(init).keys { assert LastRev(Replay(init).keys[k]) <= MaxRev(init); }
    }
  }

  /** At or after the last logged revision nothing is left out. */
  lemma {:induction false} StateNow(log: seq<Record>, t: nat)
    requires MaxRev(log) <= t
    ensures StateAt(log, t) == Replay(log)
  {
    if log != [] { StateNow(log[..|log| - 1], t); }
  }

  lemma {:induction false} StateStable(log: seq<Record>, later: seq<Record>, t: nat)
    requires forall r :: r in later ==> r.modRev > t
    ensures StateAt(log + later, t) == StateAt(log, t)
  {
    if later == [] {
      assert log + later == log;
    } else {
      var init := later[..|later| - 1];
      assert later[|later| - 1] in later && forall r :: r in init ==> r in later;
      StateStable(log, init, t);
      assert (log + later)[..|log + later| - 1] == log + init;
    }
  }
}
