/** What every operation does in any state at all, one restored from a compacted file included: it
    appends records, the map afterwards is their replay, and each watcher is sent an event for each. */
module Sends {
  import opened Bytes
  import opened Wal
  import opened Ranges
  import opened KeyMap
  import opened StoreSpec
  import opened Commits
  import opened TxnSpec

  // ------------------------------------------------------------ what is sent live

  /** The event sent when `r` is logged in state `keys`: a delete patches the blob it finds. */
  function SentEvent(keys: Keys, r: Record): Event {
    if Deleted(r) && Live(keys, r.key) then DeleteEvent(keys, r.key, r.modRev) else RecordEvent(keys, r)
  }

  /** Append a record, replay it, and send its event. */
  function Send(d: Db, r: Record): Db {
    Db(ApplyRecord(d.mem, r), NotifyAll(d.watchers, SentEvent(d.mem.keys, r)), d.log + [r])
  }

  function SendAll(d: Db, recs: seq<Record>): Db {
    if recs == [] then d else Send(SendAll(d, recs[..|recs| - 1]), recs[|recs| - 1])
  }

  /** A delete is logged of a live key, with the fields of its entry. */
  ghost predicate IssuedAt(keys: Keys, r: Record) {
    Deleted(r) ==> Live(keys, r.key) && r == DeleteRecord(keys, r.key, r.modRev)
  }

  ghost predicate Issued(m: Mem, recs: seq<Record>) {
    recs == [] || (Issued(m, recs[..|recs| - 1]) && IssuedAt(ReplayFrom(m, recs[..|recs| - 1]).keys, recs[|recs| - 1]))
  }

  lemma {:induction false} SendAllConcat(d: Db, a: seq<Record>, b: seq<Record>)
    ensures SendAll(d, a + b) == SendAll(SendAll(d, a), b)
  {
    hide Send;
    if b == [] {
      assert a + b == a;
    } else {
      SendAllConcat(d, a, b[..|b| - 1]);
      assert (a + b)[..|a + b| - 1] == a + b[..|b| - 1];
    }
  }

  lemma {:induction false} SendAllParts(d: Db, recs: seq<Record>)
    ensures SendAll(d, recs).log == d.log + recs && SendAll(d, recs).mem == ReplayFrom(d.mem, recs)
  {
    hide SentEvent, NotifyAll, ApplyRecord;
    if recs == [] {
      assert d.log + recs == d.log;
    } else {
      SendAllParts(d, recs[..|recs| - 1]);
      assert recs == recs[..|recs| - 1] + [recs[|recs| - 1]];
    }
  }

  lemma {:induction false} IssuedConcat(m: Mem, a: seq<Record>, b: seq<Record>)
    requires Issued(m, a) && Issued(ReplayFrom(m, a), b)
    ensures Issued(m, a + b)
  {
    hide ReplayFrom, IssuedAt;
    if b == [] {
      assert a + b == a;
    } else {
      var b' := b[..|b| - 1];
      IssuedConcat(m, a, b');
      ReplayConcat(m, a, b');
      assert (a + b)[..|a + b| - 1] == a + b';
    }
  }

  /** Records were issued at revisions from `lo` up to `hi`, and that is all that happened. */
  ghost predicate Appends(d: Db, d': Db, lo: nat, hi: nat) {
    d.log <= d'.log && d' == SendAll(d, d'.log[|d.log|..]) && Issued(d.mem, d'.log[|d.log|..])
    && forall r :: r in d'.log[|d.log|..] ==> lo <= r.modRev < hi
  }

  lemma AppendsNothing(d: Db, lo: nat, hi: nat)
    ensures Appends(d, d, lo, hi)
  {}

  lemma SendAllAppends(d: Db, recs: seq<Record>, lo: nat, hi: nat)
    requires Issued(d.mem, recs) && forall r :: r in recs ==> lo <= r.modRev < hi
    ensures Appends(d, SendAll(d, recs), lo, hi)
  {
    hide SendAll, Issued;
    SendAllParts(d, recs);
    assert (d.log + recs)[|d.log|..] == recs;
  }

  lemma AppendsThen(d: Db, d1: Db, d2: Db, lo: nat, mid: nat, hi: nat, hi': nat)
    requires Appends(d, d1, lo, hi) && Appends(d1, d2, mid, hi') && lo <= mid && hi <= hi'
    ensures Appends(d, d2, lo, hi')
  {
    hide SendAll, Issued, ReplayFrom;
    var a, b := d1.log[|d.log|..], d2.log[|d1.log|..];
    assert d2.log[|d.log|..] == a + b;
    SendAllConcat(d, a, b);
    SendAllParts(d, a);
    IssuedConcat(d.mem, a, b);
  }

  lemma SendOne(d: Db, r: Record)
    ensures SendAll(d, [r]) == Send(d, r)
    ensures IssuedAt(d.mem.keys, r) ==> Issued(d.mem, [r])
  {
    hide Send, IssuedAt;
    assert [r][..0] == [];
  }

  lemma PutAppends(s: State, req: PutReq, rev: nat)
    ensures Appends(s.db, PutAt(s, req, rev).state.db, rev, rev + 1)
    ensures PutAt(s, req, rev).state == s.(db := PutAt(s, req, rev).state.db)
  {
    hide KvBytes, Appends, SendAll, Issued, ApplyLive;
    if PutAt(s, req, rev).result.Ok? {
      var value, lease := PutValue(KeysOf(s), req), PutLease(KeysOf(s), req);
      var r := PutRecord(KeysOf(s), req.key, value, lease, rev);
      PutIsCommit(s.db, req.key, value, lease, rev);
      LoggedRecords(KeysOf(s), req.key, value, lease, rev);
      SendOne(s.db, r);
      SendAllAppends(s.db, [r], rev, rev + 1);
    } else {
      AppendsNothing(s.db, rev, rev + 1);
    }
  }

  lemma DeleteIsSend(d: Db, keys: Keys, k: Blob, rev: nat)
    requires Live(keys, k) && Entry(d.mem.keys, k) == Entry(keys, k)
    ensures DeleteLive(d, k, rev).mem == Send(d, DeleteRecord(keys, k, rev)).mem
    ensures DeleteLive(d, k, rev).watchers == Send(d, DeleteRecord(keys, k, rev)).watchers && DeleteLive(d, k, rev).log == d.log
    ensures IssuedAt(d.mem.keys, DeleteRecord(keys, k, rev))
  {
    LoggedRecords(keys, k, [], 0, rev);
  }

  /** Deletes of different live keys, applied one by one. */
  lemma {:induction false} DeletesAreSent(d: Db, all: seq<Record>, ks: seq<Blob>, rev: nat)
    requires Distinct(ks) && forall k :: k in ks ==> Live(d.mem.keys, k)
    ensures var recs := DeleteRecords(d.mem.keys, ks, rev);
            DeleteEach(d.(log := all), ks, rev) == SendAll(d, recs).(log := all) && Issued(d.mem, recs)
  {
    hide ApplyRecord, DeleteLive, DeleteRecord, NotifyAll, SentEvent, Send, IssuedAt;
    if ks != [] {
      var n := |ks| - 1;
      var init, k, recs := ks[..n], ks[n], DeleteRecords(d.mem.keys, ks, rev);
      DeletesAreSent(d, all, init, rev);
      assert recs[..n] == DeleteRecords(d.mem.keys, init, rev);
      assert k in ks && k !in init;
      DeleteEachFrame(d.(log := all), init, rev, k);
      SendAllParts(d, recs[..n]);
      var d1 := SendAll(d, recs[..n]);
      SameMemSameDelete(d1, all, k, rev);
      DeleteIsSend(d1, d.mem.keys, k, rev);
    }
  }

  lemma SameMemSameDelete(d: Db, all: seq<Record>, k: Blob, rev: nat)
    ensures DeleteLive(d.(log := all), k, rev) == DeleteLive(d, k, rev).(log := all)
  {}

  lemma BatchAppends(d: Db, ks: seq<Blob>, rev: nat)
    requires Distinct(ks) && forall k :: k in ks ==> Live(d.mem.keys, k)
    ensures Appends(d, DeleteBatch(d, ks, rev), rev, rev + 1)
  {
    hide SendAll, Issued, DeleteEach, Appends;
    var recs := DeleteRecords(d.mem.keys, ks, rev);
    DeletesAreSent(d, d.log + recs, ks, rev);
    SendAllParts(d, recs);
    SendAllAppends(d, recs, rev, rev + 1);
  }

  /** The clock stands just past the transaction's revision, once it has one. */
  predicate Clocked(p: Progress) { p.rev.Some? ==> p.state.nextRev == p.rev.value + 1 }

  /** What operations of a transaction do: append at its one revision. */
  ghost predicate OpAppends(p: Progress, q: Progress) {
    Clocked(q) && RevOf(q) == RevOf(p) && (p.rev.Some? ==> q.rev.Some?) && p.state.nextRev <= q.state.nextRev
    && Appends(p.state.db, q.state.db, RevOf(p), RevOf(p) + 1) && (q.rev.None? ==> q.state == p.state)
    && q.state == p.state.(db := q.state.db, nextRev := q.state.nextRev)
  }

  lemma {:induction false} ApplyOpAppends(p: Progress, op: Op, depth: nat)
    requires Clocked(p)
    ensures OpAppends(p, ApplyOp(p, op, depth))
    decreases op
  {
    hide Appends, PutAt, DeleteRangeAt;
    var q, rev := EnsureRev(p), RevOf(p);
    AppendsNothing(p.state.db, rev, rev + 1);
    match op
    case PutOp(req) => PutAppends(q.state, req, rev);
    case DeleteOp(req) => DeleteRangeAppends(q.state, req, rev);
    case TxnOp(t) => if depth < 1 { ApplyOpsAppends(p, Branch(KeysOf(p.state), t), depth + 1); }
    case _ =>
  }

  lemma DeleteRangeAppends(s: State, req: DeleteReq, rev: nat)
    ensures Appends(s.db, DeleteRangeAt(s, req, rev).state.db, rev, rev + 1)
    ensures DeleteRangeAt(s, req, rev).state == s.(db := DeleteRangeAt(s, req, rev).state.db)
  {
    SortedDistinct(LiveMatching(KeysOf(s), ResolveRange(req.key, req.rangeEnd)));
    BatchAppends(s.db, KeysToDelete(KeysOf(s), ResolveRange(req.key, req.rangeEnd)), rev);
  }

  lemma {:induction false} ApplyOpsAppends(p: Progress, ops: seq<Op>, depth: nat)
    requires Clocked(p)
    ensures OpAppends(p, ApplyOps(p, ops, depth))
    decreases ops, 0
  {
    hide Appends, ApplyOp;
    var rev := RevOf(p);
    if ops == [] {
      AppendsNothing(p.state.db, rev, rev + 1);
    } else {
      var q := ApplyOps(p, ops[..|ops| - 1], depth);
      ApplyOpsAppends(p, ops[..|ops| - 1], depth);
      if q.error.None? {
        ApplyOpAppends(q, ops[|ops| - 1], depth);
        AppendsThen(p.state.db, q.state.db, ApplyOps(p, ops, depth).state.db, rev, rev, rev + 1, rev + 1);
      }
    }
  }

  /** A step's records carry revisions from the clock before it up to the clock after it. */
  ghost predicate StepAppends(s: State, s': State) {
    s.nextRev <= s'.nextRev && Appends(s.db, s'.db, s.nextRev, s'.nextRev)
  }

  lemma DropLeaseAppends(s: State, id: int)
    ensures StepAppends(s, DropLease(s, id))
  {
    var ks := LeaseKeys(KeysOf(s), id);
    SortedDistinct(set k | k in KeysOf(s) && KeysOf(s)[k].lease == id && Alive(KeysOf(s)[k]));
    if ks == [] {
      AppendsNothing(s.db, s.nextRev, s.nextRev);
    } else {
      BatchAppends(s.db, ks, s.nextRev);
    }
  }

  lemma StepAppendsMem(s: State, s': State)
    requires StepAppends(s, s') && s.nextRev > 0
    ensures var recs := s'.db.log[|s.db.log|..];
            s'.db.log == s.db.log + recs && Positive(recs) && s'.db.mem == ReplayFrom(s.db.mem, recs)
            && forall r :: r in recs ==> s.nextRev <= r.modRev < s'.nextRev
  {
    hide SendAll, Issued, ReplayFrom;
    SendAllParts(s.db, s'.db.log[|s.db.log|..]);
  }

  lemma {:induction false} DropEachAppends(s: State, ids: seq<int>)
    ensures StepAppends(s, DropEach(s, ids))
  {
    hide Appends, DropLease;
    if ids == [] {
      AppendsNothing(s.db, s.nextRev, s.nextRev);
    } else {
      var s1, s2 := DropEach(s, ids[..|ids| - 1]), DropEach(s, ids);
      DropEachAppends(s, ids[..|ids| - 1]);
      DropLeaseAppends(s1, ids[|ids| - 1]);
      AppendsThen(s.db, s1.db, s2.db, s.nextRev, s1.nextRev, s1.nextRev, s2.nextRev);
    }
  }

  // ------------------------------------------------------------- coherent states

  ghost predicate Below(recs: seq<Record>, hi: nat) { forall r :: r in recs ==> r.modRev < hi }

  /** The map is the replay of the log, whose revisions lie between 0 and the clock. Every state a
      store can be in satisfies this, restarted on a compacted file or not. */
  ghost predicate Coherent(s: State) {
    s.nextRev > 0 && Positive(s.db.log) && Below(s.db.log, s.nextRev) && s.db.mem == Replay(s.db.log)
  }

  lemma PositiveConcat(a: seq<Record>, b: seq<Record>)
    ensures Positive(a + b) <==> Positive(a) && Positive(b)
  {
    if Positive(a + b) {
      assert forall r :: r in a ==> r in a + b;
      assert forall r :: r in b ==> r in a + b;
    }
  }

  lemma CoherentStep(s: State, s': State)
    requires Coherent(s) && StepAppends(s, s')
    ensures Coherent(s')
  {
    hide ReplayFrom, SendAll, Issued;
    var recs := s'.db.log[|s.db.log|..];
    StepAppendsMem(s, s');
    PositiveConcat(s.db.log, recs);
    ReplayFromStart(s.db.log, recs);
  }

  lemma ReplayFromStart(log: seq<Record>, recs: seq<Record>)
    ensures Replay(log + recs) == ReplayFrom(Replay(log), recs)
  {
    ReplayConcat(EMPTY, log, recs);
  }
}
