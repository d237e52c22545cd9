/** Every run of the store: the invariant all operations keep, and what follows from it. */
module Runs {
  import opened Bytes
  import opened Varint
  import opened Wal
  import opened Ranges
  import opened KeyMap
  import opened StoreSpec
  import opened Commits
  import opened TxnSpec
  import opened Sends
  import opened Recovery
  import opened History

  datatype Action =
    | DoPut(put: PutReq)
    | DoDelete(del: DeleteReq)
    | DoTxn(txn: TxnReq)
    | DoCompact(rev: nat)
    | DoGrant(id: int, ttl: int, now: nat)
    | DoRevoke(id: int)
    | DoKeepAlive(id: int, now: nat)
    | DoExpire(now: nat)
    | DoReopen(now: nat)

  function Step(s: State, a: Action): State {
    match a
    case DoPut(req) => Put(s, req).state
    case DoDelete(req) => DeleteRange(s, req).state
    case DoTxn(t) => Txn(s, t).state
    case DoCompact(rev) => Compact(s, rev).state
    case DoGrant(id, ttl, now) => LeaseGrant(s, id, ttl, now).state
    case DoRevoke(id) => LeaseRevoke(s, id).state
    case DoKeepAlive(id, now) => LeaseKeepAlive(s, id, now).state
    case DoExpire(now) => Expire(s, now)
    case DoReopen(now) => Reopen(s.db.log, now)
  }

  function Run(s: State, actions: seq<Action>): State {
    if actions == [] then s else Step(Run(s, actions[..|actions| - 1]), actions[|actions| - 1])
  }

  /** Put keys fit their 32-bit length prefix. */
  predicate Sized(a: Action) {
    match a
    case DoPut(req) => |req.key| < TWO32
    case DoTxn(t) => SizedOps(t.success) && SizedOps(t.failure)
    case _ => true
  }

  ghost predicate AllSized(actions: seq<Action>) {
    forall a :: a in actions ==> Sized(a)
  }

  /** The store invariant. */
  ghost predicate Inv(s: State) {
    s.nextRev > 0 && s.compactRev < s.nextRev && Recorded(s.db, s.nextRev - 1)
    && LeasesOwned(KeysOf(s), s.leases)
  }

  // --------------------------------------------------------- steps and the log

  /** What a step may do to the data: commits at revisions from `s.nextRev` on, no clock going back. */
  ghost predicate Extends(d: Db, nextRev: nat, d': Db, nextRev': nat) {
    nextRev <= nextRev' && d.log <= d'.log && d' == CommitAll(d, d'.log[|d.log|..])
    && forall r :: r in d'.log[|d.log|..] ==> nextRev <= r.modRev < nextRev'
  }

  lemma ExtendsReflexive(d: Db, nextRev: nat, nextRev': nat)
    requires nextRev <= nextRev'
    ensures Extends(d, nextRev, d, nextRev')
  {}

  lemma ExtendsTransitive(d: Db, n: nat, d1: Db, n1: nat, d2: Db, n2: nat)
    requires Extends(d, n, d1, n1) && Extends(d1, n1, d2, n2)
    ensures Extends(d, n, d2, n2)
  {
    hide CommitAll;
    var a, b := d1.log[|d.log|..], d2.log[|d1.log|..];
    assert d2.log[|d.log|..] == a + b;
    CommitAllConcat(d, a, b);
  }

  lemma {:induction false} LegalRevs(d: Db, recs: seq<Record>, rev: nat)
    requires Legal(d, recs, rev)
    ensures forall r :: r in recs ==> r.modRev == rev
  {
    if recs != [] {
      LegalRevs(d, recs[..|recs| - 1], rev);
      assert recs == recs[..|recs| - 1] + [recs[|recs| - 1]];
    }
  }

  lemma BatchExtends(d: Db, d': Db, rev: nat)
    requires Batch(d, d', rev)
    ensures Extends(d, rev, d', rev + 1)
  {
    LegalRevs(d, d'.log[|d.log|..], rev);
  }

  lemma RecordedLater(d: Db, rev: nat, rev': nat)
    requires Recorded(d, rev) && rev <= rev'
    ensures Recorded(d, rev')
  {}

  // --------------------------------------------------------------- lease lemmas

  lemma {:induction false} DeleteEachKills(d: Db, ks: seq<Blob>, rev: nat, k: Blob)
    requires rev > 0
    ensures var keys := DeleteEach(d, ks, rev).mem.keys;
            if k in ks && Live(d.mem.keys, k) then Entry(keys, k) == Some(d.mem.keys[k].(deleteRev := rev))
            else Entry(keys, k) == Entry(d.mem.keys, k)
  {
    if ks != [] {
      DeleteEachKills(d, ks[..|ks| - 1], rev, k);
      assert k in ks <==> k in ks[..|ks| - 1] || k == ks[|ks| - 1];
    }
  }

  lemma DeletesKeepLeases(d: Db, ks: seq<Blob>, rev: nat, leases: map<int, Lease>)
    requires rev > 0 && LeasesOwned(d.mem.keys, leases)
    ensures LeasesOwned(DeleteEach(d, ks, rev).mem.keys, leases)
  {
    forall k ensures Live(DeleteEach(d, ks, rev).mem.keys, k) ==> LiveEntry(DeleteEach(d, ks, rev).mem.keys, k) == LiveEntry(d.mem.keys, k) {
      DeleteEachKills(d, ks, rev, k);
    }
  }

  lemma DeleteRangeKeepsLeases(s: State, req: DeleteReq, rev: nat)
    requires rev > 0 && LeasesOwned(KeysOf(s), s.leases)
    ensures var s' := DeleteRangeAt(s, req, rev).state; LeasesOwned(KeysOf(s'), s'.leases)
  {
    var ks := KeysToDelete(KeysOf(s), ResolveRange(req.key, req.rangeEnd));
    DeletesKeepLeases(s.db.(log := s.db.log + DeleteRecords(KeysOf(s), ks, rev)), ks, rev, s.leases);
  }

  lemma PutKeepsLeases(s: State, req: PutReq, rev: nat)
    requires LeasesOwned(KeysOf(s), s.leases)
    ensures var s' := PutAt(s, req, rev).state; LeasesOwned(KeysOf(s'), s'.leases)
  {}

  /** Dropping a lease deletes its live keys, all at the one new revision, and touches no other key. */
  lemma DropLeaseKeys(s: State, id: int, k: Blob)
    requires s.nextRev > 0
    ensures var keys := KeysOf(DropLease(s, id));
            if Live(KeysOf(s), k) && KeysOf(s)[k].lease == id
            then Entry(keys, k) == Some(KeysOf(s)[k].(deleteRev := s.nextRev))
            else Entry(keys, k) == Entry(KeysOf(s), k)
  {
    var ks := LeaseKeys(KeysOf(s), id);
    if ks != [] {
      DeleteEachKills(s.db.(log := s.db.log + DeleteRecords(KeysOf(s), ks, s.nextRev)), ks, s.nextRev, k);
    }
  }

  /** After a revoke or an expiry no live key is attached to the lease. */
  lemma DropLeaseLeavesNone(s: State, id: int)
    requires s.nextRev > 0
    ensures forall k :: Live(KeysOf(DropLease(s, id)), k) ==> KeysOf(DropLease(s, id))[k].lease != id
  {
    forall k | Live(KeysOf(DropLease(s, id)), k) ensures KeysOf(DropLease(s, id))[k].lease != id {
      DropLeaseKeys(s, id, k);
    }
  }

  lemma DropLeaseKeepsOwned(s: State, id: int)
    requires s.nextRev > 0 && LeasesOwned(KeysOf(s), s.leases)
    ensures var s' := DropLease(s, id); LeasesOwned(KeysOf(s'), s'.leases) && s'.leases == s.leases - {id}
  {
    var s' := DropLease(s, id);
    DropLeaseLeavesNone(s, id);
    forall k | Live(KeysOf(s'), k) && KeysOf(s')[k].lease != 0 ensures KeysOf(s')[k].lease in s'.leases {
      DropLeaseKeys(s, id, k);
    }
  }

  lemma {:induction false} OpKeepsLeases(p: Progress, op: Op, depth: nat)
    requires Clocked(p) && RevOf(p) > 0 && LeasesOwned(KeysOf(p.state), p.state.leases)
    ensures var q := ApplyOp(p, op, depth); LeasesOwned(KeysOf(q.state), q.state.leases)
    decreases op
  {
    match op
    case PutOp(req) => PutKeepsLeases(EnsureRev(p).state, req, RevOf(p));
    case DeleteOp(req) => DeleteRangeKeepsLeases(EnsureRev(p).state, req, RevOf(p));
    case TxnOp(t) => if depth < 1 { OpsKeepLeases(p, Branch(KeysOf(p.state), t), depth + 1); }
    case _ =>
  }

  lemma {:induction false} OpsKeepLeases(p: Progress, ops: seq<Op>, depth: nat)
    requires Clocked(p) && RevOf(p) > 0 && LeasesOwned(KeysOf(p.state), p.state.leases)
    ensures var q := ApplyOps(p, ops, depth); LeasesOwned(KeysOf(q.state), q.state.leases)
    decreases ops, 0
  {
    hide LeasesOwned, ApplyOp;
    if ops != [] {
      var init := ops[..|ops| - 1];
      OpsKeepLeases(p, init, depth);
      ApplyOpsAppends(p, init, depth);
      var q := ApplyOps(p, init, depth);
      if q.error.None? { OpKeepsLeases(q, ops[|ops| - 1], depth); }
    }
  }

  lemma {:induction false} DropEachKeepsLeases(s: State, ids: seq<int>)
    requires s.nextRev > 0 && LeasesOwned(KeysOf(s), s.leases)
    ensures var s' := DropEach(s, ids); LeasesOwned(KeysOf(s'), s'.leases)
  {
    hide LeasesOwned, DropLease;
    if ids != [] {
      DropEachKeepsLeases(s, ids[..|ids| - 1]);
      DropEachAppends(s, ids[..|ids| - 1]);
      DropLeaseKeepsOwned(DropEach(s, ids[..|ids| - 1]), ids[|ids| - 1]);
    }
  }

  // ---------------------------------------------------------------- in any state

  /** Every operation, in any state, appends the records whose replay is the new map. */
  lemma EveryStepAppends(s: State, a: Action)
    requires !a.DoReopen?
    ensures StepAppends(s, Step(s, a))
  {
    hide Appends, PutAt, DeleteRangeAt, ApplyOps, DropLease;
    AppendsNothing(s.db, s.nextRev, s.nextRev);
    var s1 := s.(nextRev := s.nextRev + 1);
    match a
    case DoPut(req) => PutAppends(s1, req, s.nextRev);
    case DoDelete(req) => DeleteRangeAppends(s1, req, s.nextRev);
    case DoTxn(t) => ApplyOpsAppends(Progress(s, None, None), Branch(KeysOf(s), t), 0);
    case DoRevoke(id) => DropLeaseAppends(s, id);
    case DoExpire(now) => DropEachAppends(s, IdsInOrder(Expired(s.leases, now)));
    case _ =>
  }

  /** Every operation, in any state, keeps the leases of live keys. */
  lemma EveryStepOwnsLeases(s: State, a: Action)
    requires !a.DoReopen? && s.nextRev > 0 && LeasesOwned(KeysOf(s), s.leases)
    ensures LeasesOwned(KeysOf(Step(s, a)), Step(s, a).leases)
  {
    hide PutAt, DeleteRangeAt, ApplyOps, DropLease;
    var s1 := s.(nextRev := s.nextRev + 1);
    match a
    case DoPut(req) => PutKeepsLeases(s1, req, s.nextRev);
    case DoDelete(req) => DeleteRangeKeepsLeases(s1, req, s.nextRev);
    case DoTxn(t) => OpsKeepLeases(Progress(s, None, None), Branch(KeysOf(s), t), 0);
    case DoRevoke(id) => DropLeaseKeepsOwned(s, id);
    case DoExpire(now) => DropEachKeepsLeases(s, IdsInOrder(Expired(s.leases, now)));
    case _ =>
  }

  // ------------------------------------------------------------------ each step

  /** What a step of a running process guarantees. */
  ghost predicate GoodStep(s: State, s': State) {
    Inv(s') && Extends(s.db, s.nextRev, s'.db, s'.nextRev) && s.compactRev <= s'.compactRev
  }

  lemma BatchIsGood(s: State, s': State)
    requires Inv(s) && Batch(s.db, s'.db, s.nextRev) && s'.nextRev == s.nextRev + 1
    requires s'.compactRev == s.compactRev && LeasesOwned(KeysOf(s'), s'.leases)
    ensures GoodStep(s, s')
  {
    RecordedLater(s.db, s.nextRev - 1, s.nextRev);
    BatchKeepsRecorded(s.db, s'.db, s.nextRev);
    BatchExtends(s.db, s'.db, s.nextRev);
  }

  lemma PutStep(s: State, req: PutReq)
    requires Inv(s) && |req.key| < TWO32
    ensures GoodStep(s, Put(s, req).state)
  {
    var s1 := s.(nextRev := s.nextRev + 1);
    if ValidatePut(s, req).None? {
      PutAtIsBatch(s1, req, s.nextRev);
      PutKeepsLeases(s1, req, s.nextRev);
      BatchIsGood(s, Put(s, req).state);
    } else {
      ExtendsReflexive(s.db, s.nextRev, s.nextRev);
    }
  }

  lemma DeleteStep(s: State, req: DeleteReq)
    requires Inv(s)
    ensures GoodStep(s, DeleteRange(s, req).state)
  {
    var s1 := s.(nextRev := s.nextRev + 1);
    if req.key != [] {
      RecordedMem(s.db, s.nextRev - 1);
      DeleteRangeAtIsBatch(s1, req, s.nextRev);
      DeleteRangeKeepsLeases(s1, req, s.nextRev);
      BatchIsGood(s, DeleteRange(s, req).state);
    } else {
      ExtendsReflexive(s.db, s.nextRev, s.nextRev);
    }
  }

  lemma TxnStep(s: State, t: TxnReq)
    requires Inv(s) && SizedOps(t.success) && SizedOps(t.failure)
    ensures GoodStep(s, Txn(s, t).state)
  {
    var p, ops := Progress(s, None, None), Branch(KeysOf(s), t);
    if CheckTxn(t).None? {
      ApplyOpsAdvances(p, ops, 0);
      OpsKeepLeases(p, ops, 0);
      if ApplyOps(p, ops, 0).rev.Some? { BatchIsGood(s, Txn(s, t).state); }
    }
    ExtendsReflexive(s.db, s.nextRev, s.nextRev);
  }

  lemma DropLeaseStep(s: State, id: int)
    requires Inv(s)
    ensures GoodStep(s, DropLease(s, id))
  {
    var s1 := s.(leases := s.leases - {id});
    RecordedMem(s.db, s.nextRev - 1);
    DeleteKeysForLeaseIsBatch(s1, id);
    DropLeaseKeepsOwned(s, id);
    if DropLease(s, id).nextRev > s.nextRev {
      BatchIsGood(s, DropLease(s, id));
    } else {
      ExtendsReflexive(s.db, s.nextRev, s.nextRev);
    }
  }

  lemma {:induction false} DropEachStep(s: State, ids: seq<int>)
    requires Inv(s)
    ensures GoodStep(s, DropEach(s, ids))
  {
    if ids == [] {
      ExtendsReflexive(s.db, s.nextRev, s.nextRev);
    } else {
      var s1 := DropEach(s, ids[..|ids| - 1]);
      DropEachStep(s, ids[..|ids| - 1]);
      DropLeaseStep(s1, ids[|ids| - 1]);
      ExtendsTransitive(s.db, s.nextRev, s1.db, s1.nextRev, DropEach(s, ids).db, DropEach(s, ids).nextRev);
    }
  }

  /** Only the compaction mark rises and leases are added, or nothing changes. */
  lemma QuietStep(s: State, s': State)
    requires Inv(s) && s'.db == s.db && s'.nextRev == s.nextRev && s.compactRev <= s'.compactRev < s.nextRev
    requires forall id :: id in s.leases ==> id in s'.leases
    ensures GoodStep(s, s')
  {
    ExtendsReflexive(s.db, s.nextRev, s.nextRev);
  }

  lemma CompactStep(s: State, rev: nat)
    requires Inv(s)
    ensures GoodStep(s, Compact(s, rev).state)
  {
    QuietStep(s, Compact(s, rev).state);
  }

  lemma GrantStep(s: State, id: int, ttl: int, now: nat)
    requires Inv(s)
    ensures GoodStep(s, LeaseGrant(s, id, ttl, now).state)
  {
    QuietStep(s, LeaseGrant(s, id, ttl, now).state);
  }

  lemma KeepAliveStep(s: State, id: int, now: nat)
    requires Inv(s)
    ensures GoodStep(s, LeaseKeepAlive(s, id, now).state)
  {
    QuietStep(s, LeaseKeepAlive(s, id, now).state);
  }

  lemma RevokeStep(s: State, id: int)
    requires Inv(s)
    ensures GoodStep(s, LeaseRevoke(s, id).state)
  {
    if id in s.leases { DropLeaseStep(s, id); } else { QuietStep(s, s); }
  }

  /** Every step of a running process keeps the invariant, only appends to the log at fresh
      revisions, and never lowers the compaction mark. */
  lemma StepIsGood(s: State, a: Action)
    requires Inv(s) && Sized(a) && !a.DoReopen?
    ensures GoodStep(s, Step(s, a))
  {
    hide Inv, GoodStep, ApplyOps, IdsInOrder, LiveMatching;
    match a
    case DoPut(req) => PutStep(s, req);
    case DoDelete(req) => DeleteStep(s, req);
    case DoTxn(t) => TxnStep(s, t);
    case DoRevoke(id) => RevokeStep(s, id);
    case DoExpire(now) => DropEachStep(s, IdsInOrder(Expired(s.leases, now)));
    case DoCompact(rev) => CompactStep(s, rev);
    case DoGrant(id, ttl, now) => GrantStep(s, id, ttl, now);
    case DoKeepAlive(id, now) => KeepAliveStep(s, id, now);
  }

  /** Restarting rebuilds the same key map and count, keeps the log, and stays in the invariant. */
  lemma ReopenStep(s: State, now: nat)
    requires Inv(s)
    ensures var s' := Step(s, DoReopen(now));
            Inv(s') && s'.db.mem == s.db.mem && s'.db.log == s.db.log && s'.nextRev <= s.nextRev
  {
    ReopenOwnsLeases(s.db.log, now);
  }

  /** The invariant holds in every state of every run, restarts included. */
  lemma {:induction false} RunKeepsInv(actions: seq<Action>)
    requires AllSized(actions)
    ensures Inv(Run(INIT, actions))
  {
    if actions != [] {
      var init, a := actions[..|actions| - 1], actions[|actions| - 1];
      assert a in actions && forall b :: b in init ==> b in actions;
      RunKeepsInv(init);
      var s := Run(INIT, init);
      match a
      case DoReopen(now) => ReopenStep(s, now);
      case _ => StepIsGood(s, a);
    }
  }

  /** Actions of one running process. */
  ghost predicate Running(actions: seq<Action>) {
    forall a :: a in actions ==> Sized(a) && !a.DoReopen?
  }

  /** Any stretch of a running process is good in the same sense as a single step. */
  lemma {:induction false} RunIsGood(s: State, actions: seq<Action>)
    requires Inv(s) && Running(actions)
    ensures GoodStep(s, Run(s, actions))
  {
    if actions == [] {
      ExtendsReflexive(s.db, s.nextRev, s.nextRev);
    } else {
      var init, a := actions[..|actions| - 1], actions[|actions| - 1];
      assert a in actions && forall b :: b in init ==> b in actions;
      RunIsGood(s, init);
      var s1 := Run(s, init);
      StepIsGood(s1, a);
      ExtendsTransitive(s.db, s.nextRev, s1.db, s1.nextRev, Run(s, actions).db, Run(s, actions).nextRev);
    }
  }

  // ----------------------------------------------------------------- theorems

  /** Recovery equals the live state: after any run, reading back the log file, with or without a
      torn write at its end, rebuilds the identical key map, tombstones and blobs included, and a
      clock above every logged revision and never above the live one. */
  lemma RecoveryEqualsLive(actions: seq<Action>, torn: Blob)
    requires AllSized(actions) && (torn == [] || TornWrite(torn))
    requires forall r :: r in Run(INIT, actions).db.log ==> Fits(r)
    ensures var s := Run(INIT, actions);
            var scanned := Scan(SerializeAll(s.db.log) + torn);
            var b := ReplayWal(scanned.records);
            !scanned.failed && b.mem == s.db.mem && b.maxRev + 1 <= s.nextRev
            && forall r :: r in s.db.log ==> r.modRev < b.maxRev + 1
  {
    RunKeepsInv(actions);
    var log := Run(INIT, actions).db.log;
    WfPositive(log);
    RecoverFile(log, torn);
    MaxRevBounds(log);
  }

  /** A range delete uses up a revision even when it matches nothing, and logs nothing then: after
      it, a reopened clock agrees with the live one exactly when some live key matched. */
  lemma DeleteClockAgreement(s: State, req: DeleteReq, now: nat)
    requires Inv(s) && req.key != []
    ensures var s' := DeleteRange(s, req).state;
            Reopen(s'.db.log, now).nextRev == s'.nextRev
            <==> LiveMatching(KeysOf(s), ResolveRange(req.key, req.rangeEnd)) != {}
  {
    var bound := ResolveRange(req.key, req.rangeEnd);
    var ks := KeysToDelete(KeysOf(s), bound);
    var s' := DeleteRange(s, req).state;
    RecordedMem(s.db, s.nextRev - 1);
    DeleteRangeAtIsBatch(s.(nextRev := s.nextRev + 1), req, s.nextRev);
    DeleteStep(s, req);
    SortedDistinct(LiveMatching(KeysOf(s), bound));
    DeleteBatchIsCommits(s.db, ks, s.nextRev);
    CommitAllParts(s.db, DeleteRecords(KeysOf(s), ks, s.nextRev));
    MaxRevBounds(s'.db.log);
    if ks == [] {
      assert s'.db.log == s.db.log;
      assert forall k :: k !in LiveMatching(KeysOf(s), bound);
    } else {
      var last := s'.db.log[|s'.db.log| - 1];
      assert last.modRev == s.nextRev && last in s'.db.log;
      assert ks[0] in LiveMatching(KeysOf(s), bound);
    }
  }

  /** The bookkeeping invariant of every run: counts, revision order within an entry, versions as
      counts of puts, and the compaction mark. */
  lemma BookkeepingHolds(actions: seq<Action>)
    requires AllSized(actions)
    ensures var s := Run(INIT, actions);
            s.db.mem.keyCount == |LiveKeys(KeysOf(s))| && s.compactRev <= CurrentRevision(s)
            && forall k :: k in KeysOf(s) ==>
                 var ks := KeysOf(s)[k];
                 0 < ks.createRev <= ks.modRev < s.nextRev
                 && (ks.deleteRev != 0 ==> ks.modRev <= ks.deleteRev < s.nextRev)
                 && (Alive(ks) ==> ks.version == PutsSinceDelete(s.db.log, k))
  {
    RunKeepsInv(actions);
    var s := Run(INIT, actions);
    RecordedMem(s.db, s.nextRev - 1);
    WfPositive(s.db.log);
    forall k | k in KeysOf(s)
      ensures EntryOk(k, KeysOf(s)[k]) && LastRev(KeysOf(s)[k]) < s.nextRev
      ensures Alive(KeysOf(s)[k]) ==> KeysOf(s)[k].version == PutsSinceDelete(s.db.log, k)
    {
      VersionCountsPuts(s.db.log, k);
    }
  }
}
