/** What each request does, in its own terms: fields of the request, keys of the store and records of
    the log on one side, and the answer and the state afterwards on the other. */
module Requests {
  import opened Bytes
  import opened Varint
  import opened KvCodec
  import opened KvParse
  import opened Wal
  import opened Ranges
  import opened OrderedKeys
  import opened KeyMap
  import opened StoreSpec
  import opened Commits
  import opened Sends
  import opened Recovery
  import opened TxnSpec
  import opened TxnReplies
  import opened Reads
  import opened History
  import opened HistoricalRead
  import opened Sorting
  import opened Runs

  // ------------------------------------------------------------------------- put

  /** What an accepted put leaves in the map: the value and lease of the request, or the stored ones
      where the request says to keep them. */
  ghost predicate PutLeaves(keys: Keys, keys': Keys, req: PutReq, rev: nat) {
    req.key in keys'
    && var ks, live := keys'[req.key], Live(keys, req.key);
       ks.deleteRev == 0 && ks.modRev == rev
       && (!req.ignoreValue ==> ks.value == req.value)
       && (req.ignoreValue ==> live && ks.value == keys[req.key].value)
       && (!req.ignoreLease ==> ks.lease == req.lease)
       && (req.ignoreLease ==> live && ks.lease == keys[req.key].lease)
       && (live ==> ks.createRev == keys[req.key].createRev && ks.version == keys[req.key].version + 1)
       && (!live ==> ks.createRev == rev && ks.version == 1)
       && (ks.rebirth <==> req.key in keys && keys[req.key].deleteRev != 0)
       && forall k :: k != req.key ==> Entry(keys', k) == Entry(keys, k)
  }

  /** The record logged for it: flags, key, value, lease, revisions and version of the new entry, whose
      blob is the record's. */
  ghost predicate PutLogs(keys: Keys, keys': Keys, req: PutReq, r: Record)
    requires req.key in keys'
  {
    var ks := keys'[req.key];
    r == Record((if Live(keys, req.key) then 0 else 2) + (if ks.lease != 0 then 4 else 0),
                req.key, ks.value, ks.createRev, ks.modRev, ks.version, ks.lease)
    && ks.kvBytes == KvBytes(r)
  }

  /** A put in any state. It is refused exactly when the key is empty, a value or lease is given that
      is to be kept, there is nothing to keep it from, or the lease does not exist; then nothing
      changes. Otherwise it takes one revision, leaves and logs what was asked for, and answers with
      the old live blob if that was asked for. */
  lemma PutMeaning(s: State, req: PutReq)
    ensures var o, live := Put(s, req), Live(KeysOf(s), req.key);
            var lease := if req.ignoreLease && live then KeysOf(s)[req.key].lease else req.lease;
            (o.result.Ok? <==> req.key != [] && !(req.ignoreValue && req.value != []) && !(req.ignoreLease && req.lease != 0)
                               && !((req.ignoreValue || req.ignoreLease) && !live) && (lease == 0 || lease in s.leases))
            && (o.result.Err? ==> o.state == s)
            && (o.result.Ok? ==>
                  o.state.nextRev == s.nextRev + 1 && o.state.leases == s.leases && o.state.compactRev == s.compactRev
                  && PutLeaves(KeysOf(s), KeysOf(o.state), req, s.nextRev)
                  && |o.state.db.log| == |s.db.log| + 1 && o.state.db.log[..|s.db.log|] == s.db.log
                  && PutLogs(KeysOf(s), KeysOf(o.state), req, o.state.db.log[|s.db.log|])
                  && o.result.value == if req.prevKv && live then KeysOf(s)[req.key].kvBytes else [])
  {
    hide KvBytes, NotifyAll;
    var o := Put(s, req);
    if o.result.Ok? {
      var keys, rev := KeysOf(s), s.nextRev;
      var value, lease := PutValue(keys, req), PutLease(keys, req);
      LivePutIsReplay(s.db.mem, req.key, value, lease, rev);
      LoggedRecords(keys, req.key, value, lease, rev);
      var r := PutRecord(keys, req.key, value, lease, rev);
      assert o.state.db.log == s.db.log + [r];
      assert KeysOf(o.state) == ApplyRecord(s.db.mem, r).keys;
    }
  }

  /** Which error a refused put answers with: the first that applies. */
  lemma PutErrors(s: State, req: PutReq)
    requires Put(s, req).result.Err?
    ensures var e, live := Put(s, req).result.error, Live(KeysOf(s), req.key);
            (e == KeyNotProvided <==> req.key == [])
            && (e == ValueProvided <==> req.key != [] && req.ignoreValue && req.value != [])
            && (e == LeaseProvided ==> req.ignoreLease && req.lease != 0)
            && (e == KeyNotFound ==> (req.ignoreValue || req.ignoreLease) && !live)
            && (e == LeaseNotFound <==> req.key != [] && !(req.ignoreValue && req.value != []) && !(req.ignoreLease && req.lease != 0)
                                        && !((req.ignoreValue || req.ignoreLease) && !live))
  {}

  /** The blob that goes to the log, to watchers and to readers decodes to the entry. */
  lemma PutBlobDecodes(s: State, req: PutReq)
    requires Put(s, req).result.Ok? && |req.key| < TWO32
    requires var ks := KeysOf(Put(s, req).state)[req.key];
             |ks.value| < TWO32 && ks.createRev < TWO64 && ks.modRev < TWO64 && ks.version < TWO64 && IsI64(ks.lease)
    ensures req.key in KeysOf(Put(s, req).state)
    ensures var ks := KeysOf(Put(s, req).state)[req.key];
            DecodeKv(ks.kvBytes).Some?
            && var kv := DecodeKv(ks.kvBytes).value;
               kv.key == req.key && kv.value == ks.value && kv.createRev == ks.createRev && kv.modRev == ks.modRev
               && kv.version == ks.version && AsI64(kv.lease) == ks.lease
  {
    hide Encode, DecodeKv;
    PutMeaning(s, req);
    var o := Put(s, req);
    var ks := KeysOf(o.state)[req.key];
    CastRoundTrip(ks.lease);
    var r := o.state.db.log[|s.db.log|];
    DecodeRoundTrip(KvOf(r));
  }

  // --------------------------------------------------------------------- deletes

  /** Exactly the live keys in range become tombstones, at one revision. */
  ghost predicate DeletesExactly(keys: Keys, keys': Keys, hit: Blob -> bool, rev: nat) {
    forall k :: Entry(keys', k)
             == if Live(keys, k) && hit(k) then Some(keys[k].(deleteRev := rev)) else Entry(keys, k)
  }

  /** One record per key, with the fields of its entry and bit 0 of the flags set. */
  ghost predicate DeleteLogs(s: State, s': State, ks: seq<Blob>) {
    |s'.db.log| == |s.db.log| + |ks| && s'.db.log[..|s.db.log|] == s.db.log
    && forall i :: 0 <= i < |ks| ==> DeleteLogged(KeysOf(s), ks[i], s'.db.log[|s.db.log| + i], s.nextRev)
  }

  ghost predicate DeleteLogged(keys: Keys, k: Blob, r: Record, rev: nat) {
    k in keys
    && var ks := keys[k]; r == Record(1 + (if ks.lease != 0 then 4 else 0), k, ks.value, ks.createRev, rev, ks.version, ks.lease)
  }

  lemma DeletesLogged(s: State, ks: seq<Blob>, s': State)
    requires Distinct(ks) && (forall k :: k in ks ==> Live(s.db.mem.keys, k)) && s'.db == DeleteBatch(s.db, ks, s.nextRev)
    ensures DeleteLogs(s, s', ks)
  {
    hide SendAll, Issued, DeleteEach;
    var recs := DeleteRecords(KeysOf(s), ks, s.nextRev);
    DeletesAreSent(s.db, s.db.log + recs, ks, s.nextRev);
    assert s'.db.log == s.db.log + recs;
    forall i | 0 <= i < |ks| ensures DeleteLogged(KeysOf(s), ks[i], s'.db.log[|s.db.log| + i], s.nextRev) {
      assert ks[i] in ks && recs[i] == DeleteRecord(KeysOf(s), ks[i], s.nextRev);
    }
  }

  lemma RangeDeletesExactly(s: State, bound: RangeBound, s': State)
    requires s.nextRev > 0 && s'.db == DeleteBatch(s.db, KeysToDelete(KeysOf(s), bound), s.nextRev)
    ensures DeletesExactly(KeysOf(s), KeysOf(s'), k => Matches(bound, k), s.nextRev)
  {
    hide Matches;
    var keys, ks := KeysOf(s), KeysToDelete(KeysOf(s), bound);
    SortedDistinct(LiveMatching(keys, bound));
    var d := s.db.(log := s.db.log + DeleteRecords(keys, ks, s.nextRev));
    forall k ensures Entry(KeysOf(s'), k)
                  == if Live(keys, k) && Matches(bound, k) then Some(keys[k].(deleteRev := s.nextRev)) else Entry(keys, k)
    {
      DeleteEachKills(d, ks, s.nextRev, k);
      assert k in ks <==> k in LiveMatching(keys, bound);
    }
  }

  /** A range delete in any state: it is refused exactly for an empty key. Otherwise it takes one
      revision, turns the live keys of the range into tombstones there and touches nothing else, and
      answers with their number and, if asked, their blobs in key order. */
  lemma DeleteRangeMeaning(s: State, req: DeleteReq)
    requires s.nextRev > 0
    ensures var o, bound := DeleteRange(s, req), ResolveRange(req.key, req.rangeEnd);
            (o.result.Err? <==> req.key == []) && (o.result.Err? ==> o.state == s)
            && (o.result.Ok? ==>
                  o.state.nextRev == s.nextRev + 1 && o.state.leases == s.leases
                  && DeletesExactly(KeysOf(s), KeysOf(o.state), k => Matches(bound, k), s.nextRev)
                  && o.result.value.deleted == |set k | k in KeysOf(s) && Live(KeysOf(s), k) && Matches(bound, k)|
                  && |o.result.value.prevKvs| == (if req.prevKv then o.result.value.deleted else 0)
                  && forall i :: 0 <= i < |o.result.value.prevKvs| ==>
                       var k := KeysToDelete(KeysOf(s), bound)[i]; k in KeysOf(s) && o.result.value.prevKvs[i] == KeysOf(s)[k].kvBytes)
    ensures DeleteRange(s, req).result.Ok? ==>
              DeleteLogs(s, DeleteRange(s, req).state, KeysToDelete(KeysOf(s), ResolveRange(req.key, req.rangeEnd)))
  {
    hide Matches, DeletesExactly, DeleteLogs;
    var o, keys, bound := DeleteRange(s, req), KeysOf(s), ResolveRange(req.key, req.rangeEnd);
    if req.key != [] {
      var ks := KeysToDelete(keys, bound);
      SortedLength(LiveMatching(keys, bound));
      SortedDistinct(LiveMatching(keys, bound));
      DeletesLogged(s, ks, o.state);
      assert LiveMatching(keys, bound) == set k | k in keys && Live(keys, k) && Matches(bound, k);
      RangeDeletesExactly(s, bound, o.state);
      forall i | 0 <= i < |ks| ensures ks[i] in keys && PrevBytes(keys, ks[i]) == keys[ks[i]].kvBytes {
        assert ks[i] in ks;
      }
    }
  }

  /** The keys are listed in ascending order. */
  lemma DeletedInOrder(keys: Keys, bound: RangeBound)
    ensures Ascending(KeysToDelete(keys, bound))
    ensures forall k :: k in KeysToDelete(keys, bound) <==> Live(keys, k) && Matches(bound, k)
  {
    SortedAscends(LiveMatching(keys, bound));
  }

  // ------------------------------------------------------------------ compaction

  /** Compaction of the past in any state: accepted exactly between the mark and the clock, and then
      only the mark moves, to where it was asked. */
  lemma CompactMeaning(s: State, rev: nat)
    ensures var o := Compact(s, rev);
            (o.result.Ok? <==> s.compactRev < rev && (rev == 0 || rev < s.nextRev))
            && (o.result.Ok? ==> o.state == s.(compactRev := rev))
            && (o.result.Err? ==> o.state == s && o.result.error == if rev > 0 && rev >= s.nextRev then FutureRevision else RevisionCompacted)
  {}

  // ---------------------------------------------------------------------- leases

  const HOUR: nat := 3600

  /** A grant: refused exactly when the ttl is too large or the id is taken. The lease lives for its
      ttl, two seconds at least, from now on. */
  lemma GrantMeaning(s: State, id: int, ttl: int, now: nat)
    ensures var o, lid := LeaseGrant(s, id, ttl, now), if id != 0 then id else s.nextLeaseId;
            (o.result.Ok? <==> ttl <= 9223372035 && lid !in s.leases)
            && (o.result.Ok? ==>
                  o.result.value == lid && o.state.db == s.db && o.state.nextRev == s.nextRev
                  && lid in o.state.leases
                  && o.state.leases[lid].ttl == (if ttl < 2 then 2 else ttl)
                  && o.state.leases[lid].expiresAt == now + (if ttl < 2 then 2 else ttl)
                  && o.state.leases - {lid} == s.leases
                  && o.state.nextLeaseId == if id == 0 then s.nextLeaseId + 1 else s.nextLeaseId)
            && (o.result.Err? ==> o.state.leases == s.leases && o.state.db == s.db)
  {
    var lid := if id != 0 then id else s.nextLeaseId;
    if lid !in s.leases && ttl <= LEASE_MAX_TTL {
      assert LeaseGrant(s, id, ttl, now).state.leases - {lid} == s.leases;
    }
  }

  /** A renewal sets the deadline to the lease's own ttl from now on. */
  lemma KeepAliveMeaning(s: State, id: int, now: nat)
    ensures var o := LeaseKeepAlive(s, id, now);
            (o.result.Ok? <==> id in s.leases) && (o.result.Err? ==> o.state == s)
            && (o.result.Ok? ==>
                  o.result.value == s.leases[id].ttl && o.state.db == s.db && o.state.leases.Keys == s.leases.Keys
                  && o.state.leases[id].ttl == s.leases[id].ttl && o.state.leases[id].expiresAt == now + s.leases[id].ttl
                  && forall i :: i in s.leases && i != id ==> o.state.leases[i] == s.leases[i])
  {}

  /** A revocation, in any state: the lease is gone, its live keys are tombstones at one new revision,
      and nothing else changed. */
  lemma RevokeMeaning(s: State, id: int)
    requires s.nextRev > 0
    ensures var o := LeaseRevoke(s, id);
            (o.result.Ok? <==> id in s.leases) && (o.result.Err? ==> o.state == s)
            && (o.result.Ok? ==>
                  o.state.leases == s.leases - {id}
                  && DeletesExactly(KeysOf(s), KeysOf(o.state), k => Live(KeysOf(s), k) && KeysOf(s)[k].lease == id, s.nextRev))
  {
    hide DropLease;
    if id in s.leases {
      DropLeaseFrame(s, id);
      forall k ensures Entry(KeysOf(DropLease(s, id)), k)
                    == if Live(KeysOf(s), k) && KeysOf(s)[k].lease == id then Some(KeysOf(s)[k].(deleteRev := s.nextRev)) else Entry(KeysOf(s), k)
      {
        DropLeaseKeys(s, id, k);
      }
    }
  }

  lemma DropLeaseFrame(s: State, id: int)
    ensures DropLease(s, id).leases == s.leases - {id} && s.nextRev <= DropLease(s, id).nextRev
  {}

  /** The key was deleted between two readings of the clock. */
  ghost predicate TombstonedWithin(was: KeyState, e: Option<KeyState>, lo: nat, hi: nat) {
    e.Some? && lo <= e.value.deleteRev < hi && e.value == was.(deleteRev := e.value.deleteRev)
  }

  lemma {:induction false} DropEachMeaning(s: State, ids: seq<int>, k: Blob)
    requires s.nextRev > 0
    ensures var s' := DropEach(s, ids);
            s.nextRev <= s'.nextRev && (forall i :: i in s'.leases <==> i in s.leases && i !in ids)
            && (forall i :: i in s'.leases ==> s'.leases[i] == s.leases[i])
            && (if Live(KeysOf(s), k) && KeysOf(s)[k].lease in ids
                then TombstonedWithin(KeysOf(s)[k], Entry(KeysOf(s'), k), s.nextRev, s'.nextRev)
                else Entry(KeysOf(s'), k) == Entry(KeysOf(s), k))
  {
    hide DropLease;
    if ids != [] {
      var n := |ids| - 1;
      var s1 := DropEach(s, ids[..n]);
      DropEachMeaning(s, ids[..n], k);
      assert forall i :: i in ids <==> i in ids[..n] || i == ids[n];
      DropLeaseFrame(s1, ids[n]);
      DropLeaseKeys(s1, ids[n], k);
      if Live(KeysOf(s1), k) && KeysOf(s1)[k].lease == ids[n] { DropLeaseClock(s1, ids[n], k); }
    }
  }

  lemma DropLeaseClock(s: State, id: int, k: Blob)
    requires Live(KeysOf(s), k) && KeysOf(s)[k].lease == id
    ensures DropLease(s, id).nextRev == s.nextRev + 1
  {
    assert k in LeaseKeys(KeysOf(s), id);
  }

  /** An expiry turn at `now`, in any state: exactly the leases whose deadline has come go, exactly
      their live keys become tombstones, and everything else stays as it is. */
  lemma ExpireMeaning(s: State, now: nat)
    requires s.nextRev > 0
    ensures var s' := Expire(s, now);
            (forall id :: id in s'.leases <==> id in s.leases && s.leases[id].expiresAt > now)
            && (forall id :: id in s'.leases ==> s'.leases[id] == s.leases[id])
            && (forall k :: if Live(KeysOf(s), k) && KeysOf(s)[k].lease in s.leases && s.leases[KeysOf(s)[k].lease].expiresAt <= now
                            then TombstonedWithin(KeysOf(s)[k], Entry(KeysOf(s'), k), s.nextRev, s'.nextRev)
                            else Entry(KeysOf(s'), k) == Entry(KeysOf(s), k))
            && ((forall id :: id in s.leases ==> s.leases[id].expiresAt > now) ==> s' == s)
  {
    hide DropEach, TombstonedWithin;
    var ids := IdsInOrder(Expired(s.leases, now));
    assert forall id :: id in ids <==> id in s.leases && s.leases[id].expiresAt <= now;
    DropEachMeaning(s, ids, []);
    forall k ensures if Live(KeysOf(s), k) && KeysOf(s)[k].lease in s.leases && s.leases[KeysOf(s)[k].lease].expiresAt <= now
                     then TombstonedWithin(KeysOf(s)[k], Entry(KeysOf(Expire(s, now)), k), s.nextRev, Expire(s, now).nextRev)
                     else Entry(KeysOf(Expire(s, now)), k) == Entry(KeysOf(s), k)
    {
      DropEachMeaning(s, ids, k);
    }
    if forall id :: id in s.leases ==> s.leases[id].expiresAt > now {
      assert Expired(s.leases, now) == {};
      NothingToDrop(s);
    }
  }

  lemma NothingToDrop(s: State)
    ensures DropEach(s, IdsInOrder({})) == s
  {}

  /** A lease granted at `now` and not renewed is dropped by an expiry turn exactly from `now` plus its
      ttl on. */
  lemma LeaseLivesItsTtl(s: State, id: int, ttl: int, now: nat, later: nat)
    requires s.nextRev > 0 && LeaseGrant(s, id, ttl, now).result.Ok?
    ensures var o := LeaseGrant(s, id, ttl, now);
            o.result.value in Expire(o.state, later).leases <==> later < now + (if ttl < 2 then 2 else ttl)
  {
    hide Expire;
    GrantMeaning(s, id, ttl, now);
    ExpireMeaning(LeaseGrant(s, id, ttl, now).state, later);
  }

  /** Some live key is on the lease. */
  ghost predicate InUse(keys: Keys, id: int) { exists k :: Live(keys, k) && keys[k].lease == id }

  /** After a restart exactly the leases of live keys exist, each for an hour; the clock stands one past
      the last logged revision, nothing is compacted, and no watch is left. */
  lemma RestoredMeaning(log: seq<Record>, now: nat)
    ensures var s := Reopen(log, now);
            s.db.log == log && s.db.watchers == [] && s.compactRev == 0
            && (forall r :: r in log ==> r.modRev < s.nextRev) && (s.nextRev == 1 || exists r :: r in log && r.modRev + 1 == s.nextRev)
            && (forall id :: id in s.leases <==> id != 0 && InUse(KeysOf(s), id))
            && forall id :: id in s.leases ==> s.leases[id].ttl == HOUR && s.leases[id].expiresAt == now + HOUR
  {
    hide Replay, InUse;
    var s := Reopen(log, now);
    MaxRevBounds(log);
    forall id ensures id in s.leases <==> id != 0 && InUse(KeysOf(s), id) { LeaseIdsMeaning(KeysOf(s), id); }
  }

  lemma LeaseIdsMeaning(keys: Keys, id: int)
    ensures id in LeaseIds(keys) <==> id != 0 && InUse(keys, id)
  {
    if id in LeaseIds(keys) {
      var k :| k in keys && Alive(keys[k]) && keys[k].lease != 0 && keys[k].lease == id;
      assert Live(keys, k);
    }
    if id != 0 && InUse(keys, id) {
      var k :| Live(keys, k) && keys[k].lease == id;
      assert keys[k].lease in LeaseIds(keys);
    }
  }

  // ------------------------------------------------------------------ transactions

  /** A transaction that passes validation runs its success branch exactly when every guard holds, and
      answers with which branch ran; without guards that is the success branch. */
  lemma TxnBranchMeaning(s: State, t: TxnReq)
    requires CheckTxn(t).None?
    ensures (forall i :: 0 <= i < |t.compare| ==> EvalCompare(KeysOf(s), t.compare[i])) ==>
              var q := ApplyOps(Progress(s, None, None), t.success, 0);
              Txn(s, t) == Outcome(q.state, if q.error.Some? then Err(q.error.value) else Ok(true))
    ensures (exists i :: 0 <= i < |t.compare| && !EvalCompare(KeysOf(s), t.compare[i])) ==>
              var q := ApplyOps(Progress(s, None, None), t.failure, 0);
              Txn(s, t) == Outcome(q.state, if q.error.Some? then Err(q.error.value) else Ok(false))
  {
    hide ApplyOps, EvalCompare;
    AllGuards(KeysOf(s), t.compare);
  }

  lemma AllGuards(keys: Keys, cs: seq<Compare>)
    ensures EvalAll(keys, cs) <==> forall i :: 0 <= i < |cs| ==> EvalCompare(keys, cs[i])
  {
    hide EvalCompare;
    if EvalAll(keys, cs) {
      forall i | 0 <= i < |cs| ensures EvalCompare(keys, cs[i]) { assert cs[i] in cs; }
    }
  }

  /** A transaction passes validation exactly when both its branches do, whichever would run. */
  lemma TxnAccepted(t: TxnReq)
    ensures CheckTxn(t).None? <==> CheckBranch(t.success).None? && CheckBranch(t.failure).None?
    ensures CheckBranch(t.success).Some? ==> CheckTxn(t) == CheckBranch(t.success)
  {
    hide CheckBranch;
  }

  /** What the operations of a transaction are answered with: a put with the old live blob if asked, a
      delete with the number of live keys in range and their blobs if asked, a read of the current
      state with what it finds at that point, and a read of the past with its answer. */
  lemma ReplyMeaning(p: Progress, op: Op, depth: nat, path: Path, answer: Answers)
    requires ApplyOp(p, op, depth).error.None?
    ensures var keys, reply := KeysOf(p.state), ReplyTo(p, op, depth, path, answer);
            (op.PutOp? ==> reply == PutDone(if op.put.prevKv && Live(keys, op.put.key) then keys[op.put.key].kvBytes else []))
            && (op.DeleteOp? ==>
                  reply.Removed?
                  && reply.del.deleted == |set k | k in keys && Live(keys, k) && Matches(ResolveRange(op.del.key, op.del.rangeEnd), k)|
                  && |reply.del.prevKvs| == if op.del.prevKv then reply.del.deleted else 0)
            && (op.RangeOp? && op.range.revision <= 0 ==>
                  reply == Ranged(Response(CurrentBlobs(keys, ResolveRange(op.range.key, op.range.rangeEnd), op.range.filter), op.range)))
            && (op.RangeOp? && op.range.revision > 0 && answer(path, op.range).Ok? ==> reply == Ranged(answer(path, op.range).value))
            && (op.NoOp? ==> reply == Blank)
  {
    hide Matches, DeleteBatch, ApplyLive, Response, CurrentBlobs;
    if op.DeleteOp? {
      var keys, bound := KeysOf(p.state), ResolveRange(op.del.key, op.del.rangeEnd);
      SortedLength(LiveMatching(keys, bound));
      assert LiveMatching(keys, bound) == set k | k in keys && Live(keys, k) && Matches(bound, k);
    }
  }

  /** A transaction that does not pass validation changes nothing. */
  lemma TxnRefused(s: State, t: TxnReq)
    requires CheckTxn(t).Some?
    ensures Txn(s, t) == Outcome(s, Err(CheckTxn(t).value))
  {}

  /** A nested transaction, one level deep at most, likewise chooses by its own guards in the state it
      finds, and says so in its reply. */
  lemma NestedBranchMeaning(p: Progress, t: TxnReq, path: Path, answer: Answers)
    ensures (forall i :: 0 <= i < |t.compare| ==> EvalCompare(KeysOf(p.state), t.compare[i])) ==>
              ApplyOp(p, TxnOp(t), 0) == ApplyOps(p, t.success, 1)
              && ReplyTo(p, TxnOp(t), 0, path, answer) == Nested(true, RepliesTo(p, t.success, 1, path, answer))
    ensures (exists i :: 0 <= i < |t.compare| && !EvalCompare(KeysOf(p.state), t.compare[i])) ==>
              ApplyOp(p, TxnOp(t), 0) == ApplyOps(p, t.failure, 1)
              && ReplyTo(p, TxnOp(t), 0, path, answer) == Nested(false, RepliesTo(p, t.failure, 1, path, answer))
    ensures forall depth: nat :: depth >= 1 ==> ApplyOp(p, TxnOp(t), depth) == p.(error := Some(NestedTxn))
  {
    hide ApplyOps, EvalCompare, RepliesTo;
    AllGuards(KeysOf(p.state), t.compare);
  }

  /** The put that a live key's value comes from; none after a delete. */
  function LastPutOf(log: seq<Record>, k: Blob): Option<Record> {
    if log == [] then None
    else
      var r := log[|log| - 1];
      if r.key != k then LastPutOf(log[..|log| - 1], k) else if Deleted(r) then None else Some(r)
  }

  /** The revision of the first put since the key's last delete. */
  function CreatedAt(log: seq<Record>, k: Blob): nat {
    if log == [] then 0
    else
      var init, r := log[..|log| - 1], log[|log| - 1];
      if r.key != k then CreatedAt(init, k)
      else if Deleted(r) then 0
      else if PutsSinceDelete(init, k) == 0 then r.modRev
      else CreatedAt(init, k)
  }

  lemma {:induction false} EntryFromLog(log: seq<Record>, k: Blob)
    requires Positive(log)
    ensures Live(Replay(log).keys, k) <==> LastPutOf(log, k).Some?
    ensures LastPutOf(log, k).None? ==> CreatedAt(log, k) == 0
    ensures Live(Replay(log).keys, k) ==>
              var ks, r := Replay(log).keys[k], LastPutOf(log, k).value;
              ks.value == r.value && ks.modRev == r.modRev && ks.lease == r.lease && ks.createRev == CreatedAt(log, k)
  {
    hide KvBytes;
    if log != [] {
      var n := |log| - 1;
      assert log[n] in log && forall r :: r in log[..n] ==> r in log;
      EntryFromLog(log[..n], k);
      VersionCountsPuts(log[..n], k);
      if log[n].key != k { ApplyTouchesOneKey(Replay(log[..n]), log[n]); }
    }
  }

  /** What the log shows of a key to a guard: 0 for a key that is not there, deleted or never put. */
  function Observed(log: seq<Record>, k: Blob, target: Target): int {
    var last := LastPutOf(log, k);
    match target
    case Version => PutsSinceDelete(log, k)
    case Create => CreatedAt(log, k)
    case Mod => if last.Some? then last.value.modRev else 0
    case LeaseId => if last.Some? then last.value.lease else 0
    case Value => 0
  }

  function ObservedValue(log: seq<Record>, k: Blob): Blob {
    var last := LastPutOf(log, k);
    if last.Some? then last.value.value else []
  }

  /** A guard on a store that replays its log compares what the log shows with what the guard expects. */
  lemma CompareMeaning(log: seq<Record>, c: Compare)
    requires Positive(log)
    ensures var x, holds := Observed(log, c.key, c.target), EvalCompare(Replay(log).keys, c);
            !c.target.Value? ==>
              (c.relation.Equal? ==> (holds <==> x == c.number)) && (c.relation.NotEqual? ==> (holds <==> x != c.number))
              && (c.relation.Greater? ==> (holds <==> x > c.number)) && (c.relation.Lesser? ==> (holds <==> x < c.number))
    ensures var v, holds := ObservedValue(log, c.key), EvalCompare(Replay(log).keys, c);
            c.target.Value? ==>
              (c.relation.Equal? ==> (holds <==> v == c.bytes)) && (c.relation.NotEqual? ==> (holds <==> v != c.bytes))
              && (c.relation.Greater? ==> (holds <==> Less(c.bytes, v))) && (c.relation.Lesser? ==> (holds <==> Less(v, c.bytes)))
  {
    hide Replay;
    EntryFromLog(log, c.key);
    VersionCountsPuts(log, c.key);
  }

  // ------------------------------------------------------------------------ reads

  /** A bound of 0 or less is no bound. */
  predicate WithinBounds(f: RevFilter, mod: nat, create: nat) {
    (f.minMod <= 0 || f.minMod <= mod) && (f.maxMod <= 0 || mod <= f.maxMod)
    && (f.minCreate <= 0 || f.minCreate <= create) && (f.maxCreate <= 0 || create <= f.maxCreate)
  }

  /** What a read of the current state selects, and as what. */
  lemma CurrentSelects(keys: Keys, bound: RangeBound, f: RevFilter, k: Blob)
    ensures k in CurrentBlobs(keys, bound, f)
       <==> Live(keys, k) && Matches(bound, k) && WithinBounds(f, keys[k].modRev, keys[k].createRev)
    ensures k in CurrentBlobs(keys, bound, f) ==> CurrentBlobs(keys, bound, f)[k] == keys[k].kvBytes
  {
    hide Matches;
  }

  /** What a right read of the past selects. */
  lemma PastSelects(log: seq<Record>, bound: RangeBound, f: RevFilter, t: nat, k: Blob)
    ensures var keys := StateAt(log, t).keys;
            (k in Filtered(log, bound, f, t) <==> Live(keys, k) && Matches(bound, k) && WithinBounds(f, keys[k].modRev, keys[k].createRev))
            && (k in Filtered(log, bound, f, t) ==> Filtered(log, bound, f, t)[k] == keys[k].kvBytes)
  {
    hide Matches, StateAt;
  }

  /** When a read is refused: for an empty key, a revision after the clock, a positive revision before
      the compaction mark, or a log that cannot be scanned although something has changed since. */
  lemma ReadRefusals(keys: Keys, current: nat, compactRev: nat, file: Blob, later: Lookups, req: RangeReq)
    ensures var a := Answer(keys, current, compactRev, file, later, req);
            (a == Err(KeyNotProvided) <==> req.key == [])
            && (a == Err(FutureRevision) <==> req.key != [] && req.revision > current)
            && (a == Err(RevisionCompacted) <==> req.key != [] && 0 < req.revision <= current && req.revision < compactRev)
            && (a == Err(ScanFailed) <==> req.key != [] && 0 < req.revision <= current && compactRev <= req.revision
                                          && HistoricalFails(keys, file, req, req.revision))
            && (a.Ok? <==> req.key != [] && req.revision <= current
                           && (req.revision <= 0 || (compactRev <= req.revision && !HistoricalFails(keys, file, req, req.revision))))
  {
    hide HistoricalFails, HistoricalAnswer, Response, CurrentBlobs;
  }

  /** How a response is cut: nothing but the count when only that is asked for; otherwise at most
      `limit` entries, if that is positive, from the front of the sorted listing. */
  lemma ResponseMeaning(blobs: Blobs, req: RangeReq)
    requires Keyed(blobs)
    ensures var resp, all := Response(blobs, req), Ordered(Listing(blobs, req.keysOnly), req.order, req.target);
            resp.count == |blobs| == |all|
            && (req.countOnly ==> resp.kvs == [] && !resp.more)
            && (!req.countOnly ==>
                  resp.kvs <= all && (resp.more <==> |resp.kvs| < |blobs|)
                  && |resp.kvs| == if 0 < req.limit < |blobs| then req.limit else |blobs|)
  {
    hide Listing, Keyed, Items, FullSort, Pick, KeyOrdered;
    ListingLength(blobs, req.keysOnly);
    ListingKeyOrdered(blobs, req.keysOnly);
    OrderedLength(Listing(blobs, req.keysOnly), req.order, req.target);
  }

  lemma OrderedLength(kvs: seq<Blob>, order: SortOrder, target: SortTarget)
    ensures |Ordered(kvs, order, target)| == |kvs|
  {
    var items := Items(kvs, target);
    var sorted := FullSort(order == Descend, items);
    assert |sorted| == |multiset(sorted)| == |multiset(items)| == |items| == |kvs|;
  }

  // ---------------------------------------------------------------------- sorting

  /** The order a sort target asks for, on the fields of the messages; the key decides between equals. */
  predicate FieldLess(target: SortTarget, x: Kv, y: Kv) {
    match target
    case ByVersion => x.version < y.version || (x.version == y.version && Less(x.key, y.key))
    case ByCreate => x.createRev < y.createRev || (x.createRev == y.createRev && Less(x.key, y.key))
    case ByMod => x.modRev < y.modRev || (x.modRev == y.modRev && Less(x.key, y.key))
    case ByValue => Less(x.value, y.value) || (x.value == y.value && Less(x.key, y.key))
    case _ => Less(x.key, y.key)
  }

  lemma ItemOfEncoded(x: Kv, target: SortTarget, idx: nat)
    requires Representable(x)
    ensures ItemOf(Encode(x), target, idx).key == x.key && BlobKey(Encode(x)) == Some(x.key)
    ensures target == ByVersion ==> ItemOf(Encode(x), target, idx).value == Number(x.version)
    ensures target == ByCreate ==> ItemOf(Encode(x), target, idx).value == Number(x.createRev)
    ensures target == ByMod ==> ItemOf(Encode(x), target, idx).value == Number(x.modRev)
    ensures target == ByValue ==> ItemOf(Encode(x), target, idx).value == Text(x.value)
    ensures target == ByKey ==> ItemOf(Encode(x), target, idx).value == Text(x.key)
  {
    hide Encode, ParsedKv;
    ParseRoundTrip(x);
  }

  lemma BeforeIsFieldLess(x: Kv, y: Kv, target: SortTarget, desc: bool)
    requires Representable(x) && Representable(y) && target != OtherTarget
    ensures Before(desc, ItemOf(Encode(x), target, 0), ItemOf(Encode(y), target, 0))
       <==> if desc then FieldLess(target, y, x) else FieldLess(target, x, y)
  {
    hide Encode, ItemOf, Representable;
    ItemOfEncoded(x, target, 0);
    ItemOfEncoded(y, target, 0);
    LessIrreflexive(x.key);
  }

  ghost predicate Encodings(kvs: seq<Blob>, xs: seq<Kv>) {
    |kvs| == |xs| && forall i :: 0 <= i < |xs| ==> Representable(xs[i]) && kvs[i] == Encode(xs[i])
  }

  /** A sorted read puts one message before another exactly when its field is smaller, or larger for a
      descending sort, with the key as tiebreak. */
  lemma SortMeaning(kvs: seq<Blob>, xs: seq<Kv>, order: SortOrder, target: SortTarget, i: nat, j: nat, x: Kv, y: Kv)
    requires Encodings(kvs, xs) && KeyOrdered(kvs) && order != Unsorted && target != OtherTarget
    requires i < |Ordered(kvs, order, target)| && j < |Ordered(kvs, order, target)|
    requires x in xs && y in xs && x != y
    requires Ordered(kvs, order, target)[i] == Encode(x) && Ordered(kvs, order, target)[j] == Encode(y)
    ensures i < j <==> if order == Descend then FieldLess(target, y, x) else FieldLess(target, x, y)
  {
    hide Ordered, Encode, ItemOf, KeyOrdered, Before, Representable, FieldLess;
    var a :| 0 <= a < |xs| && xs[a] == x;
    var b :| 0 <= b < |xs| && xs[b] == y;
    var desc := order == Descend;
    OrderedMeaning(kvs, order, target);
    BeforeIsFieldLess(x, y, target, desc);
    EncodeInjective(x, y);
    BeforeStrict(desc, ItemOf(Encode(x), target, 0), ItemOf(Encode(y), target, 0), ItemOf(Encode(x), target, 0));
    assert i != j;
  }
}
