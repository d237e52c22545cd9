/** The store as a value: every operation as a function from state to state. The imperative store
    is proved against these functions, and the theorems about runs are about them. */
module StoreSpec {
  import opened Bytes
  import opened KvCodec
  import opened Wal
  import opened Ranges
  import opened OrderedKeys
  import opened KeyMap

  // ------------------------------------------------------------------ watchers

  datatype Event = Event(rev: nat, isDelete: bool, key: Blob, kvBytes: Blob, prevKvBytes: Blob)

  /** A registered watcher; `received` is what has been sent down its channel. */
  datatype Watcher = Watcher(id: int, bound: RangeBound, startRev: nat, filters: seq<int>, prevKv: bool, received: seq<Event>)

  const NO_PUT: int := 0
  const NO_DELETE: int := 1

  predicate ShouldSend(filters: seq<int>, isDelete: bool) {
    if isDelete then NO_DELETE !in filters else NO_PUT !in filters
  }

  predicate Wants(w: Watcher, e: Event) {
    Matches(w.bound, e.key) && e.rev >= w.startRev && ShouldSend(w.filters, e.isDelete)
  }

  function Notify(w: Watcher, e: Event): Watcher {
    if Wants(w, e) then
      w.(received := w.received + [if w.prevKv then e else e.(prevKvBytes := [])])
    else w
  }

  function NotifyAll(ws: seq<Watcher>, e: Event): seq<Watcher> {
    seq(|ws|, i requires 0 <= i < |ws| => Notify(ws[i], e))
  }

  /** The watchers with another id, in order. */
  function Retained(ws: seq<Watcher>, id: int): seq<Watcher> {
    if ws == [] then []
    else
      var n := |ws| - 1;
      Retained(ws[..n], id) + if ws[n].id != id then [ws[n]] else []
  }

  /** Nothing shrinks exactly when no watcher has the id, and what remains never has it. */
  lemma {:induction false} RetainedIsRest(ws: seq<Watcher>, id: int)
    ensures |Retained(ws, id)| <= |ws|
    ensures |Retained(ws, id)| == |ws| <==> forall w :: w in ws ==> w.id != id
    ensures forall w :: w in Retained(ws, id) <==> w in ws && w.id != id
  {
    if ws != [] {
      var n := |ws| - 1;
      RetainedIsRest(ws[..n], id);
      assert ws == ws[..n] + [ws[n]];
    }
  }

  // --------------------------------------------------------------------- state

  datatype Lease = Lease(ttl: nat, expiresAt: nat)

  /** What a logged write changes: the key map, the watchers' channels and the log. */
  datatype Db = Db(mem: Mem, watchers: seq<Watcher>, log: seq<Record>)

  datatype State = State(db: Db, leases: map<int, Lease>, nextRev: nat, nextLeaseId: int, compactRev: nat)

  const INIT := State(Db(EMPTY, [], []), map[], 1, 1, 0)

  function KeysOf(s: State): Keys { s.db.mem.keys }

  function CurrentRevision(s: State): nat { if s.nextRev > 0 then s.nextRev - 1 else 0 }

  datatype Error =
    | KeyNotProvided | ValueProvided | LeaseProvided | KeyNotFound | LeaseNotFound
    | FutureRevision | RevisionCompacted | LeaseExists | TtlTooLarge | DuplicateKey | NestedTxn | ScanFailed

  /** The state afterwards, and the response or error. */
  datatype Outcome<+T> = Outcome(state: State, result: Result<T, Error>)

  // ------------------------------------------------------- one logged record

  function PrevBytes(keys: Keys, key: Blob): Blob {
    if Live(keys, key) then keys[key].kvBytes else []
  }

  /** The event a delete sends: the previous blob with its `mod_revision` patched in place. */
  function DeleteEvent(keys: Keys, key: Blob, rev: nat): Event
    requires Live(keys, key)
  {
    Event(rev, true, key, Patched(keys[key].kvBytes, rev), keys[key].kvBytes)
  }

  /** `apply`, with the blob given when a logged record is replayed. */
  function ApplyGiven(d: Db, key: Blob, value: Blob, lease: int, rev: nat, blob: Option<Blob>): Db {
    var entry := PutEntry(Entry(d.mem.keys, key), key, value, lease, rev, blob);
    d.(mem := ApplyPut(d.mem, key, value, lease, rev, blob),
       watchers := NotifyAll(d.watchers, Event(rev, false, key, entry.kvBytes, PrevBytes(d.mem.keys, key))))
  }

  function ApplyLive(d: Db, key: Blob, value: Blob, lease: int, rev: nat): Db {
    ApplyGiven(d, key, value, lease, rev, None)
  }

  function DeleteLive(d: Db, key: Blob, rev: nat): Db {
    if Live(d.mem.keys, key) then
      d.(mem := ApplyDelete(d.mem, key, rev), watchers := NotifyAll(d.watchers, DeleteEvent(d.mem.keys, key, rev)))
    else d
  }

  // ------------------------------------------------------------------ requests

  datatype PutReq = PutReq(key: Blob, value: Blob, lease: int, ignoreValue: bool, ignoreLease: bool, prevKv: bool)
  datatype DeleteReq = DeleteReq(key: Blob, rangeEnd: Blob, prevKv: bool)
  datatype DeleteResp = DeleteResp(deleted: nat, prevKvs: seq<Blob>)

  function ValidatePut(s: State, req: PutReq): Option<Error> {
    var live := LiveEntry(KeysOf(s), req.key);
    if req.key == [] then Some(KeyNotProvided)
    else if req.ignoreValue && req.value != [] then Some(ValueProvided)
    else if req.ignoreLease && req.lease != 0 then Some(LeaseProvided)
    else if (req.ignoreValue || req.ignoreLease) && live.None? then Some(KeyNotFound)
    else
      var lease := PutLease(KeysOf(s), req);
      if lease != 0 && lease !in s.leases then Some(LeaseNotFound) else None
  }

  function PutValue(keys: Keys, req: PutReq): Blob {
    if req.ignoreValue && Live(keys, req.key) then keys[req.key].value else req.value
  }

  function PutLease(keys: Keys, req: PutReq): int {
    if req.ignoreLease && Live(keys, req.key) then keys[req.key].lease else req.lease
  }

  /** Apply a put at a revision the caller owns; answers with the previous blob when asked. */
  function PutAt(s: State, req: PutReq, rev: nat): Outcome<Blob> {
    var keys := KeysOf(s);
    if (req.ignoreValue || req.ignoreLease) && !Live(keys, req.key) then Outcome(s, Err(KeyNotFound))
    else
      var value, lease := PutValue(keys, req), PutLease(keys, req);
      if lease != 0 && lease !in s.leases then Outcome(s, Err(LeaseNotFound))
      else
        var logged := s.db.(log := s.db.log + [PutRecord(keys, req.key, value, lease, rev)]);
        Outcome(s.(db := ApplyLive(logged, req.key, value, lease, rev)),
                Ok(if req.prevKv then PrevBytes(keys, req.key) else []))
  }

  function LiveMatching(keys: Keys, bound: RangeBound): set<Blob> {
    set k | k in keys && Alive(keys[k]) && Matches(bound, k)
  }

  function DeleteRecords(keys: Keys, ks: seq<Blob>, rev: nat): seq<Record>
    requires forall k :: k in ks ==> Live(keys, k)
  {
    seq(|ks|, i requires 0 <= i < |ks| => DeleteRecord(keys, ks[i], rev))
  }

  /** Tombstone the keys one after the other. */
  function DeleteEach(d: Db, ks: seq<Blob>, rev: nat): Db {
    if ks == [] then d else DeleteLive(DeleteEach(d, ks[..|ks| - 1], rev), ks[|ks| - 1], rev)
  }

  /** Log the deletes of live keys `ks` as one batch, then apply them. */
  function DeleteBatch(d: Db, ks: seq<Blob>, rev: nat): Db
    requires forall k :: k in ks ==> Live(d.mem.keys, k)
  {
    DeleteEach(d.(log := d.log + DeleteRecords(d.mem.keys, ks, rev)), ks, rev)
  }

  function KeysToDelete(keys: Keys, bound: RangeBound): (ks: seq<Blob>)
    ensures forall k :: k in ks <==> k in LiveMatching(keys, bound)
  {
    var ks := Sorted(LiveMatching(keys, bound));
    assert forall k :: k in ks <==> k in Elements(ks);
    ks
  }

  lemma PointKeys(keys: Keys, key: Blob)
    ensures KeysToDelete(keys, Point(key)) == if Live(keys, key) then [key] else []
  {
    var live := LiveMatching(keys, Point(key));
    var ks := if Live(keys, key) then [key] else [];
    assert Elements(ks) == live;
    SortedAscends(live);
    AscendingUnique(ks, Sorted(live));
  }

  function PrevBlobs(keys: Keys, ks: seq<Blob>): seq<Blob> {
    seq(|ks|, i requires 0 <= i < |ks| => PrevBytes(keys, ks[i]))
  }

  function DeleteRangeAt(s: State, req: DeleteReq, rev: nat): Outcome<DeleteResp> {
    var ks := KeysToDelete(KeysOf(s), ResolveRange(req.key, req.rangeEnd));
    Outcome(s.(db := DeleteBatch(s.db, ks, rev)),
            Ok(DeleteResp(|ks|, if req.prevKv then PrevBlobs(KeysOf(s), ks) else [])))
  }

  function Put(s: State, req: PutReq): Outcome<Blob> {
    var e := ValidatePut(s, req);
    if e.Some? then Outcome(s, Err(e.value)) else PutAt(s.(nextRev := s.nextRev + 1), req, s.nextRev)
  }

  /** A range delete takes a revision even when it matches nothing. */
  function DeleteRange(s: State, req: DeleteReq): Outcome<DeleteResp> {
    if req.key == [] then Outcome(s, Err(KeyNotProvided))
    else DeleteRangeAt(s.(nextRev := s.nextRev + 1), req, s.nextRev)
  }

  function Compact(s: State, rev: nat): Outcome<()> {
    if rev > CurrentRevision(s) then Outcome(s, Err(FutureRevision))
    else if rev <= s.compactRev then Outcome(s, Err(RevisionCompacted))
    else Outcome(s.(compactRev := rev), Ok(()))
  }

  // -------------------------------------------------------------------- leases

  const LEASE_MAX_TTL: int := 0x7FFF_FFFF_FFFF_FFFF / 1_000_000_000 - 1
  const LEASE_MIN_TTL: int := 2

  function LeaseGrant(s: State, id: int, ttl: int, now: nat): Outcome<int> {
    if ttl > LEASE_MAX_TTL then Outcome(s, Err(TtlTooLarge))
    else
      var t := if ttl < LEASE_MIN_TTL then LEASE_MIN_TTL else ttl;
      var lid := if id != 0 then id else s.nextLeaseId;
      var s' := if id != 0 then s else s.(nextLeaseId := s.nextLeaseId + 1);
      if lid in s.leases then Outcome(s', Err(LeaseExists))
      else Outcome(s'.(leases := s'.leases[lid := Lease(t, now + t)]), Ok(lid))
  }

  function LeaseKeys(keys: Keys, id: int): (ks: seq<Blob>)
    ensures forall k :: k in ks <==> Live(keys, k) && keys[k].lease == id
  {
    var ks := Sorted(set k | k in keys && keys[k].lease == id && Alive(keys[k]));
    assert forall k :: k in ks <==> k in Elements(ks);
    ks
  }

  /** Delete every live key attached to a lease, at one new revision; no revision if there is none. */
  function DeleteKeysForLease(s: State, id: int): State {
    var ks := LeaseKeys(KeysOf(s), id);
    if ks == [] then s else s.(nextRev := s.nextRev + 1, db := DeleteBatch(s.db, ks, s.nextRev))
  }

  function DropLease(s: State, id: int): State {
    DeleteKeysForLease(s.(leases := s.leases - {id}), id)
  }

  function LeaseRevoke(s: State, id: int): Outcome<()> {
    if id !in s.leases then Outcome(s, Err(LeaseNotFound)) else Outcome(DropLease(s, id), Ok(()))
  }

  function LeaseKeepAlive(s: State, id: int, now: nat): Outcome<int> {
    if id !in s.leases then Outcome(s, Err(LeaseNotFound))
    else
      var ttl := s.leases[id].ttl;
      Outcome(s.(leases := s.leases[id := Lease(ttl, now + ttl)]), Ok(ttl))
  }

  predicate IsLeastId(m: int, ids: set<int>) {
    m in ids && forall i :: i in ids ==> m <= i
  }

  lemma {:induction false} LeastIdExists(ids: set<int>) returns (m: int)
    requires ids != {}
    ensures IsLeastId(m, ids)
    decreases |ids|
  {
    assert (forall x :: x !in ids) ==> ids == {};
    var x :| x in ids;
    var rest := ids - {x};
    assert forall i :: i in ids <==> i == x || i in rest;
    if rest == {} {
      m := x;
    } else {
      m := LeastIdExists(rest);
      if x < m { m := x; }
    }
  }

  function LeastId(ids: set<int>): (m: int)
    requires ids != {}
    ensures IsLeastId(m, ids)
  {
    assert exists m :: IsLeastId(m, ids) by { var m := LeastIdExists(ids); }
    var m :| m in ids && IsLeastId(m, ids);
    m
  }

  /** Lease ids in iteration order. */
  function IdsInOrder(ids: set<int>): (s: seq<int>)
    ensures forall i :: i in s <==> i in ids
    decreases |ids|
  {
    if ids == {} then [] else var m := LeastId(ids); [m] + IdsInOrder(ids - {m})
  }

  function Expired(leases: map<int, Lease>, now: nat): set<int> {
    set id | id in leases && leases[id].expiresAt <= now
  }

  function DropEach(s: State, ids: seq<int>): State {
    if ids == [] then s else DropLease(DropEach(s, ids[..|ids| - 1]), ids[|ids| - 1])
  }

  /** One turn of the expiry task at time `now`: each expired lease goes at its own revision. */
  function Expire(s: State, now: nat): State {
    DropEach(s, IdsInOrder(Expired(s.leases, now)))
  }
}
