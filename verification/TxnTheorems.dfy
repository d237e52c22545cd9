/** What transactions guarantee: one revision, disjoint writes, and writes that commute. */
module TxnTheorems {
  import opened Bytes
  import opened Wal
  import opened Ranges
  import opened KeyMap
  import opened StoreSpec
  import opened TxnSpec
  import opened History
  import opened Sends
  import opened Runs

  // ----------------------------------------------------------------- one revision

  lemma {:induction false} ReplayStampsEntries(m: Mem, recs: seq<Record>, rev: nat, k: Blob)
    requires rev > 0 && forall r :: r in recs ==> r.modRev == rev
    ensures var keys := ReplayFrom(m, recs).keys;
            Entry(keys, k) == Entry(m.keys, k) || (k in keys && LastRev(keys[k]) == rev)
  {
    if recs != [] {
      assert recs[|recs| - 1] in recs && forall r :: r in recs[..|recs| - 1] ==> r in recs;
      ReplayStampsEntries(m, recs[..|recs| - 1], rev, k);
    }
  }

  /** Everything that separates `d'` from `d` happened at `rev`: each new record and each changed
      entry carries it, and a read at any earlier revision gives the same answer. */
  ghost predicate AtOneRevision(d: Db, d': Db, rev: nat) {
    d.log <= d'.log
    && (forall r :: r in d'.log[|d.log|..] ==> r.modRev == rev)
    && (forall k :: Entry(d'.mem.keys, k) == Entry(d.mem.keys, k) || (k in d'.mem.keys && LastRev(d'.mem.keys[k]) == rev))
    && forall t: nat :: t < rev ==> Snapshot(d'.log, t) == Snapshot(d.log, t)
  }

  lemma AppendsAtOneRevision(d: Db, d': Db, rev: nat)
    requires Appends(d, d', rev, rev + 1) && rev > 0
    ensures AtOneRevision(d, d', rev)
  {
    hide SendAll, Issued, Snapshot, ReplayFrom;
    var recs := d'.log[|d.log|..];
    SendAllParts(d, recs);
    assert d'.log == d.log + recs;
    forall k ensures Entry(d'.mem.keys, k) == Entry(d.mem.keys, k) || (k in d'.mem.keys && LastRev(d'.mem.keys[k]) == rev) {
      ReplayStampsEntries(d.mem, recs, rev, k);
    }
    forall t: nat | t < rev ensures Snapshot(d'.log, t) == Snapshot(d.log, t) {
      SnapshotStable(d.log, recs, t);
    }
  }

  /** One revision per transaction, in any state, nested ones included and whether or not it succeeds:
      the clock moves by at most one, a transaction that takes no revision changes nothing, and all it
      writes happens at the one revision it took. */
  lemma OneRevisionPerTxn(s: State, t: TxnReq)
    requires s.nextRev > 0
    ensures var s' := Txn(s, t).state;
            s.nextRev <= s'.nextRev <= s.nextRev + 1
            && (s'.nextRev == s.nextRev ==> s' == s)
            && AtOneRevision(s.db, s'.db, s.nextRev)
  {
    hide AtOneRevision, Appends, ApplyOps;
    AppendsNothing(s.db, s.nextRev, s.nextRev + 1);
    ApplyOpsAppends(Progress(s, None, None), Branch(KeysOf(s), t), 0);
    AppendsAtOneRevision(s.db, Txn(s, t).state.db, s.nextRev);
  }

  // -------------------------------------------------------------- disjoint writes

  /** No key is written by two of the bounds. */
  ghost predicate Disjoint(bounds: seq<RangeBound>) {
    forall i, j, k :: 0 <= i < j < |bounds| ==> !(Matches(bounds[i], k) && Matches(bounds[j], k))
  }

  /** A branch whose keys are all given is rejected exactly when two of its writes share a key. */
  lemma BranchCheckIsExact(ops: seq<Op>)
    requires CheckOps(ops).None?
    ensures CheckBranch(ops).None? <==> Disjoint(WriteBounds(ops))
  {
    var bounds := WriteBounds(ops);
    if Overlapping(bounds) {
      var i, j :| 0 <= i < j < |bounds| && IntervalsOverlap(BoundInterval(bounds[i]), BoundInterval(bounds[j]));
      OverlapIsExact(bounds[i], bounds[j]);
      var k :| Matches(bounds[i], k) && Matches(bounds[j], k);
      assert !Disjoint(bounds);
    } else {
      forall i, j, k | 0 <= i < j < |bounds| ensures !(Matches(bounds[i], k) && Matches(bounds[j], k)) {
        OverlapIsExact(bounds[i], bounds[j]);
      }
    }
  }

  // --------------------------------------------------------------- writes commute

  predicate IsWrite(op: Op) { op.PutOp? || op.DeleteOp? }

  predicate Touches(op: Op, k: Blob) {
    match op
    case PutOp(p) => k == p.key
    case DeleteOp(d) => Matches(ResolveRange(d.key, d.rangeEnd), k)
    case _ => false
  }

  /** The effect of one write on the key map at a fixed revision; `None` if it is refused. */
  function Effect(keys: Keys, leases: map<int, Lease>, op: Op, rev: nat): Option<Keys> {
    match op
    case PutOp(req) =>
      var s := State(Db(Mem(keys, 0), [], []), leases, 0, 0, 0);
      if ValidatePut(s, req).Some? then None
      else Some(keys[req.key := PutEntry(Entry(keys, req.key), req.key, PutValue(keys, req), PutLease(keys, req), rev, None)])
    case DeleteOp(req) =>
      if req.key == [] then None
      else Some(map k | k in keys ::
                  if Alive(keys[k]) && Matches(ResolveRange(req.key, req.rangeEnd), k)
                  then keys[k].(deleteRev := rev) else keys[k])
    case _ => Some(keys)
  }

  function Effects(keys: Keys, leases: map<int, Lease>, ops: seq<Op>, rev: nat): Option<Keys> {
    if ops == [] then Some(keys)
    else
      var prefix := Effects(keys, leases, ops[..|ops| - 1], rev);
      if prefix.None? then None else Effect(prefix.value, leases, ops[|ops| - 1], rev)
  }

  /** The entry an effect leaves at `k`. */
  function EntryAfter(keys: Option<Keys>, k: Blob): Option<Option<KeyState>> {
    if keys.None? then None else Some(Entry(keys.value, k))
  }

  /** A write leaves the keys outside its bound alone. */
  lemma EffectFrame(keys: Keys, leases: map<int, Lease>, op: Op, rev: nat, k: Blob)
    requires !Touches(op, k) && Effect(keys, leases, op, rev).Some?
    ensures Entry(Effect(keys, leases, op, rev).value, k) == Entry(keys, k)
  {}

  /** Two maps agree on everything a write may touch. */
  ghost predicate AgreeOn(op: Op, a: Keys, b: Keys) {
    forall k :: Touches(op, k) ==> Entry(a, k) == Entry(b, k)
  }

  /** What a write does to its own keys depends on those keys only. */
  lemma EffectLocal(a: Keys, b: Keys, leases: map<int, Lease>, op: Op, rev: nat, k: Blob)
    requires AgreeOn(op, a, b)
    ensures Effect(a, leases, op, rev).Some? <==> Effect(b, leases, op, rev).Some?
    ensures Touches(op, k) ==> EntryAfter(Effect(a, leases, op, rev), k) == EntryAfter(Effect(b, leases, op, rev), k)
  {
    if op.PutOp? { assert Touches(op, op.put.key); }
    if Touches(op, k) { assert Entry(a, k) == Entry(b, k); }
  }

  ghost predicate Apart(p: Op, q: Op) {
    forall k :: !(Touches(p, k) && Touches(q, k))
  }

  lemma MapsEqual(a: Keys, b: Keys)
    requires forall k :: Entry(a, k) == Entry(b, k)
    ensures a == b
  {
    forall k ensures k in a <==> k in b { assert Entry(a, k) == Entry(b, k); }
    forall k | k in a ensures a[k] == b[k] { assert Entry(a, k) == Entry(b, k); }
  }

  function Then(keys: Option<Keys>, leases: map<int, Lease>, op: Op, rev: nat): Option<Keys> {
    if keys.None? then None else Effect(keys.value, leases, op, rev)
  }

  /** Two writes on disjoint keys give the same map in either order. */
  lemma WritesSwap(keys: Keys, leases: map<int, Lease>, p: Op, q: Op, rev: nat)
    requires Apart(p, q)
    ensures Then(Effect(keys, leases, p, rev), leases, q, rev) == Then(Effect(keys, leases, q, rev), leases, p, rev)
  {
    var kp, kq := Effect(keys, leases, p, rev), Effect(keys, leases, q, rev);
    if kp.Some? {
      forall k | Touches(q, k) ensures Entry(kp.value, k) == Entry(keys, k) { EffectFrame(keys, leases, p, rev, k); }
      EffectLocal(kp.value, keys, leases, q, rev, []);
    }
    if kq.Some? {
      forall k | Touches(p, k) ensures Entry(kq.value, k) == Entry(keys, k) { EffectFrame(keys, leases, q, rev, k); }
      EffectLocal(kq.value, keys, leases, p, rev, []);
    }
    if kp.Some? && kq.Some? {
      var pq, qp := Effect(kp.value, leases, q, rev).value, Effect(kq.value, leases, p, rev).value;
      forall k ensures Entry(pq, k) == Entry(qp, k) {
        EffectLocal(kp.value, keys, leases, q, rev, k);
        EffectLocal(kq.value, keys, leases, p, rev, k);
        if !Touches(p, k) { EffectFrame(kq.value, leases, p, rev, k); EffectFrame(keys, leases, p, rev, k); }
        if !Touches(q, k) { EffectFrame(kp.value, leases, q, rev, k); EffectFrame(keys, leases, q, rev, k); }
      }
      MapsEqual(pq, qp);
    }
  }

  /** Each operation is apart from all others. */
  ghost predicate Independent(ops: seq<Op>) {
    forall i, j :: 0 <= i < j < |ops| ==> Apart(ops[i], ops[j])
  }

  ghost predicate ApartFrom(op: Op, b: seq<Op>) {
    forall i :: 0 <= i < |b| ==> Apart(op, b[i])
  }

  lemma EffectsSnoc(keys: Keys, leases: map<int, Lease>, ops: seq<Op>, op: Op, rev: nat)
    ensures Effects(keys, leases, ops + [op], rev) == Then(Effects(keys, leases, ops, rev), leases, op, rev)
  {
    assert (ops + [op])[..|ops|] == ops;
  }

  lemma Reassociate(a: seq<Op>, op: Op, b: seq<Op>, q: Op)
    ensures a + [op] + (b + [q]) == (a + [op] + b) + [q] && a + (b + [q]) == (a + b) + [q]
  {}

  /** A write that is apart from everything after it can be moved to the end. */
  lemma {:induction false} MoveToEnd(keys: Keys, leases: map<int, Lease>, a: seq<Op>, op: Op, b: seq<Op>, rev: nat)
    requires ApartFrom(op, b)
    ensures Effects(keys, leases, a + [op] + b, rev) == Effects(keys, leases, a + b + [op], rev)
  {
    if b == [] {
      assert a + [op] + b == a + b + [op];
    } else {
      var b', q := b[..|b| - 1], b[|b| - 1];
      assert b == b' + [q];
      MoveToEnd(keys, leases, a, op, b', rev);
      Reassociate(a, op, b', q);
      EffectsSnoc(keys, leases, a + [op] + b', q, rev);
      EffectsSnoc(keys, leases, a + b', op, rev);
      EffectsSnoc(keys, leases, a + b', q, rev);
      EffectsSnoc(keys, leases, a + b, op, rev);
      var base := Effects(keys, leases, a + b', rev);
      if base.Some? { WritesSwap(base.value, leases, op, q, rev); }
    }
  }

  lemma IndependentPart(ops: seq<Op>, i: nat)
    requires Independent(ops) && i < |ops|
    ensures Independent(ops[..i] + ops[i + 1..])
    ensures ApartFrom(ops[i], ops[i + 1..])
    ensures ops == ops[..i] + [ops[i]] + ops[i + 1..]
  {
    var rest := ops[..i] + ops[i + 1..];
    forall a, b | 0 <= a < b < |rest| ensures Apart(rest[a], rest[b]) {
      var a', b' := if a < i then a else a + 1, if b < i then b else b + 1;
      assert rest[a] == ops[a'] && rest[b] == ops[b'];
    }
  }

  lemma DropOne(ops: seq<Op>, i: nat)
    requires i < |ops|
    ensures multiset(ops) == multiset(ops[..i] + ops[i + 1..]) + multiset{ops[i]}
  {
    assert ops == ops[..i] + [ops[i]] + ops[i + 1..];
  }

  lemma RemoveCommon(ops: seq<Op>, ops': seq<Op>, i: nat, j: nat)
    requires multiset(ops) == multiset(ops') && i < |ops| && j < |ops'| && ops[i] == ops'[j]
    ensures multiset(ops[..i] + ops[i + 1..]) == multiset(ops'[..j] + ops'[j + 1..])
  {
    DropOne(ops, i);
    DropOne(ops', j);
    var a, b := multiset(ops[..i] + ops[i + 1..]), multiset(ops'[..j] + ops'[j + 1..]);
    assert a == multiset(ops) - multiset{ops[i]} && b == multiset(ops') - multiset{ops[i]};
  }

  lemma SameElements(ops: seq<Op>, ops': seq<Op>, i: nat) returns (j: nat)
    requires multiset(ops) == multiset(ops') && i < |ops|
    ensures j < |ops'| && ops'[j] == ops[i]
  {
    assert ops[i] in multiset(ops');
    j :| 0 <= j < |ops'| && ops'[j] == ops[i];
  }

  /** Independent writes give the same map in any order. */
  lemma {:induction false} EffectsCommute(keys: Keys, leases: map<int, Lease>, ops: seq<Op>, ops': seq<Op>, rev: nat)
    requires Independent(ops) && Independent(ops') && multiset(ops) == multiset(ops')
    ensures Effects(keys, leases, ops, rev) == Effects(keys, leases, ops', rev)
    decreases |ops|
  {
    if ops == [] {
      assert |multiset(ops')| == 0;
      assert ops' == [];
    } else {
      var n := |ops| - 1;
      var i := SameElements(ops, ops', n);
      var op, rest := ops[n], ops'[..i] + ops'[i + 1..];
      IndependentPart(ops, n);
      IndependentPart(ops', i);
      RemoveCommon(ops, ops', n, i);
      assert ops[..n] + ops[n + 1..] == ops[..n];
      EffectsCommute(keys, leases, ops[..n], rest, rev);
      MoveToEnd(keys, leases, ops'[..i], op, ops'[i + 1..], rev);
      EffectsSnoc(keys, leases, rest, op, rev);
    }
  }

  // ------------------------------------------- from effects back to transactions

  /** A flat branch: puts and range deletes only, with keys that fit their length prefix. */
  predicate Flat(ops: seq<Op>) {
    forall op :: op in ops ==> IsWrite(op) && SizedOp(op)
  }

  lemma {:induction false} FlatBounds(ops: seq<Op>)
    requires Flat(ops)
    ensures |WriteBounds(ops)| == |ops|
    ensures forall i :: 0 <= i < |ops| ==> WriteBound(ops[i]) == Some(WriteBounds(ops)[i])
  {
    if ops != [] {
      assert ops[|ops| - 1] in ops;
      FlatBounds(ops[..|ops| - 1]);
    }
  }

  /** The operation names a key; a nested transaction is accepted branch by branch. */
  predicate KeyGiven(op: Op) {
    match op
    case PutOp(p) => p.key != []
    case DeleteOp(d) => d.key != []
    case RangeOp(r) => r.key != []
    case TxnOp(t) => CheckBranch(t.success).None? && CheckBranch(t.failure).None?
    case NoOp => true
  }

  /** Operations are accepted one by one. */
  lemma {:induction false} CheckOpsIsPointwise(ops: seq<Op>)
    ensures CheckOps(ops).None? <==> forall op :: op in ops ==> KeyGiven(op)
  {
    if ops != [] {
      var init, last := ops[..|ops| - 1], ops[|ops| - 1];
      CheckOpsIsPointwise(init);
      assert ops == init + [last];
      assert forall op :: op in ops <==> op in init || op == last;
      assert CheckOps(ops).None? <==> CheckOps(init).None? && KeyGiven(last);
    }
  }

  /** Without nested transactions the only error before the overlap check is a missing key. */
  lemma {:induction false} FlatError(ops: seq<Op>)
    requires Flat(ops) && CheckOps(ops).Some?
    ensures CheckOps(ops) == Some(KeyNotProvided)
  {
    var init, last := ops[..|ops| - 1], ops[|ops| - 1];
    assert last in ops && forall op :: op in init ==> op in ops;
    if CheckOps(init).Some? { FlatError(init); }
  }

  /** A flat branch is accepted exactly when its keys are given and its writes are independent; a
      missing key is reported first. */
  lemma FlatCheckIsExact(ops: seq<Op>)
    requires Flat(ops)
    ensures CheckBranch(ops).None? <==> (forall op :: op in ops ==> KeyGiven(op)) && Independent(ops)
    ensures CheckBranch(ops).Some? ==>
              CheckBranch(ops) == Some(if forall op :: op in ops ==> KeyGiven(op) then DuplicateKey else KeyNotProvided)
  {
    if CheckOps(ops).Some? { FlatError(ops); }
    FlatBounds(ops);
    CheckOpsIsPointwise(ops);
    var bounds := WriteBounds(ops);
    if CheckOps(ops).None? {
      BranchCheckIsExact(ops);
      if Disjoint(bounds) {
        forall i, j | 0 <= i < j < |ops| ensures Apart(ops[i], ops[j]) {
          assert WriteBound(ops[i]) == Some(bounds[i]) && WriteBound(ops[j]) == Some(bounds[j]);
        }
      }
      if Independent(ops) {
        forall i, j, k | 0 <= i < j < |bounds| ensures !(Matches(bounds[i], k) && Matches(bounds[j], k)) {
          assert WriteBound(ops[i]) == Some(bounds[i]) && WriteBound(ops[j]) == Some(bounds[j]);
          assert Apart(ops[i], ops[j]);
          assert !(Touches(ops[i], k) && Touches(ops[j], k));
        }
      }
    }
  }

  lemma ApartSymmetric(p: Op, q: Op)
    requires Apart(p, q)
    ensures Apart(q, p)
  {}

  lemma InsertIndependent(ops: seq<Op>, i: nat)
    requires i < |ops| && Independent(ops[..i] + ops[i + 1..])
    requires forall o :: o in ops[..i] + ops[i + 1..] ==> Apart(o, ops[i])
    ensures Independent(ops)
  {
    var rest := ops[..i] + ops[i + 1..];
    forall a, b | 0 <= a < b < |ops| ensures Apart(ops[a], ops[b]) {
      var a', b' := if a < i then a else a - 1, if b < i then b else b - 1;
      if a != i { assert rest[a'] == ops[a] && ops[a] in rest; }
      if b != i { assert rest[b'] == ops[b] && ops[b] in rest; }
      if a == i { ApartSymmetric(ops[b], ops[a]); }
      if a != i && b != i { assert a' < b' && Apart(rest[a'], rest[b']); }
    }
  }

  /** Independence does not depend on the order. */
  lemma {:induction false} IndependentInAnyOrder(ops: seq<Op>, ops': seq<Op>)
    requires Independent(ops) && multiset(ops) == multiset(ops')
    ensures Independent(ops')
    decreases |ops|
  {
    if ops == [] {
      assert |multiset(ops')| == 0;
    } else {
      var n := |ops| - 1;
      var i := SameElements(ops, ops', n);
      var rest := ops'[..i] + ops'[i + 1..];
      IndependentPart(ops, n);
      RemoveCommon(ops, ops', n, i);
      assert ops[..n] + ops[n + 1..] == ops[..n];
      IndependentInAnyOrder(ops[..n], rest);
      forall o | o in rest ensures Apart(o, ops[n]) {
        assert o in multiset(rest);
        assert o in multiset(ops[..n]);
        var a :| 0 <= a < n && ops[a] == o;
        assert Apart(ops[a], ops[n]);
      }
      InsertIndependent(ops', i);
    }
  }

  lemma DeleteIsEffect(s: State, req: DeleteReq, rev: nat)
    requires rev > 0 && req.key != []
    ensures Effect(KeysOf(s), s.leases, DeleteOp(req), rev) == Some(KeysOf(DeleteRangeAt(s, req, rev).state))
  {
    var keys, bound := KeysOf(s), ResolveRange(req.key, req.rangeEnd);
    var ks := KeysToDelete(keys, bound);
    var d := s.db.(log := s.db.log + DeleteRecords(keys, ks, rev));
    var after, expected := KeysOf(DeleteRangeAt(s, req, rev).state), Effect(keys, s.leases, DeleteOp(req), rev).value;
    forall k ensures Entry(after, k) == Entry(expected, k) {
      DeleteEachKills(d, ks, rev, k);
      assert k in ks <==> k in LiveMatching(keys, bound);
    }
    MapsEqual(after, expected);
  }

  /** In a transaction, a flat operation does to the keys exactly what its effect says. */
  lemma ApplyOpIsEffect(p: Progress, op: Op, depth: nat)
    requires Clocked(p) && RevOf(p) > 0 && p.error.None? && IsWrite(op)
    ensures var q, e := ApplyOp(p, op, depth), Effect(KeysOf(p.state), p.state.leases, op, RevOf(p));
            (q.error.None? <==> e.Some?) && (e.Some? ==> KeysOf(q.state) == e.value && q.rev.Some?)
  {
    match op
    case PutOp(req) =>
    case DeleteOp(req) =>
      if req.key != [] { DeleteIsEffect(EnsureRev(p).state, req, RevOf(p)); }
  }

  lemma {:induction false} ApplyOpsIsEffects(p: Progress, ops: seq<Op>, depth: nat)
    requires Clocked(p) && RevOf(p) > 0 && p.error.None? && Flat(ops)
    ensures var q, e := ApplyOps(p, ops, depth), Effects(KeysOf(p.state), p.state.leases, ops, RevOf(p));
            (q.error.None? <==> e.Some?) && (e.Some? ==> KeysOf(q.state) == e.value)
            && (ops != [] && q.error.None? ==> q.state.nextRev == RevOf(p) + 1)
  {
    hide Appends, ApplyOp, Effect;
    if ops != [] {
      var init, op := ops[..|ops| - 1], ops[|ops| - 1];
      assert op in ops && Flat(init);
      ApplyOpsIsEffects(p, init, depth);
      ApplyOpsAppends(p, init, depth);
      var q := ApplyOps(p, init, depth);
      if q.error.None? {
        ApplyOpIsEffect(q, op, depth);
        ApplyOpAppends(q, op, depth);
      }
    }
  }

  lemma OpsKeepCount(p: Progress, ops: seq<Op>, depth: nat)
    requires Clocked(p) && RevOf(p) > 0 && p.state.db.mem.keyCount == |LiveKeys(KeysOf(p.state))|
    ensures var q := ApplyOps(p, ops, depth); q.state.db.mem.keyCount == |LiveKeys(KeysOf(q.state))|
  {
    hide SendAll, Issued, ReplayFrom, ApplyOps, LiveKeys;
    ApplyOpsAppends(p, ops, depth);
    var d, d' := p.state.db, ApplyOps(p, ops, depth).state.db;
    SendAllParts(d, d'.log[|d.log|..]);
    ReplayCounts(d.mem, d'.log[|d.log|..]);
  }

  /** Accepted branches commute: if a flat branch passes validation, so does every reordering of
      it, the reordering succeeds exactly when the branch does, and then both leave the same key map,
      live-key count and clock. */
  lemma AcceptedBranchCommutes(s: State, ops: seq<Op>, ops': seq<Op>)
    requires s.nextRev > 0 && s.db.mem.keyCount == |LiveKeys(KeysOf(s))|
    requires Flat(ops) && multiset(ops) == multiset(ops') && CheckBranch(ops).None?
    ensures CheckBranch(ops').None?
    ensures var p := Progress(s, None, None);
            var q, q' := ApplyOps(p, ops, 0), ApplyOps(p, ops', 0);
            (q.error.None? <==> q'.error.None?)
            && (q.error.None? ==> q.state.db.mem == q'.state.db.mem && q.state.nextRev == q'.state.nextRev)
  {
    forall op | op in ops' ensures op in ops { assert op in multiset(ops'); assert op in multiset(ops); }
    FlatCheckIsExact(ops);
    IndependentInAnyOrder(ops, ops');
    FlatCheckIsExact(ops');
    EffectsCommute(KeysOf(s), s.leases, ops, ops', s.nextRev);
    var p := Progress(s, None, None);
    ApplyOpsIsEffects(p, ops, 0);
    ApplyOpsIsEffects(p, ops', 0);
    OpsKeepCount(p, ops, 0);
    OpsKeepCount(p, ops', 0);
    assert |ops| == |multiset(ops)| == |multiset(ops')| == |ops'|;
  }
}
