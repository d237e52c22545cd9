/** Transactions: duplicate-key validation, comparison, and application of a branch at one
    lazily allocated revision. */
module TxnSpec {
  import opened Bytes
  import opened Varint
  import opened Ranges
  import opened OrderedKeys
  import opened KeyMap
  import opened StoreSpec
  import opened Commits
  import opened Reads

  datatype Target = Version | Create | Mod | Value | LeaseId
  datatype Relation = Equal | Greater | Lesser | NotEqual

  /** A guard: `number` is compared for the numeric targets, `bytes` for the value. */
  datatype Compare = Compare(key: Blob, target: Target, relation: Relation, number: int, bytes: Blob)

  datatype Op =
    | RangeOp(range: RangeReq)
    | PutOp(put: PutReq)
    | DeleteOp(del: DeleteReq)
    | TxnOp(txn: TxnReq)
    | NoOp

  datatype TxnReq = TxnReq(compare: seq<Compare>, success: seq<Op>, failure: seq<Op>)

  // ------------------------------------------------------------------ compares

  function CompareNumber(relation: Relation, actual: int, expected: int): bool {
    match relation
    case Equal => actual == expected
    case Greater => actual > expected
    case Lesser => actual < expected
    case NotEqual => actual != expected
  }

  function CompareBytes(relation: Relation, actual: Blob, expected: Blob): bool {
    match relation
    case Equal => actual == expected
    case Greater => Less(expected, actual)
    case Lesser => Less(actual, expected)
    case NotEqual => actual != expected
  }

  /** A tombstone counts as an absent key: every numeric target reads 0, the value reads empty. */
  predicate EvalCompare(keys: Keys, c: Compare) {
    var e := LiveEntry(keys, c.key);
    match c.target
    case Version => CompareNumber(c.relation, if e.Some? then e.value.version else 0, c.number)
    case Create => CompareNumber(c.relation, if e.Some? then e.value.createRev else 0, c.number)
    case Mod => CompareNumber(c.relation, if e.Some? then e.value.modRev else 0, c.number)
    case Value => CompareBytes(c.relation, if e.Some? then e.value.value else [], c.bytes)
    case LeaseId => CompareNumber(c.relation, if e.Some? then e.value.lease else 0, c.number)
  }

  predicate EvalAll(keys: Keys, cs: seq<Compare>) {
    forall c :: c in cs ==> EvalCompare(keys, c)
  }

  function Branch(keys: Keys, t: TxnReq): seq<Op> {
    if EvalAll(keys, t.compare) then t.success else t.failure
  }

  // ---------------------------------------------------------------- validation

  /** The keys an operation may write. */
  function WriteBound(op: Op): Option<RangeBound> {
    match op
    case PutOp(p) => Some(Point(p.key))
    case DeleteOp(d) => Some(ResolveRange(d.key, d.rangeEnd))
    case _ => None
  }

  /** Bounds written directly by the operations of one branch, nested transactions excluded. */
  function WriteBounds(ops: seq<Op>): seq<RangeBound> {
    if ops == [] then []
    else
      var n := |ops| - 1;
      var rest := WriteBounds(ops[..n]);
      if WriteBound(ops[n]).Some? then rest + [WriteBound(ops[n]).value] else rest
  }

  predicate Overlapping(bounds: seq<RangeBound>) {
    exists i, j :: 0 <= i < j < |bounds| && IntervalsOverlap(BoundInterval(bounds[i]), BoundInterval(bounds[j]))
  }

  function CheckOp(op: Op): Option<Error>
    decreases op
  {
    match op
    case PutOp(p) => if p.key == [] then Some(KeyNotProvided) else None
    case DeleteOp(d) => if d.key == [] then Some(KeyNotProvided) else None
    case RangeOp(r) => if r.key == [] then Some(KeyNotProvided) else None
    case TxnOp(t) => var e := CheckBranch(t.success); if e.Some? then e else CheckBranch(t.failure)
    case NoOp => None
  }

  /** The first error in operation order. */
  function CheckOps(ops: seq<Op>): Option<Error>
    decreases ops, 0
  {
    if ops == [] then None
    else
      var e := CheckOps(ops[..|ops| - 1]);
      if e.Some? then e else CheckOp(ops[|ops| - 1])
  }

  function CheckBranch(ops: seq<Op>): Option<Error>
    decreases ops, 1
  {
    var e := CheckOps(ops);
    if e.Some? then e
    else if Overlapping(WriteBounds(ops)) then Some(DuplicateKey)
    else None
  }

  function CheckTxn(t: TxnReq): Option<Error> {
    var e := CheckBranch(t.success);
    if e.Some? then e else CheckBranch(t.failure)
  }

  // --------------------------------------------------------------- application

  /** State, the revision allocated so far, and the error that stopped the branch. Writes made
      before an error stay applied. */
  datatype Progress = Progress(state: State, rev: Option<nat>, error: Option<Error>)

  /** Allocate the transaction's revision on its first write. */
  function EnsureRev(p: Progress): Progress {
    if p.rev.Some? then p else p.(state := p.state.(nextRev := p.state.nextRev + 1), rev := Some(p.state.nextRev))
  }

  function ErrorOf<T>(r: Result<T, Error>): Option<Error> {
    match r
    case Ok(_) => None
    case Err(e) => Some(e)
  }

  function ApplyOp(p: Progress, op: Op, depth: nat): Progress
    decreases op
  {
    match op
    case RangeOp(_) => p
    case PutOp(req) =>
      var e := ValidatePut(p.state, req);
      if e.Some? then p.(error := e)
      else
        var q := EnsureRev(p);
        var o := PutAt(q.state, req, q.rev.UnwrapOr(0));
        q.(state := o.state, error := ErrorOf(o.result))
    case DeleteOp(req) =>
      if req.key == [] then p.(error := Some(KeyNotProvided))
      else
        var q := EnsureRev(p);
        var o := DeleteRangeAt(q.state, req, q.rev.UnwrapOr(0));
        q.(state := o.state, error := ErrorOf(o.result))
    case TxnOp(t) =>
      if depth >= 1 then p.(error := Some(NestedTxn))
      else if EvalAll(KeysOf(p.state), t.compare) then ApplyOps(p, t.success, depth + 1)
      else ApplyOps(p, t.failure, depth + 1)
    case NoOp => p
  }

  function ApplyOps(p: Progress, ops: seq<Op>, depth: nat): Progress
    decreases ops, 0
  {
    if ops == [] then p
    else
      var q := ApplyOps(p, ops[..|ops| - 1], depth);
      if q.error.Some? then q else ApplyOp(q, ops[|ops| - 1], depth)
  }

  /** The whole transaction under one lock; the result says which branch ran. */
  function Txn(s: State, t: TxnReq): Outcome<bool> {
    var e := CheckTxn(t);
    if e.Some? then Outcome(s, Err(e.value))
    else
      var p := ApplyOps(Progress(s, None, None), Branch(KeysOf(s), t), 0);
      Outcome(p.state, if p.error.Some? then Err(p.error.value) else Ok(EvalAll(KeysOf(s), t.compare)))
  }

  /** Put keys fit their length prefix, at every nesting level. */
  predicate SizedOp(op: Op)
    decreases op
  {
    match op
    case PutOp(p) => |p.key| < TWO32
    case TxnOp(t) => SizedOps(t.success) && SizedOps(t.failure)
    case _ => true
  }

  predicate SizedOps(ops: seq<Op>)
    decreases ops, 0
  {
    forall op :: op in ops ==> SizedOp(op)
  }

  /** Ranges the ordered map accepts, at every nesting level. */
  predicate ScannableOp(op: Op)
    decreases op
  {
    match op
    case DeleteOp(d) => Scannable(ResolveRange(d.key, d.rangeEnd))
    case RangeOp(r) => Scannable(ResolveRange(r.key, r.rangeEnd))
    case TxnOp(t) => ScannableOps(t.success) && ScannableOps(t.failure)
    case _ => true
  }

  predicate ScannableOps(ops: seq<Op>)
    decreases ops, 0
  {
    forall op :: op in ops ==> ScannableOp(op)
  }

  // --------------------------------------------- one revision per transaction

  /** The revision a transaction uses or would use. */
  function RevOf(p: Progress): nat { if p.rev.Some? then p.rev.value else p.state.nextRev }

  /** Between operations: the log invariant holds and the clock stands just past the revision. */
  ghost predicate InTxn(p: Progress) {
    if p.rev.Some? then p.rev.value > 0 && p.state.nextRev == p.rev.value + 1 && Recorded(p.state.db, p.rev.value)
    else p.state.nextRev > 0 && Recorded(p.state.db, p.state.nextRev - 1)
  }

  /** What running operations may do: commits at the transaction's one revision, nothing else. */
  ghost predicate Advances(p: Progress, q: Progress) {
    InTxn(q) && RevOf(q) == RevOf(p) && (p.rev.Some? ==> q.rev.Some?)
    && Batch(p.state.db, q.state.db, RevOf(p)) && (q.rev.None? ==> q.state == p.state)
    && q.state == p.state.(db := q.state.db, nextRev := q.state.nextRev)
  }

  lemma AdvancesReflexive(p: Progress)
    requires InTxn(p)
    ensures Advances(p, p)
  {
    CommitsAreBatch(p.state.db, [], RevOf(p));
  }

  lemma AdvancesTransitive(p: Progress, q: Progress, r: Progress)
    requires Advances(p, q) && Advances(q, r)
    ensures Advances(p, r)
  {
    BatchTransitive(p.state.db, q.state.db, r.state.db, RevOf(p));
  }

  lemma EnsureRevAdvances(p: Progress)
    requires InTxn(p)
    ensures var q := EnsureRev(p); q.rev == Some(RevOf(p)) && Recorded(q.state.db, RevOf(p)) && Advances(p, q)
  {
    CommitsAreBatch(p.state.db, [], RevOf(p));
  }

  lemma BatchAdvances(p: Progress, q: Progress)
    requires InTxn(p) && p.rev.Some? && Batch(p.state.db, q.state.db, p.rev.value)
    requires q.rev == p.rev && q.state == p.state.(db := q.state.db)
    ensures Advances(p, q)
  {
    BatchKeepsRecorded(p.state.db, q.state.db, p.rev.value);
  }

  lemma {:induction false} ApplyOpAdvances(p: Progress, op: Op, depth: nat)
    requires InTxn(p) && SizedOp(op)
    ensures Advances(p, ApplyOp(p, op, depth))
    decreases op
  {
    AdvancesReflexive(p);
    match op
    case PutOp(req) =>
      if ValidatePut(p.state, req).None? {
        var q := EnsureRev(p);
        EnsureRevAdvances(p);
        PutAtIsBatch(q.state, req, RevOf(p));
        BatchAdvances(q, ApplyOp(p, op, depth));
        AdvancesTransitive(p, q, ApplyOp(p, op, depth));
      }
    case DeleteOp(req) =>
      if req.key != [] {
        var q := EnsureRev(p);
        EnsureRevAdvances(p);
        RecordedMem(q.state.db, RevOf(p));
        DeleteRangeAtIsBatch(q.state, req, RevOf(p));
        BatchAdvances(q, ApplyOp(p, op, depth));
        AdvancesTransitive(p, q, ApplyOp(p, op, depth));
      }
    case TxnOp(t) =>
      if depth < 1 { ApplyOpsAdvances(p, Branch(KeysOf(p.state), t), depth + 1); }
    case _ =>
  }

  lemma {:induction false} ApplyOpsAdvances(p: Progress, ops: seq<Op>, depth: nat)
    requires InTxn(p) && SizedOps(ops)
    ensures Advances(p, ApplyOps(p, ops, depth))
    decreases ops, 0
  {
    if ops == [] {
      AdvancesReflexive(p);
    } else {
      var q := ApplyOps(p, ops[..|ops| - 1], depth);
      ApplyOpsAdvances(p, ops[..|ops| - 1], depth);
      if q.error.None? {
        ApplyOpAdvances(q, ops[|ops| - 1], depth);
        AdvancesTransitive(p, q, ApplyOp(q, ops[|ops| - 1], depth));
      }
    }
  }
}
