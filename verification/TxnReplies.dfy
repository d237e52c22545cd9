/** The reply tree of a transaction. Reads of a past revision cannot run under the write lock: they
    are set aside with their position in the tree and filled in afterwards. */
module TxnReplies {
  import opened Bytes
  import opened KvCodec
  import opened Wal
  import opened Sends
  import opened Ranges
  import opened OrderedKeys
  import opened HistoricalRead
  import opened KeyMap
  import opened StoreSpec
  import opened Reads
  import opened TxnSpec

  datatype Reply =
    | Blank
    | Ranged(range: RangeResp)
    | PutDone(prev: Blob)
    | Removed(del: DeleteResp)
    | Nested(succeeded: bool, replies: seq<Reply>)

  /** A chain of positions through nested transactions. */
  type Path = seq<nat>

  /** What the read set aside at a position returns when it finally runs. */
  type Answers = (Path, RangeReq) -> Result<RangeResp, Error>

  /** No read has run yet. */
  const PENDING: Answers := (_, _) => Err(ScanFailed)

  function AnswerAt(answer: Answers, path: Path, req: RangeReq): Reply {
    match answer(path, req)
    case Ok(resp) => Ranged(resp)
    case Err(_) => Blank
  }

  function CurrentRead(keys: Keys, req: RangeReq): RangeResp {
    Response(CurrentBlobs(keys, ResolveRange(req.key, req.rangeEnd), req.filter), req)
  }

  // ------------------------------------------------------------- the intended tree

  /** The reply to one operation, in the state its predecessors left. */
  function ReplyTo(p: Progress, op: Op, depth: nat, path: Path, answer: Answers): Reply
    decreases op
  {
    match op
    case RangeOp(req) => if req.revision > 0 then AnswerAt(answer, path, req) else Ranged(CurrentRead(KeysOf(p.state), req))
    case PutOp(req) => (match PutAt(EnsureRev(p).state, req, EnsureRev(p).rev.UnwrapOr(0)).result case Ok(prev) => PutDone(prev) case Err(_) => Blank)
    case DeleteOp(req) => (match DeleteRangeAt(EnsureRev(p).state, req, EnsureRev(p).rev.UnwrapOr(0)).result case Ok(d) => Removed(d) case Err(_) => Blank)
    case TxnOp(t) =>
      if EvalAll(KeysOf(p.state), t.compare) then Nested(true, RepliesTo(p, t.success, depth + 1, path, answer))
      else Nested(false, RepliesTo(p, t.failure, depth + 1, path, answer))
    case NoOp => Blank
  }

  function RepliesTo(p: Progress, ops: seq<Op>, depth: nat, path: Path, answer: Answers): (rs: seq<Reply>)
    ensures |rs| == |ops|
    decreases ops, 0
  {
    if ops == [] then []
    else
      var n := |ops| - 1;
      RepliesTo(p, ops[..n], depth, path, answer) + [ReplyTo(ApplyOps(p, ops[..n], depth), ops[n], depth, path + [n], answer)]
  }

  // ------------------------------------------------------------ the reads set aside

  datatype SetAside = SetAside(path: Path, req: RangeReq)

  function DeferredOf(p: Progress, op: Op, depth: nat, path: Path): seq<SetAside>
    decreases op
  {
    match op
    case RangeOp(req) => if req.revision > 0 then [SetAside(path, req)] else []
    case TxnOp(t) =>
      if EvalAll(KeysOf(p.state), t.compare) then DeferredIn(p, t.success, depth + 1, path)
      else DeferredIn(p, t.failure, depth + 1, path)
    case _ => []
  }

  function DeferredIn(p: Progress, ops: seq<Op>, depth: nat, path: Path): seq<SetAside>
    decreases ops, 0
  {
    if ops == [] then []
    else
      var n := |ops| - 1;
      DeferredIn(p, ops[..n], depth, path) + DeferredOf(ApplyOps(p, ops[..n], depth), ops[n], depth, path + [n])
  }

  // -------------------------------------------------------------------- patching

  /** `patch_deferred_range`. */
  function Patch(replies: seq<Reply>, path: Path, reply: Reply): (rs: seq<Reply>)
    ensures |rs| == |replies|
    decreases |path|
  {
    if path == [] || path[0] >= |replies| then replies
    else if |path| == 1 then replies[path[0] := reply]
    else match replies[path[0]]
      case Nested(ok, inner) => replies[path[0] := Nested(ok, Patch(inner, path[1..], reply))]
      case _ => replies
  }

  /** Every read set aside, filled in at its position below the first `base` steps of its path. */
  function PatchAll(base: nat, replies: seq<Reply>, ds: seq<SetAside>, answer: Answers): (rs: seq<Reply>)
    ensures |rs| == |replies|
  {
    if ds == [] then replies
    else
      var n := |ds| - 1;
      var rest := PatchAll(base, replies, ds[..n], answer);
      if base <= |ds[n].path| then Patch(rest, ds[n].path[base..], AnswerAt(answer, ds[n].path, ds[n].req)) else rest
  }

  /** Every path goes through `path`, then to an index below `n`. */
  ghost predicate Below(ds: seq<SetAside>, path: Path, n: nat) {
    forall d :: d in ds ==> |d.path| > |path| && d.path[..|path|] == path && d.path[|path|] < n
  }

  /** Every path goes through `path`. */
  ghost predicate Through(ds: seq<SetAside>, path: Path) {
    forall d :: d in ds ==> |d.path| >= |path| && d.path[..|path|] == path
  }

  lemma {:induction false} DeferredPaths(p: Progress, ops: seq<Op>, depth: nat, path: Path)
    ensures Below(DeferredIn(p, ops, depth, path), path, |ops|)
    decreases ops, 0
  {
    if ops != [] {
      var n := |ops| - 1;
      var q := ApplyOps(p, ops[..n], depth);
      DeferredPaths(p, ops[..n], depth, path);
      DeferredThrough(q, ops[n], depth, path + [n]);
      forall d | d in DeferredOf(q, ops[n], depth, path + [n])
        ensures |d.path| > |path| && d.path[..|path|] == path && d.path[|path|] < |ops|
      {
        assert d.path[|path|] == d.path[..|path| + 1][|path|] == n;
        assert d.path[..|path| + 1][..|path|] == d.path[..|path|];
      }
    }
  }

  lemma {:induction false} DeferredThrough(p: Progress, op: Op, depth: nat, path: Path)
    ensures Through(DeferredOf(p, op, depth, path), path)
    decreases op
  {
    match op
    case TxnOp(t) =>
      if EvalAll(KeysOf(p.state), t.compare) { DeferredPaths(p, t.success, depth + 1, path); }
      else { DeferredPaths(p, t.failure, depth + 1, path); }
    case _ =>
  }

  lemma {:induction false} PatchConcat(base: nat, replies: seq<Reply>, a: seq<SetAside>, b: seq<SetAside>, answer: Answers)
    ensures PatchAll(base, replies, a + b, answer) == PatchAll(base, PatchAll(base, replies, a, answer), b, answer)
  {
    if b == [] {
      assert a + b == a;
    } else {
      PatchConcat(base, replies, a, b[..|b| - 1], answer);
      assert (a + b)[..|a + b| - 1] == a + b[..|b| - 1];
    }
  }

  /** Patches below index `|front|` leave the rest alone. */
  lemma {:induction false} PatchFront(path: Path, front: seq<Reply>, last: Reply, ds: seq<SetAside>, answer: Answers)
    requires Below(ds, path, |front|)
    ensures PatchAll(|path|, front + [last], ds, answer) == PatchAll(|path|, front, ds, answer) + [last]
  {
    if ds != [] {
      var n := |ds| - 1;
      assert ds[n] in ds && forall d :: d in ds[..n] ==> d in ds;
      PatchFront(path, front, last, ds[..n], answer);
      PatchOneFront(PatchAll(|path|, front, ds[..n], answer), last, ds[n].path[|path|..], AnswerAt(answer, ds[n].path, ds[n].req));
    }
  }

  lemma PatchOneFront(front: seq<Reply>, last: Reply, path: Path, reply: Reply)
    requires path != [] && path[0] < |front|
    ensures Patch(front + [last], path, reply) == Patch(front, path, reply) + [last]
  {}

  /** Patches through the last position act inside the nested transaction there. */
  lemma {:induction false} PatchInside(path: Path, front: seq<Reply>, ok: bool, inner: seq<Reply>, ds: seq<SetAside>, answer: Answers)
    requires Below(ds, path + [|front|], |inner|)
    ensures PatchAll(|path|, front + [Nested(ok, inner)], ds, answer)
         == front + [Nested(ok, PatchAll(|path| + 1, inner, ds, answer))]
  {
    if ds != [] {
      var n := |ds| - 1;
      var d := ds[n];
      assert d in ds && forall e :: e in ds[..n] ==> e in ds;
      PatchInside(path, front, ok, inner, ds[..n], answer);
      assert d.path[|path|] == d.path[..|path| + 1][|path|] == |front|;
      assert d.path[|path|..][1..] == d.path[|path| + 1..];
      PatchOneInside(front, ok, PatchAll(|path| + 1, inner, ds[..n], answer), d.path[|path|..], AnswerAt(answer, d.path, d.req));
    }
  }

  lemma PatchOneInside(front: seq<Reply>, ok: bool, inner: seq<Reply>, path: Path, reply: Reply)
    requires |path| > 1 && path[0] == |front|
    ensures Patch(front + [Nested(ok, inner)], path, reply) == front + [Nested(ok, Patch(inner, path[1..], reply))]
  {}

  /** Setting reads aside and patching their answers in gives the tree that answering each read in
      place would have given, at every depth of nesting. */
  lemma {:induction false} PatchedIsDirect(p: Progress, ops: seq<Op>, depth: nat, path: Path, answer: Answers)
    ensures PatchAll(|path|, RepliesTo(p, ops, depth, path, PENDING), DeferredIn(p, ops, depth, path), answer)
         == RepliesTo(p, ops, depth, path, answer)
    decreases ops, 1
  {
    if ops != [] {
      var n := |ops| - 1;
      var q := ApplyOps(p, ops[..n], depth);
      var front := RepliesTo(p, ops[..n], depth, path, PENDING);
      var ds, last := DeferredIn(p, ops[..n], depth, path), DeferredOf(q, ops[n], depth, path + [n]);
      var raw := ReplyTo(q, ops[n], depth, path + [n], PENDING);
      PatchConcat(|path|, front + [raw], ds, last, answer);
      DeferredPaths(p, ops[..n], depth, path);
      PatchFront(path, front, raw, ds, answer);
      PatchedIsDirect(p, ops[..n], depth, path, answer);
      PatchedLast(q, ops[n], depth, path, RepliesTo(p, ops[..n], depth, path, answer), answer);
    }
  }

  lemma {:induction false} PatchedLast(p: Progress, op: Op, depth: nat, path: Path, front: seq<Reply>, answer: Answers)
    ensures PatchAll(|path|, front + [ReplyTo(p, op, depth, path + [|front|], PENDING)], DeferredOf(p, op, depth, path + [|front|]), answer)
         == front + [ReplyTo(p, op, depth, path + [|front|], answer)]
    decreases op
  {
    var at := path + [|front|];
    match op
    case RangeOp(req) =>
      if req.revision > 0 {
        var ds := [SetAside(at, req)];
        assert ds[..0] == [] && at[|path|..] == [|front|];
        assert PatchAll(|path|, front + [Blank], ds[..0], answer) == front + [Blank];
      }
    case TxnOp(t) =>
      var ok := EvalAll(KeysOf(p.state), t.compare);
      var branch := if ok then t.success else t.failure;
      DeferredPaths(p, branch, depth + 1, at);
      PatchInside(path, front, ok, RepliesTo(p, branch, depth + 1, at, PENDING), DeferredIn(p, branch, depth + 1, at), answer);
      PatchedIsDirect(p, branch, depth + 1, at, answer);
    case _ =>
  }

  // --------------------------------------------------- running what was set aside

  /** The store as a read finds it when it finally runs. */
  datatype Moment = Moment(keys: Keys, current: nat, compactRev: nat, file: Blob, later: Lookups)

  ghost function AnswerOf(m: Moment, req: RangeReq): Result<RangeResp, Error> {
    Answer(m.keys, m.current, m.compactRev, m.file, m.later, req)
  }

  /** The answers of reads that each run at their own moment. */
  ghost function AnswersAt(at: Path -> Moment): Answers { (path: Path, req: RangeReq) => AnswerOf(at(path), req) }

  ghost predicate MomentsKeyed(deferred: seq<SetAside>, at: Path -> Moment) {
    forall d :: d in deferred ==> AnswerKeyed(at(d.path).keys, at(d.path).file, at(d.path).later, d.req)
  }

  ghost predicate ScannableReads(deferred: seq<SetAside>) {
    forall d :: d in deferred ==> Scannable(ResolveRange(d.req.key, d.req.rangeEnd))
  }

  /** Run the reads set aside, in order, and fill them in; the first failure is the answer. */
  method FillIn(replies: seq<Reply>, deferred: seq<SetAside>, at: Path -> Moment) returns (r: Result<seq<Reply>, Error>)
    requires ScannableReads(deferred)
    ensures r.Err? <==> exists d :: d in deferred && AnswerOf(at(d.path), d.req).Err?
    ensures r.Ok? && MomentsKeyed(deferred, at) ==> r.value == PatchAll(0, replies, deferred, AnswersAt(at))
  {
    hide AnswerKeyed, Answer;
    var rs := replies;
    for i := 0 to |deferred|
      invariant MomentsKeyed(deferred, at) ==> rs == PatchAll(0, replies, deferred[..i], AnswersAt(at))
      invariant forall j :: 0 <= j < i ==> AnswerOf(at(deferred[j].path), deferred[j].req).Ok?
    {
      var d := deferred[i];
      assert d in deferred;
      var m := at(d.path);
      var answer := ServeRange(m.keys, m.current, m.compactRev, m.file, m.later, d.req);
      if answer.Err? {
        assert AnswerOf(at(d.path), d.req).Err?;
        return Err(answer.error);
      }
      assert deferred[..i + 1][..i] == deferred[..i] && d.path[0..] == d.path;
      rs := Patch(rs, d.path, Ranged(answer.value));
    }
    assert deferred[..|deferred|] == deferred;
    return Ok(rs);
  }

  lemma {:induction false} DeferredScannable(p: Progress, ops: seq<Op>, depth: nat, path: Path)
    requires ScannableOps(ops)
    ensures ScannableReads(DeferredIn(p, ops, depth, path))
    decreases ops, 0
  {
    hide Scannable, ResolveRange, ApplyOps;
    if ops != [] {
      var n := |ops| - 1;
      assert ops[n] in ops && forall op :: op in ops[..n] ==> op in ops;
      DeferredScannable(p, ops[..n], depth, path);
      DeferredOfScannable(ApplyOps(p, ops[..n], depth), ops[n], depth, path + [n]);
    }
  }

  lemma {:induction false} DeferredOfScannable(p: Progress, op: Op, depth: nat, path: Path)
    requires ScannableOp(op)
    ensures ScannableReads(DeferredOf(p, op, depth, path))
    decreases op
  {
    match op
    case TxnOp(t) =>
      if EvalAll(KeysOf(p.state), t.compare) { DeferredScannable(p, t.success, depth + 1, path); }
      else { DeferredScannable(p, t.failure, depth + 1, path); }
    case _ =>
  }

  // ------------------------------------------------------------- reads that run at once

  /** The reads of the current state that run inside the branch find blobs that carry their keys. */
  ghost predicate ReadKeyed(p: Progress, op: Op, depth: nat)
    decreases op
  {
    match op
    case RangeOp(req) => req.revision <= 0 ==> Keyed(CurrentBlobs(KeysOf(p.state), ResolveRange(req.key, req.rangeEnd), req.filter))
    case TxnOp(t) =>
      if EvalAll(KeysOf(p.state), t.compare) then ReadsKeyed(p, t.success, depth + 1) else ReadsKeyed(p, t.failure, depth + 1)
    case _ => true
  }

  ghost predicate ReadsKeyed(p: Progress, ops: seq<Op>, depth: nat)
    decreases ops, 0
  {
    ops == [] || (ReadsKeyed(p, ops[..|ops| - 1], depth) && ReadKeyed(ApplyOps(p, ops[..|ops| - 1], depth), ops[|ops| - 1], depth))
  }

  /** The key map is the replay of the log, whose records the branch leaves readable. */
  ghost predicate Readable(p: Progress, q: Progress) {
    Clocked(p) && p.state.db.mem == Replay(p.state.db.log) && forall r :: r in q.state.db.log ==> Representable(KvOf(r))
  }

  lemma OpKeepsReplay(p: Progress, q: Progress)
    requires OpAppends(p, q) && p.state.db.mem == Replay(p.state.db.log)
    ensures Clocked(q) && q.state.db.mem == Replay(q.state.db.log) && p.state.db.log <= q.state.db.log
  {
    hide SendAll, Issued, ReplayFrom;
    var d, d' := p.state.db, q.state.db;
    SendAllParts(d, d'.log[|d.log|..]);
    ReplayFromStart(d.log, d'.log[|d.log|..]);
  }

  lemma ReadableEarlier(log: seq<Record>, log': seq<Record>)
    requires log <= log' && forall r :: r in log' ==> Representable(KvOf(r))
    ensures forall r :: r in log ==> Representable(KvOf(r))
  {}

  /** On a store whose map is the replay of its log, every read inside a transaction that succeeds
      finds blobs that carry their keys. */
  lemma {:induction false} TxnReadsKeyed(p: Progress, ops: seq<Op>, depth: nat)
    requires Readable(p, ApplyOps(p, ops, depth)) && ApplyOps(p, ops, depth).error.None?
    ensures ReadsKeyed(p, ops, depth)
    decreases ops, 0
  {
    hide Replay, Representable, Appends, ApplyOp, ReadKeyed;
    if ops != [] {
      var n := |ops| - 1;
      var q, all := ApplyOps(p, ops[..n], depth), ApplyOps(p, ops, depth);
      ApplyOpsAppends(p, ops[..n], depth);
      OpKeepsReplay(p, q);
      ApplyOpAppends(q, ops[n], depth);
      OpKeepsReplay(q, all);
      ReadableEarlier(q.state.db.log, all.state.db.log);
      TxnReadsKeyed(p, ops[..n], depth);
      TxnReadKeyed(q, ops[n], depth);
    }
  }

  lemma {:induction false} TxnReadKeyed(p: Progress, op: Op, depth: nat)
    requires Readable(p, ApplyOp(p, op, depth)) && ApplyOp(p, op, depth).error.None?
    ensures ReadKeyed(p, op, depth)
    decreases op
  {
    hide Replay, Representable, Appends, ApplyOps;
    match op
    case RangeOp(req) => CurrentKeyed(p.state.db.log, ResolveRange(req.key, req.rangeEnd), req.filter);
    case TxnOp(t) =>
      if EvalAll(KeysOf(p.state), t.compare) { TxnReadsKeyed(p, t.success, depth + 1); }
      else { TxnReadsKeyed(p, t.failure, depth + 1); }
    case _ =>
  }
}
