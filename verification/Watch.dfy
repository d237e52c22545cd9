/** Watch creation: a checkpoint, an unlocked scan of the log file, a locked catch-up from the
    checkpoint, and registration for live events. */
module Watch {
  import opened Bytes
  import opened Seqs
  import opened Wal
  import opened Ranges
  import opened KeyMap
  import opened StoreSpec
  import opened Commits
  import opened Sends
  import opened Runs
  import opened Compaction
  import opened History
  import opened HistoricalRead
  import Scanner

  // ------------------------------------------------------------ replaying records

  /** The map of previous values carried from phase 1 to phase 2, and the contexts being served.
      A context is the watcher it will become: its channel is the one it registers with. */
  datatype Replaying = Replaying(prev: Blobs, ctxs: seq<Watcher>)

  /** Replay sends the event unchanged; only phase 1 looks at the start revision. */
  function Deliver(c: Watcher, e: Event, checkStart: bool): Watcher {
    if (checkStart ==> e.rev >= c.startRev) && Matches(c.bound, e.key) && ShouldSend(c.filters, e.isDelete)
    then c.(received := c.received + [e]) else c
  }

  function DeliverAll(cs: seq<Watcher>, e: Event, checkStart: bool): seq<Watcher> {
    seq(|cs|, i requires 0 <= i < |cs| => Deliver(cs[i], e, checkStart))
  }

  function NextPrev(prev: Blobs, key: Blob, isDelete: bool, blob: Blob): Blobs {
    if isDelete then prev - {key} else prev[key := blob]
  }

  function PrevOf(prev: Blobs, key: Blob): Blob { if key in prev then prev[key] else [] }

  /** What a scan callback reads from a record; `None` when its key cannot be read. */
  datatype Seen = Seen(rev: nat, isDelete: bool, key: Blob, blob: Blob)

  function See(w: KvWalRecord): Option<Seen> {
    match RecordKey(w)
    case None => None
    case Some(key) => Some(Seen(RecordRev(w), w.flags % 2 == 1, key, w.kvBytes))
  }

  /** One record sent to the contexts. */
  function ReplayOne(st: Replaying, x: Seen, checkStart: bool): Replaying {
    var e := Event(x.rev, x.isDelete, x.key, x.blob, PrevOf(st.prev, x.key));
    Replaying(NextPrev(st.prev, x.key, x.isDelete, x.blob), DeliverAll(st.ctxs, e, checkStart))
  }

  /** Phase 1 takes the records up to the checkpoint. */
  function PhaseOne(ctxs: seq<Watcher>, xs: seq<Option<Seen>>, checkpoint: nat): Replaying {
    if xs == [] then Replaying(map[], ctxs)
    else
      var st, x := PhaseOne(ctxs, xs[..|xs| - 1], checkpoint), xs[|xs| - 1];
      if x.None? || x.value.rev > checkpoint then st else ReplayOne(st, x.value, true)
  }

  /** Phase 2 takes the records after it, with no start filter. */
  function PhaseTwo(st0: Replaying, xs: seq<Option<Seen>>, checkpoint: nat): Replaying {
    if xs == [] then st0
    else
      var st, x := PhaseTwo(st0, xs[..|xs| - 1], checkpoint), xs[|xs| - 1];
      if x.None? || x.value.rev <= checkpoint then st else ReplayOne(st, x.value, false)
  }

  /** What the callbacks of a scan over `bytes` see. */
  ghost function ScanSees(bytes: Blob): seq<Option<Seen>> { Map(See, Scan(bytes).records) }

  /** The filter loop. */
  method ShouldSendEvent(filters: seq<int>, isDelete: bool) returns (send: bool)
    ensures send == ShouldSend(filters, isDelete)
    ensures send <==> !(!isDelete && 0 in filters) && !(isDelete && 1 in filters)
  {
    for i := 0 to |filters|
      invariant ShouldSend(filters[..i], isDelete)
    {
      if (filters[i] == 0 && !isDelete) || (filters[i] == 1 && isDelete) { return false; }
      assert filters[..i + 1] == filters[..i] + [filters[i]];
    }
    assert filters[..|filters|] == filters;
    return true;
  }

  /** The loop over the contexts. */
  method SendToAll(ctxs: seq<Watcher>, e: Event, checkStart: bool) returns (out: seq<Watcher>)
    ensures out == DeliverAll(ctxs, e, checkStart)
  {
    out := ctxs;
    for i := 0 to |ctxs|
      invariant |out| == |ctxs|
      invariant forall j :: 0 <= j < i ==> out[j] == Deliver(ctxs[j], e, checkStart)
      invariant forall j :: i <= j < |ctxs| ==> out[j] == ctxs[j]
    {
      var c := ctxs[i];
      var send := ShouldSendEvent(c.filters, e.isDelete);
      if (!checkStart || e.rev >= c.startRev) && Matches(c.bound, e.key) && send {
        out := out[i := c.(received := c.received + [e])];
      }
    }
  }

  /** One callback of either scan. */
  method ReplayRecord(st: Replaying, x: Seen, checkStart: bool) returns (st': Replaying)
    ensures st' == ReplayOne(st, x, checkStart)
  {
    var e := Event(x.rev, x.isDelete, x.key, x.blob, PrevOf(st.prev, x.key));
    var prev := NextPrev(st.prev, x.key, x.isDelete, x.blob);
    var ctxs := SendToAll(st.ctxs, e, checkStart);
    return Replaying(prev, ctxs);
  }

  method FoldPhaseOne(ctxs: seq<Watcher>, xs: seq<Option<Seen>>, checkpoint: nat) returns (st: Replaying)
    ensures st == PhaseOne(ctxs, xs, checkpoint)
  {
    st := Replaying(map[], ctxs);
    for i := 0 to |xs|
      invariant st == PhaseOne(ctxs, xs[..i], checkpoint)
    {
      assert xs[..i + 1][..i] == xs[..i];
      if xs[i].Some? && xs[i].value.rev <= checkpoint { st := ReplayRecord(st, xs[i].value, true); }
    }
    assert xs[..|xs|] == xs;
  }

  method FoldPhaseTwo(st0: Replaying, xs: seq<Option<Seen>>, checkpoint: nat) returns (st: Replaying)
    ensures st == PhaseTwo(st0, xs, checkpoint)
  {
    st := st0;
    for i := 0 to |xs|
      invariant st == PhaseTwo(st0, xs[..i], checkpoint)
    {
      assert xs[..i + 1][..i] == xs[..i];
      if xs[i].Some? && xs[i].value.rev > checkpoint { st := ReplayRecord(st, xs[i].value, false); }
    }
    assert xs[..|xs|] == xs;
  }

  /** Phase 1 over whatever bytes the unlocked reader saw. */
  method RunPhaseOne(ctxs: seq<Watcher>, view: Blob, checkpoint: nat) returns (st: Replaying)
    ensures st == PhaseOne(ctxs, ScanSees(view), checkpoint)
  {
    var scanned := ScanKvFile(view, 0);
    assert Scanner.From(view, 0) == view;
    st := FoldPhaseOne(ctxs, Map(See, scanned.records), checkpoint);
  }

  /** Phase 2 over the locked file from the checkpoint offset. */
  method RunPhaseTwo(st0: Replaying, file: Blob, offset: nat, checkpoint: nat) returns (st: Replaying)
    ensures st == PhaseTwo(st0, ScanSees(Scanner.From(file, offset)), checkpoint)
  {
    var scanned := ScanKvFile(file, offset);
    st := FoldPhaseTwo(st0, Map(See, scanned.records), checkpoint);
  }

  // ------------------------------------------------------------------ log events

  /** The events of a log, in order. */
  function LogEvents(log: seq<Record>): (es: seq<Event>)
    ensures |es| == |log|
  {
    if log == [] then []
    else LogEvents(log[..|log| - 1]) + [RecordEvent(Replay(log[..|log| - 1]).keys, log[|log| - 1])]
  }

  lemma {:induction false} LogEventsPrefix(log: seq<Record>, n: nat)
    requires n <= |log|
    ensures LogEvents(log[..n]) == LogEvents(log)[..n]
  {
    if n < |log| {
      LogEventsPrefix(log[..|log| - 1], n);
      assert log[..|log| - 1][..n] == log[..n];
    } else {
      assert log[..n] == log;
    }
  }

  /** The events a watcher asks for, in order; `checkStart` off leaves the start revision out. */
  function Selected(c: Watcher, es: seq<Event>, checkStart: bool): seq<Event> {
    if es == [] then []
    else
      var rest, e := Selected(c, es[..|es| - 1], checkStart), es[|es| - 1];
      if (checkStart ==> e.rev >= c.startRev) && Matches(c.bound, e.key) && ShouldSend(c.filters, e.isDelete)
      then rest + [e] else rest
  }

  /** What a watcher wants of a log: matching, unfiltered, from its start revision on. */
  function Wanted(c: Watcher, es: seq<Event>): seq<Event> { Selected(c, es, true) }

  /** Same subscription, whatever was received. */
  predicate SameSubscription(a: Watcher, b: Watcher) { a.(received := []) == b.(received := []) }

  lemma {:induction false} SelectedConcat(c: Watcher, a: seq<Event>, b: seq<Event>, checkStart: bool)
    ensures Selected(c, a + b, checkStart) == Selected(c, a, checkStart) + Selected(c, b, checkStart)
  {
    if b == [] {
      assert a + b == a;
    } else {
      SelectedConcat(c, a, b[..|b| - 1], checkStart);
      assert (a + b)[..|a + b| - 1] == a + b[..|b| - 1];
    }
  }

  /** Above the start revision the start filter makes no difference. */
  lemma {:induction false} StartFilterRedundant(c: Watcher, es: seq<Event>)
    requires forall e :: e in es ==> e.rev >= c.startRev
    ensures Selected(c, es, false) == Selected(c, es, true)
  {
    if es != [] {
      assert es[|es| - 1] in es && forall e :: e in es[..|es| - 1] ==> e in es;
      StartFilterRedundant(c, es[..|es| - 1]);
    }
  }

  /** Previous values as the replay tracks them. */
  function PrevMap(log: seq<Record>): Blobs {
    if log == [] then map[]
    else
      var r := log[|log| - 1];
      NextPrev(PrevMap(log[..|log| - 1]), r.key, Deleted(r), KvBytes(r))
  }

  /** The replay's previous values are the live store's. */
  lemma {:induction false} PrevMapIsLive(log: seq<Record>, k: Blob)
    requires Positive(log)
    ensures k in PrevMap(log) <==> Live(Replay(log).keys, k)
    ensures PrevOf(PrevMap(log), k) == PrevBytes(Replay(log).keys, k)
  {
    hide KvBytes;
    if log != [] {
      var r := log[|log| - 1];
      assert r in log && forall x :: x in log[..|log| - 1] ==> x in log;
      PrevMapIsLive(log[..|log| - 1], k);
    }
  }

  // ------------------------------------------------------------- what phases send

  /** Every context has received, in addition, what it selects of `es`. */
  ghost predicate Served(before: seq<Watcher>, after: seq<Watcher>, es: seq<Event>, checkStart: bool) {
    |after| == |before|
    && forall i :: 0 <= i < |before| ==>
         after[i] == before[i].(received := before[i].received + Selected(before[i], es, checkStart))
  }

  lemma SelectedIgnoresReceived(a: Watcher, b: Watcher, es: seq<Event>, checkStart: bool)
    requires SameSubscription(a, b)
    ensures Selected(a, es, checkStart) == Selected(b, es, checkStart)
  {
    if es != [] { SelectedIgnoresReceived(a, b, es[..|es| - 1], checkStart); }
  }

  lemma ServedOne(before: seq<Watcher>, after: seq<Watcher>, es: seq<Event>, e: Event, checkStart: bool)
    requires Served(before, after, es, checkStart)
    ensures Served(before, DeliverAll(after, e, checkStart), es + [e], checkStart)
  {
    var final := DeliverAll(after, e, checkStart);
    assert (es + [e])[..|es|] == es;
    forall i | 0 <= i < |before|
      ensures final[i] == before[i].(received := before[i].received + Selected(before[i], es + [e], checkStart))
    {
      assert after[i] == before[i].(received := before[i].received + Selected(before[i], es, checkStart));
    }
  }

  /** How a logged record looks to a callback. */
  function SeenOf(r: Record): Option<Seen> { Some(Seen(r.modRev, Deleted(r), r.key, KvBytes(r))) }

  function LogSeen(log: seq<Record>): seq<Option<Seen>> { Map(SeenOf, log) }

  lemma SeeNew(r: Record)
    requires Fits(r)
    ensures See(NewRecord(r)) == SeenOf(r)
  {
    NewReadsAs(r);
  }

  /** A scan of a log file, torn write included, sees the log. */
  lemma ScanSeesLog(log: seq<Record>, torn: Blob)
    requires (forall r :: r in log ==> Fits(r)) && (torn == [] || TornWrite(torn))
    ensures ScanSees(SerializeAll(log) + torn) == LogSeen(log)
  {
    ScanRecovers(log, torn);
    var ws := Map(NewRecord, log);
    forall i | 0 <= i < |log| ensures Map(See, ws)[i] == LogSeen(log)[i] { SeeNew(log[i]); }
  }

  lemma LogSeenSnoc(log: seq<Record>)
    requires log != []
    ensures var n := |log| - 1;
            |LogSeen(log)| == n + 1 && LogSeen(log)[..n] == LogSeen(log[..n]) && LogSeen(log)[n] == SeenOf(log[n])
            && log == log[..n] + [log[n]]
  {}

  /** Replaying a record sends the event the log holds at that point. */
  lemma ReplayOneSends(st: Replaying, log: seq<Record>, r: Record, checkStart: bool)
    requires Positive(log) && st.prev == PrevMap(log)
    ensures var e := RecordEvent(Replay(log).keys, r);
            ReplayOne(st, SeenOf(r).value, checkStart) == Replaying(PrevMap(log + [r]), DeliverAll(st.ctxs, e, checkStart))
            && LogEvents(log + [r]) == LogEvents(log) + [e]
  {
    PrevMapIsLive(log, r.key);
    assert (log + [r])[..|log|] == log;
  }

  lemma PositivePrefix(log: seq<Record>, n: nat)
    requires Positive(log) && n <= |log|
    ensures Positive(log[..n])
  {
    forall r | r in log[..n] ensures r.modRev > 0 { assert r in log; }
  }

  /** The replay has caught up with `log`: previous values are those after it, and each context has
      been sent what it selects of the events from `base` on. */
  ghost predicate CaughtUp(ctxs: seq<Watcher>, st: Replaying, log: seq<Record>, base: nat, checkStart: bool) {
    base <= |log| && st.prev == PrevMap(log) && Served(ctxs, st.ctxs, LogEvents(log)[base..], checkStart)
  }

  lemma CatchUpOne(ctxs: seq<Watcher>, st: Replaying, log: seq<Record>, base: nat, checkStart: bool, r: Record)
    requires Positive(log) && CaughtUp(ctxs, st, log, base, checkStart)
    ensures CaughtUp(ctxs, ReplayOne(st, SeenOf(r).value, checkStart), log + [r], base, checkStart)
  {
    var e := RecordEvent(Replay(log).keys, r);
    ReplayOneSends(st, log, r, checkStart);
    ServedOne(ctxs, st.ctxs, LogEvents(log)[base..], e, checkStart);
    assert (LogEvents(log) + [e])[base..] == LogEvents(log)[base..] + [e];
  }

  /** Phase 1 catches up with a log that ends at the checkpoint. */
  lemma {:induction false} PhaseOneCatchesUp(ctxs: seq<Watcher>, log: seq<Record>, checkpoint: nat)
    requires Positive(log) && forall r :: r in log ==> r.modRev <= checkpoint
    ensures CaughtUp(ctxs, PhaseOne(ctxs, LogSeen(log), checkpoint), log, 0, true)
  {
    if log != [] {
      var n := |log| - 1;
      LogSeenSnoc(log);
      PositivePrefix(log, n);
      PhaseOneCatchesUp(ctxs, log[..n], checkpoint);
      CatchUpOne(ctxs, PhaseOne(ctxs, LogSeen(log[..n]), checkpoint), log[..n], 0, true, log[n]);
    }
  }

  /** Records after the checkpoint do not matter to phase 1. */
  lemma {:induction false} PhaseOneSkips(ctxs: seq<Watcher>, xs: seq<Option<Seen>>, extra: seq<Option<Seen>>, checkpoint: nat)
    requires forall i :: 0 <= i < |extra| ==> extra[i].Some? && extra[i].value.rev > checkpoint
    ensures PhaseOne(ctxs, xs + extra, checkpoint) == PhaseOne(ctxs, xs, checkpoint)
  {
    if extra == [] {
      assert xs + extra == xs;
    } else {
      var init := extra[..|extra| - 1];
      PhaseOneSkips(ctxs, xs, init, checkpoint);
      assert (xs + extra)[..|xs + extra| - 1] == xs + init;
    }
  }

  lemma SnocSplit(log: seq<Record>, more: seq<Record>)
    requires more != []
    ensures var n := |more| - 1;
            log + more == (log + more[..n]) + [more[n]] && (log + more)[..|log| + n] == log + more[..n]
  {}

  /** Phase 2 catches up with everything logged after the checkpoint. */
  lemma {:induction false} PhaseTwoCatchesUp(st0: Replaying, log: seq<Record>, more: seq<Record>, checkpoint: nat)
    requires Positive(log + more) && st0.prev == PrevMap(log) && forall r :: r in more ==> r.modRev > checkpoint
    ensures CaughtUp(st0.ctxs, PhaseTwo(st0, LogSeen(more), checkpoint), log + more, |log|, false)
  {
    hide KvBytes, Replay, LogEvents;
    if more == [] {
      assert log + more == log;
      assert LogEvents(log)[|log|..] == [];
    } else {
      var n := |more| - 1;
      LogSeenSnoc(more);
      SnocSplit(log, more);
      PositivePrefix(log + more, |log| + n);
      PhaseTwoCatchesUp(st0, log, more[..n], checkpoint);
      CatchUpOne(st0.ctxs, PhaseTwo(st0, LogSeen(more[..n]), checkpoint), log + more[..n], |log|, false, more[n]);
    }
  }

  // ------------------------------------------------------------ live notification

  /** Live events lose their previous value unless the watcher asked for it. */
  function LiveForm(c: Watcher, es: seq<Event>): seq<Event> {
    seq(|es|, i requires 0 <= i < |es| => if c.prevKv then es[i] else es[i].(prevKvBytes := []))
  }

  lemma LiveFormOne(c: Watcher, es: seq<Event>, e: Event)
    ensures LiveForm(c, es + [e]) == LiveForm(c, es) + [if c.prevKv then e else e.(prevKvBytes := [])]
  {}

  /** The events sent live for `recs` when `m` is the state before them. */
  function SentEvents(m: Mem, recs: seq<Record>): (es: seq<Event>)
    ensures |es| == |recs|
  {
    if recs == [] then []
    else
      var n := |recs| - 1;
      SentEvents(m, recs[..n]) + [SentEvent(ReplayFrom(m, recs[..n]).keys, recs[n])]
  }

  /** The watcher after being notified of `es`. */
  ghost predicate Notified(w: Watcher, w': Watcher, es: seq<Event>) {
    w' == w.(received := w.received + LiveForm(w, Wanted(w, es)))
  }

  lemma NothingWanted(c: Watcher)
    ensures Wanted(c, []) == [] && LiveForm(c, []) == []
  {}

  lemma NotifyOneMore(w: Watcher, w': Watcher, es: seq<Event>, e: Event)
    requires Notified(w, w', es)
    ensures Notified(w, Notify(w', e), es + [e])
  {
    assert (es + [e])[..|es|] == es;
    LiveFormOne(w, Wanted(w, es), e);
  }

  /** A registered watcher is notified of exactly the wanted events of what is sent. */
  lemma {:induction false} SendsNotify(d: Db, recs: seq<Record>, i: nat)
    requires i < |d.watchers|
    ensures var ws := SendAll(d, recs).watchers;
            |ws| == |d.watchers| && Notified(d.watchers[i], ws[i], SentEvents(d.mem, recs))
  {
    hide SentEvent, Selected, ApplyRecord;
    NothingWanted(d.watchers[i]);
    if recs != [] {
      var n := |recs| - 1;
      SendsNotify(d, recs[..n], i);
      SendAllParts(d, recs[..n]);
      NotifyOneMore(d.watchers[i], SendAll(d, recs[..n]).watchers[i], SentEvents(d.mem, recs[..n]),
                    SentEvent(ReplayFrom(d.mem, recs[..n]).keys, recs[n]));
    }
  }

  // ---------------------------------------------------------------- exactly once

  lemma LogSeenAbove(log: seq<Record>, checkpoint: nat)
    requires forall r :: r in log ==> r.modRev > checkpoint
    ensures var xs := LogSeen(log); forall i :: 0 <= i < |xs| ==> xs[i].Some? && xs[i].value.rev > checkpoint
  {}

  /** Phase 1 on any prefix of the file that reaches the checkpoint offset, torn record included. */
  lemma PhaseOneOnAnyView(ctxs: seq<Watcher>, log: seq<Record>, more: seq<Record>, view: Blob, checkpoint: nat)
    requires Positive(log) && (forall r :: r in log + more ==> Fits(r))
    requires (forall r :: r in log ==> r.modRev <= checkpoint) && (forall r :: r in more ==> r.modRev > checkpoint)
    requires |SerializeAll(log)| <= |view| && view <= SerializeAll(log + more)
    ensures CaughtUp(ctxs, PhaseOne(ctxs, ScanSees(view), checkpoint), log, 0, true)
  {
    FitsPrefix(log, more, |more|);
    assert more[..|more|] == more;
    var j, torn := FilePrefix(log, more, view);
    FitsPrefix(log, more, j);
    ScanSeesLog(log + more[..j], torn);
    PhaseOneOnRecords(ctxs, log, more[..j], checkpoint);
  }

  lemma FitsPrefix(log: seq<Record>, more: seq<Record>, j: nat)
    requires j <= |more| && forall r :: r in log + more ==> Fits(r)
    ensures forall r :: r in log + more[..j] ==> Fits(r)
    ensures forall r :: r in more[..j] ==> r in more && Framable(r)
  {
    forall r | r in log + more[..j] ensures Fits(r) { assert r in log + more; }
    forall r | r in more[..j] ensures r in more && Framable(r) { assert r in log + more; }
  }

  lemma PhaseOneOnRecords(ctxs: seq<Watcher>, log: seq<Record>, extra: seq<Record>, checkpoint: nat)
    requires Positive(log)
    requires (forall r :: r in log ==> r.modRev <= checkpoint) && (forall r :: r in extra ==> r.modRev > checkpoint)
    ensures CaughtUp(ctxs, PhaseOne(ctxs, LogSeen(log + extra), checkpoint), log, 0, true)
  {
    MapConcat(SeenOf, log, extra);
    LogSeenAbove(extra, checkpoint);
    PhaseOneSkips(ctxs, LogSeen(log), LogSeen(extra), checkpoint);
    PhaseOneCatchesUp(ctxs, log, checkpoint);
  }

  /** Phase 2 from the checkpoint offset of the locked file. */
  lemma PhaseTwoOnFile(st0: Replaying, log: seq<Record>, more: seq<Record>, checkpoint: nat)
    requires Positive(log + more) && st0.prev == PrevMap(log)
    requires forall r :: r in more ==> Fits(r) && r.modRev > checkpoint
    ensures var xs := ScanSees(Scanner.From(SerializeAll(log + more), |SerializeAll(log)|));
            CaughtUp(st0.ctxs, PhaseTwo(st0, xs, checkpoint), log + more, |log|, false)
  {
    FileFromOffset(log, more);
    ScanSeesLog(more, []);
    PhaseTwoCatchesUp(st0, log, more, checkpoint);
  }

  lemma {:induction false} LogEventsRev(log: seq<Record>, i: nat)
    requires i < |log|
    ensures LogEvents(log)[i].rev == log[i].modRev
  {
    if i < |log| - 1 { LogEventsRev(log[..|log| - 1], i); }
  }

  lemma SuffixRevs(log: seq<Record>, more: seq<Record>, checkpoint: nat)
    requires forall r :: r in more ==> r.modRev > checkpoint
    ensures forall e :: e in LogEvents(log + more)[|log|..] ==> e.rev > checkpoint
  {
    var es := LogEvents(log + more)[|log|..];
    forall e | e in es ensures e.rev > checkpoint {
      var j :| 0 <= j < |es| && es[j] == e;
      LogEventsRev(log + more, |log| + j);
      assert more[j] in more;
    }
  }

  lemma SelectedAcross(c: Watcher, c1: Watcher, es0: seq<Event>, es1: seq<Event>)
    requires SameSubscription(c, c1) && forall e :: e in es1 ==> e.rev >= c.startRev
    ensures Selected(c, es0, true) + Selected(c1, es1, false) == Wanted(c, es0 + es1)
  {
    SelectedIgnoresReceived(c, c1, es1, false);
    StartFilterRedundant(c, es1);
    SelectedConcat(c, es0, es1, true);
  }

  lemma LogEventsSplit(log: seq<Record>, more: seq<Record>)
    ensures LogEvents(log + more) == LogEvents(log)[0..] + LogEvents(log + more)[|log|..]
  {
    hide KvBytes, Replay;
    LogEventsPrefix(log + more, |log|);
    assert (log + more)[..|log|] == log;
  }

  /** Both phases together: with a start at most one past the checkpoint, each context has been
      sent exactly what it wants of the whole log so far. */
  lemma PhasesSendWanted(ctxs: seq<Watcher>, st1: Replaying, st2: Replaying, log: seq<Record>, more: seq<Record>, checkpoint: nat, i: nat)
    requires CaughtUp(ctxs, st1, log, 0, true) && CaughtUp(st1.ctxs, st2, log + more, |log|, false)
    requires i < |ctxs| && ctxs[i].startRev <= checkpoint + 1 && forall r :: r in more ==> r.modRev > checkpoint
    ensures |st2.ctxs| == |ctxs|
    ensures st2.ctxs[i] == ctxs[i].(received := ctxs[i].received + Wanted(ctxs[i], LogEvents(log + more)))
  {
    SuffixRevs(log, more, checkpoint);
    LogEventsSplit(log, more);
    ServedTwice(ctxs, st1.ctxs, st2.ctxs, LogEvents(log)[0..], LogEvents(log + more)[|log|..], i);
  }

  lemma ServedTwice(cs: seq<Watcher>, cs1: seq<Watcher>, cs2: seq<Watcher>, es0: seq<Event>, es1: seq<Event>, i: nat)
    requires Served(cs, cs1, es0, true) && Served(cs1, cs2, es1, false) && i < |cs|
    requires forall e :: e in es1 ==> e.rev >= cs[i].startRev
    ensures |cs2| == |cs| && cs2[i] == cs[i].(received := cs[i].received + Wanted(cs[i], es0 + es1))
  {
    var c, c1 := cs[i], cs1[i];
    assert c1 == c.(received := c.received + Selected(c, es0, true));
    assert cs2[i] == c1.(received := c1.received + Selected(c1, es1, false));
    SelectedAcross(c, c1, es0, es1);
    Associative(c.received, Selected(c, es0, true), Selected(c1, es1, false));
  }

  /** Phases 1 and 2 on the file: any view for the first, the whole file for the second. */
  lemma ReplayOnFile(ctxs: seq<Watcher>, log: seq<Record>, more1: seq<Record>, more2: seq<Record>, view: Blob, checkpoint: nat, i: nat)
    requires Positive(log) && Positive(log + more2)
    requires (forall r :: r in log + more1 ==> Fits(r)) && (forall r :: r in more2 ==> Fits(r) && r.modRev > checkpoint)
    requires (forall r :: r in log ==> r.modRev <= checkpoint) && (forall r :: r in more1 ==> r.modRev > checkpoint)
    requires |SerializeAll(log)| <= |view| && view <= SerializeAll(log + more1)
    requires i < |ctxs| && ctxs[i].startRev <= checkpoint + 1
    ensures var cs := FileReplay(ctxs, view, SerializeAll(log + more2), |SerializeAll(log)|, checkpoint);
            |cs| == |ctxs| && cs[i] == ctxs[i].(received := ctxs[i].received + Wanted(ctxs[i], LogEvents(log + more2)))
  {
    PhaseOneOnAnyView(ctxs, log, more1, view, checkpoint);
    var st1 := PhaseOne(ctxs, ScanSees(view), checkpoint);
    PhaseTwoOnFile(st1, log, more2, checkpoint);
    var st2 := PhaseTwo(st1, ScanSees(Scanner.From(SerializeAll(log + more2), |SerializeAll(log)|)), checkpoint);
    PhasesSendWanted(ctxs, st1, st2, log, more2, checkpoint, i);
  }

  /** The contexts after both phases: phase 1 on `view`, phase 2 on `file` from `offset`. */
  ghost function FileReplay(ctxs: seq<Watcher>, view: Blob, file: Blob, offset: nat, checkpoint: nat): seq<Watcher> {
    PhaseTwo(PhaseOne(ctxs, ScanSees(view), checkpoint), ScanSees(Scanner.From(file, offset)), checkpoint).ctxs
  }

  /** Registration under the lock of phase 2. */
  function Register(s: State, cs: seq<Watcher>): State { s.(db := s.db.(watchers := s.db.watchers + cs)) }

  /** Cancellation of a watch id. */
  function Unregister(s: State, id: int): State { s.(db := s.db.(watchers := Retained(s.db.watchers, id))) }

  // ---------------------------------------------------------- runs with watchers

  /** What happens to a store with watchers: its operations, and watches coming and going. */
  datatype WatchAction = Act(a: Action) | Join(w: Watcher) | Leave(id: int)

  function WatchStep(s: State, wa: WatchAction): State {
    match wa
    case Act(a) => Step(s, a)
    case Join(w) => Register(s, [w])
    case Leave(id) => Unregister(s, id)
  }

  function WatchRun(s: State, was: seq<WatchAction>): State {
    if was == [] then s else WatchStep(WatchRun(s, was[..|was| - 1]), was[|was| - 1])
  }

  /** Actions of one running process. */
  ghost predicate Watching(was: seq<WatchAction>) { forall wa :: wa in was ==> wa.Act? ==> !wa.a.DoReopen? }

  /** No watch with this id is cancelled. */
  ghost predicate Stays(was: seq<WatchAction>, id: int) { forall wa :: wa in was ==> wa != Leave(id) }

  /** The records written since `s`. */
  function Since(s: State, s': State): seq<Record> {
    if |s.db.log| <= |s'.db.log| then s'.db.log[|s.db.log|..] else []
  }

  /** The log only grew, by records issued above the clock of `s`. */
  ghost predicate LogGrows(s: State, s': State) {
    Coherent(s') && s.nextRev <= s'.nextRev && s'.db.log == s.db.log + Since(s, s')
    && s'.db.mem == ReplayFrom(s.db.mem, Since(s, s')) && Issued(s.db.mem, Since(s, s'))
    && forall r :: r in Since(s, s') ==> r.modRev >= s.nextRev
  }

  lemma LogGrowsTransitive(s0: State, s1: State, s2: State)
    requires LogGrows(s0, s1) && LogGrows(s1, s2)
    ensures LogGrows(s0, s2) && Since(s0, s2) == Since(s0, s1) + Since(s1, s2)
  {
    hide Coherent, ReplayFrom, Issued;
    var a, b := Since(s0, s1), Since(s1, s2);
    Associative(s0.db.log, a, b);
    assert Since(s0, s2) == a + b;
    ReplayConcat(s0.db.mem, a, b);
    IssuedConcat(s0.db.mem, a, b);
  }

  lemma ActGrows(s: State, a: Action)
    requires Coherent(s) && !a.DoReopen?
    ensures LogGrows(s, Step(s, a)) && Step(s, a).db == SendAll(s.db, Since(s, Step(s, a)))
  {
    hide Step, SendAll, Issued, ReplayFrom, Coherent;
    var s' := Step(s, a);
    EveryStepAppends(s, a);
    CoherentStep(s, s');
    CoherentParts(s);
    StepAppendsMem(s, s');
  }

  lemma WatchStepGrows(s: State, wa: WatchAction)
    requires Coherent(s) && (wa.Act? ==> !wa.a.DoReopen?)
    ensures LogGrows(s, WatchStep(s, wa))
  {
    hide Step;
    match wa
    case Act(a) => ActGrows(s, a);
    case _ => assert s.db.log + [] == s.db.log;
  }

  lemma {:induction false} WatchRunGrows(s: State, was: seq<WatchAction>)
    requires Coherent(s) && Watching(was)
    ensures LogGrows(s, WatchRun(s, was))
  {
    hide Coherent, Issued, WatchStep;
    if was == [] {
      NoGrowth(s);
    } else {
      var n := |was| - 1;
      assert was[n] in was && forall wa :: wa in was[..n] ==> wa in was;
      WatchRunGrows(s, was[..n]);
      WatchStepGrows(WatchRun(s, was[..n]), was[n]);
      LogGrowsTransitive(s, WatchRun(s, was[..n]), WatchRun(s, was));
    }
  }

  lemma NoGrowth(s: State)
    requires Coherent(s)
    ensures LogGrows(s, s) && Since(s, s) == []
  {
    assert s.db.log + [] == s.db.log;
  }

  // ------------------------------------------------------------ at registration

  /** The state right after registration: `s0` is where the checkpoint was taken on the file `f0`,
      `view` what the unlocked scan read, `s2` where the lock of phase 2 was held. */
  ghost function AfterRegistration(s0: State, f0: seq<Record>, view: Blob, s2: State, ctxs: seq<Watcher>): State {
    Register(s2, FileReplay(ctxs, view, SerializeAll(f0 + Since(s0, s2)), |SerializeAll(f0)|, CurrentRevision(s0)))
  }

  /** `view` is a prefix of the file at some moment after the checkpoint, at least as long as the
      file was then. */
  ghost predicate ViewOf(file0: seq<Record>, file1: seq<Record>, view: Blob) {
    |SerializeAll(file0)| <= |view| && view <= SerializeAll(file1)
  }

  /** A file that holds nothing newer than the clock. */
  ghost predicate FileOf(s: State, file: seq<Record>) { Positive(file) && Below(file, s.nextRev) }

  /** Records of the file at the checkpoint and those appended since, told apart by revision. */
  lemma FileDates(s0: State, s: State, f0: seq<Record>)
    requires Coherent(s0) && LogGrows(s0, s) && FileOf(s0, f0)
    ensures forall r :: r in f0 ==> r.modRev <= CurrentRevision(s0)
    ensures forall r :: r in Since(s0, s) ==> r.modRev > CurrentRevision(s0)
    ensures Positive(f0) && Positive(f0 + Since(s0, s))
  {
    hide Replay, Issued, ReplayFrom;
    var more := Since(s0, s);
    assert forall r :: r in more ==> r.modRev > 0;
    PositiveConcat(f0, more);
  }

  lemma RegistrationSendsWanted(s0: State, f0: seq<Record>, s1: State, view: Blob, s2: State, ctxs: seq<Watcher>, i: nat)
    requires Coherent(s0) && LogGrows(s0, s1) && LogGrows(s1, s2) && FileOf(s0, f0) && ViewOf(f0, f0 + Since(s0, s1), view)
    requires forall r :: r in f0 + Since(s0, s2) ==> Fits(r)
    requires i < |ctxs| && ctxs[i].startRev <= CurrentRevision(s0) + 1
    ensures var ws := AfterRegistration(s0, f0, view, s2, ctxs).db.watchers;
            |ws| == |s2.db.watchers| + |ctxs|
            && ws[|s2.db.watchers| + i] == ctxs[i].(received := ctxs[i].received + Wanted(ctxs[i], LogEvents(f0 + Since(s0, s2))))
  {
    hide KvBytes, Replay, SerializeAll, PhaseOne, PhaseTwo, LogEvents, Selected, Fits, FileReplay, Coherent, Positive, Issued, ReplayFrom, Since, LogGrows;
    var more1, more2 := Since(s0, s1), Since(s0, s2);
    LogGrowsTransitive(s0, s1, s2);
    FileDates(s0, s1, f0);
    FileDates(s0, s2, f0);
    FitsAcross(f0, more1, more2);
    ReplayOnFile(ctxs, f0, more1, more2, view, CurrentRevision(s0), i);
  }

  lemma FitsAcross(f0: seq<Record>, more1: seq<Record>, more2: seq<Record>)
    requires more1 <= more2 && forall r :: r in f0 + more2 ==> Fits(r)
    ensures (forall r :: r in f0 + more1 ==> Fits(r)) && (forall r :: r in more2 ==> Fits(r))
  {
    forall r | r in f0 + more1 ensures Fits(r) { assert r in f0 + more2; }
    forall r | r in more2 ensures Fits(r) { assert r in f0 + more2; }
  }

  // ------------------------------------------------------- after registration

  /** What a watcher registered in state `s2` with `replayed` behind it should have received by `s`:
      the wanted part of both, the live part in its live form. */
  ghost function Due(c: Watcher, replayed: seq<Event>, s2: State, s: State): seq<Event> {
    Wanted(c, replayed) + LiveForm(c, Wanted(c, SentEvents(s2.db.mem, Since(s2, s))))
  }

  /** Some registered watcher with this subscription has received exactly that. */
  ghost predicate Held(s: State, c: Watcher, replayed: seq<Event>, s2: State) {
    exists w :: w in s.db.watchers && SameSubscription(c, w) && w.received == Due(c, replayed, s2, s)
  }

  lemma LiveFormConcat(c: Watcher, a: seq<Event>, b: seq<Event>)
    ensures LiveForm(c, a + b) == LiveForm(c, a) + LiveForm(c, b)
  {}

  lemma {:induction false} SentEventsConcat(m: Mem, a: seq<Record>, b: seq<Record>)
    ensures SentEvents(m, a + b) == SentEvents(m, a) + SentEvents(ReplayFrom(m, a), b)
  {
    hide SentEvent, ReplayFrom;
    if b == [] {
      assert a + b == a;
    } else {
      var n := |b| - 1;
      SentEventsConcat(m, a, b[..n]);
      ReplayConcat(m, a, b[..n]);
      assert (a + b)[..|a + b| - 1] == a + b[..n];
    }
  }

  /** Live events add up. */
  lemma DueMore(c: Watcher, replayed: seq<Event>, s2: State, s: State, s': State)
    requires LogGrows(s2, s) && LogGrows(s, s')
    ensures Due(c, replayed, s2, s) + LiveForm(c, Wanted(c, SentEvents(s.db.mem, Since(s, s')))) == Due(c, replayed, s2, s')
  {
    hide Coherent, Issued, ReplayFrom, Selected, LiveForm, SentEvents, Since;
    var a, b := Since(s2, s), Since(s, s');
    LogGrowsTransitive(s2, s, s');
    SentEventsConcat(s2.db.mem, a, b);
    var x, y := SentEvents(s2.db.mem, a), SentEvents(s.db.mem, b);
    SelectedConcat(c, x, y, true);
    LiveFormConcat(c, Wanted(c, x), Wanted(c, y));
    Associative(Wanted(c, replayed), LiveForm(c, Wanted(c, x)), LiveForm(c, Wanted(c, y)));
  }

  lemma SameSubscriptionSameEvents(c: Watcher, w: Watcher, es: seq<Event>)
    requires SameSubscription(c, w)
    ensures LiveForm(w, Wanted(w, es)) == LiveForm(c, Wanted(c, es))
  {
    SelectedIgnoresReceived(c, w, es, true);
  }

  lemma ActKeepsHeld(s: State, a: Action, c: Watcher, replayed: seq<Event>, s2: State)
    requires Coherent(s) && LogGrows(s2, s) && !a.DoReopen? && Held(s, c, replayed, s2)
    ensures Held(Step(s, a), c, replayed, s2)
  {
    hide Coherent, LogGrows, Step, Selected, LiveForm, SentEvents, Due, SendAll;
    var s' := Step(s, a);
    ActGrows(s, a);
    var w :| w in s.db.watchers && SameSubscription(c, w) && w.received == Due(c, replayed, s2, s);
    var m :| 0 <= m < |s.db.watchers| && s.db.watchers[m] == w;
    SendsNotify(s.db, Since(s, s'), m);
    SameSubscriptionSameEvents(c, w, SentEvents(s.db.mem, Since(s, s')));
    DueMore(c, replayed, s2, s, s');
    assert s'.db.watchers[m] in s'.db.watchers;
  }

  lemma WatchStepKeepsHeld(s: State, wa: WatchAction, c: Watcher, replayed: seq<Event>, s2: State)
    requires Coherent(s) && LogGrows(s2, s) && (wa.Act? ==> !wa.a.DoReopen?) && wa != Leave(c.id) && Held(s, c, replayed, s2)
    ensures Held(WatchStep(s, wa), c, replayed, s2)
  {
    hide Coherent, LogGrows, Step;
    match wa
    case Act(a) => ActKeepsHeld(s, a, c, replayed, s2);
    case Join(_) => SameLogHeld(s, WatchStep(s, wa), c, replayed, s2);
    case Leave(id) =>
      RetainedIsRest(s.db.watchers, id);
      SameLogHeld(s, WatchStep(s, wa), c, replayed, s2);
  }

  lemma SameLogHeld(s: State, s': State, c: Watcher, replayed: seq<Event>, s2: State)
    requires Held(s, c, replayed, s2) && s'.db.log == s.db.log
    requires forall w :: w in s.db.watchers && w.id == c.id ==> w in s'.db.watchers
    ensures Held(s', c, replayed, s2)
  {
    hide SentEvents, Selected, LiveForm;
    var w :| w in s.db.watchers && SameSubscription(c, w) && w.received == Due(c, replayed, s2, s);
    assert w.id == c.id && w.received == Due(c, replayed, s2, s');
  }

  lemma {:induction false} WatchRunKeepsHeld(s: State, was: seq<WatchAction>, c: Watcher, replayed: seq<Event>, s2: State)
    requires Coherent(s) && LogGrows(s2, s) && Watching(was) && Stays(was, c.id) && Held(s, c, replayed, s2)
    ensures Held(WatchRun(s, was), c, replayed, s2)
  {
    hide Coherent, Held, LogGrows;
    if was != [] {
      var m := |was| - 1;
      assert was[m] in was && forall wa :: wa in was[..m] ==> wa in was;
      var s1 := WatchRun(s, was[..m]);
      WatchRunGrows(s, was[..m]);
      LogGrowsTransitive(s2, s, s1);
      GrownCoherent(s, s1);
      WatchRunKeepsHeld(s, was[..m], c, replayed, s2);
      WatchStepKeepsHeld(s1, was[m], c, replayed, s2);
    }
  }

  lemma GrownCoherent(s: State, s': State)
    requires LogGrows(s, s')
    ensures Coherent(s')
  {}

  /** Registration adds watchers and nothing else. */
  lemma {:induction false} HeldAtRegistration(s2: State, sr: State, m: nat, c: Watcher, replayed: seq<Event>)
    requires Coherent(s2) && sr == s2.(db := s2.db.(watchers := sr.db.watchers))
    requires m < |sr.db.watchers| && c.received == [] && sr.db.watchers[m] == c.(received := c.received + Wanted(c, replayed))
    ensures Coherent(sr) && LogGrows(s2, sr) && Held(sr, c, replayed, s2)
  {
    hide Selected, Replay;
    NothingWanted(c);
    NoGrowth(s2);
    assert Since(s2, sr) == [] && s2.db.log + [] == s2.db.log;
    var w := sr.db.watchers[m];
    assert Due(c, replayed, s2, sr) == Wanted(c, replayed) + LiveForm(c, Wanted(c, []));
    assert Wanted(c, []) == [] && w.received == Due(c, replayed, s2, sr);
    assert w in sr.db.watchers;
  }

  /** Exactly once. For every interleaving: any operations and any other watches coming and going
      between checkpoint and scan, until the lock is taken and after registration, and any view of the
      file that reaches the checkpoint offset. The store may be in any coherent state, its file
      compacted or not. A context that starts at most one past the checkpoint receives the wanted
      events of the file up to registration and of what is sent afterwards, each once and in order;
      those replayed carry their previous value, the live ones carry it if the watcher asked for it. */
  lemma WatchExactlyOnce(s0: State, f0: seq<Record>, a1: seq<WatchAction>, view: Blob, a2: seq<WatchAction>,
                         ctxs: seq<Watcher>, a3: seq<WatchAction>, i: nat)
    requires Coherent(s0) && FileOf(s0, f0) && Watching(a1) && Watching(a2) && Watching(a3)
    requires ViewOf(f0, f0 + Since(s0, WatchRun(s0, a1)), view)
    requires forall r :: r in f0 + Since(s0, WatchRun(WatchRun(s0, a1), a2)) ==> Fits(r)
    requires i < |ctxs| && ctxs[i].received == [] && Stays(a3, ctxs[i].id) && ctxs[i].startRev <= CurrentRevision(s0) + 1
    ensures var s2 := WatchRun(WatchRun(s0, a1), a2);
            var s3 := WatchRun(AfterRegistration(s0, f0, view, s2, ctxs), a3);
            Held(s3, ctxs[i], LogEvents(f0 + Since(s0, s2)), s2)
  {
    hide *;
    var s1 := WatchRun(s0, a1);
    var s2 := WatchRun(s1, a2);
    var sr := AfterRegistration(s0, f0, view, s2, ctxs);
    WatchRunGrows(s0, a1);
    GrownCoherent(s0, s1);
    WatchRunGrows(s1, a2);
    GrownCoherent(s1, s2);
    RegistrationSendsWanted(s0, f0, s1, view, s2, ctxs, i);
    RegisterOnly(s0, f0, view, s2, ctxs);
    HeldAtRegistration(s2, sr, |s2.db.watchers| + i, ctxs[i], LogEvents(f0 + Since(s0, s2)));
    WatchRunKeepsHeld(sr, a3, ctxs[i], LogEvents(f0 + Since(s0, s2)), s2);
  }

  lemma RegisterOnly(s0: State, f0: seq<Record>, view: Blob, s2: State, ctxs: seq<Watcher>)
    ensures var sr := AfterRegistration(s0, f0, view, s2, ctxs); sr == s2.(db := s2.db.(watchers := sr.db.watchers))
  {}

  /** A store in any state it can reach, by any operations, compactions and restarts since it was
      created, serves watches exactly once. */
  lemma WatchExactlyOnceOnDisk(actions: seq<DiskAction>, a1: seq<WatchAction>, view: Blob, a2: seq<WatchAction>,
                               ctxs: seq<Watcher>, a3: seq<WatchAction>, i: nat)
    requires DiskRunning(actions) && Watching(a1) && Watching(a2) && Watching(a3)
    requires var d := DiskRun(NEW_DISK, actions); ViewOf(d.file, d.file + Since(d.s, WatchRun(d.s, a1)), view)
    requires var d := DiskRun(NEW_DISK, actions); forall r :: r in d.file + Since(d.s, WatchRun(WatchRun(d.s, a1), a2)) ==> Fits(r)
    requires i < |ctxs| && ctxs[i].received == [] && Stays(a3, ctxs[i].id)
    requires ctxs[i].startRev <= CurrentRevision(DiskRun(NEW_DISK, actions).s) + 1
    ensures var d := DiskRun(NEW_DISK, actions);
            var s2 := WatchRun(WatchRun(d.s, a1), a2);
            var s3 := WatchRun(AfterRegistration(d.s, d.file, view, s2, ctxs), a3);
            Held(s3, ctxs[i], LogEvents(d.file + Since(d.s, s2)), s2)
  {
    hide *;
    var d := DiskRun(NEW_DISK, actions);
    DiskFile(actions);
    WatchExactlyOnce(d.s, d.file, a1, view, a2, ctxs, a3, i);
  }

  lemma DiskFile(actions: seq<DiskAction>)
    requires DiskRunning(actions)
    ensures var d := DiskRun(NEW_DISK, actions); Coherent(d.s) && FileOf(d.s, d.file)
  {
    hide Lineage, Replay;
    DiskRunKeepsInv(actions);
    var d := DiskRun(NEW_DISK, actions);
    var cut := FileCut(d);
    LineageRebuilds(d.file, cut, d.s.db.log, d.s.nextRev);
  }

  /** In particular a watcher created on an empty store holds exactly the wanted events of whatever
      follows. */
  lemma WatchFromTheBeginning(c: Watcher, was: seq<WatchAction>)
    requires Watching(was) && Stays(was, c.id) && c.received == [] && c.startRev <= 1
    ensures Held(WatchRun(AfterRegistration(INIT, [], [], INIT, [c]), was), c, [], INIT)
  {
    hide Held, FileReplay, KvBytes, LogGrows;
    NothingToRun();
    NoGrowth(INIT);
    WatchExactlyOnce(INIT, [], [], [], [], [c], was, 0);
  }

  lemma NothingToRun()
    ensures Coherent(INIT) && WatchRun(INIT, []) == INIT && SerializeAll([]) == [] && LogEvents([]) == []
  {}
}
