/** Which watch requests are served: the effective start revision, the bound that makes replay
    exact, and the rejection of duplicate watch ids. */
module WatchAdmission {
  import opened Bytes
  import opened Varint
  import opened Wal
  import opened Ranges
  import opened KeyMap
  import opened StoreSpec
  import opened Commits
  import opened Sends
  import opened Watch
  import opened History
  import HistoricalRead
  import Scanner

  // --------------------------------------------------------------- start revision

  /** No start revision means "now", resolved when the request is read. */
  function ResolveStart(s: State, requested: nat): nat {
    if requested == 0 then CurrentRevision(s) + 1 else requested
  }

  /** A start revision that is given is kept. Without one, a watch starts after everything logged when
      the request is read and before everything logged later, and never past a later checkpoint plus
      one. */
  lemma DefaultStartIsSafe(s: State, s0: State)
    requires Coherent(s) && LogGrows(s, s0)
    ensures forall n: nat :: n > 0 ==> ResolveStart(s, n) == n
    ensures (forall r :: r in s.db.log ==> r.modRev < ResolveStart(s, 0)) && (forall r :: r in Since(s, s0) ==> r.modRev >= ResolveStart(s, 0))
    ensures ResolveStart(s, 0) <= CurrentRevision(s0) + 1
  {}

  datatype Admission = Compacted | TooLarge | Admitted

  const MAX_GAP: nat := 10_000

  function Admit(startRev: nat, compactRev: nat, currentRev: nat): Admission {
    if startRev > 0 && startRev < compactRev then Compacted
    else if startRev > currentRev && startRev - currentRev > MAX_GAP then TooLarge
    else Admitted
  }

  /** A watch is refused exactly if its start lies before the compaction mark or more than ten thousand
      revisions past the clock. */
  lemma AdmissionMeaning(startRev: nat, compactRev: nat, currentRev: nat)
    ensures Admit(startRev, compactRev, currentRev) == Compacted <==> 0 < startRev < compactRev
    ensures Admit(startRev, compactRev, currentRev) == TooLarge <==> !(0 < startRev < compactRev) && startRev > currentRev + 10_000
  {}

  // ------------------------------------------------------- records and their events

  /** The context's range and filters let the record's event through. */
  predicate LetsThrough(c: Watcher, r: Record) {
    Matches(c.bound, r.key) && (if Deleted(r) then 1 !in c.filters else 0 !in c.filters)
  }

  predicate WantedRecord(c: Watcher, r: Record) { r.modRev >= c.startRev && LetsThrough(c, r) }

  /** Filter 0 withholds puts, filter 1 withholds deletes. */
  predicate Through(c: Watcher, e: Event) {
    Matches(c.bound, e.key) && (if e.isDelete then 1 !in c.filters else 0 !in c.filters)
  }

  lemma SelectedLast(c: Watcher, es: seq<Event>, e: Event, checkStart: bool)
    ensures Selected(c, es + [e], checkStart)
         == Selected(c, es, checkStart) + if (checkStart ==> e.rev >= c.startRev) && Through(c, e) then [e] else []
  {
    assert (es + [e])[..|es|] == es;
  }

  /** Events `from` on belong to the records from there on. */
  lemma {:induction false} EventOfRecord(log: seq<Record>, i: nat)
    requires i < |log|
    ensures LogEvents(log)[i] == RecordEvent(Replay(log[..i]).keys, log[i])
  {
    hide KvBytes, Replay, RecordEvent;
    if i < |log| - 1 {
      EventOfRecord(log[..|log| - 1], i);
      assert log[..|log| - 1][..i] == log[..i];
    }
  }

  lemma EventsOfMore(log: seq<Record>, more: seq<Record>, i: nat)
    requires i < |more|
    ensures var e := LogEvents(log + more)[|log|..][i];
            e.rev == more[i].modRev && e.key == more[i].key && e.isDelete == Deleted(more[i])
  {
    hide KvBytes, Replay;
    EventOfRecord(log + more, |log| + i);
  }

  // ------------------------------------------------------------- the start bound

  /** Leaving the start filter out makes no difference if and only if everything let through is at or
      above the start. */
  lemma {:induction false} UnfilteredIsExact(c: Watcher, es: seq<Event>)
    ensures |Selected(c, es, true)| <= |Selected(c, es, false)|
    ensures |Selected(c, es, true)| == |Selected(c, es, false)| <==> forall e :: e in es && Through(c, e) ==> e.rev >= c.startRev
    ensures Selected(c, es, false) == Selected(c, es, true) <==> forall e :: e in es && Through(c, e) ==> e.rev >= c.startRev
  {
    if es != [] {
      var init, last := es[..|es| - 1], es[|es| - 1];
      UnfilteredIsExact(c, init);
      assert es == init + [last];
      SelectedLast(c, init, last, true);
      SelectedLast(c, init, last, false);
      assert forall e :: e in es <==> e in init || e == last;
    }
  }

  lemma LetThroughAbove(c: Watcher, log: seq<Record>, more: seq<Record>)
    ensures (forall e :: e in LogEvents(log + more)[|log|..] && Through(c, e) ==> e.rev >= c.startRev)
       <==> (forall r :: r in more && LetsThrough(c, r) ==> r.modRev >= c.startRev)
  {
    hide LogEvents, Matches;
    var es := LogEvents(log + more)[|log|..];
    forall i | 0 <= i < |more|
      ensures es[i].rev == more[i].modRev && (Through(c, es[i]) <==> LetsThrough(c, more[i]))
    {
      EventsOfMore(log, more, i);
    }
    if forall e :: e in es && Through(c, e) ==> e.rev >= c.startRev {
      forall r | r in more && LetsThrough(c, r) ensures r.modRev >= c.startRev {
        var i :| 0 <= i < |more| && more[i] == r;
        assert es[i] in es;
      }
    }
    if forall r :: r in more && LetsThrough(c, r) ==> r.modRev >= c.startRev {
      forall e | e in es && Through(c, e) ensures e.rev >= c.startRev {
        var i :| 0 <= i < |es| && es[i] == e;
        assert more[i] in more;
      }
    }
  }

  /** What both phases deliver, start revision or not. */
  lemma PhasesDeliver(ctxs: seq<Watcher>, log: seq<Record>, more1: seq<Record>, more2: seq<Record>, view: Blob, checkpoint: nat, i: nat)
    requires Positive(log) && Positive(log + more2)
    requires (forall r :: r in log + more1 ==> Fits(r)) && (forall r :: r in more2 ==> Fits(r) && r.modRev > checkpoint)
    requires (forall r :: r in log ==> r.modRev <= checkpoint) && (forall r :: r in more1 ==> r.modRev > checkpoint)
    requires |SerializeAll(log)| <= |view| && view <= SerializeAll(log + more1) && i < |ctxs|
    ensures var cs := FileReplay(ctxs, view, SerializeAll(log + more2), |SerializeAll(log)|, checkpoint);
            |cs| == |ctxs|
            && cs[i].received == ctxs[i].received + Wanted(ctxs[i], LogEvents(log)) + Selected(ctxs[i], LogEvents(log + more2)[|log|..], false)
  {
    hide KvBytes, Replay, SerializeAll, PhaseOne, PhaseTwo, LogEvents, Selected, Fits;
    PhaseOneOnAnyView(ctxs, log, more1, view, checkpoint);
    var st1 := PhaseOne(ctxs, ScanSees(view), checkpoint);
    PhaseTwoOnFile(st1, log, more2, checkpoint);
    var st2 := PhaseTwo(st1, ScanSees(Scanner.From(SerializeAll(log + more2), |SerializeAll(log)|)), checkpoint);
    var es := LogEvents(log + more2)[|log|..];
    assert LogEvents(log)[0..] == LogEvents(log);
    var c, c1 := ctxs[i], st1.ctxs[i];
    assert c1 == c.(received := c.received + Selected(c, LogEvents(log), true));
    assert st2.ctxs[i] == c1.(received := c1.received + Selected(c1, es, false));
    SelectedIgnoresReceived(c, c1, es, false);
  }

  lemma WantedSplits(c: Watcher, log: seq<Record>, more: seq<Record>)
    ensures Wanted(c, LogEvents(log + more)) == Wanted(c, LogEvents(log)) + Wanted(c, LogEvents(log + more)[|log|..])
  {
    hide KvBytes, Replay, LogEvents, Selected;
    LogEventsSplit(log, more);
    assert LogEvents(log)[0..] == LogEvents(log);
    SelectedConcat(c, LogEvents(log), LogEvents(log + more)[|log|..], true);
  }

  lemma SamePrefix(a: seq<Event>, b: seq<Event>, x: seq<Event>, y: seq<Event>)
    ensures a + b + x == a + (b + y) <==> x == y
  {
    var l, r := a + b + x, a + (b + y);
    if l == r {
      assert x == l[|a + b|..] && y == r[|a + b|..];
    }
  }

  /** Replay is exact if and only if no record appended after the checkpoint that the range and the
      filters let through lies below the start revision: phase 2 does not look at it. */
  lemma StartBoundIsExact(ctxs: seq<Watcher>, log: seq<Record>, more1: seq<Record>, more2: seq<Record>, view: Blob, checkpoint: nat, i: nat)
    requires Positive(log) && Positive(log + more2)
    requires (forall r :: r in log + more1 ==> Fits(r)) && (forall r :: r in more2 ==> Fits(r) && r.modRev > checkpoint)
    requires (forall r :: r in log ==> r.modRev <= checkpoint) && (forall r :: r in more1 ==> r.modRev > checkpoint)
    requires |SerializeAll(log)| <= |view| && view <= SerializeAll(log + more1) && i < |ctxs|
    ensures var cs := FileReplay(ctxs, view, SerializeAll(log + more2), |SerializeAll(log)|, checkpoint);
            |cs| == |ctxs|
            && (cs[i].received == ctxs[i].received + Wanted(ctxs[i], LogEvents(log + more2))
                <==> forall r :: r in more2 && LetsThrough(ctxs[i], r) ==> r.modRev >= ctxs[i].startRev)
  {
    hide FileReplay, LogEvents, Selected, SerializeAll, Fits, Positive, LetsThrough, Through;
    PhasesDeliver(ctxs, log, more1, more2, view, checkpoint, i);
    var c, es := ctxs[i], LogEvents(log + more2)[|log|..];
    WantedSplits(c, log, more2);
    UnfilteredIsExact(c, es);
    LetThroughAbove(c, log, more2);
    SamePrefix(c.received, Wanted(c, LogEvents(log)), Selected(c, es, false), Wanted(c, es));
  }

  /** The failing starts are real: a start from two past the checkpoint up to the allowed gap is
      admitted. */
  lemma EarlyStartIsAdmitted(start: nat, checkpoint: nat, compactRev: nat, currentRev: nat)
    requires checkpoint + 2 <= start <= currentRev + MAX_GAP && compactRev <= checkpoint
    ensures Admit(start, compactRev, currentRev) == Admitted
  {}

  /** On an empty store: a watch on a key that starts at revision 2 is admitted, the key is put at
      revision 1 between the checkpoint and the lock, and the watcher receives that event. */
  lemma EarlyEventArrives(c: Watcher, key: Blob, value: Blob)
    requires c.startRev == 2 && c.received == [] && c.filters == [] && Matches(c.bound, key)
    requires Fits(PutRecord(map[], key, value, 0, 1))
    ensures Admit(c.startRev, INIT.compactRev, CurrentRevision(INIT)) == Admitted
    ensures var cs := FileReplay([c], [], SerializeAll([PutRecord(map[], key, value, 0, 1)]), 0, CurrentRevision(INIT));
            |cs| == 1 && |cs[0].received| == 1 && cs[0].received[0].rev == 1
  {
    hide KvBytes, FileReplay, Fits, SerializeRecord;
    var r := PutRecord(map[], key, value, 0, 1);
    EarlyStartIsAdmitted(2, 0, 0, 0);
    LoggedRecords(map[], key, value, 0, 1);
    var none: seq<Record> := [];
    assert none + [r] == [r] && none + none == none && SerializeAll(none) == [];
    PhasesDeliver([c], [], [], [r], [], 0, 0);
    var es := LogEvents([r])[0..];
    EventsOfMore([], [r], 0);
    assert es == [] + [es[0]];
    SelectedLast(c, [], es[0], false);
  }

  // ------------------------------------------------------------- previous values

  lemma PrevBytesOfLive(log: seq<Record>, k: Blob)
    requires Positive(log)
    ensures PrevBytes(Replay(log).keys, k) == [] <==> !Live(Replay(log).keys, k)
  {
    ReplayPositive(log);
  }

  lemma SameAppended(a: seq<Event>, b: seq<Event>, x: Event, y: Event)
    requires |a| == |b|
    ensures a + [x] == b + [y] <==> a == b && x == y
  {
    var l, r := a + [x], b + [y];
    if l == r {
      assert a == l[..|a|] && b == r[..|a|];
      assert x == l[|a|] && y == r[|a|];
    }
  }

  /** Every wanted record created its key. */
  ghost predicate WantedCreate(c: Watcher, log: seq<Record>) {
    forall i :: 0 <= i < |log| && WantedRecord(c, log[i]) ==> !Live(Replay(log[..i]).keys, log[i].key)
  }

  lemma WantedCreateSnoc(c: Watcher, log: seq<Record>, r: Record)
    ensures WantedCreate(c, log + [r]) <==> WantedCreate(c, log) && (WantedRecord(c, r) ==> !Live(Replay(log).keys, r.key))
  {
    hide Replay, WantedRecord;
    var all := log + [r];
    assert all[..|log|] == log && all[|log|] == r;
    forall i | 0 <= i < |log| ensures all[i] == log[i] && all[..i] == log[..i] {}
    if WantedCreate(c, all) {
      forall i | 0 <= i < |log| && WantedRecord(c, log[i]) ensures !Live(Replay(log[..i]).keys, log[i].key) {
        assert WantedRecord(c, all[i]);
      }
      if WantedRecord(c, r) { assert WantedRecord(c, all[|log|]); }
    }
  }

  /** Replayed events carry the previous value even to a watcher that did not ask for it, while live
      ones do not. The two streams agree if and only if every record the watcher wants of the log
      created its key: no wanted update, and no wanted delete. */
  lemma {:induction false} ReplayIgnoresPrevKvFlag(c: Watcher, log: seq<Record>)
    requires Positive(log) && !c.prevKv
    ensures Wanted(c, LogEvents(log)) == LiveForm(c, Wanted(c, LogEvents(log))) <==> WantedCreate(c, log)
  {
    if log != [] {
      var n := |log| - 1;
      var init, r := log[..n], log[n];
      PositivePrefix(log, n);
      ReplayIgnoresPrevKvFlag(c, init);
      assert log == init + [r];
      WantedCreateSnoc(c, init, r);
      PrevBytesOfLive(init, r.key);
      OneMoreWanted(c, LogEvents(init), RecordEvent(Replay(init).keys, r));
    }
  }

  lemma OneMoreWanted(c: Watcher, es: seq<Event>, e: Event)
    requires !c.prevKv
    ensures Wanted(c, es + [e]) == LiveForm(c, Wanted(c, es + [e]))
       <==> Wanted(c, es) == LiveForm(c, Wanted(c, es)) && (e.rev >= c.startRev && Through(c, e) ==> e.prevKvBytes == [])
  {
    hide Selected, Matches;
    SelectedLast(c, es, e, true);
    if e.rev >= c.startRev && Through(c, e) {
      LiveFormOne(c, Wanted(c, es), e);
      SameAppended(Wanted(c, es), LiveForm(c, Wanted(c, es)), e, e.(prevKvBytes := []));
    } else {
      assert Wanted(c, es + [e]) == Wanted(c, es);
    }
  }

  /** Put a key twice: the replayed second event shows the first value, the live one would not. */
  lemma ReplayShowsPreviousValue(c: Watcher, key: Blob, value: Blob) returns (log: seq<Record>)
    requires !c.prevKv && c.startRev <= 2 && c.filters == [] && Matches(c.bound, key) && |key| < TWO32
    ensures WfLog(log) && |log| == 2 && Wanted(c, LogEvents(log)) != LiveForm(c, Wanted(c, LogEvents(log)))
  {
    hide KvBytes, Selected, LiveForm, LogEvents;
    var first := HistoricalRead.PutNext([], key, value, 1);
    var second := HistoricalRead.PutNext([] + [first], key, value, 2);
    log := [] + [first] + [second];
    WfPositive(log);
    assert log[..1] == [] + [first];
    var r := log[1];
    assert r == second;
    assert WantedRecord(c, log[1]) && Live(Replay(log[..1]).keys, log[1].key);
    ReplayIgnoresPrevKvFlag(c, log);
  }

  // ---------------------------------------------------------------- swapped files

  lemma {:induction false} NoneWanted(c: Watcher, es: seq<Event>)
    ensures Wanted(c, es) == [] <==> forall e :: e in es ==> !(e.rev >= c.startRev && Through(c, e))
  {
    if es != [] {
      var init, last := es[..|es| - 1], es[|es| - 1];
      NoneWanted(c, init);
      assert es == init + [last];
      SelectedLast(c, init, last, true);
      assert forall e :: e in es <==> e in init || e == last;
    }
  }

  lemma NoneWantedOfMore(c: Watcher, log: seq<Record>, more: seq<Record>)
    ensures Wanted(c, LogEvents(log + more)[|log|..]) == [] <==> forall r :: r in more ==> !WantedRecord(c, r)
  {
    hide LogEvents, Matches, Selected;
    var es := LogEvents(log + more)[|log|..];
    NoneWanted(c, es);
    forall i | 0 <= i < |more|
      ensures (es[i].rev >= c.startRev && Through(c, es[i])) <==> WantedRecord(c, more[i])
    {
      EventsOfMore(log, more, i);
    }
    if forall e :: e in es ==> !(e.rev >= c.startRev && Through(c, e)) {
      forall r | r in more ensures !WantedRecord(c, r) {
        var i :| 0 <= i < |more| && more[i] == r;
        assert es[i] in es;
      }
    }
    if forall r :: r in more ==> !WantedRecord(c, r) {
      forall e | e in es ensures !(e.rev >= c.startRev && Through(c, e)) {
        var i :| 0 <= i < |es| && es[i] == e;
        assert more[i] in more;
      }
    }
  }

  /** A compaction that swaps in a file no longer than the checkpoint offset blinds phase 2: the
      contexts are left as phase 1 left them, so the replay is exact if and only if a context wants
      none of the records written after the checkpoint. */
  lemma SwapHidesCatchUp(ctxs: seq<Watcher>, log: seq<Record>, more1: seq<Record>, more2: seq<Record>, view: Blob,
                         swapped: seq<Record>, checkpoint: nat, i: nat)
    requires Positive(log) && forall r :: r in log + more1 ==> Fits(r)
    requires (forall r :: r in log ==> r.modRev <= checkpoint) && (forall r :: r in more1 ==> r.modRev > checkpoint)
    requires |SerializeAll(log)| <= |view| && view <= SerializeAll(log + more1)
    requires |SerializeAll(swapped)| <= |SerializeAll(log)| && i < |ctxs|
    ensures var cs := FileReplay(ctxs, view, SerializeAll(swapped), |SerializeAll(log)|, checkpoint);
            cs == PhaseOne(ctxs, ScanSees(view), checkpoint).ctxs && |cs| == |ctxs|
            && (cs[i].received == ctxs[i].received + Wanted(ctxs[i], LogEvents(log + more2))
                <==> forall r :: r in more2 ==> !WantedRecord(ctxs[i], r))
  {
    hide KvBytes, Replay, SerializeAll, PhaseOne, LogEvents, Selected, Fits, WantedRecord;
    NothingPastTheEnd(SerializeAll(swapped), |SerializeAll(log)|);
    PhaseOneOnAnyView(ctxs, log, more1, view, checkpoint);
    assert LogEvents(log)[0..] == LogEvents(log);
    var c := ctxs[i];
    WantedSplits(c, log, more2);
    NoneWantedOfMore(c, log, more2);
    SamePrefix(c.received, Wanted(c, LogEvents(log)), [], Wanted(c, LogEvents(log + more2)[|log|..]));
    assert c.received + Wanted(c, LogEvents(log)) + [] == c.received + Wanted(c, LogEvents(log));
  }

  lemma NothingPastTheEnd(file: Blob, offset: nat)
    requires |file| <= offset
    ensures ScanSees(Scanner.From(file, offset)) == []
  {
    assert Scanner.From(file, offset) == [];
    Scanner.ContinuedEnds(ReadOne, [], 0, []);
  }

  // ----------------------------------------------------------------- duplicate ids

  /** A context is rejected if its id is registered already or used earlier in the batch. */
  predicate IsDuplicate(existing: set<int>, active: seq<Watcher>, i: nat)
    requires i < |active|
  {
    active[i].id in existing || exists j :: 0 <= j < i && active[j].id == active[i].id
  }

  /** The contexts that stay, in order. */
  function Fresh(existing: set<int>, active: seq<Watcher>): seq<Watcher> {
    if active == [] then []
    else
      var n := |active| - 1;
      var rest := Fresh(existing, active[..n]);
      if IsDuplicate(existing, active, n) then rest else rest + [active[n]]
  }

  function Ids(ws: seq<Watcher>): set<int> { set i | 0 <= i < |ws| :: ws[i].id }

  predicate DistinctIds(ws: seq<Watcher>) {
    forall i, j :: 0 <= i < j < |ws| ==> ws[i].id != ws[j].id
  }

  /** What stays has distinct ids, none registered before, and no new id is lost. */
  lemma {:induction false} FreshIsExact(existing: set<int>, active: seq<Watcher>)
    ensures DistinctIds(Fresh(existing, active)) && Ids(Fresh(existing, active)) == Ids(active) - existing
  {
    if active != [] {
      var n := |active| - 1;
      var init, rest := active[..n], Fresh(existing, active[..n]);
      FreshIsExact(existing, init);
      assert Ids(active) == Ids(init) + {active[n].id} by {
        assert forall i :: 0 <= i < n ==> active[i] == init[i];
        forall x | x in Ids(active) ensures x in Ids(init) + {active[n].id} {
          var i :| 0 <= i < |active| && active[i].id == x;
          if i < n { assert init[i].id == x; }
        }
      }
      assert IsDuplicate(existing, active, n) <==> active[n].id in existing || active[n].id in Ids(init);
      if !IsDuplicate(existing, active, n) {
        var all := rest + [active[n]];
        forall i | 0 <= i < |rest| ensures rest[i].id != active[n].id { assert rest[i].id in Ids(rest); }
        assert Ids(all) == Ids(rest) + {active[n].id} by {
          forall x | x in Ids(rest) + {active[n].id} ensures x in Ids(all) {
            if x in Ids(rest) {
              var i :| 0 <= i < |rest| && rest[i].id == x;
              assert all[i].id == x;
            } else {
              assert all[|rest|].id == x;
            }
          }
          forall x | x in Ids(all) ensures x in Ids(rest) + {active[n].id} {
            var i :| 0 <= i < |all| && all[i].id == x;
            if i < |rest| { assert rest[i].id == x; }
          }
        }
      }
    }
  }

  /** `swap_remove`: the last element takes the place of the removed one. */
  function SwapRemove(s: seq<Watcher>, i: nat): seq<Watcher>
    requires i < |s|
  {
    s[i := s[|s| - 1]][..|s| - 1]
  }

  lemma Cancel(a: multiset<Watcher>, b: multiset<Watcher>, c: multiset<Watcher>)
    requires a + c == b + c
    ensures a == b
  {
    forall x ensures a[x] == b[x] { assert (a + c)[x] == (b + c)[x]; }
  }

  lemma SwapRemoveKeeps(s: seq<Watcher>, i: nat)
    requires i < |s|
    ensures multiset(SwapRemove(s, i)) + multiset{s[i]} == multiset(s)
    ensures SwapRemove(s, i)[..i] == s[..i]
  {
    var n := |s| - 1;
    var t := s[i := s[n]];
    LastStays(s, i);
    UpdateMultiset(s, i, s[n]);
    SplitLast(t);
    var a, x, y, b := multiset(t[..n]), multiset{s[n]}, multiset{s[i]}, multiset(s);
    Rearrange(a, x, y, b);
  }

  lemma LastStays(s: seq<Watcher>, i: nat)
    requires i < |s|
    ensures var n := |s| - 1; var t := s[i := s[n]]; |t| == |s| && t[n] == s[n] && t[..n][..i] == s[..i]
  {}

  lemma UpdateMultiset(s: seq<Watcher>, i: nat, v: Watcher)
    requires i < |s|
    ensures multiset(s[i := v]) + multiset{s[i]} == multiset(s) + multiset{v}
  {
    SplitAt(s, i);
    SplitAt(s[i := v], i);
    assert s[i := v][..i] == s[..i] && s[i := v][i + 1..] == s[i + 1..];
  }

  lemma SplitAt(s: seq<Watcher>, i: nat)
    requires i < |s|
    ensures multiset(s) == multiset(s[..i]) + multiset{s[i]} + multiset(s[i + 1..])
  {
    assert s == s[..i] + [s[i]] + s[i + 1..];
  }

  lemma SplitLast(s: seq<Watcher>)
    requires s != []
    ensures multiset(s) == multiset(s[..|s| - 1]) + multiset{s[|s| - 1]}
  {
    assert s == s[..|s| - 1] + [s[|s| - 1]];
  }

  lemma Rearrange(a: multiset<Watcher>, x: multiset<Watcher>, y: multiset<Watcher>, b: multiset<Watcher>)
    requires (a + x) + y == b + x
    ensures a + y == b
  {
    assert (a + y) + x == b + x;
    Cancel(a + y, b, x);
  }

  function Duplicates(existing: set<int>, active: seq<Watcher>, from: nat): multiset<Watcher>
    requires from <= |active|
    decreases |active| - from
  {
    if from == |active| then multiset{}
    else Duplicates(existing, active, from + 1) + if IsDuplicate(existing, active, from) then multiset{active[from]} else multiset{}
  }

  /** Moving one element from one side of a balance to the other. */
  lemma Balance(f: multiset<Watcher>, d0: multiset<Watcher>, a: multiset<Watcher>, d: multiset<Watcher>, x: Watcher)
    requires f + d0 == a + (d + multiset{x})
    ensures f + d0 == (a + multiset{x}) + d
  {}

  lemma BalanceBoth(f: multiset<Watcher>, d0: multiset<Watcher>, a: multiset<Watcher>, d: multiset<Watcher>, x: Watcher)
    requires f + d0 == a + d
    ensures (f + multiset{x}) + d0 == (a + multiset{x}) + d
  {
    assert (f + multiset{x}) + d0 == (f + d0) + multiset{x};
    assert (a + multiset{x}) + d == (a + d) + multiset{x};
  }

  lemma {:induction false} DuplicatesAndFresh(existing: set<int>, active: seq<Watcher>, n: nat)
    requires n <= |active|
    ensures multiset(Fresh(existing, active[..n])) + Duplicates(existing, active, 0)
         == multiset(active[..n]) + Duplicates(existing, active, n)
  {
    if n > 0 {
      var x, init := active[n - 1], active[..n - 1];
      DuplicatesAndFresh(existing, active, n - 1);
      FreshSnoc(existing, active, n);
      SplitLast(active[..n]);
      assert active[..n][..n - 1] == init;
      var f, d0, d := multiset(Fresh(existing, init)), Duplicates(existing, active, 0), Duplicates(existing, active, n);
      if IsDuplicate(existing, active, n - 1) {
        Balance(f, d0, multiset(init), d, x);
      } else {
        BalanceBoth(f, d0, multiset(init), d, x);
      }
    }
  }

  lemma FreshSnoc(existing: set<int>, active: seq<Watcher>, n: nat)
    requires 0 < n <= |active|
    ensures var x, f := active[n - 1], Fresh(existing, active[..n - 1]);
            multiset(Fresh(existing, active[..n]))
            == if IsDuplicate(existing, active, n - 1) then multiset(f) else multiset(f) + multiset{x}
    ensures !IsDuplicate(existing, active, n - 1) ==> Duplicates(existing, active, n - 1) == Duplicates(existing, active, n)
  {
    assert active[..n][..n - 1] == active[..n - 1];
    assert IsDuplicate(existing, active[..n], n - 1) <==> IsDuplicate(existing, active, n - 1) by {
      assert forall j :: 0 <= j < n ==> active[..n][j] == active[j];
    }
  }

  /** Which indices to reject is decided on the batch as it came in; they are then swap-removed from
      the last to the first. What is left is exactly the fresh contexts, in some order. */
  method RejectDuplicates(existing: set<int>, active: seq<Watcher>) returns (kept: seq<Watcher>)
    ensures multiset(kept) == multiset(Fresh(existing, active))
  {
    kept := active;
    var i: nat := |active|;
    while i > 0
      invariant i <= |active| && i <= |kept| && kept[..i] == active[..i]
      invariant multiset(kept) + Duplicates(existing, active, i) == multiset(active)
    {
      i := i - 1;
      assert kept[i] == kept[..i + 1][i] == active[i];
      assert kept[..i] == kept[..i + 1][..i] == active[..i];
      if IsDuplicate(existing, active, i) {
        SwapRemoveKeeps(kept, i);
        Rebalance(multiset(SwapRemove(kept, i)), Duplicates(existing, active, i + 1), active[i]);
        kept := SwapRemove(kept, i);
      }
    }
    DuplicatesAndFresh(existing, active, |active|);
    assert active[..|active|] == active;
    Cancel(multiset(kept), multiset(Fresh(existing, active)), Duplicates(existing, active, 0));
  }

  lemma Rebalance(k: multiset<Watcher>, d: multiset<Watcher>, x: Watcher)
    ensures (k + multiset{x}) + d == k + (d + multiset{x})
  {}
}
