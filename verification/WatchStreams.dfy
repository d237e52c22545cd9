/** How the streams a watcher can receive compare: what is replayed from a file with what the log
    holds, and what is sent live with what was logged. */
module WatchStreams {
  import opened Bytes
  import opened Varint
  import opened KvCodec
  import opened Wal
  import opened Ranges
  import opened OrderedKeys
  import opened KeyMap
  import opened StoreSpec
  import opened Commits
  import opened Sends
  import opened History
  import opened Runs
  import opened Compaction
  import opened Watch
  import opened WatchAdmission
  import HistoricalRead

  // ------------------------------------------------------------ events after a state

  /** The events of `recs` when `m` is the state before them. */
  function EventsFrom(m: Mem, recs: seq<Record>): (es: seq<Event>)
    ensures |es| == |recs|
  {
    if recs == [] then []
    else
      var n := |recs| - 1;
      EventsFrom(m, recs[..n]) + [RecordEvent(ReplayFrom(m, recs[..n]).keys, recs[n])]
  }

  lemma {:induction false} LogEventsFrom(log: seq<Record>, more: seq<Record>)
    ensures LogEvents(log + more) == LogEvents(log) + EventsFrom(Replay(log), more)
  {
    hide KvBytes, ReplayFrom, RecordEvent;
    if more == [] {
      assert log + more == log;
    } else {
      var n := |more| - 1;
      LogEventsFrom(log, more[..n]);
      ReplayConcat(EMPTY, log, more[..n]);
      SnocSplit(log, more);
    }
  }

  // ---------------------------------------------------------- what a channel carries

  /** What a watcher wants of a stream, in its own terms: the range, the start, and no put if filter 0
      is listed, no delete if filter 1 is. */
  lemma {:induction false} WantedMeaning(c: Watcher, es: seq<Event>, e: Event)
    ensures e in Wanted(c, es)
       <==> e in es && Matches(c.bound, e.key) && e.rev >= c.startRev && !(!e.isDelete && 0 in c.filters) && !(e.isDelete && 1 in c.filters)
  {
    if es != [] {
      var init, last := es[..|es| - 1], es[|es| - 1];
      WantedMeaning(c, init, e);
      assert es == init + [last];
      SelectedLast(c, init, last, true);
    }
  }

  /** An event as a watcher that did not ask for previous values is sent it live. */
  function AsSent(c: Watcher, e: Event): Event { if c.prevKv then e else e.(prevKvBytes := []) }

  lemma LiveFormMeaning(c: Watcher, es: seq<Event>, e: Event)
    ensures e in LiveForm(c, es) <==> exists x :: x in es && e == AsSent(c, x)
  {
    if e in LiveForm(c, es) {
      var i :| 0 <= i < |es| && LiveForm(c, es)[i] == e;
      assert es[i] in es && e == AsSent(c, es[i]);
    }
    if x :| x in es && e == AsSent(c, x) {
      var i :| 0 <= i < |es| && es[i] == x;
      assert LiveForm(c, es)[i] == e;
    }
  }

  /** Filters on the channel: what a watcher holds, in the states of the exactly-once theorem, is
      withheld from it exactly by the literal filters 0, for puts, and 1, for deletes. */
  lemma ChannelMeaning(c: Watcher, replayed: seq<Event>, s2: State, s: State)
    ensures var held, sent := Due(c, replayed, s2, s), SentEvents(s2.db.mem, Since(s2, s));
            (forall e :: e in held ==> Matches(c.bound, e.key) && e.rev >= c.startRev)
            && (0 in c.filters ==> forall e :: e in held ==> e.isDelete)
            && (1 in c.filters ==> forall e :: e in held ==> !e.isDelete)
            && (forall e :: e in replayed && e.rev >= c.startRev && Through(c, e) ==> e in held)
            && (forall e :: e in sent && e.rev >= c.startRev && Through(c, e) ==> AsSent(c, e) in held)
  {
    hide Selected, LiveForm, SentEvents, Matches;
    var sent := SentEvents(s2.db.mem, Since(s2, s));
    var live := LiveForm(c, Wanted(c, sent));
    assert Due(c, replayed, s2, s) == Wanted(c, replayed) + live;
    forall e ensures e in Wanted(c, replayed) <==> e in replayed && e.rev >= c.startRev && Through(c, e) { WantedMeaning(c, replayed, e); }
    forall e ensures e in Wanted(c, sent) <==> e in sent && e.rev >= c.startRev && Through(c, e) { WantedMeaning(c, sent, e); }
    forall e ensures e in live <==> exists x :: x in Wanted(c, sent) && e == AsSent(c, x) { LiveFormMeaning(c, Wanted(c, sent), e); }
    forall e | e in sent && e.rev >= c.startRev && Through(c, e) ensures AsSent(c, e) in live { assert e in Wanted(c, sent); }
  }

  // ------------------------------------------------------------- sent and logged

  /** What is sent has the revision, kind, key and previous value of what is logged. */
  lemma SentLikeRecord(keys: Keys, r: Record)
    ensures SentEvent(keys, r).(kvBytes := []) == RecordEvent(keys, r).(kvBytes := [])
  {}

  lemma {:induction false} SentLikeLogged(m: Mem, recs: seq<Record>, j: nat)
    requires j < |recs|
    ensures SentEvents(m, recs)[j].(kvBytes := []) == EventsFrom(m, recs)[j].(kvBytes := [])
  {
    hide SentEvent, RecordEvent, ReplayFrom;
    var n := |recs| - 1;
    if j < n { SentLikeLogged(m, recs[..n], j); } else { SentLikeRecord(ReplayFrom(m, recs[..n]).keys, recs[n]); }
  }

  /** The entry is there, and its blob says of creation revision and version what it says. */
  predicate CurrentAt(keys: Keys, k: Blob) { k in keys && BlobCurrent(k, keys[k]) }

  /** The bytes agree as well unless a delete finds a blob that is no longer current. */
  lemma SentIsRecord(keys: Keys, r: Record)
    requires IssuedAt(keys, r) && Representable(KvOf(r)) && (r.key in keys ==> Shaped(r.key, keys[r.key]))
    ensures SentEvent(keys, r) == RecordEvent(keys, r) <==> (Deleted(r) ==> CurrentAt(keys, r.key))
  {
    hide BlobCurrent, DeleteEvent, RecordEvent, KvBytes, Encode;
    if Deleted(r) {
      var ks := keys[r.key];
      var own: Kv :| Representable(own) && ks.kvBytes == Encode(own)
                     && own == StateKv(r.key, ks).(createRev := own.createRev, version := own.version);
      assert KvOf(r) == StateKv(r.key, ks).(modRev := r.modRev);
      DeleteEventIsExact(keys, r.key, r.modRev);
    }
  }

  /** Every wanted delete finds a current blob. */
  ghost predicate WantedDeletesCurrent(c: Watcher, m: Mem, recs: seq<Record>) {
    forall j :: 0 <= j < |recs| && Deleted(recs[j]) && WantedRecord(c, recs[j]) ==>
      CurrentAt(ReplayFrom(m, recs[..j]).keys, recs[j].key)
  }

  lemma WantedDeletesSnoc(c: Watcher, m: Mem, recs: seq<Record>, r: Record)
    ensures WantedDeletesCurrent(c, m, recs + [r])
       <==> WantedDeletesCurrent(c, m, recs)
            && (Deleted(r) && WantedRecord(c, r) ==> CurrentAt(ReplayFrom(m, recs).keys, r.key))
  {
    hide ReplayFrom, WantedRecord, Deleted, CurrentAt;
    var all := recs + [r];
    assert all[..|recs|] == recs && all[|recs|] == r;
    forall j | 0 <= j < |recs| ensures all[j] == recs[j] && all[..j] == recs[..j] {}
    if WantedDeletesCurrent(c, m, all) {
      forall j | 0 <= j < |recs| && Deleted(recs[j]) && WantedRecord(c, recs[j]) ensures CurrentAt(ReplayFrom(m, recs[..j]).keys, recs[j].key) {
        assert Deleted(all[j]) && WantedRecord(c, all[j]);
      }
      if Deleted(r) && WantedRecord(c, r) { assert Deleted(all[|recs|]); }
    }
  }

  /** The same events except for the bytes of the key-value. */
  predicate AlikeEvents(a: seq<Event>, b: seq<Event>) {
    |a| == |b| && forall i :: 0 <= i < |a| ==> a[i].(kvBytes := []) == b[i].(kvBytes := [])
  }

  lemma SelectsAlike(c: Watcher, es: seq<Event>, fs: seq<Event>, e: Event, f: Event)
    requires e.(kvBytes := []) == f.(kvBytes := []) && AlikeEvents(Wanted(c, es), Wanted(c, fs))
    ensures AlikeEvents(Wanted(c, es + [e]), Wanted(c, fs + [f]))
    ensures Wanted(c, es + [e]) == Wanted(c, fs + [f])
       <==> Wanted(c, es) == Wanted(c, fs) && (e.rev >= c.startRev && Through(c, e) ==> e == f)
  {
    hide Selected, Matches;
    assert e.rev == f.rev && e.key == f.key && e.isDelete == f.isDelete;
    SelectedLast(c, es, e, true);
    SelectedLast(c, fs, f, true);
    if e.rev >= c.startRev && Through(c, e) {
      SameAppended(Wanted(c, es), Wanted(c, fs), e, f);
    } else {
      assert Wanted(c, es + [e]) == Wanted(c, es) && Wanted(c, fs + [f]) == Wanted(c, fs);
    }
  }

  /** The stream sent live is the logged one, byte for byte, if and only if every delete the watcher
      wants finds a current blob. */
  lemma {:induction false} SentBytesAreExact(c: Watcher, log: seq<Record>, recs: seq<Record>)
    requires Issued(Replay(log), recs) && forall r :: r in log + recs ==> Representable(KvOf(r))
    ensures AlikeEvents(Wanted(c, SentEvents(Replay(log), recs)), Wanted(c, EventsFrom(Replay(log), recs)))
    ensures Wanted(c, SentEvents(Replay(log), recs)) == Wanted(c, EventsFrom(Replay(log), recs))
       <==> WantedDeletesCurrent(c, Replay(log), recs)
  {
    hide SentEvent, RecordEvent, ReplayFrom, Selected, Representable, IssuedAt, CurrentAt, KvOf, WantedRecord;
    if recs == [] {
      NothingWanted(c);
    } else {
      var n := |recs| - 1;
      var init, r, m := recs[..n], recs[n], Replay(log);
      assert recs == init + [r] && r in log + recs;
      forall x | x in log + init ensures Representable(KvOf(x)) { assert x in log + recs; }
      SentBytesAreExact(c, log, init);
      WantedDeletesSnoc(c, m, init, r);
      var keys := ReplayFrom(m, init).keys;
      ReplayFromStart(log, init);
      ReplayShaped(log + init);
      SentIsRecord(keys, r);
      SentLikeRecord(keys, r);
      SelectsAlike(c, SentEvents(m, init), EventsFrom(m, init), SentEvent(keys, r), RecordEvent(keys, r));
      RecordThrough(c, keys, r);
    }
  }

  lemma RecordThrough(c: Watcher, keys: Keys, r: Record)
    ensures SentEvent(keys, r).rev >= c.startRev && Through(c, SentEvent(keys, r)) <==> WantedRecord(c, r)
  {}

  lemma LiveFormsDiffer(c: Watcher, a: seq<Event>, b: seq<Event>)
    requires AlikeEvents(a, b)
    ensures LiveForm(c, a) == LiveForm(c, b) <==> a == b
  {
    if LiveForm(c, a) == LiveForm(c, b) {
      forall i | 0 <= i < |a| ensures a[i] == b[i] {
        assert LiveForm(c, a)[i] == LiveForm(c, b)[i];
        assert a[i].(kvBytes := []) == b[i].(kvBytes := []);
      }
    }
  }

  /** What a watcher received since it was registered, in any state a store can reach, is the logged
      stream byte for byte if and only if every delete it wanted found a current blob. */
  lemma DueBytesAreExact(c: Watcher, replayed: seq<Event>, s2: State, s3: State)
    requires Coherent(s2) && LogGrows(s2, s3) && forall r :: r in s3.db.log ==> Representable(KvOf(r))
    ensures Due(c, replayed, s2, s3) == Wanted(c, replayed) + LiveForm(c, Wanted(c, EventsFrom(s2.db.mem, Since(s2, s3))))
       <==> WantedDeletesCurrent(c, s2.db.mem, Since(s2, s3))
  {
    hide Replay, ReplayFrom, Issued, Selected, LiveForm, SentEvents, EventsFrom, WantedDeletesCurrent, Representable, Since;
    var recs := Since(s2, s3);
    SentBytesAreExact(c, s2.db.log, recs);
    var a, b := Wanted(c, SentEvents(s2.db.mem, recs)), Wanted(c, EventsFrom(s2.db.mem, recs));
    LiveFormsDiffer(c, a, b);
    SamePrefix([], Wanted(c, replayed), LiveForm(c, a), LiveForm(c, b));
    assert [] + Wanted(c, replayed) == Wanted(c, replayed);
    assert [] + (Wanted(c, replayed) + LiveForm(c, b)) == Wanted(c, replayed) + LiveForm(c, b);
  }

  /** On a well-formed log nothing differs. */
  lemma {:induction false} WfSentIsLogged(log: seq<Record>, recs: seq<Record>)
    requires WfLog(log + recs)
    ensures SentEvents(Replay(log), recs) == EventsFrom(Replay(log), recs)
  {
    hide SentEvent, RecordEvent, ReplayFrom;
    if recs != [] {
      var n := |recs| - 1;
      SnocSplit(log, recs);
      WfLogPrefix(log + recs, |log| + n);
      WfSentIsLogged(log, recs[..n]);
      ReplayFromStart(log, recs[..n]);
      WfSentOne(log + recs[..n], recs[n]);
    }
  }

  lemma WfSentOne(log: seq<Record>, r: Record)
    requires WfLog(log + [r])
    ensures SentEvent(Replay(log).keys, r) == RecordEvent(Replay(log).keys, r)
  {
    hide Replay;
    assert (log + [r])[..|log|] == log;
    WfLogMem(log);
    if Deleted(r) { DeleteEventIsRecordEvent(Replay(log).keys, r.key, r.modRev); }
  }

  // ------------------------------------------------------- a compacted file and its log

  /** Similar states give the same events. */
  lemma {:induction false} SimilarEvents(a: Mem, b: Mem, recs: seq<Record>)
    requires Similar(a, b) && Positive(recs)
    ensures EventsFrom(a, recs) == EventsFrom(b, recs)
  {
    if recs != [] {
      var n := |recs| - 1;
      PositivePrefix(recs, n);
      SimilarEvents(a, b, recs[..n]);
      ReplayAlike(a, b, recs[..n]);
      SimilarEvent(ReplayFrom(a, recs[..n]), ReplayFrom(b, recs[..n]), recs[n]);
    }
  }

  lemma SimilarEvent(a: Mem, b: Mem, r: Record)
    requires Similar(a, b)
    ensures RecordEvent(a.keys, r) == RecordEvent(b.keys, r)
  {
    assert Live(a.keys, r.key) <==> Live(b.keys, r.key);
  }

  lemma SameSuffix(a: seq<Event>, b: seq<Event>, x: seq<Event>)
    ensures a + x == b + x <==> a == b
  {
    var l, r := a + x, b + x;
    if l == r {
      assert |a| == |b|;
      assert a == l[..|a|] && b == r[..|a|];
    }
  }

  /** A file and its log differ for a watcher exactly where the snapshot and what it stands for do. */
  lemma OnlyTheSnapshotCounts(c: Watcher, file: seq<Record>, cut: nat, log: seq<Record>)
    requires Lineage(file, cut, log) && WfLog(log)
    ensures Wanted(c, LogEvents(file)) == Wanted(c, LogEvents(log))
       <==> Wanted(c, LogEvents(SnapshotLog(Replay(log[..cut]).keys))) == Wanted(c, LogEvents(log[..cut]))
  {
    hide Replay, ReplayFrom, SnapshotLog, Similar, WfLog, LogEvents, Selected, Positive;
    var front, rest := log[..cut], log[cut..];
    var snapshot := SnapshotLog(Replay(front).keys);
    WfPositive(log);
    PositiveOfWf(log);
    SplitLog(log, cut);
    WfLogPrefix(log, cut);
    WfLogMem(front);
    SnapshotSimilar(Replay(front));
    LogEventsFrom(snapshot, rest);
    LogEventsFrom(front, rest);
    SimilarEvents(Replay(snapshot), Replay(front), rest);
    var es := EventsFrom(Replay(front), rest);
    SelectedConcat(c, LogEvents(snapshot), es, true);
    SelectedConcat(c, LogEvents(front), es, true);
    SameSuffix(Wanted(c, LogEvents(snapshot)), Wanted(c, LogEvents(front)), Wanted(c, es));
  }

  lemma PositiveOfWf(log: seq<Record>)
    requires WfLog(log)
    ensures Positive(log)
  {
    WfPositive(log);
  }

  // ------------------------------------------------------------ the events of a snapshot

  /** The event of a key's entry as a snapshot shows it: a creation. */
  function EntryEvent(keys: Keys, k: Blob): Event
    requires k in keys
  {
    Event(keys[k].modRev, false, k, keys[k].kvBytes, [])
  }

  function EntryEvents(keys: Keys, ks: seq<Blob>): seq<Event>
    requires forall k :: k in ks ==> k in keys
  {
    seq(|ks|, i requires 0 <= i < |ks| => EntryEvent(keys, ks[i]))
  }

  lemma {:induction false} SnapshotEvents(keys: Keys, ks: seq<Blob>)
    requires Distinct(ks) && forall k :: k in ks ==> k in keys && Alive(keys[k]) && EntryOk(k, keys[k])
    ensures LogEvents(SnapshotOf(keys, ks)) == EntryEvents(keys, ks)
  {
    hide KvBytes, Replay, StateBytes, EntryOk, Restored, SnapshotRecord, Deleted;
    if ks != [] {
      var n := |ks| - 1;
      var recs, init := SnapshotOf(keys, ks), ks[..n];
      SnapshotEvents(keys, init);
      ReplaySnapshotOf(keys, init);
      assert recs[..n] == SnapshotOf(keys, init);
      assert ks[n] in ks && ks[n] !in init;
      SnapshotBlob(ks[n], keys[ks[n]]);
      assert !Live(Replay(recs[..n]).keys, ks[n]);
      assert EntryEvents(keys, ks) == EntryEvents(keys, init) + [EntryEvent(keys, ks[n])];
    }
  }

  lemma SnapshotBlob(k: Blob, ks: KeyState)
    requires Alive(ks) && EntryOk(k, ks)
    ensures var r := SnapshotRecord(k, ks); r.key == k && r.modRev == ks.modRev && !Deleted(r) && KvBytes(r) == ks.kvBytes
  {
    assert KvOf(SnapshotRecord(k, ks)) == StateKv(k, ks);
  }

  /** The watcher wants the creation of this key. */
  predicate WantedKey(c: Watcher, keys: Keys, k: Blob) {
    Live(keys, k) && keys[k].modRev >= c.startRev && Matches(c.bound, k) && 0 !in c.filters
  }

  lemma {:induction false} WantedEntries(c: Watcher, keys: Keys, ks: seq<Blob>)
    requires forall k :: k in ks ==> k in keys && Alive(keys[k])
    ensures Wanted(c, EntryEvents(keys, ks)) == EntryEvents(keys, Filter(k => WantedKey(c, keys, k), ks))
  {
    hide Matches;
    var keep := k => WantedKey(c, keys, k);
    if ks != [] {
      var n := |ks| - 1;
      WantedEntries(c, keys, ks[..n]);
      assert ks[n] in ks;
      assert EntryEvents(keys, ks) == EntryEvents(keys, ks[..n]) + [EntryEvent(keys, ks[n])];
      SelectedLast(c, EntryEvents(keys, ks[..n]), EntryEvent(keys, ks[n]), true);
    }
  }

  /** The keys a watcher wants of a state, in order. */
  ghost function WantedKeys(c: Watcher, keys: Keys): (ks: seq<Blob>)
    ensures forall k :: k in ks <==> WantedKey(c, keys, k)
  {
    Filter(k => WantedKey(c, keys, k), InOrder(LiveKeys(keys)))
  }

  lemma SnapshotWanted(c: Watcher, m: Mem)
    requires MemOk(m)
    ensures Wanted(c, LogEvents(SnapshotLog(m.keys))) == EntryEvents(m.keys, WantedKeys(c, m.keys))
    ensures Ascending(WantedKeys(c, m.keys))
  {
    hide LogEvents, Selected, EntryEvents;
    var ks := InOrder(LiveKeys(m.keys));
    SortedDistinct(LiveKeys(m.keys));
    SnapshotEvents(m.keys, ks);
    WantedEntries(c, m.keys, ks);
    SortedAscends(LiveKeys(m.keys));
    FilterAscends(k => WantedKey(c, m.keys, k), ks);
  }

  // ------------------------------------------------------------ the events of a log

  /** The positions of the wanted records. */
  function Indices(c: Watcher, log: seq<Record>): (at: seq<nat>)
    ensures forall i :: i in at <==> 0 <= i < |log| && WantedRecord(c, log[i])
  {
    if log == [] then []
    else
      var n := |log| - 1;
      Indices(c, log[..n]) + if WantedRecord(c, log[n]) then [n] else []
  }

  predicate Rising(at: seq<nat>) { forall p, q :: 0 <= p < q < |at| ==> at[p] < at[q] }

  lemma {:induction false} IndicesRise(c: Watcher, log: seq<Record>)
    ensures Rising(Indices(c, log))
  {
    if log != [] {
      var n := |log| - 1;
      IndicesRise(c, log[..n]);
      forall p | 0 <= p < |Indices(c, log[..n])| ensures Indices(c, log[..n])[p] < n { assert Indices(c, log[..n])[p] in Indices(c, log[..n]); }
    }
  }

  lemma IndexBound(c: Watcher, log: seq<Record>, p: nat)
    requires p < |Indices(c, log)|
    ensures Indices(c, log)[p] < |log| && WantedRecord(c, log[Indices(c, log)[p]])
  {
    assert Indices(c, log)[p] in Indices(c, log);
  }

  lemma {:induction false} WantedByIndex(c: Watcher, log: seq<Record>)
    ensures |Wanted(c, LogEvents(log))| == |Indices(c, log)|
    ensures forall p :: 0 <= p < |Indices(c, log)| ==>
              Indices(c, log)[p] < |log| && Wanted(c, LogEvents(log))[p] == LogEvents(log)[Indices(c, log)[p]]
  {
    hide KvBytes, Replay, WantedRecord;
    if log != [] {
      var n := |log| - 1;
      var init := log[..n];
      WantedByIndex(c, init);
      LogEventsPrefix(log, n);
      LastEventThrough(c, log);
      assert LogEvents(log) == LogEvents(init) + [LogEvents(log)[n]];
      SelectedLast(c, LogEvents(init), LogEvents(log)[n], true);
    }
  }

  lemma LastEventThrough(c: Watcher, log: seq<Record>)
    requires log != []
    ensures var e := LogEvents(log)[|log| - 1]; e.rev >= c.startRev && Through(c, e) <==> WantedRecord(c, log[|log| - 1])
  {
    hide KvBytes, Replay;
  }

  lemma {:induction false} RevisionsRise(log: seq<Record>, i: nat, j: nat)
    requires WfLog(log) && i <= j < |log|
    ensures log[i].modRev <= log[j].modRev
  {
    if j < |log| - 1 {
      RevisionsRise(log[..|log| - 1], i, j);
    } else if i < j {
      MaxRevBounds(log[..j]);
      assert log[..j][i] in log[..j];
    }
  }

  /** A live key was last written by a put that made its entry. */
  lemma {:induction false} LastPut(log: seq<Record>, k: Blob) returns (i: nat)
    requires Positive(log) && Live(Replay(log).keys, k)
    ensures i < |log| && log[i].key == k && !Deleted(log[i]) && forall j :: i < j < |log| ==> log[j].key != k
  {
    hide KvBytes;
    var n := |log| - 1;
    if log[n].key == k {
      i := n;
      assert log[n] in log;
    } else {
      PositivePrefix(log, n);
      i := LastPut(log[..n], k);
      assert forall j :: i < j < n ==> log[..n][j] == log[j];
    }
  }

  lemma {:induction false} LastPutEntry(log: seq<Record>, i: nat)
    requires i < |log| && !Deleted(log[i]) && forall j :: i < j < |log| ==> log[j].key != log[i].key
    ensures var k, keys := log[i].key, Replay(log).keys;
            Live(keys, k) && keys[k].modRev == log[i].modRev && keys[k].kvBytes == KvBytes(log[i])
  {
    hide KvBytes;
    var n := |log| - 1;
    if i < n {
      assert forall j :: i < j < n ==> log[..n][j] == log[j];
      LastPutEntry(log[..n], i);
    }
  }

  // ------------------------------------------------ when compaction hides nothing

  /** Each wanted record created its key and is the last to write it, and they come in key order. */
  ghost predicate Survives(c: Watcher, log: seq<Record>) {
    (forall i :: 0 <= i < |log| && WantedRecord(c, log[i]) ==> Lasting(log, i))
    && forall i, j :: 0 <= i < j < |log| && WantedRecord(c, log[i]) && WantedRecord(c, log[j]) ==> Less(log[i].key, log[j].key)
  }

  ghost predicate Lasting(log: seq<Record>, i: nat)
    requires i < |log|
  {
    !Live(Replay(log[..i]).keys, log[i].key) && forall j :: i < j < |log| ==> log[j].key != log[i].key
  }

  /** The event of a record that created its key and is the last to write it. */
  lemma LastingEvent(log: seq<Record>, i: nat)
    requires WfLog(log) && i < |log| && Lasting(log, i)
    ensures log[i].key in Replay(log).keys && LogEvents(log)[i] == EntryEvent(Replay(log).keys, log[i].key)
    ensures Live(Replay(log).keys, log[i].key) && !Deleted(log[i]) && Replay(log).keys[log[i].key].modRev == log[i].modRev
  {
    hide KvBytes, Replay;
    EventOfRecord(log, i);
    NotADelete(log, i);
    LastPutEntry(log, i);
  }

  lemma NotADelete(log: seq<Record>, i: nat)
    requires WfLog(log) && i < |log| && !Live(Replay(log[..i]).keys, log[i].key)
    ensures !Deleted(log[i])
  {
    hide Replay;
    WfLogPrefix(log, i + 1);
    assert log[..i + 1][..i] == log[..i];
  }

  ghost function KeysAt(log: seq<Record>, at: seq<nat>): seq<Blob>
    requires forall i :: i in at ==> i < |log|
  {
    seq(|at|, p requires 0 <= p < |at| => IndexedKey(log, at, p))
  }

  ghost function IndexedKey(log: seq<Record>, at: seq<nat>, p: nat): Blob
    requires p < |at| && forall i :: i in at ==> i < |log|
  {
    assert at[p] in at;
    log[at[p]].key
  }

  /** If all wanted records last, in key order, the watcher wants of the log what it wants of the state. */
  lemma SurvivorsAreEntries(c: Watcher, log: seq<Record>)
    requires WfLog(log) && Survives(c, log) && Ascending(WantedKeys(c, Replay(log).keys))
    ensures Wanted(c, LogEvents(log)) == EntryEvents(Replay(log).keys, WantedKeys(c, Replay(log).keys))
  {
    hide KvBytes, Replay, LogEvents, Selected, WfLog, Lasting;
    var at, keys := Indices(c, log), Replay(log).keys;
    var ks := KeysAt(log, at);
    IndicesRise(c, log);
    WantedByIndex(c, log);
    forall p, q | 0 <= p < q < |ks| ensures Less(ks[p], ks[q]) {
      IndexBound(c, log, p);
      IndexBound(c, log, q);
    }
    forall p | 0 <= p < |ks| ensures ks[p] in keys && Wanted(c, LogEvents(log))[p] == EntryEvent(keys, ks[p]) && WantedKey(c, keys, ks[p]) {
      IndexBound(c, log, p);
      LastingEvent(log, at[p]);
    }
    forall k | WantedKey(c, keys, k) ensures k in ks { WantedKeyHasIndex(c, log, k); }
    assert Elements(ks) == Elements(WantedKeys(c, keys));
    AscendingUnique(ks, WantedKeys(c, keys));
  }

  lemma WantedKeyHasIndex(c: Watcher, log: seq<Record>, k: Blob)
    requires WfLog(log) && WantedKey(c, Replay(log).keys, k)
    ensures k in KeysAt(log, Indices(c, log))
  {
    hide KvBytes, Replay, WfLog;
    var at := Indices(c, log);
    PositiveOfWf(log);
    var i := LastPut(log, k);
    LastPutEntry(log, i);
    var p := Position(c, log, i);
    assert KeysAt(log, at)[p] == k;
  }

  /** Two wanted records cannot share a key if each key is shown once. */
  lemma OneIndexPerKey(c: Watcher, log: seq<Record>, ks: seq<Blob>, i: nat, j: nat)
    requires Ascending(ks) && |ks| == |Indices(c, log)|
    requires forall p :: 0 <= p < |ks| ==> Indices(c, log)[p] < |log| && log[Indices(c, log)[p]].key == ks[p]
    requires i < j < |log| && WantedRecord(c, log[i]) && WantedRecord(c, log[j])
    ensures Less(log[i].key, log[j].key)
  {
    hide WantedRecord, Less, Indices;
    IndicesRise(c, log);
    var p := Position(c, log, i);
    var q := Position(c, log, j);
    RisingOrder(Indices(c, log), p, q);
  }

  lemma Position(c: Watcher, log: seq<Record>, i: nat) returns (p: nat)
    requires i < |log| && WantedRecord(c, log[i])
    ensures p < |Indices(c, log)| && Indices(c, log)[p] == i
  {
    assert i in Indices(c, log);
    p :| 0 <= p < |Indices(c, log)| && Indices(c, log)[p] == i;
  }

  lemma RisingOrder(at: seq<nat>, p: nat, q: nat)
    requires Rising(at) && p < |at| && q < |at| && at[p] < at[q]
    ensures p < q
  {}

  /** And conversely. */
  lemma EntriesSurvive(c: Watcher, log: seq<Record>)
    requires WfLog(log) && Ascending(WantedKeys(c, Replay(log).keys))
    requires Wanted(c, LogEvents(log)) == EntryEvents(Replay(log).keys, WantedKeys(c, Replay(log).keys))
    ensures Survives(c, log)
  {
    hide KvBytes, Replay, LogEvents, Selected, WfLog, Lasting, WantedRecord;
    var at, keys := Indices(c, log), Replay(log).keys;
    var ks := WantedKeys(c, keys);
    WantedByIndex(c, log);
    assert |ks| == |at|;
    forall p | 0 <= p < |ks| ensures at[p] < |log| && log[at[p]].key == ks[p] {
      assert ks[p] in ks;
      assert Wanted(c, LogEvents(log))[p] == EntryEvent(keys, ks[p]);
      EventOfRecord(log, at[p]);
    }
    forall i, j | 0 <= i < j < |log| && WantedRecord(c, log[i]) && WantedRecord(c, log[j]) ensures Less(log[i].key, log[j].key) {
      OneIndexPerKey(c, log, ks, i, j);
    }
    forall i | 0 <= i < |log| && WantedRecord(c, log[i]) ensures Lasting(log, i) {
      var p := Position(c, log, i);
      assert ks[p] in ks;
      assert LogEvents(log)[i] == EntryEvent(keys, ks[p]);
      ShownIsLasting(c, log, i);
    }
  }

  lemma ShownIsLasting(c: Watcher, log: seq<Record>, i: nat)
    requires WfLog(log) && i < |log| && WantedRecord(c, log[i]) && Live(Replay(log).keys, log[i].key)
    requires LogEvents(log)[i] == EntryEvent(Replay(log).keys, log[i].key)
    requires forall a, b :: 0 <= a < b < |log| && WantedRecord(c, log[a]) && WantedRecord(c, log[b]) ==> Less(log[a].key, log[b].key)
    ensures Lasting(log, i)
  {
    hide KvBytes, Replay, WfLog, LogEvents;
    PositiveOfWf(log);
    EventOfRecord(log, i);
    PositivePrefix(log, i);
    PrevBytesOfLive(log[..i], log[i].key);
    var last := LastPut(log, log[i].key);
    if i < last {
      RevisionsRise(log, i, last);
      assert WantedRecord(c, log[last]);
      LessIrreflexive(log[i].key);
    }
  }

  /** A watcher gets of a compacted file what it would have got of the whole log if and only if each
      record it wants of the compacted part created its key and is the last to write it there, and
      these come in key order. In particular every start above the compacted revisions is safe. */
  lemma CompactedWatchIsExact(c: Watcher, file: seq<Record>, cut: nat, log: seq<Record>)
    requires Lineage(file, cut, log) && WfLog(log)
    ensures Wanted(c, LogEvents(file)) == Wanted(c, LogEvents(log)) <==> Survives(c, log[..cut])
  {
    hide Replay, SnapshotLog, WfLog, LogEvents, Selected, Survives, WantedKeys, EntryEvents, Ascending, Lineage;
    LineageCut(file, cut, log);
    var front := log[..cut];
    OnlyTheSnapshotCounts(c, file, cut, log);
    WfLogPrefix(log, cut);
    WfLogMem(front);
    SnapshotWanted(c, Replay(front));
    if Survives(c, front) {
      SurvivorsAreEntries(c, front);
    } else if Wanted(c, LogEvents(front)) == EntryEvents(Replay(front).keys, WantedKeys(c, Replay(front).keys)) {
      EntriesSurvive(c, front);
    }
  }

  lemma LineageCut(file: seq<Record>, cut: nat, log: seq<Record>)
    requires Lineage(file, cut, log)
    ensures cut <= |log|
  {}

  lemma StartAboveSurvives(c: Watcher, log: seq<Record>)
    requires MaxRev(log) < c.startRev
    ensures Survives(c, log)
  {
    MaxRevBounds(log);
    forall i | 0 <= i < |log| ensures !WantedRecord(c, log[i]) { assert log[i] in log; }
  }

  /** For a watcher that asked for previous values, on a store with the invariant: replayed and live
      events are one stream, the wanted events of the log, byte for byte. */
  lemma PrevKvWatcherSeesOneStream(c: Watcher, file: seq<Record>, cut: nat, log: seq<Record>, rest: seq<Record>)
    requires c.prevKv && Lineage(file, cut, log) && WfLog(log) && WfLog(log + rest) && Survives(c, log[..cut])
    ensures Wanted(c, LogEvents(file)) + LiveForm(c, Wanted(c, SentEvents(Replay(log), rest))) == Wanted(c, LogEvents(log + rest))
  {
    hide Replay, WfLog, LogEvents, Selected, Survives, Lineage, SentEvents, EventsFrom;
    CompactedWatchIsExact(c, file, cut, log);
    WfSentIsLogged(log, rest);
    LogEventsFrom(log, rest);
    SelectedConcat(c, LogEvents(log), EventsFrom(Replay(log), rest), true);
    LiveFormOfPrevKv(c, Wanted(c, EventsFrom(Replay(log), rest)));
  }

  lemma LiveFormOfPrevKv(c: Watcher, es: seq<Event>)
    requires c.prevKv
    ensures LiveForm(c, es) == es
  {}

  // ---------------------------------------------------------------------- inputs

  /** Put a key, delete it, compact: a watch from revision 1 is sent neither event. */
  lemma CompactionHidesDelete(c: Watcher, key: Blob, value: Blob) returns (log: seq<Record>)
    requires c.startRev <= 1 && c.filters == [] && Matches(c.bound, key) && |key| < TWO32
    ensures WfLog(log) && |log| == 2 && Lineage([], 2, log) && |Wanted(c, LogEvents(log))| == 2 && Wanted(c, LogEvents([])) == []
  {
    hide KvBytes, Selected, Lineage, Indices, Matches, WantedRecord, LogEvents;
    var none: seq<Record> := [];
    var first := HistoricalRead.PutNext(none, key, value, 1);
    var one := none + [first];
    var second := HistoricalRead.DeleteNext(one, key, 2);
    log := one + [second];
    NothingWanted(c);
    PlainWants(c, log[0]);
    PlainWants(c, log[1]);
    WantedByIndex(c, log);
    NothingLogged();
    TwoWanted(c, log);
    NothingLive(log, key);
  }

  lemma PlainWants(c: Watcher, r: Record)
    requires c.filters == [] && Matches(c.bound, r.key) && r.modRev >= c.startRev
    ensures WantedRecord(c, r)
  {}

  lemma NothingLogged()
    ensures LogEvents([]) == []
  {}

  lemma TwoWanted(c: Watcher, log: seq<Record>)
    requires |log| == 2 && WantedRecord(c, log[0]) && WantedRecord(c, log[1])
    ensures |Indices(c, log)| == 2
  {
    hide WantedRecord;
    assert 0 in Indices(c, log) && 1 in Indices(c, log);
    IndicesRise(c, log);
    assert log[..1][..0] == [] && |Indices(c, log[..1])| <= 1;
  }

  lemma NothingLive(log: seq<Record>, key: Blob)
    requires |log| == 2 && log[0].key == key && log[1].key == key && Replay(log).keys.Keys <= {key} && !Live(Replay(log).keys, key)
    ensures Lineage([], 2, log)
  {
    hide Replay;
    assert log[..2] == log;
    assert LiveKeys(Replay(log).keys) == {};
    assert SnapshotLog(Replay(log).keys) == [];
  }

  /** Put a key twice, compact, restart, watch, delete: the event the watcher receives is not the one
      the log holds. */
  lemma WatchedDeleteDiffers(c: Watcher, key: Blob, value: Blob, now: nat)
    requires 0 < |key| < TWO32 && |value| < TWO32 && Fits(Record(0, key, value, 1, 2, 2, 0)) && Fits(Record(DELETED, key, value, 2, 3, 1, 0))
    requires c.startRev == 3 && c.received == [] && c.filters == [] && Matches(c.bound, key)
    ensures var put := Write(DoPut(PutReq(key, value, 0, false, false, false)));
            var d := DiskRun(NEW_DISK, [put, put, PhaseA, PhaseC, Restart(now)]);
            var s3 := WatchRun(AfterRegistration(d.s, d.file, SerializeAll(d.file), d.s, [c]), [Act(DoDelete(DeleteReq(key, [], false)))]);
            Held(s3, c, LogEvents(d.file), d.s)
            && Due(c, LogEvents(d.file), d.s, s3)
               != Wanted(c, LogEvents(d.file)) + LiveForm(c, Wanted(c, EventsFrom(d.s.db.mem, Since(d.s, s3))))
  {
    hide Held, Due, LogEvents, Selected, LiveForm, EventsFrom, SerializeAll, Fits, KvBytes, DiskRun, WatchRun, Coherent, Matches, WantedDeletesCurrent, AfterRegistration;
    var put, del := Write(DoPut(PutReq(key, value, 0, false, false, false))), Act(DoDelete(DeleteReq(key, [], false)));
    var actions := [put, put, PhaseA, PhaseC, Restart(now)];
    var d := DiskRun(NEW_DISK, actions);
    CompactedTwice(key, value, now);
    NoGrowth(d.s);
    NoRun(d.s);
    assert d.file + [] == d.file;
    WatchExactlyOnceOnDisk(actions, [], SerializeAll(d.file), [], [c], [del], 0);
    var s3 := WatchRun(AfterRegistration(d.s, d.file, SerializeAll(d.file), d.s, [c]), [del]);
    OneDelete(d.s, d.file, c, key);
    WantedDeleteNotCurrent(c, d.s.db.mem, DeleteRecord(KeysOf(d.s), key, 3));
    FitsMeansRepresentable(s3.db.log);
    DueBytesAreExact(c, LogEvents(d.file), d.s, s3);
  }

  lemma NoRun(s: State)
    ensures WatchRun(s, []) == s
  {}

  lemma FitsMeansRepresentable(log: seq<Record>)
    requires forall r :: r in log ==> Fits(r)
    ensures forall r :: r in log ==> Representable(KvOf(r))
  {}

  lemma WantedDeleteNotCurrent(c: Watcher, m: Mem, r: Record)
    requires Deleted(r) && WantedRecord(c, r) && !CurrentAt(m.keys, r.key)
    ensures !WantedDeletesCurrent(c, m, [r])
  {
    assert [r][..0] == [] && ReplayFrom(m, []) == m;
    assert [r][0] == r;
  }

  /** A watch is registered and the key is deleted: one record, issued in the restored state. */
  lemma OneDelete(s: State, file: seq<Record>, c: Watcher, key: Blob)
    requires Coherent(s) && Live(KeysOf(s), key) && key != []
    ensures var s3 := WatchRun(AfterRegistration(s, file, SerializeAll(file), s, [c]), [Act(DoDelete(DeleteReq(key, [], false)))]);
            LogGrows(s, s3) && s3.db.log == s.db.log + [DeleteRecord(KeysOf(s), key, s.nextRev)]
            && Since(s, s3) == [DeleteRecord(KeysOf(s), key, s.nextRev)]
  {
    hide Coherent, FileReplay, Issued, DeleteRecord, SerializeAll, LogGrows;
    var sr, del := AfterRegistration(s, file, SerializeAll(file), s, [c]), Act(DoDelete(DeleteReq(key, [], false)));
    assert [del][..0] == [];
    assert WatchRun(sr, [del]) == WatchStep(sr, del);
    RegisteredGrows(s, sr);
    WatchStepGrows(sr, del);
    LogGrowsTransitive(s, sr, WatchStep(sr, del));
    DeletePoint(sr, key);
  }

  lemma RegisteredGrows(s: State, sr: State)
    requires Coherent(s) && sr == s.(db := s.db.(watchers := sr.db.watchers))
    ensures Coherent(sr) && LogGrows(s, sr)
  {
    assert s.db.log + [] == s.db.log && Since(s, sr) == [];
  }

  lemma DeletePoint(s: State, key: Blob)
    requires Live(KeysOf(s), key) && key != []
    ensures Step(s, DoDelete(DeleteReq(key, [], false))).db.log == s.db.log + [DeleteRecord(KeysOf(s), key, s.nextRev)]
  {
    hide DeleteRecord, NotifyAll, ApplyDelete;
    PointKeys(KeysOf(s), key);
    var recs := DeleteRecords(KeysOf(s), [key], s.nextRev);
    assert recs == [DeleteRecord(KeysOf(s), key, s.nextRev)];
    SortedDistinct(LiveMatching(KeysOf(s), Point(key)));
    DeletesAreSent(s.db, s.db.log + recs, [key], s.nextRev);
  }

  /** Two puts, a compaction and a restart: the entry says created by the second put, the blob by the
      first. */
  lemma CompactedTwice(key: Blob, value: Blob, now: nat)
    requires 0 < |key| < TWO32 && |value| < TWO32
    ensures var put := Write(DoPut(PutReq(key, value, 0, false, false, false)));
            var d := DiskRun(NEW_DISK, [put, put, PhaseA, PhaseC, Restart(now)]);
            Coherent(d.s) && d.file == [Record(0, key, value, 1, 2, 2, 0)] && d.s.db.log == d.file && d.s.nextRev == 3
            && Live(KeysOf(d.s), key) && !BlobCurrent(key, KeysOf(d.s)[key])
            && DeleteRecord(KeysOf(d.s), key, 3) == Record(DELETED, key, value, 2, 3, 1, 0)
            && DiskRunning([put, put, PhaseA, PhaseC, Restart(now)])
  {
    hide KvBytes, StateBytes, BlobCurrent, SnapshotLog, Step;
    var req := PutReq(key, value, 0, false, false, false);
    var put := Write(DoPut(req));
    var d2 := DiskRun(NEW_DISK, [put, put]);
    TwoPuts(req);
    FiveActions(put, now);
    InvUntilRestart([put, put]);
    RecordedMem(d2.s.db, d2.s.nextRev - 1);
    CompactedFile(d2, now);
    var ks := KeysOf(d2.s)[key];
    OneEntrySnapshot(KeysOf(d2.s), key);
    RestoredBlobIsCurrent(key, ks);
    ReplaySnapshotRecord(key, ks);
    MaxRevOfOne(SnapshotRecord(key, ks));
    var r := SnapshotRecord(key, ks);
    assert Positive([r]);
    ReopenCoherent([r], now);
  }

  lemma MaxRevOfOne(r: Record)
    ensures MaxRev([r]) == r.modRev
  {
    assert [r][..0] == [];
  }

  lemma ReplaySnapshotRecord(key: Blob, ks: KeyState)
    requires Alive(ks)
    ensures Replay([SnapshotRecord(key, ks)]) == Mem(map[key := Restored(key, ks)], 1)
  {
    var r := SnapshotRecord(key, ks);
    ReplaySnoc(EMPTY, [], r);
    assert [] + [r] == [r];
    SnapshotRecordRestores(EMPTY, key, ks);
  }

  lemma OneEntrySnapshot(keys: Keys, key: Blob)
    requires keys.Keys == {key} && Live(keys, key)
    ensures SnapshotLog(keys) == [SnapshotRecord(key, keys[key])]
  {
    assert LiveKeys(keys) == {key} && Elements([key]) == {key};
    SortedAscends({key});
    AscendingUnique([key], Sorted({key}));
  }

  lemma FiveActions(put: DiskAction, now: nat)
    ensures DiskRun(NEW_DISK, [put, put, PhaseA, PhaseC, Restart(now)]) == CompactAndRestart(DiskRun(NEW_DISK, [put, put]), now)
  {
    hide DiskStep;
    DiskRunSnoc(NEW_DISK, [put, put], PhaseA);
    DiskRunSnoc(NEW_DISK, [put, put] + [PhaseA], PhaseC);
    DiskRunSnoc(NEW_DISK, [put, put] + [PhaseA] + [PhaseC], Restart(now));
    assert [put, put] + [PhaseA] + [PhaseC] + [Restart(now)] == [put, put, PhaseA, PhaseC, Restart(now)];
  }

  lemma DiskRunSnoc(d: Disk, actions: seq<DiskAction>, a: DiskAction)
    ensures DiskRun(d, actions + [a]) == DiskStep(DiskRun(d, actions), a)
  {
    hide DiskStep;
    assert (actions + [a])[..|actions|] == actions;
  }

  // ------------------------------------------------------- a compaction under a watch

  /** The store compacts its file between checkpoint and registration, and the new file is no longer
      than the old one was at the checkpoint: the watcher has missed something if and only if it wants
      a record written in between. */
  lemma CompactionUnderWatch(d: Disk, d1: Disk, view: Blob, ctxs: seq<Watcher>, i: nat)
    requires Coherent(d.s) && FileOf(d.s, d.file) && LogGrows(d.s, d1.s) && d1.pending.None?
    requires (forall r :: r in d.file + Since(d.s, d1.s) ==> Fits(r)) && ViewOf(d.file, d.file + Since(d.s, d1.s), view)
    requires |SerializeAll(DiskStep(DiskStep(d1, PhaseA), PhaseC).file)| <= |SerializeAll(d.file)| && i < |ctxs|
    ensures var swapped := DiskStep(DiskStep(d1, PhaseA), PhaseC).file;
            var cs := FileReplay(ctxs, view, SerializeAll(swapped), |SerializeAll(d.file)|, CurrentRevision(d.s));
            |cs| == |ctxs|
            && (cs[i].received == ctxs[i].received + Wanted(ctxs[i], LogEvents(d.file + Since(d.s, d1.s)))
                <==> forall r :: r in Since(d.s, d1.s) ==> !WantedRecord(ctxs[i], r))
  {
    hide SerializeAll, FileReplay, LogEvents, Selected, Fits, WantedRecord, Issued, ReplayFrom, DiskStep, Since;
    var more := Since(d.s, d1.s);
    FileDates(d.s, d1.s, d.file);
    SwapHidesCatchUp(ctxs, d.file, more, more, view, DiskStep(DiskStep(d1, PhaseA), PhaseC).file, CurrentRevision(d.s), i);
  }

  /** One-byte varints. */
  predicate Small(r: Record) { r.createRev < 128 && r.version < 128 && r.lease == 0 }

  lemma SmallLength(r: Record)
    requires Small(r)
    ensures RecLen(r) == MIN_RECORD + 29 + |r.key| + |r.value|
  {
    hide LenField, Overlong;
    HeadLength(r.key, r.createRev);
    OverlongLength(r.modRev, 10);
    LenFieldLength(|r.value|);
    assert |Minimal(r.createRev)| == 1 && |Minimal(r.version)| == 1 && |Minimal(AsU64(0))| == 1;
  }

  lemma FileLengths(a: Record, b: Record, c: Record)
    requires Framable(a) && Framable(b) && Framable(c) && RecLen(c) <= RecLen(a)
    ensures |SerializeAll([c])| <= |SerializeAll([a, b])|
  {
    hide SerializeRecord;
    SerializeAllSnoc([], c);
    SerializeAllSnoc([], a);
    SerializeAllSnoc([a], b);
    assert [] + [c] == [c] && [] + [a] == [a] && [a] + [b] == [a, b] && SerializeAll([]) == [];
    RecordRoundTrip(a);
    RecordRoundTrip(c);
  }

  /** Put a key twice, take the checkpoint, put it again, compact, register: the third put is missed. */
  lemma SwapLosesPut(c: Watcher, key: Blob, value: Blob)
    requires c.startRev <= 3 && c.received == [] && c.filters == [] && Matches(c.bound, key)
    requires Fits(Record(IS_CREATE, key, value, 1, 1, 1, 0)) && Fits(Record(0, key, value, 1, 2, 2, 0))
    requires Fits(Record(0, key, value, 1, 3, 3, 0))
    ensures var log, third := [Record(IS_CREATE, key, value, 1, 1, 1, 0), Record(0, key, value, 1, 2, 2, 0)], Record(0, key, value, 1, 3, 3, 0);
            var swapped := SnapshotLog(Replay(log + [third]).keys);
            var cs := FileReplay([c], SerializeAll(log), SerializeAll(swapped), |SerializeAll(log)|, 2);
            |cs| == 1 && cs[0].received != Wanted(c, LogEvents(log + [third]))
  {
    hide KvBytes, SerializeAll, FileReplay, LogEvents, Selected, Fits, SnapshotLog, Matches, Replay;
    var p1, p2, p3 := Record(IS_CREATE, key, value, 1, 1, 1, 0), Record(0, key, value, 1, 2, 2, 0), Record(0, key, value, 1, 3, 3, 0);
    var log := [p1, p2];
    ThreePuts(key, value);
    FitsFramable(p1);
    FitsFramable(p2);
    FitsFramable(p3);
    SmallLength(p1);
    SmallLength(p3);
    FileLengths(p1, p2, p3);
    assert log + [] == log && Positive(log);
    SwapHidesCatchUp([c], log, [], [p3], SerializeAll(log), [p3], 2, 0);
    assert WantedRecord(c, p3) && p3 in [p3];
    assert c.received + Wanted(c, LogEvents(log + [p3])) == Wanted(c, LogEvents(log + [p3]));
  }

  lemma FitsFramable(r: Record)
    requires Fits(r)
    ensures Framable(r)
  {}

  lemma ThreePuts(key: Blob, value: Blob)
    ensures var p1, p2, p3 := Record(IS_CREATE, key, value, 1, 1, 1, 0), Record(0, key, value, 1, 2, 2, 0), Record(0, key, value, 1, 3, 3, 0);
            SnapshotLog(Replay([p1, p2] + [p3]).keys) == [p3]
  {
    hide KvBytes, ApplyRecord, SnapshotLog;
    var p1, p2, p3 := Record(IS_CREATE, key, value, 1, 1, 1, 0), Record(0, key, value, 1, 2, 2, 0), Record(0, key, value, 1, 3, 3, 0);
    var none: seq<Record> := [];
    ReplaySnoc(EMPTY, none, p1);
    ReplaySnoc(EMPTY, [p1], p2);
    ReplaySnoc(EMPTY, [p1, p2], p3);
    assert none + [p1] == [p1] && [p1] + [p2] == [p1, p2];
    var m1, m2, m3 := Replay([p1]), Replay([p1, p2]), Replay([p1, p2] + [p3]);
    PutOverwrites(EMPTY, p1);
    PutOverwrites(m1, p2);
    PutOverwrites(m2, p3);
    OneEntrySnapshot(m3.keys, key);
  }

  /** A put record applied to a map with no other key. */
  lemma PutOverwrites(m: Mem, r: Record)
    requires !Deleted(r) && m.keys.Keys <= {r.key} && (r.key in m.keys ==> Alive(m.keys[r.key]))
    requires r.createRev == (if r.key in m.keys then m.keys[r.key].createRev else r.modRev)
    requires r.version == (if r.key in m.keys then m.keys[r.key].version + 1 else 1)
    ensures var keys := ApplyRecord(m, r).keys;
            keys.Keys == {r.key} && Live(keys, r.key) && keys[r.key].value == r.value && keys[r.key].modRev == r.modRev
            && keys[r.key].createRev == r.createRev && keys[r.key].version == r.version && keys[r.key].lease == r.lease
  {
    hide KvBytes;
  }
}
