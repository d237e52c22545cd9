/** Key ranges: how a request's `(key, range_end)` pair is resolved, what it matches, and
    the interval form used to reject transactions whose writes overlap. */
module Ranges {
  import opened Bytes

  datatype RangeBound =
    | All
    | Point(key: Blob)
    | From(start: Blob)
    | Prefix(prefix: Blob)
    | Range(lo: Blob, hi: Blob)

  /** Half-open key interval; `end == None` means unbounded above. */
  datatype Interval = Interval(start: Blob, end: Option<Blob>)

  function ResolveRange(key: Blob, rangeEnd: Blob): RangeBound {
    if rangeEnd == [] then Point(key)
    else if rangeEnd == [0] then
      if key == [] then All else From(key)
    else if IsIncrement(key, rangeEnd) then Prefix(key)
    else if rangeEnd == key + [0] then Prefix(key)
    else Range(key, rangeEnd)
  }

  /** `rangeEnd` is `key` with its last byte incremented (no wrap-around from 0xFF). */
  predicate IsIncrement(key: Blob, rangeEnd: Blob) {
    var n := |key|;
    |rangeEnd| == n && n > 0 && rangeEnd[..n - 1] == key[..n - 1]
    && key[n - 1] != 0xFF && rangeEnd[n - 1] == key[n - 1] + 1
  }

  predicate Matches(bound: RangeBound, key: Blob) {
    match bound
    case All => true
    case Point(k) => key == k
    case From(k) => AtMost(k, key)
    case Prefix(p) => StartsWith(key, p)
    case Range(lo, hi) => AtMost(lo, key) && Less(key, hi)
  }

  predicate InInterval(iv: Interval, key: Blob) {
    AtMost(iv.start, key) && (iv.end.Some? ==> Less(key, iv.end.value))
  }

  // ---------------------------------------------------------------- prefix_end

  /** Exclusive upper end of the keys with a given prefix, read from the front. */
  function PrefixEndSpec(prefix: Blob): Option<Blob> {
    if prefix == [] then None
    else match PrefixEndSpec(prefix[1..])
      case Some(e) => Some([prefix[0]] + e)
      case None => if prefix[0] == 0xFF then None else Some([prefix[0] + 1])
  }

  lemma {:induction false} PrefixEndSpecDropsTrailingFF(p: Blob)
    ensures PrefixEndSpec(p + [0xFF]) == PrefixEndSpec(p)
  {
    if p != [] {
      PrefixEndSpecDropsTrailingFF(p[1..]);
      assert (p + [0xFF])[1..] == p[1..] + [0xFF];
    } else {
      assert (p + [0xFF])[1..] == [];
    }
  }

  lemma {:induction false} PrefixEndSpecIncrements(p: Blob, b: Byte)
    requires b < 0xFF
    ensures PrefixEndSpec(p + [b]) == Some(p + [b + 1])
  {
    if p == [] {
      assert (p + [b])[1..] == [];
      assert p + [b + 1] == [b + 1];
    } else {
      PrefixEndSpecIncrements(p[1..], b);
      assert (p + [b])[1..] == p[1..] + [b];
      assert [p[0]] + (p[1..] + [b + 1]) == p + [b + 1];
    }
  }

  /** The source's loop: drop trailing 0xFF bytes, then increment the last byte. The result
      bounds exactly the keys that start with `prefix`, whatever bytes it ends in. */
  method PrefixEnd(prefix: Blob) returns (end: Option<Blob>)
    ensures end == PrefixEndSpec(prefix)
    ensures forall key :: StartsWith(key, prefix) <==> InInterval(Interval(prefix, end), key)
  {
    forall key ensures StartsWith(key, prefix) <==> InInterval(Interval(prefix, PrefixEndSpec(prefix)), key) {
      PrefixIsInterval(prefix, key);
    }
    var v := prefix;
    while v != []
      invariant PrefixEndSpec(v) == PrefixEndSpec(prefix)
      decreases |v|
    {
      var n := |v|;
      assert v == v[..n - 1] + [v[n - 1]];
      if v[n - 1] == 0xFF {
        PrefixEndSpecDropsTrailingFF(v[..n - 1]);
        v := v[..n - 1];
      } else {
        PrefixEndSpecIncrements(v[..n - 1], v[n - 1]);
        assert v[n - 1 := v[n - 1] + 1] == v[..n - 1] + [v[n - 1] + 1];
        return Some(v[n - 1 := v[n - 1] + 1]);
      }
    }
    return None;
  }

  /** `starts_with(prefix)` is the same as lying in `[prefix, prefix_end(prefix))`. */
  lemma {:induction false} PrefixIsInterval(prefix: Blob, key: Blob)
    ensures StartsWith(key, prefix) <==> InInterval(Interval(prefix, PrefixEndSpec(prefix)), key)
  {
    if prefix != [] && key != [] {
      PrefixIsInterval(prefix[1..], key[1..]);
      assert StartsWith(key, prefix) <==> key[0] == prefix[0] && StartsWith(key[1..], prefix[1..]) by {
        if key[0] == prefix[0] && StartsWith(key[1..], prefix[1..]) {
          assert prefix == [prefix[0]] + prefix[1..] == [key[0]] + key[1..|prefix|] == key[..|prefix|];
        }
      }
      if prefix[0] < 0xFF { assert Less(key, [prefix[0] + 1]) <==> key[0] <= prefix[0]; }
    }
  }

  // ---------------------------------------------------------- resolved meaning

  /** What a `(key, range_end)` pair means on the wire: one key, everything from `key` on,
      or the half-open interval. */
  predicate Denotes(key: Blob, rangeEnd: Blob, k: Blob) {
    if rangeEnd == [] then k == key
    else if rangeEnd == [0] then AtMost(key, k)
    else AtMost(key, k) && Less(k, rangeEnd)
  }

  lemma IncrementIsPrefixEnd(key: Blob, rangeEnd: Blob)
    requires IsIncrement(key, rangeEnd)
    ensures PrefixEndSpec(key) == Some(rangeEnd)
  {
    var n := |key|;
    PrefixEndSpecIncrements(key[..n - 1], key[n - 1]);
    assert key == key[..n - 1] + [key[n - 1]];
    assert rangeEnd == rangeEnd[..n - 1] + [rangeEnd[n - 1]];
  }

  /** Range resolution means what was sent, except for `range_end == key ++ 0x00` with a
      non-empty key: that pair denotes one key and is resolved to a whole prefix. */
  lemma ResolveRangeMeaning(key: Blob, rangeEnd: Blob)
    ensures (forall k :: Matches(ResolveRange(key, rangeEnd), k) <==> Denotes(key, rangeEnd, k))
            <==> !(key != [] && rangeEnd == key + [0])
  {
    if key != [] && rangeEnd == key + [0] {
      var k := key + [1];
      SuccessorOfKey(key, k);
      PrefixIsInterval(key, k);
      assert rangeEnd != [0] && !IsIncrement(key, rangeEnd);
      assert Matches(ResolveRange(key, rangeEnd), k) && !Denotes(key, rangeEnd, k);
    } else {
      forall k ensures Matches(ResolveRange(key, rangeEnd), k) <==> Denotes(key, rangeEnd, k) {
        if IsIncrement(key, rangeEnd) {
          IncrementIsPrefixEnd(key, rangeEnd);
          PrefixIsInterval(key, k);
        }
      }
    }
  }

  // ------------------------------------------------------------------ overlap

  function PointInterval(key: Blob): Interval {
    Interval(key, Some(key + [0]))
  }

  function BoundInterval(bound: RangeBound): Interval {
    match bound
    case All => Interval([], None)
    case Point(k) => PointInterval(k)
    case Prefix(p) => Interval(p, PrefixEndSpec(p))
    case From(k) => Interval(k, None)
    case Range(lo, hi) => Interval(lo, Some(hi))
  }

  predicate EmptyInterval(iv: Interval) {
    iv.end.Some? && AtMost(iv.end.value, iv.start)
  }

  predicate StartsBeforeEnd(start: Blob, end: Option<Blob>) {
    end.Some? ==> Less(start, end.value)
  }

  predicate IntervalsOverlap(a: Interval, b: Interval) {
    !EmptyInterval(a) && !EmptyInterval(b)
    && StartsBeforeEnd(a.start, b.end) && StartsBeforeEnd(b.start, a.end)
  }

  /** The interval of a bound holds exactly the keys the bound matches. */
  lemma BoundIntervalExact(bound: RangeBound, key: Blob)
    ensures InInterval(BoundInterval(bound), key) <==> Matches(bound, key)
  {
    match bound
    case All =>
    case Point(k) => SuccessorOfKey(k, key);
    case Prefix(p) => PrefixIsInterval(p, key);
    case From(k) =>
    case Range(lo, hi) =>
  }

  /** A key in both intervals forces the overlap test to succeed. */
  lemma CommonKeyOverlaps(a: Interval, b: Interval, key: Blob)
    requires InInterval(a, key) && InInterval(b, key)
    ensures IntervalsOverlap(a, b)
  {
    if a.end.Some? { AtMostLess(a.start, key, a.end.value); AtMostLess(b.start, key, a.end.value); }
    if b.end.Some? { AtMostLess(b.start, key, b.end.value); AtMostLess(a.start, key, b.end.value); }
  }

  /** Two bounds are reported as overlapping if and only if some key matches both. */
  lemma OverlapIsExact(a: RangeBound, b: RangeBound)
    ensures IntervalsOverlap(BoundInterval(a), BoundInterval(b)) <==> exists key :: Matches(a, key) && Matches(b, key)
  {
    var ia, ib := BoundInterval(a), BoundInterval(b);
    if IntervalsOverlap(ia, ib) {
      LessIrreflexive(ia.start);
      LessIrreflexive(ib.start);
      LessTotal(ia.start, ib.start);
      var key := if Less(ia.start, ib.start) then ib.start else ia.start;
      assert InInterval(ia, key) && InInterval(ib, key);
      BoundIntervalExact(a, key);
      BoundIntervalExact(b, key);
    }
    if key :| Matches(a, key) && Matches(b, key) {
      BoundIntervalExact(a, key);
      BoundIntervalExact(b, key);
      CommonKeyOverlaps(ia, ib, key);
    }
  }
}
