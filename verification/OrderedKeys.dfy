/** Ordered iteration over a key set, as the ordered map provides it, and the bounded scans built
    on it. The map's own balancing is not modelled: iteration is the sorted sequence of its keys. */
module OrderedKeys {
  import opened Bytes
  import opened Ranges

  predicate Ascending(s: seq<Blob>) {
    forall i, j :: 0 <= i < j < |s| ==> Less(s[i], s[j])
  }

  function Elements(s: seq<Blob>): set<Blob> { set x | x in s }

  predicate IsLeast(k: Blob, keys: set<Blob>) {
    k in keys && forall j :: j in keys ==> AtMost(k, j)
  }

  lemma {:induction false} LeastExists(keys: set<Blob>) returns (least: Blob)
    requires keys != {}
    ensures IsLeast(least, keys)
  {
    var k :| k in keys;
    var rest := keys - {k};
    LessIrreflexive(k);
    if rest == {} {
      assert keys == {k};
      least := k;
    } else {
      var l := LeastExists(rest);
      LessTotal(k, l);
      least := if Less(k, l) then k else l;
      forall j | j in keys ensures AtMost(least, j) {
        if j != k {
          assert j in rest;
          if Less(k, l) { LessAtMost(k, l, j); LessTotal(k, j); }
        } else if !Less(k, l) {
        }
      }
    }
  }

  lemma LeastIsUnique(keys: set<Blob>)
    requires keys != {}
    ensures exists k :: IsLeast(k, keys)
    ensures forall a, b :: IsLeast(a, keys) && IsLeast(b, keys) ==> a == b
  {
    var k := LeastExists(keys);
    forall a, b | IsLeast(a, keys) && IsLeast(b, keys) ensures a == b { AtMostAntisymmetric(a, b); }
  }

  function Least(keys: set<Blob>): (k: Blob)
    requires keys != {}
    ensures IsLeast(k, keys)
  {
    LeastIsUnique(keys);
    var k :| k in keys && IsLeast(k, keys);
    k
  }

  /** The keys in iteration order. */
  function Sorted(keys: set<Blob>): (s: seq<Blob>)
    ensures Elements(s) == keys
    decreases |keys|
  {
    if keys == {} then []
    else
      var k := Least(keys);
      assert Elements([k] + Sorted(keys - {k})) == {k} + Elements(Sorted(keys - {k}));
      [k] + Sorted(keys - {k})
  }

  lemma {:induction false} SortedAscends(keys: set<Blob>)
    ensures Ascending(Sorted(keys))
    decreases |keys|
  {
    if keys != {} {
      var k := Least(keys);
      var rest := Sorted(keys - {k});
      SortedAscends(keys - {k});
      forall i | 0 <= i < |rest| ensures Less(k, rest[i]) {
        assert rest[i] in Elements(rest);
        LessTotal(k, rest[i]);
      }
    }
  }

  lemma {:induction false} SortedLength(keys: set<Blob>)
    ensures |Sorted(keys)| == |keys|
    decreases |keys|
  {
    if keys != {} { SortedLength(keys - {Least(keys)}); }
  }

  lemma AscendingTail(s: seq<Blob>)
    requires Ascending(s) && s != []
    ensures Ascending(s[1..]) && s[0] !in s[1..] && Elements(s[1..]) == Elements(s) - {s[0]}
    ensures forall x :: x in s ==> AtMost(s[0], x)
  {
    LessIrreflexive(s[0]);
    assert s == [s[0]] + s[1..];
    forall x | x in s ensures AtMost(s[0], x) {
      var i :| 0 <= i < |s| && s[i] == x;
      LessTotal(s[0], x);
    }
  }

  /** An ascending sequence is determined by its elements. */
  lemma {:induction false} AscendingUnique(a: seq<Blob>, b: seq<Blob>)
    requires Ascending(a) && Ascending(b) && Elements(a) == Elements(b)
    ensures a == b
  {
    assert b != [] ==> b[0] in Elements(a);
    assert a != [] ==> a[0] in Elements(b);
    if a != [] {
      AscendingTail(a);
      AscendingTail(b);
      assert b[0] in Elements(a);
      AtMostAntisymmetric(a[0], b[0]);
      AscendingUnique(a[1..], b[1..]);
      assert a == [a[0]] + a[1..] && b == [b[0]] + b[1..];
    }
  }

  // ------------------------------------------------------------------ filtering

  /** The elements of `s` that satisfy `keep`, in order. */
  function Filter(keep: Blob -> bool, s: seq<Blob>): (r: seq<Blob>)
    ensures forall k :: k in r <==> k in s && keep(k)
  {
    if s == [] then []
    else
      var n := |s| - 1;
      assert s == s[..n] + [s[n]];
      Filter(keep, s[..n]) + if keep(s[n]) then [s[n]] else []
  }

  lemma {:induction false} FilterAscends(keep: Blob -> bool, s: seq<Blob>)
    requires Ascending(s)
    ensures Ascending(Filter(keep, s))
  {
    if s != [] {
      var n := |s| - 1;
      var init := Filter(keep, s[..n]);
      FilterAscends(keep, s[..n]);
      assert s == s[..n] + [s[n]];
      forall i | 0 <= i < |init| ensures Less(init[i], s[n]) {
        assert init[i] in s[..n];
        var j :| 0 <= j < n && s[j] == init[i];
      }
    }
  }

  /** Filtering an ordered iteration iterates over the filtered set. */
  lemma FilterSorted(keep: Blob -> bool, keys: set<Blob>, kept: set<Blob>)
    requires forall k :: k in kept <==> k in keys && keep(k)
    ensures Filter(keep, Sorted(keys)) == Sorted(kept)
  {
    SortedAscends(keys);
    FilterAscends(keep, Sorted(keys));
    assert forall k :: k in Sorted(keys) <==> k in Elements(Sorted(keys));
    assert Elements(Filter(keep, Sorted(keys))) == kept;
    SortedAscends(kept);
    AscendingUnique(Filter(keep, Sorted(keys)), Sorted(kept));
  }

  // ------------------------------------------------------------- bounded scans

  /** The start and end handed to the ordered map's range iterator. */
  function BtreeBounds(bound: RangeBound): (Option<Blob>, Option<Blob>) {
    match bound
    case All => (None, None)
    case Point(k) => (Some(k), Some(k + [0]))
    case From(k) => (Some(k), None)
    case Prefix(p) => (Some(p), None)
    case Range(lo, hi) => (Some(lo), Some(hi))
  }

  /** The range iterator refuses a start above the end. */
  predicate Scannable(bound: RangeBound) {
    bound.Range? ==> AtMost(bound.lo, bound.hi)
  }

  predicate Within(bounds: (Option<Blob>, Option<Blob>), k: Blob) {
    (bounds.0.Some? ==> AtMost(bounds.0.value, k)) && (bounds.1.Some? ==> Less(k, bounds.1.value))
  }

  /** Iterator over the keys between the bounds, in order. */
  function RangeIter(keys: set<Blob>, bounds: (Option<Blob>, Option<Blob>)): seq<Blob> {
    Sorted(set k | k in keys && Within(bounds, k))
  }

  /** Every matching key lies within the bounds, and only a prefix scan can meet others. */
  lemma BoundsCover(bound: RangeBound, k: Blob)
    ensures Matches(bound, k) ==> Within(BtreeBounds(bound), k)
    ensures Within(BtreeBounds(bound), k) && !bound.Prefix? ==> Matches(bound, k)
  {
    match bound
    case All =>
    case Point(p) => SuccessorOfKey(p, k);
    case From(p) =>
    case Prefix(p) => PrefixIsInterval(p, k);
    case Range(lo, hi) =>
  }

  /** Once an ordered scan from a prefix meets a key without it, no later key has it. */
  lemma PrefixBreak(p: Blob, k: Blob, later: Blob)
    requires AtMost(p, k) && !StartsWith(k, p) && Less(k, later)
    ensures !StartsWith(later, p)
  {
    PrefixIsInterval(p, k);
    PrefixIsInterval(p, later);
    var end := PrefixEndSpec(p);
    if end.Some? && Less(later, end.value) { LessTransitive(k, later, end.value); }
  }

  /** The bounded scan with its early break: walk the iterator, stop at the first key without the
      prefix. It visits exactly the matching keys, in order. */
  method ScanRange(keys: set<Blob>, bound: RangeBound) returns (visited: seq<Blob>)
    requires Scannable(bound)
    ensures visited == Sorted(set k | k in keys && Matches(bound, k))
  {
    var iter := RangeIter(keys, BtreeBounds(bound));
    ghost var within := set k | k in keys && Within(BtreeBounds(bound), k);
    ghost var matching := set k | k in keys && Matches(bound, k);
    SortedAscends(within);
    var n := 0;
    while n < |iter| && (bound.Prefix? ==> StartsWith(iter[n], bound.prefix))
      invariant n <= |iter|
      invariant bound.Prefix? ==> forall i :: 0 <= i < n ==> StartsWith(iter[i], bound.prefix)
    {
      n := n + 1;
    }
    visited := iter[..n];
    forall k ensures k in visited <==> k in matching {
      BoundsCover(bound, k);
      if k in matching {
        assert k in Elements(iter);
        var i :| 0 <= i < |iter| && iter[i] == k;
        if n <= i {
          assert iter[n] in Elements(iter);
          LessIrreflexive(k);
          if n < i { PrefixBreak(bound.prefix, iter[n], k); }
        }
        assert i < n && visited[i] == k;
      }
      if k in visited { assert k in Elements(iter); }
    }
    assert Elements(visited) == matching;
    SortedAscends(matching);
    AscendingUnique(visited, Sorted(matching));
  }
}
