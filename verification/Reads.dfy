/** Range reads: the response built from the keys found, the read of the current state, and the
    choice between the two kinds of read. */
module Reads {
  import opened Bytes
  import opened Varint
  import opened KvCodec
  import opened KvParse
  import opened Wal
  import opened Ranges
  import opened OrderedKeys
  import opened KeyMap
  import opened StoreSpec
  import opened Commits
  import opened History
  import opened HistoricalRead
  import opened Sorting

  datatype RangeReq = RangeReq(key: Blob, rangeEnd: Blob, revision: int, limit: int, order: SortOrder, target: SortTarget,
                               keysOnly: bool, countOnly: bool, filter: RevFilter)

  datatype RangeResp = RangeResp(kvs: seq<Blob>, more: bool, count: nat)

  // ------------------------------------------------------------- the response

  function KeyOnly(key: Blob): Blob { Encode(Kv(key, [], 0, 0, 0, 0)) }

  /** The entries found, in key order, as they go into the response. */
  function Listing(blobs: Blobs, keysOnly: bool): seq<Blob> {
    var ks := Sorted(blobs.Keys);
    seq(|ks|, i requires 0 <= i < |ks| => if keysOnly || ks[i] !in blobs then KeyOnly(ks[i]) else blobs[ks[i]])
  }

  function Truncated(s: seq<Blob>, limit: int): seq<Blob> {
    if 0 < limit < |s| then s[..limit] else s
  }

  /** What a range request should answer when `blobs` are the entries it selects: the first `limit`
      of the fully sorted listing, the count of them all, and whether any were cut off. */
  function Response(blobs: Blobs, req: RangeReq): RangeResp {
    if req.countOnly then RangeResp([], false, |blobs|)
    else RangeResp(Truncated(Ordered(Listing(blobs, req.keysOnly), req.order, req.target), req.limit),
                   0 < req.limit < |blobs|, |blobs|)
  }

  lemma ListingLength(blobs: Blobs, keysOnly: bool)
    ensures |Listing(blobs, keysOnly)| == |blobs|
  {
    SortedLength(blobs.Keys);
    assert |blobs.Keys| == |blobs|;
  }

  /** Every blob carries the key it is filed under. */
  ghost predicate Keyed(blobs: Blobs) {
    forall k :: k in blobs ==> |k| < TWO32 && BlobKey(blobs[k]) == Some(k)
  }

  lemma KeyOnlyKey(k: Blob)
    requires |k| < TWO32
    ensures BlobKey(KeyOnly(k)) == Some(k)
  {
    ParseRoundTrip(Kv(k, [], 0, 0, 0, 0));
  }

  lemma ListingKeys(blobs: Blobs, keysOnly: bool, i: nat)
    requires Keyed(blobs) && i < |Sorted(blobs.Keys)|
    ensures BlobKey(Listing(blobs, keysOnly)[i]) == Some(Sorted(blobs.Keys)[i])
  {
    var k := Sorted(blobs.Keys)[i];
    assert k in Elements(Sorted(blobs.Keys));
    KeyOnlyKey(k);
  }

  lemma ListingKeyOrdered(blobs: Blobs, keysOnly: bool)
    requires Keyed(blobs)
    ensures KeyOrdered(Listing(blobs, keysOnly))
  {
    var ks, listed := Sorted(blobs.Keys), Listing(blobs, keysOnly);
    SortedAscends(blobs.Keys);
    forall i | 0 <= i < |listed| ensures BlobKey(listed[i]) == Some(ks[i]) { ListingKeys(blobs, keysOnly, i); }
  }

  /** Sort, count and cut: the end of both kinds of read. The order is the full sort's when the blobs
      carry their keys, as those of a store do. */
  method Respond(listed: seq<Blob>, req: RangeReq, ghost blobs: Blobs) returns (resp: RangeResp)
    requires listed == Listing(blobs, req.keysOnly)
    ensures resp.count == |blobs| && (resp.more <==> !req.countOnly && 0 < req.limit < |blobs|)
    ensures Keyed(blobs) ==> resp == Response(blobs, req)
  {
    hide Listing, Keyed, KeyOrdered, Ordered, SortOf;
    ListingLength(blobs, req.keysOnly);
    if Keyed(blobs) { ListingKeyOrdered(blobs, req.keysOnly); }
    var count := |listed|;
    if req.countOnly { return RangeResp([], false, count); }
    var limit := if req.limit > 0 then req.limit else 0;
    var kvs := SortKvs(listed, req.order, req.target, limit);
    var more := req.limit > 0 && count > req.limit;
    if more { kvs := kvs[..req.limit]; }
    return RangeResp(kvs, more, count);
  }

  /** The field a key-only blob is sorted by: absent, or the key itself. */
  function KeyOnlyValue(key: Blob, target: SortTarget): SortValue {
    match target
    case ByValue => Text([])
    case ByKey => Text(key)
    case OtherTarget => Text(key)
    case _ => Number(0)
  }

  lemma KeyOnlyItem(k: Blob, target: SortTarget, idx: nat)
    requires |k| < TWO32
    ensures ItemOf(KeyOnly(k), target, idx) == Item(KeyOnlyValue(k, target), k, idx)
  {
    ParseRoundTrip(Kv(k, [], 0, 0, 0, 0));
  }

  lemma KeyOnlyBefore(a: Blob, b: Blob, target: SortTarget, i: nat, j: nat)
    requires Less(a, b)
    ensures Before(false, Item(KeyOnlyValue(a, target), a, i), Item(KeyOnlyValue(b, target), b, j))
  {}

  lemma KeysOnlyInOrder(blobs: Blobs, target: SortTarget)
    requires Keyed(blobs)
    ensures SortedItems(false, Items(Listing(blobs, true), target))
  {
    hide KeyOnly, ItemOf, Before, KeyOnlyValue;
    var ks, items := Sorted(blobs.Keys), Items(Listing(blobs, true), target);
    SortedAscends(blobs.Keys);
    forall i | 0 <= i < |ks| ensures items[i] == Item(KeyOnlyValue(ks[i], target), ks[i], i) {
      assert ks[i] in Elements(ks);
      KeyOnlyItem(ks[i], target, i);
    }
    forall i, j | 0 <= i < j < |items| ensures Before(false, items[i], items[j]) {
      KeyOnlyBefore(ks[i], ks[j], target, i, j);
    }
  }

  /** With `keys_only` the fields a sort would look at are already gone: any sort is a key sort. */
  lemma KeysOnlySortsByKey(blobs: Blobs, order: SortOrder, target: SortTarget)
    requires Keyed(blobs)
    ensures Ordered(Listing(blobs, true), order, target)
         == if order == Descend && target != OtherTarget then Reversed(Listing(blobs, true)) else Listing(blobs, true)
  {
    hide Listing, Reversed, SortedItems, Items, FullSort, Keyed, KeyOrdered;
    ListingKeyOrdered(blobs, true);
    KeysOnlyInOrder(blobs, target);
    SortOfSorted(Listing(blobs, true), target);
  }

  /** The keys of a listing, in its order. */
  function KeyOrder(kvs: seq<Blob>): seq<Option<Blob>> {
    seq(|kvs|, i requires 0 <= i < |kvs| => BlobKey(kvs[i]))
  }

  /** Sorting by one of the four fields. */
  predicate FieldSort(order: SortOrder, target: SortTarget) {
    order != Unsorted && (target == ByVersion || target == ByCreate || target == ByMod || target == ByValue)
  }

  lemma ItemByKey(items: seq<Item>, s: seq<Item>, i: nat, j: nat)
    requires DistinctKeys(items) && multiset(s) == multiset(items) && i < |s| && j < |items| && s[i].key == items[j].key
    ensures s[i] == items[j]
  {
    InMultiset(s, items, s[i]);
    var m :| 0 <= m < |items| && items[m] == s[i];
    assert m == j;
  }

  lemma PickedKey(kvs: seq<Blob>, target: SortTarget, s: seq<Item>, i: nat)
    requires KeyOrdered(kvs) && multiset(s) == multiset(Items(kvs, target)) && i < |s|
    ensures BlobKey(Pick(kvs, s)[i]) == Some(s[i].key)
  {
    SortedItemIsItem(kvs, target, s, i);
    assert BlobKey(kvs[s[i].idx]).Some?;
  }

  lemma SortedItemAt(kvs: seq<Blob>, target: SortTarget, sorted: seq<Item>, i: nat, j: nat)
    requires KeyOrdered(kvs) && multiset(sorted) == multiset(Items(kvs, target)) && i < |sorted| && j < |kvs|
    requires BlobKey(Pick(kvs, sorted)[i]) == BlobKey(kvs[j])
    ensures sorted[i] == Items(kvs, target)[j]
  {
    hide KeyOrdered, ItemOf;
    var items := Items(kvs, target);
    ItemKeys(kvs, target);
    PickAll(kvs, target);
    PickedKey(kvs, target, sorted, i);
    PickedKey(kvs, target, items, j);
    ItemByKey(items, sorted, i, j);
  }

  /** A sort leaves the keys in the order they came only if the items came in field order. */
  lemma KeptOrderMeansSorted(kvs: seq<Blob>, target: SortTarget)
    requires KeyOrdered(kvs) && KeyOrder(Pick(kvs, FullSort(false, Items(kvs, target)))) == KeyOrder(kvs)
    ensures SortedItems(false, Items(kvs, target))
  {
    hide FullSort, SortedItems, ItemOf, KeyOrdered, DistinctKeys;
    var items, sorted := Items(kvs, target), FullSort(false, Items(kvs, target));
    assert |sorted| == |multiset(sorted)| == |multiset(items)| == |kvs|;
    forall i | 0 <= i < |kvs| ensures sorted[i] == items[i] {
      assert KeyOrder(Pick(kvs, sorted))[i] == KeyOrder(kvs)[i];
      SortedItemAt(kvs, target, sorted, i, i);
    }
    assert sorted == items;
    ItemKeys(kvs, target);
    FullSortSorts(false, items);
  }

  /** And it reverses them only then. */
  lemma ReversedOrderMeansSorted(kvs: seq<Blob>, target: SortTarget)
    requires KeyOrdered(kvs) && KeyOrder(Pick(kvs, FullSort(true, Items(kvs, target)))) == KeyOrder(Reversed(kvs))
    ensures SortedItems(false, Items(kvs, target))
  {
    hide FullSort, SortedItems, Items, KeyOrdered, DistinctKeys, Reversed, KeyOrder, Pick;
    var items, sorted := Items(kvs, target), FullSort(true, Items(kvs, target));
    SortedIsReversed(kvs, target, sorted);
    ItemKeys(kvs, target);
    FullSortSorts(true, items);
    ReversedBack(items);
  }

  /** The same items in some order. */
  predicate Rearranged(a: seq<Item>, b: seq<Item>) { multiset(a) == multiset(b) }

  lemma RearrangedItemAt(kvs: seq<Blob>, target: SortTarget, sorted: seq<Item>, i: nat)
    requires KeyOrdered(kvs) && Rearranged(sorted, Items(kvs, target)) && i < |sorted| == |kvs| == |Items(kvs, target)|
    requires |Pick(kvs, sorted)| == |sorted| && BlobKey(Pick(kvs, sorted)[i]) == BlobKey(kvs[|kvs| - 1 - i])
    ensures sorted[i] == Items(kvs, target)[|kvs| - 1 - i]
  {
    hide Items, KeyOrdered, Pick;
    SortedItemAt(kvs, target, sorted, i, |kvs| - 1 - i);
  }

  lemma {:induction false} ItemFromTheBack(kvs: seq<Blob>, target: SortTarget, sorted: seq<Item>, i: nat)
    requires KeyOrdered(kvs) && Rearranged(sorted, Items(kvs, target)) && i < |sorted| == |kvs| == |Items(kvs, target)|
    requires |Pick(kvs, sorted)| == |sorted| && KeyOrder(Pick(kvs, sorted)) == KeyOrder(Reversed(kvs))
    ensures sorted[i] == Items(kvs, target)[|kvs| - 1 - i]
  {
    hide *;
    ReversedKeyAt(kvs, Pick(kvs, sorted), i);
    RearrangedItemAt(kvs, target, sorted, i);
  }

  lemma {:induction false} SortedIsReversed(kvs: seq<Blob>, target: SortTarget, sorted: seq<Item>)
    requires KeyOrdered(kvs) && Rearranged(sorted, Items(kvs, target))
    requires KeyOrder(Pick(kvs, sorted)) == KeyOrder(Reversed(kvs))
    ensures sorted == Reversed(Items(kvs, target))
  {
    hide *;
    var items := Items(kvs, target);
    SameLength(sorted, items);
    ItemCount(kvs, target);
    PickLength(kvs, sorted);
    forall i | 0 <= i < |items| ensures sorted[i] == items[|items| - 1 - i] { ItemFromTheBack(kvs, target, sorted, i); }
    IsReversed(sorted, items);
  }

  lemma IsReversed(a: seq<Item>, b: seq<Item>)
    requires |a| == |b| && forall i :: 0 <= i < |b| ==> a[i] == b[|b| - 1 - i]
    ensures a == Reversed(b)
  {}

  lemma SameLength(a: seq<Item>, b: seq<Item>)
    requires Rearranged(a, b)
    ensures |a| == |b|
  {
    assert |a| == |multiset(a)| && |b| == |multiset(b)|;
  }

  lemma PickLength(kvs: seq<Blob>, items: seq<Item>)
    ensures |Pick(kvs, items)| == |items|
  {}

  lemma KeyOrderAt(kvs: seq<Blob>, i: nat)
    requires i < |kvs|
    ensures |KeyOrder(kvs)| == |kvs| && KeyOrder(kvs)[i] == BlobKey(kvs[i])
  {}

  lemma ReversedKeyAt(kvs: seq<Blob>, picked: seq<Blob>, i: nat)
    requires i < |kvs| == |picked| && KeyOrder(picked) == KeyOrder(Reversed(kvs))
    ensures BlobKey(picked[i]) == BlobKey(kvs[|kvs| - 1 - i])
  {
    hide KeyOrder, Reversed;
    KeyOrderReversed(kvs);
    ReversedAt(KeyOrder(kvs), i);
    KeyOrderAt(picked, i);
    KeyOrderAt(kvs, |kvs| - 1 - i);
  }

  lemma ReversedBack(s: seq<Item>)
    requires SortedItems(true, Reversed(s))
    ensures SortedItems(false, s)
  {
    var r := Reversed(s);
    forall i, j | 0 <= i < j < |s| ensures Before(false, s[i], s[j]) {
      assert Before(true, r[|s| - 1 - j], r[|s| - 1 - i]);
    }
  }

  lemma ReversedKeyOrder(a: seq<Blob>, b: seq<Blob>)
    requires KeyOrder(a) == KeyOrder(b)
    ensures KeyOrder(Reversed(a)) == KeyOrder(Reversed(b))
  {
    KeyOrderReversed(a);
    KeyOrderReversed(b);
  }

  lemma KeyOrderReversed(s: seq<Blob>)
    ensures KeyOrder(Reversed(s)) == Reversed(KeyOrder(s)) && |KeyOrder(s)| == |s|
  {}

  lemma ReversedAt<T>(s: seq<T>, i: nat)
    requires i < |s|
    ensures |Reversed(s)| == |s| && Reversed(s)[i] == s[|s| - 1 - i]
  {}

  lemma ListingsShareKeys(blobs: Blobs)
    requires Keyed(blobs)
    ensures KeyOrder(Listing(blobs, true)) == KeyOrder(Listing(blobs, false))
  {
    hide Listing, Keyed;
    ListingLength(blobs, true);
    ListingLength(blobs, false);
    SortedLength(blobs.Keys);
    assert |blobs.Keys| == |blobs|;
    forall i | 0 <= i < |blobs| ensures BlobKey(Listing(blobs, true)[i]) == BlobKey(Listing(blobs, false)[i]) {
      ListingKeys(blobs, true, i);
      ListingKeys(blobs, false, i);
    }
  }

  /** Stripping before sorting is right exactly when there was nothing to sort: for each field and
      either direction, a `keys_only` result has the keys in the order of the full result if and only
      if the entries, in key order, are already in field order. */
  lemma KeysOnlySortIsExact(blobs: Blobs, order: SortOrder, target: SortTarget)
    requires Keyed(blobs) && FieldSort(order, target)
    ensures KeyOrder(Ordered(Listing(blobs, true), order, target)) == KeyOrder(Ordered(Listing(blobs, false), order, target))
            <==> SortedItems(false, Items(Listing(blobs, false), target))
  {
    hide Listing, Reversed, SortedItems, Items, FullSort, Keyed, KeyOrdered, Pick, KeyOrder;
    var bare, full := Listing(blobs, true), Listing(blobs, false);
    ListingKeyOrdered(blobs, false);
    KeysOnlySortsByKey(blobs, order, target);
    ListingsShareKeys(blobs);
    ReversedKeyOrder(bare, full);
    if SortedItems(false, Items(full, target)) {
      SortOfSorted(full, target);
    } else if KeyOrder(Ordered(bare, order, target)) == KeyOrder(Ordered(full, order, target)) {
      if order == Descend { ReversedOrderMeansSorted(full, target); } else { KeptOrderMeansSorted(full, target); }
    }
  }

  /** Two keys, the smaller one modified later: sorted by modification the full result starts with
      the larger key, the `keys_only` result with the smaller. */
  lemma KeysOnlySortGoesWrong(a: Kv, b: Kv)
    requires Representable(a) && Representable(b) && Less(a.key, b.key) && a.modRev > b.modRev
    ensures var blobs: Blobs := map[a.key := Encode(a), b.key := Encode(b)];
            Keyed(blobs) && KeyOrder(Ordered(Listing(blobs, true), Ascend, ByMod)) != KeyOrder(Ordered(Listing(blobs, false), Ascend, ByMod))
  {
    hide Encode, SortedItems, KeyOrder, Ordered, Listing, Items, Keyed;
    var blobs: Blobs := map[a.key := Encode(a), b.key := Encode(b)];
    TwoBlobs(a, b);
    ItemsOfTwo(a, b);
    NotInFieldOrder(Items(Listing(blobs, false), ByMod));
    KeysOnlySortIsExact(blobs, Ascend, ByMod);
  }

  lemma TwoBlobs(a: Kv, b: Kv)
    requires Representable(a) && Representable(b) && Less(a.key, b.key)
    ensures var blobs: Blobs := map[a.key := Encode(a), b.key := Encode(b)];
            Keyed(blobs) && Listing(blobs, false) == [Encode(a), Encode(b)]
  {
    hide Encode, ParsedKv, KeyOnly;
    LessIrreflexive(a.key);
    ParseRoundTrip(a);
    ParseRoundTrip(b);
    var blobs: Blobs := map[a.key := Encode(a), b.key := Encode(b)];
    assert blobs.Keys == {a.key, b.key};
    SortedAscends(blobs.Keys);
    assert Elements([a.key, b.key]) == blobs.Keys;
    AscendingUnique([a.key, b.key], Sorted(blobs.Keys));
  }

  lemma ItemsOfTwo(a: Kv, b: Kv)
    requires Representable(a) && Representable(b)
    ensures var items := Items([Encode(a), Encode(b)], ByMod);
            |items| == 2 && items[0].value == Number(a.modRev) && items[1].value == Number(b.modRev)
  {
    hide Encode, ParsedKv;
    ParseRoundTrip(a);
    ParseRoundTrip(b);
  }

  lemma NotInFieldOrder(items: seq<Item>)
    requires |items| == 2 && items[0].value.Number? && items[1].value.Number? && items[0].value.n > items[1].value.n
    ensures !SortedItems(false, items)
  {
    assert !Before(false, items[0], items[1]);
  }

  // ---------------------------------------------------------- the current state

  /** The live entries of a range that pass the filters. */
  function CurrentBlobs(keys: Keys, bound: RangeBound, f: RevFilter): Blobs {
    map k | k in keys && Alive(keys[k]) && Matches(bound, k) && Passes(f, keys[k]) :: keys[k].kvBytes
  }

  predicate Selected(keys: Keys, f: RevFilter, k: Blob) {
    Live(keys, k) && Passes(f, keys[k])
  }

  /** The keys of a scan that are kept. */
  function Kept(keys: Keys, ks: seq<Blob>, f: RevFilter): seq<Blob> {
    Filter(k => Selected(keys, f, k), ks)
  }

  function Shown(keys: Keys, k: Blob, keysOnly: bool): Blob {
    if keysOnly || k !in keys then KeyOnly(k) else keys[k].kvBytes
  }

  function ShownAll(keys: Keys, ks: seq<Blob>, keysOnly: bool): seq<Blob> {
    seq(|ks|, i requires 0 <= i < |ks| => Shown(keys, ks[i], keysOnly))
  }

  lemma KeptOfNone(keys: Keys, f: RevFilter)
    ensures Kept(keys, [], f) == []
  {}

  lemma KeptSnoc(keys: Keys, ks: seq<Blob>, i: nat, f: RevFilter)
    requires i < |ks|
    ensures Kept(keys, ks[..i + 1], f) == Kept(keys, ks[..i], f) + if Selected(keys, f, ks[i]) then [ks[i]] else []
  {
    assert ks[..i + 1][..i] == ks[..i];
  }

  /** Filtering the scan of the range keeps exactly the entries selected. */
  lemma KeptKeys(keys: Keys, bound: RangeBound, f: RevFilter)
    ensures Kept(keys, Sorted(set k | k in keys.Keys && Matches(bound, k)), f) == Sorted(CurrentBlobs(keys, bound, f).Keys)
  {
    hide Matches, Passes;
    var matching := set k | k in keys.Keys && Matches(bound, k);
    FilterSorted(k => Selected(keys, f, k), matching, CurrentBlobs(keys, bound, f).Keys);
  }

  lemma ShownIsListing(keys: Keys, bound: RangeBound, f: RevFilter, keysOnly: bool)
    ensures ShownAll(keys, Sorted(CurrentBlobs(keys, bound, f).Keys), keysOnly) == Listing(CurrentBlobs(keys, bound, f), keysOnly)
  {
    hide Matches, Passes, KeyOnly;
    var blobs := CurrentBlobs(keys, bound, f);
    var ks := Sorted(blobs.Keys);
    forall i | 0 <= i < |ks| ensures ks[i] in blobs && blobs[ks[i]] == keys[ks[i]].kvBytes {
      assert ks[i] in Elements(ks);
    }
  }

  lemma PointListing(keys: Keys, key: Blob, f: RevFilter, keysOnly: bool)
    ensures Listing(CurrentBlobs(keys, Point(key), f), keysOnly)
         == if Live(keys, key) && Passes(f, keys[key]) then [Shown(keys, key, keysOnly)] else []
  {
    var blobs := CurrentBlobs(keys, Point(key), f);
    if Live(keys, key) && Passes(f, keys[key]) {
      assert blobs.Keys == {key};
      SortedAscends(blobs.Keys);
      assert Elements([key]) == {key};
      AscendingUnique([key], Sorted(blobs.Keys));
    } else {
      assert blobs.Keys == {};
    }
  }

  /** The bounded scan, keeping live entries that pass the filters. */
  method CollectRange(keys: Keys, bound: RangeBound, f: RevFilter, keysOnly: bool) returns (kvs: seq<Blob>)
    requires Scannable(bound)
    ensures kvs == Listing(CurrentBlobs(keys, bound, f), keysOnly)
  {
    hide KeyOnly, Matches, Passes, Kept, CurrentBlobs, Listing;
    var visited := ScanRange(keys.Keys, bound);
    kvs := [];
    KeptOfNone(keys, f);
    for i := 0 to |visited|
      invariant kvs == ShownAll(keys, Kept(keys, visited[..i], f), keysOnly)
    {
      var k := visited[i];
      KeptSnoc(keys, visited, i, f);
      assert k in Elements(visited);
      if Alive(keys[k]) && Passes(f, keys[k]) {
        kvs := kvs + [Shown(keys, k, keysOnly)];
      }
    }
    assert visited[..|visited|] == visited;
    KeptKeys(keys, bound, f);
    ShownIsListing(keys, bound, f, keysOnly);
  }

  /** `range_current`: a point request by one lookup, everything else by the bounded scan. */
  method RangeCurrent(keys: Keys, req: RangeReq) returns (resp: RangeResp)
    requires Scannable(ResolveRange(req.key, req.rangeEnd))
    ensures resp.count == |CurrentBlobs(keys, ResolveRange(req.key, req.rangeEnd), req.filter)|
    ensures Keyed(CurrentBlobs(keys, ResolveRange(req.key, req.rangeEnd), req.filter)) ==>
              resp == Response(CurrentBlobs(keys, ResolveRange(req.key, req.rangeEnd), req.filter), req)
  {
    hide KeyOnly, CurrentBlobs, Response, Listing, Keyed;
    var bound := ResolveRange(req.key, req.rangeEnd);
    ghost var blobs := CurrentBlobs(keys, bound, req.filter);
    if bound.Point? {
      var kvs: seq<Blob> := [];
      if bound.key in keys && Alive(keys[bound.key]) && Passes(req.filter, keys[bound.key]) {
        kvs := [Shown(keys, bound.key, req.keysOnly)];
      }
      PointListing(keys, bound.key, req.filter, req.keysOnly);
      ListingLength(blobs, req.keysOnly);
      if Keyed(blobs) { PointResponse(blobs, req, kvs); }
      var count := |kvs|;
      if req.countOnly { return RangeResp([], false, count); }
      return RangeResp(kvs, false, count);
    }
    var listed := CollectRange(keys, bound, req.filter, req.keysOnly);
    resp := Respond(listed, req, blobs);
  }

  lemma ShortItemsSorted(kvs: seq<Blob>, target: SortTarget)
    requires |kvs| <= 1
    ensures SortedItems(false, Items(kvs, target))
  {}

  /** At most one entry needs neither sorting nor cutting. */
  lemma PointResponse(blobs: Blobs, req: RangeReq, kvs: seq<Blob>)
    requires Keyed(blobs) && kvs == Listing(blobs, req.keysOnly) && |kvs| <= 1
    ensures Response(blobs, req) == RangeResp(if req.countOnly then [] else kvs, false, |kvs|)
  {
    hide Listing, Keyed, KeyOrdered, Items, FullSort, Pick;
    ListingLength(blobs, req.keysOnly);
    ListingKeyOrdered(blobs, req.keysOnly);
    ShortItemsSorted(kvs, req.target);
    SortOfSorted(kvs, req.target);
    assert Reversed(kvs) == kvs;
  }

  // ------------------------------------------------------------------ a request

  /** `range_historical` in full. */
  method RangeAt(keys: Keys, file: Blob, later: Lookups, req: RangeReq, t: nat) returns (r: Result<RangeResp, Error>)
    requires Scannable(ResolveRange(req.key, req.rangeEnd))
    ensures HistoricalFails(keys, file, req, t) ==> r == Err(ScanFailed)
    ensures !HistoricalFails(keys, file, req, t) ==> r.Ok? && r.value.count == |HistoricalAnswer(keys, file, later, req, t)|
    ensures !HistoricalFails(keys, file, req, t) && Keyed(HistoricalAnswer(keys, file, later, req, t)) ==>
              r == Ok(Response(HistoricalAnswer(keys, file, later, req, t), req))
  {
    hide Response, Keyed, Listing;
    var found := RangeHistorical(keys, file, later, ResolveRange(req.key, req.rangeEnd), req.filter, t);
    if found.None? { return Err(ScanFailed); }
    var resp := Respond(Listing(found.value, req.keysOnly), req, found.value);
    return Ok(resp);
  }

  /** The answer to a range request. A revision of 0 or less asks for the current state. */
  ghost function Answer(keys: Keys, current: nat, compactRev: nat, file: Blob, later: Lookups, req: RangeReq): Result<RangeResp, Error> {
    if req.key == [] then Err(KeyNotProvided)
    else if req.revision > current then Err(FutureRevision)
    else if 0 < req.revision < compactRev then Err(RevisionCompacted)
    else if req.revision <= 0 then Ok(Response(CurrentBlobs(keys, ResolveRange(req.key, req.rangeEnd), req.filter), req))
    else if HistoricalFails(keys, file, req, req.revision) then Err(ScanFailed)
    else Ok(Response(HistoricalAnswer(keys, file, later, req, req.revision), req))
  }

  /** The blobs a request selects carry their keys. */
  ghost predicate AnswerKeyed(keys: Keys, file: Blob, later: Lookups, req: RangeReq) {
    if req.revision > 0 then Keyed(HistoricalAnswer(keys, file, later, req, req.revision))
    else Keyed(CurrentBlobs(keys, ResolveRange(req.key, req.rangeEnd), req.filter))
  }

  /** `range`: the checks, then one of the two reads. */
  method ServeRange(keys: Keys, current: nat, compactRev: nat, file: Blob, later: Lookups, req: RangeReq) returns (r: Result<RangeResp, Error>)
    requires Scannable(ResolveRange(req.key, req.rangeEnd))
    ensures r.Err? <==> Answer(keys, current, compactRev, file, later, req).Err?
    ensures r.Err? || AnswerKeyed(keys, file, later, req) ==> r == Answer(keys, current, compactRev, file, later, req)
  {
    hide Response, CurrentBlobs, HistoricalAnswer, HistoricalFails, Keyed, ResolveRange;
    if req.key == [] { return Err(KeyNotProvided); }
    var target := if req.revision > 0 then req.revision else 0;
    if target > current { return Err(FutureRevision); }
    if target > 0 && target < compactRev { return Err(RevisionCompacted); }
    if target > 0 {
      r := RangeAt(keys, file, later, req, target);
    } else {
      var resp := RangeCurrent(keys, req);
      r := Ok(resp);
    }
  }

  ghost function HistoricalAnswer(keys: Keys, file: Blob, later: Lookups, req: RangeReq, t: nat): Blobs {
    var bound := ResolveRange(req.key, req.rangeEnd);
    HistoricalResult(keys, WalFold(Scan(file).records, bound, t), later, bound, req.filter, t)
  }

  ghost predicate HistoricalFails(keys: Keys, file: Blob, req: RangeReq, t: nat) {
    WithVerdict(keys, ResolveRange(req.key, req.rangeEnd), req.filter, t, Stale) != {} && Scan(file).failed
  }

  // ------------------------------------------------------- reads against the log

  /** A read of the current state is a read of the log: the fold of all records, in the range, with
      revisions that pass the filters. */
  lemma CurrentReadsLog(log: seq<Record>, bound: RangeBound, f: RevFilter, t: nat)
    requires WfLog(log) && MaxRev(log) <= t
    ensures CurrentBlobs(Replay(log).keys, bound, f) == Filtered(log, bound, f, t)
  {
    hide Replay, Matches, Passes;
    StateNow(log, t);
    BlobsEqual(CurrentBlobs(Replay(log).keys, bound, f), Filtered(log, bound, f, t));
  }

  /** Stored blobs carry their keys. */
  lemma CurrentKeyed(log: seq<Record>, bound: RangeBound, f: RevFilter)
    requires forall r :: r in log ==> Representable(KvOf(r))
    ensures Keyed(CurrentBlobs(Replay(log).keys, bound, f))
  {
    hide Matches, Passes, ParsedKv, Representable;
    ReplayShaped(log);
    forall k | k in CurrentBlobs(Replay(log).keys, bound, f)
      ensures |k| < TWO32 && BlobKey(CurrentBlobs(Replay(log).keys, bound, f)[k]) == Some(k)
    {
      ShapedKey(k, Replay(log).keys[k]);
    }
  }

  lemma ShapedKey(k: Blob, ks: KeyState)
    requires Shaped(k, ks)
    ensures |k| < TWO32 && BlobKey(ks.kvBytes) == Some(k)
  {
    hide ParsedKv;
    var own: Kv :| Representable(own) && ks.kvBytes == Encode(own)
                   && own == StateKv(k, ks).(createRev := own.createRev, version := own.version);
    ParseRoundTrip(own);
  }

  /** Asking for the newest revision gives the current state, filters included, whatever the log
      scan or the later map would have said. */
  lemma ReadAtHeadIsCurrent(log: seq<Record>, wal: Blobs, later: Lookups, bound: RangeBound, f: RevFilter, t: nat)
    requires WfLog(log) && MaxRev(log) <= t
    ensures HistoricalResult(Replay(log).keys, wal, later, bound, f, t) == CurrentBlobs(Replay(log).keys, bound, f)
  {
    WfLogMem(log);
    HeadVerdicts(Replay(log).keys, bound, f, t);
    var found, current := HistoricalResult(Replay(log).keys, wal, later, bound, f, t), CurrentBlobs(Replay(log).keys, bound, f);
    hide Replay, Classify, Passes, Matches;
    BlobsEqual(found, current);
  }

  /** When no entry is newer than `t`, every live entry answers directly and nothing is stale. */
  lemma HeadVerdicts(keys: Keys, bound: RangeBound, f: RevFilter, t: nat)
    requires KeysOk(keys) && UpTo(keys, t)
    ensures WithVerdict(keys, bound, f, t, Stale) == {}
    ensures WithVerdict(keys, bound, f, t, Direct) == CurrentBlobs(keys, bound, f).Keys
  {
    hide Matches, StateBytes;
    forall k | k in keys ensures Classify(keys[k], f, t) == (if Alive(keys[k]) && Passes(f, keys[k]) then Direct else Absent) {
      assert EntryOk(k, keys[k]) && LastRev(keys[k]) <= t;
    }
  }

  /** Every accepted request is answered from the log: the sorted, limited listing of the entries at
      the requested revision, or the newest ones when none is asked for, that pass the filters. The
      revision check may have been made on an older clock than the map that is read, the log file may
      have grown and been cut off in the middle of a write by the time the scan reads it, and the map
      may have moved on at each lookup of the merge. */
  lemma ReadsRefineLog(log: seq<Record>, more: seq<Record>, torn: Blob, later: Lookups, current: nat, compactRev: nat, req: RangeReq)
    requires WfLog(log) && (forall r :: r in log + more ==> Fits(r)) && (torn == [] || TornWrite(torn))
    requires req.key != [] && req.revision <= current
    requires 0 < req.revision ==>
               compactRev <= req.revision && ReadsRight(log, later, ResolveRange(req.key, req.rangeEnd), req.filter, req.revision)
               && forall r :: r in more ==> r.modRev > req.revision
    ensures Answer(Replay(log).keys, current, compactRev, SerializeAll(log + more) + torn, later, req)
         == Ok(Response(Filtered(log, ResolveRange(req.key, req.rangeEnd), req.filter, if req.revision > 0 then req.revision else MaxRev(log)), req))
  {
    hide KvBytes, Replay, WfLog, Fits, Response, CurrentBlobs, HistoricalResult, WalFold, Filtered, ReadsRight, ResolveRange, SerializeAll, TornWrite, WithVerdict, MaxRev;
    var bound := ResolveRange(req.key, req.rangeEnd);
    assert forall r :: r in log ==> r in log + more;
    if req.revision <= 0 {
      CurrentReadsLog(log, bound, req.filter, MaxRev(log));
    } else {
      WalScanReadsSnapshot(log + more, torn, bound, req.revision);
      HistoricalReadIsExact(log, more, torn, later, bound, req.filter, req.revision);
    }
  }

  /** A read of a past revision that is answered rightly twice is answered the same twice, whatever
      was written in between: what a transaction set aside can be read later. */
  lemma ReadsAreStable(log: seq<Record>, since: seq<Record>, more: seq<Record>, more': seq<Record>, later: Lookups, later': Lookups,
                       current: nat, current': nat, compactRev: nat, compactRev': nat, req: RangeReq)
    requires WfLog(log) && WfLog(log + since) && (forall r :: r in log + more ==> Fits(r)) && (forall r :: r in log + since + more' ==> Fits(r))
    requires req.key != [] && 0 < req.revision && req.revision <= current && req.revision <= current'
    requires compactRev <= req.revision && compactRev' <= req.revision
    requires (forall r :: r in more ==> r.modRev > req.revision) && (forall r :: r in since + more' ==> r.modRev > req.revision)
    requires ReadsRight(log, later, ResolveRange(req.key, req.rangeEnd), req.filter, req.revision)
    requires ReadsRight(log + since, later', ResolveRange(req.key, req.rangeEnd), req.filter, req.revision)
    ensures Answer(Replay(log + since).keys, current', compactRev', SerializeAll(log + since + more') + [], later', req)
         == Answer(Replay(log).keys, current, compactRev, SerializeAll(log + more) + [], later, req)
  {
    hide KvBytes, Replay, WfLog, Fits, Response, ReadsRight, ResolveRange, SerializeAll, Answer, StateAt;
    ReadsRefineLog(log, more, [], later, current, compactRev, req);
    ReadsRefineLog(log + since, more', [], later', current', compactRev', req);
    assert forall r :: r in since ==> r in since + more';
    assert forall r :: r in more' ==> r in since + more';
    StateStable(log, since, req.revision);
    FilteredByState(log, log + since, ResolveRange(req.key, req.rangeEnd), req.filter, req.revision);
  }

  lemma FilteredByState(a: seq<Record>, b: seq<Record>, bound: RangeBound, f: RevFilter, t: nat)
    requires StateAt(a, t) == StateAt(b, t)
    ensures Filtered(a, bound, f, t) == Filtered(b, bound, f, t)
  {
    hide StateAt, Matches, Passes;
  }
}
