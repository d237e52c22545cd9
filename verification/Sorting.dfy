/** Sorting a range result by a field, with the top-k shortcut, and the response built from it. */
module Sorting {
  import opened Bytes
  import opened KvParse

  datatype SortOrder = Unsorted | Ascend | Descend
  datatype SortTarget = ByKey | ByVersion | ByCreate | ByMod | ByValue | OtherTarget

  datatype SortValue = Number(n: nat) | Text(s: Blob)

  /** What the comparator looks at, and where the blob sat. */
  datatype Item = Item(value: SortValue, key: Blob, idx: nat)

  // -------------------------------------------------------------- the comparator

  predicate ValueLess(a: SortValue, b: SortValue) {
    match (a, b)
    case (Number(x), Number(y)) => x < y
    case (Text(x), Text(y)) => Less(x, y)
    case (Number(_), Text(_)) => true
    case (Text(_), Number(_)) => false
  }

  /** By value, then by key. */
  predicate ItemLess(a: Item, b: Item) {
    ValueLess(a.value, b.value) || (a.value == b.value && Less(a.key, b.key))
  }

  predicate Before(desc: bool, a: Item, b: Item) {
    if desc then ItemLess(b, a) else ItemLess(a, b)
  }

  lemma ValueLessStrict(a: SortValue, b: SortValue, c: SortValue)
    ensures !ValueLess(a, a)
    ensures ValueLess(a, b) || a == b || ValueLess(b, a)
    ensures !(ValueLess(a, b) && ValueLess(b, a))
    ensures ValueLess(a, b) && ValueLess(b, c) ==> ValueLess(a, c)
  {
    if a.Text? { LessIrreflexive(a.s); }
    if a.Text? && b.Text? { LessTotal(a.s, b.s); }
    if a.Text? && b.Text? && c.Text? && Less(a.s, b.s) && Less(b.s, c.s) { LessTransitive(a.s, b.s, c.s); }
  }

  /** The comparator is a strict total order on items with different keys. */
  lemma BeforeStrict(desc: bool, a: Item, b: Item, c: Item)
    ensures !Before(desc, a, a)
    ensures a.key != b.key ==> Before(desc, a, b) || Before(desc, b, a)
    ensures !(Before(desc, a, b) && Before(desc, b, a))
    ensures Before(desc, a, b) && Before(desc, b, c) ==> Before(desc, a, c)
  {
    ValueLessStrict(a.value, b.value, c.value);
    ValueLessStrict(c.value, b.value, a.value);
    ValueLessStrict(b.value, a.value, c.value);
    LessIrreflexive(a.key);
    LessTotal(a.key, b.key);
    LessTotal(b.key, c.key);
    if Less(a.key, b.key) && Less(b.key, c.key) { LessTransitive(a.key, b.key, c.key); }
    if Less(c.key, b.key) && Less(b.key, a.key) { LessTransitive(c.key, b.key, a.key); }
  }

  predicate SortedItems(desc: bool, s: seq<Item>) {
    forall i, j :: 0 <= i < j < |s| ==> Before(desc, s[i], s[j])
  }

  predicate DistinctKeys(s: seq<Item>) {
    forall i, j :: 0 <= i < j < |s| ==> s[i].key != s[j].key
  }

  // ---------------------------------------------------------------- sorting

  function Insert(desc: bool, x: Item, s: seq<Item>): (r: seq<Item>)
    ensures multiset(r) == multiset(s) + multiset{x}
  {
    if s == [] || Before(desc, x, s[0]) then [x] + s
    else
      assert s == [s[0]] + s[1..];
      [s[0]] + Insert(desc, x, s[1..])
  }

  /** The full sort, as a reference. */
  function FullSort(desc: bool, s: seq<Item>): (r: seq<Item>)
    ensures multiset(r) == multiset(s)
  {
    if s == [] then []
    else
      assert s == [s[0]] + s[1..];
      Insert(desc, s[0], FullSort(desc, s[1..]))
  }

  lemma InMultiset(s: seq<Item>, t: seq<Item>, x: Item)
    requires multiset(s) == multiset(t)
    ensures x in s <==> x in t
  {
    assert x in s <==> x in multiset(s);
    assert x in t <==> x in multiset(t);
  }

  lemma {:induction false} InsertSorts(desc: bool, x: Item, s: seq<Item>)
    requires SortedItems(desc, s) && forall y :: y in s ==> y.key != x.key
    ensures SortedItems(desc, Insert(desc, x, s))
  {
    if s != [] {
      if Before(desc, x, s[0]) {
        forall i | 0 <= i < |s| ensures Before(desc, x, s[i]) { BeforeStrict(desc, x, s[0], s[i]); }
      } else {
        assert s[0] in s;
        BeforeStrict(desc, x, s[0], x);
        InsertSorts(desc, x, s[1..]);
        var rest := Insert(desc, x, s[1..]);
        forall i | 0 <= i < |rest| ensures Before(desc, s[0], rest[i]) {
          assert rest[i] in multiset(rest);
          if rest[i] != x {
            assert rest[i] in multiset(s[1..]);
            var j :| 0 <= j < |s[1..]| && s[1..][j] == rest[i];
          }
        }
      }
    }
  }

  lemma {:induction false} FullSortSorts(desc: bool, s: seq<Item>)
    requires DistinctKeys(s)
    ensures SortedItems(desc, FullSort(desc, s))
  {
    if s != [] {
      FullSortSorts(desc, s[1..]);
      forall y | y in FullSort(desc, s[1..]) ensures y.key != s[0].key {
        InMultiset(FullSort(desc, s[1..]), s[1..], y);
        var j :| 0 <= j < |s[1..]| && s[1..][j] == y;
      }
      InsertSorts(desc, s[0], FullSort(desc, s[1..]));
    }
  }

  lemma SortedHead(desc: bool, s: seq<Item>, x: Item)
    requires SortedItems(desc, s) && x in s
    ensures x == s[0] || Before(desc, s[0], x)
  {
    var i :| 0 <= i < |s| && s[i] == x;
  }

  lemma MultisetTail(s: seq<Item>, t: seq<Item>)
    requires s != [] && t != [] && s[0] == t[0] && multiset(s) == multiset(t)
    ensures multiset(s[1..]) == multiset(t[1..])
  {
    assert s == [s[0]] + s[1..] && t == [t[0]] + t[1..];
    assert multiset(s[1..]) == multiset(s) - multiset{s[0]};
    assert multiset(t[1..]) == multiset(t) - multiset{t[0]};
  }

  /** A sorted arrangement is unique. */
  lemma {:induction false} SortedUnique(desc: bool, s: seq<Item>, t: seq<Item>)
    requires SortedItems(desc, s) && SortedItems(desc, t) && multiset(s) == multiset(t)
    ensures s == t
  {
    assert |s| == |multiset(s)| == |multiset(t)| == |t|;
    if s != [] {
      InMultiset(s, t, s[0]);
      InMultiset(s, t, t[0]);
      SortedHead(desc, t, s[0]);
      SortedHead(desc, s, t[0]);
      BeforeStrict(desc, s[0], t[0], s[0]);
      MultisetTail(s, t);
      SortedUnique(desc, s[1..], t[1..]);
      assert s == [s[0]] + s[1..] && t == [t[0]] + t[1..];
    }
  }

  /** The contract of `select_nth_unstable_by(n, ..)`: a rearrangement with nothing before position
      `n` that belongs after it, and nothing after it that belongs before. */
  ghost predicate Partitioned(desc: bool, s: seq<Item>, out: seq<Item>, n: nat) {
    multiset(out) == multiset(s) && n < |out|
    && (forall i :: 0 <= i < n ==> !Before(desc, out[n], out[i]))
    && (forall i :: n < i < |out| ==> !Before(desc, out[i], out[n]))
  }

  lemma {:induction false} DistinctInAnyOrder(s: seq<Item>, t: seq<Item>)
    requires DistinctKeys(s) && multiset(s) == multiset(t)
    ensures DistinctKeys(t)
  {
    assert |s| == |multiset(s)| == |multiset(t)| == |t|;
    forall i, j | 0 <= i < j < |t| ensures t[i].key != t[j].key {
      InMultiset(s, t, t[i]);
      InMultiset(s, t, t[j]);
      var a :| 0 <= a < |s| && s[a] == t[i];
      var b :| 0 <= b < |s| && s[b] == t[j];
      if a == b {
        TwiceInMultiset(t, i, j);
        OnceInMultiset(s, a);
      }
    }
  }

  lemma TwiceInMultiset(t: seq<Item>, i: nat, j: nat)
    requires i < j < |t| && t[i] == t[j]
    ensures multiset(t)[t[i]] >= 2
  {
    assert t == t[..i] + [t[i]] + t[i + 1..j] + [t[j]] + t[j + 1..];
  }

  lemma OnceInMultiset(s: seq<Item>, a: nat)
    requires DistinctKeys(s) && a < |s|
    ensures multiset(s)[s[a]] == 1
  {
    assert s == s[..a] + [s[a]] + s[a + 1..];
    assert s[a] !in s[..a] && s[a] !in s[a + 1..];
  }

  lemma ConcatSorted(desc: bool, a: seq<Item>, b: seq<Item>)
    requires SortedItems(desc, a) && SortedItems(desc, b)
    requires forall x, y :: x in a && y in b ==> Before(desc, x, y)
    ensures SortedItems(desc, a + b)
  {
    forall i, j | 0 <= i < j < |a + b| ensures Before(desc, (a + b)[i], (a + b)[j]) {
      if i < |a| <= j { assert a[i] in a && b[j - |a|] in b; }
    }
  }

  /** A sorted selection all of which comes before everything left over begins the full sort. */
  lemma PrefixOfSort(desc: bool, s: seq<Item>, top: seq<Item>, left: seq<Item>)
    requires DistinctKeys(s) && SortedItems(desc, top) && DistinctKeys(left)
    requires multiset(top) + multiset(left) == multiset(s)
    requires forall x, y :: x in top && y in left ==> Before(desc, x, y)
    ensures |top| <= |FullSort(desc, s)| && top == FullSort(desc, s)[..|top|]
  {
    var rest := FullSort(desc, left);
    FullSortSorts(desc, left);
    forall x, y | x in top && y in rest ensures Before(desc, x, y) { InMultiset(rest, left, y); }
    ConcatSorted(desc, top, rest);
    FullSortSorts(desc, s);
    SortedUnique(desc, top + rest, FullSort(desc, s));
  }

  lemma CutAt(out: seq<Item>, n: nat)
    requires n <= |out|
    ensures multiset(out[..n]) + multiset(out[n..]) == multiset(out) && |multiset(out[..n])| == n
    ensures DistinctKeys(out) ==> DistinctKeys(out[n..])
  {
    assert out == out[..n] + out[n..];
  }

  // ------------------------------------------------------------ sorting blobs

  function SortValueOf(f: KvFields, target: SortTarget): SortValue {
    match target
    case ByVersion => Number(f.version)
    case ByCreate => Number(f.createRev)
    case ByMod => Number(f.modRev)
    case ByValue => Text(f.value)
    case _ => Text(f.key)
  }

  /** A blob that cannot be parsed sorts as 0 with an empty key. */
  function ItemOf(blob: Blob, target: SortTarget, idx: nat): Item {
    match ParsedKv(blob)
    case None => Item(Number(0), [], idx)
    case Some(f) => Item(SortValueOf(f, target), f.key, idx)
  }

  function Items(kvs: seq<Blob>, target: SortTarget): seq<Item> {
    seq(|kvs|, i requires 0 <= i < |kvs| => ItemOf(kvs[i], target, i))
  }

  function PickOne(kvs: seq<Blob>, idx: nat): Blob { if idx < |kvs| then kvs[idx] else [] }

  /** The blobs the items stand for. */
  function Pick(kvs: seq<Blob>, items: seq<Item>): seq<Blob> {
    seq(|items|, i requires 0 <= i < |items| => PickOne(kvs, items[i].idx))
  }

  /** The result in the requested order, by a full sort on the target field with the key as tiebreak. */
  function Ordered(kvs: seq<Blob>, order: SortOrder, target: SortTarget): seq<Blob> {
    if order == Unsorted || target == OtherTarget then kvs
    else Pick(kvs, FullSort(order == Descend, Items(kvs, target)))
  }

  function BlobKey(blob: Blob): Option<Blob> {
    match ParsedKv(blob)
    case None => None
    case Some(f) => Some(f.key)
  }

  /** Range results come out of an ordered map: the blobs parse, with strictly ascending keys. */
  predicate KeyOrdered(kvs: seq<Blob>) {
    (forall i :: 0 <= i < |kvs| ==> BlobKey(kvs[i]).Some?)
    && (forall i, j :: 0 <= i < j < |kvs| ==> Less(BlobKey(kvs[i]).UnwrapOr([]), BlobKey(kvs[j]).UnwrapOr([])))
  }

  lemma ItemKeys(kvs: seq<Blob>, target: SortTarget)
    requires KeyOrdered(kvs)
    ensures forall i, j :: 0 <= i < j < |kvs| ==> Less(Items(kvs, target)[i].key, Items(kvs, target)[j].key)
    ensures DistinctKeys(Items(kvs, target))
  {
    var items := Items(kvs, target);
    forall i, j | 0 <= i < j < |kvs| ensures Less(items[i].key, items[j].key) && items[i].key != items[j].key {
      assert BlobKey(kvs[i]) == Some(items[i].key) && BlobKey(kvs[j]) == Some(items[j].key);
      LessIrreflexive(items[i].key);
    }
  }

  lemma PickAll(kvs: seq<Blob>, target: SortTarget)
    ensures Pick(kvs, Items(kvs, target)) == kvs
  {}

  lemma PickSplit(kvs: seq<Blob>, a: seq<Item>, x: Item, b: seq<Item>)
    ensures multiset(Pick(kvs, a + [x] + b)) == multiset(Pick(kvs, a + b)) + multiset{PickOne(kvs, x.idx)}
  {
    assert Pick(kvs, a + [x] + b) == Pick(kvs, a) + [PickOne(kvs, x.idx)] + Pick(kvs, b);
    assert Pick(kvs, a + b) == Pick(kvs, a) + Pick(kvs, b);
  }

  lemma WithoutOne(t: seq<Item>, j: nat)
    requires j < |t|
    ensures t == t[..j] + [t[j]] + t[j + 1..]
    ensures multiset(t[..j] + t[j + 1..]) == multiset(t) - multiset{t[j]}
  {
    assert t == t[..j] + [t[j]] + t[j + 1..];
  }

  /** Rearranged items pick the same blobs. */
  lemma {:induction false} PickPermutes(kvs: seq<Blob>, s: seq<Item>, t: seq<Item>)
    requires multiset(s) == multiset(t)
    ensures multiset(Pick(kvs, s)) == multiset(Pick(kvs, t))
    decreases |s|
  {
    hide Pick;
    if s == [] {
      assert |t| == |multiset(t)| == 0;
    } else {
      InMultiset(s, t, s[0]);
      var j :| 0 <= j < |t| && t[j] == s[0];
      WithoutOne(t, j);
      WithoutOne(s, 0);
      PickSplit(kvs, t[..j], s[0], t[j + 1..]);
      PickSplit(kvs, s[..0], s[0], s[1..]);
      PickPermutes(kvs, s[..0] + s[1..], t[..j] + t[j + 1..]);
    }
  }

  /** Sorting only rearranges the result, and orders it by the target field, then by key. */
  lemma OrderedMeaning(kvs: seq<Blob>, order: SortOrder, target: SortTarget)
    requires KeyOrdered(kvs) && order != Unsorted && target != OtherTarget
    ensures multiset(Ordered(kvs, order, target)) == multiset(kvs)
    ensures forall i, j :: 0 <= i < j < |Ordered(kvs, order, target)| ==>
              Before(order == Descend, ItemOf(Ordered(kvs, order, target)[i], target, 0), ItemOf(Ordered(kvs, order, target)[j], target, 0))
  {
    var items := Items(kvs, target);
    var sorted := FullSort(order == Descend, items);
    PickPermutes(kvs, sorted, items);
    PickAll(kvs, target);
    ItemKeys(kvs, target);
    FullSortSorts(order == Descend, items);
    forall i | 0 <= i < |sorted| ensures ItemOf(Ordered(kvs, order, target)[i], target, 0) == sorted[i].(idx := 0) {
      SortedItemIsItem(kvs, target, sorted, i);
    }
  }

  lemma SortedItemIsItem(kvs: seq<Blob>, target: SortTarget, sorted: seq<Item>, i: nat)
    requires multiset(sorted) == multiset(Items(kvs, target)) && i < |sorted|
    ensures sorted[i].idx < |kvs| && sorted[i] == ItemOf(kvs[sorted[i].idx], target, sorted[i].idx)
  {
    InMultiset(sorted, Items(kvs, target), sorted[i]);
    var j :| 0 <= j < |kvs| && Items(kvs, target)[j] == sorted[i];
  }

  // ------------------------------------------------------ the key-order shortcuts

  function Reversed<T>(s: seq<T>): seq<T> {
    seq(|s|, i requires 0 <= i < |s| => s[|s| - 1 - i])
  }

  lemma {:induction false} ReversedPermutes(s: seq<Item>)
    ensures multiset(Reversed(s)) == multiset(s)
  {
    if s != [] {
      var n := |s| - 1;
      assert s == s[..n] + [s[n]] && Reversed(s) == [s[n]] + Reversed(s[..n]);
      ReversedPermutes(s[..n]);
    }
  }

  lemma SortedIsFullSort(desc: bool, s: seq<Item>, sorted: seq<Item>)
    requires DistinctKeys(s) && SortedItems(desc, sorted) && multiset(sorted) == multiset(s)
    ensures FullSort(desc, s) == sorted
  {
    FullSortSorts(desc, s);
    SortedUnique(desc, sorted, FullSort(desc, s));
  }

  lemma ReversedSorted(s: seq<Item>)
    requires SortedItems(false, s)
    ensures SortedItems(true, Reversed(s))
  {}

  lemma PickReversed(kvs: seq<Blob>, items: seq<Item>)
    ensures Pick(kvs, Reversed(items)) == Reversed(Pick(kvs, items))
  {}

  /** Sorting what is already in order changes nothing; sorting it the other way reverses it. */
  lemma SortOfSorted(kvs: seq<Blob>, target: SortTarget)
    requires KeyOrdered(kvs) && SortedItems(false, Items(kvs, target))
    ensures Pick(kvs, FullSort(false, Items(kvs, target))) == kvs
    ensures Pick(kvs, FullSort(true, Items(kvs, target))) == Reversed(kvs)
  {
    hide KeyOrdered, DistinctKeys, SortedItems, FullSort, Items, Pick, Reversed;
    var items := Items(kvs, target);
    ItemKeys(kvs, target);
    SortedIsFullSort(false, items, items);
    PickAll(kvs, target);
    ReversedPermutes(items);
    ReversedSorted(items);
    SortedIsFullSort(true, items, Reversed(items));
    PickReversed(kvs, items);
  }

  /** Sorting by key needs no sort. */
  lemma KeySortShortcut(kvs: seq<Blob>)
    requires KeyOrdered(kvs)
    ensures Ordered(kvs, Ascend, ByKey) == kvs && Ordered(kvs, Descend, ByKey) == Reversed(kvs)
  {
    ItemKeys(kvs, ByKey);
    forall i, j | 0 <= i < j < |kvs| ensures Before(false, Items(kvs, ByKey)[i], Items(kvs, ByKey)[j]) {
      assert BlobKey(kvs[i]).Some? && BlobKey(kvs[j]).Some?;
    }
    SortOfSorted(kvs, ByKey);
  }

  // ------------------------------------------------------- items that may compare equal

  /** No item belongs before an earlier one. */
  predicate WeaklySorted(desc: bool, s: seq<Item>) {
    forall i, j :: 0 <= i < j < |s| ==> !Before(desc, s[j], s[i])
  }

  /** The comparator is a strict weak order on all items. */
  lemma BeforeWeak(desc: bool, a: Item, b: Item, c: Item)
    requires Before(desc, a, c)
    ensures Before(desc, a, b) || Before(desc, b, c)
  {
    ValueLessStrict(a.value, b.value, c.value);
    LessTotal(a.key, b.key);
    BeforeStrict(desc, b, a, c);
  }

  lemma {:induction false} InsertWeak(desc: bool, x: Item, s: seq<Item>)
    requires WeaklySorted(desc, s)
    ensures WeaklySorted(desc, Insert(desc, x, s))
  {
    if s != [] {
      if Before(desc, x, s[0]) {
        forall j | 0 <= j < |s| ensures !Before(desc, s[j], x) { BeforeStrict(desc, s[j], x, s[0]); BeforeStrict(desc, x, s[0], x); }
      } else {
        InsertWeak(desc, x, s[1..]);
        var rest := Insert(desc, x, s[1..]);
        forall i | 0 <= i < |rest| ensures !Before(desc, rest[i], s[0]) {
          assert rest[i] in multiset(rest);
          if rest[i] != x {
            assert rest[i] in multiset(s[1..]);
            var j :| 0 <= j < |s[1..]| && s[1..][j] == rest[i];
          }
        }
      }
    }
  }

  lemma {:induction false} FullSortWeak(desc: bool, s: seq<Item>)
    ensures WeaklySorted(desc, FullSort(desc, s))
  {
    if s != [] {
      FullSortWeak(desc, s[1..]);
      InsertWeak(desc, s[0], FullSort(desc, s[1..]));
    }
  }

  lemma WeakIsStrict(desc: bool, s: seq<Item>)
    requires WeaklySorted(desc, s) && DistinctKeys(s)
    ensures SortedItems(desc, s)
  {
    forall i, j | 0 <= i < j < |s| ensures Before(desc, s[i], s[j]) { BeforeStrict(desc, s[i], s[j], s[i]); }
  }

  /** `chosen` is in order, and none of the `left` items belongs before a chosen one. */
  ghost predicate Chosen(desc: bool, items: seq<Item>, chosen: seq<Item>, left: seq<Item>) {
    multiset(chosen) + multiset(left) == multiset(items) && WeaklySorted(desc, chosen)
    && forall x, y :: x in chosen && y in left ==> !Before(desc, y, x)
  }

  lemma WeakSelection(desc: bool, s: seq<Item>, out: seq<Item>, limit: nat, x: Item, y: Item)
    requires 0 < limit && Partitioned(desc, s, out, limit - 1) && x in out[..limit] && y in out[limit..]
    ensures !Before(desc, y, x)
  {
    hide Before;
    var i :| 0 <= i < limit && out[..limit][i] == x;
    var j :| 0 <= j < |out[limit..]| && out[limit..][j] == y;
    assert out[limit + j] == y;
    if Before(desc, y, x) {
      BeforeWeak(desc, y, out[limit - 1], x);
      BeforeStrict(desc, y, x, y);
    }
  }

  /** Selection and sort of the selected part choose the first `limit` in a sorted order. */
  lemma TopKIsChosen(desc: bool, s: seq<Item>, out: seq<Item>, top: seq<Item>, limit: nat)
    requires 0 < limit && Partitioned(desc, s, out, limit - 1)
    requires WeaklySorted(desc, top) && multiset(top) == multiset(out[..limit])
    ensures Chosen(desc, s, top, out[limit..]) && |top| == limit
  {
    hide Before, WeaklySorted;
    CutAt(out, limit);
    forall x, y | x in top && y in out[limit..] ensures !Before(desc, y, x) {
      InMultiset(top, out[..limit], x);
      WeakSelection(desc, s, out, limit, x, y);
    }
    assert |top| == |multiset(top)|;
  }

  // ----------------------------------------------------------------- sort_kvs

  /** `select_nth_unstable_by` and `sort_unstable_by` stand behind their contracts. */
  method SelectNth(items: seq<Item>, n: nat, desc: bool) returns (out: seq<Item>)
    requires n < |items|
    ensures Partitioned(desc, items, out, n)
  {
    out := FullSort(desc, items);
    FullSortWeak(desc, items);
    assert |out| == |multiset(out)| == |multiset(items)| == |items|;
  }

  method SortUnstable(items: seq<Item>, desc: bool) returns (out: seq<Item>)
    ensures multiset(out) == multiset(items) && WeaklySorted(desc, out)
  {
    out := FullSort(desc, items);
    FullSortWeak(desc, items);
  }

  /** Every item names its own slot. */
  predicate OwnSlots(items: seq<Item>, n: nat) {
    (forall i :: 0 <= i < |items| ==> items[i].idx < n)
    && (forall i, j :: 0 <= i < j < |items| ==> items[i].idx != items[j].idx)
  }

  /** Move the blobs out in item order, leaving each slot empty behind; no slot is taken twice. */
  method MoveOut(blobs: seq<Blob>, items: seq<Item>) returns (out: seq<Blob>)
    requires OwnSlots(items, |blobs|)
    ensures out == Pick(blobs, items)
  {
    var kvs := blobs;
    out := [];
    for i := 0 to |items|
      invariant |kvs| == |blobs| && out == Pick(blobs, items[..i])
      invariant forall j :: i <= j < |items| ==> kvs[items[j].idx] == blobs[items[j].idx]
    {
      assert items[..i + 1] == items[..i] + [items[i]];
      out := out + [kvs[items[i].idx]];
      kvs := kvs[items[i].idx := []];
    }
    assert items[..|items|] == items;
  }

  lemma OnceInAnyOrder(s: seq<Item>, t: seq<Item>, i: nat, j: nat)
    requires multiset(t) <= multiset(s) && i < j < |t| && t[i] == t[j]
    ensures exists a, b :: 0 <= a < b < |s| && s[a] == s[b]
  {
    TwiceInMultiset(t, i, j);
    TwoPlaces(s, t[i]);
  }

  lemma {:induction false} TwoPlaces(s: seq<Item>, x: Item)
    requires multiset(s)[x] >= 2
    ensures exists a, b :: 0 <= a < b < |s| && s[a] == x && s[b] == x
  {
    assert x in s;
    var a :| 0 <= a < |s| && s[a] == x;
    assert s == s[..a] + [s[a]] + s[a + 1..];
    if x in s[a + 1..] {
      var b :| 0 <= b < |s[a + 1..]| && s[a + 1..][b] == x;
      assert s[a + 1 + b] == x;
    } else {
      assert x in s[..a];
      var b :| 0 <= b < a && s[..a][b] == x;
      assert s[b] == x;
    }
  }

  lemma SlotItem(kvs: seq<Blob>, target: SortTarget, chosen: seq<Item>, i: nat)
    requires multiset(chosen) <= multiset(Items(kvs, target)) && i < |chosen|
    ensures chosen[i].idx < |kvs| && chosen[i] == Items(kvs, target)[chosen[i].idx]
  {
    assert chosen[i] in multiset(chosen);
    assert chosen[i] in multiset(Items(kvs, target));
    var j :| 0 <= j < |kvs| && Items(kvs, target)[j] == chosen[i];
  }

  /** Chosen items name different slots, because each item carries its own index. */
  lemma SlotsOfChosen(kvs: seq<Blob>, target: SortTarget, chosen: seq<Item>)
    requires multiset(chosen) <= multiset(Items(kvs, target))
    ensures OwnSlots(chosen, |kvs|)
  {
    hide ItemOf;
    var items := Items(kvs, target);
    forall i | 0 <= i < |chosen| ensures chosen[i].idx < |kvs| && chosen[i] == items[chosen[i].idx] {
      SlotItem(kvs, target, chosen, i);
    }
    forall i, j | 0 <= i < j < |chosen| ensures chosen[i].idx != chosen[j].idx {
      if chosen[i].idx == chosen[j].idx {
        OnceInAnyOrder(items, chosen, i, j);
        var a, b :| 0 <= a < b < |items| && items[a] == items[b];
        SlotIndex(kvs, target, a);
        SlotIndex(kvs, target, b);
      }
    }
  }

  lemma SlotIndex(kvs: seq<Blob>, target: SortTarget, i: nat)
    requires i < |kvs|
    ensures Items(kvs, target)[i].idx == i
  {}

  /** The entries to move out: selected first when the limit is a small part of the range. */
  method SortEntries(items: seq<Item>, desc: bool, limit: nat) returns (out: seq<Item>, ghost left: seq<Item>)
    ensures Chosen(desc, items, out, left)
    ensures |out| == if 0 < limit && limit * 64 <= |items| then limit else |items|
  {
    hide WeaklySorted, FullSort, Before;
    var entries := items;
    if limit > 0 && limit * 64 <= |entries| {
      var selected := SelectNth(entries, limit - 1, desc);
      out := SortUnstable(selected[..limit], desc);
      left := selected[limit..];
      TopKIsChosen(desc, items, selected, out, limit);
    } else {
      out := SortUnstable(entries, desc);
      left := [];
      assert |out| == |multiset(out)| == |multiset(items)|;
    }
  }

  /** With distinct keys what is chosen begins the one full sort. */
  lemma ChosenIsPrefix(desc: bool, items: seq<Item>, chosen: seq<Item>, left: seq<Item>)
    requires Chosen(desc, items, chosen, left) && DistinctKeys(items)
    ensures chosen <= FullSort(desc, items)
  {
    hide FullSort, Before, WeaklySorted, SortedItems;
    var all := chosen + left;
    assert multiset(all) == multiset(items);
    DistinctInAnyOrder(items, all);
    DistinctParts(chosen, left);
    WeakIsStrict(desc, chosen);
    forall x, y | x in chosen && y in left ensures Before(desc, x, y) {
      var i :| 0 <= i < |chosen| && chosen[i] == x;
      var j :| 0 <= j < |left| && left[j] == y;
      assert all[i] == x && all[|chosen| + j] == y;
      BeforeStrict(desc, x, y, x);
    }
    PrefixOfSort(desc, items, chosen, left);
  }

  /** Top-k is faithful: whatever the selection and the sort of the selected part return within
      their contracts, the result is the first `limit` items of the full sort. */
  lemma TopKIsFaithful(desc: bool, s: seq<Item>, out: seq<Item>, top: seq<Item>, limit: nat)
    requires DistinctKeys(s) && 0 < limit && Partitioned(desc, s, out, limit - 1)
    requires WeaklySorted(desc, top) && multiset(top) == multiset(out[..limit])
    ensures limit <= |FullSort(desc, s)| && top == FullSort(desc, s)[..limit]
  {
    hide FullSort, Chosen, WeaklySorted, DistinctKeys;
    TopKIsChosen(desc, s, out, top, limit);
    ChosenIsPrefix(desc, s, top, out[limit..]);
  }

  lemma DistinctParts(a: seq<Item>, b: seq<Item>)
    requires DistinctKeys(a + b)
    ensures DistinctKeys(a) && DistinctKeys(b)
  {
    var all := a + b;
    forall i, j | 0 <= i < j < |a| ensures a[i].key != a[j].key { assert all[i] == a[i] && all[j] == a[j]; }
    forall i, j | 0 <= i < j < |b| ensures b[i].key != b[j].key { assert all[|a| + i] == b[i] && all[|a| + j] == b[j]; }
  }

  lemma ItemCount(blobs: seq<Blob>, target: SortTarget)
    ensures |Items(blobs, target)| == |blobs|
  {}

  lemma ReversedLength<T>(s: seq<T>)
    ensures |Reversed(s)| == |s|
  {}

  /** What a sort of any blobs returns: nothing moved, or reversed, when there is no field to sort by,
      and otherwise the blobs of items chosen in a sorted order. */
  ghost predicate SortOf(blobs: seq<Blob>, kvs: seq<Blob>, order: SortOrder, target: SortTarget) {
    if order == Unsorted || target == OtherTarget then kvs == blobs
    else if target == ByKey then kvs == if order == Descend then Reversed(blobs) else blobs
    else PickedInOrder(blobs, kvs, order == Descend, target)
  }

  ghost predicate PickedInOrder(blobs: seq<Blob>, kvs: seq<Blob>, desc: bool, target: SortTarget) {
    exists chosen, left :: Chosen(desc, Items(blobs, target), chosen, left) && kvs == Pick(blobs, chosen)
  }

  /** `sort_kvs`: on any blobs, unparsable ones included, some sorted choice of at least `limit` of
      them; on the result of a range, whose keys ascend, the first of the one full sort. */
  method SortKvs(blobs: seq<Blob>, order: SortOrder, target: SortTarget, limit: nat) returns (kvs: seq<Blob>)
    ensures SortOf(blobs, kvs, order, target)
    ensures |kvs| == |blobs| || 0 < limit <= |kvs| <= |blobs|
    ensures KeyOrdered(blobs) ==> |Ordered(blobs, order, target)| == |blobs| && kvs <= Ordered(blobs, order, target)
  {
    hide Items, FullSort, KeyOrdered, DistinctKeys, Reversed, Chosen;
    ItemCount(blobs, target);
    var items := Items(blobs, target);
    var desc := order == Descend;
    assert |FullSort(desc, items)| == |multiset(items)| == |items|;
    if order == Unsorted { return blobs; }
    if target == ByKey {
      if KeyOrdered(blobs) { KeySortShortcut(blobs); }
      ReversedLength(blobs);
      return if desc then Reversed(blobs) else blobs;
    }
    if target == OtherTarget { return blobs; }
    var entries, left := SortEntries(items, desc, limit);
    ChosenIsPart(desc, items, entries, left);
    SlotsOfChosen(blobs, target, entries);
    kvs := MoveOut(blobs, entries);
    if KeyOrdered(blobs) {
      ItemKeys(blobs, target);
      ChosenIsPrefix(desc, items, entries, left);
      PickPrefix(blobs, entries, FullSort(desc, items));
    }
  }

  lemma ChosenIsPart(desc: bool, items: seq<Item>, chosen: seq<Item>, left: seq<Item>)
    requires Chosen(desc, items, chosen, left)
    ensures multiset(chosen) <= multiset(items)
  {}

  lemma PickPrefix(blobs: seq<Blob>, a: seq<Item>, b: seq<Item>)
    requires a <= b
    ensures Pick(blobs, a) <= Pick(blobs, b)
  {}
}
