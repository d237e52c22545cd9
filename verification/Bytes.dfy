/** Byte strings and the lexicographic order in which the store keeps its keys. */
module Bytes {

  type Byte = b: int | 0 <= b < 256
  type Blob = seq<Byte>

  datatype Option<+T> = None | Some(value: T) {
    function UnwrapOr(default: T): T {
      match this
      case None => default
      case Some(v) => v
    }

    predicate IsFailure() { None? }

    function PropagateFailure<U>(): Option<U>
      requires None?
    {
      None
    }

    function Extract(): T
      requires Some?
    {
      value
    }
  }

  datatype Result<+T, +E> = Ok(value: T) | Err(error: E)

  /** `a < b` on byte slices: the first differing byte decides, a proper prefix comes first. */
  predicate Less(a: Blob, b: Blob) {
    if b == [] then false
    else if a == [] then true
    else a[0] < b[0] || (a[0] == b[0] && Less(a[1..], b[1..]))
  }

  /** `a <= b` on byte slices. */
  predicate AtMost(a: Blob, b: Blob) {
    !Less(b, a)
  }

  predicate StartsWith(key: Blob, prefix: Blob) {
    prefix <= key
  }

  lemma {:induction false} LessIrreflexive(a: Blob)
    ensures !Less(a, a)
  {
    if a != [] { LessIrreflexive(a[1..]); }
  }

  lemma {:induction false} LessTransitive(a: Blob, b: Blob, c: Blob)
    requires Less(a, b) && Less(b, c)
    ensures Less(a, c)
  {
    if a != [] && a[0] == b[0] && b[0] == c[0] {
      LessTransitive(a[1..], b[1..], c[1..]);
    }
  }

  lemma {:induction false} LessTotal(a: Blob, b: Blob)
    ensures Less(a, b) || a == b || Less(b, a)
    ensures !(Less(a, b) && Less(b, a))
  {
    if a != [] && b != [] {
      LessTotal(a[1..], b[1..]);
      if a[0] == b[0] && a[1..] == b[1..] {
        assert a == [a[0]] + a[1..] == b;
      }
    }
  }

  lemma AtMostLess(a: Blob, b: Blob, c: Blob)
    requires AtMost(a, b) && Less(b, c)
    ensures Less(a, c)
  {
    LessTotal(a, b);
    if Less(a, b) { LessTransitive(a, b, c); }
  }

  lemma LessAtMost(a: Blob, b: Blob, c: Blob)
    requires Less(a, b) && AtMost(b, c)
    ensures Less(a, c)
  {
    LessTotal(b, c);
    if Less(b, c) { LessTransitive(a, b, c); }
  }

  lemma AtMostAntisymmetric(a: Blob, b: Blob)
    requires AtMost(a, b) && AtMost(b, a)
    ensures a == b
  {
    LessTotal(a, b);
  }

  /** Only `key` itself lies in `[key, key ++ 0x00)`. */
  lemma {:induction false} SuccessorOfKey(key: Blob, k: Blob)
    ensures AtMost(key, k) && Less(k, key + [0]) <==> k == key
  {
    if key == [] {
      if k != [] { assert k[1..] + [] == k[1..]; }
    } else if k != [] {
      SuccessorOfKey(key[1..], k[1..]);
      assert (key + [0])[1..] == key[1..] + [0];
      if key[0] == k[0] && key[1..] == k[1..] {
        assert k == [k[0]] + k[1..] == key;
      }
    }
  }
}
