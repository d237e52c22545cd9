/** Sequences mapped through a function and flattened, kept apart from what the function does. */
module Seqs {

  function Map<T, U>(f: T -> U, s: seq<T>): (r: seq<U>)
    ensures |r| == |s|
    ensures forall i :: 0 <= i < |s| ==> r[i] == f(s[i])
  {
    if s == [] then [] else [f(s[0])] + Map(f, s[1..])
  }

  function Flatten<T>(ss: seq<seq<T>>): seq<T> {
    if ss == [] then [] else ss[0] + Flatten(ss[1..])
  }

  lemma MapConcat<T, U>(f: T -> U, a: seq<T>, b: seq<T>)
    ensures Map(f, a + b) == Map(f, a) + Map(f, b)
  {}

  lemma Associative<T>(a: seq<T>, b: seq<T>, c: seq<T>)
    ensures (a + b) + c == a + (b + c)
  {}

  lemma {:induction false} FlattenConcat<T>(a: seq<seq<T>>, b: seq<seq<T>>)
    ensures Flatten(a + b) == Flatten(a) + Flatten(b)
  {
    if a == [] {
      assert a + b == b;
    } else {
      FlattenConcat(a[1..], b);
      assert (a + b)[1..] == a[1..] + b && (a + b)[0] == a[0];
      Associative(a[0], Flatten(a[1..]), Flatten(b));
    }
  }

  lemma FlatMapConcat<T, U>(f: T -> seq<U>, a: seq<T>, b: seq<T>)
    ensures Flatten(Map(f, a + b)) == Flatten(Map(f, a)) + Flatten(Map(f, b))
  {
    MapConcat(f, a, b);
    FlattenConcat(Map(f, a), Map(f, b));
  }

  lemma FlatMapSingle<T, U>(f: T -> seq<U>, x: T)
    ensures Flatten(Map(f, [x])) == f(x)
  {
    assert Map(f, [x]) == [f(x)];
    assert Flatten([f(x)]) == f(x) + Flatten([f(x)][1..]);
  }

  /** A prefix of a flattened sequence is some whole parts and a strict prefix of the next one. */
  lemma {:induction false} FlattenPrefix<T>(ss: seq<seq<T>>, view: seq<T>) returns (j: nat, torn: seq<T>)
    requires view <= Flatten(ss)
    ensures j <= |ss| && view == Flatten(ss[..j]) + torn
    ensures torn == [] || (j < |ss| && torn < ss[j])
  {
    if ss == [] || |view| < |ss[0]| {
      j, torn := 0, view;
      if ss != [] { assert Flatten(ss)[..|ss[0]|] == ss[0]; }
    } else {
      assert Flatten(ss)[..|ss[0]|] == ss[0] && Flatten(ss)[|ss[0]|..] == Flatten(ss[1..]);
      var rest := view[|ss[0]|..];
      assert rest <= Flatten(ss[1..]);
      var k, t := FlattenPrefix(ss[1..], rest);
      j, torn := k + 1, t;
      assert ss[..j][1..] == ss[1..][..k];
      Associative(ss[0], Flatten(ss[1..][..k]), t);
      assert view == ss[0] + rest;
    }
  }
}
