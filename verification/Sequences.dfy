/** Slices, and sequences of sequences laid end to end. */
module Sequences {

  /** A slice bound: negative ones count from the end, all are clamped. */
  function Bound(n: nat, i: int): nat {
    if i < 0 then (if n + i < 0 then 0 else n + i) else if i > n then n else i
  }

  /** `s[lo:hi]` */
  function Slice<T>(s: seq<T>, lo: int, hi: int): seq<T> {
    var a, b := Bound(|s|, lo), Bound(|s|, hi);
    if a < b then s[a..b] else []
  }

  function Map<A, B>(f: A -> B, s: seq<A>): seq<B> { seq(|s|, i requires 0 <= i < |s| => f(s[i])) }

  lemma {:induction false} MapCons<A, B>(f: A -> B, x: A, rest: seq<A>)
    ensures Map(f, [x] + rest) == [f(x)] + Map(f, rest)
  {
  }

  function Flatten<T>(parts: seq<seq<T>>): seq<T> {
    if parts == [] then [] else parts[0] + Flatten(parts[1..])
  }

  lemma {:induction false} FlattenSum<T>(a: seq<seq<T>>, b: seq<seq<T>>)
    ensures Flatten(a + b) == Flatten(a) + Flatten(b)
    decreases |a|
  {
    if a == [] {
      assert a + b == b;
    } else {
      assert (a + b)[1..] == a[1..] + b;
      FlattenSum(a[1..], b);
      Assoc(a[0], Flatten(a[1..]), Flatten(b));
    }
  }

  lemma {:induction false} FlattenCons<T>(part: seq<T>, more: seq<seq<T>>)
    ensures Flatten([part] + more) == part + Flatten(more)
  {
    assert ([part] + more)[1..] == more;
  }

  lemma {:induction false} SplitEqual<T>(a: seq<T>, b: seq<T>, a': seq<T>, b': seq<T>)
    requires |a| <= |a'| && |b| <= |b'|
    ensures a + b == a' + b' <==> a == a' && b == b'
  {
    if a + b == a' + b' {
      assert |a + b| == |a' + b'|;
      assert a == (a + b)[..|a|] && b == (a + b)[|a|..];
      assert a' == (a' + b')[..|a|] && b' == (a' + b')[|a|..];
    }
  }

  /** Parts of at most one element make up a sequence only one by one. */
  lemma {:induction false} FlattenIs<T>(parts: seq<seq<T>>, whole: seq<T>)
    requires |parts| == |whole| && forall i :: 0 <= i < |parts| ==> |parts[i]| <= 1
    ensures |Flatten(parts)| <= |whole|
    ensures Flatten(parts) == whole <==> forall i :: 0 <= i < |parts| ==> parts[i] == [whole[i]]
  {
    if parts != [] {
      FlattenIs(parts[1..], whole[1..]);
      SplitEqual(parts[0], Flatten(parts[1..]), [whole[0]], whole[1..]);
      assert whole == [whole[0]] + whole[1..];
    }
  }

  lemma {:induction false} Assoc<T>(x: seq<T>, y: seq<T>, z: seq<T>)
    ensures (x + y) + z == x + (y + z)
  {
  }

  lemma {:induction false} Swap<T>(x: seq<T>, y: seq<T>, rest: seq<T>)
    requires x == [] || y == []
    ensures x + (y + rest) == y + (x + rest)
  {
  }
}
