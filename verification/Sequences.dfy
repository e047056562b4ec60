/** Operations on sequences that several models share. */
module Sequences {
  // Without the element at a position; a position behind the end changes nothing.
  function Without<T>(xs: seq<T>, k: nat): seq<T> {
    if k < |xs| then xs[..k] + xs[k + 1..] else xs
  }

  // The first position of an element, or the length.
  function IndexOf<T(==)>(xs: seq<T>, x: T): (k: nat)
    ensures k <= |xs| && (k < |xs| ==> xs[k] == x) && (k < |xs| <==> x in xs)
  {
    if xs == [] || xs[0] == x then 0 else 1 + IndexOf(xs[1..], x)
  }

  lemma {:induction false} ConcatConcat<T>(a: seq<T>, b: seq<T>, c: seq<T>)
    ensures a + (b + c) == (a + b) + c
  {
  }

  // Behind other elements.
  lemma {:induction false} IndexOfBehind<T>(before: seq<T>, rest: seq<T>, x: T)
    requires x !in before && x in rest
    ensures x in before + rest && IndexOf(before + rest, x) == |before| + IndexOf(rest, x)
  {
    if before == [] {
      assert before + rest == rest;
    } else {
      assert (before + rest)[0] == before[0] && (before + rest)[1..] == before[1..] + rest;
      IndexOfBehind(before[1..], rest, x);
    }
  }

  lemma {:induction false} WithoutBehind<T>(before: seq<T>, rest: seq<T>, k: nat)
    requires k < |rest|
    ensures Without(before + rest, |before| + k) == before + Without(rest, k)
  {
    assert (before + rest)[..|before| + k] == before + rest[..k];
    assert (before + rest)[|before| + k + 1..] == rest[k + 1..];
    ConcatConcat(before, rest[..k], rest[k + 1..]);
  }

  // Replacing element `i` after the elements before it were dealt with.
  lemma {:induction false} Replaced<T>(before: seq<T>, all: seq<T>, i: nat, x: T)
    requires i < |all| == |before| && before[i..] == all[i..]
    ensures before[i] == all[i] && before[i := x] == before[..i] + ([x] + all[i + 1..])
    ensures before[i := x][..i + 1] == before[..i] + [x] && before[i := x][i + 1..] == all[i + 1..]
  {
    assert before[i..][0] == before[i];
    assert before[i + 1..] == before[i..][1..] == all[i..][1..] == all[i + 1..];
  }
}
