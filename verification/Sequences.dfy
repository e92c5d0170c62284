/** Sequences without an element, without repetitions, and put together. */
module Sequences {
  function Without<T(==,!new)>(s: seq<T>, x: T): (r: seq<T>)
    ensures forall y :: y in r <==> y in s && y != x
  {
    if s == [] then []
    else if s[0] == x then Without(s[1..], x)
    else [s[0]] + Without(s[1..], x)
  }

  lemma WithoutCons<T(!new)>(y: T, s: seq<T>, x: T)
    ensures Without([y] + s, x) == (if y == x then [] else [y]) + Without(s, x)
  {
    assert ([y] + s)[1..] == s;
  }

  /** What is left keeps its order: each part of a sequence loses the element by itself. */
  lemma {:induction false} WithoutConcat<T(!new)>(a: seq<T>, b: seq<T>, x: T)
    ensures Without(a + b, x) == Without(a, x) + Without(b, x)
  {
    if a == [] {
      assert a + b == b;
    } else {
      var first := if a[0] == x then [] else [a[0]];
      WithoutConcat(a[1..], b, x);
      WithoutCons(a[0], a[1..] + b, x);
      assert a + b == [a[0]] + (a[1..] + b);
      assert Without(a, x) == first + Without(a[1..], x);
      ConcatAssociates(first, Without(a[1..], x), Without(b, x));
    }
  }

  ghost predicate Distinct<T>(s: seq<T>) {
    forall i, j :: 0 <= i < j < |s| ==> s[i] != s[j]
  }

  lemma ConcatAssociates<T>(a: seq<T>, b: seq<T>, c: seq<T>)
    ensures a + (b + c) == (a + b) + c
  {
  }
}
