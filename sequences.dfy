/** Concatenating the results of a function over a sequence, in order. */
module Sequences {
  import opened Wrappers

  /** `[y for x in xs for y in f(x)]`. */
  function FlatMap<X, Y>(f: X -> seq<Y>, xs: seq<X>): seq<Y> {
    if xs == [] then [] else f(xs[0]) + FlatMap(f, xs[1..])
  }

  lemma {:induction false} FlatMapAppend<X, Y>(f: X -> seq<Y>, a: seq<X>, b: seq<X>)
    ensures FlatMap(f, a + b) == FlatMap(f, a) + FlatMap(f, b)
  {
    if a == [] {
      assert a + b == b;
    } else {
      assert (a + b)[1..] == a[1..] + b;
      FlatMapAppend(f, a[1..], b);
    }
  }

  /** Every element of the result comes from the image of some element of xs. */
  lemma {:induction false} FlatMapMember<X, Y>(f: X -> seq<Y>, xs: seq<X>, y: Y)
    requires y in FlatMap(f, xs)
    ensures exists x | x in xs :: y in f(x)
  {
    if y !in f(xs[0]) {
      FlatMapMember(f, xs[1..], y);
      var x :| x in xs[1..] && y in f(x);
      assert x in xs;
    }
  }

  /** With images of length at most one, every element is the whole image of some x. */
  lemma FlatMapMemberSingleton<X, Y>(f: X -> seq<Y>, xs: seq<X>, y: Y)
    requires forall x | x in xs :: |f(x)| <= 1
    requires y in FlatMap(f, xs)
    ensures exists x | x in xs :: f(x) == [y]
  {
    FlatMapMember(f, xs, y);
    var x :| x in xs && y in f(x);
    assert f(x) == [y];
  }

  /** The result is empty exactly when every image is empty. */
  lemma {:induction false} FlatMapEmpty<X, Y>(f: X -> seq<Y>, xs: seq<X>)
    ensures FlatMap(f, xs) == [] <==> forall x | x in xs :: f(x) == []
  {
    if xs != [] {
      FlatMapEmpty(f, xs[1..]);
      assert forall x | x in xs :: x == xs[0] || x in xs[1..];
    }
  }

  /** With images of length at most one, the result is no longer than xs. */
  lemma {:induction false} FlatMapLength<X, Y>(f: X -> seq<Y>, xs: seq<X>)
    requires forall x | x in xs :: |f(x)| <= 1
    ensures |FlatMap(f, xs)| <= |xs|
  {
    if xs != [] {
      assert forall x | x in xs[1..] :: x in xs;
      FlatMapLength(f, xs[1..]);
    }
  }

  /** Splitting a concatenation where its two parts meet. */
  lemma SplitAppend<T>(a: seq<T>, b: seq<T>)
    ensures (a + b)[..|a|] == a && (a + b)[|a|..] == b
  {
  }

  lemma TakeTake<T>(s: seq<T>, i: nat, j: nat)
    requires i <= j <= |s|
    ensures s[..j][..i] == s[..i]
  {
  }


  /** What follows p in s, when s starts with p. */
  function DropPrefix<T(==)>(p: seq<T>, s: seq<T>): (r: Option<seq<T>>)
    ensures r.Some? <==> p <= s
    ensures r.Some? ==> s == p + r.value
  {
    if p <= s then Some(s[|p|..]) else None
  }

  /** What precedes w in s, when s ends with w. */
  function DropSuffix<T(==)>(w: seq<T>, s: seq<T>): (r: Option<seq<T>>)
    ensures r.Some? <==> (|w| <= |s| && s[|s| - |w|..] == w)
    ensures r.Some? ==> s == r.value + w
  {
    if |w| <= |s| && s[|s| - |w|..] == w then Some(s[..|s| - |w|]) else None
  }

  lemma DropPrefixAppend<T>(p: seq<T>, s: seq<T>)
    ensures DropPrefix(p, p + s) == Some(s)
  {
    SplitAppend(p, s);
  }

  lemma DropSuffixAppend<T>(w: seq<T>, s: seq<T>)
    ensures DropSuffix(w, s + w) == Some(s)
  {
    SplitAppend(s, w);
  }

  /** True when w occurs in s at index k. */
  ghost predicate OccursAt<T>(s: seq<T>, w: seq<T>, k: int) {
    0 <= k && k + |w| <= |s| && s[k..k + |w|] == w
  }

  lemma OccursInMiddle<T>(a: seq<T>, w: seq<T>, b: seq<T>)
    ensures OccursAt(a + (w + b), w, |a|)
  {
    assert (a + (w + b))[|a|..|a| + |w|] == w;
  }

  lemma OccursShift<T>(a: seq<T>, s: seq<T>, w: seq<T>, k: int)
    requires OccursAt(s, w, k)
    ensures OccursAt(a + s, w, |a| + k)
  {
    assert (a + s)[|a| + k..|a| + k + |w|] == s[k..k + |w|];
  }

  lemma OccursPrefix<T>(s: seq<T>, w: seq<T>, k: int, n: nat)
    requires OccursAt(s, w, k) && n <= |w|
    ensures OccursAt(s, w[..n], k)
  {
    assert s[k..k + n] == s[k..k + |w|][..n];
  }
}
