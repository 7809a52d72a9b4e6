/** Facts about sequences that several components need. */
module Lists {

  lemma Associative<T>(a: seq<T>, b: seq<T>, c: seq<T>)
    ensures (a + b) + c == a + (b + c)
  {
  }

  predicate NoDuplicates<T(==)>(xs: seq<T>) {
    forall i, j :: 0 <= i < j < |xs| ==> xs[i] != xs[j]
  }

  /** The list without the first occurrence of x. */
  function Without<T(==)>(xs: seq<T>, x: T): seq<T> {
    if xs == [] then []
    else if xs[0] == x then xs[1..]
    else [xs[0]] + Without(xs[1..], x)
  }

  lemma {:induction false} WithoutMeans<T>(xs: seq<T>, x: T)
    requires NoDuplicates(xs)
    ensures forall y :: y in Without(xs, x) <==> y in xs && y != x
    ensures NoDuplicates(Without(xs, x))
    ensures |Without(xs, x)| == |xs| - if x in xs then 1 else 0
  {
    if xs != [] {
      assert xs == [xs[0]] + xs[1..];
      if xs[0] != x {
        WithoutMeans(xs[1..], x);
        var rest := Without(xs[1..], x);
        assert xs[0] !in rest;
      }
    }
  }

  lemma {:induction false} WithoutIsNoLonger<T>(xs: seq<T>, x: T)
    ensures |Without(xs, x)| <= |xs|
    ensures forall y :: y in Without(xs, x) ==> y in xs
  {
    if xs != [] {
      WithoutIsNoLonger(xs[1..], x);
      assert xs == [xs[0]] + xs[1..];
    }
  }

  /** Splicing out the first occurrence is removing it. */
  lemma {:induction false} SpliceIsWithout<T>(xs: seq<T>, i: nat, x: T)
    requires i < |xs| && xs[i] == x && x !in xs[..i]
    ensures Without(xs, x) == xs[..i] + xs[i + 1..]
  {
    if i > 0 {
      assert xs[0] == xs[..i][0];
      assert xs[1..][..i - 1] == xs[..i][1..];
      SpliceIsWithout(xs[1..], i - 1, x);
      assert xs[..i] == [xs[0]] + xs[1..][..i - 1];
    }
  }

  lemma {:induction false} WithoutAbsent<T>(xs: seq<T>, x: T)
    requires x !in xs
    ensures Without(xs, x) == xs
  {
    if xs != [] {
      WithoutAbsent(xs[1..], x);
    }
  }

  /** Removes the first occurrence of x, the way a slice is spliced. */
  method Splice<T(==)>(xs: seq<T>, x: T) returns (left: seq<T>)
    ensures left == Without(xs, x)
  {
    for i := 0 to |xs|
      invariant x !in xs[..i]
    {
      if xs[i] == x {
        SpliceIsWithout(xs, i, x);
        return xs[..i] + xs[i + 1..];
      }
    }
    WithoutAbsent(xs, x);
    left := xs;
  }
}
