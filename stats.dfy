/**
 * The reductions the daily aggregate applies to a group: arithmetic mean, Python's
 * `round` (half to even), `Series.unique()` (first-occurrence order) and `str.join`.
 */
module Stats {

  function Sum(xs: seq<real>): real {
    if |xs| == 0 then 0.0 else Sum(xs[..|xs| - 1]) + xs[|xs| - 1]
  }

  function Mean(xs: seq<real>): real
    requires |xs| > 0
  {
    Sum(xs) / (|xs| as real)
  }

  lemma {:induction false} SumBounds(xs: seq<real>, lo: real, hi: real)
    requires forall i :: 0 <= i < |xs| ==> lo <= xs[i] <= hi
    ensures (|xs| as real) * lo <= Sum(xs) <= (|xs| as real) * hi
  {
    if |xs| > 0 {
      SumBounds(xs[..|xs| - 1], lo, hi);
    }
  }

  /** A mean lies within any bounds of its elements. */
  lemma MeanBounds(xs: seq<real>, lo: real, hi: real)
    requires |xs| > 0
    requires forall i :: 0 <= i < |xs| ==> lo <= xs[i] <= hi
    ensures lo <= Mean(xs) <= hi
  {
    SumBounds(xs, lo, hi);
    var n := |xs| as real;
    assert lo * n <= Sum(xs) <= hi * n;
    assert Mean(xs) * n == Sum(xs);
  }

  /** The smallest element. */
  function Least(xs: seq<real>): (m: real)
    requires |xs| > 0
    ensures exists i :: 0 <= i < |xs| && xs[i] == m
    ensures forall i :: 0 <= i < |xs| ==> m <= xs[i]
  {
    if |xs| == 1 then xs[0]
    else
      var m := Least(xs[1..]);
      assert forall i :: 1 <= i < |xs| ==> xs[i] == xs[1..][i - 1];
      if xs[0] <= m then xs[0] else m
  }

  /** The greatest element. */
  function Greatest(xs: seq<real>): (m: real)
    requires |xs| > 0
    ensures exists i :: 0 <= i < |xs| && xs[i] == m
    ensures forall i :: 0 <= i < |xs| ==> xs[i] <= m
  {
    if |xs| == 1 then xs[0]
    else
      var m := Greatest(xs[1..]);
      assert forall i :: 1 <= i < |xs| ==> xs[i] == xs[1..][i - 1];
      if m <= xs[0] then xs[0] else m
  }

  /** The sum of half-sums is the half-sum of the sums. */
  lemma {:induction false} SumOfHalfSums(xs: seq<real>, ys: seq<real>)
    requires |xs| == |ys|
    ensures Sum(seq(|xs|, i requires 0 <= i < |xs| => (xs[i] + ys[i]) / 2.0)) == (Sum(xs) + Sum(ys)) / 2.0
  {
    if |xs| > 0 {
      var n := |xs| - 1;
      var zs := seq(|xs|, i requires 0 <= i < |xs| => (xs[i] + ys[i]) / 2.0);
      SumOfHalfSums(xs[..n], ys[..n]);
      assert zs[..n] == seq(n, i requires 0 <= i < n => (xs[..n][i] + ys[..n][i]) / 2.0);
    }
  }

  /** The mean of half-sums is the half-sum of the means. */
  lemma MeanOfHalfSums(xs: seq<real>, ys: seq<real>)
    requires |xs| == |ys| > 0
    ensures Mean(seq(|xs|, i requires 0 <= i < |xs| => (xs[i] + ys[i]) / 2.0)) == (Mean(xs) + Mean(ys)) / 2.0
  {
    SumOfHalfSums(xs, ys);
    var n := |xs| as real;
    assert (Sum(xs) + Sum(ys)) / 2.0 / n == (Sum(xs) / n + Sum(ys) / n) / 2.0;
  }

  /** Python's `round` on a number: the nearest integer, ties to the even one. */
  function RoundHalfEven(x: real): (n: int)
    ensures n as real - 0.5 <= x <= n as real + 0.5
    ensures x - (x.Floor as real) == 0.5 ==> n % 2 == 0
  {
    var f := x.Floor;
    var frac := x - f as real;
    if frac < 0.5 then f
    else if frac > 0.5 then f + 1
    else if f % 2 == 0 then f
    else f + 1
  }

  /** Rounding a value that lies between two integers stays between them. */
  lemma RoundWithin(x: real, lo: int, hi: int)
    requires lo as real <= x <= hi as real
    ensures lo <= RoundHalfEven(x) <= hi
  {
  }

  predicate NoDuplicates(s: seq<string>) {
    forall i, j :: 0 <= i < j < |s| ==> s[i] != s[j]
  }

  /** `Series.unique()`: the distinct values, each where it first occurs. */
  function Unique(xs: seq<string>): (u: seq<string>)
    ensures NoDuplicates(u)
    ensures forall x :: x in u <==> x in xs
  {
    if |xs| == 0 then []
    else
      var u := Unique(xs[..|xs| - 1]);
      if xs[|xs| - 1] in u then u
      else
        assert forall x :: x in xs <==> x in xs[..|xs| - 1] || x == xs[|xs| - 1] by {
          assert xs == xs[..|xs| - 1] + [xs[|xs| - 1]];
        }
        u + [xs[|xs| - 1]]
  }

  /** The index of the first occurrence of `x`. */
  function FirstIndex(xs: seq<string>, x: string): (k: nat)
    requires x in xs
    ensures k < |xs| && xs[k] == x
    ensures forall j :: 0 <= j < k ==> xs[j] != x
  {
    if xs[0] == x then 0 else 1 + FirstIndex(xs[1..], x)
  }

  lemma FirstIndexOfPrefix(xs: seq<string>, n: nat, x: string)
    requires n <= |xs| && x in xs[..n]
    ensures FirstIndex(xs, x) == FirstIndex(xs[..n], x)
  {
    var k := FirstIndex(xs[..n], x);
    var m := FirstIndex(xs, x);
    assert xs[k] == x;
  }

  /** The distinct values come out in the order of their first occurrences. */
  lemma {:induction false} UniqueInFirstOccurrenceOrder(xs: seq<string>, i: nat, j: nat)
    requires i < j < |Unique(xs)|
    ensures FirstIndex(xs, Unique(xs)[i]) < FirstIndex(xs, Unique(xs)[j])
  {
    var n := |xs| - 1;
    var prefix := xs[..n];
    var u := Unique(prefix);
    var last := xs[n];
    if last in u {
      assert Unique(xs) == u;
      UniqueInFirstOccurrenceOrder(prefix, i, j);
      FirstIndexOfPrefix(xs, n, u[i]);
      FirstIndexOfPrefix(xs, n, u[j]);
    } else {
      assert Unique(xs) == u + [last];
      FirstIndexOfPrefix(xs, n, u[i]);
      if j < |u| {
        UniqueInFirstOccurrenceOrder(prefix, i, j);
        FirstIndexOfPrefix(xs, n, u[j]);
      } else {
        assert last !in prefix;
        assert FirstIndex(xs, last) == n;
      }
    }
  }

  /** `sep.join(xs)`. */
  function Join(sep: string, xs: seq<string>): string {
    if |xs| == 0 then ""
    else if |xs| == 1 then xs[0]
    else xs[0] + sep + Join(sep, xs[1..])
  }

  lemma JoinTwo(sep: string, a: string, b: string)
    ensures Join(sep, [a, b]) == a + sep + b
  {
    assert [a, b][1..] == [b];
  }
}
