/** The `fibo` class: a single Fibonacci number by iteration, and the series built from it. */
module FibonachiClass {
  import opened FibSpec

  /** fibo.fibonaci: 0 for every non-positive argument, otherwise Fib(number), by a two-variable loop. */
  method Fibonaci(number: int) returns (r: nat)
    ensures number <= 0 ==> r == 0
    ensures number >= 1 ==> r == Fib(number)
  {
    if number <= 0 {
      return 0;
    } else if number == 1 {
      return 1;
    }
    var a: nat, b: nat := 0, 1;
    var i := 2;
    while i <= number
      invariant 2 <= i <= number + 1
      invariant a == Fib(i - 2) && b == Fib(i - 1)
    {
      a, b := b, a + b;
      i := i + 1;
    }
    return b;
  }

  /** fibo.fiboseries: one call of `Fibonaci(i)` for each i in range(n); a negative n gives the empty list. */
  method FiboSeries(n: int) returns (s: seq<nat>)
    ensures |s| == if n < 0 then 0 else n
    ensures forall i :: 0 <= i < |s| ==> s[i] == Fib(i)
    ensures n >= 0 ==> s == Series(n)
    ensures forall i, j :: 0 <= i <= j < |s| ==> s[i] <= s[j]
  {
    s := [];
    var i := 0;
    while i < n
      invariant 0 <= i && (n >= 0 ==> i <= n) && (n < 0 ==> i == 0)
      invariant s == Series(i)
    {
      var f := Fibonaci(i);
      s := s + [f];
      i := i + 1;
    }
    forall k | 0 <= k < |s|
      ensures s[k] == Fib(k)
    {
      SeriesAt(|s|, k);
    }
    forall k, j | 0 <= k <= j < |s|
      ensures s[k] <= s[j]
    {
      SeriesNonDecreasing(|s|, k, j);
    }
  }
}
