/** The recursive Fibonacci definition both generators are checked against. */
module FibSpec {

  /** Fib(0) = 0, Fib(1) = 1, Fib(n) = Fib(n-1) + Fib(n-2). */
  function Fib(n: nat): nat
  {
    if n == 0 then 0 else if n == 1 then 1 else Fib(n - 1) + Fib(n - 2)
  }

  /** The first `n` Fibonacci numbers, built one element at a time. */
  function Series(n: nat): (s: seq<nat>)
    ensures |s| == n
  {
    if n == 0 then [] else Series(n - 1) + [Fib(n - 1)]
  }

  /** Every element of the series is the Fibonacci number of its index. */
  lemma {:induction false} SeriesAt(n: nat, i: nat)
    requires i < n
    ensures Series(n)[i] == Fib(i)
  {
    if i < n - 1 {
      SeriesAt(n - 1, i);
    }
  }

  /** Every element is the Fibonacci number of its index, so each one from index 2 is the sum of the two before. */
  lemma SeriesFacts(n: nat)
    ensures forall i :: 0 <= i < n ==> Series(n)[i] == Fib(i)
    ensures forall i :: 2 <= i < n ==> Series(n)[i] == Series(n)[i - 1] + Series(n)[i - 2]
  {
    forall i | 0 <= i < n
      ensures Series(n)[i] == Fib(i)
    {
      SeriesAt(n, i);
    }
    forall i | 2 <= i < n
      ensures Series(n)[i] == Series(n)[i - 1] + Series(n)[i - 2]
    {
      SeriesAt(n, i);
      SeriesAt(n, i - 1);
      SeriesAt(n, i - 2);
    }
  }

  /** A shorter series is a prefix of a longer one. */
  lemma {:induction false} SeriesPrefix(m: nat, n: nat)
    requires m <= n
    ensures Series(m) <= Series(n)
  {
    if m < n {
      SeriesPrefix(m, n - 1);
    }
  }

  /** The Fibonacci numbers never decrease. */
  lemma {:induction false} FibMonotone(i: nat, j: nat)
    requires i <= j
    ensures Fib(i) <= Fib(j)
  {
    if i < j {
      FibMonotone(i, j - 1);
      if j >= 2 {
        assert Fib(j) == Fib(j - 1) + Fib(j - 2);
      }
    }
  }

  /** The series is sorted: a later element is never smaller than an earlier one. */
  lemma SeriesNonDecreasing(n: nat, i: nat, j: nat)
    requires i <= j < n
    ensures Series(n)[i] <= Series(n)[j]
  {
    SeriesAt(n, i);
    SeriesAt(n, j);
    FibMonotone(i, j);
  }
}
