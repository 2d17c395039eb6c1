/** The free function `fibonaci` of Fibonaci_Method.py, which builds the list directly. */
module FibonaciMethod {
  import opened FibSpec
  import FibonachiClass

  /** Returns [0] for number <= 0, [0, 1] for number == 1, else the first `number` Fibonacci numbers. */
  method Fibonaci(number: int) returns (list: seq<nat>)
    ensures number <= 0 ==> list == [0]
    ensures number == 1 ==> list == [0, 1]
    ensures number >= 2 ==> |list| == number && list == Series(number)
    ensures |list| >= 1 && list[0] == 0
    ensures forall i :: 0 <= i < |list| ==> list[i] == Fib(i)
    ensures forall i :: 2 <= i < |list| ==> list[i] == list[i - 1] + list[i - 2]
  {
    if number <= 0 {
      list := [0];
    } else if number == 1 {
      list := [0, 1];
    } else {
      list := AppendFibonacci(number);
      SeriesFacts(number);
    }
  }

  /** The `number >= 2` branch: start from [0, 1] and append b while a, b walk along the sequence. */
  method AppendFibonacci(number: int) returns (list: seq<nat>)
    requires number >= 2
    ensures list == Series(number)
  {
    list := [0, 1];
    var a: nat, b: nat := 0, 1;
    var i := 2;
    while i < number
      invariant 2 <= i <= number
      invariant list == Series(i)
      invariant a == Fib(i - 2) && b == Fib(i - 1)
    {
      a, b := b, a + b;
      assert Series(i + 1) == Series(i) + [Fib(i)];
      list := list + [b];
      i := i + 1;
    }
  }

  /**
   * Runs both generators on the same argument. They agree from 2 upward; below that the
   * list-building function always reports a leading 0 (and 1), the class's series does not.
   */
  method CompareWithClassSeries(number: int) returns (fromMethod: seq<nat>, fromClass: seq<nat>)
    ensures number >= 2 ==> fromMethod == fromClass
    ensures number == 1 ==> fromMethod == [0, 1] && fromClass == [0]
    ensures number <= 0 ==> fromMethod == [0] && fromClass == []
  {
    fromMethod := Fibonaci(number);
    fromClass := FibonachiClass.FiboSeries(number);
    if number == 1 {
      assert fromClass[0] == Fib(0);
    }
  }
}
