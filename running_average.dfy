/**
 * The receiver's running average: the mean of the most recent numbers, up
 * to a fixed count, kept up to date as numbers arrive.
 */
module RunningAverages {
  import opened Wrappers

  /** The sum of a list of numbers. */
  function Sum(s: seq<real>): real
  {
    if s == [] then 0.0 else Sum(s[..|s| - 1]) + s[|s| - 1]
  }

  /** The sum, taken from the front: the first number plus the sum of the rest. */
  lemma {:induction false} SumFront(s: seq<real>)
    requires s != []
    ensures Sum(s) == s[0] + Sum(s[1..])
    decreases |s|
  {
    if |s| > 1 {
      SumFront(s[..|s| - 1]);
      assert s[..|s| - 1][1..] == s[1..][..|s| - 2];
    }
  }

  /** The mean of a list; the empty list is given the mean 0, the value a fresh or cleared average holds. */
  function Average(s: seq<real>): real
  {
    if s == [] then 0.0 else Sum(s) / (|s| as real)
  }

  /** The window after one more number: the oldest number leaves when the window is full. */
  function WindowAdd(s: seq<real>, x: real, capacity: nat): seq<real>
  {
    if |s| == capacity && s != [] then s[1..] + [x] else s + [x]
  }

  /** The window after a run of numbers, one at a time. */
  function WindowFeed(s: seq<real>, xs: seq<real>, capacity: nat): seq<real>
  {
    if xs == [] then s else WindowAdd(WindowFeed(s, xs[..|xs| - 1], capacity), xs[|xs| - 1], capacity)
  }

  /** The last `capacity` elements of `t`, or all of `t` when it is shorter. */
  function Latest(t: seq<real>, capacity: nat): (r: seq<real>)
  {
    if |t| <= capacity then t else t[|t| - capacity..]
  }

  /**
   * Starting from a window within capacity, the window after any run of
   * numbers is the most recent `capacity` numbers seen, in order.
   */
  lemma {:induction false} WindowFeedIsLatest(s: seq<real>, xs: seq<real>, capacity: nat)
    requires 1 <= capacity && |s| <= capacity
    ensures WindowFeed(s, xs, capacity) == Latest(s + xs, capacity)
    decreases |xs|
  {
    if xs == [] {
      assert s + xs == s;
    } else {
      var init := xs[..|xs| - 1];
      var x := xs[|xs| - 1];
      assert xs == init + [x];
      assert s + xs == (s + init) + [x];
      calc {
        WindowFeed(s, xs, capacity);
        WindowAdd(WindowFeed(s, init, capacity), x, capacity);
        { WindowFeedIsLatest(s, init, capacity); }
        WindowAdd(Latest(s + init, capacity), x, capacity);
        { LatestSnoc(s + init, x, capacity); }
        Latest(s + xs, capacity);
      }
    }
  }

  /** One more number moves the most recent `capacity` numbers on by one. */
  lemma LatestSnoc(t: seq<real>, x: real, capacity: nat)
    requires 1 <= capacity
    ensures WindowAdd(Latest(t, capacity), x, capacity) == Latest(t + [x], capacity)
  {
    if |t| > capacity {
      assert Latest(t, capacity)[1..] + [x] == (t + [x])[|t| + 1 - capacity..];
    } else if |t| == capacity {
      assert t[1..] + [x] == (t + [x])[|t| + 1 - capacity..];
    }
  }

  /**
   * Adding to a window of `k` numbers with average `a` gives the average
   * `(a * k + x) / (k + 1)`.
   */
  lemma AverageAppend(s: seq<real>, x: real)
    ensures Average(s + [x]) == (Average(s) * (|s| as real) + x) / ((|s| + 1) as real)
  {
    assert (s + [x])[..|s + [x]| - 1] == s;
  }

  /**
   * Dropping the oldest of `k >= 2` numbers with average `a` gives the
   * average `(a * k - s[0]) / (k - 1)`.
   */
  lemma AverageEvict(s: seq<real>)
    requires 2 <= |s|
    ensures Average(s[1..]) == (Average(s) * (|s| as real) - s[0]) / ((|s| - 1) as real)
  {
    SumFront(s);
  }

  /** A square is never negative. */
  lemma SquareNonNegative(a: real)
    ensures a * a >= 0.0
  {
    if a < 0.0 {
      assert a * a == (-a) * (-a);
    }
  }

  /**
   * `add` on the window and the kept average: when full, drop the oldest
   * number and scale the average back; then append and scale it forward.
   */
  function AddStep(s: seq<real>, a: real, x: real, capacity: nat): (seq<real>, real)
    requires 2 <= capacity && |s| <= capacity
  {
    var (kept, k, b) :=
      if |s| == capacity then (s[1..], |s| - 1, (a * (|s| as real) - s[0]) / ((|s| - 1) as real))
      else (s, |s|, a);
    (kept + [x], (b * (k as real) + x) / ((k + 1) as real))
  }

  /**
   * The incremental update keeps the average exact: from a window whose
   * average is `a`, `add` yields the next window and its mean.
   */
  lemma AddKeepsAverage(s: seq<real>, a: real, x: real, capacity: nat)
    requires 2 <= capacity && |s| <= capacity && a == Average(s)
    ensures AddStep(s, a, x, capacity).0 == WindowAdd(s, x, capacity)
    ensures AddStep(s, a, x, capacity).1 == Average(WindowAdd(s, x, capacity))
    ensures |AddStep(s, a, x, capacity).0| <= capacity
  {
    if |s| == capacity {
      AverageEvict(s);
      AverageAppend(s[1..], x);
    } else {
      AverageAppend(s, x);
    }
  }

  /** The sum of squared differences from `center`. */
  function SquaredDifferences(s: seq<real>, center: real): (d: real)
    ensures d >= 0.0
  {
    if s == [] then 0.0
    else
      SquareNonNegative(s[|s| - 1] - center);
      SquaredDifferences(s[..|s| - 1], center) + (s[|s| - 1] - center) * (s[|s| - 1] - center)
  }

  /**
   * The square of `getStandardDeviation`: the mean squared difference from
   * the average; none for no numbers, where the source divides zero by zero.
   */
  function Variance(s: seq<real>): (v: Option<real>)
    ensures v.None? <==> s == []
    ensures v.Some? ==> v.value >= 0.0
  {
    if s == [] then None else Some(SquaredDifferences(s, Average(s)) / (|s| as real))
  }

  /** Numbers that all equal their center have no spread. */
  lemma {:induction false} SquaredDifferencesOfConstant(s: seq<real>, c: real)
    requires forall i :: 0 <= i < |s| ==> s[i] == c
    ensures SquaredDifferences(s, c) == 0.0
    decreases |s|
  {
    if s != [] {
      SquaredDifferencesOfConstant(s[..|s| - 1], c);
    }
  }

  /** A window of one repeated value has that value as average and no spread. */
  lemma {:induction false} ConstantWindow(s: seq<real>, c: real)
    requires s != [] && forall i :: 0 <= i < |s| ==> s[i] == c
    ensures Average(s) == c
    ensures Variance(s) == Some(0.0)
  {
    assert Sum(s) == c * (|s| as real) by {
      SumOfConstant(s, c);
    }
    SquaredDifferencesOfConstant(s, c);
  }

  /** The sum of `k` copies of `c` is `c * k`. */
  lemma {:induction false} SumOfConstant(s: seq<real>, c: real)
    requires forall i :: 0 <= i < |s| ==> s[i] == c
    ensures Sum(s) == c * (|s| as real)
    decreases |s|
  {
    if s != [] {
      SumOfConstant(s[..|s| - 1], c);
    }
  }

  /**
   * The running average object: its capacity, the window of numbers, oldest
   * first, and the average kept up to date with every change.
   */
  class RunningAverage {
    const maximumNumbers: nat
    var numbers: seq<real>
    var average: real

    /** The window is within capacity and the kept average is its mean. */
    ghost predicate Valid()
      reads this
    {
      2 <= maximumNumbers && |numbers| <= maximumNumbers && average == Average(numbers)
    }

    constructor(maximumNumbers: nat)
      requires 2 <= maximumNumbers
      ensures Valid()
      ensures this.maximumNumbers == maximumNumbers && numbers == []
    {
      this.maximumNumbers := maximumNumbers;
      numbers := [];
      average := 0.0;
    }

    /** `haveAverage`: the window is full exactly when a further number no longer grows it. */
    function HaveAverage(): (r: bool)
      reads this
      requires Valid()
      ensures r <==> |numbers| == maximumNumbers
      ensures r ==> 1 <= |numbers| && forall x :: WindowAdd(numbers, x, maximumNumbers) == numbers[1..] + [x]
      ensures !r ==> forall x :: WindowAdd(numbers, x, maximumNumbers) == numbers + [x]
    {
      |numbers| == maximumNumbers
    }

    /** `add`: evict the oldest number when full, append, and update the average incrementally. */
    method Add(number: real)
      requires Valid()
      modifies this
      ensures Valid()
      ensures (numbers, average) == AddStep(old(numbers), old(average), number, maximumNumbers)
    {
      AddKeepsAverage(numbers, average, number, maximumNumbers);
      var numbersSize := |numbers|;
      if numbersSize == maximumNumbers {
        var removedNumber := numbers[0];
        numbers := numbers[1..];
        average := (average * (numbersSize as real) - removedNumber) / ((numbersSize - 1) as real);
        numbersSize := numbersSize - 1;
      }
      numbers := numbers + [number];
      average := (average * (numbersSize as real) + number) / ((numbersSize + 1) as real);
    }

    /** `clear`: forget every number. */
    method Clear()
      requires Valid()
      modifies this
      ensures Valid() && numbers == [] && average == 0.0
    {
      numbers := [];
      average := 0.0;
    }

    /** `getAverage`: the mean of the window, or the error the source throws when it is empty. */
    method GetAverage() returns (r: Option<real>)
      requires Valid()
      ensures r.None? <==> numbers == []
      ensures r.Some? ==> r.value == Average(numbers)
    {
      if numbers == [] {
        return None;
      }
      return Some(average);
    }

    /**
     * `getStandardDeviation`, squared: the loop summing squared differences
     * from the average, divided by the count.
     */
    method GetVariance() returns (v: Option<real>)
      requires Valid()
      ensures v == Variance(numbers)
    {
      var squaredDifferences := 0.0;
      var i := 0;
      while i < |numbers|
        invariant 0 <= i <= |numbers|
        invariant squaredDifferences == SquaredDifferences(numbers[..i], average)
      {
        assert numbers[..i + 1][..i] == numbers[..i];
        squaredDifferences := squaredDifferences + (numbers[i] - average) * (numbers[i] - average);
        i := i + 1;
      }
      assert numbers[..i] == numbers;
      if numbers == [] {
        return None;
      }
      return Some(squaredDifferences / (|numbers| as real));
    }
  }
}
