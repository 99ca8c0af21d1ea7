/**
 Statistics over delays, as reals: a delay of -1 is no result, -2 is a loss, and only positive delays are
 measured.
 */
module PingStats {

  const INVALID: real := -1.0
  const LOSS: real := -2.0

  function Power(n: nat): (r: real)
    ensures r >= 1.0
  {
    if n == 0 then 1.0 else 2.0 * Power(n - 1)
  }

  /** The largest finite number of 64-bit floating point. */
  const MAX_FLOAT: real := 9007199254740991.0 * Power(971)

  // ---------------------------------------------------------------- sums that forget the order

  function Total(data: seq<real>, g: real -> real): real {
    if data == [] then 0.0 else Total(data[..|data| - 1], g) + g(data[|data| - 1])
  }

  lemma {:induction false} TotalAppend(a: seq<real>, b: seq<real>, g: real -> real)
    ensures Total(a + b, g) == Total(a, g) + Total(b, g)
  {
    if b == [] {
      assert a + b == a;
    } else {
      var k := |b| - 1;
      TotalAppend(a, b[..k], g);
      assert (a + b)[..|a + b| - 1] == a + b[..k];
    }
  }

  /** A sum depends on the multiset of its terms only. */
  lemma {:induction false} TotalUnordered(a: seq<real>, b: seq<real>, g: real -> real)
    requires multiset(a) == multiset(b)
    ensures Total(a, g) == Total(b, g)
    decreases |a|
  {
    if a == [] {
      SameSize(a, b);
    } else {
      var k := |a| - 1;
      var x := a[k];
      assert a == a[..k] + [x];
      assert multiset(a) == multiset(a[..k]) + multiset{x};
      assert x in multiset(b);
      var i :| 0 <= i < |b| && b[i] == x;
      assert b == b[..i] + [x] + b[i + 1..];
      var rest := b[..i] + b[i + 1..];
      assert multiset(b) == multiset(rest) + multiset{x};
      assert multiset(a[..k]) == multiset(a) - multiset{x};
      assert multiset(rest) == multiset(b) - multiset{x};
      TotalUnordered(a[..k], rest, g);
      TotalAppend(b[..i], b[i + 1..], g);
      TotalAppend(b[..i] + [x], b[i + 1..], g);
      TotalAppend(b[..i], [x], g);
      assert Total([x], g) == g(x);
    }
  }

  lemma SameSize(a: seq<real>, b: seq<real>)
    requires multiset(a) == multiset(b)
    ensures |a| == |b|
  {
    assert |multiset(a)| == |a| && |multiset(b)| == |b|;
  }

  // ---------------------------------------------------------------- the statistics

  function Value(v: real): real { if v > 0.0 then v else 0.0 }

  function Positive(v: real): real { if v > 0.0 then 1.0 else 0.0 }

  function Lost(v: real): real { if v == LOSS then 1.0 else 0.0 }

  function Valid(v: real): real { if v == INVALID then 0.0 else 1.0 }

  function Square(v: real): real { if v > 0.0 then v * v else 0.0 }

  function Times(x: real, y: real): real { x * y }

  function Diff(avg: real): real -> real {
    v => if v > 0.0 then Times(v - avg, v - avg) else 0.0
  }

  function Avg(data: seq<real>): real {
    var num := Total(data, Positive);
    if num == 0.0 then INVALID else Total(data, Value) / num
  }

  /** What the program calls the standard deviation: the mean of the squared differences, without a root. */
  function Variance(data: seq<real>): real {
    var num := Total(data, Positive);
    if num == 0.0 then INVALID else Total(data, Diff(Avg(data))) / num
  }

  function Loss(data: seq<real>): real {
    var num := Total(data, Valid);
    if num == 0.0 then INVALID else Total(data, Lost) / num * 100.0
  }

  /** The largest positive delay, or -1. */
  ghost predicate IsMax(data: seq<real>, m: real) {
    && (forall i :: 0 <= i < |data| && data[i] > 0.0 ==> data[i] <= m)
    && (m == INVALID || (m > 0.0 && m in data))
  }

  /** The least positive delay, or the largest number when there is none. */
  ghost predicate IsMin(data: seq<real>, m: real) {
    && (forall i :: 0 <= i < |data| && data[i] > 0.0 ==> m <= data[i])
    && (m == MAX_FLOAT || m in data)
    && 0.0 < m <= MAX_FLOAT
  }

  ghost predicate SomePositive(data: seq<real>) {
    exists i :: 0 <= i < |data| && data[i] > 0.0
  }

  // ---------------------------------------------------------------- they depend on the multiset only

  lemma StatsUnordered(a: seq<real>, b: seq<real>)
    requires multiset(a) == multiset(b)
    ensures Avg(a) == Avg(b) && Variance(a) == Variance(b) && Loss(a) == Loss(b)
    ensures forall m :: IsMax(a, m) <==> IsMax(b, m)
    ensures forall m :: IsMin(a, m) <==> IsMin(b, m)
  {
    TotalUnordered(a, b, Positive);
    TotalUnordered(a, b, Value);
    TotalUnordered(a, b, Lost);
    TotalUnordered(a, b, Valid);
    TotalUnordered(a, b, Diff(Avg(a)));
    forall m ensures IsMax(a, m) <==> IsMax(b, m) {
      ExtremesUnordered(a, b, m);
      ExtremesUnordered(b, a, m);
    }
    forall m ensures IsMin(a, m) <==> IsMin(b, m) {
      ExtremesUnordered(a, b, m);
      ExtremesUnordered(b, a, m);
    }
  }

  lemma ExtremesUnordered(a: seq<real>, b: seq<real>, m: real)
    requires multiset(a) == multiset(b)
    ensures IsMax(a, m) ==> IsMax(b, m)
    ensures IsMin(a, m) ==> IsMin(b, m)
  {
    forall i | 0 <= i < |b| ensures exists j :: 0 <= j < |a| && a[j] == b[i] {
      assert b[i] in multiset(a);
    }
    if m in a { assert m in multiset(b); }
  }

  // ---------------------------------------------------------------- they are in range

  /** The number of terms chosen by an indicator: zero exactly when none is. */
  lemma {:induction false} IndicatorSum(data: seq<real>, g: real -> real)
    requires forall v: real :: g(v) == 0.0 || g(v) == 1.0
    ensures Total(data, g) == 0.0 || Total(data, g) >= 1.0
    ensures Total(data, g) == 0.0 <==> forall i :: 0 <= i < |data| ==> g(data[i]) == 0.0
  {
    if data != [] {
      var k := |data| - 1;
      IndicatorSum(data[..k], g);
      assert data == data[..k] + [data[k]];
    }
  }

  /** A sum of n values, each between the two bounds. */
  predicate Within(lo: real, hi: real, n: real, sum: real) {
    lo * n <= sum <= hi * n
  }

  lemma {:induction false} SumBetween(data: seq<real>, lo: real, hi: real)
    requires forall i :: 0 <= i < |data| && data[i] > 0.0 ==> lo <= data[i] <= hi
    ensures Within(lo, hi, Total(data, Positive), Total(data, Value))
  {
    if data == [] {
      assert Within(lo, hi, 0.0, 0.0);
    } else {
      var k := |data| - 1;
      SumBetween(data[..k], lo, hi);
      hide *;
      Unfold(data, Positive);
      Unfold(data, Value);
      OneMore(lo, hi, Total(data[..k], Positive), Total(data[..k], Value), data[k]);
    }
  }

  lemma OneMore(lo: real, hi: real, n: real, s: real, v: real)
    requires Within(lo, hi, n, s) && (v > 0.0 ==> lo <= v <= hi)
    ensures Within(lo, hi, n + Positive(v), s + Value(v))
  {
    Distribute(lo, n, Positive(v));
    Distribute(hi, n, Positive(v));
  }

  lemma {:induction false} SquaresNotNegative(data: seq<real>, a: real)
    ensures Total(data, Diff(a)) >= 0.0
  {
    if data != [] {
      var k := |data| - 1;
      SquaresNotNegative(data[..k], a);
      SquareSign(data[k] - a);
      hide Times;
    }
  }

  lemma {:induction false} LostAreValid(data: seq<real>)
    ensures 0.0 <= Total(data, Lost) <= Total(data, Valid)
  {
    if data != [] {
      LostAreValid(data[..|data| - 1]);
    }
  }

  lemma Quotient(sum: real, num: real, lo: real, hi: real)
    requires num > 0.0 && Within(lo, hi, num, sum)
    ensures lo <= sum / num <= hi
  {
    var q := sum / num;
    assert q * num == sum;
  }

  /** With a positive delay the average lies between the extremes and the variance is not negative. */
  lemma AvgBetween(data: seq<real>, lo: real, hi: real)
    requires SomePositive(data) && IsMin(data, lo) && IsMax(data, hi)
    ensures 0.0 < lo <= Avg(data) <= hi && Variance(data) >= 0.0
  {
    hide Total;
    IndicatorSum(data, Positive);
    SumBetween(data, lo, hi);
    Quotient(Total(data, Value), Total(data, Positive), lo, hi);
    SquaresNotNegative(data, Avg(data));
    NotNegative(Total(data, Diff(Avg(data))), Total(data, Positive));
  }

  lemma NotNegative(a: real, b: real)
    requires a >= 0.0 && b > 0.0
    ensures a / b >= 0.0
  {
  }

  /** Without a positive delay average and variance are -1, and only then. */
  lemma NoPositive(data: seq<real>)
    ensures SomePositive(data) <==> Avg(data) != INVALID
    ensures SomePositive(data) <==> Variance(data) != INVALID
  {
    hide Total;
    IndicatorSum(data, Positive);
    if i :| 0 <= i < |data| && data[i] > 0.0 {
      assert Positive(data[i]) == 1.0;
      PositiveSum(data);
      NotNegative(Total(data, Value), Total(data, Positive));
      SquaresNotNegative(data, Avg(data));
      NotNegative(Total(data, Diff(Avg(data))), Total(data, Positive));
    }
  }

  lemma {:induction false} PositiveSum(data: seq<real>)
    ensures Total(data, Value) >= 0.0
  {
    if data != [] { PositiveSum(data[..|data| - 1]); }
  }

  lemma {:induction false} LossCounts(data: seq<real>)
    ensures Total(data, Lost) == multiset(data)[-2.0] as real
    ensures Total(data, Valid) == (|data| - multiset(data)[-1.0]) as real
  {
    if data != [] {
      var k := |data| - 1;
      LossCounts(data[..k]);
      assert data == data[..k] + [data[k]];
      hide Total;
      Unfold(data, Lost);
      Unfold(data, Valid);
    }
  }

  /** The loss is the part of the values -2 among all values but -1, in per cent. */
  lemma LossIs(data: seq<real>)
    requires multiset(data)[-1.0] < |data|
    ensures Loss(data) == 100.0 * (multiset(data)[-2.0] as real / (|data| - multiset(data)[-1.0]) as real)
  {
    LossCounts(data);
    hide Total;
  }

  /** The loss is a percentage when some value is valid, and -1 otherwise. */
  lemma LossInRange(data: seq<real>)
    ensures (exists i :: 0 <= i < |data| && data[i] != INVALID) ==> 0.0 <= Loss(data) <= 100.0
    ensures (forall i :: 0 <= i < |data| ==> data[i] == INVALID) ==> Loss(data) == INVALID
  {
    hide Total;
    IndicatorSum(data, Valid);
    if i :| 0 <= i < |data| && data[i] != INVALID {
      assert Valid(data[i]) == 1.0;
      LostAreValid(data);
      Quotient(Total(data, Lost), Total(data, Valid), 0.0, 1.0);
    }
  }

  predicate Expands(a: real, d: real, q: real, s: real, n: real) {
    d == q - a * (2.0 * s) + a * a * n
  }

  /** The sum of squared differences from any point. */
  lemma {:induction false} SquaredDifferences(data: seq<real>, a: real)
    ensures Expands(a, Total(data, Diff(a)), Total(data, Square), Total(data, Value), Total(data, Positive))
  {
    if data == [] {
      assert Expands(a, 0.0, 0.0, 0.0, 0.0);
    } else {
      var k := |data| - 1;
      SquaredDifferences(data[..k], a);
      OneSquare(data[k], a);
      hide *;
      Unfold(data, Diff(a));
      Unfold(data, Square);
      Unfold(data, Value);
      Unfold(data, Positive);
      var p := data[..k];
      AddUp(a, Total(p, Diff(a)), Diff(a)(data[k]), Total(p, Square), Square(data[k]),
            Total(p, Value), Value(data[k]), Total(p, Positive), Positive(data[k]));
    }
  }

  lemma Unfold(data: seq<real>, g: real -> real)
    requires data != []
    ensures Total(data, g) == Total(data[..|data| - 1], g) + g(data[|data| - 1])
  {
  }

  lemma OneSquare(v: real, a: real)
    ensures Expands(a, Diff(a)(v), Square(v), Value(v), Positive(v))
  {
    if v > 0.0 {
      assert Times(v - a, v - a) == (v - a) * (v - a);
      assert (v - a) * (v - a) == v * v - a * (2.0 * v) + a * a;
    }
  }

  lemma AddUp(a: real, d: real, d1: real, q: real, q1: real, s: real, s1: real, n: real, n1: real)
    requires Expands(a, d, q, s, n) && Expands(a, d1, q1, s1, n1)
    ensures Expands(a, d + d1, q + q1, s + s1, n + n1)
  {
    Distribute(a, 2.0 * s, 2.0 * s1);
    Distribute(a * a, n, n1);
  }

  lemma Distribute(c: real, x: real, y: real)
    ensures c * (x + y) == c * x + c * y
  {
  }

  /** The variance is the mean of the squares less the square of the mean. */
  lemma VarianceIsMeanSquare(data: seq<real>)
    requires SomePositive(data)
    ensures Total(data, Positive) >= 1.0
    ensures Variance(data) == Total(data, Square) / Total(data, Positive) - Avg(data) * Avg(data)
  {
    hide Total;
    var num, avg := Total(data, Positive), Avg(data);
    IndicatorSum(data, Positive);
    SquaredDifferences(data, avg);
    MeanTimes(Total(data, Value), num);
    MeanSquare(Total(data, Square), Total(data, Value), avg, num);
  }

  lemma MeanTimes(sum: real, num: real)
    requires num > 0.0
    ensures (sum / num) * num == sum
  {
  }

  lemma MeanSquare(squares: real, sum: real, avg: real, num: real)
    requires num > 0.0 && avg * num == sum
    ensures (squares - avg * (2.0 * sum) + avg * avg * num) / num == squares / num - avg * avg
  {
    assert avg * (2.0 * sum) == 2.0 * (avg * sum);
    assert avg * avg * num == avg * sum;
    var d := squares - avg * avg * num;
    assert d == squares - avg * (2.0 * sum) + avg * avg * num;
    var q := squares / num;
    assert q * num == squares;
    assert (q - avg * avg) * num == d;
    QuotientIs(d, num, q - avg * avg);
  }

  lemma QuotientIs(d: real, num: real, q: real)
    requires num > 0.0 && q * num == d
    ensures d / num == q
  {
  }

  // ---------------------------------------------------------------- no root is taken

  /** The standard deviation for a variance. */
  predicate IsRoot(d: real, variance: real) {
    d >= 0.0 && d * d == variance
  }

  ghost predicate PositivesEqual(data: seq<real>, a: real) {
    forall i :: 0 <= i < |data| && data[i] > 0.0 ==> data[i] == a
  }

  lemma {:induction false} NoDifferences(data: seq<real>, a: real)
    ensures Total(data, Diff(a)) == 0.0 <==> PositivesEqual(data, a)
  {
    if data != [] {
      var k := |data| - 1;
      NoDifferences(data[..k], a);
      SquaresNotNegative(data[..k], a);
      Unfold(data, Diff(a));
      OneDifference(data[k], a);
      EqualLast(data, a);
      hide *;
    }
  }

  lemma OneDifference(v: real, a: real)
    ensures if v > 0.0 && v != a then Diff(a)(v) > 0.0 else Diff(a)(v) == 0.0
  {
    SquareSign(v - a);
    hide Times;
  }

  lemma EqualLast(data: seq<real>, a: real)
    requires data != []
    ensures var k := |data| - 1;
            PositivesEqual(data, a) <==> PositivesEqual(data[..k], a) && (data[k] > 0.0 ==> data[k] == a)
  {
    assert forall i :: 0 <= i < |data| - 1 ==> data[..|data| - 1][i] == data[i];
  }

  lemma SquareSign(x: real)
    ensures if x == 0.0 then Times(x, x) == 0.0 else Times(x, x) > 0.0
  {
    if x < 0.0 {
      Opposite(x, 0.0 - x);
      SameSign(0.0 - x, 0.0 - x);
    } else if x > 0.0 {
      SameSign(x, x);
    } else {
      NoFactor(x, x);
    }
  }

  lemma SameSign(x: real, y: real)
    requires x > 0.0 && y > 0.0
    ensures Times(x, y) > 0.0
  {
  }

  lemma Opposite(x: real, y: real)
    requires y == 0.0 - x
    ensures Times(x, x) == Times(y, y)
  {
  }

  lemma NoFactor(x: real, y: real)
    requires x == 0.0
    ensures Times(x, y) == 0.0
  {
  }

  /** The variance is zero exactly when all positive delays are equal. */
  lemma ZeroVariance(data: seq<real>)
    requires SomePositive(data)
    ensures Variance(data) == 0.0 <==>
            forall i, j :: 0 <= i < |data| && 0 <= j < |data| && data[i] > 0.0 && data[j] > 0.0 ==> data[i] == data[j]
  {
    hide Total;
    IndicatorSum(data, Positive);
    var num, avg := Total(data, Positive), Avg(data);
    NoDifferences(data, avg);
    ZeroQuotient(Total(data, Diff(avg)), num);
    var i :| 0 <= i < |data| && data[i] > 0.0;
    if PositivesEqual(data, data[i]) {
      SumBetween(data, data[i], data[i]);
      Quotient(Total(data, Value), num, data[i], data[i]);
    }
  }

  lemma ZeroQuotient(a: real, b: real)
    requires b > 0.0
    ensures a / b == 0.0 <==> a == 0.0
  {
  }

  /** What GetStDev returns is the standard deviation exactly when the variance is zero or one. */
  lemma StDevIffRoot(data: seq<real>)
    requires SomePositive(data)
    ensures IsRoot(Variance(data), Variance(data)) <==> Variance(data) == 0.0 || Variance(data) == 1.0
  {
    OwnSquare(Variance(data));
  }

  lemma OwnSquare(v: real)
    ensures v * v == v <==> v == 0.0 || v == 1.0
  {
    assert v * (v - 1.0) == v * v - v;
    ZeroProduct(v, v - 1.0);
  }

  lemma ZeroProduct(x: real, y: real)
    ensures x * y == 0.0 <==> x == 0.0 || y == 0.0
  {
  }

  /** For delays of 1 and 5 it is not: the result is 4 and the deviation 2. */
  lemma StDevIsNotRoot()
    ensures Variance([1.0, 5.0]) == 4.0 && IsRoot(2.0, 4.0) && !IsRoot(Variance([1.0, 5.0]), 4.0)
  {
    var data := [1.0, 5.0];
    TwoValues(1.0, 5.0, Positive);
    TwoValues(1.0, 5.0, Value);
    assert Avg(data) == 3.0;
    TwoValues(1.0, 5.0, Diff(3.0));
    assert Times(-2.0, -2.0) == 4.0 && Times(2.0, 2.0) == 4.0;
    assert Diff(3.0)(1.0) == 4.0 && Diff(3.0)(5.0) == 4.0;
  }

  lemma TwoValues(x: real, y: real, g: real -> real)
    ensures Total([x, y], g) == g(x) + g(y)
  {
    assert [x, y][..1] == [x] && [x][..0] == [];
    assert Total([x], g) == g(x);
  }

  // ---------------------------------------------------------------- the loops

  method CalculateAvg(data: seq<real>) returns (r: real)
    ensures r == Avg(data)
  {
    var sum, num := 0.0, 0.0;
    for i := 0 to |data|
      invariant sum == Total(data[..i], Value) && num == Total(data[..i], Positive)
    {
      assert data[..i + 1][..i] == data[..i];
      if data[i] > 0.0 {
        sum, num := sum + data[i], num + 1.0;
      }
    }
    assert data[..|data|] == data;
    if num == 0.0 { return INVALID; }
    r := sum / num;
  }

  method FindMax(data: seq<real>) returns (max: real)
    ensures IsMax(data, max)
  {
    max := INVALID;
    for i := 0 to |data|
      invariant IsMax(data[..i], max)
    {
      assert data[..i + 1] == data[..i] + [data[i]];
      if data[i] > 0.0 {
        if data[i] > max {
          max := data[i];
          assert data[i] in data[..i + 1];
        }
      }
    }
    assert data[..|data|] == data;
  }

  method FindMin(data: seq<real>) returns (min: real)
    ensures IsMin(data, min)
  {
    min := MAX_FLOAT;
    for i := 0 to |data|
      invariant IsMin(data[..i], min)
    {
      assert data[..i + 1] == data[..i] + [data[i]];
      if data[i] > 0.0 && data[i] < min {
        min := data[i];
        assert data[i] in data[..i + 1];
      }
    }
    assert data[..|data|] == data;
  }

  method CalculateStDev(data: seq<real>) returns (r: real)
    ensures r == Variance(data)
  {
    var avg := CalculateAvg(data);
    var sum, num := 0.0, 0.0;
    for i := 0 to |data|
      invariant sum == Total(data[..i], Diff(avg)) && num == Total(data[..i], Positive)
    {
      assert data[..i + 1][..i] == data[..i];
      if data[i] > 0.0 {
        var diff := data[i] - avg;
        assert diff * diff == Times(diff, diff) == Diff(avg)(data[i]);
        sum, num := sum + diff * diff, num + 1.0;
      }
    }
    assert data[..|data|] == data;
    if num == 0.0 { return INVALID; }
    r := sum / num;
  }

  method CalculateLoss(data: seq<real>) returns (r: real)
    ensures r == Loss(data)
  {
    var lossNum, validNum := 0.0, 0.0;
    for i := 0 to |data|
      invariant lossNum == Total(data[..i], Lost) && validNum == Total(data[..i], Valid)
    {
      assert data[..i + 1][..i] == data[..i];
      if data[i] != INVALID {
        if data[i] == LOSS { lossNum := lossNum + 1.0; }
        validNum := validNum + 1.0;
      }
    }
    assert data[..|data|] == data;
    if validNum == 0.0 { return INVALID; }
    r := lossNum / validNum * 100.0;
  }
}
