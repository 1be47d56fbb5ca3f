/** compute_squares.py: squaring [1..10] by a comprehension and by a pool map. */
module ComputeSquares {

  import Python
  import Pool

  /** `square_integer(x)`, that is `x**2`. */
  function SquareInteger(x: int): (y: int)
    ensures y == x * x
    ensures y >= 0
  {
    Python.PowTwo(x);
    Python.Pow(x, 2)
  }

  /** `integer_list = list(range(1, 11))`: the integers 1 to 10. */
  function IntegerList(): (xs: seq<int>)
    ensures xs == [1, 2, 3, 4, 5, 6, 7, 8, 9, 10]
  {
    var xs := Python.Range(1, 11);
    assert |xs| == 10;
    assert forall i :: 0 <= i < 10 ==> xs[i] == i + 1;
    xs
  }

  /**
   * `[x**2 for x in xs]`, with the power written inline as the script does:
   * the input's length, and element i the square of input i.
   */
  function SquareList(xs: seq<int>): (ys: seq<int>)
    ensures |ys| == |xs|
    ensures forall i :: 0 <= i < |xs| ==> ys[i] == xs[i] * xs[i] >= 0
  {
    var ys := seq(|xs|, i requires 0 <= i < |xs| => Python.Pow(xs[i], 2));
    assert forall i :: 0 <= i < |xs| ==> ys[i] == xs[i] * xs[i] >= 0 by {
      forall i | 0 <= i < |xs|
        ensures ys[i] == xs[i] * xs[i] >= 0
      {
        Python.PowTwo(xs[i]);
      }
    }
    ys
  }

  /**
   * `p.map(square_integer, xs)`: one result per input in input order, equal
   * element for element to the comprehension.
   */
  function PooledSquareList(xs: seq<int>): (ys: seq<int>)
    ensures |ys| == |xs|
    ensures forall i :: 0 <= i < |xs| ==> ys[i] == SquareInteger(xs[i])
    ensures ys == SquareList(xs)
  {
    Pool.Map(SquareInteger, xs)
  }

  /** The comprehension over the literal list 1..10. */
  lemma SquaresOfLiteralOneToTen()
    ensures SquareList([1, 2, 3, 4, 5, 6, 7, 8, 9, 10]) == [1, 4, 9, 16, 25, 36, 49, 64, 81, 100]
  {
    var ys := SquareList([1, 2, 3, 4, 5, 6, 7, 8, 9, 10]);
    assert ys[0] == 1 && ys[1] == 4 && ys[2] == 9 && ys[3] == 16 && ys[4] == 25;
    assert ys[5] == 36 && ys[6] == 49 && ys[7] == 64 && ys[8] == 81 && ys[9] == 100;
  }

  /** Both ways of squaring [1..10] give the first ten squares. */
  lemma SquaresOfOneToTen()
    ensures SquareList(IntegerList()) == [1, 4, 9, 16, 25, 36, 49, 64, 81, 100]
    ensures PooledSquareList(IntegerList()) == [1, 4, 9, 16, 25, 36, 49, 64, 81, 100]
  {
    SquaresOfLiteralOneToTen();
  }
}
