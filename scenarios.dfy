/** The concrete cases the repository's test driver checks, replayed against
    the contracts of the matrix container: each assertion below follows from
    the specifications alone. */
module Scenarios {
  import opened Errors
  import Grid
  import opened SquareMatrix

  /** A 2×2 grid gives size 2; Matrix(0) gives size 0. */
  method ConstructionAndSize() {
    assert Grid.IsSquare([[1, 2], [3, 4]]);
    var r := Matrix.FromRows([[1, 2], [3, 4]]);
    var n := r.value.GetSize();
    assert n == 2;
    var empty := new Matrix(0);
    n := empty.GetSize();
    assert n == 0;
    var v := empty.GetValue(0, 0);
    assert v == Err(OutOfRange);
    var ragged := [[1, 2], [3, 4, 5]];
    assert |ragged[1]| != |ragged|;
    var bad := Matrix.FromRows(ragged);
    assert bad == Err(InvalidArgument);
  }

  /** Reads inside the grid return the cells; (2, 2) is out of range. */
  method ElementAccess() {
    assert Grid.IsSquare([[1, 2], [3, 4]]);
    var r := Matrix.FromRows([[1, 2], [3, 4]]);
    var m := r.value;
    var v := m.GetValue(0, 0);
    assert v == Ok(1);
    v := m.GetValue(1, 1);
    assert v == Ok(4);
    v := m.GetValue(2, 2);
    assert v == Err(OutOfRange);
    var o := m.SetValue(1, 0, 7);
    assert o == Pass;
    v := m.GetValue(1, 0);
    assert v == Ok(7);
    v := m.GetValue(0, 1);
    assert v == Ok(2);
  }

  /** [[1,2],[3,4]] + [[4,3],[2,1]] is all fives; a 2×2 plus a 3×3 fails. */
  method Addition() {
    assert Grid.IsSquare([[1, 2], [3, 4]]) && Grid.IsSquare([[4, 3], [2, 1]]);
    var r1 := Matrix.FromRows([[1, 2], [3, 4]]);
    var r2 := Matrix.FromRows([[4, 3], [2, 1]]);
    var s := r1.value.Add(r2.value);
    assert s.value.Cells() == Grid.Add([[1, 2], [3, 4]], [[4, 3], [2, 1]]);
    var v := s.value.GetValue(0, 0);
    assert v == Ok(5);
    v := s.value.GetValue(0, 1);
    assert v == Ok(5);
    v := s.value.GetValue(1, 0);
    assert v == Ok(5);
    v := s.value.GetValue(1, 1);
    assert v == Ok(5);
    var three := new Matrix(3);
    var bad := r1.value.Add(three);
    assert bad == Err(InvalidArgument);
  }

  /** [[1,2],[3,4]] * [[5,6],[7,8]] == [[19,22],[43,50]]. */
  method Multiplication() {
    assert Grid.IsSquare([[1, 2], [3, 4]]) && Grid.IsSquare([[5, 6], [7, 8]]);
    var r1 := Matrix.FromRows([[1, 2], [3, 4]]);
    var r2 := Matrix.FromRows([[5, 6], [7, 8]]);
    var p := r1.value.Mul(r2.value);
    assert p.value.Cells() == Grid.Mul([[1, 2], [3, 4]], [[5, 6], [7, 8]]);
    var v := p.value.GetValue(0, 0);
    assert v == Ok(19);
    v := p.value.GetValue(0, 1);
    assert v == Ok(22);
    v := p.value.GetValue(1, 0);
    assert v == Ok(43);
    v := p.value.GetValue(1, 1);
    assert v == Ok(50);
  }

  /** Both diagonals of [[1,2,3],[4,5,6],[7,8,9]] sum to 15. */
  method DiagonalSums() {
    var g := [[1, 2, 3], [4, 5, 6], [7, 8, 9]];
    assert Grid.IsSquare(g);
    var r := Matrix.FromRows(g);
    var major := r.value.SumDiagonalMajor();
    assert major == 15;
    var minor := r.value.SumDiagonalMinor();
    assert minor == 15;
  }

  /** Rows 0 and 1, then columns 1 and 2, of [[1,2,3],[4,5,6],[7,8,9]];
      swapping with row 3 is out of range. */
  method Swapping() {
    var g := [[1, 2, 3], [4, 5, 6], [7, 8, 9]];
    assert Grid.IsSquare(g);
    var r := Matrix.FromRows(g);
    var m := r.value;
    var o := m.SwapRows(0, 1);
    var v := m.GetValue(0, 0);
    assert v == Ok(4);
    v := m.GetValue(1, 0);
    assert v == Ok(1);
    o := m.SwapCols(1, 2);
    v := m.GetValue(0, 1);
    assert v == Ok(6);
    v := m.GetValue(0, 2);
    assert v == Ok(5);
    o := m.SwapRows(0, 3);
    assert o == Fail(OutOfRange);
  }

  /** The tokens of "2 0\n1 2\n3 4\n5 6\n7 8\n" give [[1,2],[3,4]]. */
  method FileReading() {
    var tokens := [2, 0, 1, 2, 3, 4, 5, 6, 7, 8];
    var m := Matrix.ReadFromTokens(tokens);
    var n := m.GetSize();
    assert n == 2;
    var v := m.GetValue(0, 0);
    assert v == Ok(1);
    v := m.GetValue(1, 1);
    assert v == Ok(4);
  }
}
