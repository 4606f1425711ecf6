/** The square-matrix container: a fixed size N and an N×N grid of cells that
    some operations update in place. Thrown exceptions are modelled as
    `Errors.Result` / `Errors.Outcome` values; every guard runs before any
    cell is written. */
module SquareMatrix {
  import opened Errors
  import Grid

  class Matrix {
    /** The side length; fixed for the object's lifetime. */
    const N: nat
    /** The cells, row-major: data[i, j] is row i, column j. */
    const data: array2<int>

    /** The grid is N×N. */
    ghost predicate Valid() {
      data.Length0 == N && data.Length1 == N
    }

    /** The current cells as a sequence of rows. */
    ghost function Cells(): (g: Grid.Rows)
      requires Valid()
      reads data
      ensures Grid.IsSquare(g) && |g| == N
      ensures forall i, j :: 0 <= i < N && 0 <= j < N ==> g[i][j] == data[i, j]
    {
      seq(N, i requires 0 <= i < N reads data =>
        seq(N, j requires 0 <= j < N reads data => data[i, j]))
    }

    /** `Matrix(size)`: a size×size matrix of zeros; size 0 is allowed. */
    constructor (size: nat)
      ensures Valid() && fresh(data)
      ensures N == size && Cells() == Grid.Zero(size)
    {
      N := size;
      data := new int[size, size]((i, j) => 0);
      new;
      Grid.Ext(Cells(), Grid.Zero(size));
    }

    /** The copy of a grid already known to be square. */
    constructor OfRows(nums: Grid.Rows)
      requires Grid.IsSquare(nums)
      ensures Valid() && fresh(data)
      ensures N == |nums| && Cells() == nums
    {
      N := |nums|;
      data := new int[|nums|, |nums|]((i, j) requires 0 <= i < |nums| && 0 <= j < |nums| => nums[i][j]);
      new;
      Grid.Ext(Cells(), nums);
    }

    /** `Matrix(nums)`: size |nums| and a copy of nums, or InvalidArgument
        when some row's length differs from the number of rows. */
    static method FromRows(nums: Grid.Rows) returns (r: Result<Matrix>)
      ensures r.Err? <==> !Grid.IsSquare(nums)
      ensures r.Err? ==> r.error == InvalidArgument
      ensures r.Ok? ==> fresh(r.value) && fresh(r.value.data) && r.value.Valid()
      ensures r.Ok? ==> r.value.N == |nums| && r.value.Cells() == nums
    {
      for k := 0 to |nums|
        invariant forall i :: 0 <= i < k ==> |nums[i]| == |nums|
      {
        if |nums[k]| != |nums| {
          return Err(InvalidArgument);
        }
      }
      var m := new Matrix.OfRows(nums);
      return Ok(m);
    }

    /** `get_value(i, j)`: the cell, or OutOfRange when i or j is not below N. */
    method GetValue(i: nat, j: nat) returns (r: Result<int>)
      requires Valid()
      ensures r.Err? <==> i >= N || j >= N
      ensures r.Err? ==> r.error == OutOfRange
      ensures r.Ok? ==> r.value == Cells()[i][j]
    {
      if i >= N || j >= N {
        return Err(OutOfRange);
      }
      return Ok(data[i, j]);
    }

    /** `set_value(i, j, n)`: overwrites one cell, or fails with OutOfRange
        and changes nothing. */
    method SetValue(i: nat, j: nat, n: int) returns (o: Outcome)
      requires Valid()
      modifies data
      ensures o.Fail? <==> i >= N || j >= N
      ensures o.Fail? ==> o.error == OutOfRange && Cells() == old(Cells())
      ensures o.Pass? ==> Cells() == Grid.SetCell(old(Cells()), i, j, n)
    {
      if i >= N || j >= N {
        return Fail(OutOfRange);
      }
      data[i, j] := n;
      Grid.Ext(Cells(), Grid.SetCell(old(Cells()), i, j, n));
      return Pass;
    }

    /** `get_size()`: the number of rows (and of columns). */
    method GetSize() returns (n: nat)
      requires Valid()
      ensures n == |Cells()| && (n > 0 ==> n == |Cells()[0]|)
    {
      return N;
    }

    /** `operator+`: the element-wise sum in a new matrix, or InvalidArgument
        when the sizes differ. Neither operand is modified. */
    method Add(rhs: Matrix) returns (r: Result<Matrix>)
      requires Valid() && rhs.Valid()
      ensures r.Err? <==> N != rhs.N
      ensures r.Err? ==> r.error == InvalidArgument
      ensures r.Ok? ==> fresh(r.value) && fresh(r.value.data) && r.value.Valid()
      ensures r.Ok? ==> r.value.N == N && r.value.Cells() == Grid.Add(Cells(), rhs.Cells())
    {
      if N != rhs.N {
        return Err(InvalidArgument);
      }
      var result := new Matrix(N);
      for i := 0 to N
        invariant forall p, q :: 0 <= p < i && 0 <= q < N ==>
          result.data[p, q] == data[p, q] + rhs.data[p, q]
      {
        for j := 0 to N
          invariant forall p, q :: 0 <= p < i && 0 <= q < N ==>
            result.data[p, q] == data[p, q] + rhs.data[p, q]
          invariant forall q :: 0 <= q < j ==> result.data[i, q] == data[i, q] + rhs.data[i, q]
        {
          result.data[i, j] := data[i, j] + rhs.data[i, j];
        }
      }
      Grid.Ext(result.Cells(), Grid.Add(Cells(), rhs.Cells()));
      return Ok(result);
    }

    /** `operator*`: the matrix product in a new matrix, each cell a running
        sum seeded with 0, or InvalidArgument when the sizes differ. Neither
        operand is modified. */
    method Mul(rhs: Matrix) returns (r: Result<Matrix>)
      requires Valid() && rhs.Valid()
      ensures r.Err? <==> N != rhs.N
      ensures r.Err? ==> r.error == InvalidArgument
      ensures r.Ok? ==> fresh(r.value) && fresh(r.value.data) && r.value.Valid()
      ensures r.Ok? ==> r.value.N == N && r.value.Cells() == Grid.Mul(Cells(), rhs.Cells())
    {
      if N != rhs.N {
        return Err(InvalidArgument);
      }
      ghost var a, b := Cells(), rhs.Cells();
      var result := new Matrix(N);
      for i := 0 to N
        invariant a == Cells() && b == rhs.Cells()
        invariant forall p, q :: 0 <= p < i && 0 <= q < N ==>
          result.data[p, q] == Grid.Dot(a, b, p, q, N)
      {
        for j := 0 to N
          invariant a == Cells() && b == rhs.Cells()
          invariant forall p, q :: 0 <= p < i && 0 <= q < N ==>
            result.data[p, q] == Grid.Dot(a, b, p, q, N)
          invariant forall q :: 0 <= q < j ==> result.data[i, q] == Grid.Dot(a, b, i, q, N)
        {
          var sum := 0;
          for k := 0 to N
            invariant sum == Grid.Dot(a, b, i, j, k)
          {
            sum := sum + data[i, k] * rhs.data[k, j];
          }
          result.data[i, j] := sum;
        }
      }
      Grid.Ext(result.Cells(), Grid.Mul(a, b));
      return Ok(result);
    }

    /** `sum_diagonal_major()`: the sum of data[i][i] over i < N; 0 when N is 0. */
    method SumDiagonalMajor() returns (sum: int)
      requires Valid()
      ensures sum == Grid.MajorSum(Cells())
    {
      sum := 0;
      for i := 0 to N
        invariant sum == Grid.MajorUpTo(Cells(), i)
      {
        sum := sum + data[i, i];
      }
    }

    /** `sum_diagonal_minor()`: the sum of data[i][N-1-i] over i < N; 0 when N
        is 0, in which case no cell is read. */
    method SumDiagonalMinor() returns (sum: int)
      requires Valid()
      ensures sum == Grid.MinorSum(Cells())
    {
      sum := 0;
      for i := 0 to N
        invariant sum == Grid.MinorUpTo(Cells(), i)
      {
        sum := sum + data[i, N - 1 - i];
      }
    }

    /** `swap_rows(r1, r2)`: exchanges two rows, or fails with OutOfRange
        before anything changes. */
    method SwapRows(r1: nat, r2: nat) returns (o: Outcome)
      requires Valid()
      modifies data
      ensures o.Fail? <==> r1 >= N || r2 >= N
      ensures o.Fail? ==> o.error == OutOfRange && Cells() == old(Cells())
      ensures o.Pass? ==> Cells() == Grid.SwapRows(old(Cells()), r1, r2)
    {
      if r1 >= N || r2 >= N {
        return Fail(OutOfRange);
      }
      for j := 0 to N
        invariant forall p, q :: 0 <= p < N && 0 <= q < N ==>
          data[p, q] == if q < j then old(data[Grid.Swapped(r1, r2, p), q]) else old(data[p, q])
      {
        var t := data[r1, j];
        data[r1, j] := data[r2, j];
        data[r2, j] := t;
      }
      Grid.Ext(Cells(), Grid.SwapRows(old(Cells()), r1, r2));
      return Pass;
    }

    /** `swap_cols(c1, c2)`: exchanges two columns, one row at a time, or fails
        with OutOfRange before anything changes. */
    method SwapCols(c1: nat, c2: nat) returns (o: Outcome)
      requires Valid()
      modifies data
      ensures o.Fail? <==> c1 >= N || c2 >= N
      ensures o.Fail? ==> o.error == OutOfRange && Cells() == old(Cells())
      ensures o.Pass? ==> Cells() == Grid.SwapCols(old(Cells()), c1, c2)
    {
      if c1 >= N || c2 >= N {
        return Fail(OutOfRange);
      }
      for i := 0 to N
        invariant forall p, q :: 0 <= p < N && 0 <= q < N ==>
          data[p, q] == if p < i then old(data[p, Grid.Swapped(c1, c2, q)]) else old(data[p, q])
      {
        var t := data[i, c1];
        data[i, c1] := data[i, c2];
        data[i, c2] := t;
      }
      Grid.Ext(Cells(), Grid.SwapCols(old(Cells()), c1, c2));
      return Pass;
    }

    /** The parsing loop of `read_from_file`, over the file's tokens: a size,
        a type flag that is read and ignored, then size * size values stored
        row by row through `set_value`; later tokens are not read. */
    static method ReadFromTokens(tokens: seq<int>) returns (m: Matrix)
      requires Grid.WellFormed(tokens)
      ensures fresh(m) && fresh(m.data) && m.Valid()
      ensures m.N == tokens[0] && m.Cells() == Grid.Decode(tokens)
    {
      var size: nat := tokens[0];
      ghost var g := Grid.Decode(tokens);
      var pos := 2;
      m := new Matrix(size);
      for i := 0 to size
        invariant fresh(m.data) && m.Valid() && m.N == size
        invariant pos == 2 + i * size
        invariant forall p, q :: 0 <= p < i && 0 <= q < size ==> m.data[p, q] == g[p][q]
      {
        for j := 0 to size
          invariant fresh(m.data) && m.Valid() && m.N == size
          invariant pos == 2 + i * size + j
          invariant forall p, q :: 0 <= p < i && 0 <= q < size ==> m.data[p, q] == g[p][q]
          invariant forall q :: 0 <= q < j ==> m.data[i, q] == g[i][q]
        {
          Grid.RowMajorIndexInRange(i, j, size);
          var val := tokens[pos];
          assert val == g[i][j];
          pos := pos + 1;
          var o := m.SetValue(i, j, val);
          assert o.Pass?;
        }
        assert pos == 2 + (i + 1) * size;
      }
      Grid.Ext(m.Cells(), Grid.Decode(tokens));
    }
  }
}
