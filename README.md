# Square matrix container, modelled in Dafny

This project models `Matrix<T>` from `matrix.hpp`, a generic N×N matrix
container, with `int` elements. A matrix has a fixed side length `N` and an
N×N grid of cells. The container offers:

- two constructors: zero-filled from a size, and a checked copy of a grid;
- bounds-checked `get_value` / `set_value`, and `get_size`;
- element-wise `+` and the triple-loop `*`;
- the two diagonal sums;
- in-place `swap_rows` and `swap_cols`;
- the token-reading loop of `read_from_file`.

Files:

- `errors.dfy` (module `Errors`): the two exception kinds the container
  throws, `InvalidArgument` (`std::invalid_argument`) and `OutOfRange`
  (`std::out_of_range`). `Result<T>` is for operations that return a value or
  throw. `Outcome` is for operations that return nothing or throw.
- `grid.dfy` (module `Grid`): the mathematical view of a matrix as a
  sequence of rows (`seq<seq<int>>`). It defines every operation as a
  function on that view (`Zero`, `Identity`, `SetCell`, `Add`, `Dot`/`Mul`,
  `MajorSum`/`MinorSum`, `SwapRows`/`SwapCols`, `Decode`). A writer for the
  text format, `Encode`, is added as the inverse of the reader. The module
  also holds the lemmas about these functions.
- `matrix.dfy` (module `SquareMatrix`): class `Matrix`. It has a `const N`
  and a `const data: array2<int>` whose cells the mutating methods write in
  place. `Cells()` is the abstract value of the object. Every method is
  proved against the `Grid` function for its operation. The loops are the
  source's loops: nested `for` loops for `+` and `*`, the running `sum` of
  `*` and of the diagonal sums, the per-row loop of `swap_cols`, and the
  nested `set_value` loop of the reader.
- `scenarios.dfy` (module `Scenarios`): the concrete cases asserted by the
  repository's test driver (`main.cpp`). They are replayed as methods whose
  `assert`s follow from the contracts alone. Examples: `[[1,2],[3,4]] +
  [[4,3],[2,1]]` is all fives, `[[1,2],[3,4]] * [[5,6],[7,8]] ==
  [[19,22],[43,50]]`, both diagonals of `[[1,2,3],[4,5,6],[7,8,9]]` sum to 15.

Error paths: every method that can throw returns `Err(kind)` / `Fail(kind)`
exactly when the source's guard fires, with the same kind. A failing
mutator leaves the cells unchanged. `+` and `*` have no `modifies` clause,
so neither operand can change. Their result is a freshly allocated matrix.

Reading a file: `read_from_file` throws `std::runtime_error` when the file
cannot be opened (matrix.hpp:121-123) and never checks the numeric parse
(matrix.hpp:127, 134). Neither path is modelled; see "Left out".

The code has no writer. `Grid.Encode` writes the reader's format (size,
flag, then the values row by row), so that the write-then-read round trip
can be stated as `Grid.DecodeEncode`.

## Model

| member | source | states |
|---|---|---|
| `SquareMatrix.Matrix.constructor` | matrix.hpp:18 | `Matrix(size)` has `N == size` and every cell 0 (`Cells() == Zero(size)`), also for size 0 |
| `SquareMatrix.Matrix.OfRows` | matrix.hpp:20 | the copy of a square grid has size `|nums|` and cells equal to `nums` |
| `SquareMatrix.Matrix.FromRows` | matrix.hpp:20-26 | `Matrix(nums)` fails, with InvalidArgument, iff some row's length differs from the number of rows; otherwise `N == |nums|` and `Cells() == nums`, so `get_value(i, j) == nums[i][j]` |
| `SquareMatrix.Matrix.GetValue` | matrix.hpp:67-72 | fails with OutOfRange iff `i >= N` or `j >= N` (so always when N = 0); otherwise returns cell (i, j) |
| `SquareMatrix.Matrix.SetValue` | matrix.hpp:60-65 | fails with OutOfRange iff `i >= N` or `j >= N`, and then the cells are unchanged; otherwise the new cells are the old ones with (i, j) set to n |
| `Grid.SetCellEffect` | matrix.hpp:64 | after a write, cell (i, j) holds the new value and every other cell is unchanged |
| `SquareMatrix.Matrix.GetSize` | matrix.hpp:74-76 | the size equals the number of rows and the number of columns of the cells |
| `SquareMatrix.Matrix.Add` | matrix.hpp:28-40 | fails with InvalidArgument iff the sizes differ; otherwise a fresh matrix of the same size whose cells are the element-wise sums |
| `Grid.AddCommutes` | matrix.hpp:28-40 | `a + b == b + a` |
| `Grid.AddAssociates` | matrix.hpp:28-40 | `(a + b) + c == a + (b + c)` |
| `Grid.AddZero` | matrix.hpp:18 | adding the zero matrix of the same size changes nothing |
| `SquareMatrix.Matrix.Mul` | matrix.hpp:42-58 | fails with InvalidArgument iff the sizes differ; otherwise a fresh matrix whose cell (i, j) is the sum over k < N of `a[i][k] * b[k][j]`, accumulated in k order from 0 (`Grid.Dot`) |
| `Grid.DotIdentityRight` | matrix.hpp:50-53 | the running sum against the identity after k steps is `a[i][j]` if `j < k`, else 0 |
| `Grid.DotIdentityLeft` | matrix.hpp:50-53 | the running sum of the identity times b after k steps is `b[i][j]` if `i < k`, else 0 |
| `Grid.MulIdentityRight` | matrix.hpp:42-58 | `a * I == a` for every size, including 0 |
| `Grid.MulIdentityLeft` | matrix.hpp:42-58 | `I * b == b` for every size, including 0 |
| `Grid.DotDistributes` | matrix.hpp:50-53 | each running sum is additive in the right operand |
| `Grid.MulDistributesOverAdd` | matrix.hpp:28-58 | `a * (b + c) == a * b + a * c` |
| `SquareMatrix.Matrix.SumDiagonalMajor` | matrix.hpp:78-84 | returns the sum of `data[i][i]` over i < N, seeded at 0 (0 for N = 0) |
| `SquareMatrix.Matrix.SumDiagonalMinor` | matrix.hpp:86-92 | returns the sum of `data[i][N-1-i]` over i < N, seeded at 0; for N = 0 no cell is read and the result is 0 |
| `Grid.MinorUpToIsMajorOfMirror` | matrix.hpp:86-92 | the minor running sum over the first k rows equals the major running sum of the left-right mirrored grid |
| `Grid.MinorSumIsMajorOfMirror` | matrix.hpp:78-92 | the minor diagonal sum is the major diagonal sum of the left-right mirrored grid |
| `Grid.MajorUpToAdds` | matrix.hpp:78-84 | the major running sum of `a + b` is the sum of those of a and b |
| `Grid.MinorUpToAdds` | matrix.hpp:86-92 | the minor running sum of `a + b` is the sum of those of a and b |
| `Grid.DiagonalSumsAdd` | matrix.hpp:78-92 | both diagonal sums of `a + b` are the sums of those of a and b |
| `Grid.MajorUpToIdentity` | matrix.hpp:78-84 | the major running sum of the identity over k rows is k |
| `Grid.MajorSumIdentity` | matrix.hpp:78-84 | the major diagonal of the n×n identity sums to n |
| `SquareMatrix.Matrix.SwapRows` | matrix.hpp:94-99 | fails with OutOfRange iff `r1 >= N` or `r2 >= N`, before any change; otherwise row i of the result is old row `Swapped(r1, r2, i)`: rows r1 and r2 exchanged, all others and the size kept |
| `Grid.SwapRowsInvolutive` | matrix.hpp:94-99 | swapping the same two rows twice restores the matrix |
| `Grid.SwapRowsPermutes` | matrix.hpp:94-99 | a row swap keeps the multiset of rows: it only reorders them |
| `SquareMatrix.Matrix.SwapCols` | matrix.hpp:101-108 | fails with OutOfRange iff `c1 >= N` or `c2 >= N`, before any change; otherwise in every row cells c1 and c2 are exchanged and all others kept |
| `Grid.SwapColsInvolutive` | matrix.hpp:101-108 | swapping the same two columns twice restores the matrix |
| `Grid.SwapSelf` | matrix.hpp:94-108 | swapping a row or a column with itself is a no-op |
| `Grid.SwapRowsColsCommute` | matrix.hpp:94-108 | a row swap and a column swap give the same matrix in either order |
| `SquareMatrix.Matrix.ReadFromTokens` | matrix.hpp:125-139 | from tokens `size, flag, v0, v1, ...` builds a matrix of size `size` with cell (i, j) equal to `v[i*size + j]` (`Grid.Decode`); every inner `set_value` succeeds |
| `Grid.RowMajorIndexInRange` | matrix.hpp:131-135 | arithmetic helper only: `i*size + j < size*size` for an in-range cell; it discharges the reader's index bound in `Decode` and `ReadFromTokens` |
| `Grid.FlattenLength` | matrix.hpp:125-139 | a grid of rows of length n writes `rows * n` value tokens |
| `Grid.FlattenAt` | matrix.hpp:125-139 | value token `i*n + j` of the written form is cell (i, j) |
| `Grid.DecodeEncode` | matrix.hpp:125-139 | reading back the written form of any square grid gives that grid, whatever the type flag and whatever tokens follow |
| `Grid.DecodeUsesOnlyValues` | matrix.hpp:125-139 | two token sequences with the same size and the same first size*size values read to the same grid: the flag and trailing tokens have no effect |

## Left out

- `print_matrix` (matrix.hpp:110-117): console output only; it does not change the matrix.
- Opening the file in `read_from_file` (matrix.hpp:120-123), and the `std::runtime_error` when it cannot be opened: this is I/O. The model starts from the file's whitespace-separated tokens as a `seq<int>`.
- `SquareMatrix.Matrix.ReadFromTokens`: requires a well-formed token sequence: a non-negative size and at least `2 + size*size` tokens. What `file >> x` does on malformed or short input is iostream behaviour that is not part of this model.
- Element types other than `int` (the test driver's `Matrix<double>`): floating-point arithmetic is not modelled. The element type is fixed to `int`, so `+`, `*` and the zero seed are mathematical.
- Fixed-width overflow: cells, sums and products are unbounded integers. `std::size_t` sizes and indices are `nat`, so the `N - 1 - i` wrap-around at N = 0 never arises: that index is never computed then, in the source or in the model.
- `SquareMatrix.Matrix.SwapRows`: `std::swap` of two row vectors exchanges their buffers in one step. The rows here live in one `array2`, so the model exchanges them cell by cell across the row. The resulting state is the same.
- `SquareMatrix.Matrix.FromRows`: the C++ constructor copies the grid and then checks it. The model checks first and copies only a square grid. When the check fails, the exception discards the half-built object, so the order cannot be observed.
- Value semantics of C++ objects (copy construction and assignment of `Matrix`): the model never aliases two matrices. `+` and `*` return freshly allocated objects.
- The test driver `main.cpp` as a program (printing PASSED/FAILED, the temporary file): its asserted values are replayed in `scenarios.dfy`.
