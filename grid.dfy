/** The mathematical view of an N×N matrix as a sequence of rows, and the
    container's operations stated as functions on that view. The class in
    matrix.dfy is proved against these definitions. */
module Grid {

  type Rows = seq<seq<int>>

  /** Every row has exactly as many elements as there are rows. */
  predicate IsSquare(g: Rows) {
    forall i :: 0 <= i < |g| ==> |g[i]| == |g|
  }

  /** Both grids are square and of one size. */
  predicate SameShape(a: Rows, b: Rows) {
    IsSquare(a) && IsSquare(b) && |a| == |b|
  }

  /** Two square grids of one size that agree cell by cell are equal. */
  lemma Ext(a: Rows, b: Rows)
    requires SameShape(a, b)
    requires forall i, j :: 0 <= i < |a| && 0 <= j < |a| ==> a[i][j] == b[i][j]
    ensures a == b
  {
    forall i | 0 <= i < |a|
      ensures a[i] == b[i]
    {
      assert forall j :: 0 <= j < |a| ==> a[i][j] == b[i][j];
    }
  }

  // ---------------------------------------------------------------- construction

  /** The n×n grid of zeros (a freshly sized matrix). */
  function Zero(n: nat): (z: Rows)
    ensures IsSquare(z) && |z| == n
  {
    seq(n, i => seq(n, j => 0))
  }

  /** The n×n identity: ones on the major diagonal, zeros elsewhere. */
  function Identity(n: nat): (e: Rows)
    ensures IsSquare(e) && |e| == n
  {
    seq(n, i => seq(n, j => if i == j then 1 else 0))
  }

  /** The grid with cell (i, j) overwritten by v. */
  function SetCell(g: Rows, i: nat, j: nat, v: int): (r: Rows)
    requires IsSquare(g) && i < |g| && j < |g|
    ensures IsSquare(r) && |r| == |g|
  {
    g[i := g[i][j := v]]
  }

  /** After a write, the written cell holds the new value and every other cell is as before. */
  lemma SetCellEffect(g: Rows, i: nat, j: nat, v: int)
    requires IsSquare(g) && i < |g| && j < |g|
    ensures SetCell(g, i, j, v)[i][j] == v
    ensures forall p, q :: 0 <= p < |g| && 0 <= q < |g| && (p, q) != (i, j) ==>
      SetCell(g, i, j, v)[p][q] == g[p][q]
  {
  }

  // ---------------------------------------------------------------- addition

  /** Element-wise sum. */
  function Add(a: Rows, b: Rows): (r: Rows)
    requires SameShape(a, b)
    ensures SameShape(r, a)
  {
    seq(|a|, i requires 0 <= i < |a| =>
      seq(|a|, j requires 0 <= j < |a| => a[i][j] + b[i][j]))
  }

  lemma AddCommutes(a: Rows, b: Rows)
    requires SameShape(a, b)
    ensures Add(a, b) == Add(b, a)
  {
    Ext(Add(a, b), Add(b, a));
  }

  lemma AddAssociates(a: Rows, b: Rows, c: Rows)
    requires SameShape(a, b) && SameShape(b, c)
    ensures Add(Add(a, b), c) == Add(a, Add(b, c))
  {
    Ext(Add(Add(a, b), c), Add(a, Add(b, c)));
  }

  lemma AddZero(a: Rows)
    requires IsSquare(a)
    ensures Add(a, Zero(|a|)) == a
  {
    Ext(Add(a, Zero(|a|)), a);
  }

  // ---------------------------------------------------------------- multiplication

  /** The running sum of the innermost multiplication loop after k steps:
      a[i][0]*b[0][j] + ... + a[i][k-1]*b[k-1][j], seeded with 0. */
  function Dot(a: Rows, b: Rows, i: nat, j: nat, k: nat): (s: int)
    requires SameShape(a, b) && i < |a| && j < |a| && k <= |a|
  {
    if k == 0 then 0 else Dot(a, b, i, j, k - 1) + a[i][k - 1] * b[k - 1][j]
  }

  /** The matrix product: cell (i, j) is the full sum over k < N. */
  function Mul(a: Rows, b: Rows): (r: Rows)
    requires SameShape(a, b)
    ensures SameShape(r, a)
  {
    seq(|a|, i requires 0 <= i < |a| =>
      seq(|a|, j requires 0 <= j < |a| => Dot(a, b, i, j, |a|)))
  }

  lemma {:induction false} DotIdentityRight(a: Rows, i: nat, j: nat, k: nat)
    requires IsSquare(a) && i < |a| && j < |a| && k <= |a|
    ensures Dot(a, Identity(|a|), i, j, k) == if j < k then a[i][j] else 0
  {
    if k > 0 {
      DotIdentityRight(a, i, j, k - 1);
    }
  }

  lemma {:induction false} DotIdentityLeft(b: Rows, i: nat, j: nat, k: nat)
    requires IsSquare(b) && i < |b| && j < |b| && k <= |b|
    ensures Dot(Identity(|b|), b, i, j, k) == if i < k then b[i][j] else 0
  {
    if k > 0 {
      DotIdentityLeft(b, i, j, k - 1);
    }
  }

  /** a * I == a, for every size including 0. */
  lemma MulIdentityRight(a: Rows)
    requires IsSquare(a)
    ensures Mul(a, Identity(|a|)) == a
  {
    forall i, j | 0 <= i < |a| && 0 <= j < |a|
      ensures Mul(a, Identity(|a|))[i][j] == a[i][j]
    {
      DotIdentityRight(a, i, j, |a|);
    }
    Ext(Mul(a, Identity(|a|)), a);
  }

  /** I * b == b, for every size including 0. */
  lemma MulIdentityLeft(b: Rows)
    requires IsSquare(b)
    ensures Mul(Identity(|b|), b) == b
  {
    forall i, j | 0 <= i < |b| && 0 <= j < |b|
      ensures Mul(Identity(|b|), b)[i][j] == b[i][j]
    {
      DotIdentityLeft(b, i, j, |b|);
    }
    Ext(Mul(Identity(|b|), b), b);
  }

  lemma {:induction false} DotDistributes(a: Rows, b: Rows, c: Rows, i: nat, j: nat, k: nat)
    requires SameShape(a, b) && SameShape(b, c) && i < |a| && j < |a| && k <= |a|
    ensures Dot(a, Add(b, c), i, j, k) == Dot(a, b, i, j, k) + Dot(a, c, i, j, k)
  {
    if k > 0 {
      DotDistributes(a, b, c, i, j, k - 1);
      assert a[i][k - 1] * (b[k - 1][j] + c[k - 1][j])
          == a[i][k - 1] * b[k - 1][j] + a[i][k - 1] * c[k - 1][j];
    }
  }

  /** a * (b + c) == a * b + a * c. */
  lemma MulDistributesOverAdd(a: Rows, b: Rows, c: Rows)
    requires SameShape(a, b) && SameShape(b, c)
    ensures Mul(a, Add(b, c)) == Add(Mul(a, b), Mul(a, c))
  {
    forall i, j | 0 <= i < |a| && 0 <= j < |a|
      ensures Mul(a, Add(b, c))[i][j] == Add(Mul(a, b), Mul(a, c))[i][j]
    {
      DotDistributes(a, b, c, i, j, |a|);
    }
    Ext(Mul(a, Add(b, c)), Add(Mul(a, b), Mul(a, c)));
  }

  // ---------------------------------------------------------------- diagonal sums

  /** g[0][0] + ... + g[k-1][k-1], seeded with 0. */
  function MajorUpTo(g: Rows, k: nat): (s: int)
    requires IsSquare(g) && k <= |g|
  {
    if k == 0 then 0 else MajorUpTo(g, k - 1) + g[k - 1][k - 1]
  }

  /** g[0][N-1] + g[1][N-2] + ... over the first k rows, seeded with 0. */
  function MinorUpTo(g: Rows, k: nat): (s: int)
    requires IsSquare(g) && k <= |g|
  {
    if k == 0 then 0 else MinorUpTo(g, k - 1) + g[k - 1][|g| - k]
  }

  /** The sum of the cells whose column index equals the row index. */
  function MajorSum(g: Rows): (s: int)
    requires IsSquare(g)
  {
    MajorUpTo(g, |g|)
  }

  /** The sum of the cells whose column index equals N - 1 - the row index. */
  function MinorSum(g: Rows): (s: int)
    requires IsSquare(g)
  {
    MinorUpTo(g, |g|)
  }

  /** The grid with each row reversed (column j becomes column N - 1 - j). */
  function MirrorColumns(g: Rows): (r: Rows)
    requires IsSquare(g)
    ensures IsSquare(r) && |r| == |g|
  {
    seq(|g|, i requires 0 <= i < |g| =>
      seq(|g|, j requires 0 <= j < |g| => g[i][|g| - 1 - j]))
  }

  lemma {:induction false} MinorUpToIsMajorOfMirror(g: Rows, k: nat)
    requires IsSquare(g) && k <= |g|
    ensures MinorUpTo(g, k) == MajorUpTo(MirrorColumns(g), k)
  {
    if k > 0 {
      MinorUpToIsMajorOfMirror(g, k - 1);
    }
  }

  /** The minor diagonal is the major diagonal of the left-right mirror. */
  lemma MinorSumIsMajorOfMirror(g: Rows)
    requires IsSquare(g)
    ensures MinorSum(g) == MajorSum(MirrorColumns(g))
  {
    MinorUpToIsMajorOfMirror(g, |g|);
  }

  lemma {:induction false} MajorUpToAdds(a: Rows, b: Rows, k: nat)
    requires SameShape(a, b) && k <= |a|
    ensures MajorUpTo(Add(a, b), k) == MajorUpTo(a, k) + MajorUpTo(b, k)
  {
    if k > 0 {
      MajorUpToAdds(a, b, k - 1);
    }
  }

  lemma {:induction false} MinorUpToAdds(a: Rows, b: Rows, k: nat)
    requires SameShape(a, b) && k <= |a|
    ensures MinorUpTo(Add(a, b), k) == MinorUpTo(a, k) + MinorUpTo(b, k)
  {
    if k > 0 {
      MinorUpToAdds(a, b, k - 1);
    }
  }

  /** Both diagonal sums are additive: the sum of a + b is the sum of a plus that of b. */
  lemma DiagonalSumsAdd(a: Rows, b: Rows)
    requires SameShape(a, b)
    ensures MajorSum(Add(a, b)) == MajorSum(a) + MajorSum(b)
    ensures MinorSum(Add(a, b)) == MinorSum(a) + MinorSum(b)
  {
    MajorUpToAdds(a, b, |a|);
    MinorUpToAdds(a, b, |a|);
  }

  lemma {:induction false} MajorUpToIdentity(n: nat, k: nat)
    requires k <= n
    ensures MajorUpTo(Identity(n), k) == k
  {
    if k > 0 {
      MajorUpToIdentity(n, k - 1);
    }
  }

  /** The major diagonal of the n×n identity sums to n. */
  lemma MajorSumIdentity(n: nat)
    ensures MajorSum(Identity(n)) == n
  {
    MajorUpToIdentity(n, n);
  }

  // ---------------------------------------------------------------- swaps

  /** The transposition of p and q applied to an index. */
  function Swapped(p: nat, q: nat, x: nat): (y: nat)
    ensures y == p || y == q || y == x
  {
    if x == p then q else if x == q then p else x
  }

  /** Rows r1 and r2 exchanged; row i of the result is row Swapped(r1, r2, i) of g. */
  function SwapRows(g: Rows, r1: nat, r2: nat): (r: Rows)
    requires IsSquare(g) && r1 < |g| && r2 < |g|
    ensures IsSquare(r) && |r| == |g|
  {
    seq(|g|, i requires 0 <= i < |g| => g[Swapped(r1, r2, i)])
  }

  /** Columns c1 and c2 exchanged in every row. */
  function SwapCols(g: Rows, c1: nat, c2: nat): (r: Rows)
    requires IsSquare(g) && c1 < |g| && c2 < |g|
    ensures IsSquare(r) && |r| == |g|
  {
    seq(|g|, i requires 0 <= i < |g| =>
      seq(|g|, j requires 0 <= j < |g| => g[i][Swapped(c1, c2, j)]))
  }

  /** Swapping rows r1 and r2 twice restores the grid. */
  lemma SwapRowsInvolutive(g: Rows, r1: nat, r2: nat)
    requires IsSquare(g) && r1 < |g| && r2 < |g|
    ensures SwapRows(SwapRows(g, r1, r2), r1, r2) == g
  {
  }

  /** Swapping columns c1 and c2 twice restores the grid. */
  lemma SwapColsInvolutive(g: Rows, c1: nat, c2: nat)
    requires IsSquare(g) && c1 < |g| && c2 < |g|
    ensures SwapCols(SwapCols(g, c1, c2), c1, c2) == g
  {
    Ext(SwapCols(SwapCols(g, c1, c2), c1, c2), g);
  }

  /** Swapping a row, or a column, with itself changes nothing. */
  lemma SwapSelf(g: Rows, r: nat)
    requires IsSquare(g) && r < |g|
    ensures SwapRows(g, r, r) == g
    ensures SwapCols(g, r, r) == g
  {
    Ext(SwapRows(g, r, r), g);
    Ext(SwapCols(g, r, r), g);
  }

  /** A row swap and a column swap can be done in either order. */
  lemma SwapRowsColsCommute(g: Rows, r1: nat, r2: nat, c1: nat, c2: nat)
    requires IsSquare(g) && r1 < |g| && r2 < |g| && c1 < |g| && c2 < |g|
    ensures SwapCols(SwapRows(g, r1, r2), c1, c2) == SwapRows(SwapCols(g, c1, c2), r1, r2)
  {
  }

  /** A row swap only reorders the rows: the multiset of rows is kept. */
  lemma SwapRowsPermutes(g: Rows, r1: nat, r2: nat)
    requires IsSquare(g) && r1 < |g| && r2 < |g|
    ensures multiset(SwapRows(g, r1, r2)) == multiset(g)
  {
    var s := g[r1 := g[r2]][r2 := g[r1]];
    assert SwapRows(g, r1, r2) == s;
    var t := g[r1 := g[r2]];
    assert multiset(t) == multiset(g) - multiset{g[r1]} + multiset{g[r2]};
    assert multiset(s) == multiset(t) - multiset{t[r2]} + multiset{g[r1]};
  }

  // ---------------------------------------------------------------- text format

  /** The row-major position of an in-range cell (i, j) lies below n * n. */
  lemma RowMajorIndexInRange(i: nat, j: nat, n: nat)
    requires i < n && j < n
    ensures i * n + j < n * n
  {
    assert i * n + j < i * n + n == (i + 1) * n <= n * n;
  }

  /** A token sequence the reader can consume completely: a size, a type
      flag, and at least size * size values. */
  predicate WellFormed(t: seq<int>) {
    |t| >= 2 && t[0] >= 0 && |t| >= 2 + t[0] * t[0]
  }

  /** The grid the reader builds: cell (i, j) is the value token at
      row-major position i * size + j, after the size and the flag. */
  function Decode(t: seq<int>): (g: Rows)
    requires WellFormed(t)
    ensures IsSquare(g) && |g| == t[0]
  {
    var n := t[0];
    seq(n, i requires 0 <= i < n =>
      seq(n, j requires 0 <= j < n => RowMajorIndexInRange(i, j, n); t[2 + i * n + j]))
  }

  /** The value tokens of a grid in row-major order. */
  function Flatten(g: Rows): (t: seq<int>) {
    if g == [] then [] else g[0] + Flatten(g[1..])
  }

  /** The text format as tokens: size, type flag, then the values row by row. */
  function Encode(g: Rows, flag: int): (t: seq<int>)
    requires IsSquare(g)
  {
    [|g|, flag] + Flatten(g)
  }

  lemma {:induction false} FlattenAt(g: Rows, n: nat, i: nat, j: nat)
    requires forall r :: 0 <= r < |g| ==> |g[r]| == n
    requires i < |g| && j < n
    ensures |Flatten(g)| == |g| * n
    ensures i * n + j < |Flatten(g)| && Flatten(g)[i * n + j] == g[i][j]
  {
    FlattenLength(g, n);
    if i > 0 {
      FlattenAt(g[1..], n, i - 1, j);
      assert i * n + j == n + ((i - 1) * n + j);
    }
  }

  lemma {:induction false} FlattenLength(g: Rows, n: nat)
    requires forall r :: 0 <= r < |g| ==> |g[r]| == n
    ensures |Flatten(g)| == |g| * n
  {
    if g != [] {
      FlattenLength(g[1..], n);
    }
  }

  /** Reading back what the format writes gives the original grid, whatever
      the type flag and whatever follows the values. */
  lemma DecodeEncode(g: Rows, flag: int, rest: seq<int>)
    requires IsSquare(g)
    ensures WellFormed(Encode(g, flag) + rest)
    ensures Decode(Encode(g, flag) + rest) == g
  {
    var n := |g|;
    var t := Encode(g, flag) + rest;
    FlattenLength(g, n);
    assert WellFormed(t);
    forall i, j | 0 <= i < n && 0 <= j < n
      ensures Decode(t)[i][j] == g[i][j]
    {
      FlattenAt(g, n, i, j);
      assert t[2 + i * n + j] == Flatten(g)[i * n + j];
    }
    Ext(Decode(t), g);
  }

  /** The reader depends on the size and the first size * size values only:
      the type flag and any trailing tokens have no effect. */
  lemma DecodeUsesOnlyValues(t: seq<int>, u: seq<int>)
    requires WellFormed(t) && WellFormed(u) && t[0] == u[0]
    requires t[2..2 + t[0] * t[0]] == u[2..2 + u[0] * u[0]]
    ensures Decode(t) == Decode(u)
  {
    var n := t[0];
    forall i, j | 0 <= i < n && 0 <= j < n
      ensures Decode(t)[i][j] == Decode(u)[i][j]
    {
      RowMajorIndexInRange(i, j, n);
      assert t[2 + i * n + j] == t[2..2 + n * n][i * n + j];
      assert u[2 + i * n + j] == u[2..2 + n * n][i * n + j];
    }
    Ext(Decode(t), Decode(u));
  }
}
