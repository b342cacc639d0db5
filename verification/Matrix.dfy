/** The benchmark kernel: an in-place i-k-j multiply of flat square matrices, for any addition and
    multiplication, so no law of arithmetic is used and the order of operations is pinned down. */
module Matrix {

  /** Where row `i`, column `j` of an n-by-n matrix lies. */
  function Cell(i: nat, j: nat, n: nat): nat {
    i * n + j
  }

  lemma CellBounds(i: nat, j: nat, n: nat)
    requires i < n && j < n
    ensures Cell(i, j, n) < n * n
  {
    assert i * n <= (n - 1) * n == n * n - n;
  }

  lemma {:induction false} RowsApart(i: nat, i': nat, n: nat)
    requires i < i'
    ensures i * n + n <= i' * n
  {
    assert i' * n == (i' - 1) * n + n;
    if i < i' - 1 {
      RowsApart(i, i' - 1, n);
    }
  }

  /** Different cells lie apart. */
  lemma CellsApart(i: nat, j: nat, i': nat, j': nat, n: nat)
    requires i < n && j < n && i' < n && j' < n && (i != i' || j != j')
    ensures Cell(i, j, n) != Cell(i', j', n)
  {
    if i < i' {
      RowsApart(i, i', n);
    } else if i' < i {
      RowsApart(i', i, n);
    }
  }

  /** ((start + a[i,0] * b[0,j]) + a[i,1] * b[1,j]) + ... for the first `k` products, added from the left. */
  function Dot<T>(a: seq<T>, b: seq<T>, n: nat, i: nat, j: nat, k: nat, start: T, add: (T, T) -> T, mul: (T, T) -> T): T
    requires |a| == |b| == n * n && i < n && j < n && k <= n
  {
    if k == 0 then start
    else
      CellBounds(i, k - 1, n);
      CellBounds(k - 1, j, n);
      add(Dot(a, b, n, i, j, k - 1, start, add, mul), mul(a[Cell(i, k - 1, n)], b[Cell(k - 1, j, n)]))
  }

  /** How many products cell (r, j) holds when the loops stand at row `i`, step `k`, column `col`. */
  function Steps(r: nat, j: nat, i: nat, k: nat, col: nat, n: nat): nat
    requires k <= n
  {
    if r < i then n else if r > i then 0 else if j < col && k < n then k + 1 else k
  }

  /** Every cell of `c` holds its dot product so far. */
  ghost predicate Holds<T>(
      a: seq<T>, b: seq<T>, c0: seq<T>, c: seq<T>, n: nat, i: nat, k: nat, col: nat, add: (T, T) -> T, mul: (T, T) -> T)
    requires k <= n && |a| == |b| == |c0| == |c| == n * n
  {
    forall r, j :: 0 <= r < n && 0 <= j < n ==> HoldsAt(a, b, c0, c, n, r, j, Steps(r, j, i, k, col, n), add, mul)
  }

  ghost predicate HoldsAt<T>(
      a: seq<T>, b: seq<T>, c0: seq<T>, c: seq<T>, n: nat, r: nat, j: nat, k: nat, add: (T, T) -> T, mul: (T, T) -> T)
    requires r < n && j < n && k <= n && |a| == |b| == |c0| == |c| == n * n
  {
    CellBounds(r, j, n);
    c[Cell(r, j, n)] == Dot(a, b, n, r, j, k, c0[Cell(r, j, n)], add, mul)
  }

  /** One more product in one cell moves the loops one column on. */
  lemma ColumnStep<T>(
      a: seq<T>, b: seq<T>, c0: seq<T>, c: seq<T>, c': seq<T>, n: nat, i: nat, k: nat, col: nat,
      add: (T, T) -> T, mul: (T, T) -> T)
    requires i < n && k < n && col < n && |a| == |b| == |c0| == |c| == |c'| == n * n
    requires Holds(a, b, c0, c, n, i, k, col, add, mul)
    requires Cell(i, col, n) < n * n && Cell(i, k, n) < n * n && Cell(k, col, n) < n * n
    requires c' == c[Cell(i, col, n) := add(c[Cell(i, col, n)], mul(a[Cell(i, k, n)], b[Cell(k, col, n)]))]
    ensures Holds(a, b, c0, c', n, i, k, col + 1, add, mul)
  {
    hide Cell;
    var next := col + 1;
    forall r, j | 0 <= r < n && 0 <= j < n
      ensures HoldsAt(a, b, c0, c', n, r, j, Steps(r, j, i, k, next, n), add, mul) {
      assert HoldsAt(a, b, c0, c, n, r, j, Steps(r, j, i, k, col, n), add, mul);
      CellBounds(r, j, n);
      if r != i || j != col {
        CellsApart(r, j, i, col, n);
      }
    }
  }

  /** A full row of columns is one more step; a full row of steps is one more row. */
  lemma LoopEnds<T>(
      a: seq<T>, b: seq<T>, c0: seq<T>, c: seq<T>, n: nat, i: nat, k: nat, add: (T, T) -> T, mul: (T, T) -> T)
    requires k <= n && |a| == |b| == |c0| == |c| == n * n
    ensures k < n && Holds(a, b, c0, c, n, i, k, n, add, mul) ==> Holds(a, b, c0, c, n, i, k + 1, 0, add, mul)
    ensures Holds(a, b, c0, c, n, i, n, 0, add, mul) ==> Holds(a, b, c0, c, n, i + 1, 0, 0, add, mul)
  {
    hide HoldsAt;
    if k < n && Holds(a, b, c0, c, n, i, k, n, add, mul) {
      var next := k + 1;
      forall r, j | 0 <= r < n && 0 <= j < n
        ensures HoldsAt(a, b, c0, c, n, r, j, Steps(r, j, i, next, 0, n), add, mul) {
        assert Steps(r, j, i, next, 0, n) == Steps(r, j, i, k, n, n);
        assert HoldsAt(a, b, c0, c, n, r, j, Steps(r, j, i, k, n, n), add, mul);
      }
    }
    if Holds(a, b, c0, c, n, i, n, 0, add, mul) {
      var next := i + 1;
      forall r, j | 0 <= r < n && 0 <= j < n
        ensures HoldsAt(a, b, c0, c, n, r, j, Steps(r, j, next, 0, 0, n), add, mul) {
        assert Steps(r, j, next, 0, 0, n) == Steps(r, j, i, n, 0, n);
        assert HoldsAt(a, b, c0, c, n, r, j, Steps(r, j, i, n, 0, n), add, mul);
      }
    }
  }

  lemma NothingDone<T>(a: seq<T>, b: seq<T>, c: seq<T>, n: nat, add: (T, T) -> T, mul: (T, T) -> T)
    requires |a| == |b| == |c| == n * n
    ensures Holds(a, b, c, c, n, 0, 0, 0, add, mul)
  {
  }

  /** Adds to every cell of `c` its dot product, one product at a time, row by row. */
  method MultiplySquare<T>(a: array<T>, b: array<T>, c: array<T>, size: nat, add: (T, T) -> T, mul: (T, T) -> T)
    requires a.Length == b.Length == c.Length == size * size && a != c && b != c
    modifies c
    ensures Holds(a[..], b[..], old(c[..]), c[..], size, size, 0, 0, add, mul)
  {
    hide Holds, Steps;
    ghost var c0 := c[..];
    NothingDone(a[..], b[..], c0, size, add, mul);
    for i := 0 to size
      invariant a[..] == old(a[..]) && b[..] == old(b[..])
      invariant Holds(a[..], b[..], c0, c[..], size, i, 0, 0, add, mul)
    {
      for k := 0 to size
        invariant a[..] == old(a[..]) && b[..] == old(b[..])
        invariant Holds(a[..], b[..], c0, c[..], size, i, k, 0, add, mul)
      {
        CellBounds(i, k, size);
        var av := a[i * size + k];
        for j := 0 to size
          invariant a[..] == old(a[..]) && b[..] == old(b[..])
          invariant Holds(a[..], b[..], c0, c[..], size, i, k, j, add, mul)
        {
          CellBounds(i, j, size);
          CellBounds(k, j, size);
          ghost var before := c[..];
          c[i * size + j] := add(c[i * size + j], mul(av, b[k * size + j]));
          ColumnStep(a[..], b[..], c0, before, c[..], size, i, k, j, add, mul);
        }
        LoopEnds(a[..], b[..], c0, c[..], size, i, k, add, mul);
      }
      LoopEnds(a[..], b[..], c0, c[..], size, i, size, add, mul);
    }
  }

  /** The matrix product, every sum taken from the left and starting at `zero`. */
  ghost predicate IsProduct<T>(a: seq<T>, b: seq<T>, c: seq<T>, n: nat, zero: T, add: (T, T) -> T, mul: (T, T) -> T)
    requires |a| == |b| == |c| == n * n
  {
    forall i, j :: 0 <= i < n && 0 <= j < n ==>
      (CellBounds(i, j, n); c[Cell(i, j, n)] == Dot(a, b, n, i, j, n, zero, add, mul))
  }

  lemma ZeroStartGivesProduct<T>(
      a: seq<T>, b: seq<T>, c0: seq<T>, c: seq<T>, n: nat, zero: T, add: (T, T) -> T, mul: (T, T) -> T)
    requires |a| == |b| == |c0| == |c| == n * n && forall p :: 0 <= p < n * n ==> c0[p] == zero
    requires Holds(a, b, c0, c, n, n, 0, 0, add, mul)
    ensures IsProduct(a, b, c, n, zero, add, mul)
  {
    forall i, j | 0 <= i < n && 0 <= j < n
      ensures (CellBounds(i, j, n); c[Cell(i, j, n)] == Dot(a, b, n, i, j, n, zero, add, mul))
    {
      CellBounds(i, j, n);
      assert HoldsAt(a, b, c0, c, n, i, j, Steps(i, j, n, 0, 0, n), add, mul);
    }
  }

  /** The benchmark loop clears `c` before every multiply, so the iteration count does not show in the result. */
  method RepeatMultiply<T>(
      a: array<T>, b: array<T>, c: array<T>, size: nat, iterations: nat, zero: T, add: (T, T) -> T, mul: (T, T) -> T)
    requires a.Length == b.Length == c.Length == size * size && a != c && b != c
    modifies c
    ensures iterations > 0 ==> IsProduct(a[..], b[..], c[..], size, zero, add, mul)
    ensures iterations > 0 ==> forall i, j :: 0 <= i < size && 0 <= j < size ==>
      Row(c[..], size, i)[j] == SumOfProducts(Row(a[..], size, i), Column(b[..], size, j), zero, add, mul)
    ensures iterations == 0 ==> c[..] == old(c[..])
  {
    hide Holds, IsProduct, Row, Column, SumOfProducts;
    for iteration := 0 to iterations
      invariant a[..] == old(a[..]) && b[..] == old(b[..])
      invariant iteration > 0 ==> IsProduct(a[..], b[..], c[..], size, zero, add, mul)
      invariant iteration == 0 ==> c[..] == old(c[..])
    {
      for i := 0 to c.Length
        invariant a[..] == old(a[..]) && b[..] == old(b[..])
        invariant forall p :: 0 <= p < i ==> c[p] == zero
      {
        c[i] := zero;
      }
      ghost var cleared := c[..];
      MultiplySquare(a, b, c, size, add, mul);
      ZeroStartGivesProduct(a[..], b[..], cleared, c[..], size, zero, add, mul);
    }
    if iterations > 0 {
      forall i, j | 0 <= i < size && 0 <= j < size
        ensures Row(c[..], size, i)[j] == SumOfProducts(Row(a[..], size, i), Column(b[..], size, j), zero, add, mul)
      {
        ProductMeans(a[..], b[..], c[..], size, zero, add, mul, i, j);
      }
    }
  }

  // ----- in rows and columns -----

  lemma RowBounds(i: nat, n: nat)
    requires i < n
    ensures i * n + n <= n * n
  {
    assert i * n <= (n - 1) * n == n * n - n;
  }

  /** Row `i` of a flat matrix: the `n` numbers from position i * n on. */
  function Row<T>(a: seq<T>, n: nat, i: nat): (row: seq<T>)
    requires |a| == n * n && i < n
    ensures |row| == n
  {
    RowBounds(i, n);
    a[i * n..i * n + n]
  }

  lemma CellInRow<T>(a: seq<T>, n: nat, i: nat, k: nat)
    requires |a| == n * n && i < n && k < n
    ensures Cell(i, k, n) < |a| && Row(a, n, i)[k] == a[Cell(i, k, n)]
  {
    CellBounds(i, k, n);
    RowBounds(i, n);
  }

  /** Column `j`: one number of every row. */
  function Column<T>(b: seq<T>, n: nat, j: nat): (column: seq<T>)
    requires |b| == n * n && j < n
    ensures |column| == n && forall k :: 0 <= k < n ==> column[k] == Row(b, n, k)[j]
  {
    seq(n, k requires 0 <= k < n => Row(b, n, k)[j])
  }

  /** start + row[0] * column[0] + row[1] * column[1] + ..., added from the left. */
  function SumOfProducts<T>(row: seq<T>, column: seq<T>, start: T, add: (T, T) -> T, mul: (T, T) -> T): T
    requires |row| == |column|
  {
    if row == [] then start
    else
      var k := |row| - 1;
      add(SumOfProducts(row[..k], column[..k], start, add, mul), mul(row[k], column[k]))
  }

  lemma {:induction false} DotIsRowByColumn<T>(
      a: seq<T>, b: seq<T>, n: nat, i: nat, j: nat, k: nat, start: T, add: (T, T) -> T, mul: (T, T) -> T)
    requires |a| == |b| == n * n && i < n && j < n && k <= n
    ensures Dot(a, b, n, i, j, k, start, add, mul) ==
      SumOfProducts(Row(a, n, i)[..k], Column(b, n, j)[..k], start, add, mul)
  {
    hide Row, Cell;
    var row, column := Row(a, n, i), Column(b, n, j);
    if k > 0 {
      DotIsRowByColumn(a, b, n, i, j, k - 1, start, add, mul);
      assert row[..k][..k - 1] == row[..k - 1] && column[..k][..k - 1] == column[..k - 1];
      CellInRow(a, n, i, k - 1);
      CellInRow(b, n, k - 1, j);
    }
  }

  /** The product has in row `i`, column `j` the sum of the products of row `i` with column `j`. */
  lemma ProductMeans<T>(
      a: seq<T>, b: seq<T>, c: seq<T>, n: nat, zero: T, add: (T, T) -> T, mul: (T, T) -> T, i: nat, j: nat)
    requires |a| == |b| == |c| == n * n && IsProduct(a, b, c, n, zero, add, mul) && i < n && j < n
    ensures Row(c, n, i)[j] == SumOfProducts(Row(a, n, i), Column(b, n, j), zero, add, mul)
  {
    hide Row, Column, SumOfProducts;
    CellInRow(c, n, i, j);
    assert c[Cell(i, j, n)] == Dot(a, b, n, i, j, n, zero, add, mul);
    DotIsRowByColumn(a, b, n, i, j, n, zero, add, mul);
    assert Row(a, n, i)[..n] == Row(a, n, i) && Column(b, n, j)[..n] == Column(b, n, j);
  }
}
