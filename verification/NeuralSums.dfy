/** Finite sums over the reals, and matrices as sequences of rows. */
module NeuralSums {

  type Vector = seq<real>
  type Matrix = seq<seq<real>>

  // ---------------------------------------------------------------- sums

  function Sum(f: int -> real, n: nat): real {
    if n == 0 then 0.0 else Sum(f, n - 1) + f(n - 1)
  }

  lemma {:induction false} SumEq(f: int -> real, g: int -> real, n: nat)
    requires forall k :: 0 <= k < n ==> f(k) == g(k)
    ensures Sum(f, n) == Sum(g, n)
  {
    if n > 0 { SumEq(f, g, n - 1); }
  }

  lemma {:induction false} SumZero(f: int -> real, n: nat)
    requires forall k :: 0 <= k < n ==> f(k) == 0.0
    ensures Sum(f, n) == 0.0
  {
    if n > 0 { SumZero(f, n - 1); }
  }

  lemma {:induction false} SumAdd(f: int -> real, g: int -> real, h: int -> real, n: nat)
    requires forall k :: 0 <= k < n ==> h(k) == f(k) + g(k)
    ensures Sum(h, n) == Sum(f, n) + Sum(g, n)
  {
    if n > 0 { SumAdd(f, g, h, n - 1); }
  }

  lemma {:induction false} SumScale(c: real, f: int -> real, g: int -> real, n: nat)
    requires forall k :: 0 <= k < n ==> g(k) == c * f(k)
    ensures Sum(g, n) == c * Sum(f, n)
  {
    if n > 0 {
      SumScale(c, f, g, n - 1);
      Distribute(c, Sum(f, n - 1), f(n - 1));
    }
  }

  lemma Distribute(c: real, x: real, y: real)
    ensures c * (x + y) == c * x + c * y
  {
  }

  /** The order of summation does not matter. */
  lemma {:induction false} SumSwap(f: (int, int) -> real, n: nat, m: nat)
    ensures Sum(i => Sum(j => f(i, j), m), n) == Sum(j => Sum(i => f(i, j), n), m)
  {
    if n == 0 {
      SumZero(j => Sum(i => f(i, j), n), m);
    } else {
      SumSwap(f, n - 1, m);
      SumAdd(j => Sum(i => f(i, j), n - 1), j => f(n - 1, j), j => Sum(i => f(i, j), n), m);
    }
  }

  // ---------------------------------------------------------------- matrices

  function At(m: Matrix, i: int, j: int): real {
    if 0 <= i < |m| && 0 <= j < |m[i]| then m[i][j] else 0.0
  }

  function Of(v: Vector, i: int): real {
    if 0 <= i < |v| then v[i] else 0.0
  }

  predicate Shape(m: Matrix, rows: nat, cols: nat) {
    |m| == rows && forall i :: 0 <= i < rows ==> |m[i]| == cols
  }

  function Build(rows: nat, cols: nat, f: (int, int) -> real): (m: Matrix)
    ensures Shape(m, rows, cols)
    ensures forall i, j :: 0 <= i < rows && 0 <= j < cols ==> m[i][j] == f(i, j)
  {
    seq(rows, i => seq(cols, j => f(i, j)))
  }

  function BuildVector(n: nat, f: int -> real): (v: Vector)
    ensures |v| == n && forall i :: 0 <= i < n ==> v[i] == f(i)
  {
    seq(n, i => f(i))
  }

  lemma SameMatrix(a: Matrix, b: Matrix, rows: nat, cols: nat)
    requires Shape(a, rows, cols) && Shape(b, rows, cols)
    requires forall i, j :: 0 <= i < rows && 0 <= j < cols ==> a[i][j] == b[i][j]
    ensures a == b
  {
    forall i | 0 <= i < rows ensures a[i] == b[i] { }
  }

  function Zeros(rows: nat, cols: nat): (m: Matrix)
    ensures Shape(m, rows, cols)
  {
    seq(rows, _ => seq(cols, _ => 0.0))
  }

  function Mul(a: Matrix, b: Matrix, mid: nat, cols: nat): (m: Matrix)
    ensures Shape(m, |a|, cols)
  {
    Build(|a|, cols, (i, j) => Sum(k => At(a, i, k) * At(b, k, j), mid))
  }

  lemma MulAt(a: Matrix, b: Matrix, mid: nat, cols: nat, i: int, j: int)
    requires 0 <= i < |a| && 0 <= j < cols
    ensures At(Mul(a, b, mid, cols), i, j) == Sum(k => At(a, i, k) * At(b, k, j), mid)
  {
  }

  function Transposed(m: Matrix, rows: nat, cols: nat): (t: Matrix)
    ensures Shape(t, cols, rows)
  {
    Build(cols, rows, (i, j) => At(m, j, i))
  }

  /** The sum of column `j`. */
  function ColumnSum(m: Matrix, j: int): real {
    Sum(i => At(m, i, j), |m|)
  }

  function VectorSum(v: Vector): real {
    Sum(i => Of(v, i), |v|)
  }

  /** The sum of the products of the entries. */
  function Inner(a: Matrix, b: Matrix, rows: nat, cols: nat): real {
    Sum(i => RowInner(a, b, i, cols), rows)
  }

  function RowInner(a: Matrix, b: Matrix, i: int, cols: nat): real {
    Sum(j => At(a, i, j) * At(b, i, j), cols)
  }

  function InnerVectors(a: Vector, b: Vector, n: nat): real {
    Sum(i => Of(a, i) * Of(b, i), n)
  }
}
