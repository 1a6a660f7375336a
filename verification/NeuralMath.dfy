/** The loops of MathUtils, Softmax, CategoricalCrossEntropy and ModelEvaluator. */
module NeuralMath {
  import opened Wrappers
  import opened NeuralSums

  // ---------------------------------------------------------------- filling a matrix entry by entry

  /** The entries before `(i, j)` in reading order are those of `f`. */
  predicate Filled(m: Matrix, rows: nat, cols: nat, f: (int, int) -> real, i: nat, j: nat) {
    && Shape(m, rows, cols) && i <= rows && j <= cols
    && (forall r, c :: 0 <= r < i && 0 <= c < cols ==> m[r][c] == f(r, c))
    && (i < rows ==> forall c :: 0 <= c < j ==> m[i][c] == f(i, c))
  }

  lemma Put(m: Matrix, rows: nat, cols: nat, f: (int, int) -> real, i: nat, j: nat)
    requires Filled(m, rows, cols, f, i, j) && i < rows && j < cols
    ensures Filled(m[i := m[i][j := f(i, j)]], rows, cols, f, i, j + 1)
  {
  }

  lemma NextRow(m: Matrix, rows: nat, cols: nat, f: (int, int) -> real, i: nat)
    requires i < rows && Filled(m, rows, cols, f, i, cols)
    ensures Filled(m, rows, cols, f, i + 1, 0)
  {
  }

  lemma AllFilled(m: Matrix, rows: nat, cols: nat, f: (int, int) -> real)
    requires Filled(m, rows, cols, f, rows, 0)
    ensures m == Build(rows, cols, f)
  {
    SameMatrix(m, Build(rows, cols, f), rows, cols);
  }

  /** All rows of a matrix are as long as its first. */
  predicate Rectangular(m: Matrix) {
    m != [] && Shape(m, |m|, |m[0]|)
  }

  // ---------------------------------------------------------------- products

  /** Adds up one entry of a product. */
  method DotEntry(a: Matrix, b: Matrix, i: nat, j: nat, mid: nat) returns (sum: real)
    requires i < |a| && mid <= |a[i]| && mid <= |b| && forall k :: 0 <= k < mid ==> j < |b[k]|
    ensures sum == Sum(k => At(a, i, k) * At(b, k, j), mid)
  {
    ghost var f := k => At(a, i, k) * At(b, k, j);
    sum := 0.0;
    var k := 0;
    while k < mid
      invariant 0 <= k <= mid && sum == Sum(f, k)
    {
      sum := sum + a[i][k] * b[k][j];
      k := k + 1;
    }
  }

  /** dotProduct of two matrices; nothing where the source throws. */
  method DotProduct(a: Matrix, b: Matrix) returns (r: Option<Matrix>)
    requires Rectangular(a) && (|a[0]| == |b| ==> Rectangular(b))
    ensures r == if |a[0]| == |b| then Some(Mul(a, b, |b|, |b[0]|)) else None
  {
    if |a[0]| != |b| { return None; }
    var rows, cols, mid := |a|, |b[0]|, |a[0]|;
    ghost var f := (i, j) => Sum(k => At(a, i, k) * At(b, k, j), mid);
    var result := Zeros(rows, cols);
    var i := 0;
    while i < rows
      invariant Filled(result, rows, cols, f, i, 0)
    {
      var j := 0;
      while j < cols
        invariant Filled(result, rows, cols, f, i, j)
      {
        var sum := DotEntry(a, b, i, j, mid);
        Put(result, rows, cols, f, i, j);
        result := result[i := result[i][j := sum]];
        j := j + 1;
      }
      NextRow(result, rows, cols, f, i);
      i := i + 1;
    }
    AllFilled(result, rows, cols, f);
    return Some(result);
  }

  /** dotProduct of a matrix and a vector; nothing where the source throws. */
  method DotVector(a: Matrix, v: Vector) returns (r: Option<Vector>)
    requires a == [] || Rectangular(a)
    ensures r == if a != [] && |a[0]| == |v| then Some(BuildVector(|a|, i => Sum(k => At(a, i, k) * Of(v, k), |v|))) else None
  {
    if a == [] || |a[0]| != |v| { return None; }
    ghost var f := i => Sum(k => At(a, i, k) * Of(v, k), |v|);
    var result := seq(|a|, _ => 0.0);
    var i := 0;
    while i < |a|
      invariant 0 <= i <= |a| == |result| && (forall r :: 0 <= r < i ==> result[r] == f(r)) && forall r :: i <= r < |a| ==> result[r] == 0.0
    {
      ghost var before, g := result, q => At(a, i, q) * Of(v, q);
      var k := 0;
      while k < |v|
        invariant 0 <= k <= |v| == |a[i]| && |result| == |a| && result[i] == Sum(g, k)
        invariant forall r :: 0 <= r < |a| && r != i ==> result[r] == before[r]
      {
        assert g(k) == a[i][k] * v[k];
        result := result[i := result[i] + a[i][k] * v[k]];
        k := k + 1;
      }
      i := i + 1;
    }
    assert result == BuildVector(|a|, i => Sum(k => At(a, i, k) * Of(v, k), |v|));
    return Some(result);
  }

  /** transpose; nothing where the source throws. */
  method Transpose(a: Matrix) returns (r: Option<Matrix>)
    ensures r == if a == [] then Some([]) else if Rectangular(a) then Some(Transposed(a, |a|, |a[0]|)) else None
  {
    if a == [] { return Some([]); }
    var rows, cols := |a|, |a[0]|;
    var i := 1;
    while i < rows
      invariant 1 <= i <= rows && forall r :: 0 <= r < i ==> |a[r]| == cols
    {
      if |a[i]| != cols { return None; }
      i := i + 1;
    }
    var result := Zeros(cols, rows);
    i := 0;
    while i < rows
      invariant 0 <= i <= rows && Shape(result, cols, rows)
      invariant forall c, r :: 0 <= c < cols && 0 <= r < i ==> result[c][r] == a[r][c]
    {
      var j := 0;
      while j < cols
        invariant 0 <= j <= cols && Shape(result, cols, rows)
        invariant forall c, r :: 0 <= c < cols && 0 <= r < i ==> result[c][r] == a[r][c]
        invariant forall c :: 0 <= c < j ==> result[c][i] == a[i][c]
      {
        result := result[j := result[j][i := a[i][j]]];
        j := j + 1;
      }
      i := i + 1;
    }
    SameMatrix(result, Transposed(a, rows, cols), cols, rows);
    return Some(result);
  }

  // ---------------------------------------------------------------- entry by entry

  /** elementWiseDivide of a matrix by a number. */
  method Divide(a: Matrix, num: real) returns (r: Matrix)
    requires Rectangular(a) && num != 0.0
    ensures r == Build(|a|, |a[0]|, (i, j) => At(a, i, j) / num)
  {
    var rows, cols := |a|, |a[0]|;
    ghost var f := (i, j) => At(a, i, j) / num;
    var result := Zeros(rows, cols);
    var i := 0;
    while i < rows
      invariant Filled(result, rows, cols, f, i, 0)
    {
      var j := 0;
      while j < cols
        invariant Filled(result, rows, cols, f, i, j)
      {
        Put(result, rows, cols, f, i, j);
        result := result[i := result[i][j := a[i][j] / num]];
        j := j + 1;
      }
      NextRow(result, rows, cols, f, i);
      i := i + 1;
    }
    AllFilled(result, rows, cols, f);
    return result;
  }

  /** elementWiseProduct of a matrix with a number. */
  method Scale(a: Matrix, num: real) returns (r: Matrix)
    requires Rectangular(a)
    ensures r == Build(|a|, |a[0]|, (i, j) => At(a, i, j) * num)
  {
    var rows, cols := |a|, |a[0]|;
    ghost var f := (i, j) => At(a, i, j) * num;
    var result := Zeros(rows, cols);
    var i := 0;
    while i < rows
      invariant Filled(result, rows, cols, f, i, 0)
    {
      var j := 0;
      while j < cols
        invariant Filled(result, rows, cols, f, i, j)
      {
        Put(result, rows, cols, f, i, j);
        result := result[i := result[i][j := a[i][j] * num]];
        j := j + 1;
      }
      NextRow(result, rows, cols, f, i);
      i := i + 1;
    }
    AllFilled(result, rows, cols, f);
    return result;
  }

  /** elementWiseProduct of two matrices. */
  method Product(a: Matrix, b: Matrix) returns (r: Option<Matrix>)
    requires Rectangular(a) && Rectangular(b)
    ensures r == if |a| == |b| && |a[0]| == |b[0]| then Some(Build(|a|, |a[0]|, (i, j) => At(a, i, j) * At(b, i, j))) else None
  {
    if !(|a| == |b| && |a[0]| == |b[0]|) { return None; }
    var rows, cols := |a|, |a[0]|;
    ghost var f := (i, j) => At(a, i, j) * At(b, i, j);
    var result := Zeros(rows, cols);
    var i := 0;
    while i < rows
      invariant Filled(result, rows, cols, f, i, 0)
    {
      var j := 0;
      while j < cols
        invariant Filled(result, rows, cols, f, i, j)
      {
        Put(result, rows, cols, f, i, j);
        result := result[i := result[i][j := a[i][j] * b[i][j]]];
        j := j + 1;
      }
      NextRow(result, rows, cols, f, i);
      i := i + 1;
    }
    AllFilled(result, rows, cols, f);
    return Some(result);
  }

  /** elementWiseSubtract of two matrices. */
  method Subtract(a: Matrix, b: Matrix) returns (r: Option<Matrix>)
    requires Rectangular(a) && Rectangular(b)
    ensures r == if |a| == |b| && |a[0]| == |b[0]| then Some(Build(|a|, |a[0]|, (i, j) => At(a, i, j) - At(b, i, j))) else None
  {
    if !(|a| == |b| && |a[0]| == |b[0]|) { return None; }
    var rows, cols := |a|, |a[0]|;
    ghost var f := (i, j) => At(a, i, j) - At(b, i, j);
    var result := Zeros(rows, cols);
    var i := 0;
    while i < rows
      invariant Filled(result, rows, cols, f, i, 0)
    {
      var j := 0;
      while j < cols
        invariant Filled(result, rows, cols, f, i, j)
      {
        Put(result, rows, cols, f, i, j);
        result := result[i := result[i][j := a[i][j] - b[i][j]]];
        j := j + 1;
      }
      NextRow(result, rows, cols, f, i);
      i := i + 1;
    }
    AllFilled(result, rows, cols, f);
    return Some(result);
  }

  /** elementWiseSum of a matrix and a vector, row by row. */
  method AddVector(a: Matrix, v: Vector) returns (r: Option<Matrix>)
    requires Rectangular(a)
    ensures r == if |a| == |v| then Some(Build(|a|, |a[0]|, (i, j) => At(a, i, j) + Of(v, i))) else None
  {
    if !(|a| == |v|) { return None; }
    var rows, cols := |a|, |a[0]|;
    ghost var f := (i, j) => At(a, i, j) + Of(v, i);
    var result := Zeros(rows, cols);
    var i := 0;
    while i < rows
      invariant Filled(result, rows, cols, f, i, 0)
    {
      var j := 0;
      while j < cols
        invariant Filled(result, rows, cols, f, i, j)
      {
        Put(result, rows, cols, f, i, j);
        result := result[i := result[i][j := a[i][j] + v[i]]];
        j := j + 1;
      }
      NextRow(result, rows, cols, f, i);
      i := i + 1;
    }
    AllFilled(result, rows, cols, f);
    return Some(result);
  }

  /** elementWiseDivide of a vector by a number. */
  method DivideVector(v: Vector, num: real) returns (r: Vector)
    requires num != 0.0
    ensures r == BuildVector(|v|, i => Of(v, i) / num)
  {
    ghost var f := i => Of(v, i) / num;
    var result := seq(|v|, _ => 0.0);
    var i := 0;
    while i < |v|
      invariant 0 <= i <= |v| == |result| && forall k :: 0 <= k < i ==> result[k] == f(k)
    {
      result := result[i := v[i] / num];
      i := i + 1;
    }
    assert result == BuildVector(|v|, i => Of(v, i) / num);
    return result;
  }

  /** elementWiseProduct of a vector with a number. */
  method ScaleVector(v: Vector, num: real) returns (r: Vector)
    ensures r == BuildVector(|v|, i => Of(v, i) * num)
  {
    ghost var f := i => Of(v, i) * num;
    var result := seq(|v|, _ => 0.0);
    var i := 0;
    while i < |v|
      invariant 0 <= i <= |v| == |result| && forall k :: 0 <= k < i ==> result[k] == f(k)
    {
      result := result[i := v[i] * num];
      i := i + 1;
    }
    assert result == BuildVector(|v|, i => Of(v, i) * num);
    return result;
  }

  /** elementWiseSubtract of two vectors. */
  method SubtractVector(v: Vector, u: Vector) returns (r: Option<Vector>)
    ensures r == if |v| == |u| then Some(BuildVector(|v|, i => Of(v, i) - Of(u, i))) else None
  {
    if !(|v| == |u|) { return None; }
    ghost var f := i => Of(v, i) - Of(u, i);
    var result := seq(|v|, _ => 0.0);
    var i := 0;
    while i < |v|
      invariant 0 <= i <= |v| == |result| && forall k :: 0 <= k < i ==> result[k] == f(k)
    {
      result := result[i := v[i] - u[i]];
      i := i + 1;
    }
    assert result == BuildVector(|v|, i => Of(v, i) - Of(u, i));
    return Some(result);
  }
}
