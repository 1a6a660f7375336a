/** The gradients of the affine step of a dense layer. */
module NeuralGradient {
  import opened NeuralSums

  /** w · x + b, column by column. */
  function Affine(w: Matrix, b: Vector, x: Matrix, mid: nat, cols: nat): (z: Matrix)
    ensures Shape(z, |w|, cols)
  {
    Build(|w|, cols, (i, j) => Sum(k => At(w, i, k) * At(x, k, j), mid) + Of(b, i))
  }

  /** dz · aPrevᵀ / m. */
  function WeightGradient(dz: Matrix, aPrev: Matrix, inputs: nat, m: nat): (dw: Matrix)
    requires m > 0
    ensures Shape(dw, |dz|, inputs)
  {
    Build(|dz|, inputs, (i, k) => Sum(j => At(dz, i, j) * At(aPrev, k, j), m) / m as real)
  }

  /** dz · 1 / m. */
  function BiasGradient(dz: Matrix, m: nat): (db: Vector)
    requires m > 0
    ensures |db| == |dz|
  {
    BuildVector(|dz|, i => Sum(j => At(dz, i, j), m) / m as real)
  }

  /** wᵀ · dz. */
  function InputGradient(w: Matrix, dz: Matrix, inputs: nat, m: nat): (daPrev: Matrix)
    ensures Shape(daPrev, inputs, m)
  {
    Build(inputs, m, (k, j) => Sum(i => At(w, i, k) * At(dz, i, j), |w|))
  }

  // ---------------------------------------------------------------- the adjoint

  function RowSum(t: (int, int) -> real, i: int, cols: nat): real {
    Sum(j => t(i, j), cols)
  }

  function ColSum(t: (int, int) -> real, j: int, rows: nat): real {
    Sum(i => t(i, j), rows)
  }

  lemma Exchange(t: (int, int) -> real, rows: nat, cols: nat)
    ensures Sum(i => RowSum(t, i, cols), rows) == Sum(j => ColSum(t, j, rows), cols)
  {
    SumSwap(t, rows, cols);
    SumEq(i => RowSum(t, i, cols), i => Sum(j => t(i, j), cols), rows);
    SumEq(j => ColSum(t, j, rows), j => Sum(i => t(i, j), rows), cols);
  }

  /** The matrix applied to a vector, and its transpose. */
  function Apply(c: (int, int) -> real, y: int -> real, p: nat, i: int): real {
    Sum(k => c(i, k) * y(k), p)
  }

  function ApplyTransposed(c: (int, int) -> real, x: int -> real, n: nat, k: int): real {
    Sum(i => c(i, k) * x(i), n)
  }

  function Terms(x: int -> real, c: (int, int) -> real, y: int -> real): (int, int) -> real {
    (i, k) => x(i) * (c(i, k) * y(k))
  }

  lemma TermsInRow(x: int -> real, c: (int, int) -> real, y: int -> real, p: nat, i: int)
    ensures RowSum(Terms(x, c, y), i, p) == x(i) * Apply(c, y, p, i)
  {
    forall k ensures Terms(x, c, y)(i, k) == x(i) * (c(i, k) * y(k)) { }
    SumScale(x(i), k => c(i, k) * y(k), k => Terms(x, c, y)(i, k), p);
  }

  lemma TermsInColumn(x: int -> real, c: (int, int) -> real, y: int -> real, n: nat, k: int)
    ensures ColSum(Terms(x, c, y), k, n) == y(k) * ApplyTransposed(c, x, n, k)
  {
    forall i ensures Terms(x, c, y)(i, k) == y(k) * (c(i, k) * x(i)) { Rearranged(x(i), c(i, k), y(k)); }
    SumScale(y(k), i => c(i, k) * x(i), i => Terms(x, c, y)(i, k), n);
  }

  lemma Rearranged(x: real, c: real, y: real)
    ensures x * (c * y) == y * (c * x)
  {
  }

  lemma ByRows(x: int -> real, c: (int, int) -> real, y: int -> real, n: nat, p: nat)
    ensures Sum(i => RowSum(Terms(x, c, y), i, p), n) == Sum(i => x(i) * Apply(c, y, p, i), n)
  {
    forall i ensures RowSum(Terms(x, c, y), i, p) == x(i) * Apply(c, y, p, i) { TermsInRow(x, c, y, p, i); }
    hide *;
    SumEq(i => RowSum(Terms(x, c, y), i, p), i => x(i) * Apply(c, y, p, i), n);
  }

  lemma ByColumns(x: int -> real, c: (int, int) -> real, y: int -> real, n: nat, p: nat)
    ensures Sum(k => ColSum(Terms(x, c, y), k, n), p) == Sum(k => y(k) * ApplyTransposed(c, x, n, k), p)
  {
    forall k ensures ColSum(Terms(x, c, y), k, n) == y(k) * ApplyTransposed(c, x, n, k) { TermsInColumn(x, c, y, n, k); }
    hide *;
    SumEq(k => ColSum(Terms(x, c, y), k, n), k => y(k) * ApplyTransposed(c, x, n, k), p);
  }

  lemma Bilinear(x: int -> real, c: (int, int) -> real, y: int -> real, n: nat, p: nat)
    ensures Sum(i => x(i) * Apply(c, y, p, i), n) == Sum(k => y(k) * ApplyTransposed(c, x, n, k), p)
  {
    hide *;
    ByRows(x, c, y, n, p);
    ByColumns(x, c, y, n, p);
    Exchange(Terms(x, c, y), n, p);
  }

  // ---------------------------------------------------------------- the three gradients

  function Row(m: Matrix, i: int): (r: int -> real)
    ensures forall j :: r(j) == At(m, i, j)
  {
    j => At(m, i, j)
  }

  function Column(m: Matrix, j: int): (r: int -> real)
    ensures forall i :: r(i) == At(m, i, j)
  {
    i => At(m, i, j)
  }

  function Entries(m: Matrix): (r: (int, int) -> real)
    ensures forall i, j :: r(i, j) == At(m, i, j)
  {
    (i, j) => At(m, i, j)
  }

  function Flipped(m: Matrix): (r: (int, int) -> real)
    ensures forall i, j :: r(i, j) == At(m, j, i)
  {
    (i, j) => At(m, j, i)
  }

  lemma ProductEntry(d: Matrix, a: Matrix, p: nat, m: nat, i: int, j: int, c: (int, int) -> real, y: int -> real)
    requires 0 <= i < |d| && 0 <= j < m
    requires (forall k :: c(j, k) == At(a, k, j)) && forall k :: y(k) == At(d, i, k)
    ensures At(Mul(d, a, p, m), i, j) == Apply(c, y, p, j)
  {
    MulAt(d, a, p, m, i, j);
    SumEq(k => At(d, i, k) * At(a, k, j), k => c(j, k) * y(k), p);
  }

  lemma GradientEntry(dz: Matrix, a: Matrix, p: nat, m: nat, i: int, k: int, c: (int, int) -> real, x: int -> real)
    requires m > 0 && 0 <= i < |dz| && 0 <= k < p
    requires (forall j :: c(j, k) == At(a, k, j)) && forall j :: x(j) == At(dz, i, j)
    ensures At(WeightGradient(dz, a, p, m), i, k) == ApplyTransposed(c, x, m, k) / m as real
  {
    SumEq(j => At(dz, i, j) * At(a, k, j), j => c(j, k) * x(j), m);
  }

  lemma WeightRowLeft(dz: Matrix, d: Matrix, a: Matrix, p: nat, m: nat, i: int, x: int -> real, c: (int, int) -> real, y: int -> real)
    requires 0 <= i < |d|
    requires (forall j, k :: c(j, k) == At(a, k, j)) && (forall j :: x(j) == At(dz, i, j)) && forall k :: y(k) == At(d, i, k)
    ensures RowInner(dz, Mul(d, a, p, m), i, m) == Sum(j => x(j) * Apply(c, y, p, j), m)
  {
    forall j | 0 <= j < m ensures At(Mul(d, a, p, m), i, j) == Apply(c, y, p, j) {
      ProductEntry(d, a, p, m, i, j, c, y);
    }
    hide Mul, Apply;
    SumEq(j => At(dz, i, j) * At(Mul(d, a, p, m), i, j), j => x(j) * Apply(c, y, p, j), m);
  }

  lemma WeightRowRight(dz: Matrix, d: Matrix, a: Matrix, p: nat, m: nat, i: int, x: int -> real, c: (int, int) -> real, y: int -> real)
    requires m > 0 && 0 <= i < |dz|
    requires (forall j, k :: c(j, k) == At(a, k, j)) && (forall j :: x(j) == At(dz, i, j)) && forall k :: y(k) == At(d, i, k)
    ensures m as real * RowInner(WeightGradient(dz, a, p, m), d, i, p) == Sum(k => y(k) * ApplyTransposed(c, x, m, k), p)
  {
    hide WeightGradient, ApplyTransposed, At;
    var g := WeightGradient(dz, a, p, m);
    forall k | 0 <= k < p ensures y(k) * ApplyTransposed(c, x, m, k) == m as real * (At(g, i, k) * At(d, i, k)) {
      GradientEntry(dz, a, p, m, i, k, c, x);
      Quotient(ApplyTransposed(c, x, m, k), m as real, At(d, i, k));
    }
    SumScale(m as real, k => At(g, i, k) * At(d, i, k), k => y(k) * ApplyTransposed(c, x, m, k), p);
  }

  /** A change of the weights, in one row. */
  lemma WeightRow(dz: Matrix, d: Matrix, a: Matrix, p: nat, m: nat, i: int)
    requires m > 0 && 0 <= i < |dz| == |d|
    ensures RowInner(dz, Mul(d, a, p, m), i, m) == m as real * RowInner(WeightGradient(dz, a, p, m), d, i, p)
  {
    hide *;
    var x, c, y := Row(dz, i), Flipped(a), Row(d, i);
    WeightRowLeft(dz, d, a, p, m, i, x, c, y);
    WeightRowRight(dz, d, a, p, m, i, x, c, y);
    Bilinear(x, c, y, m, p);
  }

  lemma Quotient(s: real, m: real, y: real)
    requires m > 0.0
    ensures y * s == m * (s / m * y)
  {
    assert m * (s / m) == s;
  }

  /** The products of the entries of two matrices. */
  function Products(a: Matrix, b: Matrix): (t: (int, int) -> real)
    ensures forall i, j :: t(i, j) == At(a, i, j) * At(b, i, j)
  {
    (i, j) => At(a, i, j) * At(b, i, j)
  }

  lemma RowInnerIs(a: Matrix, b: Matrix, i: int, cols: nat, t: (int, int) -> real)
    requires forall j :: t(i, j) == At(a, i, j) * At(b, i, j)
    ensures RowInner(a, b, i, cols) == RowSum(t, i, cols)
  {
    SumEq(j => At(a, i, j) * At(b, i, j), j => t(i, j), cols);
  }

  lemma InnerByColumns(a: Matrix, b: Matrix, rows: nat, cols: nat, t: (int, int) -> real)
    requires forall i, j :: t(i, j) == At(a, i, j) * At(b, i, j)
    ensures Inner(a, b, rows, cols) == Sum(j => ColSum(t, j, rows), cols)
  {
    Exchange(t, rows, cols);
    hide RowInner, RowSum, ColSum, At;
    forall i ensures RowInner(a, b, i, cols) == RowSum(t, i, cols) { RowInnerIs(a, b, i, cols, t); }
    SumEq(i => RowInner(a, b, i, cols), i => RowSum(t, i, cols), rows);
  }

  /** A change of the inputs, in one column. */
  lemma InputColumn(dz: Matrix, w: Matrix, v: Matrix, p: nat, m: nat, j: int, t: (int, int) -> real, u: (int, int) -> real)
    requires |dz| == |w| && 0 <= j < m
    requires forall i, j :: t(i, j) == At(dz, i, j) * At(Mul(w, v, p, m), i, j)
    requires forall k, j :: u(k, j) == At(InputGradient(w, dz, p, m), k, j) * At(v, k, j)
    ensures ColSum(t, j, |w|) == ColSum(u, j, p)
  {
    var x, c, y := Column(dz, j), Entries(w), Column(v, j);
    InputLeft(dz, w, v, p, m, j, x, c, y, t);
    InputRight(dz, w, v, p, m, j, x, c, y, u);
    hide *;
    Bilinear(x, c, y, |w|, p);
  }

  lemma OutputEntry(w: Matrix, v: Matrix, p: nat, m: nat, i: int, j: int, c: (int, int) -> real, y: int -> real)
    requires 0 <= i < |w| && 0 <= j < m
    requires (forall k :: c(i, k) == At(w, i, k)) && forall k :: y(k) == At(v, k, j)
    ensures At(Mul(w, v, p, m), i, j) == Apply(c, y, p, i)
  {
    MulAt(w, v, p, m, i, j);
    SumEq(k => At(w, i, k) * At(v, k, j), k => c(i, k) * y(k), p);
  }

  lemma InputGradientEntry(w: Matrix, dz: Matrix, p: nat, m: nat, k: int, j: int, c: (int, int) -> real, x: int -> real)
    requires 0 <= k < p && 0 <= j < m
    requires (forall i :: c(i, k) == At(w, i, k)) && forall i :: x(i) == At(dz, i, j)
    ensures At(InputGradient(w, dz, p, m), k, j) == ApplyTransposed(c, x, |w|, k)
  {
    SumEq(i => At(w, i, k) * At(dz, i, j), i => c(i, k) * x(i), |w|);
  }

  lemma InputLeft(dz: Matrix, w: Matrix, v: Matrix, p: nat, m: nat, j: int, x: int -> real, c: (int, int) -> real, y: int -> real,
                  t: (int, int) -> real)
    requires 0 <= j < m && forall i, j :: t(i, j) == At(dz, i, j) * At(Mul(w, v, p, m), i, j)
    requires (forall i :: x(i) == At(dz, i, j)) && (forall i, k :: c(i, k) == At(w, i, k)) && forall k :: y(k) == At(v, k, j)
    ensures ColSum(t, j, |w|) == Sum(i => x(i) * Apply(c, y, p, i), |w|)
  {
    hide Mul, Apply, At;
    forall i | 0 <= i < |w| ensures t(i, j) == x(i) * Apply(c, y, p, i) { OutputEntry(w, v, p, m, i, j, c, y); }
    SumEq(i => t(i, j), i => x(i) * Apply(c, y, p, i), |w|);
  }

  lemma InputRight(dz: Matrix, w: Matrix, v: Matrix, p: nat, m: nat, j: int, x: int -> real, c: (int, int) -> real, y: int -> real,
                   u: (int, int) -> real)
    requires 0 <= j < m && forall k, j :: u(k, j) == At(InputGradient(w, dz, p, m), k, j) * At(v, k, j)
    requires (forall i :: x(i) == At(dz, i, j)) && (forall i, k :: c(i, k) == At(w, i, k)) && forall k :: y(k) == At(v, k, j)
    ensures ColSum(u, j, p) == Sum(k => y(k) * ApplyTransposed(c, x, |w|, k), p)
  {
    hide InputGradient, ApplyTransposed, At;
    forall k | 0 <= k < p ensures At(InputGradient(w, dz, p, m), k, j) == ApplyTransposed(c, x, |w|, k) {
      InputGradientEntry(w, dz, p, m, k, j, c, x);
    }
    SumEq(k => u(k, j), k => y(k) * ApplyTransposed(c, x, |w|, k), p);
  }

  /** A change of the inputs: <dz, w · v> = <wᵀ · dz, v>. */
  lemma InputAdjoint(dz: Matrix, w: Matrix, v: Matrix, p: nat, m: nat)
    requires |dz| == |w|
    ensures Inner(dz, Mul(w, v, p, m), |w|, m) == Inner(InputGradient(w, dz, p, m), v, p, m)
  {
    hide *;
    var t, u := Products(dz, Mul(w, v, p, m)), Products(InputGradient(w, dz, p, m), v);
    InnerByColumns(dz, Mul(w, v, p, m), |w|, m, t);
    InnerByColumns(InputGradient(w, dz, p, m), v, p, m, u);
    forall j | 0 <= j < m ensures ColSum(t, j, |w|) == ColSum(u, j, p) { InputColumn(dz, w, v, p, m, j, t, u); }
    SumEq(j => ColSum(t, j, |w|), j => ColSum(u, j, p), m);
  }

  /** A change of the weights: <dz, d · a> = m <dz · aᵀ / m, d>. */
  lemma WeightAdjoint(dz: Matrix, d: Matrix, a: Matrix, p: nat, m: nat)
    requires m > 0 && |dz| == |d|
    ensures Inner(dz, Mul(d, a, p, m), |d|, m) == m as real * Inner(WeightGradient(dz, a, p, m), d, |d|, p)
  {
    hide RowInner, Mul, WeightGradient;
    var q, g := Mul(d, a, p, m), WeightGradient(dz, a, p, m);
    forall i | 0 <= i < |d| ensures RowInner(dz, q, i, m) == m as real * RowInner(g, d, i, p) { WeightRow(dz, d, a, p, m, i); }
    SumScale(m as real, i => RowInner(g, d, i, p), i => RowInner(dz, q, i, m), |d|);
  }

  /** The bias in every column. */
  function Spread(e: Vector, cols: nat): (t: Matrix)
    ensures Shape(t, |e|, cols)
  {
    Build(|e|, cols, (i, j) => Of(e, i))
  }

  lemma BiasRow(dz: Matrix, e: Vector, m: nat, i: int)
    requires m > 0 && 0 <= i < |dz| == |e|
    ensures RowInner(dz, Spread(e, m), i, m) == m as real * (Of(BiasGradient(dz, m), i) * Of(e, i))
  {
    var t := Spread(e, m);
    SumScale(Of(e, i), j => At(dz, i, j), j => At(dz, i, j) * At(t, i, j), m);
    Quotient(Sum(j => At(dz, i, j), m), m as real, Of(e, i));
  }

  /** A change of the biases: <dz, e · 1ᵀ> = m <dz · 1 / m, e>. */
  lemma BiasAdjoint(dz: Matrix, e: Vector, m: nat)
    requires m > 0 && |dz| == |e|
    ensures Inner(dz, Spread(e, m), |e|, m) == m as real * InnerVectors(BiasGradient(dz, m), e, |e|)
  {
    hide RowInner, Spread, BiasGradient, Of;
    var t, g := Spread(e, m), BiasGradient(dz, m);
    forall i | 0 <= i < |e| ensures RowInner(dz, t, i, m) == m as real * (Of(g, i) * Of(e, i)) { BiasRow(dz, e, m, i); }
    SumScale(m as real, i => Of(g, i) * Of(e, i), i => RowInner(dz, t, i, m), |e|);
  }

  lemma RowInnerAdd(a: Matrix, b: Matrix, c: Matrix, t: Matrix, i: int, cols: nat)
    requires forall j :: 0 <= j < cols ==> At(t, i, j) == At(b, i, j) + At(c, i, j)
    ensures RowInner(a, t, i, cols) == RowInner(a, b, i, cols) + RowInner(a, c, i, cols)
  {
    forall j | 0 <= j < cols ensures At(a, i, j) * At(t, i, j) == At(a, i, j) * At(b, i, j) + At(a, i, j) * At(c, i, j) {
      Distribute(At(a, i, j), At(b, i, j), At(c, i, j));
    }
    SumAdd(j => At(a, i, j) * At(b, i, j), j => At(a, i, j) * At(c, i, j), j => At(a, i, j) * At(t, i, j), cols);
  }

  lemma InnerAdd(a: Matrix, b: Matrix, c: Matrix, t: Matrix, rows: nat, cols: nat)
    requires forall i, j :: 0 <= i < rows && 0 <= j < cols ==> At(t, i, j) == At(b, i, j) + At(c, i, j)
    ensures Inner(a, t, rows, cols) == Inner(a, b, rows, cols) + Inner(a, c, rows, cols)
  {
    hide RowInner, At;
    forall i | 0 <= i < rows ensures RowInner(a, t, i, cols) == RowInner(a, b, i, cols) + RowInner(a, c, i, cols) {
      RowInnerAdd(a, b, c, t, i, cols);
    }
    SumAdd(i => RowInner(a, b, i, cols), i => RowInner(a, c, i, cols), i => RowInner(a, t, i, cols), rows);
  }

  function Plus(a: Matrix, b: Matrix, rows: nat, cols: nat): (t: Matrix)
    ensures Shape(t, rows, cols)
    ensures forall i, j :: 0 <= i < rows && 0 <= j < cols ==> At(t, i, j) == At(a, i, j) + At(b, i, j)
  {
    Build(rows, cols, (i, j) => At(a, i, j) + At(b, i, j))
  }

  /** How w · x + b changes with the weights, the biases and the inputs, to first order. */
  function Tangent(w: Matrix, x: Matrix, dw: Matrix, db: Vector, dx: Matrix, p: nat, m: nat): (t: Matrix) {
    Plus(Plus(Mul(dw, x, p, m), Spread(db, m), |dw|, m), Mul(w, dx, p, m), |dw|, m)
  }

  /** What `backward` computes from dz is the adjoint of the affine step: whatever change of weights, biases and inputs
      is tried, its effect as dz sees it is what the gradients say. */
  lemma Adjoint(dz: Matrix, w: Matrix, x: Matrix, d: Matrix, e: Vector, v: Matrix, p: nat, m: nat)
    requires m > 0 && |dz| == |w| == |d| == |e|
    ensures Inner(dz, Tangent(w, x, d, e, v, p, m), |w|, m)
         == m as real * Inner(WeightGradient(dz, x, p, m), d, |w|, p)
            + m as real * InnerVectors(BiasGradient(dz, m), e, |w|)
            + Inner(InputGradient(w, dz, p, m), v, p, m)
  {
    var n := |w|;
    var a, b, c := Mul(d, x, p, m), Spread(e, m), Mul(w, v, p, m);
    var ab := Plus(a, b, n, m);
    hide Inner, Mul, Spread, Plus, At, WeightGradient, BiasGradient, InputGradient;
    InnerAdd(dz, ab, c, Plus(ab, c, n, m), n, m);
    InnerAdd(dz, a, b, ab, n, m);
    WeightAdjoint(dz, d, x, p, m);
    BiasAdjoint(dz, e, m);
    InputAdjoint(dz, w, v, p, m);
  }

  /** The tangent is the change of w · x + b up to the product of the two small changes. */
  lemma AffineChange(w: Matrix, b: Vector, x: Matrix, d: Matrix, e: Vector, v: Matrix, p: nat, m: nat, i: int, j: int)
    requires Shape(w, |w|, p) && Shape(d, |w|, p) && Shape(x, p, m) && Shape(v, p, m) && |b| == |e| == |w| && 0 <= i < |w| && 0 <= j < m
    ensures At(Affine(Plus(w, d, |w|, p), BuildVector(|w|, i => Of(b, i) + Of(e, i)), Plus(x, v, p, m), p, m), i, j)
         == At(Affine(w, b, x, p, m), i, j) + At(Tangent(w, x, d, e, v, p, m), i, j) + At(Mul(d, v, p, m), i, j)
  {
    var w', x', b' := Plus(w, d, |w|, p), Plus(x, v, p, m), BuildVector(|w|, i => Of(b, i) + Of(e, i));
    var wx, dx, wv, dv := Mul(w, x, p, m), Mul(d, x, p, m), Mul(w, v, p, m), Mul(d, v, p, m);
    FourProducts(w, d, x, v, w', x', p, i, j);
    MulAt(w, x, p, m, i, j);
    MulAt(d, x, p, m, i, j);
    MulAt(w, v, p, m, i, j);
    MulAt(d, v, p, m, i, j);
    assert At(Spread(e, m), i, j) == Of(e, i);
    assert Of(b', i) == Of(b, i) + Of(e, i);
  }

  lemma FourProducts(w: Matrix, d: Matrix, x: Matrix, v: Matrix, w': Matrix, x': Matrix, p: nat, i: int, j: int)
    requires forall k :: 0 <= k < p ==> At(w', i, k) == At(w, i, k) + At(d, i, k)
    requires forall k :: 0 <= k < p ==> At(x', k, j) == At(x, k, j) + At(v, k, j)
    ensures Sum(k => At(w', i, k) * At(x', k, j), p)
         == Sum(k => At(w, i, k) * At(x, k, j), p) + Sum(k => At(d, i, k) * At(x, k, j), p)
            + Sum(k => At(w, i, k) * At(v, k, j), p) + Sum(k => At(d, i, k) * At(v, k, j), p)
  {
    forall k | 0 <= k < p ensures At(w', i, k) * At(x', k, j) == At(w', i, k) * At(x, k, j) + At(w', i, k) * At(v, k, j) {
      Distribute(At(w', i, k), At(x, k, j), At(v, k, j));
    }
    SumAdd(k => At(w', i, k) * At(x, k, j), k => At(w', i, k) * At(v, k, j), k => At(w', i, k) * At(x', k, j), p);
    TwoProducts(w, d, w', x, p, i, j);
    TwoProducts(w, d, w', v, p, i, j);
  }

  lemma TwoProducts(w: Matrix, d: Matrix, w': Matrix, x: Matrix, p: nat, i: int, j: int)
    requires forall k :: 0 <= k < p ==> At(w', i, k) == At(w, i, k) + At(d, i, k)
    ensures Sum(k => At(w', i, k) * At(x, k, j), p)
         == Sum(k => At(w, i, k) * At(x, k, j), p) + Sum(k => At(d, i, k) * At(x, k, j), p)
  {
    forall k | 0 <= k < p ensures At(w', i, k) * At(x, k, j) == At(w, i, k) * At(x, k, j) + At(d, i, k) * At(x, k, j) {
      Distribute(At(x, k, j), At(w, i, k), At(d, i, k));
    }
    SumAdd(k => At(w, i, k) * At(x, k, j), k => At(d, i, k) * At(x, k, j), k => At(w', i, k) * At(x, k, j), p);
  }

  // ---------------------------------------------------------------- what columns that cancel conserve

  /** If every column of dz sums to zero, so do the gradients of the biases and of every column of the weights. */
  lemma ColumnsCancel(dz: Matrix, a: Matrix, inputs: nat, m: nat)
    requires m > 0 && forall j :: 0 <= j < m ==> ColumnSum(dz, j) == 0.0
    ensures VectorSum(BiasGradient(dz, m)) == 0.0
    ensures forall k :: 0 <= k < inputs ==> ColumnSum(WeightGradient(dz, a, inputs, m), k) == 0.0
  {
    hide ColumnSum, VectorSum, BiasGradient, WeightGradient;
    BiasCancels(dz, m);
    forall k | 0 <= k < inputs ensures ColumnSum(WeightGradient(dz, a, inputs, m), k) == 0.0 { WeightColumnCancels(dz, a, inputs, m, k); }
  }

  lemma Cancels(t: (int, int) -> real, rows: nat, cols: nat)
    requires forall j :: 0 <= j < cols ==> ColSum(t, j, rows) == 0.0
    ensures Sum(i => RowSum(t, i, cols), rows) == 0.0
  {
    Exchange(t, rows, cols);
    hide ColSum, RowSum;
    SumZero(j => ColSum(t, j, rows), cols);
  }

  lemma BiasCancels(dz: Matrix, m: nat)
    requires m > 0 && forall j :: 0 <= j < m ==> ColumnSum(dz, j) == 0.0
    ensures VectorSum(BiasGradient(dz, m)) == 0.0
  {
    hide Entries, BiasGradient, At, Of, ColSum, RowSum, ColumnSum;
    var t, g := Entries(dz), BiasGradient(dz, m);
    forall j | 0 <= j < m ensures ColSum(t, j, |dz|) == 0.0 { EntryColumn(dz, j, t); }
    Cancels(t, |dz|, m);
    forall i | 0 <= i < |dz| ensures m as real * Of(g, i) == RowSum(t, i, m) { EntryRow(dz, m, i, t); }
    SumScale(m as real, i => Of(g, i), i => RowSum(t, i, m), |dz|);
  }

  lemma EntryColumn(dz: Matrix, j: int, t: (int, int) -> real)
    requires ColumnSum(dz, j) == 0.0 && forall i :: t(i, j) == At(dz, i, j)
    ensures ColSum(t, j, |dz|) == 0.0
  {
    SumEq(i => t(i, j), i => At(dz, i, j), |dz|);
  }

  lemma EntryRow(dz: Matrix, m: nat, i: int, t: (int, int) -> real)
    requires m > 0 && 0 <= i < |dz| && forall j :: t(i, j) == At(dz, i, j)
    ensures m as real * Of(BiasGradient(dz, m), i) == RowSum(t, i, m)
  {
    SumEq(j => At(dz, i, j), j => t(i, j), m);
    assert m as real * (RowSum(t, i, m) / m as real) == RowSum(t, i, m);
  }

  lemma WeightColumnCancels(dz: Matrix, a: Matrix, inputs: nat, m: nat, k: int)
    requires m > 0 && 0 <= k < inputs && forall j :: 0 <= j < m ==> ColumnSum(dz, j) == 0.0
    ensures ColumnSum(WeightGradient(dz, a, inputs, m), k) == 0.0
  {
    hide Weighted, WeightGradient, At, ColSum, RowSum;
    var t, g := Weighted(dz, a, k), WeightGradient(dz, a, inputs, m);
    forall j | 0 <= j < m ensures ColSum(t, j, |dz|) == 0.0 { WeightedColumn(dz, a, k, j, t); }
    Cancels(t, |dz|, m);
    forall i | 0 <= i < |dz| ensures m as real * At(g, i, k) == RowSum(t, i, m) { WeightedRow(dz, a, inputs, m, i, k, t); }
    SumScale(m as real, i => At(g, i, k), i => RowSum(t, i, m), |dz|);
  }

  lemma WeightedColumn(dz: Matrix, a: Matrix, k: int, j: int, t: (int, int) -> real)
    requires ColumnSum(dz, j) == 0.0 && forall i :: t(i, j) == At(dz, i, j) * At(a, k, j)
    ensures ColSum(t, j, |dz|) == 0.0
  {
    SumScale(At(a, k, j), i => At(dz, i, j), i => t(i, j), |dz|);
  }

  lemma WeightedRow(dz: Matrix, a: Matrix, inputs: nat, m: nat, i: int, k: int, t: (int, int) -> real)
    requires m > 0 && 0 <= i < |dz| && 0 <= k < inputs && forall j :: t(i, j) == At(dz, i, j) * At(a, k, j)
    ensures m as real * At(WeightGradient(dz, a, inputs, m), i, k) == RowSum(t, i, m)
  {
    SumEq(j => At(dz, i, j) * At(a, k, j), j => t(i, j), m);
    assert m as real * (RowSum(t, i, m) / m as real) == RowSum(t, i, m);
  }

  function Weighted(dz: Matrix, a: Matrix, k: int): (t: (int, int) -> real)
    ensures forall i, j :: t(i, j) == At(dz, i, j) * At(a, k, j)
  {
    (i, j) => At(dz, i, j) * At(a, k, j)
  }
}
