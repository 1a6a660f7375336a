/** A dense layer: its forward pass, its two fast forward forms and its backward pass, without dropout and regularisation. */
module NeuralLayer {
  import opened NeuralSums
  import opened NeuralMath
  import opened NeuralSoftmax
  import opened NeuralGradient

  /** An activation of single numbers with its derivative, as a function of the activated value, or softmax. */
  datatype Activation = Elementwise(f: real -> real, derivative: real -> real) | Softmax(exp: real -> real)

  ghost predicate ValidActivation(act: Activation) {
    act.Softmax? ==> Exponential(act.exp)
  }

  /** activate of one number: softmax gives it back unchanged. */
  function ActivateScalar(act: Activation, x: real): real {
    if act.Elementwise? then act.f(x) else x
  }

  /** activate of a matrix. */
  ghost function ActivateMatrix(act: Activation, z: Matrix, m: nat): (a: Matrix)
    requires ValidActivation(act) && z != []
    ensures Shape(a, |z|, m)
  {
    if act.Elementwise? then Build(|z|, m, (i, j) => act.f(At(z, i, j))) else SoftmaxOf(act.exp, z, m)
  }

  /** The fast forms activate entry by entry. */
  function ActivateEntries(act: Activation, z: Matrix, m: nat): (a: Matrix)
    ensures Shape(a, |z|, m)
  {
    Build(|z|, m, (i, j) => ActivateScalar(act, At(z, i, j)))
  }

  /** For an activation of single numbers that makes no difference; with softmax the fast forms give its input. */
  lemma FastForm(act: Activation, z: Matrix, m: nat)
    requires ValidActivation(act) && z != [] && Shape(z, |z|, m)
    ensures ActivateEntries(act, z, m) == if act.Elementwise? then ActivateMatrix(act, z, m) else z
  {
    if act.Elementwise? {
      SameMatrix(ActivateEntries(act, z, m), ActivateMatrix(act, z, m), |z|, m);
    } else {
      SameMatrix(ActivateEntries(act, z, m), z, |z|, m);
    }
  }

  /** dz: what the loss changes with the layer's z. */
  function DeltaOf(act: Activation, a: Matrix, da: Matrix, m: nat): Matrix {
    if act.Softmax? then da else Build(|a|, m, (i, j) => act.derivative(At(a, i, j)) * At(da, i, j))
  }

  /** An entry of dz · aᵀ. */
  lemma TransposedProduct(dz: Matrix, a: Matrix, m: nat, inputs: nat, i: int, k: int)
    requires Shape(a, inputs, m) && 0 <= i < |dz| && 0 <= k < inputs
    ensures At(Mul(dz, Transposed(a, inputs, m), m, inputs), i, k) == Sum(j => At(dz, i, j) * At(a, k, j), m)
  {
    var t := Transposed(a, inputs, m);
    MulAt(dz, t, m, inputs, i, k);
    SumEq(j => At(dz, i, j) * At(t, j, k), j => At(dz, i, j) * At(a, k, j), m);
  }

  /** An entry of wᵀ · dz. */
  lemma ProductTransposed(w: Matrix, dz: Matrix, n: nat, inputs: nat, m: nat, k: int, j: int)
    requires Shape(w, n, inputs) && 0 <= k < inputs && 0 <= j < m
    ensures At(Mul(Transposed(w, n, inputs), dz, n, m), k, j) == Sum(i => At(w, i, k) * At(dz, i, j), n)
  {
    var t := Transposed(w, n, inputs);
    MulAt(t, dz, n, m, k, j);
    SumEq(i => At(t, k, i) * At(dz, i, j), i => At(w, i, k) * At(dz, i, j), n);
  }

  /** x - rate * g. */
  function StepMatrix(x: Matrix, g: Matrix, rate: real, cols: nat): (r: Matrix)
    ensures Shape(r, |x|, cols)
  {
    Build(|x|, cols, (i, j) => At(x, i, j) - At(g, i, j) * rate)
  }

  function StepVector(x: Vector, g: Vector, rate: real): (r: Vector)
    ensures |r| == |x|
  {
    BuildVector(|x|, i => Of(x, i) - Of(g, i) * rate)
  }

  lemma StepEntries(x: Matrix, g: Matrix, rate: real, cols: nat, v: Vector, h: Vector)
    requires Shape(x, |x|, cols) && Shape(g, |x|, cols) && |h| == |v|
    ensures forall i, k :: 0 <= i < |x| && 0 <= k < cols ==> StepMatrix(x, g, rate, cols)[i][k] == x[i][k] - rate * g[i][k]
    ensures forall i :: 0 <= i < |v| ==> StepVector(v, h, rate)[i] == v[i] - rate * h[i]
  {
  }

  /** A step against gradients whose columns sum to zero leaves the column sums as they are. */
  lemma StepKeepsColumn(x: Matrix, g: Matrix, rate: real, cols: nat, j: int)
    requires |g| == |x| && 0 <= j < cols && ColumnSum(g, j) == 0.0
    ensures ColumnSum(StepMatrix(x, g, rate, cols), j) == ColumnSum(x, j)
  {
    var r := StepMatrix(x, g, rate, cols);
    SumScale(rate, i => At(g, i, j), i => At(g, i, j) * rate, |x|);
    SumAdd(i => At(r, i, j), i => At(g, i, j) * rate, i => At(x, i, j), |x|);
  }

  lemma StepKeepsSum(x: Vector, g: Vector, rate: real)
    requires |g| == |x| && VectorSum(g) == 0.0
    ensures VectorSum(StepVector(x, g, rate)) == VectorSum(x)
  {
    var r := StepVector(x, g, rate);
    SumScale(rate, i => Of(g, i), i => Of(g, i) * rate, |x|);
    SumAdd(i => Of(r, i), i => Of(g, i) * rate, i => Of(x, i), |x|);
  }

  // ---------------------------------------------------------------- the step goes downhill

  function Difference(a: Matrix, b: Matrix, rows: nat, cols: nat): (t: Matrix)
    ensures Shape(t, rows, cols)
    ensures forall i, j :: 0 <= i < rows && 0 <= j < cols ==> At(t, i, j) == At(a, i, j) - At(b, i, j)
  {
    Build(rows, cols, (i, j) => At(a, i, j) - At(b, i, j))
  }

  /** How far downhill a step goes: by rate * m times the squares of the gradients. */
  function Descent(dw: Matrix, db: Vector, rate: real, n: nat, p: nat, m: nat): real {
    -(rate * m as real * (Inner(dw, dw, n, p) + InnerVectors(db, db, n)))
  }

  /** A step moves what the layer computes for the same inputs against dz. */
  lemma StepDescends(dz: Matrix, x: Matrix, w: Matrix, b: Vector, w': Matrix, b': Vector, rate: real, p: nat, m: nat)
    requires m > 0 && |dz| == |w| == |b| && Shape(w, |w|, p) && Shape(x, p, m)
    requires w' == StepMatrix(w, WeightGradient(dz, x, p, m), rate, p) && b' == StepVector(b, BiasGradient(dz, m), rate)
    ensures var dw, db := WeightGradient(dz, x, p, m), BiasGradient(dz, m);
            Inner(dz, Difference(Affine(w', b', x, p, m), Affine(w, b, x, p, m), |w|, m), |w|, m) ==
              Descent(dw, db, rate, |w|, p, m)
  {
    var n, dw, db := |w|, WeightGradient(dz, x, p, m), BiasGradient(dz, m);
    var d, e := Against(dw, rate, n, p), AgainstVector(db, rate, n);
    var t := Difference(Affine(w', b', x, p, m), Affine(w, b, x, p, m), n, m);
    hide *;
    StepMoves(w, b, w', b', dw, db, x, rate, p, m);
    InnerOfStep(dz, x, d, e, t, rate, n, p, m);
  }

  /** What a step changes. */
  function Against(g: Matrix, rate: real, rows: nat, cols: nat): (d: Matrix)
    ensures |d| == rows && forall i, k :: 0 <= i < rows && 0 <= k < cols ==> At(d, i, k) == -rate * At(g, i, k)
  {
    Build(rows, cols, (i, k) => -rate * At(g, i, k))
  }

  function AgainstVector(g: Vector, rate: real, n: nat): (e: Vector)
    ensures |e| == n && forall i :: 0 <= i < n ==> Of(e, i) == -rate * Of(g, i)
  {
    BuildVector(n, i => -rate * Of(g, i))
  }

  lemma StepMoves(w: Matrix, b: Vector, w': Matrix, b': Vector, dw: Matrix, db: Vector, x: Matrix, rate: real, p: nat, m: nat)
    requires w' == StepMatrix(w, dw, rate, p) && b' == StepVector(b, db, rate) && |b| == |w|
    ensures var n := |w|;
            var d, e := Against(dw, rate, n, p), AgainstVector(db, rate, n);
            var t := Difference(Affine(w', b', x, p, m), Affine(w, b, x, p, m), n, m);
            forall i, j :: 0 <= i < n && 0 <= j < m ==> At(t, i, j) == At(Mul(d, x, p, m), i, j) + At(Spread(e, m), i, j)
  {
    var n := |w|;
    var d, e := Against(dw, rate, n, p), AgainstVector(db, rate, n);
    var t := Difference(Affine(w', b', x, p, m), Affine(w, b, x, p, m), n, m);
    forall i, k | 0 <= i < n && 0 <= k < p ensures At(w', i, k) == At(w, i, k) + At(d, i, k) {}
    hide Affine, Mul, Spread, Against, AgainstVector, StepMatrix;
    forall i, j | 0 <= i < n && 0 <= j < m ensures At(t, i, j) == At(Mul(d, x, p, m), i, j) + At(Spread(e, m), i, j) {
      AffineMoves(w, b, w', b', d, e, x, p, m, i, j);
    }
  }

  lemma InnerOfStep(dz: Matrix, x: Matrix, d: Matrix, e: Vector, t: Matrix, rate: real, n: nat, p: nat, m: nat)
    requires m > 0 && |dz| == n && d == Against(WeightGradient(dz, x, p, m), rate, n, p) && e == AgainstVector(BiasGradient(dz, m), rate, n)
    requires forall i, j :: 0 <= i < n && 0 <= j < m ==> At(t, i, j) == At(Mul(d, x, p, m), i, j) + At(Spread(e, m), i, j)
    ensures var dw, db := WeightGradient(dz, x, p, m), BiasGradient(dz, m);
            Inner(dz, t, n, m) == Descent(dw, db, rate, n, p, m)
  {
    hide *;
    var dw, db := WeightGradient(dz, x, p, m), BiasGradient(dz, m);
    InnerMinus(dw, d, rate, n, p);
    InnerVectorsMinus(db, e, rate, n);
    InnerAdd(dz, Mul(d, x, p, m), Spread(e, m), t, n, m);
    WeightAdjoint(dz, d, x, p, m);
    BiasAdjoint(dz, e, m);
    Gathered(m as real, rate, Inner(dw, dw, n, p), InnerVectors(db, db, n), Inner(dw, d, n, p), InnerVectors(db, e, n),
             Inner(dz, Mul(d, x, p, m), n, m), Inner(dz, Spread(e, m), n, m));
    DescentIs(dw, db, rate, n, p, m);
  }

  lemma DescentIs(dw: Matrix, db: Vector, rate: real, n: nat, p: nat, m: nat)
    ensures Descent(dw, db, rate, n, p, m) == -(rate * m as real * (Inner(dw, dw, n, p) + InnerVectors(db, db, n)))
  {
  }

  lemma Gathered(m: real, rate: real, a: real, c: real, da: real, dc: real, x: real, y: real)
    requires da == -rate * a && dc == -rate * c && x == m * da && y == m * dc
    ensures x + y == -(rate * m * (a + c))
  {
    Factored(m, rate, a, c);
  }

  lemma Factored(m: real, rate: real, a: real, b: real)
    ensures m * (-rate * a) + m * (-rate * b) == -(rate * m * (a + b))
  {
  }

  lemma AffineMoves(w: Matrix, b: Vector, w': Matrix, b': Vector, d: Matrix, e: Vector, x: Matrix, p: nat, m: nat, i: int, j: int)
    requires |w'| == |w| && |d| == |w| && |e| == |w| && 0 <= i < |w| && 0 <= j < m
    requires forall k :: 0 <= k < p ==> At(w', i, k) == At(w, i, k) + At(d, i, k)
    requires Of(b', i) == Of(b, i) + Of(e, i)
    ensures At(Affine(w', b', x, p, m), i, j) - At(Affine(w, b, x, p, m), i, j) == At(Mul(d, x, p, m), i, j) + At(Spread(e, m), i, j)
  {
    MulAt(d, x, p, m, i, j);
    forall k | 0 <= k < p ensures At(w', i, k) * At(x, k, j) == At(w, i, k) * At(x, k, j) + At(d, i, k) * At(x, k, j) {
      Distribute(At(x, k, j), At(w, i, k), At(d, i, k));
    }
    SumAdd(k => At(w, i, k) * At(x, k, j), k => At(d, i, k) * At(x, k, j), k => At(w', i, k) * At(x, k, j), p);
  }

  lemma InnerMinus(a: Matrix, d: Matrix, rate: real, rows: nat, cols: nat)
    requires forall i, k :: 0 <= i < rows && 0 <= k < cols ==> At(d, i, k) == -rate * At(a, i, k)
    ensures Inner(a, d, rows, cols) == -rate * Inner(a, a, rows, cols)
  {
    forall i | 0 <= i < rows ensures RowInner(a, d, i, cols) == -rate * RowInner(a, a, i, cols) {
      RowMinus(a, d, rate, i, cols);
    }
    hide RowInner, At;
    SumScale(-rate, i => RowInner(a, a, i, cols), i => RowInner(a, d, i, cols), rows);
  }

  lemma RowMinus(a: Matrix, d: Matrix, rate: real, i: int, cols: nat)
    requires forall k :: 0 <= k < cols ==> At(d, i, k) == -rate * At(a, i, k)
    ensures RowInner(a, d, i, cols) == -rate * RowInner(a, a, i, cols)
  {
    hide At;
    forall k | 0 <= k < cols ensures At(a, i, k) * At(d, i, k) == -rate * (At(a, i, k) * At(a, i, k)) { Pulled(At(a, i, k), rate); }
    SumScale(-rate, k => At(a, i, k) * At(a, i, k), k => At(a, i, k) * At(d, i, k), cols);
  }

  lemma InnerVectorsMinus(a: Vector, e: Vector, rate: real, n: nat)
    requires forall i :: 0 <= i < n ==> Of(e, i) == -rate * Of(a, i)
    ensures InnerVectors(a, e, n) == -rate * InnerVectors(a, a, n)
  {
    forall i | 0 <= i < n ensures Of(a, i) * Of(e, i) == -rate * (Of(a, i) * Of(a, i)) { Pulled(Of(a, i), rate); }
    SumScale(-rate, i => Of(a, i) * Of(a, i), i => Of(a, i) * Of(e, i), n);
  }

  lemma Pulled(x: real, rate: real)
    ensures x * (-rate * x) == -rate * (x * x)
  {
  }

  lemma {:induction false} SumOfSquares(f: int -> real, n: nat)
    requires forall i :: 0 <= i < n ==> f(i) >= 0.0
    ensures Sum(f, n) >= 0.0 && (Sum(f, n) == 0.0 <==> forall i :: 0 <= i < n ==> f(i) == 0.0)
  {
    if n > 0 { SumOfSquares(f, n - 1); }
  }

  function Sq(x: real): real { x * x }

  lemma SqIs(x: real)
    ensures Sq(x) == x * x
  {
  }

  lemma SqSign(x: real)
    ensures x == 0.0 ==> Sq(x) == 0.0
    ensures x != 0.0 ==> Sq(x) > 0.0
  {
    if x == 0.0 {
      ZeroTimes(x);
    } else {
      hide *;
      if x > 0.0 { PositiveSquare(x); } else { NegativeSquare(x); }
    }
  }

  lemma PositiveSquare(x: real)
    requires x > 0.0
    ensures Sq(x) > 0.0
  {
    calc {
      Sq(x);
      x * x;
    > 0.0 * x;
      0.0;
    }
  }

  lemma NegativeSquare(x: real)
    requires x < 0.0
    ensures Sq(x) > 0.0
  {
    hide *;
    var y := -x;
    PositiveSquare(y);
    SameSquare(x, y);
  }

  lemma SameSquare(x: real, y: real)
    requires y == -x
    ensures Sq(x) == Sq(y)
  {
  }

  lemma ZeroTimes(x: real)
    ensures 0.0 * x == 0.0
  {
  }

  /** The squares of a gradient are positive unless it is zero everywhere. */
  lemma GradientSquares(a: Matrix, rows: nat, cols: nat)
    ensures Inner(a, a, rows, cols) >= 0.0
    ensures Inner(a, a, rows, cols) == 0.0 <==> forall i, k :: 0 <= i < rows && 0 <= k < cols ==> At(a, i, k) == 0.0
  {
    hide RowInner, At;
    forall i | 0 <= i < rows ensures RowInner(a, a, i, cols) >= 0.0 && (RowInner(a, a, i, cols) == 0.0 <==> ZeroRow(a, i, cols)) {
      RowSquares(a, i, cols);
    }
    var g := i => RowInner(a, a, i, cols);
    SumOfSquares(g, rows);
    assert forall i :: g(i) == RowInner(a, a, i, cols);
    assert Inner(a, a, rows, cols) == 0.0 <==> forall i :: 0 <= i < rows ==> ZeroRow(a, i, cols);
    ZeroRows(a, rows, cols);
  }

  lemma ZeroRows(a: Matrix, rows: nat, cols: nat)
    ensures (forall i :: 0 <= i < rows ==> ZeroRow(a, i, cols)) <==> forall i, k :: 0 <= i < rows && 0 <= k < cols ==> At(a, i, k) == 0.0
  {
    hide At;
    if forall i, k :: 0 <= i < rows && 0 <= k < cols ==> At(a, i, k) == 0.0 {
      forall i | 0 <= i < rows ensures ZeroRow(a, i, cols) {}
    }
    if forall i :: 0 <= i < rows ==> ZeroRow(a, i, cols) {
      forall i, k | 0 <= i < rows && 0 <= k < cols ensures At(a, i, k) == 0.0 { assert ZeroRow(a, i, cols); }
    }
  }

  predicate ZeroRow(a: Matrix, i: int, cols: nat) {
    forall k :: 0 <= k < cols ==> At(a, i, k) == 0.0
  }

  lemma RowSquares(a: Matrix, i: int, cols: nat)
    ensures RowInner(a, a, i, cols) >= 0.0 && (RowInner(a, a, i, cols) == 0.0 <==> ZeroRow(a, i, cols))
  {
    forall k | 0 <= k < cols ensures At(a, i, k) * At(a, i, k) == Sq(At(a, i, k)) { SqIs(At(a, i, k)); }
    SumEq(k => At(a, i, k) * At(a, i, k), k => Sq(At(a, i, k)), cols);
    hide Sq, At;
    var f := k => Sq(At(a, i, k));
    forall k | 0 <= k < cols ensures if At(a, i, k) == 0.0 then f(k) == 0.0 else f(k) > 0.0 { SqSign(At(a, i, k)); }
    SumOfSquares(f, cols);
  }

  lemma BiasSquares(a: Vector, n: nat)
    ensures InnerVectors(a, a, n) >= 0.0
    ensures InnerVectors(a, a, n) == 0.0 <==> forall i :: 0 <= i < n ==> Of(a, i) == 0.0
  {
    forall i | 0 <= i < n ensures Of(a, i) * Of(a, i) == Sq(Of(a, i)) { SqIs(Of(a, i)); }
    SumEq(i => Of(a, i) * Of(a, i), i => Sq(Of(a, i)), n);
    hide Sq, Of;
    var f := i => Sq(Of(a, i));
    forall i | 0 <= i < n ensures if Of(a, i) == 0.0 then f(i) == 0.0 else f(i) > 0.0 { SqSign(Of(a, i)); }
    SumOfSquares(f, n);
  }

  /** So with a positive rate the step goes downhill, and stands still exactly where both gradients vanish. */
  lemma Downhill(dw: Matrix, db: Vector, rate: real, n: nat, p: nat, m: nat)
    requires rate > 0.0 && m > 0
    ensures Descent(dw, db, rate, n, p, m) == -(rate * m as real * (Inner(dw, dw, n, p) + InnerVectors(db, db, n)))
    ensures var move := Descent(dw, db, rate, n, p, m);
            && move <= 0.0
            && (move == 0.0 <==> (forall i, k :: 0 <= i < n && 0 <= k < p ==> At(dw, i, k) == 0.0) && forall i :: 0 <= i < n ==> Of(db, i) == 0.0)
  {
    GradientSquares(dw, n, p);
    BiasSquares(db, n);
    hide Inner, InnerVectors, At, Of;
    var squares, r := Inner(dw, dw, n, p) + InnerVectors(db, db, n), rate * m as real;
    assert r > 0.0 by { PositiveProduct(rate, m as real); }
    if squares > 0.0 { PositiveProduct(r, squares); }
  }

  lemma PositiveProduct(x: real, y: real)
    requires x > 0.0 && y > 0.0
    ensures x * y > 0.0
  {
  }

  /** What `backward` makes of da is its adjoint as well: whatever change of z is tried, da sees its effect on a as dz
      sees the change. */
  lemma DeltaAdjoint(act: Activation, a: Matrix, da: Matrix, t: Matrix, rows: nat, m: nat)
    requires act.Elementwise? && Shape(a, rows, m)
    ensures Inner(DeltaOf(act, a, da, m), t, rows, m)
         == Inner(da, Build(rows, m, (i, j) => act.derivative(At(a, i, j)) * At(t, i, j)), rows, m)
  {
    var dz, u := DeltaOf(act, a, da, m), Build(rows, m, (i, j) => act.derivative(At(a, i, j)) * At(t, i, j));
    forall i | 0 <= i < rows ensures RowInner(dz, t, i, m) == RowInner(da, u, i, m) {
      forall j | 0 <= j < m ensures At(dz, i, j) * At(t, i, j) == At(da, i, j) * At(u, i, j) {
        Reordered(act.derivative(At(a, i, j)), At(da, i, j), At(t, i, j));
      }
      SumEq(j => At(dz, i, j) * At(t, i, j), j => At(da, i, j) * At(u, i, j), m);
    }
    SumEq(i => RowInner(dz, t, i, m), i => RowInner(da, u, i, m), rows);
  }

  lemma Reordered(x: real, y: real, z: real)
    ensures (x * y) * z == y * (x * z)
  {
  }

  /** activate of a matrix, entry by entry unless it is softmax. */
  method ActivateAll(act: Activation, z: Matrix, m: nat) returns (r: Matrix)
    requires ValidActivation(act) && z != [] && Shape(z, |z|, m)
    ensures r == ActivateMatrix(act, z, m)
  {
    if act.Softmax? {
      r := Activate(act.exp, z);
      return;
    }
    var h := act.f;
    ghost var f := (i, j) => h(At(z, i, j));
    r := Zeros(|z|, m);
    var i := 0;
    while i < |z|
      invariant Filled(r, |z|, m, f, i, 0)
    {
      var j := 0;
      while j < m
        invariant Filled(r, |z|, m, f, i, j)
      {
        Put(r, |z|, m, f, i, j);
        assert At(z, i, j) == z[i][j];
        r := r[i := r[i][j := h(z[i][j])]];
        j := j + 1;
      }
      NextRow(r, |z|, m, f, i);
      i := i + 1;
    }
    AllFilled(r, |z|, m, f);
    SameMatrix(r, ActivateMatrix(act, z, m), |z|, m);
  }

  method SteppedMatrix(x: Matrix, g: Matrix, rate: real) returns (r: Matrix)
    requires Rectangular(x) && Shape(g, |x|, |x[0]|)
    ensures r == StepMatrix(x, g, rate, |x[0]|)
  {
    var s := Scale(g, rate);
    var d := Subtract(x, s);
    r := d.value;
    SameMatrix(r, StepMatrix(x, g, rate, |x[0]|), |x|, |x[0]|);
  }

  method SteppedVector(x: Vector, g: Vector, rate: real) returns (r: Vector)
    requires |x| == |g|
    ensures r == StepVector(x, g, rate)
  {
    var s := ScaleVector(g, rate);
    var d := SubtractVector(x, s);
    r := d.value;
  }

  class DenseLayer {
    const inputSize: nat
    const outputSize: nat
    const learningRate: real
    const activation: Activation
    var w: Matrix
    var b: Vector
    var dw: Matrix
    var db: Vector
    var z: Matrix
    var a: Matrix
    var aPrev: Matrix

    ghost predicate Valid()
      reads this`w, this`b
    {
      inputSize > 0 && outputSize > 0 && Shape(w, outputSize, inputSize) && |b| == outputSize && ValidActivation(activation)
    }

    /** The values that a forward pass over `m` examples keeps are there. */
    ghost predicate Primed(m: nat)
      reads this`a, this`aPrev
    {
      Shape(a, outputSize, m) && Shape(aPrev, inputSize, m)
    }

    /** It was fed with `x`. */
    ghost predicate Keeps(x: Matrix, m: nat)
      reads this`a, this`aPrev
    {
      Primed(m) && aPrev == x
    }

    /** It has made one step from `w0` and `b0` against the gradients that `dz` gives. */
    ghost predicate Stepped(w0: Matrix, b0: Vector, dz: Matrix, m: nat)
      requires m > 0
      reads this`w, this`b, this`aPrev
    {
      && w == StepMatrix(w0, WeightGradient(dz, aPrev, inputSize, m), learningRate, inputSize)
      && b == StepVector(b0, BiasGradient(dz, m), learningRate)
    }

    ghost function Z(x: Matrix, m: nat): (z: Matrix)
      reads this`w, this`b
      ensures Shape(z, |w|, m)
    {
      Affine(w, b, x, inputSize, m)
    }

    ghost function Output(x: Matrix, m: nat): (a: Matrix)
      requires Valid()
      reads this`w, this`b
      ensures Shape(a, outputSize, m)
    {
      ActivateMatrix(activation, Z(x, m), m)
    }

    ghost function Delta(da: Matrix, m: nat): Matrix
      reads this`a
    {
      DeltaOf(activation, a, da, m)
    }

    /** A layer with weights `w` drawn at random, and no biases. */
    constructor (w: Matrix, inputSize: nat, outputSize: nat, learningRate: real, activation: Activation)
      requires inputSize > 0 && outputSize > 0 && Shape(w, outputSize, inputSize) && ValidActivation(activation)
      ensures Valid() && this.w == w && VectorSum(b) == 0.0
      ensures this.inputSize == inputSize && this.outputSize == outputSize && this.activation == activation
    {
      this.w, this.inputSize, this.outputSize, this.learningRate, this.activation := w, inputSize, outputSize, learningRate, activation;
      b := seq(outputSize, _ => 0.0);
      dw, db := Zeros(outputSize, inputSize), seq(outputSize, _ => 0.0);
      z, a, aPrev := [], [], [];
      new;
      var zeros := b;
      SumZero(i => Of(zeros, i), outputSize);
    }

    method Forward(input: Matrix) returns (r: Matrix)
      requires Valid() && Rectangular(input) && |input| == inputSize && |input[0]| > 0
      modifies this`z, this`a, this`aPrev
      ensures z == Z(input, |input[0]|) && a == Output(input, |input[0]|) == r && Keeps(input, |input[0]|)
    {
      var m := |input[0]|;
      var p := DotProduct(w, input);
      var s := AddVector(p.value, b);
      z := s.value;
      SameMatrix(z, Z(input, m), outputSize, m);
      a := ActivateAll(activation, z, m);
      aPrev := input;
      return a;
    }

    /** The fast form of prediction, one entry after the other. */
    method Predict(input: Matrix) returns (result: Matrix)
      requires Valid() && Rectangular(input) && |input| == inputSize && |input[0]| > 0
      ensures result == ActivateEntries(activation, Z(input, |input[0]|), |input[0]|)
    {
      var m := |input[0]|;
      ghost var zs := Z(input, m);
      ghost var f := (i, j) => ActivateScalar(activation, At(zs, i, j));
      result := Zeros(outputSize, m);
      var i := 0;
      while i < outputSize
        invariant Filled(result, outputSize, m, f, i, 0)
      {
        var j := 0;
        while j < m
          invariant Filled(result, outputSize, m, f, i, j)
        {
          var sum := DotEntry(w, input, i, j, inputSize);
          Put(result, outputSize, m, f, i, j);
          result := result[i := result[i][j := ActivateScalar(activation, sum + b[i])]];
          j := j + 1;
        }
        NextRow(result, outputSize, m, f, i);
        i := i + 1;
      }
      AllFilled(result, outputSize, m, f);
    }

    /** The fast form of the forward pass. */
    method ForwardOpt(input: Matrix) returns (r: Matrix)
      requires Valid() && Rectangular(input) && |input| == inputSize && |input[0]| > 0
      modifies this`z, this`a, this`aPrev
      ensures z == Z(input, |input[0]|) && aPrev == input
      ensures a == ActivateEntries(activation, Z(input, |input[0]|), |input[0]|) == r
    {
      var m := |input[0]|;
      ghost var zs := Z(input, m);
      ghost var f, g := (i, j) => At(zs, i, j), (i, j) => ActivateScalar(activation, At(zs, i, j));
      var z', a' := Zeros(outputSize, m), Zeros(outputSize, m);
      var i := 0;
      while i < outputSize
        invariant Filled(z', outputSize, m, f, i, 0) && Filled(a', outputSize, m, g, i, 0)
      {
        var j := 0;
        while j < m
          invariant Filled(z', outputSize, m, f, i, j) && Filled(a', outputSize, m, g, i, j)
        {
          var val := DotEntry(w, input, i, j, inputSize);
          Put(z', outputSize, m, f, i, j);
          Put(a', outputSize, m, g, i, j);
          z' := z'[i := z'[i][j := val + b[i]]];
          a' := a'[i := a'[i][j := ActivateScalar(activation, val + b[i])]];
          j := j + 1;
        }
        NextRow(z', outputSize, m, f, i);
        NextRow(a', outputSize, m, g, i);
        i := i + 1;
      }
      AllFilled(z', outputSize, m, f);
      AllFilled(a', outputSize, m, g);
      SameMatrix(z', zs, outputSize, m);
      z, a, aPrev := z', a', input;
      return a;
    }

    /** dz from da: the same with softmax, else weighted by the derivative. */
    method DeltaFrom(da: Matrix, m: nat) returns (dz: Matrix)
      requires Shape(a, outputSize, m) && Shape(da, outputSize, m) && m > 0 && outputSize > 0
      ensures dz == Delta(da, m) && Shape(dz, outputSize, m)
    {
      if activation.Softmax? { return da; }
      var h, a' := activation.derivative, a;
      ghost var f := (i, j) => h(At(a', i, j));
      var d := Zeros(outputSize, m);
      var i := 0;
      while i < outputSize
        invariant Filled(d, outputSize, m, f, i, 0)
      {
        var j := 0;
        while j < m
          invariant Filled(d, outputSize, m, f, i, j)
        {
          Put(d, outputSize, m, f, i, j);
          assert At(a', i, j) == a'[i][j];
          d := d[i := d[i][j := h(a'[i][j])]];
          j := j + 1;
        }
        NextRow(d, outputSize, m, f, i);
        i := i + 1;
      }
      AllFilled(d, outputSize, m, f);
      var r := Product(d, da);
      dz := r.value;
      SameMatrix(dz, Delta(da, m), outputSize, m);
    }

    /** One step against the gradients; what is passed on comes from the weights before the step. */
    method Backward(da: Matrix) returns (daPrev: Matrix)
      requires Valid() && Rectangular(da) && |da| == outputSize && |da[0]| > 0 && Primed(|da[0]|)
      modifies this`w, this`b, this`dw, this`db
      ensures Valid()
      ensures daPrev == InputGradient(old(w), old(Delta(da, |da[0]|)), inputSize, |da[0]|)
      ensures Stepped(old(w), old(b), old(Delta(da, |da[0]|)), |da[0]|)
      ensures dw == WeightGradient(old(Delta(da, |da[0]|)), aPrev, inputSize, |da[0]|) && db == BiasGradient(old(Delta(da, |da[0]|)), |da[0]|)
      ensures forall i, k :: 0 <= i < outputSize && 0 <= k < inputSize ==> w[i][k] == old(w)[i][k] - learningRate * dw[i][k]
      ensures forall i :: 0 <= i < outputSize ==> b[i] == old(b)[i] - learningRate * db[i]
      ensures var m := |da[0]|;
              Inner(old(Delta(da, m)), Difference(Z(aPrev, m), old(Z(aPrev, m)), outputSize, m), outputSize, m) ==
                Descent(dw, db, learningRate, outputSize, inputSize, m)
    {
      hide WeightGradient, BiasGradient, InputGradient, StepMatrix, StepVector, DeltaOf, Inner, InnerVectors, Affine, Difference, Descent;
      var m := |da[0]|;
      var dz := DeltaFrom(da, m);
      dw := WeightGradientOf(dz, m);
      db := BiasGradientOf(dz, m);
      daPrev := InputGradientOf(dz, m);
      var w' := SteppedMatrix(w, dw, learningRate);
      var b' := SteppedVector(b, db, learningRate);
      StepDescends(dz, aPrev, w, b, w', b', learningRate, inputSize, m);
      StepEntries(w, dw, learningRate, inputSize, b, db);
      w, b := w', b';
    }

    method WeightGradientOf(dz: Matrix, m: nat) returns (r: Matrix)
      requires Shape(aPrev, inputSize, m) && Shape(dz, outputSize, m) && m > 0 && inputSize > 0 && outputSize > 0
      ensures r == WeightGradient(dz, aPrev, inputSize, m)
    {
      var t := Transpose(aPrev);
      var p := DotProduct(dz, t.value);
      r := Divide(p.value, m as real);
      ghost var a' := aPrev;
      forall i, k | 0 <= i < outputSize && 0 <= k < inputSize ensures r[i][k] == WeightGradient(dz, a', inputSize, m)[i][k] {
        TransposedProduct(dz, a', m, inputSize, i, k);
      }
      SameMatrix(r, WeightGradient(dz, aPrev, inputSize, m), outputSize, inputSize);
    }

    method BiasGradientOf(dz: Matrix, m: nat) returns (r: Vector)
      requires Shape(dz, outputSize, m) && m > 0 && outputSize > 0
      ensures r == BiasGradient(dz, m)
    {
      var ones := seq(m, _ => 1.0);
      var p := DotVector(dz, ones);
      r := DivideVector(p.value, m as real);
      forall i | 0 <= i < outputSize ensures r[i] == BiasGradient(dz, m)[i] {
        SumEq(k => At(dz, i, k) * Of(ones, k), k => At(dz, i, k), m);
      }
      assert r == BiasGradient(dz, m);
    }

    method InputGradientOf(dz: Matrix, m: nat) returns (r: Matrix)
      requires Valid() && Shape(dz, outputSize, m) && m > 0
      ensures r == InputGradient(w, dz, inputSize, m)
    {
      var t := Transpose(w);
      var p := DotProduct(t.value, dz);
      r := p.value;
      ghost var w' := w;
      forall k, j | 0 <= k < inputSize && 0 <= j < m ensures r[k][j] == InputGradient(w', dz, inputSize, m)[k][j] {
        ProductTransposed(w', dz, outputSize, inputSize, m, k, j);
      }
      SameMatrix(r, InputGradient(w, dz, inputSize, m), inputSize, m);
    }
  }
}
