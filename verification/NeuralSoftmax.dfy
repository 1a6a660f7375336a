/** Softmax, categorical cross entropy and accuracy on the columns of a matrix. */
module NeuralSoftmax {
  import opened NeuralSums
  import opened NeuralMath

  /** What is used of the exponential function. */
  ghost predicate Exponential(exp: real -> real) {
    (forall x :: exp(x) > 0.0) && forall x, y :: x < y ==> exp(x) < exp(y)
  }

  // ---------------------------------------------------------------- columns

  /** The row of the first of the largest entries among the first `n` of column `j`. */
  function Argmax(m: Matrix, j: int, n: nat): (r: nat)
    requires n > 0
    ensures r < n
  {
    if n == 1 then 0
    else
      var best := Argmax(m, j, n - 1);
      if At(m, n - 1, j) > At(m, best, j) then n - 1 else best
  }

  lemma {:induction false} ArgmaxIsFirst(m: Matrix, j: int, n: nat)
    requires n > 0
    ensures forall i :: 0 <= i < n ==> At(m, i, j) <= At(m, Argmax(m, j, n), j)
    ensures forall i :: 0 <= i < Argmax(m, j, n) ==> At(m, i, j) < At(m, Argmax(m, j, n), j)
  {
    if n > 1 { ArgmaxIsFirst(m, j, n - 1); }
  }

  /** Columns whose entries compare alike have the same Argmax. */
  lemma {:induction false} ArgmaxAlike(a: Matrix, b: Matrix, j: int, n: nat)
    requires n > 0 && forall i, k :: 0 <= i < n && 0 <= k < n ==> (At(a, i, j) > At(a, k, j) <==> At(b, i, j) > At(b, k, j))
    ensures Argmax(a, j, n) == Argmax(b, j, n)
  {
    if n > 1 { ArgmaxAlike(a, b, j, n - 1); }
  }

  function ColumnMax(m: Matrix, j: int, n: nat): real
    requires n > 0
  {
    At(m, Argmax(m, j, n), j)
  }

  // ---------------------------------------------------------------- softmax

  function Shifted(exp: real -> real, z: Matrix, j: int): (f: int -> real)
    requires z != []
    ensures forall i :: f(i) == exp(At(z, i, j) - ColumnMax(z, j, |z|))
  {
    i => exp(At(z, i, j) - ColumnMax(z, j, |z|))
  }

  lemma {:induction false} SumPositive(f: int -> real, n: nat)
    requires n > 0 && forall i :: f(i) > 0.0
    ensures Sum(f, n) > 0.0
  {
    if n > 1 { SumPositive(f, n - 1); }
  }

  ghost function Total(exp: real -> real, z: Matrix, j: int): (r: real)
    requires Exponential(exp) && z != []
    ensures r > 0.0
  {
    SumPositive(Shifted(exp, z, j), |z|);
    Sum(Shifted(exp, z, j), |z|)
  }

  /** An entry after softmax of its column. */
  ghost function SoftmaxAt(exp: real -> real, z: Matrix, i: int, j: int): real
    requires Exponential(exp) && z != []
  {
    Shifted(exp, z, j)(i) / Total(exp, z, j)
  }

  ghost function SoftmaxOf(exp: real -> real, z: Matrix, m: nat): (a: Matrix)
    requires Exponential(exp) && z != []
    ensures Shape(a, |z|, m)
    ensures forall i, j :: 0 <= i < |z| && 0 <= j < m ==> a[i][j] == SoftmaxAt(exp, z, i, j)
  {
    seq(|z|, i => seq(m, j => SoftmaxAt(exp, z, i, j)))
  }

  /** The columns of a softmax sum to one. */
  lemma SoftmaxColumn(exp: real -> real, z: Matrix, m: nat, j: int)
    requires Exponential(exp) && z != [] && 0 <= j < m
    ensures ColumnSum(SoftmaxOf(exp, z, m), j) == 1.0
  {
    hide SoftmaxOf, Shifted, Total, At, Exponential, SoftmaxAt;
    var a, f, s := SoftmaxOf(exp, z, m), Shifted(exp, z, j), Total(exp, z, j);
    TotalIs(exp, z, j);
    var g := i => At(a, i, j);
    forall i | 0 <= i < |z| ensures f(i) == s * g(i) { SoftmaxTimes(exp, z, m, i, j); }
    Normalized(f, g, s, |z|);
    SumEq(g, i => At(a, i, j), |z|);
  }

  lemma TotalIs(exp: real -> real, z: Matrix, j: int)
    requires Exponential(exp) && z != []
    ensures Total(exp, z, j) == Sum(Shifted(exp, z, j), |z|) && exp(ColumnMax(z, j, |z|)) > 0.0
    ensures forall i :: SoftmaxAt(exp, z, i, j) == Shifted(exp, z, j)(i) / Total(exp, z, j)
    ensures forall i :: Shifted(exp, z, j)(i) == exp(At(z, i, j) - ColumnMax(z, j, |z|))
  {
  }

  lemma Normalized(f: int -> real, g: int -> real, s: real, n: nat)
    requires s > 0.0 && s == Sum(f, n) && forall i :: 0 <= i < n ==> f(i) == s * g(i)
    ensures Sum(g, n) == 1.0
  {
    SumScale(s, g, f, n);
    IsOne(s, Sum(g, n));
  }

  lemma SoftmaxTimes(exp: real -> real, z: Matrix, m: nat, i: int, j: int)
    requires Exponential(exp) && z != [] && 0 <= i < |z| && 0 <= j < m
    ensures Shifted(exp, z, j)(i) == Total(exp, z, j) * At(SoftmaxOf(exp, z, m), i, j)
  {
    hide Shifted, Total;
    var f, s := Shifted(exp, z, j)(i), Total(exp, z, j);
    assert s * (f / s) == f;
  }

  lemma IsOne(s: real, x: real)
    requires s > 0.0 && s == s * x
    ensures x == 1.0
  {
  }

  /** Softmax keeps the order within a column, so the most probable class is that of the largest input. */
  lemma SoftmaxArgmax(exp: real -> real, z: Matrix, m: nat, j: int)
    requires Exponential(exp) && z != [] && 0 <= j < m
    ensures Argmax(SoftmaxOf(exp, z, m), j, |z|) == Argmax(z, j, |z|)
  {
    var a := SoftmaxOf(exp, z, m);
    forall i, k | 0 <= i < |z| && 0 <= k < |z| ensures At(a, i, j) > At(a, k, j) <==> At(z, i, j) > At(z, k, j) {
      var f, s := Shifted(exp, z, j), Total(exp, z, j);
      assert f(i) > f(k) <==> At(z, i, j) > At(z, k, j);
      DividedOrder(f(i), f(k), s);
    }
    ArgmaxAlike(a, z, j, |z|);
  }

  lemma DividedOrder(x: real, y: real, s: real)
    requires s > 0.0
    ensures x > y <==> x / s > y / s
  {
    assert x == s * (x / s) && y == s * (y / s);
  }

  ghost predicate ExponentialLaw(exp: real -> real) {
    forall x, y :: exp(x + y) == exp(x) * exp(y)
  }

  lemma Split(exp: real -> real, x: real, top: real)
    requires ExponentialLaw(exp)
    ensures exp(x) == exp(top) * exp(x - top)
  {
    assert exp(top + (x - top)) == exp(top) * exp(x - top);
  }

  /** With the law of the exponential function the shift by the maximum cancels. */
  lemma SoftmaxUnshifted(exp: real -> real, z: Matrix, i: int, j: int)
    requires Exponential(exp) && z != [] && ExponentialLaw(exp)
    ensures Sum(k => exp(At(z, k, j)), |z|) > 0.0
    ensures SoftmaxAt(exp, z, i, j) == exp(At(z, i, j)) / Sum(k => exp(At(z, k, j)), |z|)
  {
    hide Total, Shifted, ColumnMax, At, Exponential, ExponentialLaw, SoftmaxAt;
    var f, s, top, g := Shifted(exp, z, j), Total(exp, z, j), ColumnMax(z, j, |z|), k => exp(At(z, k, j));
    TotalIs(exp, z, j);
    forall k ensures g(k) == exp(top) * f(k) { Split(exp, At(z, k, j), top); }
    SumScale(exp(top), f, g, |z|);
    Reduced(exp(top), f(i), s);
    SumEq(g, k => exp(At(z, k, j)), |z|);
  }

  lemma Reduced(c: real, x: real, s: real)
    requires c > 0.0 && s > 0.0
    ensures c * s > 0.0 && x / s == c * x / (c * s)
  {
    var q := x / s;
    assert x == q * s;
    assert c * x == q * (c * s);
  }

  // ---------------------------------------------------------------- the loops of softmax

  /** Columns before `j` are done, the others are as they were. */
  ghost predicate ColumnsDone(exp: real -> real, z: Matrix, m: nat, r: Matrix, j: nat)
    requires Exponential(exp) && z != [] && Shape(z, |z|, m)
  {
    && Shape(r, |z|, m)
    && forall i, c :: 0 <= i < |z| && 0 <= c < m ==> r[i][c] == if c < j then SoftmaxAt(exp, z, i, c) else z[i][c]
  }

  /** The largest entry of a column. */
  method FindMax(z: Matrix, j: nat) returns (max: real)
    requires z != [] && forall i :: 0 <= i < |z| ==> j < |z[i]|
    ensures max == ColumnMax(z, j, |z|)
  {
    max := z[0][j];
    var i := 1;
    while i < |z|
      invariant 1 <= i <= |z| && max == ColumnMax(z, j, i)
    {
      if max < z[i][j] { max := z[i][j]; }
      i := i + 1;
    }
  }

  /** Column `j` holds `f` up to row `i` and `g` from there on; the other columns are those of `before`. */
  ghost predicate InColumn(r: Matrix, before: Matrix, m: nat, j: nat, i: nat, f: int -> real, g: int -> real) {
    && Shape(before, |r|, m) && Shape(r, |r|, m) && j < m && i <= |r|
    && (forall k :: 0 <= k < |r| ==> r[k][j] == if k < i then f(k) else g(k))
    && forall k, c :: 0 <= k < |r| && 0 <= c < m && c != j ==> r[k][c] == before[k][c]
  }

  lemma PutInColumn(r: Matrix, before: Matrix, m: nat, j: nat, i: nat, f: int -> real, g: int -> real)
    requires InColumn(r, before, m, j, i, f, g) && i < |r|
    ensures r[i][j] == g(i) && InColumn(r[i := r[i][j := f(i)]], before, m, j, i + 1, f, g)
  {
  }

  /** Column `j` becomes its exponentials, whose sum is returned. */
  method Exponentials(exp: real -> real, before: Matrix, m: nat, j: nat, ghost f: int -> real, ghost g: int -> real)
    returns (r: Matrix, sum: real)
    requires before != [] && InColumn(before, before, m, j, 0, f, g)
    requires forall i :: 0 <= i < |before| ==> f(i) == exp(g(i) - ColumnMax(before, j, |before|))
    ensures |r| == |before| && InColumn(r, before, m, j, |r|, f, g) && sum == Sum(f, |r|)
  {
    hide InColumn, ColumnMax, Exponential, SoftmaxAt, Argmax;
    assert Shape(before, |before|, m) && j < m by { ShapeOf(before, before, m, j, 0, f, g); }
    var max := FindMax(before, j);
    r, sum := before, 0.0;
    var i := 0;
    while i < |r|
      invariant 0 <= i <= |r| == |before| && sum == Sum(f, i) && InColumn(r, before, m, j, i, f, g)
    {
      ShapeOf(r, before, m, j, i, f, g);
      PutInColumn(r, before, m, j, i, f, g);
      var val := exp(r[i][j] - max);
      sum := sum + val;
      r := r[i := r[i][j := val]];
      i := i + 1;
    }
  }

  lemma ShapeOf(r: Matrix, before: Matrix, m: nat, j: nat, i: nat, f: int -> real, g: int -> real)
    requires InColumn(r, before, m, j, i, f, g)
    ensures Shape(r, |r|, m) && j < m
  {
  }

  /** Column `j` is divided by `sum`. */
  method Shares(before: Matrix, m: nat, j: nat, sum: real, ghost f: int -> real, ghost g: int -> real) returns (r: Matrix)
    requires InColumn(before, before, m, j, 0, f, g) && sum != 0.0 && forall i :: 0 <= i < |before| ==> f(i) == g(i) / sum
    ensures |r| == |before| && InColumn(r, before, m, j, |r|, f, g)
  {
    hide InColumn;
    r := before;
    var i := 0;
    while i < |r|
      invariant 0 <= i <= |r| == |before| && InColumn(r, before, m, j, i, f, g)
    {
      ShapeOf(r, before, m, j, i, f, g);
      PutInColumn(r, before, m, j, i, f, g);
      r := r[i := r[i][j := r[i][j] / sum]];
      i := i + 1;
    }
  }

  /** Softmax of column `j`, first its exponentials and then their shares. */
  method ActivateColumn(exp: real -> real, ghost z: Matrix, m: nat, j: nat, before: Matrix) returns (r: Matrix)
    requires Exponential(exp) && z != [] && Shape(z, |z|, m) && j < m && ColumnsDone(exp, z, m, before, j)
    ensures ColumnsDone(exp, z, m, r, j + 1)
  {
    hide Exponential, Shifted, Total, SoftmaxAt, Argmax, ColumnMax;
    ghost var f := Shifted(exp, z, j);
    ghost var zs, shares := k => At(z, k, j), k => SoftmaxAt(exp, z, k, j);
    TotalIs(exp, z, j);
    MaxAlike(before, z, j, |z|);
    var middle, sum := Exponentials(exp, before, m, j, f, zs);
    r := Shares(middle, m, j, sum, shares, f);
  }

  lemma {:induction false} MaxAlike(a: Matrix, b: Matrix, j: int, n: nat)
    requires n > 0 && forall i :: 0 <= i < n ==> At(a, i, j) == At(b, i, j)
    ensures Argmax(a, j, n) == Argmax(b, j, n) && ColumnMax(a, j, n) == ColumnMax(b, j, n)
  {
    if n > 1 { MaxAlike(a, b, j, n - 1); }
  }

  /** activate of a matrix. */
  method Activate(exp: real -> real, input: Matrix) returns (results: Matrix)
    requires Exponential(exp) && Rectangular(input)
    ensures results == SoftmaxOf(exp, input, |input[0]|)
  {
    hide Exponential, Shifted, Total, SoftmaxAt;
    var m := |input[0]|;
    results := input;
    var j := 0;
    while j < m
      invariant 0 <= j <= m && ColumnsDone(exp, input, m, results, j)
    {
      results := ActivateColumn(exp, input, m, j, results);
      j := j + 1;
    }
    SameMatrix(results, SoftmaxOf(exp, input, m), |input|, m);
  }

  // ---------------------------------------------------------------- categorical cross entropy

  /** The class of example `j`. */
  function ClassOf(targets: Matrix, j: int): int {
    At(targets, 0, j).Floor
  }

  /** Every target is the number of a class. */
  predicate ValidTargets(targets: Matrix, n: nat, m: nat) {
    targets != [] && |targets[0]| == m && forall j :: 0 <= j < m ==> 0 <= ClassOf(targets, j) < n
  }

  function LossGradient(a: Matrix, targets: Matrix, m: nat): (da: Matrix)
    ensures Shape(da, |a|, m)
    ensures forall i, j :: 0 <= i < |a| && 0 <= j < m ==> da[i][j] == At(a, i, j) - Hot(i == ClassOf(targets, j))
  {
    Build(|a|, m, (i, j) => At(a, i, j) - Hot(i == ClassOf(targets, j)))
  }

  function Hot(b: bool): real { if b then 1.0 else 0.0 }

  /** derivative: one is taken from the predicted probability of the right class. */
  method LossDerivative(predictions: Matrix, targets: Matrix) returns (gradients: Matrix)
    requires Rectangular(predictions) && ValidTargets(targets, |predictions|, |predictions[0]|)
    ensures gradients == LossGradient(predictions, targets, |predictions[0]|)
  {
    var m := |predictions[0]|;
    gradients := predictions;
    var s := 0;
    while s < m
      invariant 0 <= s <= m && Shape(gradients, |predictions|, m)
      invariant forall i, j :: 0 <= i < |predictions| && 0 <= j < m ==>
                  gradients[i][j] == At(predictions, i, j) - (if j < s then Hot(i == ClassOf(targets, j)) else 0.0)
    {
      var t := targets[0][s].Floor;
      assert t == ClassOf(targets, s);
      gradients := gradients[t := gradients[t][s := predictions[t][s] - 1.0]];
      s := s + 1;
    }
    SameMatrix(gradients, LossGradient(predictions, targets, m), |predictions|, m);
  }

  lemma {:induction false} HotSum(t: int, f: int -> real, n: nat)
    requires forall i :: 0 <= i < n ==> f(i) == Hot(i == t)
    ensures Sum(f, n) == Hot(0 <= t < n)
  {
    if n > 0 { HotSum(t, f, n - 1); }
  }

  /** The gradient of the loss at a softmax sums to zero in every column. */
  lemma GradientCancels(exp: real -> real, z: Matrix, targets: Matrix, m: nat, j: int)
    requires Exponential(exp) && z != [] && 0 <= j < m && ValidTargets(targets, |z|, m)
    ensures ColumnSum(LossGradient(SoftmaxOf(exp, z, m), targets, m), j) == 0.0
  {
    hide Exponential, Shifted, Total, SoftmaxAt, SoftmaxOf;
    var a, t := SoftmaxOf(exp, z, m), ClassOf(targets, j);
    var da := LossGradient(a, targets, m);
    SoftmaxColumn(exp, z, m, j);
    var f := i => Hot(i == t);
    HotSum(t, f, |z|);
    SumAdd(i => At(da, i, j), f, i => At(a, i, j), |z|);
  }

  // ---------------------------------------------------------------- accuracy

  /** How many of the first `m` examples are classified right. */
  function Right(predictions: Matrix, targets: Matrix, m: nat): nat
    requires predictions != []
  {
    if m == 0 then 0
    else Right(predictions, targets, m - 1) + if Argmax(predictions, m - 1, |predictions|) as real == At(targets, 0, m - 1) then 1 else 0
  }

  /** Row `c` holds the first of the largest predictions for example `j`. */
  ghost predicate FirstLargest(p: Matrix, j: int, c: nat) {
    && c < |p| && (forall i :: 0 <= i < |p| ==> At(p, i, j) <= At(p, c, j))
    && forall i :: 0 <= i < c ==> At(p, i, j) < At(p, c, j)
  }

  /** The examples whose target is the row of the first of their largest predictions. */
  ghost function RightOnes(predictions: Matrix, targets: Matrix, m: nat): set<int> {
    set j | 0 <= j < m && exists c :: FirstLargest(predictions, j, c) && c as real == At(targets, 0, j)
  }

  lemma {:induction false} RightCounts(predictions: Matrix, targets: Matrix, m: nat)
    requires predictions != []
    ensures Right(predictions, targets, m) == |RightOnes(predictions, targets, m)|
  {
    if m > 0 {
      var j := m - 1;
      RightCounts(predictions, targets, j);
      var before, best := RightOnes(predictions, targets, j), Argmax(predictions, j, |predictions|);
      OnlyOne(predictions, j);
      hide FirstLargest, Argmax;
      assert RightOnes(predictions, targets, m) == if best as real == At(targets, 0, j) then before + {j} else before;
    }
  }

  lemma OnlyOne(p: Matrix, j: int)
    requires p != []
    ensures FirstLargest(p, j, Argmax(p, j, |p|))
    ensures forall c :: FirstLargest(p, j, c) ==> c == Argmax(p, j, |p|)
  {
    ArgmaxIsFirst(p, j, |p|);
    hide Argmax;
  }

  /** accuracy with categorical cross entropy: the share of examples whose largest prediction is that of their class. */
  method Accuracy(predictions: Matrix, targets: Matrix) returns (rate: real)
    requires Rectangular(predictions) && |predictions[0]| > 0 && targets != [] && |targets[0]| >= |predictions[0]|
    ensures rate == Right(predictions, targets, |predictions[0]|) as real / |predictions[0]| as real
  {
    rate := 0.0;
    var j := 0;
    while j < |predictions[0]|
      invariant 0 <= j <= |predictions[0]| && rate == Right(predictions, targets, j) as real
    {
      var max, predInd := predictions[0][j], 0;
      var i := 1;
      while i < |predictions|
        invariant 1 <= i <= |predictions| && predInd == Argmax(predictions, j, i) && max == At(predictions, predInd, j)
      {
        if predictions[i][j] > max { max, predInd := predictions[i][j], i; }
        i := i + 1;
      }
      rate := rate + if predInd as real == targets[0][j] then 1.0 else 0.0;
      j := j + 1;
    }
    rate := rate / |predictions[0]| as real;
  }

  /** Probabilities and the inputs of the softmax are equally accurate. */
  lemma {:induction false} EquallyRight(exp: real -> real, z: Matrix, targets: Matrix, cols: nat, m: nat)
    requires Exponential(exp) && z != [] && m <= cols
    ensures Right(SoftmaxOf(exp, z, cols), targets, m) == Right(z, targets, m)
  {
    hide Exponential, SoftmaxOf, Argmax, At;
    if m > 0 {
      EquallyRight(exp, z, targets, cols, m - 1);
      SoftmaxArgmax(exp, z, cols, m - 1);
    }
  }
}
