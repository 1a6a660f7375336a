/** Normalisation of the inputs and their division into mini-batches. */
module NeuralData {
  import opened NeuralSums
  import opened NeuralMath

  /** What is used of the square root. */
  ghost predicate SquareRoot(sqrt: real -> real) {
    forall x :: x >= 0.0 ==> sqrt(x) >= 0.0 && sqrt(x) * sqrt(x) == x
  }

  // ---------------------------------------------------------------- normalisation

  function Mean(v: Vector): real
    requires v != []
  {
    VectorSum(v) / |v| as real
  }

  function Centred(v: Vector, mean: real): (r: Vector)
    ensures |r| == |v|
  {
    BuildVector(|v|, i => Of(v, i) - mean)
  }

  function Squares(v: Vector): real {
    Sum(i => Square(v, i), |v|)
  }

  function Square(v: Vector, i: int): (r: real)
    ensures r >= 0.0
  {
    Of(v, i) * Of(v, i)
  }

  function Deviation(sqrt: real -> real, v: Vector): real
    requires v != []
  {
    sqrt(Squares(Centred(v, Mean(v))) / |v| as real)
  }

  /** A feature shifted by `mean` and, unless it is zero, divided by `stdev`. */
  function Normal(v: Vector, mean: real, stdev: real): (r: Vector)
    ensures |r| == |v|
  {
    BuildVector(|v|, i => if stdev != 0.0 then (Of(v, i) - mean) / stdev else Of(v, i) - mean)
  }

  lemma CentredSum(v: Vector)
    requires v != []
    ensures VectorSum(Centred(v, Mean(v))) == 0.0
  {
    var c, mean := Centred(v, Mean(v)), Mean(v);
    SumAdd(i => Of(c, i), _ => mean, i => Of(v, i), |v|);
    SumConstant(mean, |v|);
    assert |v| as real * (VectorSum(v) / |v| as real) == VectorSum(v);
  }

  lemma {:induction false} SumConstant(c: real, n: nat)
    ensures Sum(_ => c, n) == n as real * c
  {
    if n > 0 {
      SumConstant(c, n - 1);
      assert n as real == (n - 1) as real + 1.0;
      Distribute(c, (n - 1) as real, 1.0);
    }
  }

  lemma NormalSum(v: Vector, mean: real, s: real)
    requires VectorSum(Centred(v, mean)) == 0.0
    ensures VectorSum(Normal(v, mean, s)) == 0.0
  {
    var c, r := Centred(v, mean), Normal(v, mean, s);
    if s == 0.0 {
      SumEq(i => Of(r, i), i => Of(c, i), |v|);
    } else {
      forall i | 0 <= i < |v| ensures Of(c, i) == s * Of(r, i) {
        NormalAt(v, mean, s, i);
        Multiplied(s, Of(c, i));
      }
      SumScale(s, i => Of(r, i), i => Of(c, i), |v|);
      NoSum(s, VectorSum(r));
    }
  }

  lemma NormalAt(v: Vector, mean: real, s: real, i: nat)
    requires s != 0.0 && i < |v|
    ensures Of(Normal(v, mean, s), i) == Of(Centred(v, mean), i) / s
  {
  }

  lemma Multiplied(s: real, x: real)
    requires s != 0.0
    ensures s * (x / s) == x
  {
  }

  lemma NormalSquare(v: Vector, mean: real, s: real, i: nat)
    requires s != 0.0 && i < |v|
    ensures Square(Centred(v, mean), i) == (s * s) * Square(Normal(v, mean, s), i)
  {
    hide Of, Centred, Normal;
    NormalAt(v, mean, s, i);
    Multiplied(s, Of(Centred(v, mean), i));
    SquareOf(s, Of(Normal(v, mean, s), i), Of(Centred(v, mean), i));
  }

  lemma NormalSquares(v: Vector, mean: real, s: real)
    requires s != 0.0
    ensures Squares(Centred(v, mean)) == (s * s) * Squares(Normal(v, mean, s))
  {
    var c, r := Centred(v, mean), Normal(v, mean, s);
    var t := s * s;
    hide Square;
    forall i | 0 <= i < |v| ensures Square(c, i) == t * Square(r, i) { NormalSquare(v, mean, s, i); }
    hide Of, Centred, Normal;
    SumScale(t, i => Square(r, i), i => Square(c, i), |v|);
  }

  /** A normalised feature sums to zero, and its squares to the number of examples unless it is constant. */
  lemma NormalSums(sqrt: real -> real, v: Vector)
    requires SquareRoot(sqrt) && v != []
    ensures var s, r := Deviation(sqrt, v), Normal(v, Mean(v), Deviation(sqrt, v));
            VectorSum(r) == 0.0 && (s != 0.0 ==> Squares(r) == |v| as real)
  {
    hide *;
    var s := Deviation(sqrt, v);
    CentredSum(v);
    NormalSum(v, Mean(v), s);
    if s != 0.0 {
      VarianceIs(sqrt, v);
      NormalSquares(v, Mean(v), s);
      if s * s == 0.0 { NoSum(s, s); }
      Quotients(s * s, Squares(Normal(v, Mean(v), s)), |v| as real);
    }
  }

  lemma SquareOf(s: real, x: real, y: real)
    requires y == s * x
    ensures y * y == (s * s) * (x * x)
  {
  }

  lemma NoSum(s: real, x: real)
    requires s != 0.0 && s * x == 0.0
    ensures x == 0.0
  {
  }

  lemma Quotients(t: real, x: real, n: real)
    requires t != 0.0 && t * x == t * n
    ensures x == n
  {
    NoSum(t, x - n);
  }

  lemma {:induction false} SquaresPositive(f: int -> real, n: nat)
    requires forall i :: 0 <= i < n ==> f(i) >= 0.0
    ensures Sum(f, n) >= 0.0
  {
    if n > 0 { SquaresPositive(f, n - 1); }
  }

  lemma VarianceIs(sqrt: real -> real, v: Vector)
    requires SquareRoot(sqrt) && v != []
    ensures var s := Deviation(sqrt, v); Squares(Centred(v, Mean(v))) == (s * s) * |v| as real
  {
    var c := Centred(v, Mean(v));
    SquaresPositive(i => Square(c, i), |v|);
    var x := Squares(c) / |v| as real;
    assert x * |v| as real == Squares(c);
    assert x >= 0.0;
  }

  // ---------------------------------------------------------------- mini-batches

  /** Columns `from..to`. */
  function Slice(m: Matrix, from: nat, to: nat): (r: Matrix)
    requires from <= to && forall i :: 0 <= i < |m| ==> to <= |m[i]|
    ensures Shape(r, |m|, to - from)
    ensures forall i, j :: 0 <= i < |m| && 0 <= j < to - from ==> r[i][j] == m[i][from + j]
  {
    seq(|m|, i requires 0 <= i < |m| => m[i][from..to])
  }

  /** Where the mini-batches of `m` columns from `start` on begin and end. */
  function Cuts(m: nat, size: nat, start: nat): seq<(nat, nat)>
    requires size > 0
    decreases m - start
  {
    if start + size < m then [(start, start + size)] + Cuts(m, size, start + size) else [(start, m)]
  }

  /** The mini-batches are neighbours, of `size` columns each but for the last, which is not empty. */
  lemma {:induction false} CutsPartition(m: nat, size: nat, start: nat)
    requires size > 0 && start < m
    ensures var c := Cuts(m, size, start);
            && c != [] && c[0].0 == start && c[|c| - 1].1 == m
            && (forall k :: 0 <= k < |c| ==> start <= c[k].0 < c[k].1 <= m && c[k].1 - c[k].0 <= size)
            && (forall k :: 0 <= k < |c| - 1 ==> c[k].1 == c[k + 1].0 && c[k].1 - c[k].0 == size)
    decreases m - start
  {
    if start + size < m { CutsPartition(m, size, start + size); }
  }

  predicate CutsFit(x: Matrix, cuts: seq<(nat, nat)>) {
    forall c <- cuts :: c.0 <= c.1 && forall i :: 0 <= i < |x| ==> c.1 <= |x[i]|
  }

  /** The mini-batches in order. */
  function Batches(x: Matrix, cuts: seq<(nat, nat)>): seq<Matrix>
    requires CutsFit(x, cuts)
  {
    if cuts == [] then [] else [Slice(x, cuts[0].0, cuts[0].1)] + Batches(x, cuts[1..])
  }

  function Joined(batches: seq<Matrix>, i: nat): Vector
    requires forall b <- batches :: i < |b|
  {
    if batches == [] then [] else batches[0][i] + Joined(batches[1..], i)
  }

  lemma CutsInside(x: Matrix, m: nat, size: nat, start: nat)
    requires size > 0 && start < m && Shape(x, |x|, m)
    ensures CutsFit(x, Cuts(m, size, start))
  {
    CutsPartition(m, size, start);
  }

  lemma {:induction false} BatchesShape(x: Matrix, cuts: seq<(nat, nat)>, i: nat)
    requires i < |x| && CutsFit(x, cuts)
    ensures |Batches(x, cuts)| == |cuts| && (forall b <- Batches(x, cuts) :: i < |b|)
    ensures forall k :: 0 <= k < |cuts| ==> Batches(x, cuts)[k] == Slice(x, cuts[k].0, cuts[k].1)
  {
    hide Slice;
    if cuts != [] { BatchesShape(x, cuts[1..], i); }
  }

  /** Put together again, the mini-batches are the whole. */
  lemma {:induction false} BatchesJoin(x: Matrix, m: nat, size: nat, start: nat, i: nat)
    requires size > 0 && start < m && Shape(x, |x|, m) && i < |x|
    ensures var c := Cuts(m, size, start);
            && CutsFit(x, c) && (forall b <- Batches(x, c) :: i < |b|)
            && Joined(Batches(x, c), i) == x[i][start..]
    decreases m - start
  {
    hide CutsFit, Batches, Joined, Slice;
    var c := Cuts(m, size, start);
    CutsInside(x, m, size, start);
    BatchesShape(x, c, i);
    NextCut(m, size, start);
    hide Cuts;
    if start + size < m {
      BatchesJoin(x, m, size, start + size, i);
      var rest := Cuts(m, size, start + size);
      JoinedFirst(x, start, start + size, rest, i);
      RowSplits(x[i], start, start + size);
    } else {
      NothingJoined(x, i);
      JoinedFirst(x, start, m, [], i);
      RowSplits(x[i], start, m);
    }
  }

  lemma NextBatch(x: Matrix, m: nat, size: nat, start: nat)
    requires size > 0 && start + size < m && Shape(x, |x|, m)
    ensures CutsFit(x, Cuts(m, size, start)) && CutsFit(x, Cuts(m, size, start + size))
    ensures forall i :: 0 <= i < |x| ==> start + size <= |x[i]|
    ensures Batches(x, Cuts(m, size, start)) == [Slice(x, start, start + size)] + Batches(x, Cuts(m, size, start + size))
  {
    hide CutsFit, Slice;
    CutsInside(x, m, size, start);
    CutsInside(x, m, size, start + size);
    assert ([(start, start + size)] + Cuts(m, size, start + size))[1..] == Cuts(m, size, start + size);
  }

  lemma RowSplits(row: Vector, from: nat, to: nat)
    requires from <= to <= |row|
    ensures row[from..to] + row[to..] == row[from..]
  {
  }

  lemma NextCut(m: nat, size: nat, start: nat)
    requires size > 0 && start < m
    ensures Cuts(m, size, start) == if start + size < m then [(start, start + size)] + Cuts(m, size, start + size) else [(start, m)] + []
  {
  }

  lemma LastCut(m: nat, size: nat, start: nat)
    requires size > 0 && start < m <= start + size
    ensures Cuts(m, size, start) == [(start, m)]
  {
  }

  lemma NothingJoined(x: Matrix, i: nat)
    ensures CutsFit(x, []) && Batches(x, []) == [] && Joined([], i) == []
  {
  }

  lemma JoinedFirst(x: Matrix, from: nat, to: nat, rest: seq<(nat, nat)>, i: nat)
    requires i < |x| && from <= to && (forall k :: 0 <= k < |x| ==> to <= |x[k]|)
    requires CutsFit(x, rest)
    ensures CutsFit(x, [(from, to)] + rest)
    ensures (forall b <- Batches(x, rest) :: i < |b|) && (forall b <- Batches(x, [(from, to)] + rest) :: i < |b|)
    ensures Joined(Batches(x, [(from, to)] + rest), i) == x[i][from..to] + Joined(Batches(x, rest), i)
  {
    BatchesShape(x, rest, i);
    BatchesShape(x, [(from, to)] + rest, i);
    var b := Batches(x, [(from, to)] + rest);
    assert ([(from, to)] + rest)[1..] == rest;
    assert b == [Slice(x, from, to)] + Batches(x, rest);
    assert b[1..] == Batches(x, rest);
  }

  // ---------------------------------------------------------------- the loops

  function SquaredFrom(v: Vector): (f: int -> real)
    ensures forall i :: f(i) == Of(v, i) * Of(v, i)
  {
    i => Of(v, i) * Of(v, i)
  }

  function Entry(v: Vector): (f: int -> real)
    ensures forall i :: f(i) == Of(v, i)
  {
    i => Of(v, i)
  }

  /** Adds a feature up. */
  method Total(v: Vector) returns (sum: real)
    ensures sum == VectorSum(v)
  {
    ghost var f := Entry(v);
    sum := 0.0;
    var i := 0;
    while i < |v|
      invariant 0 <= i <= |v| && sum == Sum(f, i)
    {
      sum := sum + v[i];
      i := i + 1;
    }
    SumEq(f, i => Of(v, i), |v|);
  }

  /** Shifts a feature by its mean, adding up the squares. */
  method Centre(v: Vector, mean: real) returns (r: Vector, squares: real)
    ensures r == Centred(v, mean) && squares == Squares(r)
  {
    ghost var f := SquaredFrom(Centred(v, mean));
    r, squares := v, 0.0;
    var i := 0;
    while i < |v|
      invariant 0 <= i <= |v| == |r| && squares == Sum(f, i)
      invariant forall k :: 0 <= k < |v| ==> r[k] == if k < i then v[k] - mean else v[k]
    {
      r := r[i := r[i] - mean];
      assert Of(Centred(v, mean), i) == r[i];
      squares := squares + r[i] * r[i];
      i := i + 1;
    }
    assert r == Centred(v, mean);
    SumEq(f, i => Square(r, i), |v|);
  }

  /** Normalises one feature in training. */
  method NormalizeFeature(sqrt: real -> real, v: Vector) returns (r: Vector, mean: real, stdev: real)
    requires v != []
    ensures mean == Mean(v) && stdev == Deviation(sqrt, v) && r == Normal(v, mean, stdev)
  {
    var sum := Total(v);
    mean := sum / |v| as real;
    var squares;
    r, squares := Centre(v, mean);
    stdev := sqrt(squares / |v| as real);
    if stdev != 0.0 {
      ghost var centred := r;
      var i := 0;
      while i < |r|
        invariant 0 <= i <= |r| == |v|
        invariant forall k :: 0 <= k < |v| ==> r[k] == if k < i then centred[k] / stdev else centred[k]
      {
        r := r[i := r[i] / stdev];
        i := i + 1;
      }
    }
    assert r == Normal(v, mean, stdev);
  }

  /** Normalises one feature with known statistics. */
  method ApplyStatistics(v: Vector, mean: real, stdev: real) returns (r: Vector)
    ensures r == Normal(v, mean, stdev)
  {
    r := v;
    var i := 0;
    while i < |v|
      invariant 0 <= i <= |v| == |r|
      invariant forall k :: 0 <= k < |v| ==> r[k] == if k < i then Of(Normal(v, mean, stdev), k) else v[k]
    {
      r := r[i := if stdev != 0.0 then (r[i] - mean) / stdev else r[i] - mean];
      i := i + 1;
    }
    assert r == Normal(v, mean, stdev);
  }

  method SliceOf(x: Matrix, from: nat, to: nat) returns (r: Matrix)
    requires from <= to && forall i :: 0 <= i < |x| ==> to <= |x[i]|
    ensures r == Slice(x, from, to)
  {
    r := [];
    var i := 0;
    while i < |x|
      invariant 0 <= i <= |x| == |Slice(x, from, to)| && r == Slice(x, from, to)[..i]
    {
      r := r + [x[i][from..to]];
      i := i + 1;
    }
  }

  /** miniBatchGenerator: inputs and targets are cut at the same columns. */
  method MiniBatches(x: Matrix, targets: Matrix, size: nat) returns (xs: seq<Matrix>, ts: seq<Matrix>)
    requires size > 0 && Rectangular(x) && |x[0]| > 0 && Shape(targets, |targets|, |x[0]|)
    ensures CutsFit(x, Cuts(|x[0]|, size, 0)) && CutsFit(targets, Cuts(|x[0]|, size, 0))
    ensures xs == Batches(x, Cuts(|x[0]|, size, 0)) && ts == Batches(targets, Cuts(|x[0]|, size, 0))
  {
    hide CutsFit, Slice, Cuts, Batches;
    var m := |x[0]|;
    CutsInside(x, m, size, 0);
    CutsInside(targets, m, size, 0);
    xs, ts := [], [];
    var startCol, endCol := 0, size;
    while endCol < m
      invariant endCol == startCol + size && startCol < m
      invariant CutsFit(x, Cuts(m, size, startCol)) && CutsFit(targets, Cuts(m, size, startCol))
      invariant xs + Batches(x, Cuts(m, size, startCol)) == Batches(x, Cuts(m, size, 0))
      invariant ts + Batches(targets, Cuts(m, size, startCol)) == Batches(targets, Cuts(m, size, 0))
      decreases m - startCol
    {
      NextBatch(x, m, size, startCol);
      NextBatch(targets, m, size, startCol);
      var a := SliceOf(x, startCol, endCol);
      var b := SliceOf(targets, startCol, endCol);
      xs, ts := xs + [a], ts + [b];
      startCol, endCol := endCol, endCol + size;
    }
    var a := SliceOf(x, startCol, m);
    var b := SliceOf(targets, startCol, m);
    LastCut(m, size, startCol);
    LastBatch(x, startCol, m);
    LastBatch(targets, startCol, m);
    xs, ts := xs + [a], ts + [b];
  }

  lemma LastBatch(x: Matrix, from: nat, m: nat)
    requires CutsFit(x, [(from, m)])
    ensures Batches(x, [(from, m)]) == [Slice(x, from, m)]
  {
  }
}
