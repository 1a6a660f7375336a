/** The network of `NeuralNetwork.cpp`: forward and backward propagation, prediction and training. */
module NeuralNetworks {
  import opened NeuralSums
  import opened NeuralMath
  import opened NeuralSoftmax
  import opened NeuralGradient
  import opened NeuralLayer
  import opened NeuralData

  /** What a layer learns. */
  datatype Weights = Weights(w: Matrix, b: Vector)

  class NeuralNetwork {
    const layers: seq<DenseLayer>
    const sqrt: real -> real
    var means: Vector
    var stdevs: Vector

    /** The layers fit together, and no layer is in the network twice. */
    ghost predicate Valid()
      reads layers`w, layers`b
    {
      && layers != [] && (forall i :: 0 <= i < |layers| ==> layers[i].Valid())
      && (forall i, j :: 0 <= i < j < |layers| ==> layers[i] != layers[j])
      && (forall i :: 0 < i < |layers| ==> layers[i].inputSize == layers[i - 1].outputSize)
    }

    function Last(): DenseLayer
      requires layers != []
    {
      layers[|layers| - 1]
    }

    /** What the layers before layer `i` make of the input. */
    ghost function Through(i: nat, input: Matrix, m: nat): Matrix
      requires Valid() && i <= |layers|
      reads layers`w, layers`b
    {
      if i == 0 then input else layers[i - 1].Output(Through(i - 1, input, m), m)
    }

    /** The same with the fast forms. */
    ghost function FastThrough(i: nat, input: Matrix, m: nat): Matrix
      requires Valid() && i <= |layers|
      reads layers`w, layers`b
    {
      if i == 0 then input
      else ActivateEntries(layers[i - 1].activation, layers[i - 1].Z(FastThrough(i - 1, input, m), m), m)
    }

    ghost predicate Fits(input: Matrix, m: nat)
      requires layers != []
    {
      m > 0 && Shape(input, layers[0].inputSize, m)
    }

    method ForwardPropagation(input: Matrix) returns (predictions: Matrix)
      requires Valid() && input != [] && Fits(input, |input[0]|)
      modifies layers`z, layers`a, layers`aPrev
      ensures Valid() && predictions == Through(|layers|, input, |input[0]|) && Shape(predictions, Last().outputSize, |input[0]|)
      ensures Sound(Now()) && Now() == old(Now()) && Fed(|layers|, Now(), input, |input[0]|)
    {
      hide *;
      var m := |input[0]|;
      ghost var s := Now();
      predictions := input;
      NothingThrough(input, m);
      var i := 0;
      while i < |layers|
        invariant 0 <= i <= |layers| && Valid() && Now() == s
        invariant predictions == Outputs(s, i, input, m) && Fed(i, s, input, m) && Shape(predictions, Width(i), m)
      {
        predictions := ForwardLayer(i, layers[i], s, input, predictions, m);
        i := i + 1;
      }
      LastWidth();
      ThroughIs(|layers|, input, m);
    }

    /** The first `n` layers keep what they were fed with and what they made of it. */
    ghost predicate Fed(n: nat, s: seq<Weights>, input: Matrix, m: nat)
      requires Sound(s) && n <= |layers|
      reads layers`a, layers`aPrev
    {
      forall k :: 0 <= k < n ==> FedAt(layers[k], k, s, input, m)
    }

    ghost predicate FedAt(l: DenseLayer, k: nat, s: seq<Weights>, input: Matrix, m: nat)
      requires Sound(s) && k < |layers|
      reads l`a, l`aPrev
    {
      l.Primed(m) && l.aPrev == Outputs(s, k, input, m) && l.a == Outputs(s, k + 1, input, m)
    }

    /** How many rows come out of the first `i` layers. */
    ghost function Width(i: nat): nat
      requires layers != [] && i <= |layers|
    {
      if i == 0 then layers[0].inputSize else layers[i - 1].outputSize
    }

    lemma LastWidth()
      requires Valid()
      ensures layers != [] && Width(|layers|) == Last().outputSize
    {
    }

    lemma NothingThrough(input: Matrix, m: nat)
      requires Valid() && Fits(input, m)
      ensures layers != [] && Shape(input, Width(0), m) && m > 0
      ensures Sound(Now()) && Outputs(Now(), 0, input, m) == input && Fed(0, Now(), input, m)
    {
      NowIsSound();
    }

    method ForwardLayer(i: nat, l: DenseLayer, ghost s: seq<Weights>, ghost input: Matrix, x: Matrix, m: nat) returns (r: Matrix)
      requires Valid() && i < |layers| && l == layers[i] && m > 0 && Shape(x, Width(i), m)
      requires Sound(s) && s == Now() && x == Outputs(s, i, input, m) && Fed(i, s, input, m)
      modifies l`z, l`a, l`aPrev
      ensures Valid() && Now() == s
      ensures r == Outputs(s, i + 1, input, m) && Shape(r, Width(i + 1), m) && Fed(i + 1, s, input, m)
    {
      hide Valid, Through, Outputs, Sound, Now, Width, FedAt, Shape, Rectangular;
      hide DenseLayer.Valid, DenseLayer.Keeps, DenseLayer.Output, DenseLayer.Z;
      FedInput(i, x, m);
      r := l.Forward(x);
      NextOutput(i, s, input, x, m);
      FedNext(i, s, input, x, m);
    }

    lemma FedInput(i: nat, x: Matrix, m: nat)
      requires Valid() && i < |layers| && m > 0 && Shape(x, Width(i), m)
      ensures layers[i].Valid() && Rectangular(x) && |x| == layers[i].inputSize && |x[0]| == m
      ensures forall k :: 0 <= k < |layers| && k != i ==> layers[k] != layers[i]
    {
    }

    lemma NextOutput(i: nat, s: seq<Weights>, input: Matrix, x: Matrix, m: nat)
      requires Valid() && i < |layers| && Sound(s) && s == Now() && x == Outputs(s, i, input, m)
      ensures Outputs(s, i + 1, input, m) == layers[i].Output(x, m) && Shape(layers[i].Output(x, m), Width(i + 1), m)
    {
      NowAt(|layers|, i);
    }

    lemma FedNext(i: nat, s: seq<Weights>, input: Matrix, x: Matrix, m: nat)
      requires i < |layers| && Sound(s) && layers[i].Keeps(x, m)
      requires x == Outputs(s, i, input, m) && layers[i].a == Outputs(s, i + 1, input, m)
      ensures FedAt(layers[i], i, s, input, m)
    {
      hide Outputs, Sound;
    }

    method Predict(input: Matrix) returns (predictions: Matrix)
      requires Valid() && input != [] && Fits(input, |input[0]|)
      ensures predictions == FastThrough(|layers|, input, |input[0]|)
    {
      var m := |input[0]|;
      predictions := input;
      var i := 0;
      while i < |layers|
        invariant 0 <= i <= |layers| && predictions == FastThrough(i, input, m)
        invariant Shape(predictions, if i == 0 then layers[0].inputSize else layers[i - 1].outputSize, m)
      {
        predictions := layers[i].Predict(predictions);
        i := i + 1;
      }
    }

    // -------------------------------------------------------------- the fast forms

    /** Layers that activate number by number. */
    ghost predicate Plain(n: nat)
      requires n <= |layers|
    {
      forall i :: 0 <= i < n ==> layers[i].activation.Elementwise?
    }

    /** Up to a layer with softmax the fast forms compute what the forward pass computes. */
    lemma {:induction false} FastIsForward(i: nat, input: Matrix, m: nat)
      requires Valid() && i <= |layers| && Plain(i)
      ensures FastThrough(i, input, m) == Through(i, input, m)
    {
      if i > 0 {
        FastIsForward(i - 1, input, m);
        FastForm(layers[i - 1].activation, layers[i - 1].Z(Through(i - 1, input, m), m), m);
      }
    }

    /** If only the last layer is softmax, prediction gives its input, and is as accurate as the probabilities. */
    lemma FastIsAsAccurate(input: Matrix, targets: Matrix, m: nat)
      requires Valid() && Plain(|layers| - 1) && Last().activation.Softmax?
      ensures var z := FastThrough(|layers|, input, m);
              && z == Last().Z(Through(|layers| - 1, input, m), m)
              && Through(|layers|, input, m) == SoftmaxOf(Last().activation.exp, z, m)
              && Right(Through(|layers|, input, m), targets, m) == Right(z, targets, m)
    {
      var n := |layers| - 1;
      FastIsForward(n, input, m);
      var z := Last().Z(Through(n, input, m), m);
      FastForm(Last().activation, z, m);
      EquallyRight(Last().activation.exp, z, targets, m, m);
    }

    // -------------------------------------------------------------- backward propagation

    /** Layer `k`, fed with `da`, has made its step from `w` and `b` and passed `daPrev` on. */
    ghost predicate Backed(l: DenseLayer, w: Matrix, b: Vector, da: Matrix, daPrev: Matrix, m: nat)
      requires m > 0
      reads l
    {
      l.Stepped(w, b, l.Delta(da, m), m) && daPrev == InputGradient(w, l.Delta(da, m), l.inputSize, m)
    }

    /** The layers behind layer `i` have made their steps from `ws` and `bs`; layer `k` was fed with `das[k + 1]`. */
    ghost predicate Done(i: int, das: seq<Matrix>, ws: seq<Matrix>, bs: seq<Vector>, m: nat)
      requires m > 0
      reads layers
    {
      && -1 <= i < |layers| == |ws| == |bs| && |das| == |layers| + 1
      && (forall k :: 0 <= k <= i ==> layers[k].w == ws[k] && layers[k].b == bs[k])
      && (forall k :: i < k < |layers| ==> Backed(layers[k], ws[k], bs[k], das[k + 1], das[k], m))
    }

    /** Every layer makes a step from the da that the layer behind it passed on, and passes on what its weights before
        the step make of it. */
    method BackwardPropagation(da: Matrix) returns (ghost das: seq<Matrix>)
      requires Valid() && da != [] && Shape(da, Last().outputSize, |da[0]|) && |da[0]| > 0
      requires forall i :: 0 <= i < |layers| ==> layers[i].Primed(|da[0]|)
      modifies layers`w, layers`b, layers`dw, layers`db
      ensures Valid() && |das| == |layers| + 1 && das[|layers|] == da
      ensures forall k :: 0 <= k < |layers| ==> Backed(layers[k], old(layers[k].w), old(layers[k].b), das[k + 1], das[k], |da[0]|)
    {
      var m, d := |da[0]|, da;
      das := seq(|layers| + 1, _ => da);
      ghost var ws, bs := Snapshot(das, m);
      hide Valid, Done, Backed, DenseLayer.Primed;
      var i := |layers| - 1;
      while i >= 0
        invariant -1 <= i < |layers| && Valid() && Done(i, das, ws, bs, m) && |das| == |layers| + 1
        invariant i >= 0 ==> Shape(d, layers[i].outputSize, m) && d == das[i + 1]
        invariant das[|layers|] == da
      {
        d := StepBack(i, layers[i], d, m, das, ws, bs);
        das := das[i := d];
        i := i - 1;
      }
      AllDone(das, ws, bs, m);
    }

    lemma Snapshot(das: seq<Matrix>, m: nat) returns (ws: seq<Matrix>, bs: seq<Vector>)
      requires m > 0 && |das| == |layers| + 1
      ensures Done(|layers| - 1, das, ws, bs, m)
      ensures |ws| == |bs| == |layers| && forall k :: 0 <= k < |layers| ==> ws[k] == layers[k].w && bs[k] == layers[k].b
    {
      ws, bs := [], [];
      while |ws| < |layers|
        invariant |ws| == |bs| <= |layers| && forall k :: 0 <= k < |ws| ==> ws[k] == layers[k].w && bs[k] == layers[k].b
      {
        ws, bs := ws + [layers[|ws|].w], bs + [layers[|ws|].b];
      }
    }

    lemma AllDone(das: seq<Matrix>, ws: seq<Matrix>, bs: seq<Vector>, m: nat)
      requires m > 0 && Done(-1, das, ws, bs, m)
      ensures |das| == |layers| + 1 == |ws| + 1 == |bs| + 1
      ensures forall k :: 0 <= k < |layers| ==> Backed(layers[k], ws[k], bs[k], das[k + 1], das[k], m)
    {
    }

    /** One layer more. */
    method StepBack(i: nat, l: DenseLayer, d: Matrix, m: nat, ghost das: seq<Matrix>, ghost ws: seq<Matrix>, ghost bs: seq<Vector>)
      returns (r: Matrix)
      requires Valid() && i < |layers| && l == layers[i] && m > 0 && Shape(d, l.outputSize, m) && l.Primed(m)
      requires Done(i, das, ws, bs, m) && d == das[i + 1]
      modifies l`w, l`b, l`dw, l`db
      ensures Valid() && Shape(r, l.inputSize, m) && (i > 0 ==> l.inputSize == layers[i - 1].outputSize)
      ensures Done(i - 1, das[i := r], ws, bs, m)
    {
      Neighbours(i);
      hide DenseLayer.Stepped, DenseLayer.Delta;
      r := BackwardLayer(i, l, d, m);
    }

    lemma Neighbours(i: nat)
      requires Valid() && i < |layers|
      ensures i > 0 ==> layers[i].inputSize == layers[i - 1].outputSize
      ensures forall k :: 0 <= k < |layers| && k != i ==> layers[k] != layers[i]
    {
    }

    method BackwardLayer(i: nat, l: DenseLayer, d: Matrix, m: nat) returns (r: Matrix)
      requires Valid() && i < |layers| && l == layers[i] && m > 0 && Shape(d, l.outputSize, m) && l.Primed(m)
      modifies l`w, l`b, l`dw, l`db
      ensures Valid() && Shape(r, l.inputSize, m)
      ensures r == InputGradient(old(l.w), old(l.Delta(d, m)), l.inputSize, m)
      ensures l.Stepped(old(l.w), old(l.b), old(l.Delta(d, m)), m)
    {
      hide DenseLayer.Stepped, DenseLayer.Delta;
      r := l.Backward(d);
    }

    // -------------------------------------------------------------- training as a function of the weights

    ghost function Now(): seq<Weights>
      reads layers`w, layers`b
    {
      NowUpTo(|layers|)
    }

    ghost function NowUpTo(n: nat): (s: seq<Weights>)
      requires n <= |layers|
      reads layers`w, layers`b
      ensures |s| == n
    {
      if n == 0 then [] else NowUpTo(n - 1) + [Weights(layers[n - 1].w, layers[n - 1].b)]
    }

    lemma {:induction false} NowAt(n: nat, i: nat)
      requires i < n <= |layers|
      ensures NowUpTo(n)[i] == Weights(layers[i].w, layers[i].b)
    {
      if i < n - 1 { NowAt(n - 1, i); }
    }

    /** The weights have the sizes of the layers. */
    ghost predicate Sound(s: seq<Weights>) {
      layers != [] && |s| == |layers| && forall i :: 0 <= i < |s| ==> SoundAt(s[i], layers[i])
    }

    ghost predicate SoundAt(x: Weights, l: DenseLayer) {
      l.inputSize > 0 && l.outputSize > 0 && Shape(x.w, l.outputSize, l.inputSize) && |x.b| == l.outputSize && ValidActivation(l.activation)
    }

    lemma NowIsSound()
      requires Valid()
      ensures Sound(Now())
    {
      forall i | 0 <= i < |layers| ensures Now()[i] == Weights(layers[i].w, layers[i].b) { NowAt(|layers|, i); }
    }

    /** What the first `i` layers make of the input with the weights `s`. */
    ghost function Outputs(s: seq<Weights>, i: nat, input: Matrix, m: nat): Matrix
      requires Sound(s) && i <= |layers|
    {
      if i == 0 then input
      else
        var l, x := layers[i - 1], s[i - 1];
        ActivateMatrix(l.activation, Affine(x.w, x.b, Outputs(s, i - 1, input, m), l.inputSize, m), m)
    }

    /** One gradient step of the first `i` layers, fed with `da` from behind: every layer takes rate times its gradients
        off its weights, and what goes on to the layer before comes from the weights before the step. */
    ghost function StepAll(s: seq<Weights>, i: nat, input: Matrix, da: Matrix, m: nat): (t: seq<Weights>)
      requires Sound(s) && i <= |layers| && m > 0
      ensures |t| == i
    {
      if i == 0 then []
      else
        var l, x, aPrev := layers[i - 1], s[i - 1], Outputs(s, i - 1, input, m);
        var dz := DeltaOf(l.activation, Outputs(s, i, input, m), da, m);
        StepAll(s, i - 1, input, InputGradient(x.w, dz, l.inputSize, m), m)
          + [Weights(StepMatrix(x.w, WeightGradient(dz, aPrev, l.inputSize, m), l.learningRate, l.inputSize),
                     StepVector(x.b, BiasGradient(dz, m), l.learningRate))]
    }

    lemma {:induction false} StepIsSound(s: seq<Weights>, i: nat, input: Matrix, da: Matrix, m: nat)
      requires Sound(s) && i <= |layers| && m > 0
      ensures forall k :: 0 <= k < i ==> SoundAt(StepAll(s, i, input, da, m)[k], layers[k])
    {
      hide Outputs, DeltaOf, WeightGradient, BiasGradient, InputGradient, ValidActivation;
      if i > 0 {
        var dz := DeltaOf(layers[i - 1].activation, Outputs(s, i, input, m), da, m);
        StepIsSound(s, i - 1, input, InputGradient(s[i - 1].w, dz, layers[i - 1].inputSize, m), m);
      }
    }

    /** A mini-batch: one step against the gradient of its loss. */
    ghost function StepBatch(s: seq<Weights>, x: Matrix, t: Matrix): (r: seq<Weights>)
      requires Sound(s) && x != [] && |x[0]| > 0
      ensures Sound(r)
    {
      var m := |x[0]|;
      var da := LossGradient(Outputs(s, |layers|, x, m), t, m);
      StepIsSound(s, |layers|, x, da, m);
      StepAll(s, |layers|, x, da, m)
    }

    ghost predicate BatchesFit(xs: seq<Matrix>, ts: seq<Matrix>) {
      |xs| == |ts| && forall x <- xs :: x != [] && |x[0]| > 0
    }

    /** The first `k` mini-batches of an epoch, in order. */
    ghost function Epoch(s: seq<Weights>, xs: seq<Matrix>, ts: seq<Matrix>, k: nat): (r: seq<Weights>)
      requires Sound(s) && BatchesFit(xs, ts) && k <= |xs|
      ensures Sound(r)
    {
      if k == 0 then s
      else
        assert xs[k - 1] in xs;
        StepBatch(Epoch(s, xs, ts, k - 1), xs[k - 1], ts[k - 1])
    }

    /** The sum of the accuracies of the first `k` mini-batches of an epoch. */
    ghost function AllHits(s: seq<Weights>, xs: seq<Matrix>, ts: seq<Matrix>, k: nat): real
      requires Sound(s) && BatchesFit(xs, ts) && k <= |xs|
    {
      if k == 0 then 0.0
      else
        assert xs[k - 1] in xs;
        AllHits(s, xs, ts, k - 1) + Hits(Epoch(s, xs, ts, k - 1), xs[k - 1], ts[k - 1])
    }

    ghost function Epochs(s: seq<Weights>, xs: seq<Matrix>, ts: seq<Matrix>, n: nat): (r: seq<Weights>)
      requires Sound(s) && BatchesFit(xs, ts)
      ensures Sound(r)
    {
      if n == 0 then s else Epoch(Epochs(s, xs, ts, n - 1), xs, ts, |xs|)
    }

    /** The input as training normalises it. */
    function Normalized(input: Matrix): Matrix {
      seq(|input|, i requires 0 <= i < |input| => Normal(input[i], FeatureMean(input[i]), FeatureDeviation(input[i])))
    }

    lemma {:induction false} ThroughIs(i: nat, input: Matrix, m: nat)
      requires Valid() && i <= |layers|
      ensures Sound(Now()) && Through(i, input, m) == Outputs(Now(), i, input, m)
    {
      NowIsSound();
      if i > 0 {
        ThroughIs(i - 1, input, m);
        NowAt(|layers|, i - 1);
      }
    }

    /** The layers behind backward propagation have made that step. */
    lemma {:induction false} SteppedAll(i: nat, s: seq<Weights>, das: seq<Matrix>, input: Matrix, m: nat)
      requires Sound(s) && i <= |layers| && m > 0 && |das| == |layers| + 1
      requires forall k :: 0 <= k < |layers| ==> Backed(layers[k], s[k].w, s[k].b, das[k + 1], das[k], m)
      requires Kept(s, input, m)
      ensures StepAll(s, i, input, das[i], m) == NowUpTo(i)
    {
      hide DeltaOf, WeightGradient, BiasGradient, InputGradient, StepMatrix, StepVector, Outputs;
      if i > 0 {
        SteppedAll(i - 1, s, das, input, m);
        assert Backed(layers[i - 1], s[i - 1].w, s[i - 1].b, das[i], das[i - 1], m);
      }
    }

    // -------------------------------------------------------------- training

    /** normalize: in training the statistics are taken from the input and put behind those there are. */
    method Normalize(input: Matrix, training: bool) returns (r: Matrix)
      requires Rectangular(input) && |input[0]| > 0
      requires !training ==> |input| <= |means| && |input| <= |stdevs|
      modifies this`means, this`stdevs
      ensures Shape(r, |input|, |input[0]|)
      ensures training ==>
                && means == old(means) + seq(|input|, i requires 0 <= i < |input| => FeatureMean(input[i]))
                && stdevs == old(stdevs) + seq(|input|, i requires 0 <= i < |input| => FeatureDeviation(input[i]))
                && forall i :: 0 <= i < |input| ==> r[i] == Normal(input[i], FeatureMean(input[i]), FeatureDeviation(input[i]))
      ensures !training ==> means == old(means) && stdevs == old(stdevs)
      ensures !training ==> forall i :: 0 <= i < |input| ==> r[i] == Normal(input[i], means[i], stdevs[i])
    {
      hide Normal, FeatureMean, FeatureDeviation;
      r := [];
      var i := 0;
      if training {
        while i < |input|
          invariant 0 <= i <= |input| && |r| == i && |means| == |old(means)| + i && |stdevs| == |old(stdevs)| + i
          invariant means[..|old(means)|] == old(means) && stdevs[..|old(stdevs)|] == old(stdevs)
          invariant forall k :: 0 <= k < i ==> means[|old(means)| + k] == FeatureMean(input[k])
          invariant forall k :: 0 <= k < i ==> stdevs[|old(stdevs)| + k] == FeatureDeviation(input[k])
          invariant forall k :: 0 <= k < i ==> r[k] == Normal(input[k], FeatureMean(input[k]), FeatureDeviation(input[k]))
        {
          var feature, mean, stdev := OneFeature(input[i]);
          r := r + [feature];
          means, stdevs := means + [mean], stdevs + [stdev];
          i := i + 1;
        }
      } else {
        while i < |input|
          invariant 0 <= i <= |input| && |r| == i && means == old(means) && stdevs == old(stdevs)
          invariant forall k :: 0 <= k < i ==> r[k] == Normal(input[k], means[k], stdevs[k])
        {
          var feature := ApplyStatistics(input[i], means[i], stdevs[i]);
          r := r + [feature];
          i := i + 1;
        }
      }
    }

    /** How `trainVal` begins. On a fresh network the data it is validated with is normalised like the training data;
        otherwise with the statistics of the first training, whatever the later ones were. */
    method NormalizeBoth(input: Matrix, inputsVal: Matrix) returns (r: Matrix, v: Matrix)
      requires Rectangular(input) && |input[0]| > 0 && Rectangular(inputsVal) && |inputsVal[0]| > 0 && |inputsVal| == |input|
      requires |means| == |stdevs| && (means == [] || |input| <= |means|)
      modifies this`means, this`stdevs
      ensures Shape(r, |input|, |input[0]|) && Shape(v, |input|, |inputsVal[0]|)
      ensures old(means) == [] ==>
                forall i :: 0 <= i < |input| ==> v[i] == Normal(inputsVal[i], FeatureMean(input[i]), FeatureDeviation(input[i]))
      ensures old(means) == [] && inputsVal == input ==> v == r
      ensures old(means) != [] ==> forall i :: 0 <= i < |input| ==> v[i] == Normal(inputsVal[i], old(means)[i], old(stdevs)[i])
    {
      hide Normal, FeatureMean, FeatureDeviation;
      r := Normalize(input, true);
      if old(means) == [] {
        assert forall i :: 0 <= i < |input| ==> means[i] == FeatureMean(input[i]) && stdevs[i] == FeatureDeviation(input[i]);
      } else {
        assert forall i :: 0 <= i < |input| ==> means[i] == old(means)[i] && stdevs[i] == old(stdevs)[i];
      }
      v := Normalize(inputsVal, false);
    }

    function FeatureMean(v: Vector): real {
      if v == [] then 0.0 else Mean(v)
    }

    function FeatureDeviation(v: Vector): real {
      if v == [] then 0.0 else Deviation(sqrt, v)
    }

    method OneFeature(v: Vector) returns (r: Vector, mean: real, stdev: real)
      requires v != []
      ensures mean == FeatureMean(v) && stdev == FeatureDeviation(v) && r == Normal(v, mean, stdev)
    {
      r, mean, stdev := NormalizeFeature(sqrt, v);
    }

    /** One mini-batch: a gradient step, by which with softmax and cross entropy the sums over the classes of the last
        layer's biases and of each column of its weights stay what they are. */
    method TrainStep(input: Matrix, targets: Matrix) returns (accuracy: real)
      requires Valid() && Last().activation.Softmax? && input != [] && Fits(input, |input[0]|)
      requires ValidTargets(targets, Last().outputSize, |input[0]|)
      modifies layers
      ensures Valid()
      ensures VectorSum(Last().b) == old(VectorSum(Last().b))
      ensures forall k :: 0 <= k < Last().inputSize ==> ColumnSum(Last().w, k) == old(ColumnSum(Last().w, k))
      ensures Sound(old(Now())) && Now() == StepBatch(old(Now()), input, targets)
      ensures accuracy == Hits(old(Now()), input, targets)
    {
      NowIsSound();
      SizesFit(input);
      StepBatchIs(Now(), input, targets);
      hide *;
      ghost var s := Now();
      var da;
      da, accuracy := Gradient(input, targets, |input[0]|);
      Learn(input, da, |input[0]|);
    }

    ghost predicate AllPrimed(m: nat)
      reads layers`a, layers`aPrev
    {
      forall i :: 0 <= i < |layers| ==> layers[i].Primed(m)
    }

    ghost predicate Cancels(da: Matrix, m: nat) {
      forall j :: 0 <= j < m ==> ColumnSum(da, j) == 0.0
    }

    lemma SizesFit(input: Matrix)
      requires layers != [] && input != [] && Fits(input, |input[0]|)
      ensures |input[0]| > 0
    {
    }

    /** The share of a mini-batch's examples that are predicted right before the step. */
    ghost function Hits(s: seq<Weights>, x: Matrix, t: Matrix): real
      requires Sound(s) && x != [] && |x[0]| > 0
    {
      Right(Outputs(s, |layers|, x, |x[0]|), t, |x[0]|) as real / |x[0]| as real
    }

    lemma StepBatchIs(s: seq<Weights>, x: Matrix, t: Matrix)
      requires Sound(s) && x != [] && |x[0]| > 0
      ensures Hits(s, x, t) == Right(Outputs(s, |layers|, x, |x[0]|), t, |x[0]|) as real / |x[0]| as real
      ensures StepBatch(s, x, t) == StepAll(s, |layers|, x, LossGradient(Outputs(s, |layers|, x, |x[0]|), t, |x[0]|), |x[0]|)
    {
    }

    /** The forward pass, and the gradient of the loss at its end. */
    method Gradient(input: Matrix, targets: Matrix, m: nat) returns (da: Matrix, accuracy: real)
      requires Valid() && Last().activation.Softmax? && Fits(input, m)
      requires ValidTargets(targets, Last().outputSize, m)
      modifies layers`z, layers`a, layers`aPrev
      ensures Valid() && Shape(da, Last().outputSize, m) && Cancels(da, m) && AllPrimed(m)
      ensures Sound(old(Now())) && Now() == old(Now()) && Kept(Now(), input, m)
      ensures accuracy == Right(Outputs(Now(), |layers|, input, m), targets, m) as real / m as real
      ensures da == LossGradient(Outputs(Now(), |layers|, input, m), targets, m)
    {
      hide *;
      var predictions := ForwardPrimed(input, m);
      SoundLast();
      FitsFacts(input, m);
      LossCancels(input, targets, m);
      ShapeRows(predictions, Last().outputSize, m);
      da, accuracy := LossOf(predictions, targets, m);
      LossShape(predictions, targets, m);
    }

    lemma ShapeRows(x: Matrix, rows: nat, m: nat)
      requires Shape(x, rows, m) && rows > 0
      ensures x != [] && |x| == rows && |x[0]| == m && Shape(x, |x|, m)
    {
    }

    lemma FitsFacts(input: Matrix, m: nat)
      requires Valid() && Fits(input, m)
      ensures m > 0 && input != [] && |input[0]| == m
    {
    }

    lemma LossShape(predictions: Matrix, targets: Matrix, m: nat)
      ensures Shape(LossGradient(predictions, targets, m), |predictions|, m)
    {
    }

    method LossOf(predictions: Matrix, targets: Matrix, m: nat) returns (da: Matrix, accuracy: real)
      requires predictions != [] && Shape(predictions, |predictions|, m) && m > 0 && ValidTargets(targets, |predictions|, m)
      ensures da == LossGradient(predictions, targets, m)
      ensures accuracy == Right(predictions, targets, m) as real / m as real
    {
      accuracy := Accuracy(predictions, targets);
      da := LossDerivative(predictions, targets);
    }

    method ForwardPrimed(input: Matrix, m: nat) returns (predictions: Matrix)
      requires Valid() && Fits(input, m)
      modifies layers`z, layers`a, layers`aPrev
      ensures Valid() && AllPrimed(m) && Shape(predictions, Last().outputSize, m)
      ensures Sound(old(Now())) && Now() == old(Now()) && Kept(Now(), input, m)
      ensures predictions == Outputs(Now(), |layers|, input, m)
    {
      hide *;
      FitsFacts(input, m);
      NowIsSound();
      predictions := ForwardPropagation(input);
      ThroughIs(|layers|, input, m);
      FedAll(Now(), input, m);
    }

    lemma FedAll(s: seq<Weights>, input: Matrix, m: nat)
      requires Sound(s) && Fed(|layers|, s, input, m)
      ensures Kept(s, input, m) && AllPrimed(m)
    {
      hide Outputs, Sound, DenseLayer.Primed;
    }

    /** Every layer keeps what it was fed with and what it made of that. */
    ghost predicate Kept(s: seq<Weights>, input: Matrix, m: nat)
      requires Sound(s)
      reads layers`a, layers`aPrev
    {
      forall i :: 0 <= i < |layers| ==> layers[i].aPrev == Outputs(s, i, input, m) && layers[i].a == Outputs(s, i + 1, input, m)
    }

    lemma FirstInput()
      requires Valid()
      ensures layers[0].inputSize > 0
    {
    }

    /** Backward propagation from a gradient that cancels. */
    method Learn(ghost input: Matrix, da: Matrix, m: nat)
      requires Valid() && Last().activation.Softmax? && m > 0 && Shape(da, Last().outputSize, m)
      requires Cancels(da, m) && AllPrimed(m)
      requires Sound(Now()) && Kept(Now(), input, m)
      modifies layers`w, layers`b, layers`dw, layers`db
      ensures Sound(old(Now())) && Now() == StepAll(old(Now()), |layers|, input, da, m)
      ensures Valid() && VectorSum(Last().b) == old(VectorSum(Last().b))
      ensures forall k :: 0 <= k < Last().inputSize ==> ColumnSum(Last().w, k) == old(ColumnSum(Last().w, k))
    {
      SoundLast();
      NowIsSound();
      ghost var n, w, b, s := |layers| - 1, Last().w, Last().b, Now();
      forall i | 0 <= i < |layers| ensures s[i] == Weights(layers[i].w, layers[i].b) { NowAt(|layers|, i); }
      hide Valid, Backed, DenseLayer.Valid, DenseLayer.Primed, ColumnSum, VectorSum, Through, Outputs, NowUpTo, StepAll, Sound, Kept;
      ghost var das := BackwardPropagation(da);
      SteppedAll(|layers|, s, das, input, m);
      assert Backed(layers[n], w, b, das[n + 1], das[n], m);
      BackedConserves(layers[n], w, b, da, das[n], m);
    }

    /** What the last layer has in all: the sums over the classes of its biases and of each column of its weights. */
    ghost function Sums(): (r: (real, Vector))
      requires layers != []
      reads layers`w, layers`b
    {
      var w := Last().w;
      (VectorSum(Last().b), BuildVector(Last().inputSize, k => ColumnSum(w, k)))
    }

    /** Training over all epochs and mini-batches: with a softmax layer at the end and cross entropy the sums over the
        classes of the last layer's biases and of each column of its weights never change. */
    method Train(input: Matrix, targets: Matrix, epochNum: int, miniBatchSize: nat) returns (accuracyRate: real)
      requires Valid() && Last().activation.Softmax? && miniBatchSize > 0
      requires input != [] && Fits(input, |input[0]|) && Shape(targets, |targets|, |input[0]|)
      requires ValidTargets(targets, Last().outputSize, |input[0]|)
      modifies this`means, this`stdevs, layers
      ensures Valid() && Sums() == old(Sums())
      ensures var cuts := Cuts(|input[0]|, miniBatchSize, 0);
              && CutsFit(Normalized(input), cuts) && CutsFit(targets, cuts) && Sound(old(Now()))
              && BatchesFit(Batches(Normalized(input), cuts), Batches(targets, cuts))
              && Now() == Epochs(old(Now()), Batches(Normalized(input), cuts), Batches(targets, cuts), if epochNum > 0 then epochNum else 0)
      ensures epochNum <= 0 ==> accuracyRate == 0.0
      ensures epochNum > 0 ==>
                var cuts := Cuts(|input[0]|, miniBatchSize, 0);
                var xs, ts := Batches(Normalized(input), cuts), Batches(targets, cuts);
                |xs| > 0 && accuracyRate == AllHits(Epochs(old(Now()), xs, ts, epochNum - 1), xs, ts, |xs|) / |xs| as real
    {
      hide *;
      NowIsSound();
      ghost var s0 := Now();
      var xs, ts := Prepared(input, targets, miniBatchSize);
      AllOkFits(xs, ts);
      NoEpoch(s0, xs, ts);
      var epoch := 0;
      accuracyRate := 0.0;
      while epoch < epochNum
        invariant 0 <= epoch && (epoch <= epochNum || epoch == 0) && Valid() && Sums() == old(Sums())
        invariant Now() == Epochs(s0, xs, ts, epoch)
        invariant epoch == 0 ==> accuracyRate == 0.0
        invariant epoch > 0 ==> accuracyRate == AllHits(Epochs(s0, xs, ts, epoch - 1), xs, ts, |xs|) / |xs| as real
        decreases epochNum - epoch
      {
        NextEpoch(s0, xs, ts, epoch);
        epoch := epoch + 1;
        accuracyRate := TrainEpoch(xs, ts);
      }
    }

    /** The normalised input and the targets, cut into mini-batches. */
    method Prepared(input: Matrix, targets: Matrix, miniBatchSize: nat) returns (xs: seq<Matrix>, ts: seq<Matrix>)
      requires Valid() && miniBatchSize > 0
      requires input != [] && Fits(input, |input[0]|) && Shape(targets, |targets|, |input[0]|)
      requires ValidTargets(targets, Last().outputSize, |input[0]|)
      modifies this`means, this`stdevs
      ensures Valid() && Now() == old(Now()) && Sums() == old(Sums()) && AllOk(xs, ts)
      ensures var cuts := Cuts(|input[0]|, miniBatchSize, 0);
              && CutsFit(Normalized(input), cuts) && CutsFit(targets, cuts)
              && xs == Batches(Normalized(input), cuts) && ts == Batches(targets, cuts)
    {
      hide Valid, Sums, ValidTargets, CutsFit, Now, Batches, BatchOk, Normal, FeatureMean, FeatureDeviation, Cuts, AllOk;
      assert Rectangular(input);
      var normalized := Normalize(input, true);
      assert normalized == Normalized(input);
      xs, ts := MiniBatches(normalized, targets, miniBatchSize);
      BatchesOk(normalized, targets, Cuts(|input[0]|, miniBatchSize, 0), |input[0]|, miniBatchSize);
    }

    lemma NoEpoch(s: seq<Weights>, xs: seq<Matrix>, ts: seq<Matrix>)
      requires Sound(s) && BatchesFit(xs, ts)
      ensures Epochs(s, xs, ts, 0) == s && Epoch(s, xs, ts, 0) == s && AllHits(s, xs, ts, 0) == 0.0
    {
    }

    lemma NextEpoch(s: seq<Weights>, xs: seq<Matrix>, ts: seq<Matrix>, n: nat)
      requires Sound(s) && BatchesFit(xs, ts)
      ensures Epochs(s, xs, ts, n + 1) == Epoch(Epochs(s, xs, ts, n), xs, ts, |xs|)
    {
      hide Epoch, Sound;
    }

    lemma NextBatchIs(s: seq<Weights>, xs: seq<Matrix>, ts: seq<Matrix>, k: nat)
      requires Sound(s) && BatchesFit(xs, ts) && k < |xs|
      ensures xs[k] != [] && |xs[k][0]| > 0
      ensures Epoch(s, xs, ts, k + 1) == StepBatch(Epoch(s, xs, ts, k), xs[k], ts[k])
      ensures AllHits(s, xs, ts, k + 1) == AllHits(s, xs, ts, k) + Hits(Epoch(s, xs, ts, k), xs[k], ts[k])
    {
      hide StepBatch, Sound, Hits;
      assert xs[k] in xs;
    }

    /** All the mini-batches once, in order; the accuracy is the mean of theirs. */
    method TrainEpoch(xs: seq<Matrix>, ts: seq<Matrix>) returns (accuracyRate: real)
      requires Valid() && Last().activation.Softmax? && AllOk(xs, ts)
      modifies layers
      ensures Valid() && Sums() == old(Sums()) && BatchesFit(xs, ts) && Sound(old(Now())) && Now() == Epoch(old(Now()), xs, ts, |xs|)
      ensures |xs| > 0 && accuracyRate == AllHits(old(Now()), xs, ts, |xs|) / |xs| as real
    {
      hide *;
      NowIsSound();
      AllOkFits(xs, ts);
      ghost var s1 := Now();
      NoEpoch(s1, xs, ts);
      accuracyRate := 0.0;
      var batchNum := 0;
      while batchNum < |xs|
        invariant 0 <= batchNum <= |xs| && Valid() && Sums() == old(Sums())
        invariant Now() == Epoch(s1, xs, ts, batchNum) && accuracyRate == AllHits(s1, xs, ts, batchNum)
      {
        NextBatchIs(s1, xs, ts, batchNum);
        BatchIsOk(xs, ts, batchNum);
        var accuracy := TrainBatch(xs[batchNum], ts[batchNum]);
        accuracyRate := accuracyRate + accuracy;
        batchNum := batchNum + 1;
      }
      accuracyRate := accuracyRate / |xs| as real;
    }

    /** Mini-batches of the data. */
    ghost predicate AllOk(xs: seq<Matrix>, ts: seq<Matrix>)
      requires layers != []
    {
      |xs| == |ts| > 0 && forall k :: 0 <= k < |xs| ==> BatchOk(xs[k], ts[k])
    }

    lemma AllOkFits(xs: seq<Matrix>, ts: seq<Matrix>)
      requires layers != [] && AllOk(xs, ts)
      ensures BatchesFit(xs, ts) && |xs| == |ts| > 0
    {
    }

    lemma BatchIsOk(xs: seq<Matrix>, ts: seq<Matrix>, k: nat)
      requires layers != [] && AllOk(xs, ts) && k < |xs|
      ensures k < |ts| && BatchOk(xs[k], ts[k])
    {
    }

    /** A mini-batch of the data. */
    ghost predicate BatchOk(x: Matrix, t: Matrix)
      requires layers != []
    {
      x != [] && Fits(x, |x[0]|) && ValidTargets(t, Last().outputSize, |x[0]|)
    }

    method TrainBatch(x: Matrix, t: Matrix) returns (accuracy: real)
      requires Valid() && Last().activation.Softmax? && BatchOk(x, t)
      modifies layers
      ensures Valid() && Sums() == old(Sums())
      ensures x != [] && Sound(old(Now())) && Now() == StepBatch(old(Now()), x, t) && accuracy == Hits(old(Now()), x, t)
    {
      ghost var before := Sums();
      SoundLast();
      accuracy := TrainStep(x, t);
      hide Valid, DenseLayer.Valid, ColumnSum, VectorSum, Now, StepBatch, Sound;
      assert forall k :: 0 <= k < Last().inputSize ==> Sums().1[k] == before.1[k];
      assert Sums().1 == before.1;
      assert Sums().0 == before.0;
    }

    lemma BatchesOk(x: Matrix, targets: Matrix, cuts: seq<(nat, nat)>, m: nat, size: nat)
      requires Valid() && Fits(x, m) && Shape(targets, |targets|, m) && ValidTargets(targets, Last().outputSize, m)
      requires size > 0 && cuts == Cuts(m, size, 0) && CutsFit(x, cuts) && CutsFit(targets, cuts)
      ensures AllOk(Batches(x, cuts), Batches(targets, cuts))
    {
      FirstInput();
      CutsPartition(m, size, 0);
      BatchesShape(x, cuts, 0);
      BatchesShape(targets, cuts, 0);
      hide Valid, Batches, Slice, Cuts, CutsFit, BatchOk, ValidTargets;
      forall k | 0 <= k < |cuts| ensures BatchOk(Batches(x, cuts)[k], Batches(targets, cuts)[k]) {
        SliceOk(x, targets, m, cuts[k].0, cuts[k].1);
      }
    }

    lemma SliceOk(x: Matrix, targets: Matrix, m: nat, from: nat, to: nat)
      requires Valid() && Fits(x, m) && Shape(targets, |targets|, m) && ValidTargets(targets, Last().outputSize, m) && from < to <= m
      ensures BatchOk(Slice(x, from, to), Slice(targets, from, to))
    {
      FirstInput();
      var t := Slice(targets, from, to);
      forall j | 0 <= j < to - from ensures ClassOf(t, j) == ClassOf(targets, from + j) { }
    }

    lemma SoundLast()
      requires Valid()
      ensures layers != [] && Last().Valid() && Last().outputSize > 0
      ensures |Last().w| == |Last().b| == Last().outputSize
    {
    }

    /** The gradient that training starts from cancels in every column. */
    lemma LossCancels(input: Matrix, targets: Matrix, m: nat)
      requires Valid() && Last().activation.Softmax? && m > 0 && ValidTargets(targets, Last().outputSize, m)
      ensures Sound(Now()) && Cancels(LossGradient(Outputs(Now(), |layers|, input, m), targets, m), m)
    {
      ThroughIs(|layers|, input, m);
      var l := Last();
      var z := l.Z(Through(|layers| - 1, input, m), m);
      assert Through(|layers|, input, m) == SoftmaxOf(l.activation.exp, z, m) && |z| == l.outputSize;
      hide Through, Outputs, ColumnSum, LossGradient, DenseLayer.Z, SoftmaxOf, ValidTargets;
      forall j | 0 <= j < m ensures ColumnSum(LossGradient(Through(|layers|, input, m), targets, m), j) == 0.0 {
        GradientCancels(l.activation.exp, z, targets, m, j);
      }
    }

    /** A step of a softmax layer from a gradient that cancels. */
    lemma BackedConserves(l: DenseLayer, w: Matrix, b: Vector, da: Matrix, daPrev: Matrix, m: nat)
      requires m > 0 && Backed(l, w, b, da, daPrev, m) && l.activation.Softmax? && |da| == |w| == |b|
      requires Cancels(da, m)
      ensures VectorSum(l.b) == VectorSum(b)
      ensures forall k :: 0 <= k < l.inputSize ==> ColumnSum(l.w, k) == ColumnSum(w, k)
    {
      hide ColumnSum, VectorSum, StepMatrix, StepVector, WeightGradient, BiasGradient, InputGradient;
      ColumnsCancel(da, l.aPrev, l.inputSize, m);
      var dw, db := WeightGradient(da, l.aPrev, l.inputSize, m), BiasGradient(da, m);
      StepKeepsSum(b, db, l.learningRate);
      forall k | 0 <= k < l.inputSize ensures ColumnSum(l.w, k) == ColumnSum(w, k) {
        StepKeepsColumn(w, dw, l.learningRate, l.inputSize, k);
      }
    }
  }
}