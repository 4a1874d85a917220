/**
 * The network of src/neural_network.rs at the level of matrix shapes: every
 * weight and bias matrix is reduced to its (rows, cols). The values, the
 * leaky ReLU and the gradient arithmetic are not modelled; what is proved is
 * that every matrix operation the source performs is shape-correct and that
 * layer insertion keeps the layers chained.
 */
module NeuralNetworks {

  datatype Shape = Shape(rows: nat, cols: nat)

  /** `a.dot(b)`: defined (ndarray does not panic) only when the inner widths agree. */
  function Dot(a: Shape, b: Shape): Shape
    requires a.cols == b.rows
  {
    Shape(a.rows, b.cols)
  }

  /** `a.t()`. */
  function Transpose(a: Shape): Shape {
    Shape(a.cols, a.rows)
  }

  /** `a + &b` with a `1 x cols` row `b` broadcast over the rows of `a`. */
  function AddRow(a: Shape, b: Shape): Shape
    requires b == Shape(1, a.cols)
  {
    a
  }

  /** `a - &b`, `a -= &b` and element-wise `a * b` on equal shapes. */
  function Elementwise(a: Shape, b: Shape): Shape
    requires a == b
  {
    a
  }

  /** `sum_axis(Axis(0))` of a matrix gives one entry per column, broadcast onto a `1 x cols` bias row. */
  function ColumnSums(a: Shape): Shape {
    Shape(1, a.cols)
  }

  /** `Vec::insert(i, x)`. */
  function Insert<T>(s: seq<T>, i: nat, x: T): (r: seq<T>)
    requires i <= |s|
    ensures |r| == |s| + 1 && r[i] == x
    ensures forall j :: 0 <= j < i ==> r[j] == s[j]
    ensures forall j :: i < j <= |s| ==> r[j] == s[j - 1]
  {
    s[..i] + [x] + s[i..]
  }

  /**
   * The shape chain: as many biases as weights, each layer's output width is
   * the next layer's input width, and each bias is a row as wide as its layer's output.
   */
  ghost predicate Chained(weights: seq<Shape>, biases: seq<Shape>) {
    |weights| == |biases| && |weights| > 0 &&
    (forall i :: 0 <= i < |weights| - 1 ==> weights[i].cols == weights[i + 1].rows) &&
    (forall i :: 0 <= i < |biases| ==> biases[i] == Shape(1, weights[i].cols))
  }

  /** The weights after `add_hidden_layer(neurons, after)`. */
  function HiddenWeights(weights: seq<Shape>, neurons: nat, after: nat): (r: seq<Shape>)
    requires after < |weights|
    ensures |r| == |weights| + 1
    ensures r[after] == Shape(weights[after].rows, neurons)
    ensures r[after + 1] == Shape(neurons, weights[after].cols)
    ensures forall j :: 0 <= j < after ==> r[j] == weights[j]
    ensures forall j :: after + 1 < j < |r| ==> r[j] == weights[j - 1]
  {
    Insert(weights[after := Shape(weights[after].rows, neurons)], after + 1, Shape(neurons, weights[after].cols))
  }

  /** The biases after `add_hidden_layer(neurons, after)`. */
  function HiddenBiases(biases: seq<Shape>, neurons: nat, after: nat): (r: seq<Shape>)
    requires after <= |biases|
    ensures |r| == |biases| + 1
    ensures r[after] == Shape(1, neurons)
    ensures forall j :: 0 <= j < after ==> r[j] == biases[j]
    ensures forall j :: after < j < |r| ==> r[j] == biases[j - 1]
  {
    Insert(biases, after, Shape(1, neurons))
  }

  /**
   * Inserting a hidden layer keeps the chain and the network's overall input
   * and output widths.
   */
  lemma HiddenLayerKeepsChain(weights: seq<Shape>, biases: seq<Shape>, neurons: nat, after: nat)
    requires Chained(weights, biases) && after < |weights|
    ensures var w, b := HiddenWeights(weights, neurons, after), HiddenBiases(biases, neurons, after);
            Chained(w, b) && w[0].rows == weights[0].rows && w[|w| - 1].cols == weights[|weights| - 1].cols
  {
    var w, b := HiddenWeights(weights, neurons, after), HiddenBiases(biases, neurons, after);
    forall i | 0 <= i < |w| - 1 ensures w[i].cols == w[i + 1].rows {
      if i + 1 < after {
      } else if i + 1 == after {
        assert w[i] == weights[i] && weights[i].cols == weights[i + 1].rows;
      } else if i == after {
      } else if i == after + 1 {
        assert w[i + 1] == weights[i] && weights[i - 1].cols == weights[i].rows;
      } else {
        assert w[i] == weights[i - 1] && w[i + 1] == weights[i];
      }
    }
    forall i | 0 <= i < |b| ensures b[i] == Shape(1, w[i].cols) {
      if i < after {
      } else if i == after {
      } else if i == after + 1 {
        assert b[i] == biases[after] && w[i] == Shape(neurons, weights[after].cols);
      } else {
        assert b[i] == biases[i - 1] && w[i] == weights[i - 1];
      }
    }
  }

  /** One step of `backward`: the layer visited, the input it used and the error it saw. */
  datatype LayerVisit = LayerVisit(layer: nat, input: Shape, error: Shape)

  class NeuralNetwork {
    var weights: seq<Shape>
    var biases: seq<Shape>

    ghost predicate Valid()
      reads this
    {
      Chained(weights, biases)
    }

    function InputSize(): nat
      reads this
      requires Valid()
    {
      weights[0].rows
    }

    function OutputSize(): nat
      reads this
      requires Valid()
    {
      weights[|weights| - 1].cols
    }

    /** `NeuralNetwork::new`: one `input_size x output_size` layer with a `1 x output_size` bias. */
    constructor (inputSize: nat, outputSize: nat)
      ensures Valid()
      ensures weights == [Shape(inputSize, outputSize)] && biases == [Shape(1, outputSize)]
      ensures InputSize() == inputSize && OutputSize() == outputSize
    {
      weights := [Shape(inputSize, outputSize)];
      biases := [Shape(1, outputSize)];
    }

    /**
     * `add_hidden_layer`: resize layer `after` to `neurons` outputs and insert a
     * `neurons`-input layer after it, with a new bias at `after`. The source's
     * assertion failure for `after >= weights.len()` is `ok == false` with nothing changed.
     */
    method AddHiddenLayer(neurons: nat, after: nat) returns (ok: bool)
      requires Valid()
      modifies this
      ensures Valid()
      ensures ok == (after < |old(weights)|)
      ensures ok ==> weights == HiddenWeights(old(weights), neurons, after) &&
                     biases == HiddenBiases(old(biases), neurons, after)
      ensures !ok ==> weights == old(weights) && biases == old(biases)
      ensures InputSize() == old(InputSize()) && OutputSize() == old(OutputSize())
    {
      if after >= |weights| {
        return false;
      }
      HiddenLayerKeepsChain(weights, biases, neurons, after);
      var inputSize := weights[after].rows;
      var outputSize := weights[after].cols;
      weights := weights[after := Shape(inputSize, neurons)];
      weights := Insert(weights, after + 1, Shape(neurons, outputSize));
      biases := Insert(biases, after, Shape(1, neurons));
      ok := true;
    }

    /** `forward`: one activation per layer, each with the input's rows and the layer's output width. */
    method Forward(x: Shape) returns (activations: seq<Shape>)
      requires Valid() && x.cols == InputSize()
      ensures |activations| == |weights|
      ensures forall i :: 0 <= i < |weights| ==> activations[i] == Shape(x.rows, weights[i].cols)
    {
      activations := [];
      var current := x;
      for i := 0 to |weights|
        invariant |activations| == i
        invariant current == if i == 0 then x else Shape(x.rows, weights[i - 1].cols)
        invariant forall j :: 0 <= j < i ==> activations[j] == Shape(x.rows, weights[j].cols)
      {
        current := AddRow(Dot(current, weights[i]), biases[i]);
        activations := activations + [current];
      }
    }

    /**
     * `backward` at shape level: layers are visited from the last down to 0,
     * each with `x` (layer 0) or the previous activation as input; every
     * product, difference and in-place update is shape-correct and no shape changes.
     * The learning rate only scales values and is not modelled.
     */
    method Backward(x: Shape, y: Shape, activations: seq<Shape>, learningRate: real)
      returns (ghost visits: seq<LayerVisit>)
      requires Valid() && x.cols == InputSize()
      requires |activations| == |weights|
      requires forall i :: 0 <= i < |weights| ==> activations[i] == Shape(x.rows, weights[i].cols)
      requires y == activations[|activations| - 1]
      modifies this
      ensures weights == old(weights) && biases == old(biases)
      ensures |visits| == |weights|
      ensures forall k :: 0 <= k < |visits| ==>
                var i := |weights| - 1 - k;
                visits[k] == LayerVisit(i, if i == 0 then x else activations[i - 1], activations[i])
    {
      var error := Elementwise(activations[|activations| - 1], y);
      visits := [];
      var i := |weights|;
      while i > 0
        invariant 0 <= i <= |weights|
        invariant weights == old(weights) && biases == old(biases)
        invariant i > 0 ==> error == activations[i - 1]
        invariant |visits| == |weights| - i
        invariant forall k :: 0 <= k < |visits| ==>
                    var l := |weights| - 1 - k;
                    visits[k] == LayerVisit(l, if l == 0 then x else activations[l - 1], activations[l])
      {
        i := i - 1;
        var input := if i == 0 then x else activations[i - 1];
        visits := visits + [LayerVisit(i, input, error)];
        var dWeights := Dot(Transpose(input), error);
        var dBiases := ColumnSums(error);
        weights := weights[i := Elementwise(weights[i], dWeights)];
        biases := biases[i := Elementwise(biases[i], dBiases)];
        if i > 0 {
          error := Elementwise(Dot(error, Transpose(weights[i])), activations[i - 1]);
        }
      }
    }
  }
}
