/**
 * The predictive stack (`sdr::PredictiveRSDR`): an ordered list of layers,
 * bottom layer first, each with its descriptor, plus the prediction vector
 * decoded over the bottom layer's visible field. Each layer's underlying
 * RSDR is represented by what this facade touches of it: its visible input
 * buffer and its visible width. The step and the randomised construction are
 * not part of this model.
 */
module PredictiveStack {
  import opened Scalars
  import Grid

  /** A weighted edge to node `index` of another field (no trace at this level). */
  datatype Connection = Connection(index: uint16, weight: real)

  /** Shape, radii and rates of one layer of the stack. */
  datatype LayerDesc = LayerDesc(
    width: int, height: int,
    receptiveRadius: int, recurrentRadius: int, lateralRadius: int,
    predictiveRadius: int, feedBackRadius: int,
    learnFeedForward: real, learnRecurrent: real, learnLateral: real, learnBias: real,
    learnFeedBack: real, learnPrediction: real,
    averageSurpriseDecay: real,
    attentionFactor: real,
    sparsity: real)

  /**
   * `LayerDesc()`: a 16 by 16 layer with receptive radius 8, recurrent 6,
   * lateral 5, predictive 6 and feedback 8. The rates are the decimal values
   * of the C++ `float` literals.
   */
  function DefaultLayerDesc(): (d: LayerDesc)
    ensures d.width == 16 && d.height == 16
    ensures d.receptiveRadius == 8 && d.recurrentRadius == 6 && d.lateralRadius == 5
    ensures d.predictiveRadius == 6 && d.feedBackRadius == 8
    ensures d.learnFeedForward == 0.1 && d.learnRecurrent == 0.1 && d.learnLateral == 0.2
    ensures d.learnBias == 0.05 && d.learnFeedBack == 0.01 && d.learnPrediction == 0.01
    ensures d.averageSurpriseDecay == 0.01 && d.attentionFactor == 2.0 && d.sparsity == 0.05
  {
    LayerDesc(16, 16, 8, 6, 5, 6, 8, 0.1, 0.1, 0.2, 0.05, 0.01, 0.01, 0.01, 2.0, 0.05)
  }

  /** The top-down expectation for one hidden unit. */
  datatype PredictionNode = PredictionNode(
    feedBack: seq<Connection>,
    predictive: seq<Connection>,
    bias: Connection,
    state: real,
    statePrev: real,
    averageSurprise: real)

  /**
   * `PredictionNode()`: no expectation yet, no surprise so far, no
   * connections. The C++ constructor leaves the bias connection
   * indeterminate, so the model takes it as a parameter.
   */
  function NewPredictionNode(bias: Connection): (p: PredictionNode)
    ensures p.state == 0.0 && p.statePrev == 0.0 && p.averageSurprise == 0.0
    ensures p.feedBack == [] && p.predictive == [] && p.bias == bias
  {
    PredictionNode([], [], bias, 0.0, 0.0, 0.0)
  }

  /**
   * One layer: the visible input buffer and visible width of its RSDR, and
   * its prediction nodes.
   */
  datatype Layer = Layer(visibleInput: array<real>, visibleWidth: int, predictionNodes: seq<PredictionNode>)

  /** Every layer owns its own input buffer, and the prediction vector is separate from all of them. */
  ghost predicate SeparateBuffers(layers: seq<Layer>, prediction: array<real>) {
    (forall i, j :: 0 <= i < j < |layers| ==> layers[i].visibleInput != layers[j].visibleInput) &&
    (forall i :: 0 <= i < |layers| ==> layers[i].visibleInput != prediction)
  }

  class PredictiveRSDR {
    var layerDescs: seq<LayerDesc>
    var layers: seq<Layer>
    var prediction: array<real>

    /** The stack owns its buffers: no two of them are the same vector. */
    ghost predicate Valid()
      reads this
    {
      SeparateBuffers(layers, prediction)
    }

    /** The implicit default constructor: no layers, no descriptors, an empty prediction. */
    constructor ()
      ensures Valid()
      ensures layerDescs == [] && layers == [] && prediction.Length == 0
      ensures fresh(prediction)
    {
      layerDescs, layers := [], [];
      prediction := new real[0];
    }

    /**
     * A stack holding the given descriptors, layers and prediction vector,
     * as the randomised construction leaves it (that construction is not
     * part of this model). The buffers must be separately owned, as vectors
     * held by value are.
     */
    constructor Adopt(layerDescs: seq<LayerDesc>, layers: seq<Layer>, prediction: array<real>)
      requires SeparateBuffers(layers, prediction)
      ensures Valid()
      ensures this.layerDescs == layerDescs && this.layers == layers && this.prediction == prediction
    {
      this.layerDescs, this.layers, this.prediction := layerDescs, layers, prediction;
    }

    /**
     * `setInput(index, value)`: writes input `index` of the bottom layer,
     * and nothing else.
     */
    method SetInput(index: int, value: real)
      requires Valid() && |layers| > 0
      requires 0 <= index < layers[0].visibleInput.Length
      modifies layers[0].visibleInput
      ensures Valid()
      ensures layers[0].visibleInput[..] == old(layers[0].visibleInput[..])[index := value]
      ensures forall k :: 0 < k < |layers| ==> layers[k].visibleInput[..] == old(layers[k].visibleInput[..])
      ensures prediction[..] == old(prediction[..])
    {
      layers[0].visibleInput[index] := value;
    }

    /**
     * `setInput(x, y, value)`: the flat write at `x + y * w`, where `w` is
     * the bottom layer's visible width.
     */
    method SetInputXY(x: int, y: int, value: real)
      requires Valid() && |layers| > 0
      requires 0 <= Grid.FlatIndex(x, y, layers[0].visibleWidth) < layers[0].visibleInput.Length
      modifies layers[0].visibleInput
      ensures Valid()
      ensures layers[0].visibleInput[..]
              == old(layers[0].visibleInput[..])[Grid.FlatIndex(x, y, layers[0].visibleWidth) := value]
      ensures forall k :: 0 < k < |layers| ==> layers[k].visibleInput[..] == old(layers[k].visibleInput[..])
      ensures prediction[..] == old(prediction[..])
    {
      SetInput(x + y * layers[0].visibleWidth, value);
    }

    function GetPrediction(index: int): real
      reads this, prediction
      requires 0 <= index < prediction.Length
    {
      prediction[index]
    }

    /**
     * `getPrediction(x, y)`: the prediction for the bottom-layer input at
     * `(x, y)`, addressed with the bottom layer's visible width.
     */
    function GetPredictionXY(x: int, y: int): (r: real)
      reads this, prediction
      requires |layers| > 0
      requires 0 <= Grid.FlatIndex(x, y, layers[0].visibleWidth) < prediction.Length
      ensures r == prediction[Grid.FlatIndex(x, y, layers[0].visibleWidth)]
    {
      GetPrediction(x + y * layers[0].visibleWidth)
    }

    /** `getLayerDescs()`: the stored descriptors, unchanged. */
    function GetLayerDescs(): (descs: seq<LayerDesc>)
      reads this
      ensures descs == layerDescs
    {
      layerDescs
    }

    /** `getLayers()`: the stored layers, unchanged. */
    function GetLayers(): (ls: seq<Layer>)
      reads this
      ensures ls == layers
    {
      layers
    }
  }
}
