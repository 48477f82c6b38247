/**
 * One sparse distributed representation layer (`sdr::IRSDR`): a visible
 * (input) field and a hidden (code) field of nodes, addressed by a flat
 * index or by `(x, y)` on a row-major grid. The numeric passes (activation,
 * inhibition, reconstruction, learning, the step-end rotation) are not part
 * of this model; what is modelled is the node store itself: node defaults,
 * the in-place write of a visible input and the reads of node fields.
 */
module SdrLayer {
  import opened Scalars
  import Grid

  /** A weighted edge to node `index` of another field, with its eligibility trace. */
  datatype Connection = Connection(index: uint16, weight: real, trace: real)

  /** One sparse code unit with its three connection lists and its activity. */
  datatype HiddenNode = HiddenNode(
    feedForward: seq<Connection>,
    recurrent: seq<Connection>,
    lateral: seq<Connection>,
    activation: real,
    spike: real,
    spikePrev: real,
    state: real,
    statePrev: real,
    input: real,
    reconstruction: real,
    threshold: real)

  /** One element of the input field and its reconstruction. */
  datatype VisibleNode = VisibleNode(input: real, reconstruction: real)

  /**
   * `Connection()`: a new connection has gathered no eligibility. The C++
   * constructor leaves the target index and the weight indeterminate, so the
   * model takes whatever values they hold as parameters.
   */
  function NewConnection(index: uint16, weight: real): (c: Connection)
    ensures c.trace == 0.0
    ensures c.index == index && c.weight == weight
  {
    Connection(index, weight, 0.0)
  }

  /** A hidden node that shows no activity, now or in the previous step. */
  predicate Silent(h: HiddenNode) {
    h.activation == 0.0 && h.spike == 0.0 && h.spikePrev == 0.0 &&
    h.state == 0.0 && h.statePrev == 0.0 && h.input == 0.0 && h.reconstruction == 0.0
  }

  /** `HiddenNode()`: silent, unconnected, with firing threshold one. */
  function NewHiddenNode(): (h: HiddenNode)
    ensures Silent(h) && h.threshold == 1.0
    ensures h.feedForward == [] && h.recurrent == [] && h.lateral == []
  {
    HiddenNode([], [], [], 0.0, 0.0, 0.0, 0.0, 0.0, 0.0, 0.0, 1.0)
  }

  /** `VisibleNode()`: no input and no reconstruction. */
  function NewVisibleNode(): (v: VisibleNode)
    ensures v.input == 0.0 && v.reconstruction == 0.0
  {
    VisibleNode(0.0, 0.0)
  }

  /** The visible field after the input of node `index` is set to `value`. */
  function WithInput(nodes: seq<VisibleNode>, index: int, value: real): (r: seq<VisibleNode>)
    requires 0 <= index < |nodes|
    ensures |r| == |nodes|
    ensures r[index].input == value && r[index].reconstruction == nodes[index].reconstruction
    ensures forall j :: 0 <= j < |nodes| && j != index ==> r[j] == nodes[j]
  {
    nodes[index := nodes[index].(input := value)]
  }

  /** Setting the same input twice keeps only the second value. */
  lemma WithInputLastWriteWins(nodes: seq<VisibleNode>, index: int, first: real, second: real)
    requires 0 <= index < |nodes|
    ensures WithInput(WithInput(nodes, index, first), index, second) == WithInput(nodes, index, second)
  {
  }

  /** Setting the inputs of two different nodes gives the same field in either order. */
  lemma WithInputCommutes(nodes: seq<VisibleNode>, i: int, j: int, a: real, b: real)
    requires 0 <= i < |nodes| && 0 <= j < |nodes| && i != j
    ensures WithInput(WithInput(nodes, i, a), j, b) == WithInput(WithInput(nodes, j, b), i, a)
  {
  }

  class IRSDR {
    var visibleWidth: int
    var visibleHeight: int
    var hiddenWidth: int
    var hiddenHeight: int
    var receptiveRadius: int
    var recurrentRadius: int

    var visible: array<VisibleNode>
    var hidden: array<HiddenNode>

    /**
     * A layer holding the given fields, as the randomised construction
     * leaves it (that construction is not part of this model).
     */
    constructor (visibleNodes: seq<VisibleNode>, hiddenNodes: seq<HiddenNode>,
                 visibleWidth: int, visibleHeight: int, hiddenWidth: int, hiddenHeight: int,
                 receptiveRadius: int, recurrentRadius: int)
      ensures fresh(visible) && fresh(hidden)
      ensures visible[..] == visibleNodes && hidden[..] == hiddenNodes
      ensures this.visibleWidth == visibleWidth && this.visibleHeight == visibleHeight
      ensures this.hiddenWidth == hiddenWidth && this.hiddenHeight == hiddenHeight
      ensures this.receptiveRadius == receptiveRadius && this.recurrentRadius == recurrentRadius
    {
      this.visibleWidth, this.visibleHeight := visibleWidth, visibleHeight;
      this.hiddenWidth, this.hiddenHeight := hiddenWidth, hiddenHeight;
      this.receptiveRadius, this.recurrentRadius := receptiveRadius, recurrentRadius;
      visible := new VisibleNode[|visibleNodes|](i requires 0 <= i < |visibleNodes| => visibleNodes[i]);
      hidden := new HiddenNode[|hiddenNodes|](i requires 0 <= i < |hiddenNodes| => hiddenNodes[i]);
    }

    /** `setVisibleState(index, value)`: writes one visible input in place. */
    method SetVisibleState(index: int, value: real)
      requires 0 <= index < visible.Length
      modifies visible
      ensures visible[..] == WithInput(old(visible[..]), index, value)
      ensures VisibleState(index) == value
      ensures forall j :: 0 <= j < visible.Length ==> VisibleRecon(j) == old(VisibleRecon(j))
      ensures unchanged(hidden)
    {
      visible[index] := visible[index].(input := value);
    }

    /** `setVisibleState(x, y, value)`: the same write, at `(x, y)` of the visible grid. */
    method SetVisibleStateXY(x: int, y: int, value: real)
      requires 0 <= Grid.FlatIndex(x, y, visibleWidth) < visible.Length
      modifies visible
      ensures visible[..] == WithInput(old(visible[..]), Grid.FlatIndex(x, y, visibleWidth), value)
      ensures VisibleStateXY(x, y) == value
      ensures unchanged(hidden)
    {
      visible[x + y * visibleWidth] := visible[x + y * visibleWidth].(input := value);
    }

    function VisibleRecon(index: int): real
      reads this, visible
      requires 0 <= index < visible.Length
    {
      visible[index].reconstruction
    }

    /** `getVisibleRecon(x, y)` reads the node the flat form reads at `x + y * visibleWidth`. */
    function VisibleReconXY(x: int, y: int): (r: real)
      reads this, visible
      requires 0 <= Grid.FlatIndex(x, y, visibleWidth) < visible.Length
      ensures r == VisibleRecon(Grid.FlatIndex(x, y, visibleWidth))
    {
      visible[x + y * visibleWidth].reconstruction
    }

    function VisibleState(index: int): real
      reads this, visible
      requires 0 <= index < visible.Length
    {
      visible[index].input
    }

    /** `getVisibleState(x, y)` reads the node the flat form reads at `x + y * visibleWidth`. */
    function VisibleStateXY(x: int, y: int): (r: real)
      reads this, visible
      requires 0 <= Grid.FlatIndex(x, y, visibleWidth) < visible.Length
      ensures r == VisibleState(Grid.FlatIndex(x, y, visibleWidth))
    {
      visible[x + y * visibleWidth].input
    }

    function HiddenState(index: int): (r: real)
      reads this, hidden
      requires 0 <= index < hidden.Length
      ensures r == HiddenNodeAt(index).state
    {
      hidden[index].state
    }

    /** `getHiddenState(x, y)` addresses the hidden grid with the hidden width. */
    function HiddenStateXY(x: int, y: int): (r: real)
      reads this, hidden
      requires 0 <= Grid.FlatIndex(x, y, hiddenWidth) < hidden.Length
      ensures r == HiddenState(Grid.FlatIndex(x, y, hiddenWidth))
    {
      hidden[x + y * hiddenWidth].state
    }

    function HiddenStatePrev(index: int): (r: real)
      reads this, hidden
      requires 0 <= index < hidden.Length
      ensures r == HiddenNodeAt(index).statePrev
    {
      hidden[index].statePrev
    }

    /** `getHiddenStatePrev(x, y)` addresses the hidden grid with the hidden width. */
    function HiddenStatePrevXY(x: int, y: int): (r: real)
      reads this, hidden
      requires 0 <= Grid.FlatIndex(x, y, hiddenWidth) < hidden.Length
      ensures r == HiddenStatePrev(Grid.FlatIndex(x, y, hiddenWidth))
    {
      hidden[x + y * hiddenWidth].statePrev
    }

    function HiddenNodeAt(index: int): HiddenNode
      reads this, hidden
      requires 0 <= index < hidden.Length
    {
      hidden[index]
    }

    /** `getHiddenNode(x, y)` addresses the hidden grid with the hidden width. */
    function HiddenNodeXY(x: int, y: int): (h: HiddenNode)
      reads this, hidden
      requires 0 <= Grid.FlatIndex(x, y, hiddenWidth) < hidden.Length
      ensures h == HiddenNodeAt(Grid.FlatIndex(x, y, hiddenWidth))
      ensures h.state == HiddenStateXY(x, y) && h.statePrev == HiddenStatePrevXY(x, y)
    {
      hidden[x + y * hiddenWidth]
    }

    /** `getNumVisible()`: the size of the visible field, every index below it readable. */
    function NumVisible(): (n: int)
      reads this
      ensures n == visible.Length
    {
      visible.Length
    }

    /** `getNumHidden()`: the size of the hidden field, every index below it readable. */
    function NumHidden(): (n: int)
      reads this
      ensures n == hidden.Length
    {
      hidden.Length
    }

    function VHWeight(hi: int, ci: int): (r: real)
      reads this, hidden
      requires 0 <= hi < hidden.Length && 0 <= ci < |hidden[hi].feedForward|
      ensures r == HiddenNodeAt(hi).feedForward[ci].weight
    {
      hidden[hi].feedForward[ci].weight
    }

    /** `getVHWeight(hx, hy, ci)`: feedforward weight `ci` of the hidden node at `(hx, hy)`. */
    function VHWeightXY(hx: int, hy: int, ci: int): (w: real)
      reads this, hidden
      requires 0 <= Grid.FlatIndex(hx, hy, hiddenWidth) < hidden.Length
      requires 0 <= ci < |hidden[Grid.FlatIndex(hx, hy, hiddenWidth)].feedForward|
      ensures w == VHWeight(Grid.FlatIndex(hx, hy, hiddenWidth), ci)
      ensures w == HiddenNodeXY(hx, hy).feedForward[ci].weight
    {
      hidden[hx + hy * hiddenWidth].feedForward[ci].weight
    }
  }

  /**
   * On a visible field of `visibleWidth * visibleHeight` nodes, the grid
   * writes reach every node exactly once: writing `(x, y)` inside the grid
   * changes only node `x + y * visibleWidth`, and two different coordinates
   * change two different nodes.
   */
  lemma GridWritesAreSeparate(nodes: seq<VisibleNode>, width: int, height: int,
                              x1: int, y1: int, x2: int, y2: int, a: real)
    requires |nodes| == width * height
    requires Grid.InGrid(x1, y1, width, height) && Grid.InGrid(x2, y2, width, height)
    requires x1 != x2 || y1 != y2
    ensures 0 <= Grid.FlatIndex(x1, y1, width) < |nodes| && 0 <= Grid.FlatIndex(x2, y2, width) < |nodes|
    ensures WithInput(nodes, Grid.FlatIndex(x1, y1, width), a)[Grid.FlatIndex(x2, y2, width)]
            == nodes[Grid.FlatIndex(x2, y2, width)]
  {
    Grid.FlatIndexInField(x1, y1, width, height);
    Grid.FlatIndexInField(x2, y2, width, height);
    if Grid.FlatIndex(x1, y1, width) == Grid.FlatIndex(x2, y2, width) {
      Grid.FlatIndexInjective(x1, y1, x2, y2, width, height);
    }
  }
}
