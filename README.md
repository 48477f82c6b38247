# Link: SDR node store, predictive-stack facade and text-demo codec in Dafny

This project models the parts of Link's sparse distributed representation
(SDR) code whose behaviour is fixed by the repository's text. Link is a
hierarchical sparse-coding simulation that predicts the next symbol of a
stream.

- `sdr_layer.dfy` (module `SdrLayer`) models `sdr::IRSDR`, one layer. It has a
  visible field and a hidden field of nodes, each stored in an array, and a
  width for each field's row-major grid. The model covers:
  - the default constructors of `Connection`, `HiddenNode` and `VisibleNode`;
  - `setVisibleState`, which writes one visible input in place;
  - the const getters, in their flat-index and `(x, y)` forms.

  The flat getters (`VisibleState`, `VisibleRecon`, `HiddenState`,
  `HiddenStatePrev`, `HiddenNodeAt`, `VHWeight`) are plain reads of the
  arrays. The contracts of the setters and of the `(x, y)` getters are stated
  through them. The grid sizes and the two radii, `receptiveRadius` and
  `recurrentRadius`, are fields read directly, as `getVisibleWidth`, the
  other size getters and `getReceptiveRadius` do; `recurrentRadius` has no
  getter.
- `predictive_stack.dfy` (module `PredictiveStack`) models the
  `sdr::PredictiveRSDR` facade. It holds the layer descriptors, the layers
  (bottom first) and the prediction vector. The model covers:
  - the `LayerDesc` and `PredictionNode` defaults;
  - `setInput`, which writes only the bottom layer's visible input;
  - `getPrediction` (`GetPrediction`), which reads the stored prediction,
    and its `(x, y)` form (`GetPredictionXY`), addressed with the bottom
    layer's visible width;
  - the read-only views `getLayerDescs` and `getLayers`.

  Each layer's RSDR appears as what the facade touches of it: its visible
  input buffer (an array) and its visible width.
- `text_prediction.dfy` (module `TextPrediction`) models the integer logic of
  the text demo's `main`:
  - the min/max scan over the corpus bytes;
  - the alphabet size and the ceil-sqrt side of the square input field;
  - clearing the input and writing a one-hot symbol;
  - the first-maximum argmax decode;
  - the wrap-around cursor;
  - the 0/1 hit/miss error.

  `DemoStep` puts these together into the integer part of one iteration of
  the demo loop.
- `grid.dfy` (module `Grid`) holds the row-major addressing `x + y * width`
  shared by every `(x, y)` accessor. On a `width * height` field, the
  coordinates inside the grid reach every node exactly once.
- `scalars.dfy` (module `Scalars`) holds the integer ranges kept from C++:
  `unsigned short` connection indices and corpus bytes.

Index handling follows the code:
- No index is checked: `std::vector::operator[]` out of range is undefined
  behaviour, so every index is a precondition.
- The `(x, y)` forms only compute `x + y * width`, so an `x` past the row
  width reaches a node of a later row. They require only the flat index to be
  in range; `Grid.FlatIndexInField` gives that for coordinates inside the
  grid.
- `getPrediction` reads `_prediction` whatever its state, even before any
  `simStep`.

## Model

| member | source | states |
|---|---|---|
| Grid.DivModUnique | Link/source/TextPrediction.cpp:144 | a number written as `r + q * d` with `0 <= r < d` has quotient `q` and remainder `r`; this is what makes the grid coordinates and the cursor's `% length` behave as stated |
| Grid.CoordinatesOfFlatIndex | Link/source/sdr/IRSDR.h:83-85 | for a column below the width and a non-negative row, the flat index `x + y * width` gives the column back as its remainder and the row as its quotient |
| Grid.FlatIndexInField | Link/source/sdr/IRSDR.h:99-101 | every `(x, y)` inside a `width * height` grid addresses a node of a field of that size |
| Grid.FlatIndexInjective | Link/source/sdr/IRSDR.h:107-109 | two different coordinates inside the grid never address the same node |
| Grid.FlatIndexCovers | Link/source/sdr/IRSDR.h:123-125 | every node of a `width * height` field is addressed by the coordinate `(i % width, i / width)`, which lies inside the grid |
| SdrLayer.NewConnection | Link/source/sdr/IRSDR.h:11-21 | a new connection's eligibility trace is 0; its index and weight are whatever values were left in them |
| SdrLayer.NewHiddenNode | Link/source/sdr/IRSDR.h:23-42 | a new hidden node is silent (activation, spike, previous spike, state, previous state, input and reconstruction all 0), has threshold 1 and has no connections |
| SdrLayer.NewVisibleNode | Link/source/sdr/IRSDR.h:44-51 | a new visible node has input 0 and reconstruction 0 |
| SdrLayer.WithInput | Link/source/sdr/IRSDR.h:79-81 | writing visible input `index` keeps the field's length, puts the value in that node's input, keeps its reconstruction, and leaves every other node as it was |
| SdrLayer.WithInputLastWriteWins | Link/source/sdr/IRSDR.h:79-81 | two writes to the same input leave only the second value |
| SdrLayer.WithInputCommutes | Link/source/sdr/IRSDR.h:79-81 | writes to two different inputs give the same field in either order |
| SdrLayer.IRSDR.constructor | Link/source/sdr/IRSDR.h:53-60 | a layer holding the given visible and hidden nodes in new arrays, with the given grid sizes and radii |
| SdrLayer.IRSDR.SetVisibleState | Link/source/sdr/IRSDR.h:79-97 | the visible field becomes the old field with node `index`'s input set. Afterwards `getVisibleState(index)` reads the value, every reconstruction is unchanged and the hidden field is unchanged |
| SdrLayer.IRSDR.SetVisibleStateXY | Link/source/sdr/IRSDR.h:83-85 | the same effect as the flat write at `x + y * visibleWidth`; `getVisibleState(x, y)` reads the value back; the hidden field is unchanged |
| SdrLayer.IRSDR.VisibleRecon | Link/source/sdr/IRSDR.h:87-89 | reads `_visible[index]._reconstruction`; the index must be in `[0, getNumVisible())` |
| SdrLayer.IRSDR.VisibleReconXY | Link/source/sdr/IRSDR.h:87-93 | `getVisibleRecon(x, y)` equals `getVisibleRecon(x + y * visibleWidth)` |
| SdrLayer.IRSDR.VisibleState | Link/source/sdr/IRSDR.h:95-97 | reads `_visible[index]._input`; the index must be in `[0, getNumVisible())` |
| SdrLayer.IRSDR.VisibleStateXY | Link/source/sdr/IRSDR.h:95-101 | `getVisibleState(x, y)` equals `getVisibleState(x + y * visibleWidth)` |
| SdrLayer.IRSDR.HiddenState | Link/source/sdr/IRSDR.h:103-105 | reads `_hidden[index]._state`, the `state` of the node `getHiddenNode(index)` returns; the index must be in `[0, getNumHidden())` |
| SdrLayer.IRSDR.HiddenStateXY | Link/source/sdr/IRSDR.h:103-109 | `getHiddenState(x, y)` equals `getHiddenState(x + y * hiddenWidth)`, using the hidden width and not the visible width |
| SdrLayer.IRSDR.HiddenStatePrev | Link/source/sdr/IRSDR.h:111-113 | reads `_hidden[index]._statePrev`, the `statePrev` of the node `getHiddenNode(index)` returns; the index must be in `[0, getNumHidden())` |
| SdrLayer.IRSDR.HiddenStatePrevXY | Link/source/sdr/IRSDR.h:111-117 | `getHiddenStatePrev(x, y)` equals `getHiddenStatePrev(x + y * hiddenWidth)` |
| SdrLayer.IRSDR.HiddenNodeAt | Link/source/sdr/IRSDR.h:119-121 | the value of `_hidden[index]`; the index must be in `[0, getNumHidden())` |
| SdrLayer.IRSDR.HiddenNodeXY | Link/source/sdr/IRSDR.h:119-125 | `getHiddenNode(x, y)` is the node `getHiddenNode(x + y * hiddenWidth)`, and its state fields agree with the `(x, y)` state getters |
| SdrLayer.IRSDR.NumVisible | Link/source/sdr/IRSDR.h:127-129 | `getNumVisible()` is the length of the visible field |
| SdrLayer.IRSDR.NumHidden | Link/source/sdr/IRSDR.h:131-133 | `getNumHidden()` is the length of the hidden field |
| SdrLayer.IRSDR.VHWeight | Link/source/sdr/IRSDR.h:155-157 | reads the weight of feedforward connection `ci` of hidden node `hi`, as found in the node `getHiddenNode(hi)` returns; both indices must be in range |
| SdrLayer.IRSDR.VHWeightXY | Link/source/sdr/IRSDR.h:155-161 | `getVHWeight(hx, hy, ci)` equals `getVHWeight(hx + hy * hiddenWidth, ci)`: the weight of feedforward connection `ci` of that hidden node |
| SdrLayer.GridWritesAreSeparate | Link/source/sdr/IRSDR.h:83-85 | on a visible field of `width * height` nodes, a write at one coordinate inside the grid leaves the node at any other such coordinate unchanged |
| PredictiveStack.DefaultLayerDesc | Link/source/sdr/PredictiveRSDR.h:14-37 | a default descriptor has width and height 16, radii 8/6/5/6/8 (receptive, recurrent, lateral, predictive, feedback), and the stated rates, surprise decay, attention factor and sparsity |
| PredictiveStack.NewPredictionNode | Link/source/sdr/PredictiveRSDR.h:39-53 | a new prediction node has state, previous state and average surprise 0 and no connections |
| PredictiveStack.PredictiveRSDR.constructor | Link/source/sdr/PredictiveRSDR.h:65-69 | the implicit default constructor gives no descriptors, no layers and an empty prediction vector, with separately owned buffers |
| PredictiveStack.PredictiveRSDR.Adopt | Link/source/sdr/PredictiveRSDR.h:65-69 | a stack holding the given descriptors, layers and prediction vector, whose buffers are separately owned; it satisfies the ownership invariant |
| PredictiveStack.PredictiveRSDR.SetInput | Link/source/sdr/PredictiveRSDR.h:76-78 | needs at least one layer; writes input `index` of the bottom layer only. Every other layer's input and the prediction vector are unchanged, and the ownership invariant still holds |
| PredictiveStack.PredictiveRSDR.SetInputXY | Link/source/sdr/PredictiveRSDR.h:80-82 | the same effect as `setInput(x + y * w, value)`, where `w` is the bottom layer's visible width; the ownership invariant still holds |
| PredictiveStack.PredictiveRSDR.GetPrediction | Link/source/sdr/PredictiveRSDR.h:84-86 | reads `_prediction[index]`; the index must be in range |
| PredictiveStack.PredictiveRSDR.GetPredictionXY | Link/source/sdr/PredictiveRSDR.h:84-90 | `getPrediction(x, y)` reads the stored prediction at `x + y * w`, where `w` is the bottom layer's visible width |
| PredictiveStack.PredictiveRSDR.GetLayerDescs | Link/source/sdr/PredictiveRSDR.h:92-94 | returns the stored descriptors unchanged |
| PredictiveStack.PredictiveRSDR.GetLayers | Link/source/sdr/PredictiveRSDR.h:96-98 | returns the stored layers unchanged |
| TextPrediction.ScanMin | Link/source/TextPrediction.cpp:46-52 | `minimum` after the scan: `std::min` folded over the corpus bytes from 255, left to right; always a byte value in `[0, 255]` |
| TextPrediction.ScanMax | Link/source/TextPrediction.cpp:46-52 | `maximum` after the scan: `std::max` folded over the corpus bytes from 0, left to right; always a byte value in `[0, 255]` |
| TextPrediction.ScanBounds | Link/source/TextPrediction.cpp:46-52 | the scanned minimum and maximum are bytes and bound every corpus byte; on a non-empty corpus both occur in the corpus |
| TextPrediction.ScanAlphabet | Link/source/TextPrediction.cpp:46-52 | the scan loop returns the smallest and largest corpus byte, or 255 and 0 for an empty corpus |
| TextPrediction.NumInputs | Link/source/TextPrediction.cpp:54 | the alphabet size `maximum - minimum + 1`; it is at least one exactly when `minimum <= maximum`, so the scan of an empty corpus (255, 0) gives no usable size |
| TextPrediction.CeilSqrt | Link/source/TextPrediction.cpp:56 | `inputsRoot` is the least `r` with `r * r >= numInputs` |
| TextPrediction.CeilSqrtFrom | Link/source/TextPrediction.cpp:56 | the least `r >= k` with `r * r >= n`, given that no value below `k` qualifies |
| TextPrediction.EmptyCorpusAlphabetSize | Link/source/TextPrediction.cpp:46-54 | on an empty corpus the scan leaves minimum 255 and maximum 0, so `numInputs` is -254 |
| TextPrediction.CorpusAlphabet | Link/source/TextPrediction.cpp:46-56 | refuses exactly the empty corpus. Otherwise `numInputs = maximum - minimum + 1 >= 1`, the input field `inputsRoot * inputsRoot` holds every symbol (`inputsRoot` is the least such side), and every byte lies in `[minimum, maximum]` |
| TextPrediction.SymbolIndex | Link/source/TextPrediction.cpp:128 | the index `c - minimum` of an alphabet byte lies in `[0, numInputs)` |
| TextPrediction.DecodeSymbol | Link/source/TextPrediction.cpp:140 | `predIndex + minimum` lies in `[minimum, maximum]` and encodes back to `predIndex` |
| TextPrediction.SymbolRoundTrip | Link/source/TextPrediction.cpp:128-140 | decoding the index of an alphabet byte gives the byte back |
| TextPrediction.SymbolFitsInputField | Link/source/TextPrediction.cpp:125-130 | the current byte's index lies in `[0, numInputs)`, inside the `inputsRoot * inputsRoot` input field |
| TextPrediction.OneHotHasSingleOne | Link/source/TextPrediction.cpp:125-130 | the presented input field holds exactly one 1, and its other values are 0 |
| TextPrediction.PresentSymbol | Link/source/TextPrediction.cpp:125-130 | after the reset loop and the write, input `index` is 1 and the other first `inputsRoot * inputsRoot` inputs are 0 (inputs past them keep their values); on a field of exactly that size the result is the one-hot field |
| TextPrediction.FirstMaxUnique | Link/source/TextPrediction.cpp:134-138 | at most one index is the first maximum of the scores |
| TextPrediction.FirstArgMax | Link/source/TextPrediction.cpp:134-138 | for at least one input, the result is the smallest index whose score is maximal among the first `numInputs`; otherwise 0 |
| TextPrediction.OneHotDecodes | Link/source/TextPrediction.cpp:134-140 | the argmax of a one-hot field, taken over a prefix that contains the hot index, is that index |
| TextPrediction.DecodePrediction | Link/source/TextPrediction.cpp:134-138 | the decode loop returns the first index of a maximal prediction among the first `numInputs`, since strict `>` keeps the first maximum |
| TextPrediction.Advance | Link/source/TextPrediction.cpp:144 | needs a non-empty corpus. The cursor stays in `[0, length)`: it moves one on, and wraps to 0 after the last position |
| TextPrediction.AdvanceTimes | Link/source/TextPrediction.cpp:144 | after any number of steps the cursor is still inside the corpus |
| TextPrediction.AdvanceTimesModular | Link/source/TextPrediction.cpp:144 | after `k` steps from `current` the cursor is at `(current + k) % length` |
| TextPrediction.CursorCycles | Link/source/TextPrediction.cpp:144 | from the start the cursor reaches each position `p` after `p` steps, and after `length` steps it is back where it began |
| TextPrediction.PredictionError | Link/source/TextPrediction.cpp:146-149 | the error is 0 or 1, and it is 0 exactly when the predicted byte equals the next corpus byte |
| TextPrediction.DemoStep | Link/source/TextPrediction.cpp:125-149 | one loop iteration: the input field becomes the one-hot field of the current byte, the guess is the decoded first-maximum byte in `[minimum, maximum]`, the cursor advances with wrap-around, and the error scores the guess against the byte now under the cursor |
| TextPrediction.PerfectPredictionScoresZero | Link/source/TextPrediction.cpp:134-149 | when the stored prediction is the one-hot field of the next byte, the decoded guess is that byte and the error is 0 |

## Left out

- The numeric engine: `createRandom`, `activate`, `inhibit`, the `reconstruct*` passes, both `learn` overloads, `stepEnd`, `getVHWeights` and `PredictiveRSDR::simStep`. Only their declarations exist in these headers, and they are floating-point passes driven by a random generator. Nothing is claimed about them, including the state rotation of `stepEnd`.
- `sigmoid` in both classes: floating-point `std::exp`.
- Floating point as such: every `float` is a `real`. The core does no arithmetic on these values, and the `LayerDesc` rates are recorded as the decimal values of their literals.
- SdrLayer.IRSDR.constructor: the C++ class has no constructor of its own, and `createRandom` fills its fields. The model's constructor takes the resulting node contents and grid sizes as parameters instead of inventing how they are drawn.
- PredictiveStack.PredictiveRSDR.Adopt: `createRandom` fills the stack's fields in the C++ code. This constructor takes the resulting descriptors, layers and prediction vector as parameters instead of inventing how they are built.
- SdrLayer.IRSDR.HiddenNodeXY: `getHiddenNode` returns a mutable reference, through which callers may write the node. The model returns the node's value, so writes through that reference are not modelled.
- SdrLayer.IRSDR.NumVisible: the narrowing of `size()` to `int` is not modelled; fields are assumed to have fewer than 2^31 nodes.
- The lateral radius, the per-node connection topology and the weight ranges are not tracked, because they are set by `createRandom`.
- `RSDR.h` is not part of this model. Each layer's RSDR is only its visible input buffer and visible width, and `setVisibleInput(i, v)` is taken to write `v` to input `i`, as `IRSDR::setVisibleState` does.
- `IPredictiveRSDR.h` is not part of this model. In the text demo, the stack's `setInput` and `getPrediction` are writes to and reads from two plain arrays.
- The demo's `simStep` call, which fills the prediction between the write and the read, is not modelled. `DemoStep` reads whatever prediction is stored.
- The demo's window, events, font and text, the corpus file read, console output, the time-seeded generator, and the `averageError` moving average: these are I/O or floating-point smoothing.
- TextPrediction.CeilSqrt: it is the exact integer ceiling of the square root. The demo computes `std::ceil(std::sqrt((float)numInputs))`, which gives the same value for the at most 256 symbols a byte alphabet can have, because `sqrt` is correctly rounded. That agreement is argued here, not proved.
- The corpus is a sequence of unsigned bytes. Signed `char` on platforms where it is signed, and the narrowing of `predIndex + minimum` to `char`, are not modelled. Both sides of the hit/miss comparison narrow the same way, so the comparison of byte values is the same.

## Findings

| source | as written | input that shows it | evidently intended | confidence | as-written member | corrected member |
|---|---|---|---|---|---|---|
| Link/source/TextPrediction.cpp:46-56 | an empty corpus leaves the scan at minimum 255 and maximum 0, so `numInputs` is -254. `inputsRoot` is then the ceiling of the square root of a negative number, and the cursor update at line 144 takes `% 0` | an empty `corpus.txt` | refuse an empty corpus before sizing the alphabet | medium; not executed | TextPrediction.EmptyCorpusAlphabetSize | TextPrediction.CorpusAlphabet |
