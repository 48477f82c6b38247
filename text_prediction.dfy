/**
 * The integer logic of the text-prediction demo: size the input alphabet
 * from the corpus bytes, present the current byte to the bottom layer as a
 * one-hot input, decode the prediction with a first-maximum argmax, advance
 * the wrap-around cursor and score the guess as a hit or a miss. The demo
 * writes and reads the stack through its input and prediction buffers, which
 * appear here as two arrays; the simulation step between the write and the
 * read is not part of this model.
 */
module TextPrediction {
  import opened Scalars
  import Grid

  datatype Option<T> = None | Some(value: T)

  function Min(a: int, b: int): int { if a <= b then a else b }

  function Max(a: int, b: int): int { if a >= b then a else b }

  // ---------------------------------------------------------------------
  // Alphabet
  // ---------------------------------------------------------------------

  /** `minimum` after scanning `corpus` left to right from 255. */
  function ScanMin(corpus: seq<byte>): (m: int)
    ensures 0 <= m <= 255
  {
    if corpus == [] then 255 else Min(corpus[|corpus| - 1], ScanMin(corpus[..|corpus| - 1]))
  }

  /** `maximum` after scanning `corpus` left to right from 0. */
  function ScanMax(corpus: seq<byte>): (m: int)
    ensures 0 <= m <= 255
  {
    if corpus == [] then 0 else Max(corpus[|corpus| - 1], ScanMax(corpus[..|corpus| - 1]))
  }

  /**
   * The scan bounds every byte, stays within the byte range, and on a
   * non-empty corpus its bounds are bytes of the corpus.
   */
  lemma {:induction false} ScanBounds(corpus: seq<byte>)
    ensures 0 <= ScanMin(corpus) <= 255 && 0 <= ScanMax(corpus) <= 255
    ensures forall i :: 0 <= i < |corpus| ==> ScanMin(corpus) <= corpus[i] <= ScanMax(corpus)
    ensures |corpus| > 0 ==> exists i :: 0 <= i < |corpus| && corpus[i] == ScanMin(corpus)
    ensures |corpus| > 0 ==> exists i :: 0 <= i < |corpus| && corpus[i] == ScanMax(corpus)
  {
    if corpus != [] {
      var n := |corpus| - 1;
      var front := corpus[..n];
      ScanBounds(front);
      assert forall i :: 0 <= i < n ==> corpus[i] == front[i];
      if n > 0 {
        var a :| 0 <= a < n && front[a] == ScanMin(front);
        var b :| 0 <= b < n && front[b] == ScanMax(front);
        assert corpus[a] == ScanMin(front) && corpus[b] == ScanMax(front);
      }
    }
  }

  /** The min/max scan of the demo over the corpus bytes. */
  method ScanAlphabet(corpus: seq<byte>) returns (minimum: int, maximum: int)
    ensures minimum == ScanMin(corpus) && maximum == ScanMax(corpus)
    ensures forall i :: 0 <= i < |corpus| ==> minimum <= corpus[i] <= maximum
    ensures |corpus| > 0 ==> (exists i :: 0 <= i < |corpus| && corpus[i] == minimum) &&
                             (exists i :: 0 <= i < |corpus| && corpus[i] == maximum)
    ensures |corpus| == 0 ==> minimum == 255 && maximum == 0
  {
    minimum := 255;
    maximum := 0;
    var i := 0;
    while i < |corpus|
      invariant 0 <= i <= |corpus|
      invariant minimum == ScanMin(corpus[..i]) && maximum == ScanMax(corpus[..i])
    {
      assert corpus[..i + 1][..i] == corpus[..i];
      minimum := Min(corpus[i], minimum);
      maximum := Max(corpus[i], maximum);
      i := i + 1;
    }
    assert corpus[..i] == corpus;
    ScanBounds(corpus);
  }

  /** The alphabet size `maximum - minimum + 1`. */
  function NumInputs(minimum: int, maximum: int): (n: int)
    ensures n >= 1 <==> minimum <= maximum
  {
    maximum - minimum + 1
  }

  /**
   * The smallest `r` with `n <= r * r`: the side of the square input field,
   * `ceil(sqrt(n))`.
   */
  function CeilSqrt(n: nat): (r: nat)
    ensures n <= r * r
    ensures r == 0 || (r - 1) * (r - 1) < n
  {
    CeilSqrtFrom(n, 0)
  }

  /** The smallest `r >= k` with `n <= r * r`, given that every value below `k` is too small. */
  function CeilSqrtFrom(n: nat, k: nat): (r: nat)
    requires k == 0 || (k - 1) * (k - 1) < n
    ensures k <= r && n <= r * r
    ensures r == 0 || (r - 1) * (r - 1) < n
    decreases n - k
  {
    if n <= k * k then k
    else
      assert k <= k * k;
      CeilSqrtFrom(n, k + 1)
  }

  /**
   * As written, an empty corpus leaves the scan at its starting values: the
   * alphabet size is negative, so the field side is the ceiling of the square
   * root of a negative number, and the cursor update divides by zero.
   */
  lemma EmptyCorpusAlphabetSize()
    ensures ScanMin([]) == 255 && ScanMax([]) == 0
    ensures NumInputs(ScanMin([]), ScanMax([])) == -254
  {
  }

  /** The demo's alphabet: byte range, number of symbols and side of the input field. */
  datatype Alphabet = Alphabet(minimum: int, maximum: int, numInputs: int, inputsRoot: nat)

  /** `a` covers every byte of `corpus`, and its input field holds every symbol. */
  ghost predicate AlphabetFits(corpus: seq<byte>, a: Alphabet) {
    0 <= a.minimum <= a.maximum <= 255 &&
    a.numInputs == NumInputs(a.minimum, a.maximum) &&
    1 <= a.numInputs <= a.inputsRoot * a.inputsRoot &&
    (a.inputsRoot - 1) * (a.inputsRoot - 1) < a.numInputs &&
    forall i :: 0 <= i < |corpus| ==> a.minimum <= corpus[i] <= a.maximum
  }

  /**
   * The alphabet sized as the demo sizes it, refusing the empty corpus on
   * which the demo's sizing breaks down.
   */
  function CorpusAlphabet(corpus: seq<byte>): (r: Option<Alphabet>)
    ensures r.None? <==> |corpus| == 0
    ensures r.Some? ==> AlphabetFits(corpus, r.value)
    ensures r.Some? ==> r.value.minimum == ScanMin(corpus) && r.value.maximum == ScanMax(corpus)
  {
    if |corpus| == 0 then None
    else
      ScanBounds(corpus);
      var minimum, maximum := ScanMin(corpus), ScanMax(corpus);
      var n := NumInputs(minimum, maximum);
      Some(Alphabet(minimum, maximum, n, CeilSqrt(n)))
  }

  // ---------------------------------------------------------------------
  // Symbols
  // ---------------------------------------------------------------------

  /** `c - minimum`: the input that stands for byte `c`. */
  function SymbolIndex(c: int, minimum: int, maximum: int): (i: int)
    requires minimum <= c <= maximum
    ensures 0 <= i < NumInputs(minimum, maximum)
  {
    c - minimum
  }

  /** `predIndex + minimum`: the byte that input `predIndex` stands for. */
  function DecodeSymbol(predIndex: int, minimum: int, maximum: int): (c: int)
    requires 0 <= predIndex < NumInputs(minimum, maximum)
    ensures minimum <= c <= maximum
    ensures SymbolIndex(c, minimum, maximum) == predIndex
  {
    predIndex + minimum
  }

  /** Encoding a byte of the alphabet and decoding its index gives the byte back. */
  lemma SymbolRoundTrip(c: int, minimum: int, maximum: int)
    requires minimum <= c <= maximum
    ensures DecodeSymbol(SymbolIndex(c, minimum, maximum), minimum, maximum) == c
  {
  }

  /** The current byte's input lies among the alphabet's inputs, inside the square input field. */
  lemma SymbolFitsInputField(corpus: seq<byte>, a: Alphabet, current: int)
    requires CorpusAlphabet(corpus) == Some(a)
    requires 0 <= current < |corpus|
    ensures a.minimum <= corpus[current] <= a.maximum
    ensures 0 <= SymbolIndex(corpus[current], a.minimum, a.maximum) < a.numInputs <= a.inputsRoot * a.inputsRoot
  {
  }

  // ---------------------------------------------------------------------
  // One-hot input
  // ---------------------------------------------------------------------

  /** An input field of `n` values with 1 at `index` and 0 elsewhere. */
  function OneHot(n: nat, index: int): seq<real> {
    seq(n, i => if i == index then 1.0 else 0.0)
  }

  /** How many values of `s` equal `v`. */
  function Count(s: seq<real>, v: real): nat {
    if s == [] then 0 else Count(s[..|s| - 1], v) + (if s[|s| - 1] == v then 1 else 0)
  }

  /** A one-hot field holds exactly one 1, and all its other values are 0. */
  lemma {:induction false} OneHotHasSingleOne(n: nat, index: int)
    requires 0 <= index < n
    ensures Count(OneHot(n, index), 1.0) == 1
    ensures Count(OneHot(n, index), 0.0) == n - 1
  {
    OneHotCounts(n, index);
  }

  lemma {:induction false} OneHotCounts(n: nat, index: int)
    ensures Count(OneHot(n, index), 1.0) == (if 0 <= index < n then 1 else 0)
    ensures Count(OneHot(n, index), 0.0) == (if 0 <= index < n then n - 1 else n)
  {
    if n > 0 {
      assert OneHot(n, index)[..n - 1] == OneHot(n - 1, index);
      OneHotCounts(n - 1, index);
    }
  }

  /**
   * The demo's input write: zero the first `inputsRoot * inputsRoot`
   * inputs, then set input `index` to 1.
   */
  method PresentSymbol(input: array<real>, inputsRoot: int, index: int)
    requires 0 <= inputsRoot && inputsRoot * inputsRoot <= input.Length
    requires 0 <= index < input.Length
    modifies input
    ensures forall i :: 0 <= i < input.Length ==>
      input[i] == if i == index then 1.0 else if i < inputsRoot * inputsRoot then 0.0 else old(input[i])
    ensures input.Length == inputsRoot * inputsRoot ==> input[..] == OneHot(input.Length, index)
  {
    var i := 0;
    while i < inputsRoot * inputsRoot
      invariant 0 <= i <= inputsRoot * inputsRoot
      invariant forall j :: 0 <= j < i ==> input[j] == 0.0
      invariant forall j :: i <= j < input.Length ==> input[j] == old(input[j])
    {
      input[i] := 0.0;
      i := i + 1;
    }
    input[index] := 1.0;
  }

  // ---------------------------------------------------------------------
  // Decoding the prediction
  // ---------------------------------------------------------------------

  /**
   * `k` is the first index among the first `n` scores whose score no other
   * one exceeds.
   */
  ghost predicate IsFirstMax(scores: seq<real>, n: int, k: int)
    requires n <= |scores|
  {
    0 <= k < n &&
    (forall j :: 0 <= j < n ==> scores[j] <= scores[k]) &&
    (forall j :: 0 <= j < k ==> scores[j] < scores[k])
  }

  /** At most one index is the first maximum. */
  lemma FirstMaxUnique(scores: seq<real>, n: int, k1: int, k2: int)
    requires n <= |scores|
    requires IsFirstMax(scores, n, k1) && IsFirstMax(scores, n, k2)
    ensures k1 == k2
  {
    var s1, s2 := scores[k1], scores[k2];
    assert s2 <= s1 && s1 <= s2;
    assert k1 < k2 ==> s1 < s2;
    assert k2 < k1 ==> s2 < s1;
  }

  /**
   * The argmax over the first `n` scores as the demo's loop computes it:
   * start at 0 and move only to a strictly greater score.
   */
  function FirstArgMax(scores: seq<real>, n: int): (k: int)
    requires n <= |scores|
    ensures n >= 1 ==> IsFirstMax(scores, n, k)
    ensures n <= 1 ==> k == 0
    decreases n
  {
    if n <= 1 then 0
    else
      var k := FirstArgMax(scores, n - 1);
      if scores[n - 1] > scores[k] then n - 1 else k
  }

  /** The argmax over the first `n` inputs of a one-hot field finds its hot index when that lies among them. */
  lemma OneHotDecodes(m: nat, n: int, index: int)
    requires 0 <= index < n <= m
    ensures FirstArgMax(OneHot(m, index), n) == index
  {
  }

  /** The demo's decode loop over the first `numInputs` predictions. */
  method DecodePrediction(prediction: array<real>, numInputs: int) returns (predIndex: int)
    requires numInputs <= prediction.Length
    ensures predIndex == FirstArgMax(prediction[..], numInputs)
    ensures numInputs >= 1 ==> IsFirstMax(prediction[..], numInputs, predIndex)
    ensures numInputs <= 1 ==> predIndex == 0
  {
    predIndex := 0;
    var i := 1;
    while i < numInputs
      invariant 1 <= i && (numInputs >= 1 ==> i <= numInputs)
      invariant numInputs >= 1 ==> predIndex == FirstArgMax(prediction[..], i)
      invariant numInputs < 1 ==> predIndex == 0
    {
      if prediction[i] > prediction[predIndex] {
        predIndex := i;
      }
      i := i + 1;
    }
  }

  // ---------------------------------------------------------------------
  // Cursor and error
  // ---------------------------------------------------------------------

  /** Stepping one past a position moves its remainder one on, wrapping at `length`. */
  lemma ModSuccessor(m: int, length: int)
    requires 0 < length && 0 <= m
    ensures m < length ==> m % length == m
    ensures (m + 1) % length == if m % length == length - 1 then 0 else m % length + 1
  {
    var q, r := m / length, m % length;
    assert m == r + q * length;
    if m < length {
      Grid.DivModUnique(0, m, length);
    }
    if r + 1 < length {
      Grid.DivModUnique(q, r + 1, length);
    } else {
      Grid.DivModUnique(q + 1, 0, length);
    }
  }

  /** `(current + 1) % length`: the next corpus position, wrapping to 0 after the last. */
  function Advance(current: int, length: int): (next: int)
    requires 0 < length && 0 <= current
    ensures 0 <= next < length
    ensures current < length ==> next == if current == length - 1 then 0 else current + 1
  {
    ModSuccessor(current, length);
    (current + 1) % length
  }

  /** The cursor after `k` steps from `current`. */
  function AdvanceTimes(current: int, length: int, k: nat): (r: int)
    requires 0 < length && 0 <= current < length
    ensures 0 <= r < length
  {
    if k == 0 then current else Advance(AdvanceTimes(current, length, k - 1), length)
  }

  /** After `k` steps the cursor is `k` positions further on, modulo the corpus length. */
  lemma {:induction false} AdvanceTimesModular(current: int, length: int, k: nat)
    requires 0 < length && 0 <= current < length
    ensures AdvanceTimes(current, length, k) == (current + k) % length
  {
    if k == 0 {
      ModSuccessor(current, length);
    } else {
      AdvanceTimesModular(current, length, k - 1);
      ModSuccessor(current + k - 1, length);
    }
  }

  /**
   * The cursor visits every corpus position once per pass: from the start
   * it reaches position `p` after `p` steps, and after `length` steps it is
   * back where it started.
   */
  lemma CursorCycles(current: int, length: int, p: int)
    requires 0 < length && 0 <= current < length && 0 <= p < length
    ensures AdvanceTimes(0, length, p) == p
    ensures AdvanceTimes(current, length, length) == current
  {
    AdvanceTimesModular(0, length, p);
    Grid.DivModUnique(0, p, length);
    AdvanceTimesModular(current, length, length);
    Grid.DivModUnique(1, current, length);
  }

  /** The demo's error: 0 for a hit, 1 for a miss. */
  function PredictionError(predChar: int, next: int): (error: real)
    ensures error == 0.0 || error == 1.0
    ensures error == 0.0 <==> predChar == next
  {
    if predChar == next then 0.0 else 1.0
  }

  // ---------------------------------------------------------------------
  // One iteration of the demo loop
  // ---------------------------------------------------------------------

  /**
   * The integer part of one iteration of the demo loop: present the current
   * byte, read back the guess, move the cursor and score the guess against
   * the byte now under the cursor. The stack's step, which fills the
   * prediction between the write and the read, is not part of this model.
   */
  method DemoStep(corpus: seq<byte>, a: Alphabet, input: array<real>, prediction: array<real>, current: int)
      returns (predChar: int, next: int, error: real)
    requires CorpusAlphabet(corpus) == Some(a)
    requires input.Length == a.inputsRoot * a.inputsRoot
    requires a.numInputs <= prediction.Length
    requires input != prediction
    requires 0 <= current < |corpus|
    modifies input
    ensures input[..] == OneHot(input.Length, SymbolIndex(corpus[current], a.minimum, a.maximum))
    ensures predChar == DecodeSymbol(FirstArgMax(prediction[..], a.numInputs), a.minimum, a.maximum)
    ensures a.minimum <= predChar <= a.maximum
    ensures next == Advance(current, |corpus|) && 0 <= next < |corpus|
    ensures error == PredictionError(predChar, corpus[next])
  {
    SymbolFitsInputField(corpus, a, current);
    var index := corpus[current] - a.minimum;
    PresentSymbol(input, a.inputsRoot, index);
    var predIndex := DecodePrediction(prediction, a.numInputs);
    predChar := predIndex + a.minimum;
    next := (current + 1) % |corpus|;
    error := if predChar == corpus[next] then 0.0 else 1.0;
  }

  /**
   * When the stored prediction is the one-hot field of the next byte, the
   * guess is that byte and the error is 0.
   */
  lemma PerfectPredictionScoresZero(corpus: seq<byte>, a: Alphabet, current: int, scores: seq<real>)
    requires CorpusAlphabet(corpus) == Some(a)
    requires 0 <= current < |corpus|
    requires |scores| == a.inputsRoot * a.inputsRoot
    requires scores == OneHot(|scores|, SymbolIndex(corpus[Advance(current, |corpus|)], a.minimum, a.maximum))
    ensures a.numInputs <= |scores|
    ensures DecodeSymbol(FirstArgMax(scores, a.numInputs), a.minimum, a.maximum) == corpus[Advance(current, |corpus|)]
    ensures PredictionError(DecodeSymbol(FirstArgMax(scores, a.numInputs), a.minimum, a.maximum),
                            corpus[Advance(current, |corpus|)]) == 0.0
  {
    var next := Advance(current, |corpus|);
    var k := SymbolIndex(corpus[next], a.minimum, a.maximum);
    OneHotDecodes(|scores|, a.numInputs, k);
  }
}
