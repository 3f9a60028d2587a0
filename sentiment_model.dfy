/**
 * The prediction step of the model wrapper (src/model.py): from the
 * probability vector that softmax produces, the predicted label and its
 * score. Tokenisation, the forward pass and softmax are not modelled; the
 * probability vector and the index torch.argmax picks are inputs.
 */
module SentimentModel {
  import Preprocessing

  /** The fixed label order set once in the constructor: index 0, 1, 2. */
  const Labels: seq<string> := ["negative", "neutral", "positive"]

  /** The dictionary predict returns: the field `label` (here `sentiment`, since `label` is a reserved word) and `score`. */
  datatype Prediction = Prediction(sentiment: string, score: real)

  /** torch.max over the vector: its largest element. */
  function Max(probs: seq<real>): (m: real)
    requires |probs| > 0
    ensures m in probs
    ensures forall i :: 0 <= i < |probs| ==> probs[i] <= m
  {
    if |probs| == 1 then probs[0]
    else
      var rest := Max(probs[1..]);
      if probs[0] >= rest then probs[0] else rest
  }

  /**
   * `k` is an index torch.argmax may return: one holding a largest
   * probability. Which one it picks among equal maxima is torch's choice
   * and is left open.
   */
  predicate IsArgmax(probs: seq<real>, k: nat) {
    k < |probs| && forall j :: 0 <= j < |probs| ==> probs[j] <= probs[k]
  }

  /**
   * Rounding to three decimals, as a count of thousandths: the integer nearest to 1000 * x,
   * the even one of the two when x lies exactly halfway. Python rounds the
   * exact value of the float this way.
   */
  function Thousandths(x: real): (n: int)
    ensures -0.5 <= n as real - 1000.0 * x <= 0.5
    ensures 0.0 <= x <= 1.0 ==> 0 <= n <= 1000
    ensures n as real - 1000.0 * x == 0.5 || n as real - 1000.0 * x == -0.5 ==> n % 2 == 0
  {
    var f := (1000.0 * x).Floor;
    var frac := 1000.0 * x - f as real;
    if frac < 0.5 then f
    else if frac > 0.5 then f + 1
    else if f % 2 == 0 then f
    else f + 1
  }

  /** Rounding to three decimals: `x` rounded to the nearest multiple of 0.001. */
  function Round3(x: real): (y: real)
    ensures -0.0005 <= y - x <= 0.0005
    ensures 0.0 <= x <= 1.0 ==> 0.0 <= y <= 1.0
  {
    Thousandths(x) as real / 1000.0
  }

  /** Rounding a value that is already a multiple of 0.001 leaves it as it is. */
  lemma RoundThousandthsIsExact(n: int)
    ensures Thousandths(n as real / 1000.0) == n
  {
    assert 1000.0 * (n as real / 1000.0) == n as real;
  }

  /**
   * predict, from softmax onwards: the label is the one at the argmax index and the
   * score is the maximum probability rounded to three decimals. The label
   * is one of the three names, the score is within 0.0005 of that label's
   * probability, no probability exceeds it by more than that, and it lies
   * in [0, 1] when every probability does.
   */
  function Predict(probs: seq<real>, k: nat): (r: Prediction)
    requires |probs| == |Labels|
    requires IsArgmax(probs, k)
    ensures r.sentiment in Labels
    ensures r.sentiment == Labels[k]
    ensures r.score == Thousandths(probs[k]) as real / 1000.0
    ensures -0.0005 <= r.score - probs[k] <= 0.0005
    ensures forall j :: 0 <= j < |probs| ==> probs[j] <= r.score + 0.0005
    ensures (forall j :: 0 <= j < |probs| ==> 0.0 <= probs[j] <= 1.0) ==> 0.0 <= r.score <= 1.0
  {
    Prediction(Labels[k], Round3(Max(probs)))
  }

  /** Some index is always a valid argmax, so predict has a result for every vector. */
  lemma ArgmaxExists(probs: seq<real>)
    requires |probs| > 0
    ensures exists k: nat :: IsArgmax(probs, k)
  {
    var m := Max(probs);
    var k :| 0 <= k < |probs| && probs[k] == m;
    assert IsArgmax(probs, k);
  }

  /** The score is the same whichever maximal index torch.argmax picks; only the sentiment may differ. */
  lemma ScoreIndependentOfTieBreak(probs: seq<real>, k1: nat, k2: nat)
    requires |probs| == |Labels|
    requires IsArgmax(probs, k1) && IsArgmax(probs, k2)
    ensures Predict(probs, k1).score == Predict(probs, k2).score
  {
  }

  /**
   * The maximum of a probability distribution over three labels is at
   * least 1/3 and at most 1, so the rounded score of a softmax output lies
   * in [0.333, 1].
   */
  lemma {:induction false} ScoreOfDistribution(probs: seq<real>, k: nat)
    requires |probs| == |Labels|
    requires IsArgmax(probs, k)
    requires forall j :: 0 <= j < |probs| ==> 0.0 <= probs[j]
    requires probs[0] + probs[1] + probs[2] == 1.0
    ensures 0.333 <= Predict(probs, k).score <= 1.0
  {
    var m := probs[k];
    assert probs[0] <= m && probs[1] <= m && probs[2] <= m;
    assert 1.0 / 3.0 <= m <= 1.0;
    var n := Thousandths(m);
    assert 1000.0 * m >= 1000.0 / 3.0;
    assert n as real >= 1000.0 / 3.0 - 0.5;
    assert n >= 333;
  }

  /**
   * The label order agrees with the classes of the label map: raw 0, 2
   * and 4 become classes 0, 1, 2, and those index negative, neutral,
   * positive.
   */
  lemma LabelOrderMatchesLabelMap()
    ensures Labels[Preprocessing.MapLabel(0).value] == "negative"
    ensures Labels[Preprocessing.MapLabel(2).value] == "neutral"
    ensures Labels[Preprocessing.MapLabel(4).value] == "positive"
  {
    Preprocessing.LabelMapPairs();
  }
}
