/**
 * The three endpoints of the web service (src/api.py). The loaded model is
 * an oracle from text to either a prediction or the description of the
 * exception its predict call raised; FastAPI routing, request validation
 * and JSON encoding are not modelled.
 */
module Api {
  import opened Wrappers
  import opened SentimentModel

  /** A predict call on the loaded model: a prediction, or the text of the exception it raised. */
  type Predictor = string -> Result<Prediction, string>

  /** The fixed text the health endpoint classifies to probe the model. */
  const Canary: string := "health check"

  const HealthyMessage: string := "API and model are healthy"
  const FailurePrefix: string := "Health check failed: "

  /** The JSON object of GET /health: its keys `status`, `model` and `message`. */
  datatype HealthRecord = HealthRecord(status: string, model: string, message: string)

  /** The JSON object of POST /predict: the input echoed, then the prediction's `label` and `score`. */
  datatype PredictResponse = PredictResponse(input: string, sentiment: string, score: real)

  /**
   * GET /health. A successful prediction on the canary reports the model
   * loaded, whatever it predicted; a raised exception is caught and
   * reported as unavailable with its description after a fixed prefix.
   */
  function HealthCheck(predict: Predictor): (h: HealthRecord)
    ensures h.status == "ok" <==> predict(Canary).Success?
    ensures h.status == "ok" || h.status == "error"
    ensures predict(Canary).Success? ==> h.model == "loaded" && h.message == HealthyMessage
    ensures predict(Canary).Failure? ==>
      h.model == "unavailable" && h.message == FailurePrefix + predict(Canary).error
  {
    match predict(Canary)
    case Success(_) => HealthRecord("ok", "loaded", HealthyMessage)
    case Failure(e) => HealthRecord("error", "unavailable", FailurePrefix + e)
  }

  /**
   * POST /predict. The text is passed to the model unchanged (it is not
   * cleaned first); on success the response echoes it next to the label
   * and score, and an exception is not caught, so the request fails with
   * it.
   */
  function PredictSentiment(text: string, predict: Predictor): (r: Result<PredictResponse, string>)
    ensures r.Success? <==> predict(text).Success?
    ensures r.Success? ==> r.value.input == text
    ensures r.Success? ==>
      r.value.sentiment == predict(text).value.sentiment && r.value.score == predict(text).value.score
    ensures r.Failure? ==> r.error == predict(text).error
  {
    match predict(text)
    case Success(p) => Success(PredictResponse(text, p.sentiment, p.score))
    case Failure(e) => Failure(e)
  }

  /** The fixed HTML page of GET /, in short pieces around its heading. */
  const RootHead0: string := "\n    <!DOCTYPE html>\n    <html lang=\"it\">\n    <head>\n"
  const RootHead1: string := "        <meta charset=\"UTF-8\">\n        <title>Sentiment Analysis API</title>\n        <link rel=\"shortcut icon\" href=\"#\">\n        <style>\n"
  const RootHead2: string := "            body {\n                font-family: Arial, sans-serif;\n                background-color: #f9f9f9;\n                color: #333;\n"
  const RootHead3: string := "            }\n            .container {\n                text-align: center;\n                margin-top: 100px;\n"
  const RootHead4: string := "            }\n            a {\n                color: #007BFF;\n                text-decoration: none;\n"
  const RootHead5: string := "            }\n            a:hover {\n                text-decoration: underline;\n            }\n"
  const RootHead6: string := "        </style>\n    </head>\n    <body>\n        <div class=\"container\">\n"
  const RootHead7: string := "            "
  const RootHead: string := RootHead0 + RootHead1 + RootHead2 + RootHead3 + RootHead4 + RootHead5 + RootHead6 + RootHead7
  const RootHeading: string := "<h1>Sentiment Analysis API up and running</h1>"
  const RootTail: string := "\n        </div>\n    </body>\n    </html>\n    "

  /** `t` occurs in `s` starting at index `i`. */
  predicate OccursAt(s: string, t: string, i: int) {
    0 <= i && i + |t| <= |s| && s[i..i + |t|] == t
  }

  /** GET /: the page confirming the service runs, whatever the state of the model. */
  function Root(): (page: string)
    ensures exists i :: OccursAt(page, RootHeading, i)
  {
    MiddleOccurs(RootHead, RootHeading, RootTail);
    RootHead + RootHeading + RootTail
  }

  /** The middle part of a concatenation occurs in it, right after the first part. */
  lemma MiddleOccurs(a: string, b: string, c: string)
    ensures OccursAt(a + b + c, b, |a|)
  {
    assert (a + b + c)[|a|..|a| + |b|] == b;
  }

  // ----- properties relating the endpoints -----

  /**
   * The health status depends on nothing but the outcome of the canary
   * call: predictors that agree on it give the same record, whatever they
   * do on other texts and whatever label they give the canary.
   */
  lemma HealthDependsOnlyOnCanary(p1: Predictor, p2: Predictor)
    requires p1(Canary).Success? == p2(Canary).Success?
    requires p1(Canary).Failure? ==> p1(Canary).error == p2(Canary).error
    ensures HealthCheck(p1) == HealthCheck(p2)
  {
  }

  /** Every text of an exception can be read back from the failure message. */
  lemma FailureMessageIsRecoverable(predict: Predictor)
    requires predict(Canary).Failure?
    ensures |FailurePrefix| <= |HealthCheck(predict).message|
    ensures HealthCheck(predict).message[..|FailurePrefix|] == FailurePrefix
    ensures HealthCheck(predict).message[|FailurePrefix|..] == predict(Canary).error
  {
    var m := HealthCheck(predict).message;
    assert m == FailurePrefix + predict(Canary).error;
  }

  /** A healthy message never looks like a failure message, so the two are told apart by the message alone. */
  lemma {:induction false} HealthyMessageIsNotFailure(e: string)
    ensures HealthyMessage != FailurePrefix + e
  {
    assert HealthyMessage[0] == 'A';
    assert (FailurePrefix + e)[0] == 'H';
  }

  /**
   * The two endpoints that call the model treat its exception differently:
   * the health check is "ok" exactly when a prediction request for the
   * canary text would succeed, and otherwise still answers, with the
   * error the prediction request fails with.
   */
  lemma HealthAgreesWithPredictOnCanary(predict: Predictor)
    ensures HealthCheck(predict).status == "ok" <==> PredictSentiment(Canary, predict).Success?
    ensures PredictSentiment(Canary, predict).Failure? ==>
      HealthCheck(predict).message == FailurePrefix + PredictSentiment(Canary, predict).error
  {
  }

  /** A prediction as the model produces it: one of the three labels and a score in [0, 1]. */
  predicate IsModelPrediction(p: Prediction) {
    p.sentiment in Labels && 0.0 <= p.score <= 1.0
  }

  /** A predictor all of whose successful results are model predictions. */
  ghost predicate ModelBacked(predict: Predictor) {
    forall t :: predict(t).Success? ==> IsModelPrediction(predict(t).value)
  }

  /** Every output of the prediction step on a probability vector is a model prediction. */
  lemma PredictIsModelPrediction(probs: seq<real>, k: nat)
    requires |probs| == |Labels| && IsArgmax(probs, k)
    requires forall j :: 0 <= j < |probs| ==> 0.0 <= probs[j] <= 1.0
    ensures IsModelPrediction(Predict(probs, k))
  {
  }

  /**
   * The predictor the model wrapper builds from its selection step. For
   * each text, the tokenizer, network and softmax either raise an exception
   * or produce a probability vector; `pick` is the index torch.argmax
   * returns for it. A vector without three entries, or an index that is no
   * argmax of it, is one the network does not produce; it is reported as a
   * failure here.
   */
  function FromSelection(probsOf: string -> Result<seq<real>, string>, pick: string -> nat): (predict: Predictor)
    ensures forall t :: probsOf(t).Failure? ==> predict(t) == Failure(probsOf(t).error)
    ensures forall t :: probsOf(t).Success? && |probsOf(t).value| == |Labels| && IsArgmax(probsOf(t).value, pick(t)) ==>
      predict(t) == Success(Predict(probsOf(t).value, pick(t)))
  {
    t =>
      match probsOf(t)
      case Failure(e) => Failure(e)
      case Success(probs) =>
        if |probs| == |Labels| && IsArgmax(probs, pick(t)) then Success(Predict(probs, pick(t)))
        else Failure("no label for this probability vector")
  }

  /** Every vector the forward pass produces holds probabilities, each in [0, 1]. */
  ghost predicate YieldsProbabilities(probsOf: string -> Result<seq<real>, string>) {
    forall t :: probsOf(t).Success? ==>
      forall j :: 0 <= j < |probsOf(t).value| ==> 0.0 <= probsOf(t).value[j] <= 1.0
  }

  /**
   * A predictor built from the selection step over probabilities is backed
   * by the model: every prediction it returns has a known label and a
   * score in [0, 1].
   */
  lemma {:induction false} SelectionIsModelBacked(probsOf: string -> Result<seq<real>, string>, pick: string -> nat)
    requires YieldsProbabilities(probsOf)
    ensures ModelBacked(FromSelection(probsOf, pick))
  {
    var predict := FromSelection(probsOf, pick);
    forall t | predict(t).Success?
      ensures IsModelPrediction(predict(t).value)
    {
      var probs := probsOf(t).value;
      assert |probs| == |Labels| && IsArgmax(probs, pick(t));
      PredictIsModelPrediction(probs, pick(t));
    }
  }

  /**
   * With the model's selection step behind it, a successful response of
   * POST /predict carries one of the three labels and a score in [0, 1],
   * as its documentation says.
   */
  lemma {:induction false} ResponseIsWellFormed(text: string, probsOf: string -> Result<seq<real>, string>, pick: string -> nat)
    requires YieldsProbabilities(probsOf)
    requires PredictSentiment(text, FromSelection(probsOf, pick)).Success?
    ensures PredictSentiment(text, FromSelection(probsOf, pick)).value.sentiment in Labels
    ensures 0.0 <= PredictSentiment(text, FromSelection(probsOf, pick)).value.score <= 1.0
  {
    var predict := FromSelection(probsOf, pick);
    SelectionIsModelBacked(probsOf, pick);
    assert IsModelPrediction(predict(text).value);
  }
}
