# Sentiment analysis service: a Dafny model

This project models the logic of a small sentiment-analysis service. The service serves predictions over HTTP from one pretrained three-class classifier (negative, neutral, positive). Three pieces are modelled, and properties about each are proved:

- **Text cleaning** (`src/data_preprocessing.py`). `clean_text` runs five stages in order:
  1. delete URLs (`http` followed by non-whitespace);
  2. delete mentions (`@` followed by word characters);
  3. delete every character that is not an ASCII letter, an ASCII digit or whitespace;
  4. strip the ends;
  5. lowercase.

  The same file maps raw labels 0/2/4 to classes 0/1/2. In `preprocessing.dfy`:
  - The two pattern deletions share one definition, `RemoveMatches`. It follows `re.sub` exactly: the scan goes left to right, matches do not overlap, and each match takes a maximal run.
  - The whitespace class is Python's own: `\s`, `str.isspace` and `strip()` all use it.
  - Python's `\w` depends on Unicode tables, so it is a parameter `word`. The lemmas about the mention stage hold for every `word`. The ASCII examples (`AsciiMentionIsRemovedWhole`, `MentionExample`) require `AgreesWithPythonWordOnAscii(word)`, which says that `word` agrees with Python's class on ASCII.
- **Label and score selection** (`src/model.py`). `predict` takes the probability vector and returns the label at the argmax index. Its score is the largest probability rounded to three decimals. In `sentiment_model.dfy` the vector and the argmax index are inputs, because the tokenizer, the network and softmax are not modelled.
- **The endpoints** (`src/api.py`). These are `GET /`, `GET /health` and `POST /predict`. In `api.dfy` the loaded model is an oracle: it returns a prediction, or the text of the exception its `predict` raised. `FromSelection` builds such an oracle from the selection step of `sentiment_model.dfy`, so the bounds of its predictions are derived rather than assumed. Two error paths are modelled. The health check absorbs a failure into its record. The prediction endpoint passes the failure on to the caller.

`wrappers.dfy` holds the `Option` and `Result` types. `subsequences.dfy` holds a subsequence predicate and its lemmas, which the cleaning proofs use.

Notable consequences proved about the code as written:
- `clean_text` is not idempotent (`CleanTextIsNotIdempotent`). The URL pattern is matched before lowercasing, so `"HTTPabc"` cleans to `"httpabc"`, and cleaning that again gives `""`.
- The prediction endpoint passes the caller's text to the model unchanged. Cleaning is applied only when the training data is prepared.

## Model

| member | source | states |
|---|---|---|
| Preprocessing.IsWhitespace | src/data_preprocessing.py:18-21 | the whitespace class of `\S`, `\s` and strip: the code points Python's str.isspace accepts; used by Strip, LowerChar and the URL stage |
| Preprocessing.CleanText | src/data_preprocessing.py:8-21 | the result contains only lowercase ASCII letters, ASCII digits and whitespace, and never begins or ends with whitespace |
| Preprocessing.CleanTextIsLoweredSubsequence | src/data_preprocessing.py:18-21 | the result is the lowercasing of a subsequence of the input, so it is never longer than the input |
| Preprocessing.CleanTextFixesCleanStrings | src/data_preprocessing.py:18-21 | a string that is already clean (clean characters only, no `http` followed by non-whitespace, no outer whitespace) comes back unchanged |
| Preprocessing.LaterStagesFixCleanStrings | src/data_preprocessing.py:19-21 | the last four stages leave a string of clean characters without outer whitespace unchanged |
| Preprocessing.CleanTextIsNotIdempotent | src/data_preprocessing.py:18-21 | for every nonempty run of lowercase letters and digits without `h`, cleaning `"HTTP" + run` gives `"http" + run`, and cleaning that again gives the empty string |
| Preprocessing.UpperSchemeSurvives | src/data_preprocessing.py:18-21 | an uppercase scheme is not matched by the URL pattern and survives, lowercased |
| Preprocessing.LowerSchemeIsUrl | src/data_preprocessing.py:18-21 | a lowercase `http` followed by a run of letters and digits is deleted entirely |
| Preprocessing.UpperSchemeFirstStages | src/data_preprocessing.py:18-20 | the three deletion stages leave `"HTTP" + run` unchanged |
| Preprocessing.UpperSchemeLastStage | src/data_preprocessing.py:21 | strip and lower turn `"HTTP" + run` into `"http" + run` |
| Preprocessing.UrlExample | src/data_preprocessing.py:18 | `"see http://x.co now"` becomes `"see  now"`, both after the URL stage and after the whole cleaning |
| Preprocessing.RunLength | src/data_preprocessing.py:18-19 | the length of the maximal leading run of a class: every character inside it is in the class, and the next one is not |
| Preprocessing.MatchLength | src/data_preprocessing.py:18-19 | the extent of a match: the literal plus a nonempty maximal run of the class |
| Preprocessing.RemoveMatches | src/data_preprocessing.py:18-19 | deletes every match of a literal followed by a nonempty maximal run of a class, scanning left to right; specified by RemoveMatchesIsSubsequence, RemoveMatchesLeavesNoMatch, RemoveMatchesWithoutMatch and MatchIsRemovedWhole |
| Preprocessing.RemoveUrls | src/data_preprocessing.py:18 | stage one, the literal `http` with the non-whitespace class; specified by RemoveUrlsLeavesNoUrl, UrlIsRemovedWhole, UrlAsWordIsRemoved and BareHttpIsKept |
| Preprocessing.RemoveMentions | src/data_preprocessing.py:19 | stage two, the literal `@` with the word class; specified by RemoveMentionsLeavesNoMention, AsciiMentionIsRemovedWhole and BareAtSurvivesMentionStage |
| Preprocessing.AsciiMentionIsRemovedWhole | src/data_preprocessing.py:19 | with Python's word class on ASCII, `@` and a run of letters, digits and underscores are deleted together up to the next other ASCII character or the end |
| Preprocessing.MentionExample | src/data_preprocessing.py:19 | with Python's word class on ASCII, the mention stage turns `"@ab c"` into `" c"` |
| Preprocessing.RemoveMatchesIsSubsequence | src/data_preprocessing.py:18-19 | a pattern deletion keeps a subsequence of its input |
| Preprocessing.RemoveMatchesLeavesNoMatch | src/data_preprocessing.py:18-19 | after a deletion with maximal runs, no position of the result starts a match, when the literal's later letters lie in the class |
| Preprocessing.RemoveUrlsLeavesNoUrl | src/data_preprocessing.py:18 | after the URL stage, no `http` followed by non-whitespace is left |
| Preprocessing.RemoveMentionsLeavesNoMention | src/data_preprocessing.py:19 | after the mention stage, no `@` followed by a word character is left |
| Preprocessing.RemoveMatchesWithoutMatch | src/data_preprocessing.py:18-19 | a deletion leaves a string without matches unchanged |
| Preprocessing.MatchIsRemovedWhole | src/data_preprocessing.py:18-19 | a literal, its maximal run and nothing else are deleted together |
| Preprocessing.UrlIsRemovedWhole | src/data_preprocessing.py:18 | `http` followed by non-whitespace up to a whitespace is deleted and the rest is processed alone |
| Preprocessing.UrlAsWordIsRemoved | src/data_preprocessing.py:18 | a URL standing as its own word is deleted, and the text on either side is cleaned independently |
| Preprocessing.RemoveMatchesConcat | src/data_preprocessing.py:18 | deletion distributes over concatenation at a separator outside the class, when the literal's letters are in the class, as `http`'s are for `\S`; this fails for `@` under `\w` |
| Preprocessing.BareHttpIsKept | src/data_preprocessing.py:18 | `http` with no non-whitespace character after it is not a URL and is kept |
| Preprocessing.BareAtSurvivesMentionStage | src/data_preprocessing.py:19-20 | a lone `@` survives the mention stage and is then deleted by the third stage |
| Preprocessing.KeepsPrefixWithoutLead | src/data_preprocessing.py:18-19 | a prefix without the literal's first letter passes through a deletion untouched |
| Preprocessing.RemovalKeepsLeadingRun | src/data_preprocessing.py:18-19 | deletion never lengthens the leading run of the class |
| Preprocessing.RemoveDisallowed | src/data_preprocessing.py:20 | every character left is an ASCII letter, an ASCII digit or whitespace |
| Preprocessing.RemoveDisallowedCounts | src/data_preprocessing.py:20 | every kept character occurs exactly as often as in the input, and every other character not at all |
| Preprocessing.RemoveDisallowedIsSubsequence | src/data_preprocessing.py:20 | the third stage keeps a subsequence of its input |
| Preprocessing.RemoveDisallowedWithoutDisallowed | src/data_preprocessing.py:20 | a string of kept characters is unchanged |
| Preprocessing.RemoveDisallowedOnlyDisallowed | src/data_preprocessing.py:20 | a string without kept characters becomes empty |
| Preprocessing.RemoveDisallowedConcat | src/data_preprocessing.py:20 | the third stage distributes over concatenation |
| Preprocessing.Strip | src/data_preprocessing.py:21 | the result is a slice of the input with only whitespace outside it, and does not itself begin or end with whitespace |
| Preprocessing.StripIsSubsequence | src/data_preprocessing.py:21 | stripping keeps a subsequence |
| Preprocessing.StripWithoutOuterWhitespace | src/data_preprocessing.py:21 | a string without outer whitespace is unchanged by strip |
| Preprocessing.StripKeepsClass | src/data_preprocessing.py:21 | strip keeps a string inside any character class it was in |
| Preprocessing.LowerChar | src/data_preprocessing.py:21 | an uppercase ASCII letter becomes its lowercase letter; every other character is unchanged; whitespace is preserved in both directions |
| Preprocessing.Lower | src/data_preprocessing.py:21 | the result has the input's length and each character lowered |
| Preprocessing.LowerKeepsClean | src/data_preprocessing.py:21 | lowering a string of kept characters gives clean characters and keeps the ends free of whitespace |
| Preprocessing.LowerWithoutUpper | src/data_preprocessing.py:21 | a string without uppercase ASCII letters is unchanged by lower |
| Preprocessing.LowerConcat | src/data_preprocessing.py:21 | lower distributes over concatenation |
| Preprocessing.MapLabel | src/data_preprocessing.py:52 | exactly raw labels 0, 2 and 4 are mapped, each to half its value, always a class below 3; every other raw label has no class |
| Preprocessing.LabelMapPairs | src/data_preprocessing.py:52 | 0 maps to 0, 2 maps to 1 and 4 maps to 2 |
| Preprocessing.LabelMapInjective | src/data_preprocessing.py:52 | no two raw labels share a class |
| Preprocessing.LabelMapOnto | src/data_preprocessing.py:52 | every class 0, 1, 2 has a raw label |
| SentimentModel.Max | src/model.py:55 | the maximum is an element of the vector, and no element exceeds it |
| SentimentModel.IsArgmax | src/model.py:54 | an index torch.argmax may return: inside the vector, and holding a largest probability; specified by ArgmaxExists and ScoreIndependentOfTieBreak |
| SentimentModel.Thousandths | src/model.py:56 | round to three decimals lands within half a thousandth of the value, on an even count of thousandths at an exact half, and within [0, 1000] thousandths for a value in [0, 1] |
| SentimentModel.Round3 | src/model.py:56 | round to three decimals: the result is within 0.0005 of the value, and stays in [0, 1] for a value in [0, 1] |
| SentimentModel.RoundThousandthsIsExact | src/model.py:56 | rounding a multiple of 0.001 returns it unchanged |
| SentimentModel.Predict | src/model.py:33-56 | the label is one of the three names and the one at the argmax index; the score is that probability rounded to 0.001, no probability exceeds it by more than 0.0005, and it lies in [0, 1] when the probabilities do |
| SentimentModel.ArgmaxExists | src/model.py:54 | every nonempty vector has an argmax index, so predict always has a label |
| SentimentModel.ScoreIndependentOfTieBreak | src/model.py:54-56 | among tied maxima, the choice of index may change the label but never the score |
| SentimentModel.ScoreOfDistribution | src/model.py:53-56 | for a probability distribution over the three labels, the score lies in [0.333, 1] |
| SentimentModel.LabelOrderMatchesLabelMap | src/model.py:33 | the classes of raw labels 0, 2 and 4 index negative, neutral and positive |
| Api.HealthCheck | src/api.py:93-102 | status is "ok" exactly when the canary prediction succeeds, in which case the model is "loaded" with the healthy message; otherwise the model is "unavailable" with the exception text after a fixed prefix |
| Api.HealthDependsOnlyOnCanary | src/api.py:93-102 | two models that agree on the outcome of the canary call give the same record, whatever they predict |
| Api.FailureMessageIsRecoverable | src/api.py:97-102 | the exception text can be read back from a failure message |
| Api.HealthyMessageIsNotFailure | src/api.py:95-102 | the healthy message is never a failure message |
| Api.HealthAgreesWithPredictOnCanary | src/api.py:93-125 | health is "ok" exactly when a prediction for the canary text succeeds; when that request fails, the health record carries the same error |
| Api.PredictSentiment | src/api.py:124-125 | the request succeeds exactly when the model does, echoing the input unchanged with the model's label and score; otherwise it fails with the model's error |
| Api.PredictIsModelPrediction | src/model.py:54-56 | every output of the selection step on probabilities in [0, 1] has a known label and a score in [0, 1] |
| Api.FromSelection | src/model.py:51-56 | the model's predict as a predictor: an exception of the forward pass is its failure, and a probability vector gives the selection step's prediction |
| Api.SelectionIsModelBacked | src/model.py:53-56 | when the forward pass yields probabilities in [0, 1], every prediction of that predictor has one of the three labels and a score in [0, 1] |
| Api.ResponseIsWellFormed | src/api.py:124-125 | with the model's selection step behind it, a successful response of POST /predict carries one of the three labels and a score in [0, 1] |
| Api.Root | src/api.py:47-79 | the root page contains the heading announcing that the service is running |

## Left out

- Tokenisation, the network's forward pass and softmax are not modelled. They run inside the model library. The probability vector is an input, and `ScoreOfDistribution` assumes it is a distribution.
- SentimentModel.Predict: which index `torch.argmax` picks among equal maxima is left open. Any maximal index is allowed, and `ScoreIndependentOfTieBreak` shows that only the label depends on the choice.
- SentimentModel.Thousandths: probabilities are reals, not 32-bit floats. Rounding is modelled on the exact value, half to even. One float32 to float64 conversion happens before rounding, which is exact and so has nothing to model.
- Preprocessing.RemoveMentions: `\w` is a parameter, because Python's Unicode word class is not reproduced. Only the ASCII examples constrain it, by requiring `AgreesWithPythonWordOnAscii`; every other mention-stage lemma holds for any word class.
- Preprocessing.Lower: lowercasing is ASCII-only. This matches Python here because it runs after the third stage, which keeps only ASCII letters, digits and whitespace, and whitespace has no case.
- Loading the model, the tokenizer download and the "Loading" message happen once at start-up. They are I/O and are left out. The model is the oracle parameter of the endpoints.
- FastAPI routing, pydantic's rejection of a body without a string `text` (a 422 response), JSON encoding and HTTP status codes are not modelled. A failure of `POST /predict` is a `Failure` value, not a 5xx response.
- Api.HealthCheck: a `Failure` of the predictor stands for an `Exception`, the only class the handler catches. A `BaseException` outside it, such as `SystemExit` or `KeyboardInterrupt`, would still propagate out of the health endpoint; the model does not represent it.
- Concurrent requests sharing one model are not modelled; every endpoint is a function of its inputs.
- `preprocess_data` is not modelled beyond its label map and its use of `clean_text`: reading the CSV, selecting columns, the stratified train/test split and writing files. A raw label outside 0/2/4 becomes NaN in pandas; here it is `None`.
- Training, evaluation, the configuration module, the command-line predictor and the demonstration client are not part of this model.
