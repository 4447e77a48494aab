# Student retention predictor: request rules

This project models the server-side request rules of a small Flask service
that predicts whether a student will be retained. A client posts a JSON
object with a name, an age, an attendance rate, an academic percentage and
an activities flag to `/predict`. The handler validates the request, asks a
trained classifier for a verdict and a retention percentage, and answers
with a JSON document that echoes the request, states the verdict, names a
risk band and lists advice.

The model covers the four pure decision rules around the classifier call:

- `validate_payload` (module `Validation`): the checks, their fixed order and
  the first failing message;
- `build_recommendations` (module `Recommendations`): the rule table, both as
  the specification function `Advice` and as the method
  `BuildRecommendations`, which appends to a list the way the source does;
- `risk_level_from_probability` (module `Risk`): the three risk bands;
- the body of `predict` (module `Predict`): validation gates the classifier,
  and an accepted request's response uses fixed conversions.

The Python built-ins these rules depend on are modelled in `Text`
(`str.strip`, `str.join`, `str(int)` and the decimal grammar of `int(text)`)
and `Values` (a decoded JSON value, `int(v)` and `str(v)`). `int()` skips the
same whitespace as `str.strip()` except U+001C to U+001F, which it rejects.
The trained model
is a function parameter `classify` of `Predict.Handle`. The classifier's
prediction and its retention percentage are opaque inputs.

## Model

| member | source | states |
|---|---|---|
| `Text.IsSpace` | app.py:42 | the whitespace set of `str.isspace()`; no whitespace character is a digit or a sign, so trimming never eats part of a number |
| `Text.LStrip` | app.py:42 | the result is a suffix of the input; every character removed is skipped whitespace; the result does not start with skipped whitespace |
| `Text.RStrip` | app.py:42 | the result is a prefix of the input; every character removed is skipped whitespace; the result does not end with skipped whitespace |
| `Text.Strip` | app.py:42 | `str.strip()` returns a slice of its input; everything cut away on either side is whitespace; the slice has no whitespace at either end; the result is empty exactly when the input is blank |
| `Text.StripIdempotent` | app.py:116 | stripping the echoed name a second time changes nothing |
| `Text.StripPadded` | app.py:46-49 | stripping blank padding off text with no whitespace at its ends gives back exactly that text |
| `Text.Join` | app.py:40 | `", ".join(parts)` is empty for no parts; otherwise it starts with the first part, and its length is the parts' total plus one separator between each pair |
| `Text.JoinAppend` | app.py:40 | joining a single part gives that part, and joining one more part appends the separator and then that part; with `Join` of no parts this fixes every join |
| `Text.IntToString` | app.py:120 | `str(i)` is integer text with a minus sign exactly when `i` is negative, never a plus sign, and no leading zero, neither for `i >= 0` nor after the minus sign |
| `Text.ParseDecimal` | app.py:46-49 | `int(text)` on stripped text succeeds exactly for an optional sign followed by one or more ASCII digits |
| `Text.IntToStringRoundTrip` | app.py:120 | `str(i)` parses back to `i` for every integer |
| `Text.ParseSigned` | app.py:46-49 | a `+` in front of digits leaves their value unchanged, and a `-` negates it |
| `Text.LeadingZero` | app.py:46-49 | a leading zero does not change the value of digits |
| `Text.CanonicalDigits` | app.py:46-49 | digits without a leading zero are exactly `str()` of the value they parse to; with the round trip, sign and leading-zero lemmas this fixes the value of every accepted text |
| `Values.Truncate` | app.py:46-49 | `int(x)` of a float truncates toward zero: it is at most 1 below `x` for `x >= 0` and at most 1 above it for `x < 0` |
| `Values.ToIntRejects` | app.py:46-50 | the property of `Values.ToInt`, which models `int(v)` at app.py:46-49: `int(v)` fails exactly for null, arrays and objects, and for text that is not an optional sign followed by ASCII digits once the whitespace `int()` skips is trimmed |
| `Values.ToStr` | app.py:42 | `str(v)` of a string is that string; `str()` of null, a boolean or an integer is never blank |
| `Values.IntTextRoundTrip` | app.py:46-49 | `int()` reads any integer's decimal text back to that integer, with or without whitespace around it that `int()` skips |
| `Values.IntStrRoundTrip` | app.py:120 | `int(str(i)) == i`, so the echoed activities text reads back to the submitted flag |
| `Values.SeparatorRejected` | app.py:45-51 | a U+001C in front of integer text makes `int()` fail, so the request gets the numeric-field error |
| `Values.SeparatorStripped` | app.py:42 | `str.strip()` removes a U+001C in front of integer text, which `int()` would reject |
| `Validation.MissingKeys` | app.py:37-38 | the result holds exactly the required keys absent from the request, in the required-key order; it is empty exactly when all are present |
| `Validation.ValidateMessages` | app.py:36-62 | the property of `Validation.Validate`, which models `validate_payload` at app.py:36-62: every error is a non-empty message: one of the fixed messages, or one that starts with "Missing required fields: " |
| `Validation.ValidateAcceptsExactly` | app.py:36-62 | no error is returned exactly when all keys are present, the name is not blank, all four fields convert, and age is in [1,120], attendance and academic are in [0,100] and activities is 0 or 1 |
| `Validation.MissingKeysReportedFirst` | app.py:37-40 | an absent required key gives "Missing required fields: " followed by the absent keys joined by ", ", whatever else is wrong |
| `Validation.BlankNameReportedSecond` | app.py:42-43 | with every key present, a name that is blank after `str()` gives "Name cannot be empty.", whatever the numbers are |
| `Validation.UnparsableReportedThird` | app.py:45-51 | with keys present and a name given, a field that `int()` rejects gives "All numeric fields must be valid numbers." before any range check |
| `Validation.RangeChecksInOrder` | app.py:53-60 | the range checks run in the order age, attendance, academic, activities, with inclusive bounds; the first one violated names the error |
| `Recommendations.Advice` | app.py:65-75 | one to three entries, each one of the four fixed pieces of advice; each rule's advice appears exactly when its threshold fires; the fallback appears exactly when no rule fires and is then the only entry; entries follow rule order without repeats |
| `Recommendations.BuildRecommendations` | app.py:65-75 | appending one rule at a time builds exactly `Advice` of the three converted fields |
| `Risk.RiskLevel` | app.py:78-83 | "Low Risk" exactly when p >= 80, "Moderate Risk" exactly when 60 <= p < 80, "High Risk" exactly when p < 60 |
| `Risk.RiskLevelMonotone` | app.py:78-83 | a higher retention percentage never gives a riskier band |
| `Predict.Handle` | app.py:97-127 | rejected (status 400, carrying the validator's message) exactly when validation fails; otherwise status 200, a stripped non-empty name, echoed numbers in range, activities "0" or "1", a retention status from the fixed pair, the risk band of the reported percentage and one to three pieces of advice |
| `Predict.RejectionIgnoresModel` | app.py:99-101 | a rejected request gets the same answer whatever the model is, so the model is never consulted |
| `Predict.AcceptedEchoesRequest` | app.py:103-125 | an accepted request echoes the stripped name and the converted numbers; the activities text reads back to the flag; the status is "Retained" exactly when the prediction is 1; the model's percentage is reported; the advice is the rule table's |
| `Predict.ModelSeenOnlyThroughVerdict` | app.py:103-113 | an accepted request's answer depends on the model only through its verdict on the four converted features, taken in the order age, attendance, academic, activities |

## Left out

- Model training, loading and saving (`load_data`, `train_model`, `get_model`, app.py:16-33): these are calls into pandas, scikit-learn and joblib, plus file I/O. The trained model is the `classify` parameter.
- `model.predict`, `predict_proba` and `round(probability * 100, 1)` (app.py:111-113): these are floating-point work done by the library. `classify` returns the prediction and the rounded percentage directly, and the percentage is an exact `real`.
- Flask routing, `render_template`, `jsonify`, the `/health` endpoint and `app.run` (app.py:86-93, 130-131): HTTP and I/O plumbing. The JSON encoding of the response is not modelled.
- The request body: the model reads the body as already decoded JSON. A body that decodes to a falsy JSON value that is not an object (`null`, `false`, `0`, `""`, `[]`) is the `None` input of `Predict.BodyOrEmpty`, which reads it as the empty object, as `or {}` at app.py:98 does. A body that is missing, empty, malformed or not sent as JSON makes `request.get_json()` raise inside the handler at app.py:98; Flask then answers with its own 400 or 415 error. These errors are not modelled. A truthy JSON body that is not an object, such as a non-empty array or string, is not modelled either; there the source would test `key in` the list or substring.
- `Values.ToIntRejects`: `int()` on text does not model underscores between digits, non-ASCII decimal digits or CPython's limit on the number of digits.
- Non-finite floats: Python's `json` accepts `NaN` and `Infinity`, but `Values.Value` holds only finite floats. `int()` of NaN raises `ValueError`, which app.py:50 turns into the numeric-field error. `int()` of an infinity raises `OverflowError`, which the handler does not catch.
- `Values.ToStr`: the text `str()` gives a float, an array or an object is carried by the value rather than computed.
- `static/script.js` (DOM listeners, `fetch`, HTML templating, the report download): UI glue with no rule beyond rendering the response.
