# Dementia classification: label and feature-encoding contract

This project models the logic a dementia-classification service shares
between its training script and its prediction endpoint:

- **Training** (`retrain_model.py`). A Clinical Dementia Rating (CDR) value
  becomes one of four class indices. CDR 0 maps to 0, 0.5 to 1 and 1 to 2,
  and every other value maps to 3. The script also fixes the nine
  feature columns `Age, M/F, EDUC, SES, MMSE, CDR, eTIV, nWBV, ASF`, and it
  label-encodes sex so that F = 0 and M = 1.
- **Serving** (`app.py`, `predict`). The endpoint reads nine fields from a
  JSON body into a one-row feature vector, coding `gender` as 1 for `"M"`
  and 0 otherwise. It then asks the trained classifier for a class index and
  class probabilities. It answers with the class name, the largest
  probability as the confidence, and a name-to-probability table. Any
  exception becomes a 500 response.

Files and modules:

| file | module | contents |
|---|---|---|
| `wrappers.dfy` | `Wrappers` | `Option` / `Result`, usable with `:-` |
| `json.dfy` | `Json` | JSON values of a request body |
| `records.dfy` | `Records` | subscripting a record by a key list, where the first missing key fails |
| `clinical.dfy` | `Clinical` | the four classes (`Severity`) and one dataset visit |
| `training.dfy` | `Training` | target encoding, feature layout, training examples |
| `serving.dfy` | `Serving` | feature building, class-name decoding, the response |
| `consistency.dfy` | `Consistency` | training/serving agreement |

The trained decision tree is a parameter: a `Serving.Classifier` holds two
total functions on a feature row, one for `predict` and one for
`predict_proba`. Either may fail. Every property of `Predict` holds for every
classifier.

Behaviour taken from the code:

- A negative predicted index is looked up the way Python lists do it. So -1
  decodes to "Severe Dementia", and only indices below -4 or above 3 fail
  (`Serving.NegativeIndexWraps`). A trained tree never predicts a
  negative class.
- Errors are raised in the order the code evaluates things:
  1. the body cannot be read as JSON;
  2. the body is not an object;
  3. the first missing field, in feature order;
  4. a list in any field but gender, which NumPy refuses to shape into a
     one-row array;
  5. the classifier's two calls;
  6. the class-name lookup;
  7. `max` of no probabilities;
  8. a fifth probability that has no name.

## Model

| member | source | states |
|---|---|---|
| `Records.Lookup` | app.py:22-31 | the values of the keys, in key order, exactly when every key is present; otherwise the first missing key, with every earlier key present |
| `Clinical.Severity.Index` | retrain_model.py:19-26 | each class's index lies in 0..3, the range of values the target encoding returns |
| `Clinical.OfIndex` | retrain_model.py:19-26 | a class exists for exactly the indices 0..3, and its index is the one asked for |
| `Clinical.IndexRoundTrip` | retrain_model.py:19-26 | class to index and back gives the same class |
| `Clinical.Severity.Label` | retrain_model.py:20-26 | each class's name, as given in the target comments, is a degree followed by " Dementia" |
| `Clinical.LabelInjective` | retrain_model.py:19-26 | the four class names in the target comments are pairwise distinct |
| `Training.SexCode` | retrain_model.py:15 | the sex code indexes the sorted class list back to the same value, so F = 0 and M = 1 |
| `Training.EncodeTarget` | retrain_model.py:18-26 | every CDR value gets a class index in 0..3 |
| `Training.EncodeTargetInverse` | retrain_model.py:18-26 | 0, 0.5 and 1 reach their classes; each of those classes has exactly one CDR value; class 3 is reached exactly by the values with no exact match |
| `Training.CatchAllExamples` | retrain_model.py:25-26 | 0.25, -1, 2 and 3 all fall into class 3 |
| `Training.MonotoneOnScale` | retrain_model.py:18-26 | on the CDR scale 0, 0.5, 1, 2, 3 a higher rating never gets a lower class |
| `Training.NotMonotone` | retrain_model.py:25-26 | over all reals the encoding is not order-preserving (0.25 < 0.5 but class 3 > class 1) |
| `Training.RowOf` | retrain_model.py:12-15 | a visit's cleaned row holds exactly the feature columns; its sex cell decodes back to the visit's sex through the sorted classes; its CDR cell is the visit's CDR |
| `Training.TrainingExample` | retrain_model.py:28-31 | a row yields nine features in column order, with a target equal to the encoding of the sixth (CDR) feature; without a CDR column it fails on CDR |
| `Training.LabelDependsOnlyOnCdr` | retrain_model.py:28 | rows that agree on CDR get the same target, whatever else they hold |
| `Serving.PyIndex` | app.py:41 | Python list subscription: succeeds exactly for -len..len-1 and yields an element of the list; a non-negative index yields that element; a negative index in range counts from the end; everything else raises IndexError |
| `Serving.DecodeLabel` | app.py:38-41 | index 0..3 decodes to that class's name; index -4..-1 decodes to the name of the class at index + 4; indices of 4 or more, or below -4, are an IndexError |
| `Serving.GenderCode` | app.py:24 | the code is 1 exactly when the field is the string "M", and 0 otherwise |
| `Serving.BuildFeatures` | app.py:19-32 | succeeds exactly for an object with all nine fields and no list outside the gender field; gives nine values in field order, with gender coded and every other value unchanged; a non-object is a TypeError; a missing field gives a KeyError for the first one missing; a list in a numeric field gives the ValueError of building the array |
| `Serving.Max` | app.py:42 | the confidence is one of the probabilities and no probability exceeds it |
| `Serving.ProbabilityTable` | app.py:43-45 | for at most four probabilities, every class name at a position holds that position's probability and no other key appears; more than four raise IndexError |
| `Serving.ProbabilityTableSize` | app.py:43-45 | the table has exactly one entry per probability |
| `Serving.Report` | app.py:35-46 | an answer exists exactly for an in-range index and one to four probabilities; it names the class at the index (a negative index counted from the end), reports the largest probability, and keys every probability by its class name |
| `Serving.Answer` | app.py:18-46 | a successful run always yields an answer that meets the promises of `ValidAnswer` |
| `Serving.Predict` | app.py:17-48 | an answer (status 200) comes only from an object body that holds every field, with no list outside gender; it names a class; its confidence is the largest reported probability; it has one to four probabilities keyed by class names; the response is an error (status 500) exactly when some step raised, and has status 200 exactly when none did |
| `Serving.RejectsMalformedBody` | app.py:18-48 | a non-JSON body, a non-object body, a missing field, or a list in a numeric field gives a 500 response naming the cause, whatever the classifier is |
| `Serving.ListFieldExample` | app.py:22-32 | a body whose age field is the list [1, 2] gets a 500 response before the classifier is asked |
| `Serving.ReportsModelOutput` | app.py:35-46 | for any classifier outputs: an index in 0..3 with one to four probabilities gives an answer naming that class, with a confidence among the probabilities and each probability under its class name |
| `Serving.PredictCallComesFirst` | app.py:35-36 | when the class-index call raises, its error is the response, whatever the probability call would do |
| `Serving.RejectsBadModelOutput` | app.py:41-48 | an index of 4 or more, no probabilities, or more than four probabilities each give a 500 response |
| `Serving.NegativeIndexWraps` | app.py:41 | index -1 decodes to "Severe Dementia", -4 to "No Dementia", and -5 fails |
| `Serving.GenderCodeExamples` | app.py:24 | "F", "m", the empty string and the number 1 all code as 0; "M" codes as 1 |
| `Consistency.LayoutsAlign` | retrain_model.py:31 | both layouts have nine positions, and gender (M/F) and CDR sit at the same positions in both |
| `Consistency.GenderCodesAgree` | app.py:24 | the endpoint's gender code equals the training encoder's code for F and M |
| `Consistency.ServedRowMatchesTrainingRow` | app.py:22-32 | for any visit, the served feature vector equals the training feature vector position by position |
| `Consistency.RowsAgree` | retrain_model.py:31 | request fields that match a dataset row's measurements produce that row's training feature vector |
| `Consistency.TargetOfServedCdr` | retrain_model.py:28 | a visit's training target is the encoding of the CDR cell of the served row |
| `Consistency.ClassNamesMatchLabels` | app.py:38 | the endpoint's name table lists the class names of the training comments, in class-index order |
| `Consistency.ServedNameOfTarget` | retrain_model.py:19-26 | decoding any training target through the endpoint's table gives the name of the class the target stands for (the training target for CDR 0.25 decodes to "Severe Dementia"; what a request with that CDR receives depends on the classifier) |

## Left out

- HTTP plumbing: Flask routing, CORS, the `/health` endpoint and starting the server (app.py:1-14, 50-51).
- JSON parsing and serialisation. The body comes in already parsed, as `Option<Json>`, where `None` means reading it raised. The response is a datatype, not serialised JSON.
- Error message text. Each exception is modelled by its cause (`Serving.Error`), not by the exact string `str(e)` would produce.
- `joblib` loading and saving, and the decision tree's fitting, `predict` and `predict_proba`. These are library calls; the classifier is a parameter.
- NumPy's type coercion of the feature row, for example numeric strings or nested objects. Only the list case, which fails while the array is built, is modelled. Any other failure from building the array or converting its values is counted as a classifier failure.
- Number types. Probabilities and measurements are exact reals. NaN and the `float(...)` conversions are not modelled.
- The probability table's column positions. The table keys each probability by position, while the tree orders its columns by the classes it saw in training. The two agree when all four classes occur in the training data; a training set that lacks a class is not modelled.
- The training script's missing-column error lists every missing column; the model names only the first.
- Loading the CSV, `dropna`, the train/test split and its seed, and the final message. These are I/O and library behaviour. A dataset row is a map from column name to number after cleaning.
- Training.SexCode: covers the label encoder only on the two values "F" and "M" that the sex column holds, not its general sorted-classes behaviour on other value sets.
- The front-end theme tokens (`theme.ts`) and the React provider composition (`App.tsx`). They are static styling data and library-driven animation ordering, with no logic to model.
