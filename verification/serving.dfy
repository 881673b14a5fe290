/** The prediction endpoint (app.py, `predict`): builds a one-row feature
    vector from a JSON body, asks the trained classifier for a class index
    and class probabilities, and answers with the class name, the
    confidence and a name-to-probability table. Every exception becomes an
    error response with status 500. */
module Serving {
  import opened Wrappers
  import opened Json
  import Records
  import Clinical

  /** One feature row as it is handed to the classifier. */
  type FeatureRow = seq<Json>

  /** The exceptions `predict` can meet, by their cause. */
  datatype Error =
    | BodyNotJson              // the body could not be read as JSON
    | NotSubscriptable         // the JSON body is not an object
    | MissingKey(key: string)  // a required field is absent
    | ModelError(message: string)  // the classifier raised
    | IndexOutOfRange          // a class index outside the name table
    | EmptyProbabilities       // the maximum of no probabilities
    | RaggedRow                // a field holds a list, so the row has no array shape

  /** The trained classifier, seen only through its two calls on a row:
      the predicted class index and the per-class probabilities. Either
      call may raise. */
  datatype Classifier = Classifier(
    predict: FeatureRow -> Result<int, Error>,
    predictProba: FeatureRow -> Result<seq<real>, Error>)

  /** The response: the answer with status 200, or the error with 500. */
  datatype Response =
    | Answer(prediction: string, confidence: real, probabilities: map<string, real>)
    | ServerError(error: Error)
  {
    function Status(): int {
      if Answer? then 200 else 500
    }
  }

  /** The JSON fields read, in the order they fill the feature row. */
  const RequestKeys: seq<string> :=
    ["age", "gender", "education", "ses", "mmse", "cdr", "etiv", "nwbv", "asf"]

  /** Where the gender field sits in the row. */
  const GenderPosition: nat := 1

  /** The class-name table, indexed by predicted class. */
  const ClassNames: seq<string> :=
    ["No Dementia", "Mild Dementia", "Moderate Dementia", "Severe Dementia"]

  /** Python list subscription: negative indices count from the end, and
      anything else outside the list raises an IndexError. */
  function PyIndex<T>(s: seq<T>, i: int): (r: Result<T, Error>)
    ensures r.Success? <==> -|s| <= i < |s|
    ensures r.Success? ==> r.value in s
    ensures 0 <= i < |s| ==> r == Success(s[i])
    ensures -|s| <= i < 0 ==> r == Success(s[|s| + i])
    ensures r.Failure? ==> r.error == IndexOutOfRange
  {
    if 0 <= i < |s| then Success(s[i])
    else if -|s| <= i < 0 then Success(s[|s| + i])
    else Failure(IndexOutOfRange)
  }

  /** The class name for a predicted index. */
  function DecodeLabel(index: int): (r: Result<string, Error>)
    ensures 0 <= index < 4 ==> r == Success(Clinical.OfIndex(index).value.Label())
    ensures -4 <= index < 0 ==> r == Success(Clinical.OfIndex(4 + index).value.Label())
    ensures index >= 4 || index < -4 ==> r == Failure(IndexOutOfRange)
  {
    PyIndex(ClassNames, index)
  }

  /** Gender is coded 1 for exactly the string "M" and 0 for any other
      value. */
  function GenderCode(gender: Json): (code: Json)
    ensures code == JNum(1.0) || code == JNum(0.0)
    ensures code == JNum(1.0) <==> gender == JStr("M")
  {
    if gender == JStr("M") then JNum(1.0) else JNum(0.0)
  }

  /** A row cell that is itself a list: next to the scalar gender code it
      gives the row an inhomogeneous shape, which NumPy refuses to turn
      into an array. */
  predicate HasListCell(row: FeatureRow) {
    exists i :: 0 <= i < |row| && row[i].JArray?
  }

  /** The fields of an object body, in order, are all present and none
      but the gender field holds a list. */
  ghost predicate WellShaped(fields: map<string, Json>) {
    && (forall i :: 0 <= i < |RequestKeys| ==> RequestKeys[i] in fields)
    && forall i :: 0 <= i < |RequestKeys| && i != GenderPosition ==>
         !fields[RequestKeys[i]].JArray?
  }

  /** The feature row for a JSON body: the nine fields in order, gender
      coded, every other value passed through. A body that is not an
      object fails on the first subscription; otherwise the first missing
      field is reported; a complete row with a list in it fails when it is
      turned into an array. */
  function BuildFeatures(data: Json): (r: Result<FeatureRow, Error>)
    ensures r.Success? <==> data.JObject? && WellShaped(data.fields)
    ensures r.Success? ==>
              && |r.value| == |RequestKeys|
              && r.value[GenderPosition] == GenderCode(data.fields[RequestKeys[GenderPosition]])
              && forall i :: 0 <= i < |RequestKeys| && i != GenderPosition ==>
                   r.value[i] == data.fields[RequestKeys[i]]
    ensures !data.JObject? ==> r == Failure(NotSubscriptable)
    ensures data.JObject? && !(forall i :: 0 <= i < |RequestKeys| ==> RequestKeys[i] in data.fields) ==>
              exists i :: 0 <= i < |RequestKeys| && r == Failure(MissingKey(RequestKeys[i]))
                          && RequestKeys[i] !in data.fields
                          && forall j :: 0 <= j < i ==> RequestKeys[j] in data.fields
    ensures data.JObject? && r.Failure? &&
            (forall i :: 0 <= i < |RequestKeys| ==> RequestKeys[i] in data.fields) ==>
              r.error == RaggedRow
  {
    if !data.JObject? then Failure(NotSubscriptable)
    else
      match Records.Lookup(data.fields, RequestKeys)
      case Failure(k) => Failure(MissingKey(k))
      case Success(raw) =>
        var row := raw[GenderPosition := GenderCode(raw[GenderPosition])];
        CodedRowShape(data.fields, raw);
        if HasListCell(row) then Failure(RaggedRow) else Success(row)
  }

  /** Coding the gender cell of the looked-up values leaves every other
      field in place, and the coded row has a list cell exactly when a
      field other than gender holds a list. */
  lemma CodedRowShape(fields: map<string, Json>, raw: seq<Json>)
    requires |raw| == |RequestKeys|
    requires forall i :: 0 <= i < |RequestKeys| ==> RequestKeys[i] in fields && raw[i] == fields[RequestKeys[i]]
    ensures forall i :: 0 <= i < |RequestKeys| && i != GenderPosition ==>
              raw[GenderPosition := GenderCode(raw[GenderPosition])][i] == fields[RequestKeys[i]]
    ensures HasListCell(raw[GenderPosition := GenderCode(raw[GenderPosition])]) <==> !WellShaped(fields)
  {
    var row := raw[GenderPosition := GenderCode(raw[GenderPosition])];
    if HasListCell(row) {
      var i :| 0 <= i < |row| && row[i].JArray?;
      assert i != GenderPosition && fields[RequestKeys[i]].JArray?;
    }
    if !WellShaped(fields) {
      var i :| 0 <= i < |RequestKeys| && i != GenderPosition && fields[RequestKeys[i]].JArray?;
      assert row[i].JArray?;
    }
  }

  /** The largest probability; ties keep the first. */
  function Max(s: seq<real>): (m: real)
    requires |s| > 0
    ensures m in s
    ensures forall i :: 0 <= i < |s| ==> s[i] <= m
  {
    if |s| == 1 then s[0]
    else
      var rest := Max(s[1..]);
      if s[0] >= rest then s[0] else rest
  }

  /** The probabilities keyed by the class name at each position; a fifth
      probability has no name and raises an IndexError. */
  function ProbabilityTable(probs: seq<real>): (r: Result<map<string, real>, Error>)
    ensures r.Success? <==> |probs| <= |ClassNames|
    ensures r.Success? ==>
              && (forall k :: k in r.value ==> k in ClassNames[..|probs|])
              && (forall i :: 0 <= i < |probs| ==> ClassNames[i] in r.value && r.value[ClassNames[i]] == probs[i])
    ensures r.Failure? ==> r.error == IndexOutOfRange
  {
    if |probs| > |ClassNames| then Failure(IndexOutOfRange)
    else Success(map i | 0 <= i < |probs| :: ClassNames[i] := probs[i])
  }

  /** The table has exactly one entry per probability. */
  lemma ProbabilityTableSize(probs: seq<real>)
    requires |probs| <= |ClassNames|
    ensures |ProbabilityTable(probs).value| == |probs|
  {
    var table := ProbabilityTable(probs).value;
    assert table.Keys == set i | 0 <= i < |probs| :: ClassNames[i];
    ImageSize(ClassNames, |probs|);
  }

  /** Pairwise distinct names at the first n positions make n names. */
  lemma {:induction false} ImageSize(names: seq<string>, n: nat)
    requires n <= |names|
    requires forall i, j :: 0 <= i < j < n ==> names[i] != names[j]
    ensures |set i | 0 <= i < n :: names[i]| == n
  {
    if n > 0 {
      ImageSize(names, n - 1);
      var prev := set i | 0 <= i < n - 1 :: names[i];
      assert (set i | 0 <= i < n :: names[i]) == prev + {names[n - 1]};
      assert names[n - 1] !in prev;
    }
  }

  /** What every answer promises about the body it came from: the body is
      an object holding every field, with no list outside the gender
      field, the prediction names a class, the
      confidence is the largest of the reported probabilities, and the
      probabilities are keyed by class names, at most one per class. */
  ghost predicate ValidAnswer(body: Option<Json>, r: Response) {
    r.Answer? ==>
      && body.Some? && body.value.JObject?
      && WellShaped(body.value.fields)
      && r.prediction in ClassNames
      && r.confidence in r.probabilities.Values
      && (forall n :: n in r.probabilities ==> r.probabilities[n] <= r.confidence)
      && 1 <= |r.probabilities| <= |ClassNames|
      && (forall n :: n in r.probabilities ==> n in ClassNames)
  }

  /** The answer built from the classifier's outputs on a row. */
  function Report(index: int, probs: seq<real>): (r: Result<Response, Error>)
    ensures r.Success? <==> -|ClassNames| <= index < |ClassNames| && 1 <= |probs| <= |ClassNames|
    ensures r.Success? ==>
              && r.value.Answer?
              && r.value.prediction in ClassNames
              && (0 <= index ==> r.value.prediction == ClassNames[index])
              && (index < 0 ==> r.value.prediction == ClassNames[|ClassNames| + index])
              && r.value.confidence in r.value.probabilities.Values
              && (forall n :: n in r.value.probabilities ==> r.value.probabilities[n] <= r.value.confidence)
              && |r.value.probabilities| == |probs|
              && (forall n :: n in r.value.probabilities ==> n in ClassNames)
              && (forall i :: 0 <= i < |probs| ==> ClassNames[i] in r.value.probabilities && r.value.probabilities[ClassNames[i]] == probs[i])
    ensures index >= |ClassNames| || index < -|ClassNames| ==> r == Failure(IndexOutOfRange)
    ensures -|ClassNames| <= index < |ClassNames| && |probs| == 0 ==> r == Failure(EmptyProbabilities)
  {
    var name :- DecodeLabel(index);
    if |probs| == 0 then Failure(EmptyProbabilities)
    else
      var table :- ProbabilityTable(probs);
      var confidence := Max(probs);
      ProbabilityTableSize(probs);
      ConfidenceIsTableMaximum(probs, ClassNames, table);
      Success(Response.Answer(name, confidence, table))
  }

  /** The largest probability is one of the table's values and no value
      in the table exceeds it. */
  lemma ConfidenceIsTableMaximum(probs: seq<real>, names: seq<string>, table: map<string, real>)
    requires 1 <= |probs| <= |names|
    requires forall k :: k in table ==> k in names[..|probs|]
    requires forall i :: 0 <= i < |probs| ==> names[i] in table && table[names[i]] == probs[i]
    ensures Max(probs) in table.Values
    ensures forall n :: n in table ==> table[n] <= Max(probs)
  {
    var confidence := Max(probs);
    var k :| 0 <= k < |probs| && probs[k] == confidence;
    assert table[names[k]] == confidence;
    forall n | n in table ensures table[n] <= confidence {
      var i :| 0 <= i < |probs| && n == names[..|probs|][i];
    }
  }

  /** The answer for a body, or the first exception raised on the way. */
  function Answer(model: Classifier, body: Option<Json>): (r: Result<Response, Error>)
    ensures r.Success? ==> r.value.Answer? && ValidAnswer(body, r.value)
  {
    var data :- body.ToResult(BodyNotJson);
    var row :- BuildFeatures(data);
    var index :- model.predict(row);
    var probs :- model.predictProba(row);
    Report(index, probs)
  }

  /** The endpoint: the answer, or the exception as a 500 response. */
  function Predict(model: Classifier, body: Option<Json>): (r: Response)
    ensures ValidAnswer(body, r)
    ensures r.ServerError? <==> Answer(model, body).Failure?
    ensures r.Status() == 200 <==> Answer(model, body).Success?
  {
    match Answer(model, body)
    case Success(response) => response
    case Failure(e) => ServerError(e)
  }

  /** A body that is not JSON, not an object, lacks a field, or holds a
      list in a numeric field gets a 500 response naming the cause,
      whatever the classifier would say. */
  lemma RejectsMalformedBody(model: Classifier, body: Option<Json>)
    ensures body.None? ==> Predict(model, body) == ServerError(BodyNotJson)
    ensures body.Some? && !body.value.JObject? ==>
              Predict(model, body) == ServerError(NotSubscriptable)
    ensures body.Some? && body.value.JObject?
            && (exists i :: 0 <= i < |RequestKeys| && RequestKeys[i] !in body.value.fields) ==>
              && Predict(model, body).ServerError?
              && Predict(model, body).error.MissingKey?
              && Predict(model, body).error.key in RequestKeys
              && Predict(model, body).error.key !in body.value.fields
    ensures body.Some? && body.value.JObject?
            && (forall i :: 0 <= i < |RequestKeys| ==> RequestKeys[i] in body.value.fields)
            && (exists i :: 0 <= i < |RequestKeys| && i != GenderPosition
                            && body.value.fields[RequestKeys[i]].JArray?) ==>
              Predict(model, body) == ServerError(RaggedRow)
  {
  }

  /** A list in the age field is refused before the classifier is asked. */
  lemma ListFieldExample(model: Classifier, fields: map<string, Json>)
    requires forall i :: 0 <= i < |RequestKeys| ==> RequestKeys[i] in fields
    requires "age" in fields && fields["age"] == JArray([JNum(1.0), JNum(2.0)])
    ensures Predict(model, Some(JObject(fields))) == ServerError(RaggedRow)
  {
    assert RequestKeys[0] == "age";
  }

  /** When the classifier gives an in-range index and one to four
      probabilities, the response names that index's class and reports the
      probabilities position by position. */
  lemma ReportsModelOutput(model: Classifier, data: Json, row: FeatureRow, index: int, probs: seq<real>)
    requires BuildFeatures(data) == Success(row)
    requires model.predict(row) == Success(index)
    requires model.predictProba(row) == Success(probs)
    ensures 0 <= index < |ClassNames| && 1 <= |probs| <= |ClassNames| ==>
              && Predict(model, Some(data)).Answer?
              && Predict(model, Some(data)).prediction == Clinical.OfIndex(index).value.Label()
              && Predict(model, Some(data)).confidence in probs
              && forall i :: 0 <= i < |probs| ==>
                   && ClassNames[i] in Predict(model, Some(data)).probabilities
                   && Predict(model, Some(data)).probabilities[ClassNames[i]] == probs[i]
  {
  }

  /** An index of four or more, no probabilities, or more than four of
      them all end in a 500 response. */
  lemma RejectsBadModelOutput(model: Classifier, data: Json, row: FeatureRow, index: int, probs: seq<real>)
    requires BuildFeatures(data) == Success(row)
    requires model.predict(row) == Success(index)
    requires model.predictProba(row) == Success(probs)
    ensures index >= |ClassNames| ==> Predict(model, Some(data)) == ServerError(IndexOutOfRange)
    ensures 0 <= index < |ClassNames| && |probs| == 0 ==>
              Predict(model, Some(data)) == ServerError(EmptyProbabilities)
    ensures 0 <= index < |ClassNames| && |probs| > |ClassNames| ==>
              Predict(model, Some(data)) == ServerError(IndexOutOfRange)
  {
    assert Answer(model, Some(data)) == Report(index, probs);
  }

  /** The class index is asked for before the probabilities: when it
      raises, that error is the response, whatever the probability call
      would have done. */
  lemma PredictCallComesFirst(model: Classifier, data: Json, row: FeatureRow, e: Error)
    requires BuildFeatures(data) == Success(row)
    requires model.predict(row) == Failure(e)
    ensures Predict(model, Some(data)) == ServerError(e)
  {
  }

  /** Negative indices wrap around as Python list subscription does. */
  lemma NegativeIndexWraps()
    ensures DecodeLabel(-1) == Success("Severe Dementia")
    ensures DecodeLabel(-4) == Success("No Dementia")
    ensures DecodeLabel(-5) == Failure(IndexOutOfRange)
  {
  }

  /** Only the exact string "M" codes as 1. */
  lemma GenderCodeExamples()
    ensures GenderCode(JStr("M")) == JNum(1.0)
    ensures GenderCode(JStr("F")) == JNum(0.0)
    ensures GenderCode(JStr("m")) == JNum(0.0)
    ensures GenderCode(JStr("")) == JNum(0.0)
    ensures GenderCode(JNum(1.0)) == JNum(0.0)
  {
  }
}
