/** Agreement between the training script and the prediction endpoint:
    the same feature order, the same gender code, and class names that
    match the labels the training targets stand for. */
module Consistency {
  import opened Wrappers
  import opened Json
  import Clinical
  import Training
  import Serving

  /** The JSON body a client sends for a visit. */
  function RequestOf(v: Clinical.Visit): Json {
    JObject(map[
      "age" := JNum(v.age),
      "gender" := JStr(v.sex),
      "education" := JNum(v.educ),
      "ses" := JNum(v.ses),
      "mmse" := JNum(v.mmse),
      "cdr" := JNum(v.cdr),
      "etiv" := JNum(v.etiv),
      "nwbv" := JNum(v.nwbv),
      "asf" := JNum(v.asf)
    ])
  }

  /** Both layouts have nine positions, and gender and CDR sit at the same
      positions in both. */
  lemma LayoutsAlign()
    ensures |Training.FeatureColumns| == |Serving.RequestKeys| == 9
    ensures Training.FeatureColumns[Serving.GenderPosition] == "M/F"
    ensures Serving.RequestKeys[Serving.GenderPosition] == "gender"
    ensures Training.FeatureColumns[Training.CdrPosition] == Training.TargetColumn
    ensures Serving.RequestKeys[Training.CdrPosition] == "cdr"
  {
  }

  /** The served gender code equals the training encoder's code on every
      value the dataset holds. */
  lemma GenderCodesAgree(sex: string)
    requires sex in Training.SexClasses
    ensures Serving.GenderCode(JStr(sex)) == JNum(Training.SexCode(sex) as real)
  {
  }

  /** For any visit, the row the endpoint builds from the visit's request
      equals, position by position, the feature vector the classifier was
      trained on for that visit. */
  lemma ServedRowMatchesTrainingRow(v: Clinical.Visit)
    requires v.sex in Training.SexClasses
    ensures Serving.BuildFeatures(RequestOf(v)).Success?
    ensures Training.TrainingExample(Training.RowOf(v)).Success?
    ensures |Serving.BuildFeatures(RequestOf(v)).value| == |Training.FeatureColumns|
    ensures forall i :: 0 <= i < |Training.FeatureColumns| ==>
              Serving.BuildFeatures(RequestOf(v)).value[i]
              == JNum(Training.TrainingExample(Training.RowOf(v)).value.features[i])
  {
    var fields := RequestOf(v).fields;
    var row := Training.RowOf(v);
    RequestHasEveryKey(v);
    forall i | 0 <= i < |Serving.RequestKeys| && i != Serving.GenderPosition
      ensures fields[Serving.RequestKeys[i]] == JNum(row[Training.FeatureColumns[i]])
    {
      SameMeasurement(v, i);
    }
    GenderCodesAgree(v.sex);
    RowsAgree(fields, row);
  }

  /** A request whose fields carry the same measurements as a dataset row,
      position by position, is served as that row's feature vector. */
  lemma RowsAgree(fields: map<string, Json>, row: Training.Row)
    requires forall i :: 0 <= i < |Serving.RequestKeys| ==> Serving.RequestKeys[i] in fields
    requires forall i :: 0 <= i < |Training.FeatureColumns| ==> Training.FeatureColumns[i] in row
    requires forall i :: 0 <= i < |Serving.RequestKeys| && i != Serving.GenderPosition ==>
               fields[Serving.RequestKeys[i]] == JNum(row[Training.FeatureColumns[i]])
    requires Serving.GenderCode(fields[Serving.RequestKeys[Serving.GenderPosition]])
             == JNum(row[Training.FeatureColumns[Serving.GenderPosition]])
    ensures Serving.BuildFeatures(JObject(fields)).Success?
    ensures Training.TrainingExample(row).Success?
    ensures |Serving.BuildFeatures(JObject(fields)).value| == |Training.FeatureColumns|
    ensures forall i :: 0 <= i < |Training.FeatureColumns| ==>
              Serving.BuildFeatures(JObject(fields)).value[i]
              == JNum(Training.TrainingExample(row).value.features[i])
  {
  }

  /** A client's request carries every field the endpoint reads. */
  lemma RequestHasEveryKey(v: Clinical.Visit)
    ensures forall i :: 0 <= i < |Serving.RequestKeys| ==> Serving.RequestKeys[i] in RequestOf(v).fields
  {
  }

  /** A client's request holds a number in every field but gender. */
  lemma RequestIsWellShaped(v: Clinical.Visit)
    ensures Serving.WellShaped(RequestOf(v).fields)
  {
    RequestHasEveryKey(v);
  }

  /** Away from the gender position, the request field and the dataset
      column at the same position carry the same measurement. */
  lemma SameMeasurement(v: Clinical.Visit, i: int)
    requires v.sex in Training.SexClasses
    requires 0 <= i < 9 && i != Serving.GenderPosition
    ensures Serving.RequestKeys[i] in RequestOf(v).fields
    ensures Training.FeatureColumns[i] in Training.RowOf(v)
    ensures RequestOf(v).fields[Serving.RequestKeys[i]]
            == JNum(Training.RowOf(v)[Training.FeatureColumns[i]])
  {
  }

  /** The training target of a visit is the encoding of the CDR cell of
      the row the endpoint serves for it. */
  lemma TargetOfServedCdr(v: Clinical.Visit)
    requires v.sex in Training.SexClasses
    ensures Serving.BuildFeatures(RequestOf(v)).Success?
    ensures Serving.BuildFeatures(RequestOf(v)).value[Training.CdrPosition] == JNum(v.cdr)
    ensures Training.TrainingExample(Training.RowOf(v)).Success?
    ensures Training.TrainingExample(Training.RowOf(v)).value.target
            == Training.EncodeTarget(v.cdr)
  {
    var fields := RequestOf(v).fields;
    var row := Training.RowOf(v);
    RequestHasEveryKey(v);
    SameMeasurement(v, Training.CdrPosition);
    RequestIsWellShaped(v);
    assert fields[Serving.RequestKeys[Training.CdrPosition]] == JNum(v.cdr);
    CdrCellsAgree(fields, row);
  }

  /** The served CDR cell is the request's CDR field, and the training
      target is the encoding of the row's CDR column. */
  lemma CdrCellsAgree(fields: map<string, Json>, row: Training.Row)
    requires Serving.WellShaped(fields)
    requires forall i :: 0 <= i < |Training.FeatureColumns| ==> Training.FeatureColumns[i] in row
    requires fields[Serving.RequestKeys[Training.CdrPosition]]
             == JNum(row[Training.FeatureColumns[Training.CdrPosition]])
    ensures Serving.BuildFeatures(JObject(fields)).Success?
    ensures Serving.BuildFeatures(JObject(fields)).value[Training.CdrPosition]
            == fields[Serving.RequestKeys[Training.CdrPosition]]
    ensures Training.TrainingExample(row).Success?
    ensures Training.TrainingExample(row).value.target
            == Training.EncodeTarget(row[Training.FeatureColumns[Training.CdrPosition]])
  {
  }

  /** The endpoint's class-name table lists the classes' names in class
      index order. */
  lemma ClassNamesMatchLabels(s: Clinical.Severity)
    ensures Serving.ClassNames[s.Index()] == s.Label()
    ensures Serving.DecodeLabel(s.Index()) == Success(s.Label())
  {
  }

  /** Decoding a training target through the endpoint's table gives the
      name of the class the target stands for; the training target for a CDR
      of 0.25 decodes to "Severe Dementia". */
  lemma ServedNameOfTarget(cdr: real)
    ensures Serving.DecodeLabel(Training.EncodeTarget(cdr)).Success?
    ensures Serving.DecodeLabel(Training.EncodeTarget(cdr))
            == Success(Clinical.OfIndex(Training.EncodeTarget(cdr)).value.Label())
    ensures Serving.DecodeLabel(Training.EncodeTarget(0.25)) == Success("Severe Dementia")
  {
  }
}
