/** The label and feature layout the training script fixes
    (retrain_model.py). Fitting the decision tree, the train/test split and
    saving the model are library calls and are not part of this module. */
module Training {
  import opened Wrappers
  import Records
  import Clinical

  /** A dataset row after cleaning: column name to numeric value. */
  type Row = map<string, real>

  /** The feature columns, in the order the classifier is trained on. */
  const FeatureColumns: seq<string> :=
    ["Age", "M/F", "EDUC", "SES", "MMSE", "CDR", "eTIV", "nWBV", "ASF"]

  /** The column the training label is derived from. */
  const TargetColumn: string := "CDR"

  /** Position of the label's source column in the feature layout. */
  const CdrPosition: nat := 5

  /** The classes a label encoder finds in the sex column, sorted. */
  const SexClasses: seq<string> := ["F", "M"]

  /** The five global ratings of the Clinical Dementia Rating scale. */
  const CdrScale: seq<real> := [0.0, 0.5, 1.0, 2.0, 3.0]

  /** Label-encodes the sex column: the index of the value among the
      sorted classes, which gives F = 0 and M = 1. */
  function SexCode(sex: string): (code: nat)
    requires sex in SexClasses
    ensures code < |SexClasses| && SexClasses[code] == sex
  {
    if sex == "F" then 0 else 1
  }

  /** Maps a CDR value to a class index: exact matches for 0, 0.5 and 1,
      and a catch-all for everything else. */
  function EncodeTarget(cdr: real): (target: int)
    ensures 0 <= target < 4
  {
    if cdr == 0.0 then 0       // No Dementia
    else if cdr == 0.5 then 1  // Mild Dementia
    else if cdr == 1.0 then 2  // Moderate Dementia
    else 3                     // Severe Dementia
  }

  /** The CDR value `EncodeTarget` matches exactly for a class; none for
      the catch-all class. */
  function ExactCdr(s: Clinical.Severity): Option<real> {
    match s
    case NoDementia => Some(0.0)
    case MildDementia => Some(0.5)
    case ModerateDementia => Some(1.0)
    case SevereDementia => None
  }

  /** Every exactly-matched class is reached from its CDR value and from
      no other; every value without an exact match lands in the last
      class. */
  lemma EncodeTargetInverse(cdr: real, s: Clinical.Severity)
    ensures ExactCdr(s) == Some(cdr) ==> EncodeTarget(cdr) == s.Index()
    ensures EncodeTarget(cdr) == s.Index() && ExactCdr(s).Some? ==> cdr == ExactCdr(s).value
    ensures EncodeTarget(cdr) == 3 <==>
              forall t: Clinical.Severity :: ExactCdr(t) != Some(cdr)
  {
    if EncodeTarget(cdr) != 3 {
      var t := Clinical.OfIndex(EncodeTarget(cdr)).value;
      assert ExactCdr(t) == Some(cdr);
    }
  }

  /** Off-scale values such as 0.25 or negatives fall into the catch-all. */
  lemma CatchAllExamples()
    ensures EncodeTarget(0.25) == 3 && EncodeTarget(-1.0) == 3
    ensures EncodeTarget(2.0) == 3 && EncodeTarget(3.0) == 3
  {
  }

  /** On the rating scale a higher CDR never gets a lower class ... */
  lemma MonotoneOnScale(i: int, j: int)
    requires 0 <= i <= j < |CdrScale|
    ensures CdrScale[i] <= CdrScale[j]
    ensures EncodeTarget(CdrScale[i]) <= EncodeTarget(CdrScale[j])
  {
  }

  /** ... but over all reals the encoding is not order-preserving. */
  lemma NotMonotone()
    ensures exists a: real, b: real :: a < b && EncodeTarget(a) > EncodeTarget(b)
  {
    assert 0.25 < 0.5 && EncodeTarget(0.25) > EncodeTarget(0.5);
  }

  /** One training example: the feature vector and its label. */
  datatype Example = Example(features: seq<real>, target: int)

  /** The example a cleaned row contributes: the label is computed from the
      CDR column first, then the feature columns are selected. A missing
      column raises a KeyError naming it. */
  function TrainingExample(row: Row): (r: Result<Example, string>)
    ensures r.Success? <==> forall i :: 0 <= i < |FeatureColumns| ==> FeatureColumns[i] in row
    ensures r.Success? ==>
              && |r.value.features| == |FeatureColumns|
              && (forall i :: 0 <= i < |FeatureColumns| ==>
                    r.value.features[i] == row[FeatureColumns[i]])
              && r.value.target == EncodeTarget(r.value.features[CdrPosition])
    ensures TargetColumn !in row ==> r == Failure(TargetColumn)
  {
    if TargetColumn !in row then
      assert FeatureColumns[CdrPosition] == TargetColumn;
      Failure(TargetColumn)
    else
      var target := EncodeTarget(row[TargetColumn]);
      var features :- Records.Lookup(row, FeatureColumns);
      assert FeatureColumns[CdrPosition] == TargetColumn;
      Success(Example(features, target))
  }

  /** Two rows that agree on the CDR column get the same label, whatever
      their other columns hold. */
  lemma LabelDependsOnlyOnCdr(row1: Row, row2: Row)
    requires TrainingExample(row1).Success? && TrainingExample(row2).Success?
    requires row1[TargetColumn] == row2[TargetColumn]
    ensures TrainingExample(row1).value.target == TrainingExample(row2).value.target
  {
    assert FeatureColumns[CdrPosition] == TargetColumn;
  }

  /** The cleaned row the dataset holds for a visit. */
  function RowOf(v: Clinical.Visit): (row: Row)
    requires v.sex in SexClasses
    ensures forall i :: 0 <= i < |FeatureColumns| ==> FeatureColumns[i] in row
    ensures row.Keys == set c | c in FeatureColumns
    ensures 0 <= row["M/F"].Floor < |SexClasses| && SexClasses[row["M/F"].Floor] == v.sex
    ensures row[TargetColumn] == v.cdr
  {
    map[
      "Age" := v.age,
      "M/F" := SexCode(v.sex) as real,
      "EDUC" := v.educ,
      "SES" := v.ses,
      "MMSE" := v.mmse,
      "CDR" := v.cdr,
      "eTIV" := v.etiv,
      "nWBV" := v.nwbv,
      "ASF" := v.asf
    ]
  }
}
