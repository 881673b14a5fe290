/** The entities the training script and the prediction endpoint share:
    the four dementia classes and one clinical visit of the dataset. */
module Clinical {
  import opened Wrappers

  /** The four classes, in class-index order. */
  datatype Severity = NoDementia | MildDementia | ModerateDementia | SevereDementia {

    /** The class index the training labels use. */
    function Index(): (i: nat)
      ensures i < 4
    {
      match this
      case NoDementia => 0
      case MildDementia => 1
      case ModerateDementia => 2
      case SevereDementia => 3
    }

    /** The name the training script gives each label in its comments:
        every name is a degree followed by the word "Dementia". */
    function Label(): (name: string)
      ensures |name| > |" Dementia"|
      ensures name[|name| - |" Dementia"|..] == " Dementia"
    {
      match this
      case NoDementia => "No Dementia"
      case MildDementia => "Mild Dementia"
      case ModerateDementia => "Moderate Dementia"
      case SevereDementia => "Severe Dementia"
    }
  }

  /** The class with index `i`, if there is one. */
  function OfIndex(i: int): (s: Option<Severity>)
    ensures s.Some? <==> 0 <= i < 4
    ensures s.Some? ==> s.value.Index() == i
  {
    if i == 0 then Some(NoDementia)
    else if i == 1 then Some(MildDementia)
    else if i == 2 then Some(ModerateDementia)
    else if i == 3 then Some(SevereDementia)
    else None
  }

  lemma IndexRoundTrip(s: Severity)
    ensures OfIndex(s.Index()) == Some(s)
  {
  }

  /** Distinct classes carry distinct names. */
  lemma LabelInjective(s: Severity, t: Severity)
    ensures s.Label() == t.Label() ==> s == t
  {
  }

  /** One row of the longitudinal MRI dataset after rows with missing
      values are dropped: eight numeric measurements and the sex code. */
  datatype Visit = Visit(
    age: real,
    sex: string,
    educ: real,
    ses: real,
    mmse: real,
    cdr: real,
    etiv: real,
    nwbv: real,
    asf: real)
}
