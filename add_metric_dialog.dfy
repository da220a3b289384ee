/** The measurement entry dialog of addmetricdialog.cpp: four spin boxes with fixed ranges,
    a date, free-text notes, and the rule deciding whether OK closes the dialog. */
module AddMetricDialog {
  import opened Common

  /** The closed interval a spin box is configured to hold. */
  datatype Range = Range(lo: real, hi: real)

  const WeightRange: Range := Range(1.0, 300.0)
  const HeightRange: Range := Range(50.0, 250.0)
  const BodyFatRange: Range := Range(0.0, 100.0)
  const MuscleMassRange: Range := Range(0.0, 100.0)

  predicate InRange(r: Range, v: real) {
    r.lo <= v <= r.hi
  }

  /** What the getters hand to the caller once the dialog is closed. */
  datatype Values = Values(date: Date, weight: real, height: real, bodyFat: real,
                           muscleMass: real, notes: string)

  /** Values every spin box can actually hold. */
  predicate Holdable(v: Values) {
    && InRange(WeightRange, v.weight) && InRange(HeightRange, v.height)
    && InRange(BodyFatRange, v.bodyFat) && InRange(MuscleMassRange, v.muscleMass)
  }

  /** How a button click leaves the dialog: closed with Accepted or Rejected, or still open
      after the warning. */
  datatype Outcome = Accepted | Rejected | StillOpen

  /** OK closes the dialog only when weight and height are both positive. */
  function OnOkClicked(v: Values): (o: Outcome)
    ensures o != Rejected
    ensures o == Accepted <==> v.weight > 0.0 && v.height > 0.0
  {
    if v.weight <= 0.0 || v.height <= 0.0 then StillOpen else Accepted
  }

  /** Cancel always closes the dialog without accepting. */
  function OnCancelClicked(): (o: Outcome)
    ensures o != Accepted && o != StillOpen
  {
    Rejected
  }

  /** The configured ranges lie inside the positive reals, so the positivity guard can never
      fire on a value the spin boxes hold: OK always accepts. */
  lemma HoldableIsAccepted(v: Values)
    requires Holdable(v)
    ensures OnOkClicked(v) == Accepted
    ensures v.weight > 0.0 && v.height > 0.0
  {
  }
}
