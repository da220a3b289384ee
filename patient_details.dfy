/** The data side of the patient detail window (patientdetailswindow.cpp): the add, edit and
    delete handlers for one patient's measurements. Dialogs and confirmation boxes become
    parameters: `dialog` is `None` when the entry dialog was cancelled and `Some(values)` when
    it was accepted; `confirmed` is the answer to the delete question; `tableIds` holds the
    hidden id column of the measurement table, row by row; `currentRow` is the selected row,
    or negative when nothing is selected. The chart projector is in module TimeSeries. */
module PatientDetails {
  import opened Common
  import opened Metric
  import opened Tables
  import opened MetricRepository
  import opened AddMetricDialog

  /** The record the edit handler writes back: the fetched row with the dialog's values and
      the BMI recomputed from them; id, patient and creation time are kept. */
  function Edited(row: MetricRow, v: Values): (r: MetricRow)
    ensures r.id == row.id && r.userId == row.userId && r.createdAt == row.createdAt
    ensures && r.date == v.date && r.weight == v.weight && r.height == v.height
            && r.bodyFatPercentage == v.bodyFat && r.muscleMassPercentage == v.muscleMass
            && r.notes == v.notes
    ensures r.bmi == Bmi(v.weight, v.height)
  {
    WithBmi(row.(date := v.date, weight := v.weight, height := v.height,
                 bodyFatPercentage := v.bodyFat, muscleMassPercentage := v.muscleMass,
                 notes := v.notes))
  }

  /** The record the add handler stores under `id`. */
  function Added(id: int, patientId: int, v: Values, now: DateTime): (r: MetricRow)
    ensures r.id == id && r.userId == patientId && r.createdAt == now
    ensures && r.date == v.date && r.weight == v.weight && r.height == v.height
            && r.bodyFatPercentage == v.bodyFat && r.muscleMassPercentage == v.muscleMass
            && r.notes == v.notes
    ensures r.bmi == Bmi(v.weight, v.height)
  {
    MetricRow(id, patientId, v.date, v.weight, v.height, Bmi(v.weight, v.height),
              v.bodyFat, v.muscleMass, v.notes, now)
  }

  /** Editing twice with the same values gives the same record as editing once. */
  lemma EditedIdempotent(row: MetricRow, v: Values)
    ensures Edited(Edited(row, v), v) == Edited(row, v)
  {
  }

  /** A record entered through an accepted dialog gets a positive BMI. */
  lemma AcceptedGivesPositiveBmi(id: int, patientId: int, v: Values, now: DateTime)
    requires OnOkClicked(v) == Accepted
    ensures Added(id, patientId, v, now).bmi > 0.0
  {
  }

  /** A measurement whose spin-box columns lie in the dialog's ranges and whose BMI is
      positive: what a record entered through the dialog looks like. */
  predicate InDialogRanges(r: MetricRow) {
    && InRange(WeightRange, r.weight) && InRange(HeightRange, r.height)
    && InRange(BodyFatRange, r.bodyFatPercentage) && InRange(MuscleMassRange, r.muscleMassPercentage)
    && r.bmi > 0.0
  }

  /** What `exec()` can hand back with Accepted: values the spin boxes hold that OK lets
      through. */
  predicate Returnable(dialog: Option<Values>) {
    dialog.Some? ==> Holdable(dialog.value) && OnOkClicked(dialog.value) == Accepted
  }

  /** Adding with values the dialog holds stores a record within the dialog's ranges, with a
      positive BMI. */
  lemma AddedInDialogRanges(id: int, patientId: int, v: Values, now: DateTime)
    requires Holdable(v)
    ensures InDialogRanges(Added(id, patientId, v, now))
  {
    HoldableIsAccepted(v);
    AcceptedGivesPositiveBmi(id, patientId, v, now);
  }

  /** Editing with values the dialog holds leaves the record within the dialog's ranges, with
      a positive BMI, whatever it held before. */
  lemma EditedInDialogRanges(row: MetricRow, v: Values)
    requires Holdable(v)
    ensures InDialogRanges(Edited(row, v))
  {
    HoldableIsAccepted(v);
  }

  class PatientDetailsWindow {
    const patientId: int
    const manager: HealthMetricManager

    constructor (patientId: int, manager: HealthMetricManager)
      ensures this.patientId == patientId && this.manager == manager
    {
      this.patientId := patientId;
      this.manager := manager;
    }

    /** Add button: on an accepted dialog, build a new record for this patient stamped with
        `now`, compute its BMI, and insert it. */
    method OnAddMetricClicked(dialog: Option<Values>, now: DateTime, execOk: bool) returns (added: bool)
      requires Returnable(dialog)
      requires manager.store.Valid()
      modifies manager.store
      ensures manager.store.Valid()
      ensures added <==> dialog.Some? && execOk && patientId in old(manager.store.users)
      ensures added ==> && manager.store.lastMetricId == old(manager.store.lastMetricId) + 1
                        && manager.store.metrics == old(manager.store.metrics)[manager.store.lastMetricId :=
                             Added(manager.store.lastMetricId, patientId, dialog.value, now)]
      ensures added ==> InDialogRanges(manager.store.metrics[manager.store.lastMetricId])
      ensures !added ==> manager.store.metrics == old(manager.store.metrics)
                         && manager.store.lastMetricId == old(manager.store.lastMetricId)
      ensures manager.store.users == old(manager.store.users)
      ensures manager.store.lastUserId == old(manager.store.lastUserId)
    {
      if dialog.None? {
        return false;
      }
      var v := dialog.value;
      var newMetric := new HealthMetric.New(patientId, v.date, v.weight, v.height,
                                            v.bodyFat, v.muscleMass, v.notes, now);
      newMetric.CalculateBmi();
      added := manager.AddHealthMetric(newMetric, execOk);
      if added {
        AddedInDialogRanges(manager.store.lastMetricId, patientId, v, now);
      }
    }

    /** Edit button: with a row selected, fetch its record (`fetchOk` says whether that query
        ran), give up when the fetched id reads 0, and on an accepted dialog write back the new
        values with the BMI recomputed. */
    method OnEditClicked(currentRow: int, tableIds: seq<int>, fetchOk: bool,
                         dialog: Option<Values>, execOk: bool) returns (updated: bool)
      requires currentRow < |tableIds|
      requires Returnable(dialog)
      requires manager.store.Valid()
      modifies manager.store
      ensures manager.store.Valid()
      ensures updated <==> && currentRow >= 0 && fetchOk && dialog.Some? && execOk
                           && tableIds[currentRow] in old(manager.store.metrics)
      ensures updated ==>
        var id := tableIds[currentRow];
        manager.store.metrics == old(manager.store.metrics)[id := Edited(old(manager.store.metrics)[id], dialog.value)]
      ensures updated ==> InDialogRanges(manager.store.metrics[tableIds[currentRow]])
      ensures !updated ==> manager.store.metrics == old(manager.store.metrics)
      ensures manager.store.users == old(manager.store.users)
      ensures manager.store.lastUserId == old(manager.store.lastUserId)
              && manager.store.lastMetricId == old(manager.store.lastMetricId)
    {
      if currentRow < 0 {
        return false;
      }
      var metricId := tableIds[currentRow];
      var original := manager.GetHealthMetric(metricId, fetchOk);
      if original.id == 0 {
        return false;
      }
      if dialog.None? {
        return false;
      }
      var v := dialog.value;
      EditedInDialogRanges(original.Value(), v);
      original.SetDate(v.date);
      original.SetWeight(v.weight);
      original.SetHeight(v.height);
      original.SetBodyFatPercentage(v.bodyFat);
      original.SetMuscleMassPercentage(v.muscleMass);
      original.SetNotes(v.notes);
      original.CalculateBmi();
      updated := manager.UpdateHealthMetric(original, execOk);
    }

    /** Delete button: with a row selected and the question answered yes, delete the
        measurement whose id that row holds. */
    method OnDeleteClicked(currentRow: int, tableIds: seq<int>, confirmed: bool, execOk: bool)
      returns (deleted: bool)
      requires currentRow < |tableIds|
      requires manager.store.Valid()
      modifies manager.store
      ensures manager.store.Valid()
      ensures deleted <==> && currentRow >= 0 && confirmed && execOk && tableIds[currentRow] > 0
                           && tableIds[currentRow] in old(manager.store.metrics)
      ensures deleted ==> manager.store.metrics == old(manager.store.metrics) - {tableIds[currentRow]}
      ensures !deleted ==> manager.store.metrics == old(manager.store.metrics)
      ensures manager.store.users == old(manager.store.users)
      ensures manager.store.lastUserId == old(manager.store.lastUserId)
              && manager.store.lastMetricId == old(manager.store.lastMetricId)
    {
      if currentRow < 0 {
        return false;
      }
      var metricToDelete := tableIds[currentRow];
      if !confirmed {
        return false;
      }
      deleted := manager.DeleteHealthMetric(metricToDelete, execOk);
    }
  }
}
