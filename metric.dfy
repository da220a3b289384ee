/** The measurement record of healtmetric.h: a class whose setters and
    `calculateBmi` update its fields in place, its value as a row, and the BMI rule. */
module Metric {
  import opened Common

  /** Every column of one measurement, as the record and the `health_metrics` table hold it. */
  datatype MetricRow = MetricRow(
    id: int,
    userId: int,
    date: Date,
    weight: real,
    height: real,
    bmi: real,
    bodyFatPercentage: real,
    muscleMassPercentage: real,
    notes: string,
    createdAt: DateTime)

  /** The id of a measurement that has not been stored yet. */
  const UnsavedId: int := -1

  /** Body-mass index from a weight in kilograms and a height in centimetres:
      weight over the square of the height in metres when both are positive, else 0. */
  function Bmi(weight: real, height: real): (bmi: real)
    ensures bmi >= 0.0
    ensures bmi > 0.0 <==> weight > 0.0 && height > 0.0
    ensures weight > 0.0 && height > 0.0 ==> bmi * (height / 100.0) * (height / 100.0) == weight
    ensures !(weight > 0.0 && height > 0.0) ==> bmi == 0.0
  {
    if weight > 0.0 && height > 0.0 then
      var meters := height / 100.0;
      assert meters * meters > 0.0;
      weight / (meters * meters)
    else
      0.0
  }

  /** The row after `calculateBmi`: only the BMI column is replaced, by the rule applied
      to the row's own weight and height. */
  function WithBmi(row: MetricRow): (r: MetricRow)
    ensures r.(bmi := row.bmi) == row
    ensures r.bmi >= 0.0 && (r.bmi > 0.0 <==> row.weight > 0.0 && row.height > 0.0)
  {
    row.(bmi := Bmi(row.weight, row.height))
  }

  /** Recomputing the BMI a second time changes nothing. */
  lemma WithBmiIdempotent(r: MetricRow)
    ensures WithBmi(WithBmi(r)) == WithBmi(r)
    ensures WithBmi(r).bmi >= 0.0
    ensures WithBmi(r).bmi > 0.0 <==> r.weight > 0.0 && r.height > 0.0
  {
  }

  /** The worked example: 70 kg at 175 cm gives a BMI of about 22.86; a zero input gives 0. */
  lemma BmiExamples()
    ensures 22.85 < Bmi(70.0, 175.0) < 22.86
    ensures Bmi(0.0, 175.0) == 0.0 && Bmi(70.0, 0.0) == 0.0
  {
  }

  class HealthMetric {
    var id: int
    var userId: int
    var date: Date
    var weight: real
    var height: real
    var bmi: real
    var bodyFatPercentage: real
    var muscleMassPercentage: real
    var notes: string
    var createdAt: DateTime

    /** The record's fields as one value. */
    function Value(): MetricRow
      reads this
    {
      MetricRow(id, userId, date, weight, height, bmi, bodyFatPercentage,
                muscleMassPercentage, notes, createdAt)
    }

    /** A measurement read back from storage: all ten fields as given. */
    constructor (id: int, userId: int, date: Date, weight: real, height: real, bmi: real,
                 bodyFatPercentage: real, muscleMassPercentage: real, notes: string,
                 createdAt: DateTime)
      ensures Value() == MetricRow(id, userId, date, weight, height, bmi, bodyFatPercentage,
                                   muscleMassPercentage, notes, createdAt)
    {
      this.id, this.userId, this.date := id, userId, date;
      this.weight, this.height, this.bmi := weight, height, bmi;
      this.bodyFatPercentage, this.muscleMassPercentage := bodyFatPercentage, muscleMassPercentage;
      this.notes, this.createdAt := notes, createdAt;
    }

    /** A new measurement: the unsaved id, a BMI of 0 until it is calculated, the rest as given. */
    constructor New(userId: int, date: Date, weight: real, height: real,
                    bodyFatPercentage: real, muscleMassPercentage: real, notes: string,
                    createdAt: DateTime)
      ensures Value() == MetricRow(UnsavedId, userId, date, weight, height, 0.0, bodyFatPercentage,
                                   muscleMassPercentage, notes, createdAt)
    {
      this.id, this.userId, this.date := UnsavedId, userId, date;
      this.weight, this.height, this.bmi := weight, height, 0.0;
      this.bodyFatPercentage, this.muscleMassPercentage := bodyFatPercentage, muscleMassPercentage;
      this.notes, this.createdAt := notes, createdAt;
    }

    method SetId(id: int)
      modifies this
      ensures Value() == old(Value()).(id := id)
    {
      this.id := id;
    }

    method SetUserId(userId: int)
      modifies this
      ensures Value() == old(Value()).(userId := userId)
    {
      this.userId := userId;
    }

    method SetDate(date: Date)
      modifies this
      ensures Value() == old(Value()).(date := date)
    {
      this.date := date;
    }

    method SetWeight(weight: real)
      modifies this
      ensures Value() == old(Value()).(weight := weight)
    {
      this.weight := weight;
    }

    method SetHeight(height: real)
      modifies this
      ensures Value() == old(Value()).(height := height)
    {
      this.height := height;
    }

    method SetBmi(bmi: real)
      modifies this
      ensures Value() == old(Value()).(bmi := bmi)
    {
      this.bmi := bmi;
    }

    method SetBodyFatPercentage(bodyFatPercentage: real)
      modifies this
      ensures Value() == old(Value()).(bodyFatPercentage := bodyFatPercentage)
    {
      this.bodyFatPercentage := bodyFatPercentage;
    }

    method SetMuscleMassPercentage(muscleMassPercentage: real)
      modifies this
      ensures Value() == old(Value()).(muscleMassPercentage := muscleMassPercentage)
    {
      this.muscleMassPercentage := muscleMassPercentage;
    }

    method SetNotes(notes: string)
      modifies this
      ensures Value() == old(Value()).(notes := notes)
    {
      this.notes := notes;
    }

    method SetCreatedAt(createdAt: DateTime)
      modifies this
      ensures Value() == old(Value()).(createdAt := createdAt)
    {
      this.createdAt := createdAt;
    }

    /** Sets the BMI from the current weight and height; no other field changes. */
    method CalculateBmi()
      modifies this
      ensures Value() == WithBmi(old(Value()))
      ensures bmi >= 0.0 && (bmi > 0.0 <==> weight > 0.0 && height > 0.0)
    {
      if weight > 0.0 && height > 0.0 {
        var heightInMeters := height / 100.0;
        bmi := weight / (heightInMeters * heightInMeters);
      } else {
        bmi := 0.0;
      }
    }
  }
}
