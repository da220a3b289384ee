/** The measurement repository of healthmetricmanager.cpp: each operation runs one
    statement against the `health_metrics` table of a shared store. `execOk` says whether
    the store executed the statement (it is false on a connection or driver failure); a
    foreign-key violation is a failed execution too. */
module MetricRepository {
  import opened Common
  import opened Metric
  import opened Tables
  import opened Sorting

  /** What `getHealthMetric` reads back when there is no row: every column at its zero value. */
  const EmptyRow: MetricRow := MetricRow(0, 0, NullDate, 0.0, 0.0, 0.0, 0.0, 0.0, "", NullDateTime)

  class HealthMetricManager {
    const store: Store

    constructor (store: Store)
      ensures this.store == store
    {
      this.store := store;
    }

    /** `INSERT INTO health_metrics`: a fresh key, and every other column exactly as the
        record holds it (the BMI is stored, not recomputed). Fails when the statement
        fails or the record's `userId` names no stored user. */
    method AddHealthMetric(metric: HealthMetric, execOk: bool) returns (ok: bool)
      requires store.Valid()
      modifies store
      ensures store.Valid()
      ensures ok <==> execOk && metric.userId in old(store.users)
      ensures ok ==> && store.lastMetricId == old(store.lastMetricId) + 1
                     && store.lastMetricId !in old(store.metrics)
                     && store.metrics == old(store.metrics)[store.lastMetricId :=
                                                             metric.Value().(id := store.lastMetricId)]
      ensures !ok ==> store.metrics == old(store.metrics) && store.lastMetricId == old(store.lastMetricId)
      ensures store.users == old(store.users) && store.lastUserId == old(store.lastUserId)
    {
      if !execOk || metric.userId !in store.users {
        return false;
      }
      var id := store.lastMetricId + 1;
      store.lastMetricId := id;
      store.metrics := store.metrics[id := metric.Value().(id := id)];
      return true;
    }

    /** The measurements of one patient, ordered by date and then by creation time;
        an empty list when the query fails. */
    method GetHealthMetricsByUserId(userId: int, execOk: bool) returns (metrics: seq<MetricRow>)
      requires store.Valid()
      ensures !execOk ==> metrics == []
      ensures SortedBy(ChronologicalLe, metrics) && NoDuplicates(metrics)
      ensures forall m | m in metrics ::
        m.id in store.metrics && store.metrics[m.id] == m && m.userId == userId
      ensures execOk ==>
        forall id | id in store.metrics && store.metrics[id].userId == userId :: store.metrics[id] in metrics
    {
      metrics := [];
      if !execOk {
        return;
      }
      var rows := store.SelectMetricsOfUser(userId);
      var i := 0;
      while i < |rows|
        invariant 0 <= i <= |rows|
        invariant metrics == rows[..i]
      {
        metrics := metrics + [rows[i]];
        i := i + 1;
      }
      assert rows[..|rows|] == rows;
    }

    /** `UPDATE health_metrics ... WHERE metric_id = :metric_id`: every column but the key and
        `created_at` is overwritten. Fails for a non-positive id, a failed statement, or
        when no row has that id. */
    method UpdateHealthMetric(metric: HealthMetric, execOk: bool) returns (ok: bool)
      requires store.Valid()
      modifies store
      ensures store.Valid()
      ensures ok <==> && metric.id > 0 && execOk && metric.id in old(store.metrics)
                      && metric.userId in old(store.users)
      ensures ok ==> store.metrics == old(store.metrics)[metric.id :=
                       metric.Value().(createdAt := old(store.metrics[metric.id].createdAt))]
      ensures !ok ==> store.metrics == old(store.metrics)
      ensures store.users == old(store.users)
      ensures store.lastUserId == old(store.lastUserId) && store.lastMetricId == old(store.lastMetricId)
    {
      if metric.id <= 0 {
        return false;
      }
      if !execOk || (metric.id in store.metrics && metric.userId !in store.users) {
        return false;
      }
      var rowsAffected := if metric.id in store.metrics then 1 else 0;
      if rowsAffected == 0 {
        return false;
      }
      var kept := store.metrics[metric.id].createdAt;
      store.metrics := store.metrics[metric.id := metric.Value().(createdAt := kept)];
      return true;
    }

    /** `DELETE FROM health_metrics WHERE metric_id = :metric_id`: removes exactly that row.
        Fails for a non-positive id, a failed statement, or when no row has that id. */
    method DeleteHealthMetric(metricId: int, execOk: bool) returns (ok: bool)
      requires store.Valid()
      modifies store
      ensures store.Valid()
      ensures ok <==> metricId > 0 && execOk && metricId in old(store.metrics)
      ensures ok ==> store.metrics == old(store.metrics) - {metricId}
      ensures !ok ==> store.metrics == old(store.metrics)
      ensures store.users == old(store.users)
      ensures store.lastUserId == old(store.lastUserId) && store.lastMetricId == old(store.lastMetricId)
    {
      if metricId <= 0 {
        return false;
      }
      if !execOk {
        return false;
      }
      var rowsAffected := if metricId in store.metrics then 1 else 0;
      store.metrics := store.metrics - {metricId};
      if rowsAffected == 0 {
        return false;
      }
      return true;
    }

    /** One measurement by key, built field by field through the setters. A missing row or a
        failed query yields the all-zero record, whose id 0 is the caller's not-found signal. */
    method GetHealthMetric(metricId: int, execOk: bool) returns (metric: HealthMetric)
      requires store.Valid()
      ensures fresh(metric)
      ensures execOk && metricId in store.metrics ==> metric.Value() == store.metrics[metricId]
      ensures !(execOk && metricId in store.metrics) ==> metric.Value() == EmptyRow
      ensures metric.id == 0 <==> !(execOk && metricId in store.metrics)
    {
      metric := new HealthMetric(EmptyRow.id, EmptyRow.userId, EmptyRow.date, EmptyRow.weight,
                                 EmptyRow.height, EmptyRow.bmi, EmptyRow.bodyFatPercentage,
                                 EmptyRow.muscleMassPercentage, EmptyRow.notes, EmptyRow.createdAt);
      if !execOk {
        return;
      }
      var row := if metricId in store.metrics then store.metrics[metricId] else EmptyRow;
      metric.SetId(row.id);
      metric.SetUserId(row.userId);
      metric.SetDate(row.date);
      metric.SetWeight(row.weight);
      metric.SetHeight(row.height);
      metric.SetBmi(row.bmi);
      metric.SetBodyFatPercentage(row.bodyFatPercentage);
      metric.SetMuscleMassPercentage(row.muscleMassPercentage);
      metric.SetNotes(row.notes);
      metric.SetCreatedAt(row.createdAt);
    }
  }
}
