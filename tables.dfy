/** The two tables of the schema (`users` and `health_metrics`, with AUTOINCREMENT keys
    and a cascading foreign key from measurements to users), the orderings the
    repositories' `ORDER BY` clauses ask for, and the ordered selections the store answers. */
module Tables {
  import opened Common
  import opened Metric
  import opened Patient
  import opened Sorting

  /** Ascending order of a date column: the null date first, then by day. */
  predicate DateLe(a: Date, b: Date) {
    a.NullDate? || (b.Day? && a.day <= b.day)
  }

  /** Ascending order of a date-time column: null first, then by instant. */
  predicate DateTimeLe(a: DateTime, b: DateTime) {
    a.NullDateTime? || (b.Instant? && a.ms <= b.ms)
  }

  /** `ORDER BY date ASC, created_at ASC`. */
  predicate ChronologicalLe(a: MetricRow, b: MetricRow) {
    if a.date == b.date then DateTimeLe(a.createdAt, b.createdAt) else DateLe(a.date, b.date)
  }

  /** Ascending text order, character by character (a prefix comes first). */
  predicate TextLe(a: string, b: string)
    decreases |a|
  {
    a == [] || (b != [] && (a[0] < b[0] || (a[0] == b[0] && TextLe(a[1..], b[1..]))))
  }

  /** `ORDER BY first_name ASC`. */
  predicate FirstNameLe(a: UserRow, b: UserRow) {
    TextLe(a.firstName, b.firstName)
  }

  lemma ChronologicalIsTotalPreorder()
    ensures TotalPreorder(ChronologicalLe)
  {
  }

  lemma {:induction false} TextLeTotal(a: string, b: string)
    ensures TextLe(a, b) || TextLe(b, a)
    decreases |a|
  {
    if a != [] && b != [] && a[0] == b[0] {
      TextLeTotal(a[1..], b[1..]);
    }
  }

  lemma {:induction false} TextLeTransitive(a: string, b: string, c: string)
    requires TextLe(a, b) && TextLe(b, c)
    ensures TextLe(a, c)
    decreases |a|
  {
    if a != [] && a[0] == b[0] && b[0] == c[0] {
      TextLeTransitive(a[1..], b[1..], c[1..]);
    }
  }

  lemma FirstNameIsTotalPreorder()
    ensures TotalPreorder(FirstNameLe)
  {
    forall a, b ensures FirstNameLe(a, b) || FirstNameLe(b, a) {
      TextLeTotal(a.firstName, b.firstName);
    }
    forall a, b, c | FirstNameLe(a, b) && FirstNameLe(b, c) ensures FirstNameLe(a, c) {
      TextLeTransitive(a.firstName, b.firstName, c.firstName);
    }
  }

  class Store {
    /** The `users` table, by `user_id`. */
    var users: map<int, UserRow>
    /** The `health_metrics` table, by `metric_id`. */
    var metrics: map<int, MetricRow>
    /** The largest key AUTOINCREMENT has handed out in each table. */
    var lastUserId: nat
    var lastMetricId: nat

    /** Keys are positive, never above the AUTOINCREMENT high-water mark, equal to the
        row's own id column, and every measurement's `user_id` names a stored user. */
    ghost predicate Valid()
      reads this
    {
      && (forall id | id in users :: 0 < id <= lastUserId && users[id].id == id)
      && (forall id | id in metrics ::
            0 < id <= lastMetricId && metrics[id].id == id && metrics[id].userId in users)
    }

    /** Freshly created, empty tables. */
    constructor ()
      ensures Valid()
      ensures users == map[] && metrics == map[] && lastUserId == 0 && lastMetricId == 0
    {
      users, metrics := map[], map[];
      lastUserId, lastMetricId := 0, 0;
    }

    /** `SELECT ... FROM health_metrics WHERE user_id = :user_id ORDER BY date ASC, created_at ASC`. */
    method SelectMetricsOfUser(userId: int) returns (r: seq<MetricRow>)
      requires Valid()
      ensures SortedBy(ChronologicalLe, r) && NoDuplicates(r)
      ensures forall m | m in r :: m.id in metrics && metrics[m.id] == m && m.userId == userId
      ensures forall id | id in metrics && metrics[id].userId == userId :: metrics[id] in r
    {
      r := [];
      var id := 1;
      while id <= lastMetricId
        invariant 1 <= id <= lastMetricId + 1
        invariant SortedBy(ChronologicalLe, r) && NoDuplicates(r)
        invariant forall m | m in r ::
          m.id in metrics && m.id < id && metrics[m.id] == m && m.userId == userId
        invariant forall k | k in metrics && k < id && metrics[k].userId == userId :: metrics[k] in r
      {
        if id in metrics && metrics[id].userId == userId {
          assert metrics[id] !in r;
          var r' := InsertBy(ChronologicalLe, r, metrics[id]);
          ChronologicalIsTotalPreorder();
          InsertByStep(ChronologicalLe, r, metrics[id]);
          r := r';
        }
        id := id + 1;
      }
    }

    /** `SELECT ... FROM users ORDER BY first_name ASC`. */
    method SelectAllUsers() returns (r: seq<UserRow>)
      requires Valid()
      ensures SortedBy(FirstNameLe, r) && NoDuplicates(r)
      ensures forall u | u in r :: u.id in users && users[u.id] == u
      ensures forall id | id in users :: users[id] in r
    {
      r := [];
      var id := 1;
      while id <= lastUserId
        invariant 1 <= id <= lastUserId + 1
        invariant SortedBy(FirstNameLe, r) && NoDuplicates(r)
        invariant forall u | u in r :: u.id in users && u.id < id && users[u.id] == u
        invariant forall k | k in users && k < id :: users[k] in r
      {
        if id in users {
          assert users[id] !in r;
          var r' := InsertBy(FirstNameLe, r, users[id]);
          FirstNameIsTotalPreorder();
          InsertByStep(FirstNameLe, r, users[id]);
          r := r';
        }
        id := id + 1;
      }
    }
  }
}
