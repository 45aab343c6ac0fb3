/**
 * The notification feed: open tasks that are overdue or due within the next
 * seven days, by ascending due date, each turned into a notification.
 * The clock is the parameter `now`, `toISOString` the parameter `iso`, and
 * the database's `CURDATE()` the parameter `today` (`YYYY-MM-DD`). A date
 * compared with a DATETIME stands for its midnight.
 */
module TasksUpcoming {

  import opened Wrappers
  import opened Strings
  import opened Sorting
  import opened TaskModel
  import TasksRoute

  /** `next3Days.toISOString().split('T')[0]`, seven days from now. */
  function LimitDate(now: int, iso: int -> string): string {
    Split(iso(now + 7 * DayMs), 'T')[0]
  }

  /** For an ISO instant the limit is its `YYYY-MM-DD` prefix. */
  lemma LimitDateSpec(now: int, iso: int -> string)
    requires TasksRoute.IsIsoInstant(iso(now + 7 * DayMs))
    ensures LimitDate(now, iso) == iso(now + 7 * DayMs)[..10]
  {
    var s := iso(now + 7 * DayMs);
    assert 'T' !in s[..10] by {
      assert forall i :: 0 <= i < 10 ==> s[..10][i] == s[i] != 'T';
    }
    assert s == s[..10] + ['T'] + s[11..];
    SplitFirst(s[..10], 'T', s[11..]);
  }

  function Midnight(date: string): string {
    date + " 00:00:00"
  }

  /** `due_date IS NOT NULL AND status != 'done' AND (due_date BETWEEN CURDATE() AND ? OR due_date < CURDATE())`. */
  predicate Selected(r: TaskRow, today: string, limit: string) {
    && r.due.Some?
    && r.status.Some? && r.status.value != "done"
    && ((LexLe(Midnight(today), r.due.value) && LexLe(r.due.value, Midnight(limit))) || LexLess(r.due.value, Midnight(today)))
  }

  /** When today is not after the limit, the window is simply "due no later than the limit's midnight". */
  lemma SelectedBeforeLimit(r: TaskRow, today: string, limit: string)
    requires |today| == |limit| && LexLe(today, limit)
    ensures Selected(r, today, limit) <==>
      r.due.Some? && r.status.Some? && r.status.value != "done" && LexLe(r.due.value, Midnight(limit))
  {
    var t0, l0 := Midnight(today), Midnight(limit);
    LexConcat(today, " 00:00:00", limit, " 00:00:00");
    assert LexLe(t0, l0);
    if r.due.Some? {
      var d := r.due.value;
      LexTrichotomy(d, t0);
      if LexLess(d, t0) && LexLess(t0, l0) {
        LexTransitive(d, t0, l0);
      }
    }
  }

  /** `ORDER BY due_date ASC`. */
  predicate DueLe(a: TaskRow, b: TaskRow) {
    a.due.None? || (b.due.Some? && LexLe(a.due.value, b.due.value))
  }

  lemma DueLePreorder()
    ensures TotalPreorder(DueLe)
  {
    forall a: TaskRow, b: TaskRow ensures DueLe(a, b) || DueLe(b, a) {
      if a.due.Some? && b.due.Some? {
        LexTrichotomy(a.due.value, b.due.value);
      }
    }
    forall a: TaskRow, b: TaskRow, c: TaskRow | DueLe(a, b) && DueLe(b, c) ensures DueLe(a, c) {
      if a.due.Some? && b.due.Some? && c.due.Some? && a.due != b.due && b.due != c.due {
        LexTransitive(a.due.value, b.due.value, c.due.value);
      }
    }
  }

  function Filter(table: seq<TaskRow>, today: string, limit: string): (r: seq<TaskRow>)
    ensures forall x :: x in r <==> x in table && Selected(x, today, limit)
    ensures forall x :: multiset(r)[x] == if Selected(x, today, limit) then multiset(table)[x] else 0
  {
    if table == [] then []
    else
      var rest := Filter(table[1..], today, limit);
      assert forall x :: x in table <==> x == table[0] || x in table[1..];
      assert table == [table[0]] + table[1..];
      if Selected(table[0], today, limit) then [table[0]] + rest else rest
  }

  function Query(table: seq<TaskRow>, today: string, limit: string): seq<TaskRow> {
    Sort(Filter(table, today, limit), DueLe)
  }

  /** The selected open tasks, each as often as the table holds it. */
  lemma QuerySpec(table: seq<TaskRow>, today: string, limit: string)
    ensures multiset(Query(table, today, limit)) == multiset(Filter(table, today, limit))
    ensures forall x :: multiset(Query(table, today, limit))[x] ==
                          if Selected(x, today, limit) then multiset(table)[x] else 0
    ensures forall x :: x in Query(table, today, limit) <==> x in table && Selected(x, today, limit)
  {
    SortLength(Filter(table, today, limit), DueLe);
  }

  /** The query result is in ascending due-date order. */
  lemma QueryOrder(table: seq<TaskRow>, today: string, limit: string, i: nat, j: nat)
    requires i < j < |Query(table, today, limit)|
    ensures var q := Query(table, today, limit);
      q[i].due.Some? && q[j].due.Some? && LexLe(q[i].due.value, q[j].due.value)
  {
    var f := Filter(table, today, limit);
    DueLePreorder();
    SortSorted(f, DueLe);
    QuerySpec(table, today, limit);
    var q := Query(table, today, limit);
    assert q[i] in q && q[j] in q;
    assert DueLe(q[i], q[j]);
  }

  /** `{date: r.due_date, title, status, pic: r.pic_maintenance}`. */
  datatype Notification = Notification(date: Option<string>, title: Option<string>, status: Option<string>, pic: Option<string>)

  function Notify(r: TaskRow): Notification {
    Notification(r.due, r.title, r.status, r.picMaintenance)
  }

  function Notifications(rows: seq<TaskRow>): (ns: seq<Notification>)
    ensures |ns| == |rows|
    ensures forall i :: 0 <= i < |rows| ==> ns[i] == Notify(rows[i])
  {
    seq(|rows|, i requires 0 <= i < |rows| => Notify(rows[i]))
  }

  /**
   * The feed has one notification per selected row, counting repeats: it is
   * the notification of each row of a list that holds every selected row as
   * often as the table does and nothing else. A notification is in it exactly
   * when it is the notification of some selected row of the table, and the
   * dates ascend along the feed.
   */
  lemma NotificationsSpec(table: seq<TaskRow>, today: string, limit: string)
    ensures var q := Query(table, today, limit);
      && |Notifications(q)| == |q| == |Filter(table, today, limit)|
      && (forall i :: 0 <= i < |q| ==> Notifications(q)[i] == Notify(q[i]))
      && (forall x :: multiset(q)[x] == if Selected(x, today, limit) then multiset(table)[x] else 0)
    ensures var ns := Notifications(Query(table, today, limit));
      && (forall n :: n in ns <==> exists r :: r in table && Selected(r, today, limit) && n == Notify(r))
      && (forall i, j :: 0 <= i < j < |ns| ==>
            ns[i].date.Some? && ns[j].date.Some? && LexLe(ns[i].date.value, ns[j].date.value))
  {
    var q := Query(table, today, limit);
    var ns := Notifications(q);
    QuerySpec(table, today, limit);
    SortLength(Filter(table, today, limit), DueLe);
    forall n | n in ns ensures exists r :: r in table && Selected(r, today, limit) && n == Notify(r) {
      var i :| 0 <= i < |ns| && ns[i] == n;
      assert q[i] in q;
    }
    forall r | r in table && Selected(r, today, limit) ensures Notify(r) in ns {
      assert r in q;
      var i :| 0 <= i < |q| && q[i] == r;
      assert ns[i] == Notify(r);
    }
    forall i, j | 0 <= i < j < |ns|
      ensures ns[i].date.Some? && ns[j].date.Some? && LexLe(ns[i].date.value, ns[j].date.value)
    {
      QueryOrder(table, today, limit, i, j);
    }
  }

  /** No notification is for a finished task, and every one has a date no later than the limit's midnight. */
  lemma NotificationsOpen(table: seq<TaskRow>, today: string, limit: string)
    requires |today| == |limit| && LexLe(today, limit)
    ensures forall n :: n in Notifications(Query(table, today, limit)) ==>
      n.date.Some? && n.status.Some? && n.status.value != "done" && LexLe(n.date.value, Midnight(limit))
  {
    var q := Query(table, today, limit);
    QuerySpec(table, today, limit);
    forall n | n in Notifications(q)
      ensures n.date.Some? && n.status.Some? && n.status.value != "done" && LexLe(n.date.value, Midnight(limit))
    {
      var i :| 0 <= i < |q| && Notifications(q)[i] == n;
      assert q[i] in q;
      SelectedBeforeLimit(q[i], today, limit);
    }
  }
}
