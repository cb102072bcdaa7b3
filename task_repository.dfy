/** The `task` table behind `repository/TaskRepository.java`: its rows in
    table order, the identity generator, `save` and `delete`, and the
    `WHERE` clauses of the derived and JPQL queries as filters over the
    rows. */
module TaskQueries {
  import opened Common
  import opened TaskEntity

  /** The message of the not-null violation raised for a task without an
      owner (`user_id` is `nullable = false`). */
  const USER_ID_NOT_NULL: string := "not-null property references a null or transient value"

  /** `t.user.id = :userId`. */
  predicate Owned(t: TaskRecord, userId: int) {
    t.user == Some(userId)
  }

  // ----- findTasksForReminder -----

  /** The `WHERE` clause of `findTasksForReminder`: not yet sent, a reminder
      time set and not after `now`. Neither the owner nor `deleted` is
      consulted. */
  predicate DueForReminder(t: TaskRecord, now: Instant) {
    !t.reminderSent && t.reminderTime.Some? && t.reminderTime.value <= now
  }

  /** `findTasksForReminder(now)`, in table order. */
  function ForReminder(rows: seq<TaskRecord>, now: Instant): (r: seq<TaskRecord>)
    ensures forall t :: t in r <==> t in rows && DueForReminder(t, now)
  {
    Filter(rows, t => DueForReminder(t, now))
  }

  /** The bound is inclusive, and a trashed task or any owner's task is
      selected all the same. */
  lemma ReminderAtNowSelected(rows: seq<TaskRecord>, i: int, now: Instant)
    requires 0 <= i < |rows| && !rows[i].reminderSent && rows[i].reminderTime == Some(now)
    ensures rows[i] in ForReminder(rows, now)
    ensures forall owner: Option<int>, at: Option<Instant> ::
              DueForReminder(rows[i].(user := owner, deleted := true, deletedAt := at), now)
  {
  }

  // ----- findUpcomingRemindersForUser -----

  /** The `WHERE` clause of `findUpcomingRemindersForUser`; `BETWEEN` is
      inclusive at both ends. */
  predicate InReminderWindow(t: TaskRecord, userId: int, now: Instant, future: Instant) {
    Owned(t, userId) && t.reminderTime.Some? && !t.reminderSent
    && now <= t.reminderTime.value <= future
  }

  /** The `ORDER BY t.reminderTime` key (every selected row has one). */
  function ReminderKey(t: TaskRecord): int {
    if t.reminderTime.Some? then t.reminderTime.value else 0
  }

  /** `findUpcomingRemindersForUser(userId, now, future)`: the rows in the
      window, ascending by reminder time. */
  function UpcomingForUser(rows: seq<TaskRecord>, userId: int, now: Instant, future: Instant): (r: seq<TaskRecord>)
    ensures SortedBy(r, ReminderKey)
    ensures multiset(r) == multiset(Filter(rows, t => InReminderWindow(t, userId, now, future)))
    ensures forall t :: t in r <==> t in rows && InReminderWindow(t, userId, now, future)
  {
    var selected := Filter(rows, t => InReminderWindow(t, userId, now, future));
    var r := SortBy(selected, ReminderKey);
    assert forall t :: t in r <==> t in selected by {
      forall t ensures t in r <==> t in selected {
        assert t in r <==> t in multiset(r);
        assert t in selected <==> t in multiset(selected);
      }
    }
    r
  }

  // ----- due-date queries -----

  /** `...StatusNot(s)`: SQL `status <> s`, which a null status does not
      satisfy. */
  predicate StatusNot(t: TaskRecord, s: TaskStatus) {
    t.status.Some? && t.status.value != s
  }

  /** `DueDate = :date`. */
  predicate DatedOn(t: TaskRecord, date: Day) {
    t.dueDate == Some(date)
  }

  /** `DueDate BETWEEN :start AND :end`: inclusive at both ends. */
  predicate DatedBetween(t: TaskRecord, start: Day, end: Day) {
    t.dueDate.Some? && start <= t.dueDate.value <= end
  }

  /** `DueDate < :date`: strictly before. */
  predicate DatedBefore(t: TaskRecord, date: Day) {
    t.dueDate.Some? && t.dueDate.value < date
  }

  /** `findByUser_IdAndDueDateAndStatusNot`. */
  predicate DueOn(t: TaskRecord, userId: int, date: Day, s: TaskStatus) {
    Owned(t, userId) && DatedOn(t, date) && StatusNot(t, s)
  }

  /** `findByUser_IdAndDueDateBetweenAndStatusNot`. */
  predicate DueBetween(t: TaskRecord, userId: int, start: Day, end: Day, s: TaskStatus) {
    Owned(t, userId) && DatedBetween(t, start, end) && StatusNot(t, s)
  }

  /** `findByUser_IdAndDueDateBeforeAndStatusNot`. */
  predicate DueBefore(t: TaskRecord, userId: int, date: Day, s: TaskStatus) {
    Owned(t, userId) && DatedBefore(t, date) && StatusNot(t, s)
  }

  /** The three due-date queries partition a user's dated rows whose status
      is set and differs from `s`: before `date`, on it, or after it. */
  lemma DueQueriesPartition(t: TaskRecord, userId: int, date: Day, s: TaskStatus, end: Day)
    requires Owned(t, userId) && t.dueDate.Some? && StatusNot(t, s)
    ensures DueBefore(t, userId, date, s) || DueOn(t, userId, date, s) || t.dueDate.value > date
    ensures !(DueBefore(t, userId, date, s) && DueBetween(t, userId, date, end, s))
    ensures DueOn(t, userId, date, s) ==> (date <= end <==> DueBetween(t, userId, date, end, s))
  {
  }

  // ----- the table -----

  /** No two rows share an identity. */
  predicate UniqueIds(rows: seq<TaskRecord>) {
    forall i, j :: 0 <= i < j < |rows| ==> rows[i].id != rows[j].id
  }

  /** The table's invariant: every row has an identity below the generator's
      next value, identities are distinct, and every row has an owner. */
  predicate TaskRows(rows: seq<TaskRecord>, nextId: int) {
    1 <= nextId && UniqueIds(rows)
    && forall i :: 0 <= i < |rows| ==> rows[i].id.Some? && 1 <= rows[i].id.value < nextId && rows[i].user.Some?
  }

  /** `findById(id)`. */
  function FindById(rows: seq<TaskRecord>, id: int): (r: Option<TaskRecord>)
    ensures r.Some? ==> r.value in rows && r.value.id == Some(id)
    ensures r.None? <==> forall i :: 0 <= i < |rows| ==> rows[i].id != Some(id)
  {
    if rows == [] then None
    else if rows[0].id == Some(id) then Some(rows[0])
    else FindById(rows[1..], id)
  }

  /** With distinct identities the row found is the only one with that
      identity. */
  lemma FindByIdUnique(rows: seq<TaskRecord>, id: int, i: int)
    requires UniqueIds(rows) && 0 <= i < |rows| && rows[i].id == Some(id)
    ensures FindById(rows, id) == Some(rows[i])
  {
    var r := FindById(rows, id);
    var j :| 0 <= j < |rows| && rows[j] == r.value;
    assert i == j;
  }

  /** The rows with `r`'s identity replaced by `r`. */
  function PutRow(rows: seq<TaskRecord>, r: TaskRecord): seq<TaskRecord> {
    seq(|rows|, i requires 0 <= i < |rows| => if rows[i].id == r.id then r else rows[i])
  }

  /** The table after a `save`, and the row it holds for the saved entity. */
  datatype Saved = Saved(rows: seq<TaskRecord>, nextId: int, row: TaskRecord)

  /** `save(t)` on values: an entity whose identity is stored is merged onto
      that row; any other is inserted under the next identity, with the
      `@PrePersist` hook stamping `createdAt`. */
  function SaveRow(rows: seq<TaskRecord>, nextId: int, r: TaskRecord, today: Day): (s: Saved)
    requires r.user.Some?
    ensures TaskRows(rows, nextId) ==> TaskRows(s.rows, s.nextId)
    ensures s.row in s.rows
    ensures r.id.Some? && FindById(rows, r.id.value).Some? ==>
              s.row == r && s.nextId == nextId && |s.rows| == |rows| && s.rows == PutRow(rows, r)
              && forall i :: 0 <= i < |rows| ==> s.rows[i] == (if rows[i].id == r.id then r else rows[i])
    ensures !(r.id.Some? && FindById(rows, r.id.value).Some?) ==>
              s.row == r.(id := Some(nextId), createdAt := Some(today))
              && s.rows == rows + [s.row] && s.nextId == nextId + 1
  {
    if r.id.Some? && FindById(rows, r.id.value).Some? then
      var found := FindById(rows, r.id.value).value;
      var s := Saved(PutRow(rows, r), nextId, r);
      assert exists i :: 0 <= i < |rows| && rows[i] == found;
      var i :| 0 <= i < |rows| && rows[i] == found;
      assert s.rows[i] == r;
      s
    else
      var row := r.(id := Some(nextId), createdAt := Some(today));
      Saved(rows + [row], nextId + 1, row)
  }

  /** Removing rows keeps the table's invariant. */
  lemma FilterKeepsTable(rows: seq<TaskRecord>, nextId: int, p: TaskRecord -> bool)
    requires TaskRows(rows, nextId)
    ensures TaskRows(Filter(rows, p), nextId)
  {
    FilterUnique(rows, p);
  }

  /** A filter of rows with distinct identities has distinct identities. */
  lemma {:induction false} FilterUnique(rows: seq<TaskRecord>, p: TaskRecord -> bool)
    requires UniqueIds(rows)
    ensures UniqueIds(Filter(rows, p))
  {
    if rows != [] {
      FilterUnique(rows[1..], p);
      var rest := Filter(rows[1..], p);
      assert forall k :: 0 <= k < |rest| ==> rest[k].id != rows[0].id by {
        forall k | 0 <= k < |rest| ensures rest[k].id != rows[0].id {
          var m :| 0 <= m < |rows[1..]| && rows[1..][m] == rest[k];
          assert rows[m + 1] == rest[k];
        }
      }
    }
  }

  /** `JpaRepository` over the `task` table. */
  class TaskTable {
    var rows: seq<TaskRecord>
    var nextId: int

    ghost predicate Valid()
      reads this
    {
      TaskRows(rows, nextId)
    }

    /** An empty table whose identities start at 1. */
    constructor ()
      ensures Valid() && rows == [] && nextId == 1
    {
      rows, nextId := [], 1;
    }

    /** `save(t)`. A task without an owner violates the not-null constraint
        and nothing changes; otherwise the table becomes `SaveRow` of it. A
        new entity (no identity) is persisted itself and receives its identity
        and creation date; one with an identity is merged and stays as it
        was. */
    method Save(t: Task, today: Day) returns (thrown: Option<Thrown>)
      requires Valid()
      modifies this, t
      ensures Valid()
      ensures old(t.user).None? ==>
                thrown == Some(Thrown(DataIntegrityViolation, USER_ID_NOT_NULL))
                && rows == old(rows) && nextId == old(nextId) && t.Rec() == old(t.Rec())
      ensures old(t.user).Some? ==>
                var s := SaveRow(old(rows), old(nextId), old(t.Rec()), today);
                thrown.None? && rows == s.rows && nextId == s.nextId
                && t.Rec() == (if old(t.id).None? then s.row else old(t.Rec()))
    {
      if t.user.None? {
        return Some(Thrown(DataIntegrityViolation, USER_ID_NOT_NULL));
      }
      thrown := None;
      var s := SaveRow(rows, nextId, t.Rec(), today);
      if t.id.None? {
        t.id := Some(nextId);
        t.OnCreate(today);
      }
      rows, nextId := s.rows, s.nextId;
    }

    /** `delete(t)` / `deleteAll(ts)`: drops the rows that satisfy `p`. */
    method DeleteWhere(p: TaskRecord -> bool)
      requires Valid()
      modifies this
      ensures Valid()
      ensures rows == Filter(old(rows), t => !p(t)) && nextId == old(nextId)
    {
      FilterKeepsTable(rows, nextId, t => !p(t));
      rows := Filter(rows, t => !p(t));
    }
  }
}
