/** The reminder tick of `scheduler/ReminderScheduler.java`: select the due,
    unsent reminders once, then send each and mark it sent, in order. */
module Scheduler {
  import opened Common
  import opened TaskEntity
  import opened TaskQueries

  /** The identities of the given rows. */
  function IdsOf(s: seq<TaskRecord>): set<Option<int>> {
    set t | t in s :: t.id
  }

  /** The rows after the reminders of those whose identity is in `ids` were
      marked sent. */
  function MarkSent(rows: seq<TaskRecord>, ids: set<Option<int>>): (r: seq<TaskRecord>)
    ensures |r| == |rows|
  {
    seq(|rows|, i requires 0 <= i < |rows| => if rows[i].id in ids then rows[i].(reminderSent := true) else rows[i])
  }

  /** Whether the tick stops at snapshot position `k`: building the mail
      body formats the task's due date, which throws when there is none,
      and otherwise the gateway may fail on that send. */
  predicate StopsAt(due: seq<TaskRecord>, k: int, failAt: Option<nat>)
    requires 0 <= k < |due|
  {
    due[k].dueDate.None? || failAt == Some(k)
  }

  /** The first position at or after `k` where the tick stops, or the end of
      the snapshot. */
  function FirstStop(due: seq<TaskRecord>, k: nat, failAt: Option<nat>): (r: nat)
    requires k <= |due|
    ensures k <= r <= |due|
    ensures forall j :: k <= j < r ==> !StopsAt(due, j, failAt)
    ensures r < |due| ==> StopsAt(due, r, failAt)
    decreases |due| - k
  {
    if k == |due| || StopsAt(due, k, failAt) then k else FirstStop(due, k + 1, failAt)
  }

  /** The snapshot prefix a tick at `now` sends: it ends before the first
      task with no due date or the send the gateway fails on, whichever
      comes first (all of the snapshot when neither occurs). */
  function TickSends(rows: seq<TaskRecord>, now: Instant, failAt: Option<nat>): (r: seq<TaskRecord>)
    ensures var due := ForReminder(rows, now);
            |r| <= |due| && r == due[..|r|]
            && (forall j :: 0 <= j < |r| ==> due[j].dueDate.Some? && failAt != Some(j))
            && (|r| < |due| ==> due[|r|].dueDate.None? || failAt == Some(|r|))
  {
    var due := ForReminder(rows, now);
    var n := FirstStop(due, 0, failAt);
    assert forall j :: 0 <= j < n ==> !StopsAt(due, j, failAt) && due[..n][j] == due[j];
    due[..n]
  }

  /** A tick at position `k` not past the first stop has passed every
      position before it, and passes `k` itself unless `k` is a stop. */
  lemma PassesNonStop(due: seq<TaskRecord>, failAt: Option<nat>, k: int)
    requires 0 <= k <= FirstStop(due, 0, failAt)
    ensures forall j :: 0 <= j < k ==> !StopsAt(due, j, failAt)
    ensures k < |due| && !StopsAt(due, k, failAt) ==> k < FirstStop(due, 0, failAt)
    ensures k == |due| || StopsAt(due, k, failAt) ==> k == FirstStop(due, 0, failAt)
  {
  }

  /** A position the tick passes every position before and stops at (or the
      end of the snapshot) is where the tick's prefix ends. */
  lemma TickEndsAt(rows: seq<TaskRecord>, now: Instant, failAt: Option<nat>, k: int)
    requires var due := ForReminder(rows, now);
             0 <= k <= |due| && (forall j :: 0 <= j < k ==> !StopsAt(due, j, failAt))
             && (k < |due| ==> StopsAt(due, k, failAt))
    ensures TickSends(rows, now, failAt) == ForReminder(rows, now)[..k]
  {
    var due := ForReminder(rows, now);
    var n := |TickSends(rows, now, failAt)|;
    assert n < |due| ==> StopsAt(due, n, failAt);
    assert forall j :: 0 <= j < n ==> !StopsAt(due, j, failAt);
  }

  /** When every due task has a due date, the tick stops only where the
      gateway fails. */
  lemma {:induction false} DatedTickStopsAtFailure(rows: seq<TaskRecord>, now: Instant, failAt: Option<nat>)
    requires forall t :: t in ForReminder(rows, now) ==> t.dueDate.Some?
    ensures var due := ForReminder(rows, now);
            |TickSends(rows, now, failAt)| == if failAt.Some? && failAt.value < |due| then failAt.value else |due|
  {
    var due := ForReminder(rows, now);
    var n := |TickSends(rows, now, failAt)|;
    if n < |due| {
      assert due[n] in due;
    }
  }

  /** A due task with no due date is never reminded: every tick stops at it
      or before it, whatever the gateway does. */
  lemma UndatedNeverSent(rows: seq<TaskRecord>, now: Instant, failAt: Option<nat>, j: int)
    requires var due := ForReminder(rows, now); 0 <= j < |due| && due[j].dueDate.None?
    ensures |TickSends(rows, now, failAt)| <= j
  {
  }

  /** One step of the tick: saving the next snapshot row with its flag set
      marks exactly one more identity. */
  lemma MarkNext(rows: seq<TaskRecord>, nextId: int, due: seq<TaskRecord>, k: int)
    requires TaskRows(rows, nextId)
    requires forall i :: 0 <= i < |due| ==> due[i] in rows
    requires 0 <= k < |due|
    ensures due[k].id.Some? && due[k].user.Some?
    ensures FindById(MarkSent(rows, IdsOf(due[..k])), due[k].id.value).Some?
    ensures PutRow(MarkSent(rows, IdsOf(due[..k])), due[k].(reminderSent := true))
            == MarkSent(rows, IdsOf(due[..k + 1]))
  {
    var before := IdsOf(due[..k]);
    var after := IdsOf(due[..k + 1]);
    assert due[..k + 1] == due[..k] + [due[k]];
    assert after == before + {due[k].id};
    var m := MarkSent(rows, before);
    var j :| 0 <= j < |rows| && rows[j] == due[k];
    assert m[j].id == due[k].id;
    var put := PutRow(m, due[k].(reminderSent := true));
    forall i | 0 <= i < |rows|
      ensures put[i] == MarkSent(rows, after)[i]
    {
      if rows[i].id == due[k].id {
        assert i == j;
      }
    }
  }

  /** The reminder gateway and the tick that feeds it. */
  class ReminderScheduler {
    const tasks: TaskTable
    /** The tasks whose reminder was handed to the mail gateway, in order. */
    var sent: seq<TaskRecord>

    constructor (tasks: TaskTable)
      ensures this.tasks == tasks && sent == []
    {
      this.tasks := tasks;
      sent := [];
    }

    /** The body of the loop for snapshot position `k`: the reminder is sent,
        then the task's flag is set and the task saved, which merges it onto
        its row. */
    method SendAndMark(ghost rows0: seq<TaskRecord>, ghost sent0: seq<TaskRecord>, due: seq<TaskRecord>, k: int, today: Day)
      requires tasks.Valid() && TaskRows(rows0, tasks.nextId)
      requires forall i :: 0 <= i < |due| ==> due[i] in rows0
      requires 0 <= k < |due| && tasks.rows == MarkSent(rows0, IdsOf(due[..k])) && sent == sent0 + due[..k]
      modifies this, tasks
      ensures tasks.Valid() && tasks.nextId == old(tasks.nextId)
      ensures tasks.rows == MarkSent(rows0, IdsOf(due[..k + 1]))
      ensures sent == old(sent) + [due[k]] == sent0 + due[..k + 1]
    {
      assert due[..k + 1] == due[..k] + [due[k]];
      sent := sent + [due[k]];
      MarkNext(rows0, tasks.nextId, due, k);
      var t := new Task.FromRecord(due[k]);
      t.SetReminderSent(true);
      var failure := tasks.Save(t, today);
    }

    /** `checkReminders()` at time `now`. The gateway throws on the task at
        position `failAt` of the snapshot, if there is one, and building the
        mail of a task with no due date throws before the gateway is
        reached; either exception escapes after the tasks before it were
        sent and marked. */
    method CheckReminders(now: Instant, failAt: Option<nat>) returns (thrown: Option<Thrown>)
      requires tasks.Valid()
      modifies this, tasks
      ensures tasks.Valid() && tasks.nextId == old(tasks.nextId)
      ensures var due := ForReminder(old(tasks.rows), now);
              var n := |TickSends(old(tasks.rows), now, failAt)|;
              (thrown.Some? <==> n < |due|)
              && (thrown.Some? && due[n].dueDate.None? ==> thrown.value == Thrown(NullPointerException, ""))
              && (thrown.Some? && due[n].dueDate.Some? ==>
                    failAt == Some(n) && thrown.value == Thrown(RuntimeException, SEND_FAILED))
      ensures sent == old(sent) + TickSends(old(tasks.rows), now, failAt)
      ensures tasks.rows == MarkSent(old(tasks.rows), IdsOf(TickSends(old(tasks.rows), now, failAt)))
    {
      var due := ForReminder(tasks.rows, now);
      var k := SendUntilStop(due, now, failAt);
      // the mail of the task at position k could not be built or sent, and
      // the exception leaves the tick
      if k < |due| {
        if due[k].dueDate.None? {
          return Some(Thrown(NullPointerException, ""));
        }
        return Some(Thrown(RuntimeException, SEND_FAILED));
      }
      thrown := None;
    }

    /** The loop of `checkReminders()` over the snapshot `due`: it sends and
        marks each task in turn until the first stop, which it reports. */
    method SendUntilStop(due: seq<TaskRecord>, now: Instant, failAt: Option<nat>) returns (k: nat)
      requires tasks.Valid() && due == ForReminder(tasks.rows, now)
      modifies this, tasks
      ensures tasks.Valid() && tasks.nextId == old(tasks.nextId)
      ensures k == |TickSends(old(tasks.rows), now, failAt)| && due[..k] == TickSends(old(tasks.rows), now, failAt)
      ensures sent == old(sent) + due[..k]
      ensures tasks.rows == MarkSent(old(tasks.rows), IdsOf(due[..k]))
    {
      ghost var rows0 := tasks.rows;
      assert due[..0] == [];
      assert IdsOf(due[..0]) == {};
      assert MarkSent(rows0, {}) == rows0;
      k := 0;
      while k < |due| && !StopsAt(due, k, failAt)
        invariant 0 <= k <= |due|
        invariant k <= FirstStop(due, 0, failAt)
        invariant tasks.Valid() && tasks.nextId == old(tasks.nextId)
        invariant tasks.rows == MarkSent(rows0, IdsOf(due[..k]))
        invariant sent == old(sent) + due[..k]
      {
        PassesNonStop(due, failAt, k);
        SendAndMark(rows0, old(sent), due, k, DateOf(now));
        k := k + 1;
      }
      PassesNonStop(due, failAt, k);
      TickEndsAt(rows0, now, failAt, k);
    }
  }

  /** A second tick at the same time finds nothing: each row the first tick
      selected now has its flag set, and no other row was eligible. */
  lemma SecondTickSendsNothing(rows: seq<TaskRecord>, now: Instant)
    ensures ForReminder(MarkSent(rows, IdsOf(ForReminder(rows, now))), now) == []
  {
    var due := ForReminder(rows, now);
    var m := MarkSent(rows, IdsOf(due));
    forall i | 0 <= i < |m|
      ensures !DueForReminder(m[i], now)
    {
      if rows[i].id !in IdsOf(due) {
        assert rows[i] !in due;
      }
    }
    FilterNone(m, t => DueForReminder(t, now));
  }

  /** The snapshot holds each eligible row exactly once, so a complete tick
      sends one reminder per eligible task. */
  lemma EachEligibleOnce(rows: seq<TaskRecord>, now: Instant, i: int)
    requires UniqueIds(rows)
    requires 0 <= i < |rows| && DueForReminder(rows[i], now)
    ensures var due := ForReminder(rows, now);
            exists j :: 0 <= j < |due| && due[j] == rows[i]
                        && forall m :: 0 <= m < |due| && m != j ==> due[m] != rows[i]
  {
    var due := ForReminder(rows, now);
    FilterUnique(rows, t => DueForReminder(t, now));
    assert rows[i] in due;
    var j :| 0 <= j < |due| && due[j] == rows[i];
    assert forall m :: 0 <= m < |due| && m != j ==> due[m].id != due[j].id;
  }

  /** A tick that stops at snapshot position `k` leaves the task there and
      every later one untouched, hence still unsent and due at every later
      tick. */
  lemma FailedAndLaterStayUnsent(rows: seq<TaskRecord>, now: Instant, k: int, i: int, j: int)
    requires UniqueIds(rows)
    requires var due := ForReminder(rows, now);
             0 <= k <= j < |due| && 0 <= i < |rows| && rows[i].id == due[j].id
    ensures var m := MarkSent(rows, IdsOf(ForReminder(rows, now)[..k]));
            m[i] == rows[i] && !m[i].reminderSent
            && forall later: Instant :: later >= now ==> DueForReminder(m[i], later)
  {
    var due := ForReminder(rows, now);
    FilterUnique(rows, t => DueForReminder(t, now));
    assert rows[i] == due[j] by {
      var x :| 0 <= x < |rows| && rows[x] == due[j];
      assert x == i;
    }
    assert forall m :: 0 <= m < k ==> due[m].id != due[j].id;
  }

  /** The tick changes nothing but the flag, and changes a row exactly when
      it is one the tick handled: such a row was eligible, hence unsent, and
      comes out marked sent. */
  lemma TickFrame(rows: seq<TaskRecord>, now: Instant, n: int)
    requires UniqueIds(rows)
    requires 0 <= n <= |ForReminder(rows, now)|
    ensures var due := ForReminder(rows, now);
            var m := MarkSent(rows, IdsOf(due[..n]));
            forall i :: 0 <= i < |rows| ==>
              m[i].(reminderSent := rows[i].reminderSent) == rows[i]
              && (m[i] != rows[i] <==> rows[i] in due[..n])
              && (rows[i] in due[..n] ==> DueForReminder(rows[i], now) && m[i].reminderSent)
  {
    var due := ForReminder(rows, now);
    var m := MarkSent(rows, IdsOf(due[..n]));
    forall i | 0 <= i < |rows| && rows[i] in due[..n]
      ensures DueForReminder(rows[i], now) && m[i] == rows[i].(reminderSent := true)
    {
      assert rows[i].id in IdsOf(due[..n]);
    }
    forall i | 0 <= i < |rows| && m[i] != rows[i]
      ensures rows[i] in due[..n]
    {
      var t :| t in due[..n] && t.id == rows[i].id;
      assert t in rows;
      var x :| 0 <= x < |rows| && rows[x] == t;
      assert x == i;
    }
  }
}
