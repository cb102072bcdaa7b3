/** The task entity of `entity/Task.java`: its fields and defaults, the two
    constructors, the persist hook and the setters the scheduler and the
    services call. */
module TaskEntity {
  import opened Common

  /** `TaskStatus`: the three states named by the rest of the code. */
  datatype TaskStatus = PENDING | IN_PROGRESS | COMPLETED

  /** `TaskPriority`. */
  datatype TaskPriority = HIGH | MEDIUM | LOW

  /** One `task` row as a value. Dates are day numbers and date-times are
      instants; `user` is the owner's identity (the `user_id` column). */
  datatype TaskRecord = TaskRecord(
    id: Option<int>,
    title: Option<string>,
    description: Option<string>,
    dueDate: Option<Day>,
    status: Option<TaskStatus>,
    priority: Option<TaskPriority>,
    createdAt: Option<Day>,
    completedAt: Option<Day>,
    reminderSent: bool,
    reminderTime: Option<Instant>,
    user: Option<int>,
    deleted: bool,
    deletedAt: Option<Instant>)

  /** The state of `new Task()`: every reference null, `reminderSent` and
      `deleted` false. */
  const EMPTY_TASK: TaskRecord :=
    TaskRecord(None, None, None, None, None, None, None, None, false, None, None, false, None)

  /** The mutable entity. Services load one from its row, change it and save
      its `Rec()` back. */
  class Task {
    var id: Option<int>
    var title: Option<string>
    var description: Option<string>
    var dueDate: Option<Day>
    var status: Option<TaskStatus>
    var priority: Option<TaskPriority>
    var createdAt: Option<Day>
    var completedAt: Option<Day>
    var reminderSent: bool
    var reminderTime: Option<Instant>
    var user: Option<int>
    var deleted: bool
    var deletedAt: Option<Instant>

    /** The current field values as a row. */
    function Rec(): TaskRecord
      reads this
    {
      TaskRecord(id, title, description, dueDate, status, priority, createdAt, completedAt,
                 reminderSent, reminderTime, user, deleted, deletedAt)
    }

    /** `new Task()`. */
    constructor ()
      ensures Rec() == EMPTY_TASK
      ensures !reminderSent && !deleted
    {
      id, title, description, dueDate := None, None, None, None;
      status, priority, createdAt, completedAt := None, None, None, None;
      reminderSent, reminderTime := false, None;
      user, deleted, deletedAt := None, false, None;
    }

    /** The five-argument constructor, which also stamps `createdAt` with
        today's date. */
    constructor Full(title: Option<string>, description: Option<string>, dueDate: Option<Day>,
                     status: Option<TaskStatus>, priority: Option<TaskPriority>, today: Day)
      ensures Rec() == EMPTY_TASK.(title := title, description := description, dueDate := dueDate,
                                   status := status, priority := priority, createdAt := Some(today))
    {
      id, completedAt := None, None;
      reminderSent, reminderTime := false, None;
      user, deleted, deletedAt := None, false, None;
      this.title := title;
      this.description := description;
      this.dueDate := dueDate;
      this.status := status;
      this.priority := priority;
      this.createdAt := Some(today);
    }

    /** An entity loaded from a stored row. */
    constructor FromRecord(r: TaskRecord)
      ensures Rec() == r
    {
      id, title, description, dueDate := r.id, r.title, r.description, r.dueDate;
      status, priority, createdAt, completedAt := r.status, r.priority, r.createdAt, r.completedAt;
      reminderSent, reminderTime := r.reminderSent, r.reminderTime;
      user, deleted, deletedAt := r.user, r.deleted, r.deletedAt;
    }

    /** The `@PrePersist` hook: a newly inserted task is created today,
        whatever `createdAt` held. */
    method OnCreate(today: Day)
      modifies this
      ensures Rec() == old(Rec()).(createdAt := Some(today))
    {
      createdAt := Some(today);
    }

    method SetReminderSent(sent: bool)
      modifies this
      ensures Rec() == old(Rec()).(reminderSent := sent)
    {
      reminderSent := sent;
    }

    function GetReminderSent(): bool
      reads this
    {
      reminderSent
    }

    method SetReminderTime(t: Option<Instant>)
      modifies this
      ensures Rec() == old(Rec()).(reminderTime := t)
    {
      reminderTime := t;
    }

    function GetReminderTime(): Option<Instant>
      reads this
    {
      reminderTime
    }

    /** `setUser(user)`: the owner's identity. */
    method SetUser(u: Option<int>)
      modifies this
      ensures Rec() == old(Rec()).(user := u)
    {
      user := u;
    }

    method SetDeleted(d: bool)
      modifies this
      ensures Rec() == old(Rec()).(deleted := d)
    {
      deleted := d;
    }

    function IsDeleted(): bool
      reads this
    {
      deleted
    }

    method SetDeletedAt(t: Option<Instant>)
      modifies this
      ensures Rec() == old(Rec()).(deletedAt := t)
    {
      deletedAt := t;
    }
  }

  /** Each setter is read back by its getter and leaves the other fields as
      they were. */
  method SetterRoundTrip(t: Task, sent: bool, time: Option<Instant>, d: bool)
    modifies t
    ensures t.GetReminderSent() == sent && t.GetReminderTime() == time && t.IsDeleted() == d
    ensures t.Rec() == old(t.Rec()).(reminderSent := sent, reminderTime := time, deleted := d)
  {
    t.SetReminderSent(sent);
    t.SetReminderTime(time);
    t.SetDeleted(d);
  }
}
