/** The request rules of `controller/TaskController.java`: the paging and
    empty-state rules of the task list, and the validation, reminder and
    ownership rules of the add and edit forms, over the task service. */
module TaskWeb {
  import opened Common
  import opened TaskEntity
  import opened TaskQueries
  import opened Tasks

  const TITLE_REQUIRED: string := "Title is required!"
  const DESCRIPTION_REQUIRED: string := "Description is required!"
  const DUE_REQUIRED: string := "Due Date is required!"
  const DUE_IN_PAST: string := "Due Date cannot be in the past!"
  const REMINDER_TIME_REQUIRED: string := "Please select a reminder time."
  const REMINDER_IN_PAST: string := "Reminder time cannot be in the past!"
  const REMINDER_AFTER_DUE: string := "Reminder cannot be set for a date after the Due Date!"
  const TASK_ADDED: string := "Task added successfully!"
  const ADD_FAILED: string := "Failed to add task. Please try again."
  const INVALID_INPUT: string := "Invalid input. Please check all fields."
  const EDIT_NOT_FOUND: string := "Task not found or you do not have permission to edit it."
  const COMPLETED_NOT_UPDATABLE: string := "Completed tasks cannot be updated."
  const TASK_UPDATED: string := "Task updated successfully!"
  const UPDATE_FAILED: string := "Failed to update the task. Please try again."
  /** The literal in the source carries a mis-encoded apostrophe: the three
      characters U+00E2 U+20AC U+2122 stand where U+2019 was meant. */
  const NO_TASKS_YET: string := "You don\U{E2}\U{20AC}\U{2122}t have any tasks yet."
  const PAGE_MISSING: string := "The page you requested does not exist."
  const NO_MATCHES: string := "No tasks match your current filters."
  const NO_CALENDAR_TASKS: string := "No tasks available to display on the calendar."

  /** `Integer.MAX_VALUE`, the page size of the "show all" choice. */
  const MAX_INT: int := 0x7fff_ffff
  const CARD_PAGE_SIZE: int := 6
  const DEFAULT_PAGE_SIZE: int := 5
  /** A requested size from which on everything is shown on one page. */
  const SHOW_ALL_SIZE: int := 9999

  // ----- the task list -----

  /** The page number and page size a list request ends up with. */
  datatype Paging = Paging(page: nat, pageSize: int)

  /** `listTasks`'s normalisation: a negative page is page 0 and a
      non-positive size is the default; the card view always shows six; a
      size of 9999 or more shows everything on page 0; no size means five. */
  function NormalisePaging(page: int, size: Option<int>, view: string): (p: Paging)
    ensures p.pageSize >= 1
    ensures view == "card" ==> p == Paging(if page < 0 then 0 else page, CARD_PAGE_SIZE)
    ensures view != "card" && size.Some? && size.value >= SHOW_ALL_SIZE ==> p == Paging(0, MAX_INT)
    ensures view != "card" && (size.None? || size.value <= 0) ==>
              p == Paging(if page < 0 then 0 else page, DEFAULT_PAGE_SIZE)
    ensures view != "card" && size.Some? && 1 <= size.value < SHOW_ALL_SIZE ==>
              p == Paging(if page < 0 then 0 else page, size.value)
  {
    var page' := if page < 0 then 0 else page;
    var size' := if size.Some? && size.value <= 0 then Some(DEFAULT_PAGE_SIZE) else size;
    if view == "card" then Paging(page', CARD_PAGE_SIZE)
    else if size'.Some? && size'.value >= SHOW_ALL_SIZE then Paging(0, MAX_INT)
    else if size'.None? then Paging(page', DEFAULT_PAGE_SIZE)
    else Paging(page', size'.value)
  }

  /** Requesting the page and size a request was normalised to changes
      nothing: the rules are idempotent. */
  lemma PagingIdempotent(page: int, size: Option<int>, view: string)
    ensures var p := NormalisePaging(page, size, view);
            NormalisePaging(p.page, Some(p.pageSize), view) == p
  {
  }

  /** The empty-state message: no tasks at all wins over a page past the
      last, which wins over a filter that matched nothing. */
  function EmptyState(noTasksAtAll: bool, p: Page, page: nat): (r: Option<string>)
    ensures r == Some(NO_TASKS_YET) <==> noTasksAtAll
    ensures r == Some(PAGE_MISSING) <==> !noTasksAtAll && p.totalPages > 0 && page >= p.totalPages
    ensures r == Some(NO_MATCHES) <==>
              !noTasksAtAll && !(p.totalPages > 0 && page >= p.totalPages) && p.content == []
    ensures r.None? <==> !noTasksAtAll && !(p.totalPages > 0 && page >= p.totalPages) && p.content != []
  {
    var noResultsAfterFilter := p.content == [] && !noTasksAtAll;
    var pageOutOfRange := page >= p.totalPages && p.totalPages > 0;
    if noTasksAtAll then Some(NO_TASKS_YET)
    else if pageOutOfRange then Some(PAGE_MISSING)
    else if noResultsAfterFilter then Some(NO_MATCHES)
    else None
  }

  /** What `listTasks` puts in front of the user. */
  datatype Listing =
    | LoginFirst
    | CalendarListing(tasks: seq<TaskRecord>, pageSize: int, errorMessage: Option<string>)
    | PagedListing(content: seq<TaskRecord>, currentPage: nat, totalPages: int, pageSize: int,
                   errorMessage: Option<string>)

  /** `listTasks(page, size, status, priority, keyword, sort, view)` for the
      session's user. */
  function ListTasks(rows: seq<TaskRecord>, userId: Option<int>, page: int, size: Option<int>,
                     status: Option<TaskStatus>, priority: Option<TaskPriority>,
                     keyword: Option<string>, view: string): (l: Listing)
    ensures userId.None? <==> l.LoginFirst?
    ensures userId.Some? && view == "calendar" ==>
              l.CalendarListing? && l.tasks == GetAllTasksByUser(rows, userId.value)
              && (l.errorMessage == Some(NO_CALENDAR_TASKS) <==> l.tasks == [])
              && (l.errorMessage.None? <==> l.tasks != [])
    ensures userId.Some? && view != "calendar" ==>
              var p := NormalisePaging(page, size, view);
              var source := PagedSource(rows, userId.value, status, priority, keyword);
              l.PagedListing? && l.pageSize == p.pageSize && l.currentPage == p.page
              && l.content == PageOf(source, p.page, p.pageSize).content
              && l.totalPages == PageCount(|source|, p.pageSize)
  {
    if userId.None? then LoginFirst
    else
      var p := NormalisePaging(page, size, view);
      var allTasks := GetAllTasksByUser(rows, userId.value);
      if view == "calendar" then
        CalendarListing(allTasks, p.pageSize, if allTasks == [] then Some(NO_CALENDAR_TASKS) else None)
      else
        var taskPage := PageOf(PagedSource(rows, userId.value, status, priority, keyword), p.page, p.pageSize);
        PagedListing(taskPage.content, p.page, taskPage.totalPages, p.pageSize,
                     EmptyState(allTasks == [], taskPage, p.page))
  }

  /** Everything a filtered query returns is a live task of the user. */
  lemma SourceWithinAll(rows: seq<TaskRecord>, userId: int, status: Option<TaskStatus>,
                        priority: Option<TaskPriority>, keyword: Option<string>)
    ensures PagedSource(rows, userId, status, priority, keyword) != [] ==> GetAllTasksByUser(rows, userId) != []
  {
    PagedSourceIsConjunction(rows, userId, status, priority, keyword);
    var source := PagedSource(rows, userId, status, priority, keyword);
    if source != [] {
      assert source[0] in rows && Live(source[0], userId);
      assert source[0] in GetAllTasksByUser(rows, userId);
    }
  }

  /** The paged list's message in terms of the data: "no tasks yet" exactly
      when the user has no live task; "page does not exist" exactly when
      the filters match something but the page starts beyond it; "no
      matches" exactly when the user has tasks and the filters match none;
      no message exactly when the page shows something. */
  lemma ListingMessages(rows: seq<TaskRecord>, userId: int, page: int, size: Option<int>,
                        status: Option<TaskStatus>, priority: Option<TaskPriority>,
                        keyword: Option<string>, view: string)
    requires view != "calendar"
    ensures var l := ListTasks(rows, Some(userId), page, size, status, priority, keyword, view);
            var all := GetAllTasksByUser(rows, userId);
            var source := PagedSource(rows, userId, status, priority, keyword);
            var p := NormalisePaging(page, size, view);
            l.PagedListing?
            && (l.errorMessage == Some(NO_TASKS_YET) <==> all == [])
            && (l.errorMessage == Some(PAGE_MISSING) <==> source != [] && p.page * p.pageSize >= |source|)
            && (l.errorMessage == Some(NO_MATCHES) <==> all != [] && source == [])
            && (l.errorMessage.None? <==> l.content != [])
  {
    var all := GetAllTasksByUser(rows, userId);
    var source := PagedSource(rows, userId, status, priority, keyword);
    var p := NormalisePaging(page, size, view);
    SourceWithinAll(rows, userId, status, priority, keyword);
    PastLastPage(|source|, p.pageSize, p.page);
  }

  // ----- reminders on the add and edit forms -----

  /** The reminder part of a submitted form, once checked. */
  datatype ReminderCheck = ReminderRejected(message: string) | ReminderAccepted(time: Option<Instant>)

  /** The reminder rules of both forms: with the box ticked a time is
      required, not before `now` and on a date not after the due date, and
      it is kept truncated to the minute; without it no reminder is kept. */
  function CheckReminder(wanted: bool, time: Option<Instant>, due: Day, now: Instant): (r: ReminderCheck)
    ensures !wanted ==> r == ReminderAccepted(None)
    ensures wanted && time.None? ==> r == ReminderRejected(REMINDER_TIME_REQUIRED)
    ensures wanted && time.Some? && time.value < now ==> r == ReminderRejected(REMINDER_IN_PAST)
    ensures wanted && time.Some? && now <= time.value && DateOf(time.value) > due ==>
              r == ReminderRejected(REMINDER_AFTER_DUE)
    ensures r.ReminderAccepted? && r.time.Some? ==>
              wanted && time.Some? && r.time.value == TruncateToMinute(time.value)
              && now <= time.value && DateOf(r.time.value) <= due
  {
    if !wanted then ReminderAccepted(None)
    else if time.None? then ReminderRejected(REMINDER_TIME_REQUIRED)
    else if time.value < now then ReminderRejected(REMINDER_IN_PAST)
    else if DateOf(time.value) > due then ReminderRejected(REMINDER_AFTER_DUE)
    else ReminderAccepted(Some(TruncateToMinute(time.value)))
  }

  /** An accepted reminder time is on a minute boundary, on a day not after
      the due date, and less than a minute before `now`; so the scheduler
      picks it up on the due date at the latest. */
  lemma AcceptedReminderFits(wanted: bool, time: Option<Instant>, due: Day, now: Instant)
    requires CheckReminder(wanted, time, due, now).ReminderAccepted?
    ensures var t := CheckReminder(wanted, time, due, now).time;
            t.Some? ==> t.value % SECONDS_PER_MINUTE == 0 && DateOf(t.value) <= due
                        && now - SECONDS_PER_MINUTE < t.value
                        && forall later :: later >= t.value ==>
                             DueForReminder(EMPTY_TASK.(reminderTime := t), later)
  {
  }

  // ----- the add form -----

  /** A form the checks let through, as it is handed on, or the message of
      the first check it fails. */
  datatype FormCheck = FormRejected(message: string) | FormAccepted(form: TaskRecord)

  /** The checks of `saveTask`, in order: title, description, due date
      present and not before today, then the reminder. An accepted form gets
      the session's user, an unsent flag and the checked reminder time. */
  function CheckNewTask(form: TaskRecord, userId: Option<int>, today: Day, now: Instant): (r: FormCheck)
    ensures NullOrTrimEmpty(form.title) ==> r == FormRejected(TITLE_REQUIRED)
    ensures !NullOrTrimEmpty(form.title) && NullOrTrimEmpty(form.description) ==> r == FormRejected(DESCRIPTION_REQUIRED)
    ensures r.FormAccepted? ==>
              !NullOrTrimEmpty(form.title) && !NullOrTrimEmpty(form.description)
              && form.dueDate.Some? && today <= form.dueDate.value
              && CheckReminder(form.reminderSent, form.reminderTime, form.dueDate.value, now)
                 == ReminderAccepted(r.form.reminderTime)
              && r.form == form.(user := userId, reminderSent := false, reminderTime := r.form.reminderTime)
  {
    if NullOrTrimEmpty(form.title) then FormRejected(TITLE_REQUIRED)
    else if NullOrTrimEmpty(form.description) then FormRejected(DESCRIPTION_REQUIRED)
    else if form.dueDate.None? then FormRejected(DUE_REQUIRED)
    else if form.dueDate.value < today then FormRejected(DUE_IN_PAST)
    else match CheckReminder(form.reminderSent, form.reminderTime, form.dueDate.value, now)
      case ReminderRejected(m) => FormRejected(m)
      case ReminderAccepted(time) => FormAccepted(form.(user := userId, reminderSent := false, reminderTime := time))
  }

  /** A form with a title and a description is rejected for a missing due
      date or one before today, with the matching message. */
  lemma NewTaskRejections(form: TaskRecord, userId: Option<int>, today: Day, now: Instant)
    requires !NullOrTrimEmpty(form.title) && !NullOrTrimEmpty(form.description)
    ensures form.dueDate.None? ==> CheckNewTask(form, userId, today, now) == FormRejected(DUE_REQUIRED)
    ensures form.dueDate.Some? && form.dueDate.value < today ==>
              CheckNewTask(form, userId, today, now) == FormRejected(DUE_IN_PAST)
  {
  }

  /** A form with every required field and a due date from today on is
      decided by its reminder alone: rejected with the reminder's message, or
      accepted with the checked reminder time. */
  lemma NewTaskReminder(form: TaskRecord, userId: Option<int>, today: Day, now: Instant)
    requires !NullOrTrimEmpty(form.title) && !NullOrTrimEmpty(form.description)
    requires form.dueDate.Some? && today <= form.dueDate.value
    ensures var c := CheckReminder(form.reminderSent, form.reminderTime, form.dueDate.value, now);
            c.ReminderRejected? ==> CheckNewTask(form, userId, today, now) == FormRejected(c.message)
    ensures var c := CheckReminder(form.reminderSent, form.reminderTime, form.dueDate.value, now);
            c.ReminderAccepted? ==>
              CheckNewTask(form, userId, today, now)
              == FormAccepted(form.(user := userId, reminderSent := false, reminderTime := c.time))
  {
    var c := CheckReminder(form.reminderSent, form.reminderTime, form.dueDate.value, now);
    assert !(form.dueDate.None? || form.dueDate.value < today);
    assert CheckNewTask(form, userId, today, now)
           == match c
              case ReminderRejected(m) => FormRejected(m)
              case ReminderAccepted(time) => FormAccepted(form.(user := userId, reminderSent := false, reminderTime := time));
  }

  // ----- the edit form -----

  /** The checks of `updateTask` after binding, in order. */
  datatype EditCheck =
    | EditToLogin
    | EditRejected(message: string)
    | EditRefused(message: string)
    | EditAccepted(form: TaskRecord, existing: TaskRecord)

  /** `updateTask`'s rules: a session is required; title and due date must
      be present; the task must be the user's and live, and not completed;
      then the reminder. An accepted form takes the id from the path and the
      owner and creation date from the stored task; its completion date is
      today when this edit completes the task and the stored one otherwise. */
  function CheckEdit(rows: seq<TaskRecord>, id: int, form: TaskRecord, userId: Option<int>,
                     today: Day, now: Instant): (r: EditCheck)
    ensures userId.None? <==> r.EditToLogin?
    ensures userId.Some? && NullOrTrimEmpty(form.title) ==> r == EditRejected(TITLE_REQUIRED)
    ensures r.EditRefused? ==>
              userId.Some? && !NullOrTrimEmpty(form.title) && form.dueDate.Some?
              && match FindByIdAndUserId(rows, id, userId.value)
                 case None => r.message == EDIT_NOT_FOUND
                 case Some(e) => e.status == Some(COMPLETED) && r.message == COMPLETED_NOT_UPDATABLE
    ensures r.EditAccepted? ==>
              userId.Some? && !NullOrTrimEmpty(form.title) && form.dueDate.Some?
              && FindByIdAndUserId(rows, id, userId.value) == Some(r.existing)
              && r.existing.status != Some(COMPLETED)
              && CheckReminder(form.reminderSent, form.reminderTime, form.dueDate.value, now)
                 == ReminderAccepted(r.form.reminderTime)
              && r.form == form.(id := Some(id), user := r.existing.user, createdAt := r.existing.createdAt,
                                 completedAt := r.form.completedAt, reminderSent := false,
                                 reminderTime := r.form.reminderTime)
              && r.form.completedAt == (if form.status == Some(COMPLETED) then Some(today) else r.existing.completedAt)
  {
    if userId.None? then EditToLogin
    else if NullOrTrimEmpty(form.title) then EditRejected(TITLE_REQUIRED)
    else if form.dueDate.None? then EditRejected(DUE_REQUIRED)
    else
      var found := FindByIdAndUserId(rows, id, userId.value);
      if found.None? then EditRefused(EDIT_NOT_FOUND)
      else if found.value.status == Some(COMPLETED) then EditRefused(COMPLETED_NOT_UPDATABLE)
      else
        var existing := found.value;
        var completedAt :=
          if form.status == Some(COMPLETED) && existing.status != Some(COMPLETED) then Some(today)
          else existing.completedAt;
        match CheckReminder(form.reminderSent, form.reminderTime, form.dueDate.value, now)
        case ReminderRejected(m) => EditRejected(m)
        case ReminderAccepted(time) =>
          EditAccepted(form.(id := Some(id), user := existing.user, createdAt := existing.createdAt,
                             completedAt := completedAt, reminderSent := false, reminderTime := time),
                       existing)
  }

  /** Where a form submission leads. */
  datatype Outcome =
    | ShowForm(errorMessage: string)
    | ToList(successFlash: Option<string>, errorFlash: Option<string>)
    | ToLogin

  /** Where `saveTask` leads after its checks: the form again with the
      first failed check's message, the form with the failure message when
      adding throws (no session user), or the list. */
  function AddOutcome(c: FormCheck, userId: Option<int>): Outcome {
    match c
    case FormRejected(m) => ShowForm(m)
    case FormAccepted(_) => if userId.None? then ShowForm(ADD_FAILED) else ToList(Some(TASK_ADDED), None)
  }

  /** Where `updateTask` leads after its checks, the save succeeding. */
  function EditOutcome(c: EditCheck): Outcome {
    match c
    case EditToLogin => ToLogin
    case EditRejected(m) => ShowForm(m)
    case EditRefused(m) => ToList(None, Some(m))
    case EditAccepted(_, _) => ToList(Some(TASK_UPDATED), None)
  }

  /** What both forms do to an accepted entity's reminder: the flag is
      cleared and the checked time stored. */
  method ApplyReminder(task: Task, time: Option<Instant>)
    modifies task
    ensures task.Rec() == old(task.Rec()).(reminderSent := false, reminderTime := time)
  {
    task.SetReminderSent(false);
    task.SetReminderTime(time);
  }

  /** What the add form does to an accepted entity: the session's user
      becomes its owner, and its reminder is applied. */
  method Accept(task: Task, owner: Option<int>, time: Option<Instant>)
    modifies task
    ensures task.Rec() == old(task.Rec()).(user := owner, reminderSent := false, reminderTime := time)
  {
    task.SetUser(owner);
    ApplyReminder(task, time);
  }

  /** What the edit form takes from the stored task: the path's id, the
      owner and creation date, and the completion date, which is today when
      this edit completes the task. */
  method CarryStored(task: Task, id: int, existing: TaskRecord, today: Day)
    modifies task
    ensures task.Rec() == old(task.Rec()).(id := Some(id), user := existing.user, createdAt := existing.createdAt,
                                           completedAt := if old(task.status) == Some(COMPLETED) && existing.status != Some(COMPLETED)
                                                          then Some(today) else existing.completedAt)
  {
    task.id := Some(id);
    task.user := existing.user;
    task.createdAt := existing.createdAt;
    if task.status == Some(COMPLETED) && existing.status != Some(COMPLETED) {
      task.completedAt := Some(today);
    } else {
      task.completedAt := existing.completedAt;
    }
  }

  /** The web layer over one task service. */
  class TaskController {
    const service: TaskService

    constructor (service: TaskService)
      ensures this.service == service
    {
      this.service := service;
    }

    /** `saveTask(task)` for the session's user: the checks of
        `CheckNewTask` on the bound form; an accepted form's entity gets the
        session's user, an unsent flag and the checked reminder time through
        its setters and goes to `addTask`. Only an accepted form from a session with a user
        adds a row, the one `addTask` stores for it; without a user the save
        fails and the failure message is shown. */
    method SaveTask(form: TaskRecord, userId: Option<int>, today: Day, now: Instant) returns (outcome: Outcome)
      requires service.tasks.Valid()
      modifies service.tasks
      ensures service.tasks.Valid()
      ensures outcome == AddOutcome(CheckNewTask(form, userId, today, now), userId)
      ensures !(CheckNewTask(form, userId, today, now).FormAccepted? && userId.Some?) ==>
                service.tasks.rows == old(service.tasks.rows) && service.tasks.nextId == old(service.tasks.nextId)
      ensures CheckNewTask(form, userId, today, now).FormAccepted? && userId.Some? ==>
                var s := SaveRow(old(service.tasks.rows), old(service.tasks.nextId),
                                 Added(CheckNewTask(form, userId, today, now).form, today), today);
                service.tasks.rows == s.rows && service.tasks.nextId == s.nextId
    {
      var task := new Task.FromRecord(form);
      var verdict := CheckNewTask(form, userId, today, now);
      if verdict.FormRejected? {
        return ShowForm(verdict.message);
      }
      var reminder := CheckReminder(task.reminderSent, task.reminderTime, task.dueDate.value, now);
      Accept(task, userId, reminder.time);
      assert task.Rec() == verdict.form;
      var thrown := service.AddTask(task, today);
      if thrown.Some? {
        return ShowForm(ADD_FAILED);
      }
      outcome := ToList(Some(TASK_ADDED), None);
    }

    /** `updateTask(id, task)` for the session's user: `bindingFailed` is
        the binder's verdict, then the checks of `CheckEdit`; an
        accepted form's entity gets the path's id, the stored owner, creation
        and completion dates and the checked reminder through its setters and
        goes to `updateTask`. Only an accepted edit
        changes the table: the stored row becomes the service's update of
        it. */
    method UpdateTask(id: int, form: TaskRecord, bindingFailed: bool, userId: Option<int>,
                      today: Day, now: Instant) returns (outcome: Outcome)
      requires service.tasks.Valid()
      modifies service.tasks
      ensures service.tasks.Valid() && service.tasks.nextId == old(service.tasks.nextId)
      ensures bindingFailed ==> outcome == ShowForm(INVALID_INPUT)
      ensures !bindingFailed ==> outcome == EditOutcome(CheckEdit(old(service.tasks.rows), id, form, userId, today, now))
      ensures !(!bindingFailed && CheckEdit(old(service.tasks.rows), id, form, userId, today, now).EditAccepted?) ==>
                service.tasks.rows == old(service.tasks.rows)
      ensures !bindingFailed && CheckEdit(old(service.tasks.rows), id, form, userId, today, now).EditAccepted? ==>
                var c := CheckEdit(old(service.tasks.rows), id, form, userId, today, now);
                service.tasks.rows == PutRow(old(service.tasks.rows), Updated(c.form, c.existing, today))
    {
      if bindingFailed {
        return ShowForm(INVALID_INPUT);
      }
      var verdict := CheckEdit(service.tasks.rows, id, form, userId, today, now);
      if verdict.EditToLogin? {
        return ToLogin;
      } else if verdict.EditRejected? {
        return ShowForm(verdict.message);
      } else if verdict.EditRefused? {
        return ToList(None, Some(verdict.message));
      }
      var task := new Task.FromRecord(form);
      CarryStored(task, id, verdict.existing, today);
      var reminder := CheckReminder(task.reminderSent, task.reminderTime, task.dueDate.value, now);
      ApplyReminder(task, reminder.time);
      assert task.Rec() == verdict.form;
      var thrown := service.UpdateTask(task, userId.value, today);
      if thrown.Some? {
        return ShowForm(UPDATE_FAILED);
      }
      outcome := ToList(Some(TASK_UPDATED), None);
    }
  }

  /** An accepted edit records today as the completion date exactly when it
      sets the status to completed, since a completed task is refused; the
      owner, creation date and trash flag stay those of the stored task. */
  lemma EditCompletesToday(rows: seq<TaskRecord>, id: int, form: TaskRecord, userId: Option<int>,
                           today: Day, now: Instant)
    requires CheckEdit(rows, id, form, userId, today, now).EditAccepted?
    ensures var c := CheckEdit(rows, id, form, userId, today, now);
            var saved := Updated(c.form, c.existing, today);
            saved.id == Some(id) && saved.user == c.existing.user && saved.createdAt == c.existing.createdAt
            && saved.deleted == c.existing.deleted && !c.existing.deleted && !saved.reminderSent
            && (saved.completedAt == Some(today) || saved.completedAt == c.existing.completedAt)
            && (form.status == Some(COMPLETED) ==> saved.completedAt == Some(today))
            && (form.status != Some(COMPLETED) ==> saved.completedAt == c.existing.completedAt)
  {
  }
}
