# TaskReminder core, modelled in Dafny

TaskReminder is a Spring web application. A user registers with a name, an
e-mail address and a password. The address is confirmed with a six-digit
one-time password (OTP) sent by mail. After that the user keeps a list of
tasks. Each task has a title, a description, a due date, a status, a priority
and an optional reminder time. A scheduler mails the reminders that have come
due. Deleted tasks go to a trash first, can be restored from it, and are
removed for good from there. The repository holds two generations of the
code. The current one lives in the lower-case packages (`service`, `entity`,
`repository`, `scheduler`, `controller`). An older generation lives in the
capitalised packages (`Service`, `Entity`, `Repository`).

This project models the services, entities, the repository's derived queries,
the scheduler and the request rules of the task controller. Each file follows
the structure and style of the code it models:

- **Entities are classes.** `TaskEntity.Task` and `UserEntity.User` have the
  Java entity's fields, its constructors, its `@PrePersist` hook and the
  setters the services call. Each also has a value view (`TaskRecord`,
  `UserRecord`) that the stored rows hold.
- **Services are classes** over a mutable store:
  - the task table `TaskQueries.TaskTable` keeps rows and the next generated id;
  - the account table `Accounts.UserService.users` maps an address to its stored account.

  Every request method loads an entity, changes it through its setters and
  saves it. Its contract ties the message it returns and the new store to
  specification functions. The rule ladders are `CheckRegistration`,
  `CheckVerifyOtp`, `CheckReset` and so on. The record transformers are
  `AfterVerify`, `Trashing`, `Completing` and so on. The lemmas around them
  state what the source promises over several requests.
- **Repository queries are functions.** Derived query methods and the two
  `@Query` texts are functions over the rows. Each has a membership
  "if and only if" contract.
- **The scheduler is a class** whose `CheckReminders` loop is proved against
  `TickSends`. `TickSends` is the prefix of the due reminders that the tick
  gets through before a mail failure.
- **The controller's rules are functions**: paging normalisation, the
  empty-state messages, the add and edit form checks, `csvEscape` and CSV
  rows. The two form handlers are methods of `TaskWeb.TaskController`. The
  CSV text is proved to read back, with quoting, to the exported values.

Time is modelled as an integer count of seconds (`Instant`) and dates as
whole days (`Day`). Every request gets the clock reading `now` or `today`
as a parameter. Mail is a parameter too: `mailFails` says whether the mail
gateway throws. Sent mail is appended to an `outbox`. The password encoder
is a function parameter `hash`. The random OTP is a choice from
`100000..999999`.

Files:

| file | module | models |
|---|---|---|
| common.dfy | `Common` | time and text helpers (`trim`, `toLowerCase`, `equalsIgnoreCase`, `contains`), `Optional`, filtering and stable sorting of lists, the HTTP session |
| task_entity.dfy | `TaskEntity` | `entity/Task.java` |
| user_entity.dfy | `UserEntity` | `entity/User.java` |
| task_repository.dfy | `TaskQueries` | `repository/TaskRepository.java`, and the save, find and delete of its `JpaRepository` |
| reminder_scheduler.dfy | `Scheduler` | `scheduler/ReminderScheduler.java` |
| task_service.dfy | `Tasks` | `service/TaskService.java` |
| task_controller.dfy | `TaskWeb` | the rules of `controller/TaskController.java` |
| csv_export.dfy | `CsvExport` | `csvEscape` and the CSV export of `controller/TaskController.java` |
| user_service.dfy | `Accounts` | `service/UserService.java` |
| legacy_task_service.dfy | `LegacyTasks` | `Service/TaskService.java` |
| legacy_user_service.dfy | `LegacyAccounts` | `Service/UserService.java` |

## Model

| member | source | states |
|---|---|---|
| TaskEntity.Task.constructor | src/main/java/com/taskreminder/app/entity/Task.java:33-47 | a new task has every field unset, with no reminder sent and not deleted |
| TaskEntity.Task.Full | src/main/java/com/taskreminder/app/entity/Task.java:49-56 | the five-argument constructor sets title, description, due date, status and priority, stamps the creation date with today, and leaves everything else at its default |
| TaskEntity.Task.FromRecord | src/main/java/com/taskreminder/app/entity/Task.java:13-45 | loading a stored row gives an entity whose fields are that row |
| TaskEntity.Task.OnCreate | src/main/java/com/taskreminder/app/entity/Task.java:58-61 | the persist hook stamps today's date as the creation date and changes nothing else |
| TaskEntity.Task.SetReminderSent | src/main/java/com/taskreminder/app/entity/Task.java:95-97 | only the reminder flag changes |
| TaskEntity.Task.SetReminderTime | src/main/java/com/taskreminder/app/entity/Task.java:103-105 | only the reminder time changes |
| TaskEntity.Task.SetUser | src/main/java/com/taskreminder/app/entity/Task.java:75-77 | only the owner changes |
| TaskEntity.Task.SetDeleted | src/main/java/com/taskreminder/app/entity/Task.java:147-149 | only the trash flag changes |
| TaskEntity.Task.SetDeletedAt | src/main/java/com/taskreminder/app/entity/Task.java:155-157 | only the trash time changes |
| TaskEntity.SetterRoundTrip | src/main/java/com/taskreminder/app/entity/Task.java:91-153 | the getters return what the setters stored, and the setters change only their own fields |
| UserEntity.ClearedOtp | src/main/java/com/taskreminder/app/entity/User.java:44-49 | clearing the OTP resets the code, its expiry, the attempt count and the request time, and keeps every other field |
| UserEntity.ClearOtpIdempotent | src/main/java/com/taskreminder/app/entity/User.java:44-49 | clearing twice is clearing once |
| UserEntity.Created | src/main/java/com/taskreminder/app/entity/User.java:36-42 | the persist hook stamps the creation time, and sets the default profile image only when none is set |
| UserEntity.User.constructor | src/main/java/com/taskreminder/app/entity/User.java:23-28 | a new user is unverified with zero OTP attempts and every other field unset |
| UserEntity.User.Full | src/main/java/com/taskreminder/app/entity/User.java:53-63 | the full constructor sets the given fields, with zero attempts, no request time, no image |
| UserEntity.User.FromRecord | src/main/java/com/taskreminder/app/entity/User.java:8-34 | loading a stored account gives an entity whose fields are that account |
| UserEntity.User.OnCreate | src/main/java/com/taskreminder/app/entity/User.java:36-42 | the entity becomes `Created` of what it was |
| UserEntity.User.ClearOtp | src/main/java/com/taskreminder/app/entity/User.java:44-49 | the entity becomes `ClearedOtp` of what it was |
| TaskQueries.ForReminder | src/main/java/com/taskreminder/app/repository/TaskRepository.java:78-79 | exactly the rows not yet reminded whose reminder time is set and not after `now`, of any owner, trashed or not |
| TaskQueries.ReminderAtNowSelected | src/main/java/com/taskreminder/app/repository/TaskRepository.java:78-79 | a reminder due exactly at `now` is selected whatever its owner and trash state |
| TaskQueries.UpcomingForUser | src/main/java/com/taskreminder/app/repository/TaskRepository.java:81-93 | the user's unsent reminders timed within `[now, future]`, ordered by reminder time, a permutation of exactly those rows |
| TaskQueries.DueQueriesPartition | src/main/java/com/taskreminder/app/repository/TaskRepository.java:63-76 | for a dated open task, "due before", "due on" and "due later" cover all cases; "before" and "between" never overlap; "on" is inside "between" exactly when the window starts no later than it ends |
| TaskQueries.FindById | src/main/java/com/taskreminder/app/repository/TaskRepository.java:18 | `findById` returns a row with that id, and returns nothing exactly when no row has it |
| TaskQueries.FindByIdUnique | src/main/java/com/taskreminder/app/repository/TaskRepository.java:18 | with unique ids, `findById` returns the row that has the id |
| TaskQueries.SaveRow | src/main/java/com/taskreminder/app/repository/TaskRepository.java:18 | `save` of a task with a known id replaces that row; otherwise the row is appended with the next generated id; the table stays well formed |
| TaskQueries.FilterKeepsTable | src/main/java/com/taskreminder/app/repository/TaskRepository.java:18 | deleting any set of rows keeps the table well formed |
| TaskQueries.FilterUnique | src/main/java/com/taskreminder/app/repository/TaskRepository.java:18 | deleting rows keeps ids unique |
| TaskQueries.TaskTable.constructor | src/main/java/com/taskreminder/app/repository/TaskRepository.java:18 | an empty table |
| TaskQueries.TaskTable.Save | src/main/java/com/taskreminder/app/repository/TaskRepository.java:18 | a task without an owner is refused with the integrity error and nothing changes; otherwise the entity is stamped by its persist hook when new and the table becomes `SaveRow` |
| TaskQueries.TaskTable.DeleteWhere | src/main/java/com/taskreminder/app/repository/TaskRepository.java:18 | exactly the rows meeting the predicate are removed, in order |
| Scheduler.MarkSent | src/main/java/com/taskreminder/app/scheduler/ReminderScheduler.java:29-33 | marking keeps the number of rows |
| Scheduler.FirstStop | src/main/java/com/taskreminder/app/scheduler/ReminderScheduler.java:29-30 | the first snapshot position whose task has no due date or whose send fails: every position before it passes |
| Scheduler.TickSends | src/main/java/com/taskreminder/app/scheduler/ReminderScheduler.java:23-34 | a tick sends a prefix of the due reminders: every task in it has a due date and was sent without failure, and the prefix ends only at the end of the list, at a task with no due date, or at the send that fails |
| Scheduler.DatedTickStopsAtFailure | src/main/java/com/taskreminder/app/scheduler/ReminderScheduler.java:29-33 | when every due task has a due date, the tick stops exactly at the failing send, or sends everything |
| Scheduler.UndatedNeverSent | src/main/java/com/taskreminder/app/service/EmailService.java:96-112 | a due task with no due date is never mailed, whatever the gateway does: formatting its date throws before the send |
| Scheduler.TickEndsAt | src/main/java/com/taskreminder/app/scheduler/ReminderScheduler.java:29-33 | the position the loop stops at is where the tick's prefix ends |
| Scheduler.MarkNext | src/main/java/com/taskreminder/app/scheduler/ReminderScheduler.java:29-33 | saving the next due task with its flag set marks exactly one more row |
| Scheduler.ReminderScheduler.constructor | src/main/java/com/taskreminder/app/scheduler/ReminderScheduler.java:15-21 | no reminder sent yet |
| Scheduler.ReminderScheduler.SendAndMark | src/main/java/com/taskreminder/app/scheduler/ReminderScheduler.java:29-33 | one loop step mails the task and saves it with its flag set |
| Scheduler.ReminderScheduler.CheckReminders | src/main/java/com/taskreminder/app/scheduler/ReminderScheduler.java:23-34 | the tick throws exactly when it stops before the end: a `NullPointerException` at a task with no due date, otherwise the gateway's "Failed to send email." at the failing position; what was mailed is `TickSends`; exactly those rows are marked sent, nothing else changes |
| Scheduler.ReminderScheduler.SendUntilStop | src/main/java/com/taskreminder/app/scheduler/ReminderScheduler.java:29-33 | the loop mails and marks the snapshot's tasks in order and stops where `TickSends` ends |
| Scheduler.SecondTickSendsNothing | src/main/java/com/taskreminder/app/scheduler/ReminderScheduler.java:23-34 | after a complete tick at `now` a second tick at the same `now` finds nothing to send |
| Scheduler.EachEligibleOnce | src/main/java/com/taskreminder/app/scheduler/ReminderScheduler.java:23-34 | with unique ids every eligible reminder is in the tick's list exactly once |
| Scheduler.FailedAndLaterStayUnsent | src/main/java/com/taskreminder/app/scheduler/ReminderScheduler.java:29-33 | when the tick stops at the k-th reminder, it and the ones after it stay unchanged and unsent, and are due at every tick at `now` or later |
| Scheduler.TickFrame | src/main/java/com/taskreminder/app/scheduler/ReminderScheduler.java:29-33 | a row is marked by a tick exactly when it is among the reminders the tick sent; no other row changes |
| Tasks.FindWhere | src/main/java/com/taskreminder/app/service/TaskService.java:60-94 | a found row has the id and meets the lookup's condition |
| Tasks.FindByIdAndUserId | src/main/java/com/taskreminder/app/service/TaskService.java:36-40 | a found task has the id, belongs to the user and is not in the trash |
| Tasks.FindWhereIff | src/main/java/com/taskreminder/app/service/TaskService.java:36-40 | with unique ids the lookup finds a row exactly when one meets the condition, and it finds that row |
| Tasks.StoredRow | src/main/java/com/taskreminder/app/service/TaskService.java:36-40 | a stored task has an id and an owner, and `findById` returns it |
| Tasks.Added | src/main/java/com/taskreminder/app/service/TaskService.java:27-33 | an added task gets PENDING when it has no status and today as its creation date; nothing else is changed |
| Tasks.Updated | src/main/java/com/taskreminder/app/service/TaskService.java:42-58 | an update keeps the stored owner, creation date and trash flag; the completion date becomes today exactly when the task is newly completed |
| Tasks.Trashing | src/main/java/com/taskreminder/app/service/TaskService.java:60-72 | the task is flagged deleted with trash time `now`; nothing else changes |
| Tasks.Restoring | src/main/java/com/taskreminder/app/service/TaskService.java:74-85 | the task is no longer deleted, has no trash time and is owned by the user; nothing else changes |
| Tasks.Completing | src/main/java/com/taskreminder/app/service/TaskService.java:110-127 | the task becomes COMPLETED with today as its completion date; nothing else changes |
| Tasks.RestoreIdempotent | src/main/java/com/taskreminder/app/service/TaskService.java:74-85 | restoring twice is restoring once, and restoring a live owned task changes nothing |
| Tasks.TrashThenRestore | src/main/java/com/taskreminder/app/service/TaskService.java:60-85 | trashing then restoring a live task gives it back, with no trash time |
| Tasks.TaskService.constructor | src/main/java/com/taskreminder/app/service/TaskService.java:18-25 | a service over the given task table and account service |
| Tasks.TaskService.Store | src/main/java/com/taskreminder/app/service/TaskService.java:42-127 | saving an edited stored task replaces its row |
| Tasks.TaskService.AddTask | src/main/java/com/taskreminder/app/service/TaskService.java:27-33 | a task without an owner fails with the integrity error and nothing changes; otherwise the table saves `Added` of it |
| Tasks.TaskService.UpdateTask | src/main/java/com/taskreminder/app/service/TaskService.java:42-58 | a missing id throws the translated `InvalidDataAccessApiUsageException` "The given id must not be null", and no live task of the user with the id throws "Task not found", both changing nothing; otherwise that row becomes `Updated` |
| Tasks.TaskService.MoveToTrash | src/main/java/com/taskreminder/app/service/TaskService.java:60-72 | a missing or foreign task throws the not-found message; a trashed one throws "already in Trash"; otherwise the row becomes `Trashing` of it |
| Tasks.TaskService.RestoreTask | src/main/java/com/taskreminder/app/service/TaskService.java:74-85 | a missing or foreign task throws; otherwise the row becomes `Restoring` of it, even when it was not trashed |
| Tasks.TaskService.PermanentDelete | src/main/java/com/taskreminder/app/service/TaskService.java:87-94 | only a trashed task of the user is removed, and only that row; otherwise it throws and nothing changes |
| Tasks.TaskService.EmptyTrash | src/main/java/com/taskreminder/app/service/TaskService.java:100-108 | with nothing in the user's trash it throws "Trash is already empty"; otherwise exactly the user's trashed rows are removed |
| Tasks.TaskService.MarkTask | src/main/java/com/taskreminder/app/service/TaskService.java:110-127 | a missing, foreign or trashed task throws "Task not found"; a completed one throws "Task already completed"; otherwise the row becomes `Completing` of it |
| Tasks.GetAllTasksByUser | src/main/java/com/taskreminder/app/service/TaskService.java:166-168 | exactly the user's tasks not in the trash |
| Tasks.GetTrashedTasks | src/main/java/com/taskreminder/app/service/TaskService.java:96-98 | exactly the user's tasks in the trash |
| Tasks.GetTasksDueToday | src/main/java/com/taskreminder/app/service/TaskService.java:170-173 | exactly the user's live, not completed tasks due today |
| Tasks.GetUpcomingTasks | src/main/java/com/taskreminder/app/service/TaskService.java:175-179 | exactly the user's live, not completed tasks due within `days` days from today, both ends included |
| Tasks.GetOverdueTasks | src/main/java/com/taskreminder/app/service/TaskService.java:181-184 | exactly the user's live, not completed tasks due before today |
| Tasks.GetUpcomingReminders | src/main/java/com/taskreminder/app/service/TaskService.java:186-193 | a permutation of exactly the user's live unsent reminders within the next 24 hours, ordered by reminder time |
| Tasks.GetRecentTasks | src/main/java/com/taskreminder/app/service/TaskService.java:195-201 | a negative `limit` throws an `IllegalArgumentException` naming it; otherwise a `NullPointerException` exactly when the user has two or more live tasks and one has no creation date; otherwise `limit` of the user's live tasks, or all of them when fewer, each at most as often as stored, newest creation date first |
| Tasks.RecentListsAll | src/main/java/com/taskreminder/app/service/TaskService.java:195-201 | with a limit no smaller than the number of live tasks, the list holds exactly the user's live tasks |
| Tasks.RecentAreNewest | src/main/java/com/taskreminder/app/service/TaskService.java:195-201 | when a list is returned, every task in it and every live task left out of it has a creation date, and none left out is newer than any task in it |
| Tasks.PagedSourceIsConjunction | src/main/java/com/taskreminder/app/service/TaskService.java:129-164 | the query chosen for each combination of filters selects exactly the user's live tasks matching every given filter, with a blank keyword meaning no keyword |
| Tasks.PageCount | src/main/java/com/taskreminder/app/service/TaskService.java:129-164 | there are no pages exactly when there are no rows |
| Tasks.PastLastPage | src/main/java/com/taskreminder/app/service/TaskService.java:129-164 | a page starts beyond the rows exactly when its number is at least the page count |
| Tasks.PageOf | src/main/java/com/taskreminder/app/service/TaskService.java:129-164 | a page has at most `size` rows, is empty exactly when it starts beyond the rows, and otherwise is the slice at `page * size` |
| Tasks.PageMembers | src/main/java/com/taskreminder/app/service/TaskService.java:129-164 | a page only holds rows of its source |
| TaskWeb.NormalisePaging | src/main/java/com/taskreminder/app/controller/TaskController.java:58-81 | the card view shows six per page; a size of 9999 or more shows everything on page 0; no size or a non-positive size means five; a negative page is page 0 |
| TaskWeb.PagingIdempotent | src/main/java/com/taskreminder/app/controller/TaskController.java:58-81 | normalising an already normalised request changes nothing |
| TaskWeb.EmptyState | src/main/java/com/taskreminder/app/controller/TaskController.java:152-165 | "no tasks yet" wins over "page does not exist", which wins over "no matches"; each message appears exactly when its condition holds |
| TaskWeb.ListTasks | src/main/java/com/taskreminder/app/controller/TaskController.java:43-168 | no session user means login; the calendar shows all live tasks, with its message exactly when there are none; otherwise the normalised page of the filtered query with its page count |
| TaskWeb.SourceWithinAll | src/main/java/com/taskreminder/app/controller/TaskController.java:152-165 | a filtered query with results implies the user has tasks |
| TaskWeb.ListingMessages | src/main/java/com/taskreminder/app/controller/TaskController.java:152-165 | stated against the data: "no tasks yet" exactly when the user has no live task, "page does not exist" exactly when the filters match something but the page starts beyond it, "no matches" exactly when the user has tasks and the filters match none, and no message exactly when the page shows something |
| TaskWeb.CheckReminder | src/main/java/com/taskreminder/app/controller/TaskController.java:247-274 | no reminder asked for gives no time; an asked reminder needs a time not before `now` on or before the due date, and is stored truncated to the minute |
| TaskWeb.AcceptedReminderFits | src/main/java/com/taskreminder/app/controller/TaskController.java:247-274 | an accepted time is on a minute boundary, on a day not after the due date and less than a minute before `now`, and every scheduler tick from then on selects it |
| TaskWeb.CheckNewTask | src/main/java/com/taskreminder/app/controller/TaskController.java:210-274 | title, description, due date and reminder checks apply in the source's order, each with its message; an accepted form has the user as owner |
| TaskWeb.NewTaskRejections | src/main/java/com/taskreminder/app/controller/TaskController.java:226-246 | a missing or past due date is rejected with its message |
| TaskWeb.NewTaskReminder | src/main/java/com/taskreminder/app/controller/TaskController.java:247-274 | with the fields present and the due date not before today, the form's fate is the reminder check's: its message, or acceptance with the checked time and the cleared flag |
| TaskWeb.CheckEdit | src/main/java/com/taskreminder/app/controller/TaskController.java:340-423 | no user means login; title then due date are checked; a missing or foreign task and a completed task are refused; an accepted edit takes the stored owner and creation date, and today as the completion date exactly when it completes the task |
| TaskWeb.ApplyReminder | src/main/java/com/taskreminder/app/controller/TaskController.java:269-274 | the entity's reminder flag is cleared and the checked time stored; nothing else changes |
| TaskWeb.Accept | src/main/java/com/taskreminder/app/controller/TaskController.java:234-236 | the add form's entity gets the session's user and the checked reminder |
| TaskWeb.CarryStored | src/main/java/com/taskreminder/app/controller/TaskController.java:369-391 | the edit form's entity takes the path's id and the stored owner, creation date and completion date, with today when newly completed |
| TaskWeb.TaskController.constructor | src/main/java/com/taskreminder/app/controller/TaskController.java:31-41 | a controller over the given service |
| TaskWeb.TaskController.SaveTask | src/main/java/com/taskreminder/app/controller/TaskController.java:200-290 | the outcome follows the checks; only an accepted form with a session user adds a row, the one `addTask` saves |
| TaskWeb.TaskController.UpdateTask | src/main/java/com/taskreminder/app/controller/TaskController.java:332-438 | a binding error shows the form; otherwise the outcome follows `CheckEdit`, and only an accepted edit replaces the stored row with its update |
| TaskWeb.EditCompletesToday | src/main/java/com/taskreminder/app/controller/TaskController.java:375-391 | the saved edit keeps the owner, creation date and live state; its completion date is today exactly when the form completes the task |
| CsvExport.Doubled | src/main/java/com/taskreminder/app/controller/TaskController.java:693 | doubling quotes never shortens a text and leaves a text without quotes as it is |
| CsvExport.CsvEscape | src/main/java/com/taskreminder/app/controller/TaskController.java:682-696 | null becomes empty; a value with a comma, quote, line feed or carriage return is quoted with its quotes doubled; any other value is kept |
| CsvExport.EscapedField | src/main/java/com/taskreminder/app/controller/TaskController.java:682-696 | every escaped value reads back as that value (null as empty), whether it is the last field or followed by a comma |
| CsvExport.QuotedField | src/main/java/com/taskreminder/app/controller/TaskController.java:687-695 | a quoted, quote-doubled value reads back as the value |
| CsvExport.QuotedReadsBack | src/main/java/com/taskreminder/app/controller/TaskController.java:693 | reading a quote-doubled text up to the closing quote gives back the text |
| CsvExport.PlainField | src/main/java/com/taskreminder/app/controller/TaskController.java:695 | a value without special characters reads back as itself |
| CsvExport.ParseJoin | src/main/java/com/taskreminder/app/controller/TaskController.java:605-617 | joining fields with commas, each reading back as its value, parses back into the values |
| CsvExport.DateText | src/main/java/com/taskreminder/app/controller/TaskController.java:614-616 | an ISO date never needs quoting |
| CsvExport.Civil | src/main/java/com/taskreminder/app/controller/TaskController.java:614-616 | a day number maps to a proleptic Gregorian date with month 1 to 12 and day 1 to 31 |
| CsvExport.EpochDates | src/main/java/com/taskreminder/app/controller/TaskController.java:614-616 | day 0 prints as 1970-01-01 |
| CsvExport.MonthOfNext | src/main/java/com/taskreminder/app/controller/TaskController.java:614-616 | within a year, one more day is the next calendar date |
| CsvExport.LastOfYear | src/main/java/com/taskreminder/app/controller/TaskController.java:614-616 | the last day of every year is 31 December |
| CsvExport.YearBoundary | src/main/java/com/taskreminder/app/controller/TaskController.java:614-616 | the last day of a year is 31 December and the next is 1 January of the next year |
| CsvExport.WithinYearNext | src/main/java/com/taskreminder/app/controller/TaskController.java:614-616 | inside a year, the day after is the next date |
| CsvExport.CivilFromNext | src/main/java/com/taskreminder/app/controller/TaskController.java:614-616 | one day later is the next calendar date, across month and year ends, before and after the epoch |
| CsvExport.CivilNext | src/main/java/com/taskreminder/app/controller/TaskController.java:614-616 | the date of day `d + 1` is the calendar date after that of day `d`; with day 0 as 1970-01-01 this fixes every day's date |
| CsvExport.RowFields | src/main/java/com/taskreminder/app/controller/TaskController.java:605-617 | a row has the eight columns of the header |
| CsvExport.RowRoundTrip | src/main/java/com/taskreminder/app/controller/TaskController.java:605-617 | parsing a task's CSV row gives id, title, description, status, priority, due, created and completed dates, with titles and descriptions unescaped |
| CsvExport.ExportCsv | src/main/java/com/taskreminder/app/controller/TaskController.java:621-636 | the export is the header line followed by one line per task, in order |
| Accounts.DigitsNotBlank | src/main/java/com/taskreminder/app/service/UserService.java:116-129 | a six-digit code is never blank |
| Accounts.GenerateOtp | src/main/java/com/taskreminder/app/service/UserService.java:195-197 | the code is six digits whose value lies in 100000 to 999999 |
| Accounts.ReplaceKeepsTable | src/main/java/com/taskreminder/app/service/UserService.java:59-68 | saving an account under its own address keeps the table well formed |
| Accounts.InsertKeepsTable | src/main/java/com/taskreminder/app/service/UserService.java:59-68 | inserting a new account with the next id keeps the table well formed |
| Accounts.RekeyKeepsTable | src/main/java/com/taskreminder/app/service/UserService.java:368-410 | moving an account to an address that is free or its own keeps the table well formed |
| Accounts.RegistrationAccepted | src/main/java/com/taskreminder/app/service/UserService.java:37-57 | registration is accepted exactly when name, address and password are present and not blank, the name has 2 to 50 UTF-16 code units, the address is well formed and unused, and the password is strong |
| Accounts.SurrogatePairsCountTwice | src/main/java/com/taskreminder/app/service/UserService.java:356-366 | an emoji is two code units of `length()`, so two emoji pass the 3-to-30 check and fail only the character pattern |
| Accounts.SampleEmailValid | src/test/java/com/taskreminder/app/service/UserServiceTest.java:50-62 | the test's address is well formed |
| Accounts.SamplePasswordValid | src/test/java/com/taskreminder/app/service/UserServiceTest.java:50-62 | the test's password is strong |
| Accounts.SampleRegistration | src/test/java/com/taskreminder/app/service/UserServiceTest.java:50-72 | the test registration is accepted on an empty table and refused once the address is taken |
| Accounts.NewAccountVerifies | src/main/java/com/taskreminder/app/service/UserService.java:59-68 | a new account's code verifies until it expires and is judged expired after that |
| Accounts.UnverifiedLogsIn | src/main/java/com/taskreminder/app/service/UserService.java:92-109 | an unverified account with the right password logs in, and the session gets its id and address |
| Accounts.AttemptsBounded | src/main/java/com/taskreminder/app/service/UserService.java:135-157 | the attempt count stays within zero and the maximum, a miss adds one, and guards that stop early change nothing |
| Accounts.MissesLockOut | src/main/java/com/taskreminder/app/service/UserService.java:135-151 | wrong codes only raise the attempt count, and enough of them lock the account out |
| Accounts.VerifiedIsFinal | src/main/java/com/taskreminder/app/service/UserService.java:116-133 | a verified account can no longer be judged on a code |
| Accounts.CooldownWindow | src/main/java/com/taskreminder/app/service/UserService.java:173-176 | after a resend, another resend is refused exactly during the cooldown |
| Accounts.ReissueUnlocks | src/main/java/com/taskreminder/app/service/UserService.java:178-184 | a freshly issued code verifies and every other code misses |
| Accounts.CheckReset | src/main/java/com/taskreminder/app/service/UserService.java:284-331 | an accepted reset has the address, a strong password repeated in the confirmation, the verified marker for this address, and a stored account whose password differs |
| Accounts.ResetNeedsMarker | src/main/java/com/taskreminder/app/service/UserService.java:284-331 | no reset without the session's marker for the same address, a confirmed strong password and a new password |
| Accounts.ResetFlowCompletes | src/main/java/com/taskreminder/app/service/UserService.java:238-331 | after a matching reset code, a strong new password is accepted |
| Accounts.CheckAddress | src/main/java/com/taskreminder/app/service/UserService.java:368-383 | an accepted address is present, well formed after trimming and lower-casing, and not owned by another account |
| Accounts.EmailChangeClearsVerified | src/main/java/com/taskreminder/app/service/UserService.java:376-383 | a changed address clears `verified`; a case-insensitive match keeps it; nothing else but name and address changes |
| Accounts.LowerIdempotent | src/main/java/com/taskreminder/app/service/UserService.java:368-374 | lower-casing twice is lower-casing once |
| Accounts.UserService.constructor | src/main/java/com/taskreminder/app/service/UserService.java:23-31 | an empty account table and outbox |
| Accounts.UserService.Save | src/main/java/com/taskreminder/app/service/UserService.java:59-68 | saving an account replaces its stored record |
| Accounts.UserService.Insert | src/main/java/com/taskreminder/app/service/UserService.java:59-68 | a new account is stored under its address with the next id and its persist hook applied |
| Accounts.UserService.Register | src/main/java/com/taskreminder/app/service/UserService.java:35-77 | the message follows the checks; a refused registration changes nothing; an accepted one stores an unverified account with a hashed password and a fresh code, and mails the code unless the mail fails |
| Accounts.UserService.CreateAccount | src/main/java/com/taskreminder/app/service/UserService.java:59-68 | the new account is stored with a fresh six-digit code |
| Accounts.UserService.LoginUser | src/main/java/com/taskreminder/app/service/UserService.java:79-112 | the message follows the login checks; only a granted login writes the user's id, name and address into the session |
| Accounts.UserService.VerifyOtp | src/main/java/com/taskreminder/app/service/UserService.java:114-158 | the message follows the verification ladder; a judged code updates the account as `AfterVerify` says; any earlier refusal changes nothing |
| Accounts.UserService.Attempt | src/main/java/com/taskreminder/app/service/UserService.java:135-157 | a judged code: a miss counts an attempt; a match verifies (when asked) and clears the code |
| Accounts.UserService.Reissue | src/main/java/com/taskreminder/app/service/UserService.java:178-192 | a fresh code with new expiry and request time is saved and mailed unless the mail fails |
| Accounts.UserService.ResendOtp | src/main/java/com/taskreminder/app/service/UserService.java:160-193 | the message follows the resend checks; only a granted resend issues and mails a fresh code |
| Accounts.UserService.SendResetOtp | src/main/java/com/taskreminder/app/service/UserService.java:199-236 | the message follows the reset-request checks; only a granted request issues and mails a fresh code |
| Accounts.UserService.VerifyResetOtp | src/main/java/com/taskreminder/app/service/UserService.java:238-282 | the message follows the reset-code ladder; a judged code updates the account; a match puts the address into the session as the reset marker |
| Accounts.UserService.ResetPassword | src/main/java/com/taskreminder/app/service/UserService.java:284-331 | the message follows the reset checks; only an accepted reset stores the new hash and removes the marker |
| Accounts.UserService.CommitReset | src/main/java/com/taskreminder/app/service/UserService.java:318-330 | the end of a reset stores the new hash with the code cleared and removes the marker |
| Accounts.UserService.UpdateProfile | src/main/java/com/taskreminder/app/service/UserService.java:352-411 | an unknown id throws "User not found"; a failed check throws its message and changes nothing; otherwise the account gets the trimmed name and normalised address |
| Accounts.UserService.UpdateAccount | src/main/java/com/taskreminder/app/service/UserService.java:357-411 | the name check comes first; then the address checks |
| Accounts.UserService.UpdateAddress | src/main/java/com/taskreminder/app/service/UserService.java:368-411 | a refused address changes nothing; an accepted one stores the account under its new address |
| Accounts.UserService.CommitProfile | src/main/java/com/taskreminder/app/service/UserService.java:376-410 | the account is saved under its new address with the new name, and loses `verified` when the address changed |
| LegacyAccounts.Pending | src/main/java/com/taskreminder/app/Service/UserService.java:22-37 | the registered account gets the code, an expiry five minutes ahead, the next id and the creation time, unverified |
| LegacyAccounts.RegisterReply | src/main/java/com/taskreminder/app/Service/UserService.java:22-37 | a taken address is refused; otherwise the call throws exactly when the mail fails |
| LegacyAccounts.JudgeLogin | src/main/java/com/taskreminder/app/Service/UserService.java:39-62 | a login is granted exactly for a verified account with the exact password; "not verified" exactly for an unverified one |
| LegacyAccounts.LegacySignedIn | src/main/java/com/taskreminder/app/Service/UserService.java:57-60 | the session gets the user's id under `loggedInUser` and `userId` and the address under `email`; `name` is left as it was |
| LegacyAccounts.CheckVerify | src/main/java/com/taskreminder/app/Service/UserService.java:64-96 | a code is right exactly for an unverified account with an unexpired code equal to it |
| LegacyAccounts.Confirmed | src/main/java/com/taskreminder/app/Service/UserService.java:90-95 | a confirmed account is verified and loses its code and expiry |
| LegacyAccounts.SubmitCodes | src/main/java/com/taskreminder/app/Service/UserService.java:64-96 | any run of submissions keeps the account consistent |
| LegacyAccounts.WrongCodesChangeNothing | src/main/java/com/taskreminder/app/Service/UserService.java:86-88 | wrong codes never change the account, so the right code still verifies afterwards |
| LegacyAccounts.ConfirmedIsFinal | src/main/java/com/taskreminder/app/Service/UserService.java:74-76 | once confirmed, every further code is answered "already verified" and changes nothing |
| LegacyAccounts.Refreshed | src/main/java/com/taskreminder/app/Service/UserService.java:111-117 | a resend replaces the code and its expiry only |
| LegacyAccounts.ResendReply | src/main/java/com/taskreminder/app/Service/UserService.java:98-120 | an unknown address and a verified account are refused; otherwise the call throws exactly when the mail fails |
| LegacyAccounts.FreshCodeVerifies | src/main/java/com/taskreminder/app/Service/UserService.java:22-120 | a registered or resent code verifies within its lifetime, and login still refuses the unverified account |
| LegacyAccounts.LegacyUserService.constructor | src/main/java/com/taskreminder/app/Service/UserService.java:14-20 | an empty table and outbox |
| LegacyAccounts.LegacyUserService.Save | src/main/java/com/taskreminder/app/Service/UserService.java:90-95 | saving replaces the stored account |
| LegacyAccounts.LegacyUserService.Register | src/main/java/com/taskreminder/app/Service/UserService.java:22-37 | a taken address changes nothing; otherwise the pending account is stored and its code mailed unless the mail fails |
| LegacyAccounts.LegacyUserService.LoginUser | src/main/java/com/taskreminder/app/Service/UserService.java:39-62 | the reply follows `JudgeLogin`; only a granted login writes the session |
| LegacyAccounts.LegacyUserService.VerifyOtp | src/main/java/com/taskreminder/app/Service/UserService.java:64-96 | the reply follows `CheckVerify`; only the right code changes the account, to `Confirmed` |
| LegacyAccounts.LegacyUserService.ResendOtp | src/main/java/com/taskreminder/app/Service/UserService.java:98-120 | the reply follows `ResendReply`; only an unverified account is refreshed, and its code mailed unless the mail fails |
| LegacyTasks.MarkRefusal | src/main/java/com/taskreminder/app/Service/TaskService.java:41-53 | marking succeeds exactly for an existing task that is not completed |
| LegacyTasks.FindAfterPut | src/main/java/com/taskreminder/app/Service/TaskService.java:50-52 | after saving a row under its id, `findById` returns the saved row |
| LegacyTasks.LegacyTaskService.constructor | src/main/java/com/taskreminder/app/Service/TaskService.java:16-19 | a service over the given table |
| LegacyTasks.LegacyTaskService.MarkTask | src/main/java/com/taskreminder/app/Service/TaskService.java:41-53 | a missing or completed task throws and nothing changes; otherwise that row becomes completed today |
| LegacyTasks.MarkTwiceRefused | src/main/java/com/taskreminder/app/Service/TaskService.java:46-48 | a task just marked is refused as already completed the next time |
| LegacyTasks.PagedSourceIsConjunction | src/main/java/com/taskreminder/app/Service/TaskService.java:55-103 | the query chosen for each combination of filters selects exactly the rows of any owner, trashed or not, matching every given filter |
| LegacyTasks.GetPagedTasks | src/main/java/com/taskreminder/app/Service/TaskService.java:55-103 | the page is the slice at offset `page * size` of all matching rows in table order (`Tasks.PageOf` of them), with their page count, and holds only matching rows |
| LegacyTasks.ScopedSearch | src/main/java/com/taskreminder/app/Service/TaskService.java:55-103 | the current service's query is the legacy query restricted to the user's live tasks |
| LegacyTasks.GetTasksDueToday | src/main/java/com/taskreminder/app/Service/TaskService.java:109-112 | exactly the not completed tasks due today, of any owner |
| LegacyTasks.GetUpcomingTasks | src/main/java/com/taskreminder/app/Service/TaskService.java:114-118 | exactly the not completed tasks due within `days` days, of any owner |
| LegacyTasks.GetOverdueTasks | src/main/java/com/taskreminder/app/Service/TaskService.java:120-123 | exactly the not completed tasks due before today, of any owner |
| LegacyTasks.DueListsAgree | src/main/java/com/taskreminder/app/Service/TaskService.java:109-123 | no task is both overdue and upcoming, and a task due today is upcoming for any non-negative window |
| LegacyTasks.ScopedDueToday | src/main/java/com/taskreminder/app/Service/TaskService.java:109-112 | the current service's list is the legacy list restricted to the user's live tasks |
| LegacyTasks.ScopedOverdue | src/main/java/com/taskreminder/app/Service/TaskService.java:120-123 | the same for overdue tasks |
| LegacyTasks.ScopedUpcoming | src/main/java/com/taskreminder/app/Service/TaskService.java:114-118 | the same for upcoming tasks |

## Left out

- I/O is not modelled. The mail gateway, `LocalDate.now()` and
  `LocalDateTime.now()` become the parameters `mailFails`, `today` and
  `now`. Mail contents are reduced to the address and the code.
- Each request uses one clock reading. The source may read the clock more
  than once inside one request.
- `@Transactional` rollback, concurrency and the scheduler's timer are not
  modelled. A tick is one call of `CheckReminders`.
- Password encoding (BCrypt) is not modelled. It is an arbitrary function `hash`, and matching is
  equality of hashes. The legacy service compares plain passwords.
- `Math.random()` is not modelled. The OTP is any six-digit value from 100000 to 999999.
- The profile image upload in `updateProfile` is left out: it writes files
  to disk. For the same reason, the model attributes used only for display,
  the form state echoed back on a rejection, and the `Sort` parameter of
  the paged queries are left out. Pages are cut from the table in its
  stored order, which is what `Sort.unsorted()` gives. With a `sort`
  request parameter (`controller/TaskController.java:61-68,111`) the
  source orders by due date, priority, creation date or title before it
  cuts the page, so its pages then hold other rows than the model's.
- `Common.LowerChar`, `Common.Lower`, `Common.EqualsIgnoreCase` and
  `Common.ContainsIgnoreCase` fold only the letters A to Z. Java's
  `toLowerCase`/`equalsIgnoreCase` and the database's case-insensitive
  `LIKE` fold letters of every script, so on non-ASCII letters
  `Tasks.TitleMatches` (keyword "é" against title "École"),
  `Accounts.NormalisedEmail` and `Accounts.ProfileUpdated` can differ from
  the source. Full Unicode case mapping is not modelled.
- `TaskWeb.ListTasks`: the "Invalid filter value provided." branch at `controller/TaskController.java:115-122` is not modelled. Filters are typed values here, so no value can fail to convert.
- `exportCsvDownload` writes the same header and rows as `exportCsvEmail`
  through a `PrintWriter`. The model also covers it through
  `CsvExport.RowRoundTrip`, with a line feed ending each row where
  `println` uses the platform separator.
- `Tasks.TaskService.MarkTask`: the "Cannot complete a task in Trash" branch
  at `service/TaskService.java:116-118` is unreachable. The lookup before it
  only returns tasks that are not deleted, so the model has no such branch.
- `LegacyAccounts.LegacyUserService.Register` requires a form with an e-mail
  address and no id. The legacy code checks neither. A null address or a
  preset id depends on the repository's behaviour, which is not part of
  this model.
- The legacy code dereferences a stored null password in `loginUser`. The
  model returns a `NullPointerException` there with an empty message, not
  the JVM's message.
- The legacy `getAllTasks`, `addTask`, `updateTask`, `deleteTask` and
  `findById` (`Service/TaskService.java:21-39`) pass straight through to the
  repository. They are covered by `TaskQueries.TaskTable.Save`,
  `TaskQueries.TaskTable.DeleteWhere` and `TaskQueries.FindById`. The legacy
  `findAll(pageable)` is `LegacyTasks.GetPagedTasks` with no filters.
- The legacy `Repository/TaskRepository.java` does not declare the due-date
  queries that `Service/TaskService.java:109-123` calls. The model gives
  them the meaning of Spring's derived-query names.
- The priority and status list helpers at `service/TaskService.java:203-236`
  only sort and group for display. They are not modelled.
- The other controllers, the REST controllers, the dashboard and the
  JavaScript are not part of this model. The legacy `Controller` package is
  not part of it either.

## Notes on the source

- Where the written description and the code disagree, the model follows
  the code:
  - the reminder query has no trash or owner condition, so reminders of trashed tasks are mailed;
  - the scheduler does not catch a send failure, so the rest of that tick's reminders wait for the next tick;
  - the reminder mail formats the task's due date (`service/EmailService.java:112`), so a due reminder on a task with no due date throws a `NullPointerException` on every tick, and it and every reminder after it in the list are never sent. The task controller always requires a due date, but `addTask` and `updateTask` of the service accept a task without one;
  - the current `loginUser` does not require a verified account, because its check is commented out at `service/UserService.java:92-94`;
  - `resendOtp` saves the new code before mailing it, so a mail failure leaves the new code stored.
- The legacy `Service/UserService.java` imports `Entity.User`, which has no
  `otpExpiry` field and no `clearOtp` method, yet the service calls
  `setOtpExpiry`, `getOtpExpiry` and `clearOtp` (lines 30, 82, 91 and 114).
  `Entity/User.java` also has no persist hook and no profile image, and
  sets `createdAt` in a field initialiser. `Entity/Task.java` has no owner,
  trash or reminder columns, and both task entities map the table `task`.
  The model gives the legacy services the current entities' records and
  meaning: a legacy registration is stamped by the current `onCreate`,
  which also sets the default profile image, and a legacy task row carries
  the current columns at their defaults.
