/** The task lifecycle of `service/TaskService.java`: adding, the ownership
    lookup, updating, trash and restore, permanent deletion, completion, and
    the list queries the pages show. */
module Tasks {
  import opened Common
  import opened TaskEntity
  import opened TaskQueries
  import opened UserEntity
  import Accounts

  const TASK_NOT_FOUND: string := "Task not found"
  const NOT_FOUND_OR_DENIED: string := "Task not found or you do not have permission"
  const ALREADY_IN_TRASH: string := "Task is already in Trash"
  const USER_NOT_FOUND: string := "User not found"
  const TRASH_EMPTY: string := "Trash is already empty"
  const ALREADY_COMPLETED: string := "Task already completed"
  /** The message of what `findById(null)` throws. */
  const NULL_ID: string := "The given id must not be null"

  /** A task the user sees in the lists: owned and not in the trash
      (`findByUser_IdAndDeletedFalse`). */
  predicate Live(t: TaskRecord, userId: int) {
    Owned(t, userId) && !t.deleted
  }

  /** A task in the user's trash (`findByUser_IdAndDeletedTrue`). */
  predicate Trashed(t: TaskRecord, userId: int) {
    Owned(t, userId) && t.deleted
  }

  /** The row with identity `id` when it satisfies `p`: the derived queries
      `findByIdAndUserId...` over a table with distinct identities. */
  function FindWhere(rows: seq<TaskRecord>, id: int, p: TaskRecord -> bool): (r: Option<TaskRecord>)
    ensures r.Some? ==> r.value in rows && r.value.id == Some(id) && p(r.value)
  {
    match FindById(rows, id)
    case None => None
    case Some(t) => if p(t) then Some(t) else None
  }

  /** `findByIdAndUserId(taskId, userId)`: the task when it exists, belongs to
      the user and is not in the trash, otherwise nothing. */
  function FindByIdAndUserId(rows: seq<TaskRecord>, id: int, userId: int): (r: Option<TaskRecord>)
    ensures r.Some? ==> r.value in rows && r.value.id == Some(id) && Live(r.value, userId)
  {
    FindWhere(rows, id, t => Live(t, userId))
  }

  /** Both directions of the lookup: it answers exactly when some row with
      that identity is the user's and not trashed, and answers that row. */
  lemma FindWhereIff(rows: seq<TaskRecord>, id: int, p: TaskRecord -> bool)
    requires UniqueIds(rows)
    ensures FindWhere(rows, id, p).Some? <==> exists i :: 0 <= i < |rows| && rows[i].id == Some(id) && p(rows[i])
    ensures forall i :: 0 <= i < |rows| && rows[i].id == Some(id) && p(rows[i]) ==> FindWhere(rows, id, p) == Some(rows[i])
  {
    forall i | 0 <= i < |rows| && rows[i].id == Some(id)
      ensures FindById(rows, id) == Some(rows[i])
    {
      FindByIdUnique(rows, id, i);
    }
  }

  /** A stored row can be merged back: it has an identity, an owner, and
      `findById` returns it. */
  lemma StoredRow(rows: seq<TaskRecord>, nextId: int, t: TaskRecord)
    requires TaskRows(rows, nextId) && t in rows
    ensures t.id.Some? && t.user.Some? && FindById(rows, t.id.value) == Some(t)
  {
    var i :| 0 <= i < |rows| && rows[i] == t;
    FindByIdUnique(rows, t.id.value, i);
  }

  /** `getUserById(id).isPresent()` over the accounts. */
  predicate HasUserId(users: map<string, UserRecord>, id: int) {
    exists k :: k in users && users[k].id == Some(id)
  }

  // ----- the new states -----

  /** What `addTask` hands to `save`: a missing status becomes PENDING, a
      given one is kept, and the task is created today. */
  function Added(form: TaskRecord, today: Day): (r: TaskRecord)
    ensures r.status == (if form.status.None? then Some(PENDING) else form.status)
    ensures r.createdAt == Some(today)
    ensures r.(status := form.status, createdAt := form.createdAt) == form
  {
    form.(status := Some(if form.status.None? then PENDING else form.status.value), createdAt := Some(today))
  }

  /** What `updateTask` saves: the submitted task with the owner, creation
      date and trash flag of the stored one, and a completion date that is
      today only on a transition into COMPLETED. */
  function Updated(form: TaskRecord, existing: TaskRecord, today: Day): (r: TaskRecord)
    ensures r.user == existing.user && r.createdAt == existing.createdAt && r.deleted == existing.deleted
    ensures r.completedAt == (if form.status == Some(COMPLETED) && existing.status != Some(COMPLETED)
                              then Some(today) else existing.completedAt)
    ensures r.(user := form.user, createdAt := form.createdAt, deleted := form.deleted, completedAt := form.completedAt) == form
  {
    var completedAt := if form.status == Some(COMPLETED) && existing.status != Some(COMPLETED)
                       then Some(today) else existing.completedAt;
    form.(user := existing.user, createdAt := existing.createdAt, deleted := existing.deleted, completedAt := completedAt)
  }

  /** `moveToTrash`: flagged and stamped. */
  function Trashing(t: TaskRecord, now: Instant): (r: TaskRecord)
    ensures r.deleted && r.deletedAt == Some(now)
    ensures r.(deleted := t.deleted, deletedAt := t.deletedAt) == t
  {
    t.(deleted := true, deletedAt := Some(now))
  }

  /** `restoreTask`: the owner set again, the flag and the stamp cleared. */
  function Restoring(t: TaskRecord, userId: int): (r: TaskRecord)
    ensures !r.deleted && r.deletedAt.None? && r.user == Some(userId)
    ensures r.(user := t.user, deleted := t.deleted, deletedAt := t.deletedAt) == t
  {
    t.(user := Some(userId), deleted := false, deletedAt := None)
  }

  /** `markTask`: completed today. */
  function Completing(t: TaskRecord, today: Day): (r: TaskRecord)
    ensures r.status == Some(COMPLETED) && r.completedAt == Some(today)
    ensures r.(status := t.status, completedAt := t.completedAt) == t
  {
    t.(status := Some(COMPLETED), completedAt := Some(today))
  }

  /** Restoring needs no prior trashing and a second restore changes nothing:
      on a task that was never trashed and is its owner's, it is the
      identity. */
  lemma RestoreIdempotent(t: TaskRecord, userId: int)
    ensures Restoring(Restoring(t, userId), userId) == Restoring(t, userId)
    ensures Owned(t, userId) && !t.deleted && t.deletedAt.None? ==> Restoring(t, userId) == t
  {
  }

  /** Trashing and then restoring gives back the task with its stamp
      cleared. */
  lemma TrashThenRestore(t: TaskRecord, userId: int, now: Instant)
    requires Owned(t, userId) && !t.deleted
    ensures Restoring(Trashing(t, now), userId) == t.(deletedAt := None)
  {
  }

  class TaskService {
    const tasks: TaskTable
    const accounts: Accounts.UserService

    constructor (tasks: TaskTable, accounts: Accounts.UserService)
      ensures this.tasks == tasks && this.accounts == accounts
    {
      this.tasks := tasks;
      this.accounts := accounts;
    }

    /** Loads the stored row `found`, lets `edit` stand for the entity's
        setters, and saves it back: a merge onto the same row. */
    method Store(found: TaskRecord, edited: TaskRecord)
      requires tasks.Valid() && found in tasks.rows
      requires edited.id == found.id && edited.user.Some?
      modifies tasks
      ensures tasks.Valid() && tasks.nextId == old(tasks.nextId)
      ensures tasks.rows == PutRow(old(tasks.rows), edited)
    {
      StoredRow(tasks.rows, tasks.nextId, found);
      var t := new Task.FromRecord(edited);
      var failure := tasks.Save(t, 0);
    }

    /** `addTask(task)`: the status default and the creation date are set on
        the submitted entity, which is then saved. */
    method AddTask(task: Task, today: Day) returns (thrown: Option<Thrown>)
      requires tasks.Valid()
      modifies task, tasks
      ensures tasks.Valid()
      ensures old(task.user).None? ==>
                thrown == Some(Thrown(DataIntegrityViolation, USER_ID_NOT_NULL))
                && tasks.rows == old(tasks.rows) && tasks.nextId == old(tasks.nextId)
      ensures old(task.user).Some? ==>
                var s := SaveRow(old(tasks.rows), old(tasks.nextId), Added(old(task.Rec()), today), today);
                thrown.None? && tasks.rows == s.rows && tasks.nextId == s.nextId
    {
      if task.status.None? {
        task.status := Some(PENDING);
      }
      task.createdAt := Some(today);
      thrown := tasks.Save(task, today);
    }

    /** `updateTask(task, userId)`. */
    method UpdateTask(task: Task, userId: int, today: Day) returns (thrown: Option<Thrown>)
      requires tasks.Valid()
      modifies task, tasks
      ensures tasks.Valid() && tasks.nextId == old(tasks.nextId)
      ensures old(task.id).None? ==>
                thrown == Some(Thrown(InvalidDataAccessApiUsage, NULL_ID)) && tasks.rows == old(tasks.rows)
      ensures old(task.id).Some? && FindByIdAndUserId(old(tasks.rows), old(task.id).value, userId).None? ==>
                thrown == Some(Thrown(RuntimeException, TASK_NOT_FOUND)) && tasks.rows == old(tasks.rows)
      ensures old(task.id).Some? && FindByIdAndUserId(old(tasks.rows), old(task.id).value, userId).Some? ==>
                var existing := FindByIdAndUserId(old(tasks.rows), old(task.id).value, userId).value;
                thrown.None? && tasks.rows == PutRow(old(tasks.rows), Updated(old(task.Rec()), existing, today))
    {
      if task.id.None? {
        return Some(Thrown(InvalidDataAccessApiUsage, NULL_ID));
      }
      var found := FindByIdAndUserId(tasks.rows, task.id.value, userId);
      if found.None? {
        return Some(Thrown(RuntimeException, TASK_NOT_FOUND));
      }
      var existing := found.value;
      StoredRow(tasks.rows, tasks.nextId, existing);
      task.user := existing.user;
      task.createdAt := existing.createdAt;
      task.SetDeleted(existing.deleted);
      if task.status == Some(COMPLETED) && existing.status != Some(COMPLETED) {
        task.completedAt := Some(today);
      } else {
        task.completedAt := existing.completedAt;
      }
      thrown := tasks.Save(task, today);
    }

    /** `moveToTrash(id, userId)`. */
    method MoveToTrash(id: int, userId: int, now: Instant) returns (thrown: Option<Thrown>)
      requires tasks.Valid()
      modifies tasks
      ensures tasks.Valid() && tasks.nextId == old(tasks.nextId)
      ensures var found := FindWhere(old(tasks.rows), id, t => Owned(t, userId));
              if found.None? then thrown == Some(Thrown(RuntimeException, NOT_FOUND_OR_DENIED)) && tasks.rows == old(tasks.rows)
              else if found.value.deleted then thrown == Some(Thrown(IllegalStateException, ALREADY_IN_TRASH)) && tasks.rows == old(tasks.rows)
              else thrown.None? && tasks.rows == PutRow(old(tasks.rows), Trashing(found.value, now))
    {
      var found := FindWhere(tasks.rows, id, t => Owned(t, userId));
      if found.None? {
        return Some(Thrown(RuntimeException, NOT_FOUND_OR_DENIED));
      }
      if found.value.deleted {
        return Some(Thrown(IllegalStateException, ALREADY_IN_TRASH));
      }
      Store(found.value, Trashing(found.value, now));
      thrown := None;
    }

    /** `restoreTask(id, userId)`: no check that the task was trashed. */
    method RestoreTask(id: int, userId: int) returns (thrown: Option<Thrown>)
      requires tasks.Valid()
      modifies tasks
      ensures tasks.Valid() && tasks.nextId == old(tasks.nextId)
      ensures var found := FindWhere(old(tasks.rows), id, t => Owned(t, userId));
              if found.None? then thrown == Some(Thrown(RuntimeException, NOT_FOUND_OR_DENIED)) && tasks.rows == old(tasks.rows)
              else if !HasUserId(accounts.users, userId) then thrown == Some(Thrown(RuntimeException, USER_NOT_FOUND)) && tasks.rows == old(tasks.rows)
              else thrown.None? && tasks.rows == PutRow(old(tasks.rows), Restoring(found.value, userId))
    {
      var found := FindWhere(tasks.rows, id, t => Owned(t, userId));
      if found.None? {
        return Some(Thrown(RuntimeException, NOT_FOUND_OR_DENIED));
      }
      if !HasUserId(accounts.users, userId) {
        return Some(Thrown(RuntimeException, USER_NOT_FOUND));
      }
      Store(found.value, Restoring(found.value, userId));
      thrown := None;
    }

    /** `permanentDelete(id, userId)`: only a trashed task of the user. */
    method PermanentDelete(id: int, userId: int) returns (thrown: Option<Thrown>)
      requires tasks.Valid()
      modifies tasks
      ensures tasks.Valid() && tasks.nextId == old(tasks.nextId)
      ensures FindWhere(old(tasks.rows), id, t => Trashed(t, userId)).None? ==>
                thrown == Some(Thrown(RuntimeException, NOT_FOUND_OR_DENIED)) && tasks.rows == old(tasks.rows)
      ensures FindWhere(old(tasks.rows), id, t => Trashed(t, userId)).Some? ==>
                thrown.None? && tasks.rows == Filter(old(tasks.rows), (t: TaskRecord) => t.id != Some(id))
    {
      var found := FindWhere(tasks.rows, id, t => Trashed(t, userId));
      if found.None? {
        return Some(Thrown(RuntimeException, NOT_FOUND_OR_DENIED));
      }
      ghost var before := tasks.rows;
      tasks.DeleteWhere((t: TaskRecord) => t.id == Some(id));
      FilterSame(before, t => !((t: TaskRecord) => t.id == Some(id))(t), (t: TaskRecord) => t.id != Some(id));
      thrown := None;
    }

    /** `emptyTrash(userId)`. */
    method EmptyTrash(userId: int) returns (thrown: Option<Thrown>)
      requires tasks.Valid()
      modifies tasks
      ensures tasks.Valid() && tasks.nextId == old(tasks.nextId)
      ensures GetTrashedTasks(old(tasks.rows), userId) == [] ==>
                thrown == Some(Thrown(RuntimeException, TRASH_EMPTY)) && tasks.rows == old(tasks.rows)
      ensures GetTrashedTasks(old(tasks.rows), userId) != [] ==>
                thrown.None? && tasks.rows == Filter(old(tasks.rows), t => !Trashed(t, userId))
    {
      var trashed := GetTrashedTasks(tasks.rows, userId);
      if trashed == [] {
        return Some(Thrown(RuntimeException, TRASH_EMPTY));
      }
      ghost var before := tasks.rows;
      tasks.DeleteWhere(t => Trashed(t, userId));
      FilterSame(before, t => !((t: TaskRecord) => Trashed(t, userId))(t), t => !Trashed(t, userId));
      thrown := None;
    }

    /** `markTask(id, userId)`. Its trash guard cannot fire: the lookup
        already excludes trashed tasks. */
    method MarkTask(id: int, userId: int, today: Day) returns (thrown: Option<Thrown>)
      requires tasks.Valid()
      modifies tasks
      ensures tasks.Valid() && tasks.nextId == old(tasks.nextId)
      ensures var found := FindByIdAndUserId(old(tasks.rows), id, userId);
              if found.None? then thrown == Some(Thrown(RuntimeException, NOT_FOUND_OR_DENIED)) && tasks.rows == old(tasks.rows)
              else if found.value.status == Some(COMPLETED) then thrown == Some(Thrown(IllegalStateException, ALREADY_COMPLETED)) && tasks.rows == old(tasks.rows)
              else thrown.None? && tasks.rows == PutRow(old(tasks.rows), Completing(found.value, today))
    {
      var found := FindByIdAndUserId(tasks.rows, id, userId);
      if found.None? {
        return Some(Thrown(RuntimeException, NOT_FOUND_OR_DENIED));
      }
      assert !found.value.deleted;
      if found.value.status == Some(COMPLETED) {
        return Some(Thrown(IllegalStateException, ALREADY_COMPLETED));
      }
      Store(found.value, Completing(found.value, today));
      thrown := None;
    }
  }

  // ----- list queries -----

  /** `getAllTasksByUser(userId)`. */
  function GetAllTasksByUser(rows: seq<TaskRecord>, userId: int): (r: seq<TaskRecord>)
    ensures forall t :: t in r <==> t in rows && Live(t, userId)
  {
    Filter(rows, t => Live(t, userId))
  }

  /** `getTrashedTasks(userId)`. */
  function GetTrashedTasks(rows: seq<TaskRecord>, userId: int): (r: seq<TaskRecord>)
    ensures forall t :: t in r <==> t in rows && Trashed(t, userId)
  {
    Filter(rows, t => Trashed(t, userId))
  }

  /** `getTasksDueToday(userId)`: live, due today, not completed. */
  function GetTasksDueToday(rows: seq<TaskRecord>, userId: int, today: Day): (r: seq<TaskRecord>)
    ensures forall t :: t in r <==> t in rows && !t.deleted && DueOn(t, userId, today, COMPLETED)
  {
    Filter(rows, (t: TaskRecord) => !t.deleted && DueOn(t, userId, today, COMPLETED))
  }

  /** `getUpcomingTasks(userId, days)`: live, due from today to `days` days
      on inclusive, not completed. */
  function GetUpcomingTasks(rows: seq<TaskRecord>, userId: int, today: Day, days: int): (r: seq<TaskRecord>)
    ensures forall t :: t in r <==> t in rows && !t.deleted && DueBetween(t, userId, today, today + days, COMPLETED)
  {
    Filter(rows, (t: TaskRecord) => !t.deleted && DueBetween(t, userId, today, today + days, COMPLETED))
  }

  /** `getOverdueTasks(userId)`: live, due before today, not completed. */
  function GetOverdueTasks(rows: seq<TaskRecord>, userId: int, today: Day): (r: seq<TaskRecord>)
    ensures forall t :: t in r <==> t in rows && !t.deleted && DueBefore(t, userId, today, COMPLETED)
  {
    Filter(rows, (t: TaskRecord) => !t.deleted && DueBefore(t, userId, today, COMPLETED))
  }

  /** `getUpcomingReminders(userId)`: the window `[now, now + 24 h]` of the
      repository query, trashed tasks dropped, order kept. */
  function GetUpcomingReminders(rows: seq<TaskRecord>, userId: int, now: Instant): (r: seq<TaskRecord>)
    ensures SortedBy(r, ReminderKey)
    ensures multiset(r)
            == multiset(Filter(rows, (t: TaskRecord) => !t.deleted && InReminderWindow(t, userId, now, now + 24 * SECONDS_PER_HOUR)))
    ensures forall t :: t in r <==> t in rows && !t.deleted && InReminderWindow(t, userId, now, now + 24 * SECONDS_PER_HOUR)
  {
    var upcoming := UpcomingForUser(rows, userId, now, now + 24 * SECONDS_PER_HOUR);
    FilterSorted(upcoming, (t: TaskRecord) => !t.deleted, ReminderKey);
    FilterKeepsMultiset(upcoming, Filter(rows, (t: TaskRecord) => InReminderWindow(t, userId, now, now + 24 * SECONDS_PER_HOUR)),
                        (t: TaskRecord) => !t.deleted);
    FilterBoth(rows, (t: TaskRecord) => InReminderWindow(t, userId, now, now + 24 * SECONDS_PER_HOUR), (t: TaskRecord) => !t.deleted,
               (t: TaskRecord) => !t.deleted && InReminderWindow(t, userId, now, now + 24 * SECONDS_PER_HOUR));
    Filter(upcoming, (t: TaskRecord) => !t.deleted)
  }

  /** The descending `createdAt` comparator of `getRecentTasks` as an
      ascending key. It is only used on lists whose every creation date is
      set, or on lists of at most one task, which are never compared. */
  function NewestFirst(t: TaskRecord): int {
    if t.createdAt.Some? then -t.createdAt.value else 0
  }

  /** The comparator dereferences the creation dates of both tasks it
      compares, and a sort of two or more tasks compares every one of them
      at least once; so the sort throws exactly when there are two or more
      tasks and one has no creation date. The sort runs over all the
      user's tasks before the limit is applied. */
  predicate RecentThrows(all: seq<TaskRecord>) {
    |all| >= 2 && exists i :: 0 <= i < |all| && all[i].createdAt.None?
  }

  /** What `getRecentTasks` hands back: the list, or the exception. */
  datatype RecentList = Recent(tasks: seq<TaskRecord>) | RecentFailed(thrown: Thrown)

  /** `getRecentTasks(userId, limit)`: the user's live tasks newest first,
      at most `limit` of them. A negative `limit` is refused by
      `Stream.limit` with an `IllegalArgumentException` naming it, as the
      pipeline is built and before anything is sorted; otherwise the
      comparator may throw its `NullPointerException`. */
  function GetRecentTasks(rows: seq<TaskRecord>, userId: int, limit: int): (r: RecentList)
    ensures r.RecentFailed? <==> limit < 0 || RecentThrows(GetAllTasksByUser(rows, userId))
    ensures limit < 0 ==> r == RecentFailed(Thrown(IllegalArgumentException, "-" + NatText(-limit)))
    ensures limit >= 0 && r.RecentFailed? ==> r.thrown.kind == NullPointerException
    ensures r.Recent? ==>
              |r.tasks| == (if limit < |GetAllTasksByUser(rows, userId)| then limit else |GetAllTasksByUser(rows, userId)|)
              && SortedBy(r.tasks, NewestFirst)
              && multiset(r.tasks) <= multiset(GetAllTasksByUser(rows, userId))
              && forall t :: t in r.tasks ==> t in rows && Live(t, userId)
  {
    var all := GetAllTasksByUser(rows, userId);
    if limit < 0 then RecentFailed(Thrown(IllegalArgumentException, "-" + NatText(-limit)))
    else if RecentThrows(all) then RecentFailed(Thrown(NullPointerException, ""))
    else
      var sorted := SortBy(all, NewestFirst);
      SortByMembers(all, NewestFirst);
      var r := Take(sorted, limit);
      assert sorted == r + sorted[|r|..];
      Recent(r)
  }

  /** When every live task is listed, the list is all of them, newest
      first. */
  lemma RecentListsAll(rows: seq<TaskRecord>, userId: int, limit: int)
    requires GetRecentTasks(rows, userId, limit).Recent?
    requires limit >= |GetAllTasksByUser(rows, userId)|
    ensures multiset(GetRecentTasks(rows, userId, limit).tasks) == multiset(GetAllTasksByUser(rows, userId))
  {
    var all := GetAllTasksByUser(rows, userId);
    var r := GetRecentTasks(rows, userId, limit).tasks;
    assert r == SortBy(all, NewestFirst);
  }

  /** With two or more live tasks the listed ones all have creation dates;
      none of the user's live tasks left out of the list is newer than one
      in it. */
  lemma RecentAreNewest(rows: seq<TaskRecord>, userId: int, limit: int, t: TaskRecord, i: int)
    requires GetRecentTasks(rows, userId, limit).Recent?
    requires t in rows && Live(t, userId)
    requires t !in GetRecentTasks(rows, userId, limit).tasks
    requires 0 <= i < |GetRecentTasks(rows, userId, limit).tasks|
    ensures t.createdAt.Some? && GetRecentTasks(rows, userId, limit).tasks[i].createdAt.Some?
    ensures GetRecentTasks(rows, userId, limit).tasks[i].createdAt.value >= t.createdAt.value
  {
    var all := GetAllTasksByUser(rows, userId);
    var sorted := SortBy(all, NewestFirst);
    var r := GetRecentTasks(rows, userId, limit).tasks;
    SortByMembers(all, NewestFirst);
    assert t in sorted;
    var j :| 0 <= j < |sorted| && sorted[j] == t;
    assert r == Take(sorted, limit);
    assert |r| <= j;
    assert r[i] == sorted[i];
    assert i < j < |all|;
    assert t in all && r[i] in all;
    assert NewestFirst(r[i]) <= NewestFirst(t);
  }

  // ----- getPagedTasks -----

  /** The filter the request selects: keyword present when non-blank. */
  predicate HasKeyword(keyword: Option<string>) {
    keyword.Some? && !IsBlank(keyword.value)
  }

  /** `...TitleContainingIgnoreCase(keyword)`; a null title never matches. */
  predicate TitleMatches(t: TaskRecord, keyword: string) {
    t.title.Some? && ContainsIgnoreCase(t.title.value, keyword)
  }

  /** The one conjunctive filter the eight branches of `getPagedTasks`
      agree with. */
  predicate Selected(t: TaskRecord, userId: int, status: Option<TaskStatus>, priority: Option<TaskPriority>, keyword: Option<string>) {
    Live(t, userId)
    && (status.Some? ==> t.status == status)
    && (priority.Some? ==> t.priority == priority)
    && (HasKeyword(keyword) ==> TitleMatches(t, keyword.value))
  }

  /** `getPagedTasks` before paging: the derived query its branch ladder
      picks, each a `findByUser_IdAndDeletedFalse...` filter. */
  function PagedSource(rows: seq<TaskRecord>, userId: int, status: Option<TaskStatus>,
                       priority: Option<TaskPriority>, keyword: Option<string>): seq<TaskRecord>
  {
    var hasStatus := status.Some?;
    var hasPriority := priority.Some?;
    var hasKeyword := HasKeyword(keyword);
    if hasStatus && hasPriority && hasKeyword then
      Filter(rows, t => Live(t, userId) && t.status == status && t.priority == priority && TitleMatches(t, keyword.value))
    else if hasStatus && hasPriority then
      Filter(rows, t => Live(t, userId) && t.status == status && t.priority == priority)
    else if hasStatus && hasKeyword then
      Filter(rows, t => Live(t, userId) && t.status == status && TitleMatches(t, keyword.value))
    else if hasPriority && hasKeyword then
      Filter(rows, t => Live(t, userId) && t.priority == priority && TitleMatches(t, keyword.value))
    else if hasStatus then
      Filter(rows, t => Live(t, userId) && t.status == status)
    else if hasPriority then
      Filter(rows, t => Live(t, userId) && t.priority == priority)
    else if hasKeyword then
      Filter(rows, t => Live(t, userId) && TitleMatches(t, keyword.value))
    else
      Filter(rows, t => Live(t, userId))
  }

  /** Whatever the combination of filters, the branch taken is the
      conjunction of exactly the filters present; with none it is every live
      task of the user. */
  lemma PagedSourceIsConjunction(rows: seq<TaskRecord>, userId: int, status: Option<TaskStatus>,
                                 priority: Option<TaskPriority>, keyword: Option<string>)
    ensures PagedSource(rows, userId, status, priority, keyword)
            == Filter(rows, t => Selected(t, userId, status, priority, keyword))
  {
    var hasStatus := status.Some?;
    var hasPriority := priority.Some?;
    var hasKeyword := HasKeyword(keyword);
    var sel := t => Selected(t, userId, status, priority, keyword);
    if hasStatus && hasPriority && hasKeyword {
      FilterSame(rows, t => Live(t, userId) && t.status == status && t.priority == priority && TitleMatches(t, keyword.value), sel);
    } else if hasStatus && hasPriority {
      FilterSame(rows, t => Live(t, userId) && t.status == status && t.priority == priority, sel);
    } else if hasStatus && hasKeyword {
      FilterSame(rows, t => Live(t, userId) && t.status == status && TitleMatches(t, keyword.value), sel);
    } else if hasPriority && hasKeyword {
      FilterSame(rows, t => Live(t, userId) && t.priority == priority && TitleMatches(t, keyword.value), sel);
    } else if hasStatus {
      FilterSame(rows, t => Live(t, userId) && t.status == status, sel);
    } else if hasPriority {
      FilterSame(rows, t => Live(t, userId) && t.priority == priority, sel);
    } else if hasKeyword {
      FilterSame(rows, t => Live(t, userId) && TitleMatches(t, keyword.value), sel);
    } else {
      FilterSame(rows, t => Live(t, userId), sel);
    }
  }

  /** One page of a result (`PageRequest.of(page, size)`). */
  datatype Page = Page(content: seq<TaskRecord>, totalPages: int)

  /** The number of pages of `size` rows that `n` rows fill. */
  function PageCount(n: nat, size: nat): (c: nat)
    requires size >= 1
    ensures c == 0 <==> n == 0
  {
    (n + size - 1) / size
  }

  /** A page starts beyond the last row exactly when its number is at least
      the page count. */
  lemma PastLastPage(n: nat, size: nat, page: nat)
    requires size >= 1
    ensures page * size >= n <==> page >= PageCount(n, size)
  {
    var c := PageCount(n, size);
    assert c * size <= n + size - 1 < c * size + size;
    if page >= c {
      assert page * size >= c * size by {
        MultiplyMonotone(c, page, size);
      }
    } else {
      assert page * size <= (c - 1) * size by {
        MultiplyMonotone(page, c - 1, size);
      }
    }
  }

  lemma MultiplyMonotone(a: nat, b: nat, k: nat)
    requires a <= b
    ensures a * k <= b * k
  {
  }

  /** `Page` of `PageRequest.of(page, size)` over `s`: the slice at offset
      `page * size` and the page count. A page past the last one is empty. */
  function PageOf(s: seq<TaskRecord>, page: nat, size: nat): (p: Page)
    requires size >= 1
    ensures |p.content| <= size
    ensures p.totalPages == PageCount(|s|, size)
    ensures p.content == [] <==> page * size >= |s|
    ensures p.content != [] ==>
              page * size + |p.content| <= |s| && p.content == s[page * size..page * size + |p.content|]
              && (|p.content| == size || page * size + |p.content| == |s|)
  {
    var start := page * size;
    if start >= |s| then
      Page([], PageCount(|s|, size))
    else
      var end := if start + size < |s| then start + size else |s|;
      Page(s[start..end], PageCount(|s|, size))
  }

  /** Every task on a page comes from the list it was cut from. */
  lemma PageMembers(s: seq<TaskRecord>, page: nat, size: nat)
    requires size >= 1
    ensures forall t :: t in PageOf(s, page, size).content ==> t in s
  {
    var p := PageOf(s, page, size);
    forall t | t in p.content ensures t in s {
      var i :| 0 <= i < |p.content| && p.content[i] == t;
      assert t == s[page * size + i];
    }
  }
}
