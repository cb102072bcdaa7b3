/** The older task service of `Service/TaskService.java`, over the same
    `task` table: completion by identity alone, the paged search with no
    owner or trash condition, and the due-date lists across every owner. */
module LegacyTasks {
  import opened Common
  import opened TaskEntity
  import opened TaskQueries
  import Tasks

  /** The message `markTask` throws for a task that is already completed. */
  const ALREADY_COMPLETED: string := "Task is already completed and cannot be marked again."

  /** Why `markTask` refuses the row its lookup found, if it does: no row,
      a null status (dereferenced by `getStatus().equals`), or a completed
      one. The message of the null dereference is not modelled. */
  function MarkRefusal(found: Option<TaskRecord>): (r: Option<Thrown>)
    ensures r.None? <==> found.Some? && StatusNot(found.value, COMPLETED)
  {
    if found.None? then Some(Thrown(RuntimeException, Tasks.TASK_NOT_FOUND))
    else if found.value.status.None? then Some(Thrown(NullPointerException, ""))
    else if found.value.status == Some(COMPLETED) then Some(Thrown(IllegalStateException, ALREADY_COMPLETED))
    else None
  }

  /** Putting a row whose identity is stored makes it the row found. */
  lemma {:induction false} FindAfterPut(rows: seq<TaskRecord>, r: TaskRecord, id: int)
    requires r.id == Some(id) && FindById(rows, id).Some?
    ensures FindById(PutRow(rows, r), id) == Some(r)
  {
    var put := PutRow(rows, r);
    if rows[0].id != Some(id) {
      assert put[0] == rows[0];
      assert put[1..] == PutRow(rows[1..], r);
      FindAfterPut(rows[1..], r, id);
    }
  }

  /** The legacy service; it reaches the table only through the repository. */
  class LegacyTaskService {
    const tasks: TaskTable

    constructor (tasks: TaskTable)
      ensures this.tasks == tasks
    {
      this.tasks := tasks;
    }

    /** `markTask(id)`: the row is looked up by identity alone, so a task of
        any owner, trashed or not, is completed alike. A refused task is not
        saved; an accepted one is saved once, merged onto its row. */
    method MarkTask(id: int, today: Day) returns (thrown: Option<Thrown>)
      requires tasks.Valid()
      modifies tasks
      ensures tasks.Valid() && tasks.nextId == old(tasks.nextId)
      ensures thrown == MarkRefusal(FindById(old(tasks.rows), id))
      ensures thrown.Some? ==> tasks.rows == old(tasks.rows)
      ensures thrown.None? ==>
                tasks.rows == PutRow(old(tasks.rows), Tasks.Completing(FindById(old(tasks.rows), id).value, today))
    {
      var found := FindById(tasks.rows, id);
      if found.None? {
        return Some(Thrown(RuntimeException, Tasks.TASK_NOT_FOUND));
      }
      var task := found.value;
      if task.status.None? {
        return Some(Thrown(NullPointerException, ""));
      }
      if task.status == Some(COMPLETED) {
        return Some(Thrown(IllegalStateException, ALREADY_COMPLETED));
      }
      Tasks.StoredRow(tasks.rows, tasks.nextId, task);
      var entity := new Task.FromRecord(Tasks.Completing(task, today));
      var failure := tasks.Save(entity, today);
      thrown := None;
    }
  }

  /** A task just marked is found completed, so marking it again is refused
      with the `IllegalStateException`. */
  lemma MarkTwiceRefused(rows: seq<TaskRecord>, id: int, today: Day, later: Day)
    requires MarkRefusal(FindById(rows, id)).None?
    ensures var marked := Tasks.Completing(FindById(rows, id).value, today);
            FindById(PutRow(rows, marked), id) == Some(marked)
            && MarkRefusal(FindById(PutRow(rows, marked), id)) == Some(Thrown(IllegalStateException, ALREADY_COMPLETED))
  {
    FindAfterPut(rows, Tasks.Completing(FindById(rows, id).value, today), id);
  }

  // ----- getPagedTasks -----

  /** The one conjunctive filter the eight branches of `getPagedTasks`
      agree with; neither the owner nor the trash flag takes part. */
  predicate Matches(t: TaskRecord, status: Option<TaskStatus>, priority: Option<TaskPriority>, keyword: Option<string>) {
    (status.Some? ==> t.status == status)
    && (priority.Some? ==> t.priority == priority)
    && (Tasks.HasKeyword(keyword) ==> Tasks.TitleMatches(t, keyword.value))
  }

  /** `getPagedTasks` before paging: the derived query its branch ladder
      picks, `findAll` when no filter is present. */
  function PagedSource(rows: seq<TaskRecord>, status: Option<TaskStatus>,
                       priority: Option<TaskPriority>, keyword: Option<string>): seq<TaskRecord>
  {
    var hasStatus := status.Some?;
    var hasPriority := priority.Some?;
    var hasKeyword := Tasks.HasKeyword(keyword);
    if hasStatus && hasPriority && hasKeyword then
      Filter(rows, (t: TaskRecord) => t.status == status && t.priority == priority && Tasks.TitleMatches(t, keyword.value))
    else if hasStatus && hasPriority then
      Filter(rows, (t: TaskRecord) => t.status == status && t.priority == priority)
    else if hasStatus && hasKeyword then
      Filter(rows, (t: TaskRecord) => t.status == status && Tasks.TitleMatches(t, keyword.value))
    else if hasPriority && hasKeyword then
      Filter(rows, (t: TaskRecord) => t.priority == priority && Tasks.TitleMatches(t, keyword.value))
    else if hasStatus then
      Filter(rows, (t: TaskRecord) => t.status == status)
    else if hasPriority then
      Filter(rows, (t: TaskRecord) => t.priority == priority)
    else if hasKeyword then
      Filter(rows, t => Tasks.TitleMatches(t, keyword.value))
    else
      rows
  }

  /** Whatever the combination of filters, the branch taken is the
      conjunction of exactly the filters present; with none it is the whole
      table. */
  lemma PagedSourceIsConjunction(rows: seq<TaskRecord>, status: Option<TaskStatus>,
                                 priority: Option<TaskPriority>, keyword: Option<string>)
    ensures PagedSource(rows, status, priority, keyword)
            == Filter(rows, t => Matches(t, status, priority, keyword))
    ensures status.None? && priority.None? && !Tasks.HasKeyword(keyword) ==>
              PagedSource(rows, status, priority, keyword) == rows
  {
    var hasStatus := status.Some?;
    var hasPriority := priority.Some?;
    var hasKeyword := Tasks.HasKeyword(keyword);
    var sel := (t: TaskRecord) => Matches(t, status, priority, keyword);
    if hasStatus && hasPriority && hasKeyword {
      FilterSame(rows, (t: TaskRecord) => t.status == status && t.priority == priority && Tasks.TitleMatches(t, keyword.value), sel);
    } else if hasStatus && hasPriority {
      FilterSame(rows, (t: TaskRecord) => t.status == status && t.priority == priority, sel);
    } else if hasStatus && hasKeyword {
      FilterSame(rows, (t: TaskRecord) => t.status == status && Tasks.TitleMatches(t, keyword.value), sel);
    } else if hasPriority && hasKeyword {
      FilterSame(rows, (t: TaskRecord) => t.priority == priority && Tasks.TitleMatches(t, keyword.value), sel);
    } else if hasStatus {
      FilterSame(rows, (t: TaskRecord) => t.status == status, sel);
    } else if hasPriority {
      FilterSame(rows, (t: TaskRecord) => t.priority == priority, sel);
    } else if hasKeyword {
      FilterSame(rows, t => Tasks.TitleMatches(t, keyword.value), sel);
    } else {
      FilterAll(rows, sel);
    }
  }

  /** `getPagedTasks(PageRequest.of(page, size), status, priority, keyword)`:
      one page of the rows every present filter accepts, of any owner: the
      slice of them at offset `page * size`, in table order. */
  function GetPagedTasks(rows: seq<TaskRecord>, page: nat, size: nat, status: Option<TaskStatus>,
                         priority: Option<TaskPriority>, keyword: Option<string>): (p: Tasks.Page)
    requires size >= 1
    ensures var all := Filter(rows, t => Matches(t, status, priority, keyword));
            p.totalPages == Tasks.PageCount(|all|, size)
            && (p.content == [] <==> page * size >= |all|)
            && |p.content| <= size
            && (forall i :: 0 <= i < |p.content| ==> p.content[i] in rows && Matches(p.content[i], status, priority, keyword))
            && p == Tasks.PageOf(all, page, size)
  {
    PagedSourceIsConjunction(rows, status, priority, keyword);
    var source := PagedSource(rows, status, priority, keyword);
    Tasks.PageMembers(source, page, size);
    Tasks.PageOf(source, page, size)
  }

  /** The per-user search is the legacy one restricted to the user's live
      tasks. */
  lemma ScopedSearch(rows: seq<TaskRecord>, userId: int, status: Option<TaskStatus>,
                     priority: Option<TaskPriority>, keyword: Option<string>)
    ensures Tasks.PagedSource(rows, userId, status, priority, keyword)
            == Filter(PagedSource(rows, status, priority, keyword), (t: TaskRecord) => Tasks.Live(t, userId))
  {
    Tasks.PagedSourceIsConjunction(rows, userId, status, priority, keyword);
    PagedSourceIsConjunction(rows, status, priority, keyword);
    FilterBoth(rows, (t: TaskRecord) => Matches(t, status, priority, keyword), (t: TaskRecord) => Tasks.Live(t, userId),
               (t: TaskRecord) => Tasks.Selected(t, userId, status, priority, keyword));
  }

  // ----- due-date lists -----

  /** `getTasksDueToday()`: every owner's tasks due today and not completed. */
  function GetTasksDueToday(rows: seq<TaskRecord>, today: Day): (r: seq<TaskRecord>)
    ensures forall t :: t in r <==> t in rows && DatedOn(t, today) && StatusNot(t, COMPLETED)
  {
    Filter(rows, t => DatedOn(t, today) && StatusNot(t, COMPLETED))
  }

  /** `getUpcomingTasks(days)`: due from today to `days` days ahead, both
      ends included, and not completed. */
  function GetUpcomingTasks(rows: seq<TaskRecord>, today: Day, days: int): (r: seq<TaskRecord>)
    ensures forall t :: t in r <==> t in rows && DatedBetween(t, today, today + days) && StatusNot(t, COMPLETED)
  {
    Filter(rows, t => DatedBetween(t, today, today + days) && StatusNot(t, COMPLETED))
  }

  /** `getOverdueTasks()`: due strictly before today and not completed. */
  function GetOverdueTasks(rows: seq<TaskRecord>, today: Day): (r: seq<TaskRecord>)
    ensures forall t :: t in r <==> t in rows && DatedBefore(t, today) && StatusNot(t, COMPLETED)
  {
    Filter(rows, t => DatedBefore(t, today) && StatusNot(t, COMPLETED))
  }

  /** An overdue task is never upcoming, and with a horizon of zero days or
      more every task due today is upcoming. */
  lemma DueListsAgree(rows: seq<TaskRecord>, today: Day, days: int, t: TaskRecord)
    ensures !(t in GetOverdueTasks(rows, today) && t in GetUpcomingTasks(rows, today, days))
    ensures days >= 0 && t in GetTasksDueToday(rows, today) ==> t in GetUpcomingTasks(rows, today, days)
  {
  }

  /** The per-user lists are the legacy ones restricted to the user's live
      tasks. */
  lemma ScopedDueToday(rows: seq<TaskRecord>, userId: int, today: Day)
    ensures Tasks.GetTasksDueToday(rows, userId, today)
            == Filter(GetTasksDueToday(rows, today), (t: TaskRecord) => Tasks.Live(t, userId))
  {
    FilterBoth(rows, (t: TaskRecord) => DatedOn(t, today) && StatusNot(t, COMPLETED), (t: TaskRecord) => Tasks.Live(t, userId),
               (t: TaskRecord) => !t.deleted && DueOn(t, userId, today, COMPLETED));
  }

  lemma ScopedOverdue(rows: seq<TaskRecord>, userId: int, today: Day)
    ensures Tasks.GetOverdueTasks(rows, userId, today)
            == Filter(GetOverdueTasks(rows, today), (t: TaskRecord) => Tasks.Live(t, userId))
  {
    FilterBoth(rows, (t: TaskRecord) => DatedBefore(t, today) && StatusNot(t, COMPLETED), (t: TaskRecord) => Tasks.Live(t, userId),
               (t: TaskRecord) => !t.deleted && DueBefore(t, userId, today, COMPLETED));
  }

  lemma ScopedUpcoming(rows: seq<TaskRecord>, userId: int, today: Day, days: int)
    ensures Tasks.GetUpcomingTasks(rows, userId, today, days)
            == Filter(GetUpcomingTasks(rows, today, days), (t: TaskRecord) => Tasks.Live(t, userId))
  {
    FilterBoth(rows, (t: TaskRecord) => DatedBetween(t, today, today + days) && StatusNot(t, COMPLETED), (t: TaskRecord) => Tasks.Live(t, userId),
               (t: TaskRecord) => !t.deleted && DueBetween(t, userId, today, today + days, COMPLETED));
  }
}
