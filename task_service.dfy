/** The task service (backend/src/services/taskService.js): create, list,
    fetch, update and delete tasks under the owner-or-admin rule, and count
    the caller's tasks by status and by priority. */
module TaskService {
  import opened Domain
  import opened Query
  import opened Db

  const TaskNotFoundMsg: string := "Task not found"
  const NoAccessMsg: string := "You do not have access to this task"
  const UpdateDeniedMsg: string := "You can only update your own tasks"
  const DeleteDeniedMsg: string := "You can only delete your own tasks"
  const TaskDeletedMsg: string := "Task deleted successfully"

  /** The validated body of a create request. Its `owner`, if any, is
      ignored: the service always stamps the caller. */
  datatype TaskInput = TaskInput(
    title: string,
    description: string,
    status: string,
    priority: string,
    owner: Option<Id>,
    assignedTo: Option<Id>,
    dueDate: Option<int>)

  /** The body of an update request: the fields it carries, each `Some`
      (`Some(None)` clears an optional field). */
  datatype TaskPatch = TaskPatch(
    title: Option<string>,
    description: Option<string>,
    status: Option<string>,
    priority: Option<string>,
    owner: Option<Id>,
    assignedTo: Option<Option<Id>>,
    dueDate: Option<Option<int>>)

  /** The `status` and `priority` query parameters of a listing. */
  datatype TaskFilters = TaskFilters(status: Option<string>, priority: Option<string>)

  /** A task query document: an absent field places no constraint. */
  datatype TaskQuery = TaskQuery(owner: Option<Id>, status: Option<string>, priority: Option<string>)

  predicate Matches(q: TaskQuery, t: Task)
  {
    && (q.owner.Some? ==> t.owner == q.owner.value)
    && (q.status.Some? ==> t.status == q.status.value)
    && (q.priority.Some? ==> t.priority == q.priority.value)
  }

  /** The access rule shared by get, update and delete: an admin may touch
      any task, anyone else only a task they own.
      The source writes the owner test as
      `task.owner.toString() !== userId`, with `userId` the caller's id object
      rather than its string form; as written that strict comparison never
      finds the two equal. The model compares ids with plain equality. */
  predicate CanAccess(t: Task, userId: Id, role: string)
    ensures role == AdminRole ==> CanAccess(t, userId, role)
    ensures t.owner == userId ==> CanAccess(t, userId, role)
    ensures CanAccess(t, userId, role) && role != AdminRole ==> t.owner == userId
  {
    role == AdminRole || t.owner == userId
  }

  /** The equality filters a listing applies: each only when supplied. */
  predicate Selected(f: TaskFilters, t: Task)
  {
    && (Supplied(f.status) ==> t.status == f.status.value)
    && (Supplied(f.priority) ==> t.priority == f.priority.value)
  }

  function TaskStatus(t: Task): string { t.status }

  function TaskPriority(t: Task): string { t.priority }

  /** `role === 'admin' ? {} : { owner: userId }` */
  function ScopeQuery(userId: Id, role: string): (q: TaskQuery)
    ensures forall t :: Matches(q, t) <==> CanAccess(t, userId, role)
  {
    TaskQuery(if role == AdminRole then None else Some(userId), None, None)
  }

  /** The query `getAllTasks` builds step by step: the caller's scope, then
      each supplied filter. */
  function ListQuery(userId: Id, role: string, filters: TaskFilters): (q: TaskQuery)
    ensures forall t :: Matches(q, t) <==> CanAccess(t, userId, role) && Selected(filters, t)
  {
    var scoped := ScopeQuery(userId, role);
    var withStatus := if Supplied(filters.status) then scoped.(status := filters.status) else scoped;
    if Supplied(filters.priority) then withStatus.(priority := filters.priority) else withStatus
  }

  /** `Task.create({ ...taskData, owner: userId })`: the input's fields, the
      caller as owner whatever owner the input named, and the store's
      creation time. */
  method CreateTask(db: Store, input: TaskInput, userId: Id, now: int) returns (id: Id, task: Task)
    requires db.Valid()
    modifies db
    ensures db.Valid()
    ensures id !in old(db.tasks) && db.tasks == old(db.tasks)[id := task]
    ensures task.owner == userId && task.createdAt == now
    ensures && task.title == input.title && task.description == input.description
            && task.status == input.status && task.priority == input.priority
            && task.assignedTo == input.assignedTo && task.dueDate == input.dueDate
    ensures db.users == old(db.users)
  {
    id := db.NewId();
    task := Task(input.title, input.description, input.status, input.priority,
                 userId, input.assignedTo, input.dueDate, now);
    db.tasks := db.tasks[id := task];
  }

  /** `Task.find(query).sort({ createdAt: -1 })` for the caller: an admin
      sees every task, anyone else only their own, narrowed by the supplied
      filters; each such task once, newest first. */
  function GetAllTasks(db: Store, userId: Id, role: string, filters: TaskFilters): (r: seq<Id>)
    reads db
    requires db.Valid()
    ensures Distinct(r)
    ensures forall id :: id in r <==>
              id in db.tasks && CanAccess(db.tasks[id], userId, role) && Selected(filters, db.tasks[id])
    ensures NewestFirst(r, db.tasks, TaskCreatedAt)
  {
    Find(db.tasks, ListQuery(userId, role, filters), Matches, db.nextId, TaskCreatedAt)
  }

  /** Fetch, then check access: an absent task is reported before any
      access decision, and `denial` is the operation's own message. */
  function CheckAccess(tasks: map<Id, Task>, taskId: Id, userId: Id, role: string, denial: string): (r: Result<Task>)
    ensures (r.Err? && r.error.NotFound?) <==> taskId !in tasks
    ensures (r.Err? && r.error.Authorization?) <==>
              taskId in tasks && role != AdminRole && tasks[taskId].owner != userId
    ensures r.Err? ==> r.error == NotFound(TaskNotFoundMsg) || r.error == Authorization(denial)
    ensures r.Ok? ==> taskId in tasks && r.value == tasks[taskId]
  {
    if taskId !in tasks then Err(NotFound(TaskNotFoundMsg))
    else if !CanAccess(tasks[taskId], userId, role) then Err(Authorization(denial))
    else Ok(tasks[taskId])
  }

  function GetTaskById(db: Store, taskId: Id, userId: Id, role: string): (r: Result<Task>)
    reads db
    ensures (r.Err? && r.error.NotFound?) <==> taskId !in db.tasks
    ensures r == Err(Authorization(NoAccessMsg)) <==>
              taskId in db.tasks && role != AdminRole && db.tasks[taskId].owner != userId
    ensures r.Ok? <==> taskId in db.tasks && CanAccess(db.tasks[taskId], userId, role)
    ensures r.Ok? ==> r.value == db.tasks[taskId]
  {
    CheckAccess(db.tasks, taskId, userId, role, NoAccessMsg)
  }

  /** `Object.assign(task, updateData)`: every field the patch carries
      overwrites the task's; the others stay. */
  function ApplyPatch(t: Task, p: TaskPatch): (r: Task)
    ensures r.title == (if p.title.Some? then p.title.value else t.title)
    ensures r.description == (if p.description.Some? then p.description.value else t.description)
    ensures r.status == (if p.status.Some? then p.status.value else t.status)
    ensures r.priority == (if p.priority.Some? then p.priority.value else t.priority)
    ensures r.owner == (if p.owner.Some? then p.owner.value else t.owner)
    ensures r.assignedTo == (if p.assignedTo.Some? then p.assignedTo.value else t.assignedTo)
    ensures r.dueDate == (if p.dueDate.Some? then p.dueDate.value else t.dueDate)
    ensures r.createdAt == t.createdAt
  {
    Task(
      if p.title.Some? then p.title.value else t.title,
      if p.description.Some? then p.description.value else t.description,
      if p.status.Some? then p.status.value else t.status,
      if p.priority.Some? then p.priority.value else t.priority,
      if p.owner.Some? then p.owner.value else t.owner,
      if p.assignedTo.Some? then p.assignedTo.value else t.assignedTo,
      if p.dueDate.Some? then p.dueDate.value else t.dueDate,
      t.createdAt)
  }

  const EmptyPatch: TaskPatch := TaskPatch(None, None, None, None, None, None, None)

  /** Assigning the same patch twice changes nothing more; an empty patch
      changes nothing; a patch without an owner keeps the owner; the
      creation time never changes. */
  lemma ApplyPatchLaws(t: Task, p: TaskPatch)
    ensures ApplyPatch(ApplyPatch(t, p), p) == ApplyPatch(t, p)
    ensures ApplyPatch(t, EmptyPatch) == t
    ensures p.owner.None? ==> ApplyPatch(t, p).owner == t.owner
    ensures ApplyPatch(t, p).createdAt == t.createdAt
  {
  }

  method UpdateTask(db: Store, taskId: Id, patch: TaskPatch, userId: Id, role: string) returns (r: Result<Task>)
    requires db.Valid()
    modifies db
    ensures db.Valid() && db.users == old(db.users) && db.nextId == old(db.nextId)
    ensures r.Err? ==> r == CheckAccess(old(db.tasks), taskId, userId, role, UpdateDeniedMsg)
    ensures r.Err? ==> db.tasks == old(db.tasks)
    ensures r.Ok? <==> taskId in old(db.tasks) && CanAccess(old(db.tasks)[taskId], userId, role)
    ensures r.Ok? ==> && r.value == ApplyPatch(old(db.tasks)[taskId], patch)
                      && db.tasks == old(db.tasks)[taskId := r.value]
  {
    var found := CheckAccess(db.tasks, taskId, userId, role, UpdateDeniedMsg);
    if found.Err? {
      return found;
    }
    var task := ApplyPatch(found.value, patch);
    db.tasks := db.tasks[taskId := task];
    r := Ok(task);
  }

  method DeleteTask(db: Store, taskId: Id, userId: Id, role: string) returns (r: Result<string>)
    requires db.Valid()
    modifies db
    ensures db.Valid() && db.users == old(db.users) && db.nextId == old(db.nextId)
    ensures r.Err? ==> Err(r.error) == CheckAccess(old(db.tasks), taskId, userId, role, DeleteDeniedMsg)
    ensures r.Err? ==> db.tasks == old(db.tasks)
    ensures r.Ok? <==> taskId in old(db.tasks) && CanAccess(old(db.tasks)[taskId], userId, role)
    ensures r.Ok? ==> r.value == TaskDeletedMsg && db.tasks == old(db.tasks) - {taskId}
  {
    var found := CheckAccess(db.tasks, taskId, userId, role, DeleteDeniedMsg);
    if found.Err? {
      return Err(found.error);
    }
    db.tasks := db.tasks - {taskId};
    r := Ok(TaskDeletedMsg);
  }

  /** The two dictionaries `getTaskStats` returns. */
  datatype TaskStats = TaskStats(byStatus: map<string, nat>, byPriority: map<string, nat>)

  function StatusGroups(db: Store, userId: Id, role: string): seq<Bucket>
    reads db
    requires db.Valid()
  {
    GroupBy(db.tasks, ScopeQuery(userId, role), Matches, db.nextId, TaskStatus)
  }

  function PriorityGroups(db: Store, userId: Id, role: string): seq<Bucket>
    reads db
    requires db.Valid()
  {
    GroupBy(db.tasks, ScopeQuery(userId, role), Matches, db.nextId, TaskPriority)
  }

  /** Every count is at least 1 (a value no visible task has gets no key),
      and both dictionaries count the same tasks. */
  function GetTaskStats(db: Store, userId: Id, role: string): (r: TaskStats)
    reads db
    requires db.Valid()
    ensures forall k :: k in r.byStatus ==> r.byStatus[k] >= 1
    ensures forall k :: k in r.byPriority ==> r.byPriority[k] >= 1
    ensures MapSum(r.byStatus) == MapSum(r.byPriority)
  {
    var q := ScopeQuery(userId, role);
    var statuses := StatusGroups(db, userId, role);
    var priorities := PriorityGroups(db, userId, role);
    ReduceSum(statuses);
    ReduceSum(priorities);
    GroupByCounts(db.tasks, q, Matches, db.nextId, TaskStatus, "");
    GroupByCounts(db.tasks, q, Matches, db.nextId, TaskPriority, "");
    TaskStats(ReduceFrom(map[], statuses), ReduceFrom(map[], priorities))
  }

  /** The tasks the caller may see whose status (or priority) is `k`. */
  function VisibleWith(tasks: map<Id, Task>, userId: Id, role: string, f: Task -> string, k: string): set<Id>
  {
    set id | id in tasks && CanAccess(tasks[id], userId, role) && f(tasks[id]) == k
  }

  function Visible(tasks: map<Id, Task>, userId: Id, role: string): set<Id>
  {
    set id | id in tasks && CanAccess(tasks[id], userId, role)
  }

  lemma VisibleMatch(tasks: map<Id, Task>, userId: Id, role: string, f: Task -> string, k: string)
    ensures MatchingWith(tasks, ScopeQuery(userId, role), Matches, f, k) == VisibleWith(tasks, userId, role, f, k)
    ensures Matching(tasks, ScopeQuery(userId, role), Matches) == Visible(tasks, userId, role)
  {
  }

  lemma {:induction false} GroupCountsVisible(db: Store, userId: Id, role: string, f: Task -> string, k: string)
    requires db.Valid()
    ensures var g := GroupBy(db.tasks, ScopeQuery(userId, role), Matches, db.nextId, f);
            var r := ReduceFrom(map[], g);
            && (k in r <==> VisibleWith(db.tasks, userId, role, f, k) != {})
            && (k in r ==> r[k] == |VisibleWith(db.tasks, userId, role, f, k)|)
            && MapSum(r) == |Visible(db.tasks, userId, role)|
  {
    var q := ScopeQuery(userId, role);
    GroupByCounts(db.tasks, q, Matches, db.nextId, f, k);
    VisibleMatch(db.tasks, userId, role, f, k);
    ReduceSum(GroupBy(db.tasks, q, Matches, db.nextId, f));
  }

  /** Each key of `byStatus` (and of `byPriority`) is a value that at least
      one caller-visible task has, mapped to the number of such tasks; and
      the counts of each dictionary add up to the number of visible tasks. */
  lemma TaskStatsCounts(db: Store, userId: Id, role: string, k: string)
    requires db.Valid()
    ensures var r := GetTaskStats(db, userId, role);
            && (k in r.byStatus <==> VisibleWith(db.tasks, userId, role, TaskStatus, k) != {})
            && (k in r.byStatus ==> r.byStatus[k] == |VisibleWith(db.tasks, userId, role, TaskStatus, k)|)
            && (k in r.byPriority <==> VisibleWith(db.tasks, userId, role, TaskPriority, k) != {})
            && (k in r.byPriority ==> r.byPriority[k] == |VisibleWith(db.tasks, userId, role, TaskPriority, k)|)
            && MapSum(r.byStatus) == |Visible(db.tasks, userId, role)|
            && MapSum(r.byPriority) == |Visible(db.tasks, userId, role)|
  {
    GroupCountsVisible(db, userId, role, TaskStatus, k);
    GroupCountsVisible(db, userId, role, TaskPriority, k);
  }
}
