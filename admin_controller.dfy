/** The admin controller (backend/src/controllers/adminController.js).
    Every admin route sits behind `protect` and `authorize('admin')`, so
    each operation here may take its caller to be an active admin. */
module AdminController {
  import opened Domain
  import opened Query
  import opened Db
  import opened TaskService

  const UserNotFoundMsg: string := "User not found"
  const InvalidRoleMsg: string := "Invalid role. Must be \"user\" or \"admin\""
  const SelfDemotionMsg: string := "Cannot demote yourself"
  const SelfDeletionMsg: string := "Cannot delete yourself"
  const UserDeletedMsg: string := "User and associated tasks deleted successfully"

  /** The window of `recentSignups`, in milliseconds. */
  const WeekMs: int := 7 * 24 * 60 * 60 * 1000

  /** The four task statuses the user detail always reports. */
  const StatusNames: seq<string> := ["pending", "in-progress", "completed", "cancelled"]

  /** The roles `updateUserRole` accepts. */
  const Roles: seq<string> := [UserRole, AdminRole]

  // ---------------------------------------------------------------------
  // getAllUsers

  /** The `search` and `role` query parameters. Matching a search string,
      which the database reads as a case-insensitive regular expression,
      is foreign: `regex(pattern, text)` says whether it matches. */
  datatype UserQuery = UserQuery(search: Option<string>, role: Option<string>, regex: (string, string) -> bool)

  /** The `$or` over name and email when a search is given, and the role
      equality when a role is given. */
  predicate UserMatches(q: UserQuery, u: User)
    ensures !Supplied(q.search) && !Supplied(q.role) ==> UserMatches(q, u)
    ensures UserMatches(q, u) && Supplied(q.role) ==> u.role == q.role.value
    ensures UserMatches(q, u) && Supplied(q.search) ==>
              q.regex(q.search.value, u.name) || q.regex(q.search.value, u.email)
  {
    && (Supplied(q.search) ==> q.regex(q.search.value, u.name) || q.regex(q.search.value, u.email))
    && (Supplied(q.role) ==> u.role == q.role.value)
  }

  /** Every matching user once, newest first. */
  function UserListing(db: Store, q: UserQuery): (r: seq<Id>)
    reads db
    requires db.Valid()
    ensures Distinct(r)
    ensures forall id :: id in r <==> id in db.users && UserMatches(q, db.users[id])
    ensures |r| == |Matching(db.users, q, UserMatches)|
    ensures NewestFirst(r, db.users, UserCreatedAt)
  {
    Find(db.users, q, UserMatches, db.nextId, UserCreatedAt)
  }

  /** One page of the user listing, with the count of all matches and the
      number of pages. */
  function GetAllUsers(db: Store, page: nat, limit: nat, q: UserQuery): (r: Paged)
    reads db
    requires db.Valid() && page >= 1 && limit >= 1
    ensures PageOf(r, UserListing(db, q), page, limit)
    ensures r.pagination.total == |Matching(db.users, q, UserMatches)|
  {
    Paginate(UserListing(db, q), page, limit)
  }

  // ---------------------------------------------------------------------
  // getUserById

  datatype UserDetail = UserDetail(user: User, taskStats: map<string, nat>)

  function DefaultStats(): (d: map<string, nat>)
    ensures d.Keys == set k | k in StatusNames
    ensures forall k :: k in d ==> d[k] == 0
  {
    map["pending" := 0, "in-progress" := 0, "completed" := 0, "cancelled" := 0]
  }

  function OwnerQuery(owner: Id): (q: TaskQuery)
    ensures forall t :: Matches(q, t) <==> t.owner == owner
  {
    TaskQuery(Some(owner), None, None)
  }

  /** The tasks `owner` owns whose status is `k`. */
  function OwnedWith(tasks: map<Id, Task>, owner: Id, k: string): set<Id>
  {
    set id | id in tasks && tasks[id].owner == owner && tasks[id].status == k
  }

  /** Folding one more bucket into a dictionary sets that one key. */
  lemma {:induction false} ReduceSnoc(acc: map<string, nat>, g: seq<Bucket>, b: Bucket)
    ensures ReduceFrom(acc, g + [b]) == ReduceFrom(acc, g)[b.key := b.count]
    decreases |g|
  {
    if g == [] {
      assert [b][1..] == [];
    } else {
      assert (g + [b])[1..] == g[1..] + [b];
      ReduceSnoc(acc[g[0].key := g[0].count], g[1..], b);
    }
  }

  lemma ReduceStep(acc: map<string, nat>, g: seq<Bucket>, i: nat)
    requires i < |g|
    ensures ReduceFrom(acc, g[..i + 1]) == ReduceFrom(acc, g[..i])[g[i].key := g[i].count]
  {
    assert g[..i + 1] == g[..i] + [g[i]];
    ReduceSnoc(acc, g[..i], g[i]);
  }

  lemma OwnedWithMatch(tasks: map<Id, Task>, owner: Id, k: string)
    ensures MatchingWith(tasks, OwnerQuery(owner), Matches, TaskStatus, k) == OwnedWith(tasks, owner, k)
  {
  }

  /** Filling the default dictionary from the per-status buckets of one
      owner's tasks gives, for every status, that owner's count. */
  lemma FilledStats(tasks: map<Id, Task>, owner: Id, n: nat, k: string)
    requires forall id :: id in tasks ==> id < n
    ensures var s := ReduceFrom(DefaultStats(), GroupBy(tasks, OwnerQuery(owner), Matches, n, TaskStatus));
            && (k in s <==> k in StatusNames || OwnedWith(tasks, owner, k) != {})
            && (k in s ==> s[k] == |OwnedWith(tasks, owner, k)|)
  {
    var g := GroupBy(tasks, OwnerQuery(owner), Matches, n, TaskStatus);
    GroupByCounts(tasks, OwnerQuery(owner), Matches, n, TaskStatus, k);
    OwnedWithMatch(tasks, owner, k);
  }

  /** The user, and for each status the number of the user's tasks with it:
      the four known statuses are always present, 0 when the user has no
      such task. */
  method GetUserById(db: Store, id: Id) returns (r: Result<UserDetail>)
    requires db.Valid()
    ensures r.Err? <==> id !in db.users
    ensures r.Err? ==> r.error == NotFound(UserNotFoundMsg)
    ensures r.Ok? ==> r.value.user == db.users[id]
    ensures r.Ok? ==> forall k :: k in StatusNames ==> k in r.value.taskStats
    ensures r.Ok? ==> forall k :: k in r.value.taskStats ==> r.value.taskStats[k] == |OwnedWith(db.tasks, id, k)|
    ensures r.Ok? ==> forall k :: k in r.value.taskStats <==> k in StatusNames || OwnedWith(db.tasks, id, k) != {}
  {
    if id !in db.users {
      return Err(NotFound(UserNotFoundMsg));
    }
    var user := db.users[id];
    var taskStats := GroupBy(db.tasks, OwnerQuery(id), Matches, db.nextId, TaskStatus);
    var stats := DefaultStats();
    var i := 0;
    while i < |taskStats|
      invariant 0 <= i <= |taskStats|
      invariant stats == ReduceFrom(DefaultStats(), taskStats[..i])
    {
      ReduceStep(DefaultStats(), taskStats, i);
      stats := stats[taskStats[i].key := taskStats[i].count];
      i := i + 1;
    }
    assert stats == ReduceFrom(DefaultStats(), taskStats) by {
      assert taskStats[..i] == taskStats;
    }
    forall k
      ensures (k in stats <==> k in StatusNames || OwnedWith(db.tasks, id, k) != {})
      ensures k in stats ==> stats[k] == |OwnedWith(db.tasks, id, k)|
    {
      FilledStats(db.tasks, id, db.nextId, k);
    }
    r := Ok(UserDetail(user, stats));
  }

  // ---------------------------------------------------------------------
  // updateUserRole

  method UpdateUserRole(db: Store, callerId: Id, targetId: Id, role: Option<string>) returns (r: Result<User>)
    requires db.Valid() && IsActiveAdmin(db.users, callerId)
    modifies db
    ensures db.Valid() && db.tasks == old(db.tasks) && db.nextId == old(db.nextId)
    ensures (role.None? || role.value !in Roles) ==> r == Err(Validation(InvalidRoleMsg))
    ensures role.Some? && role.value in Roles && targetId !in old(db.users) ==>
              r == Err(NotFound(UserNotFoundMsg))
    ensures role == Some(UserRole) && targetId == callerId ==> r == Err(Validation(SelfDemotionMsg))
    ensures r.Err? ==> db.users == old(db.users)
    ensures r.Ok? <==> && role.Some? && role.value in Roles && targetId in old(db.users)
                       && !(targetId == callerId && role.value == UserRole)
    ensures r.Ok? ==> && r.value == old(db.users)[targetId].(role := role.value)
                      && db.users == old(db.users)[targetId := r.value]
    ensures IsActiveAdmin(db.users, callerId)
  {
    if role.None? || role.value !in Roles {
      return Err(Validation(InvalidRoleMsg));
    }
    if targetId !in db.users {
      return Err(NotFound(UserNotFoundMsg));
    }
    var user := db.users[targetId];
    if targetId == callerId && role.value == UserRole {
      return Err(Validation(SelfDemotionMsg));
    }
    user := user.(role := role.value);
    db.users := db.users[targetId := user];
    r := Ok(user);
  }

  // ---------------------------------------------------------------------
  // deleteUser

  /** `Task.deleteMany({ owner })`: the tasks of every other owner, as they were. */
  function WithoutOwner(tasks: map<Id, Task>, owner: Id): (r: map<Id, Task>)
    ensures forall id :: id in r <==> id in tasks && tasks[id].owner != owner
    ensures forall id :: id in r ==> r[id] == tasks[id]
  {
    map id | id in tasks && tasks[id].owner != owner :: tasks[id]
  }

  method DeleteUser(db: Store, callerId: Id, targetId: Id) returns (r: Result<string>)
    requires db.Valid() && IsActiveAdmin(db.users, callerId)
    modifies db
    ensures db.Valid() && db.nextId == old(db.nextId)
    ensures targetId !in old(db.users) ==> r == Err(NotFound(UserNotFoundMsg))
    ensures targetId in old(db.users) && targetId == callerId ==> r == Err(Validation(SelfDeletionMsg))
    ensures r.Err? ==> db.users == old(db.users) && db.tasks == old(db.tasks)
    ensures r.Ok? <==> targetId in old(db.users) && targetId != callerId
    ensures r.Ok? ==> && r.value == UserDeletedMsg
                      && db.users == old(db.users) - {targetId}
                      && db.tasks == WithoutOwner(old(db.tasks), targetId)
    ensures forall id :: r.Ok? && id in db.tasks ==> db.tasks[id].owner != targetId
    ensures IsActiveAdmin(db.users, callerId)
  {
    if targetId !in db.users {
      return Err(NotFound(UserNotFoundMsg));
    }
    if targetId == callerId {
      return Err(Validation(SelfDeletionMsg));
    }
    db.tasks := WithoutOwner(db.tasks, targetId);
    db.users := db.users - {targetId};
    r := Ok(UserDeletedMsg);
  }

  // ---------------------------------------------------------------------
  // getAllTasks (admin view) and getTasksByUser

  /** The `status`, `priority` and `userId` query parameters. */
  datatype AdminTaskFilters = AdminTaskFilters(status: Option<string>, priority: Option<string>, userId: Option<Id>)

  /** Only the supplied filters become equality constraints; there is no
      ownership scope. */
  function AdminTaskQuery(f: AdminTaskFilters): (q: TaskQuery)
    ensures forall t :: Matches(q, t) <==>
              && (Supplied(f.status) ==> t.status == f.status.value)
              && (Supplied(f.priority) ==> t.priority == f.priority.value)
              && (f.userId.Some? ==> t.owner == f.userId.value)
  {
    TaskQuery(f.userId,
              if Supplied(f.status) then f.status else None,
              if Supplied(f.priority) then f.priority else None)
  }

  function TaskListing(db: Store, f: AdminTaskFilters): (r: seq<Id>)
    reads db
    requires db.Valid()
    ensures Distinct(r)
    ensures forall id :: id in r <==> id in db.tasks && Matches(AdminTaskQuery(f), db.tasks[id])
    ensures |r| == |Matching(db.tasks, AdminTaskQuery(f), Matches)|
    ensures NewestFirst(r, db.tasks, TaskCreatedAt)
  {
    Find(db.tasks, AdminTaskQuery(f), Matches, db.nextId, TaskCreatedAt)
  }

  function GetAllTasks(db: Store, page: nat, limit: nat, f: AdminTaskFilters): (r: Paged)
    reads db
    requires db.Valid() && page >= 1 && limit >= 1
    ensures PageOf(r, TaskListing(db, f), page, limit)
    ensures r.pagination.total == |Matching(db.tasks, AdminTaskQuery(f), Matches)|
  {
    Paginate(TaskListing(db, f), page, limit)
  }

  datatype UserTasks = UserTasks(id: Id, name: string, email: string, tasks: seq<Id>)

  function GetTasksByUser(db: Store, userId: Id): (r: Result<UserTasks>)
    reads db
    requires db.Valid()
    ensures r.Err? <==> userId !in db.users
    ensures r.Err? ==> r.error == NotFound(UserNotFoundMsg)
    ensures r.Ok? ==> && r.value.id == userId
                      && r.value.name == db.users[userId].name
                      && r.value.email == db.users[userId].email
    ensures r.Ok? ==> && Distinct(r.value.tasks)
                      && (forall id :: id in r.value.tasks <==> id in db.tasks && db.tasks[id].owner == userId)
                      && NewestFirst(r.value.tasks, db.tasks, TaskCreatedAt)
  {
    if userId !in db.users then Err(NotFound(UserNotFoundMsg))
    else
      var user := db.users[userId];
      Ok(UserTasks(userId, user.name, user.email,
                   Find(db.tasks, OwnerQuery(userId), Matches, db.nextId, TaskCreatedAt)))
  }

  // ---------------------------------------------------------------------
  // getPlatformStats

  datatype UserCounts = UserCounts(total: nat, admins: nat, regularUsers: nat, recentSignups: nat)

  datatype TaskCounts = TaskCounts(total: nat, pending: nat, inProgress: nat, completed: nat, cancelled: nat)

  /** `completionRate` is the percentage of completed tasks, or 0 with no
      tasks. */
  datatype Overview = Overview(totalUsers: nat, totalTasks: nat, completionRate: real)

  datatype PlatformStats = PlatformStats(users: UserCounts, tasks: TaskCounts, overview: Overview)

  predicate EveryUser(q: (), u: User) { true }

  predicate EveryTask(q: (), t: Task) { true }

  predicate JoinedSince(since: int, u: User) { u.createdAt >= since }

  function RoleOf(u: User): string { u.role }

  function CompletionRate(completed: nat, total: nat): real
  {
    if total > 0 then (completed as real / total as real) * 100.0 else 0.0
  }

  /** `now` is the clock reading `Date.now()`. The overview repeats the
      user and task totals, and the week's signups are some of the users;
      the lemmas below give every count exactly. */
  function GetPlatformStats(db: Store, now: int): (r: PlatformStats)
    reads db
    requires db.Valid()
    ensures r.users.total == r.overview.totalUsers == |db.users|
    ensures r.tasks.total == r.overview.totalTasks == |db.tasks|
    ensures r.users.recentSignups <= r.users.total
  {
    SubsetCard(Matching(db.users, now - WeekMs, JoinedSince), db.users.Keys);
    var userStats := GroupBy(db.users, (), EveryUser, db.nextId, RoleOf);
    var taskStats := GroupBy(db.tasks, (), EveryTask, db.nextId, TaskStatus);
    var recentUsers := |Matching(db.users, now - WeekMs, JoinedSince)|;
    var totalUsers := |db.users|;
    var totalTasks := |db.tasks|;
    var users := UserCounts(totalUsers, CountOf(userStats, AdminRole), CountOf(userStats, UserRole), recentUsers);
    var tasks := TaskCounts(totalTasks, CountOf(taskStats, "pending"), CountOf(taskStats, "in-progress"),
                            CountOf(taskStats, "completed"), CountOf(taskStats, "cancelled"));
    PlatformStats(users, tasks, Overview(totalUsers, totalTasks, CompletionRate(tasks.completed, totalTasks)))
  }

  function UsersWithRole(users: map<Id, User>, role: string): set<Id>
  {
    set id | id in users && users[id].role == role
  }

  function TasksWithStatus(tasks: map<Id, Task>, status: string): set<Id>
  {
    set id | id in tasks && tasks[id].status == status
  }

  lemma UserGroupCount(db: Store, role: string)
    requires db.Valid()
    ensures CountOf(GroupBy(db.users, (), EveryUser, db.nextId, RoleOf), role) == |UsersWithRole(db.users, role)|
  {
    GroupByCounts(db.users, (), EveryUser, db.nextId, RoleOf, role);
    UsersWithRoleMatch(db.users, role);
  }

  lemma UsersWithRoleMatch(users: map<Id, User>, role: string)
    ensures MatchingWith(users, (), EveryUser, RoleOf, role) == UsersWithRole(users, role)
  {
  }

  lemma TaskGroupCount(db: Store, status: string)
    requires db.Valid()
    ensures CountOf(GroupBy(db.tasks, (), EveryTask, db.nextId, TaskStatus), status) == |TasksWithStatus(db.tasks, status)|
  {
    GroupByCounts(db.tasks, (), EveryTask, db.nextId, TaskStatus, status);
    TasksWithStatusMatch(db.tasks, status);
  }

  lemma TasksWithStatusMatch(tasks: map<Id, Task>, status: string)
    ensures MatchingWith(tasks, (), EveryTask, TaskStatus, status) == TasksWithStatus(tasks, status)
  {
  }

  /** The user counts: every user, those with each role, and those who
      signed up in the week before `now`. */
  lemma PlatformUserCounts(db: Store, now: int)
    requires db.Valid()
    ensures var r := GetPlatformStats(db, now).users;
            && r.total == |db.users|
            && r.admins == |UsersWithRole(db.users, AdminRole)|
            && r.regularUsers == |UsersWithRole(db.users, UserRole)|
            && r.recentSignups == |set id | id in db.users && db.users[id].createdAt >= now - WeekMs|
  {
    UserGroupCount(db, AdminRole);
    UserGroupCount(db, UserRole);
    assert Matching(db.users, now - WeekMs, JoinedSince) ==
           (set id | id in db.users && db.users[id].createdAt >= now - WeekMs);
  }

  /** Each per-status count is the number of tasks with that status, 0 when
      there are none. */
  lemma PlatformTaskCounts(db: Store, now: int)
    requires db.Valid()
    ensures var r := GetPlatformStats(db, now).tasks;
            && r.total == |db.tasks|
            && r.pending == |TasksWithStatus(db.tasks, "pending")|
            && r.inProgress == |TasksWithStatus(db.tasks, "in-progress")|
            && r.completed == |TasksWithStatus(db.tasks, "completed")|
            && r.cancelled == |TasksWithStatus(db.tasks, "cancelled")|
  {
    TaskGroupCount(db, "pending");
    TaskGroupCount(db, "in-progress");
    TaskGroupCount(db, "completed");
    TaskGroupCount(db, "cancelled");
  }

  /** The completion rate is a percentage between 0 and 100, and 0 when
      there are no tasks. */
  lemma PlatformCompletionRate(db: Store, now: int)
    requires db.Valid()
    ensures var r := GetPlatformStats(db, now).overview;
            && r.totalUsers == |db.users| && r.totalTasks == |db.tasks|
            && (r.totalTasks == 0 ==> r.completionRate == 0.0)
            && 0.0 <= r.completionRate <= 100.0
  {
    PlatformTaskCounts(db, now);
    var completed := TasksWithStatus(db.tasks, "completed");
    SubsetCard(completed, db.tasks.Keys);
    RateBounds(|completed|, |db.tasks|);
  }

  /** When every stored role is one the whitelist allows, the admins and
      the regular users together are all users. */
  lemma RolePartition(db: Store, now: int)
    requires db.Valid()
    requires forall id :: id in db.users ==> db.users[id].role in Roles
    ensures GetPlatformStats(db, now).users.admins + GetPlatformStats(db, now).users.regularUsers == |db.users|
  {
    PlatformUserCounts(db, now);
    RoleSplit(db.users);
  }

  lemma RoleSplit(users: map<Id, User>)
    requires forall id :: id in users ==> users[id].role in Roles
    ensures |UsersWithRole(users, AdminRole)| + |UsersWithRole(users, UserRole)| == |users|
  {
    var admins := UsersWithRole(users, AdminRole);
    var regular := UsersWithRole(users, UserRole);
    assert admins * regular == {};
    assert admins + regular == users.Keys;
    DisjointCard(admins, regular);
  }

  lemma DisjointCard(a: set<Id>, b: set<Id>)
    requires a * b == {}
    ensures |a + b| == |a| + |b|
  {
  }

  lemma SubsetCard(a: set<Id>, b: set<Id>)
    requires a <= b
    ensures |a| <= |b|
  {
    assert b == a + (b - a);
  }

  lemma RateBounds(completed: nat, total: nat)
    requires completed <= total
    ensures 0.0 <= CompletionRate(completed, total) <= 100.0
  {
    if total > 0 {
      assert completed as real <= total as real;
      assert completed as real / total as real <= 1.0;
    }
  }
}
