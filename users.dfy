/** The user-management handlers: the member listing with per-member task
    counts, the lookup by id, and deletion with its guard chain and the
    removal of the deleted id from every task's assignees. */
module Users {
  import opened Common
  import opened Checklist
  import opened Tasks
  import opened Reports
  import opened Auth

  const AdminsOnly := "Access Denied, Only Admins can delete users"
  const NoSelfDelete := "Admins cannot delete themselves"
  const NoAdminDelete := "Cannot delete another admin"

  /** A user record as answered: every field but the password hash. The
      password-reset fields are not hidden, so they are answered too. */
  datatype PublicUser = PublicUser(id: UserId, name: string, email: string, profileImageUrl: string,
                                   role: Role, organizationCode: string, reset: ResetState)

  function Public(u: User): PublicUser
    reads u
  {
    PublicUser(u.id, u.name, u.email, u.profileImageUrl, u.role, u.organizationCode, u.Reset())
  }

  /** The lookup by id; any authenticated caller may use it. */
  function GetUserById(users: seq<User>, id: UserId): (r: Result<PublicUser>)
    reads users
    ensures r.Fail? <==> forall j :: 0 <= j < |users| ==> users[j].id != id
    ensures r.Fail? ==> r.error == NotFound(UserNotFound)
    ensures r.Ok? ==> r.value.id == id
    ensures r.Ok? ==> exists j :: 0 <= j < |users| && users[j].id == id && r.value == Public(users[j])
    ensures r.Ok? ==> exists j :: (0 <= j < |users| && users[j].id == id
              && r.value.name == users[j].name && r.value.email == users[j].email
              && r.value.profileImageUrl == users[j].profileImageUrl && r.value.role == users[j].role
              && r.value.organizationCode == users[j].organizationCode && r.value.reset == users[j].Reset())
  {
    match FindById(users, id)
    case None => Fail(NotFound(UserNotFound))
    case Some(k) => Ok(Public(users[k]))
  }

  /** One row of the member listing. */
  datatype MemberRow = MemberRow(user: PublicUser, pendingTasks: nat, inProgressTasks: nat, completedTasks: nat)

  /** A member with the numbers of tasks assigned to them in each status. */
  function Row(u: User, tasks: seq<Task>): (row: MemberRow)
    reads u, tasks
    ensures row.user == Public(u)
    ensures row.pendingTasks == CountStatus(AssignedTo(tasks, u.id), Pending)
    ensures row.inProgressTasks == CountStatus(AssignedTo(tasks, u.id), InProgress)
    ensures row.completedTasks == CountStatus(AssignedTo(tasks, u.id), Completed)
    ensures row.pendingTasks + row.inProgressTasks + row.completedTasks == |AssignedTo(tasks, u.id)|
  {
    var mine := AssignedTo(tasks, u.id);
    StatusPartition(mine);
    MemberRow(Public(u), CountStatus(mine, Pending), CountStatus(mine, InProgress), CountStatus(mine, Completed))
  }

  /** `row` is the row of some member of the store. */
  predicate RowOfMember(users: seq<User>, tasks: seq<Task>, row: MemberRow)
    reads users, tasks
  {
    exists i :: 0 <= i < |users| && users[i].role == Member && row == Row(users[i], tasks)
  }

  /** The member listing, which only an admin reaches: every user whose role
      is member, in store order, with their task counts. */
  function GetUsers(actor: Actor, users: seq<User>, tasks: seq<Task>): (r: seq<MemberRow>)
    requires actor.IsAdmin()
    reads users, tasks
    ensures |r| <= |users|
    ensures forall j :: 0 <= j < |r| ==> r[j].user.role == Member
    ensures forall j :: 0 <= j < |r| ==>
              r[j].pendingTasks + r[j].inProgressTasks + r[j].completedTasks == |AssignedTo(tasks, r[j].user.id)|
    ensures forall i :: 0 <= i < |users| && users[i].role == Member ==> Row(users[i], tasks) in r
    ensures forall j :: 0 <= j < |r| ==>
              && r[j].pendingTasks == CountStatus(AssignedTo(tasks, r[j].user.id), Pending)
              && r[j].inProgressTasks == CountStatus(AssignedTo(tasks, r[j].user.id), InProgress)
              && r[j].completedTasks == CountStatus(AssignedTo(tasks, r[j].user.id), Completed)
  {
    if users == [] then []
    else
      var rest := GetUsers(actor, users[1..], tasks);
      assert forall i :: 1 <= i < |users| ==> users[i] == users[1..][i - 1];
      if users[0].role == Member then [Row(users[0], tasks)] + rest else rest
  }

  /** Every row of the listing is the row of a member of the store. */
  lemma {:induction false} GetUsersFromStore(actor: Actor, users: seq<User>, tasks: seq<Task>)
    requires actor.IsAdmin()
    ensures forall j :: 0 <= j < |GetUsers(actor, users, tasks)| ==> RowOfMember(users, tasks, GetUsers(actor, users, tasks)[j])
    decreases |users|
  {
    if users != [] {
      GetUsersFromStore(actor, users[1..], tasks);
      var rest := GetUsers(actor, users[1..], tasks);
      forall j | 0 <= j < |rest| ensures RowOfMember(users, tasks, rest[j]) {
        var i :| 0 <= i < |users[1..]| && users[1..][i].role == Member && rest[j] == Row(users[1..][i], tasks);
        assert users[i + 1] == users[1..][i];
      }
      if users[0].role == Member {
        assert RowOfMember(users, tasks, Row(users[0], tasks));
      }
    }
  }

  /** A member's row in the listing agrees with that member's own dashboard:
      the same pending, in-progress and completed counts. */
  lemma RowMatchesDashboard(u: User, tasks: seq<Task>, now: int)
    ensures Row(u, tasks).pendingTasks == UserDashboardData(tasks, u.id, now).statistics["pendingTasks"]
    ensures Row(u, tasks).inProgressTasks == UserDashboardData(tasks, u.id, now).taskDistribution["InProgress"]
    ensures Row(u, tasks).completedTasks == UserDashboardData(tasks, u.id, now).statistics["completedTasks"]
  {
  }

  /** The deletion guards in order: the caller must be an admin, must not
      delete themselves, the target must exist and must not be an admin.
      `None` means every guard passed. */
  function DeleteCheck(actor: Actor, target: UserId, targetRole: Option<Role>): (r: Option<Error>)
    ensures r.None? <==> actor.IsAdmin() && actor.id != target && targetRole == Some(Member)
    ensures !actor.IsAdmin() ==> r == Some(Forbidden(AdminsOnly))
    ensures actor.IsAdmin() && actor.id == target ==> r == Some(BadRequest(NoSelfDelete))
    ensures actor.IsAdmin() && actor.id != target && targetRole.None? ==> r == Some(NotFound(UserNotFound))
    ensures actor.IsAdmin() && actor.id != target && targetRole == Some(Admin) ==> r == Some(Forbidden(NoAdminDelete))
  {
    if !actor.IsAdmin() then Some(Forbidden(AdminsOnly))
    else if actor.id == target then Some(BadRequest(NoSelfDelete))
    else if targetRole.None? then Some(NotFound(UserNotFound))
    else if targetRole.value == Admin then Some(Forbidden(NoAdminDelete))
    else None
  }

  /** The role of the user with the id, if there is one. */
  function RoleOf(users: seq<User>, id: UserId): (r: Option<Role>)
    reads users
    ensures r.None? <==> forall j :: 0 <= j < |users| ==> users[j].id != id
    ensures r.Some? ==> exists j :: 0 <= j < |users| && users[j].id == id && users[j].role == r.value
  {
    match FindById(users, id)
    case None => None
    case Some(k) => Some(users[k].role)
  }

  /** The store without the record at index `k`. */
  function Without(users: seq<User>, k: nat): (r: seq<User>)
    requires k < |users|
    ensures |r| == |users| - 1
  {
    users[..k] + users[k + 1..]
  }

  /** Removing the record at the target's index removes exactly the target
      and keeps the ids unique. */
  lemma RemoveUserAt(before: seq<User>, k: nat, target: UserId)
    requires k < |before| && before[k].id == target
    requires forall i, j :: 0 <= i < j < |before| ==> before[i].id != before[j].id
    ensures forall u :: u in Without(before, k) <==> u in before && u.id != target
    ensures forall i, j :: 0 <= i < j < |Without(before, k)| ==> Without(before, k)[i].id != Without(before, k)[j].id
  {
    var after := Without(before, k);
    assert forall j :: 0 <= j < |after| ==> after[j] == (if j < k then before[j] else before[j + 1]);
    forall u | u in before && u.id != target ensures u in after {
      var j :| 0 <= j < |before| && before[j] == u;
      assert j != k;
      if j < k {
        assert after[j] == u;
      } else {
        assert after[j - 1] == u;
      }
    }
  }

  /** The deletion handler. Every guard precedes every write, so a refused
      request changes nothing. On success the id is pulled from the assignees
      of every task in one bulk update, every other task field (the creator
      list included) is kept, and the user record is removed. */
  method DeleteUser(accounts: Accounts, actor: Actor, target: UserId, tasks: seq<Task>) returns (r: Outcome)
    requires accounts.Valid()
    modifies accounts`users, tasks
    ensures accounts.Valid()
    ensures forall t :: t in tasks ==> t.OtherFields() == old(t.OtherFields())
    ensures DeleteCheck(actor, target, old(RoleOf(accounts.users, target))).Some? ==>
              && r == Failed(DeleteCheck(actor, target, old(RoleOf(accounts.users, target))).value)
              && accounts.users == old(accounts.users)
              && forall t :: t in tasks ==> t.assignedTo == old(t.assignedTo)
    ensures DeleteCheck(actor, target, old(RoleOf(accounts.users, target))).None? ==>
              && r == Done
              && (forall t :: t in tasks ==> t.assignedTo == Pull(old(t.assignedTo), target))
              && (forall t :: t in tasks ==> target !in t.assignedTo)
              && (forall u :: u in accounts.users <==> u in old(accounts.users) && u.id != target)
              && |accounts.users| == |old(accounts.users)| - 1
  {
    if !actor.IsAdmin() {
      return Failed(Forbidden(AdminsOnly));
    }
    if actor.id == target {
      return Failed(BadRequest(NoSelfDelete));
    }
    var found := FindById(accounts.users, target);
    if found.None? {
      return Failed(NotFound(UserNotFound));
    }
    var k := found.value;
    if accounts.users[k].role == Admin {
      return Failed(Forbidden(NoAdminDelete));
    }
    forall t | t in tasks {
      t.assignedTo := Pull(t.assignedTo, target);
    }
    RemoveUserAt(accounts.users, k, target);
    accounts.users := Without(accounts.users, k);
    r := Done;
  }
}
