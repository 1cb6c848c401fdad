/** The read side of the task controller: the task listing with its status
    summary, the admin and member dashboards, and the per-user checkpoint
    statistics of one task. Nothing here changes a task. */
module Reports {
  import opened Common
  import opened Checklist
  import opened Tasks

  /** The tasks that list `u` among their assignees, in store order. */
  function AssignedTo(tasks: seq<Task>, u: UserId): (r: seq<Task>)
    reads tasks
    ensures forall j :: 0 <= j < |r| ==> r[j] in tasks && u in r[j].assignedTo
    ensures forall j :: 0 <= j < |tasks| && u in tasks[j].assignedTo ==> tasks[j] in r
    ensures |r| <= |tasks|
  {
    if tasks == [] then []
    else if u in tasks[0].assignedTo then [tasks[0]] + AssignedTo(tasks[1..], u)
    else AssignedTo(tasks[1..], u)
  }

  /** What an actor may list: every task for an admin, the assigned ones otherwise. */
  function Scope(tasks: seq<Task>, actor: Actor): (r: seq<Task>)
    reads tasks
    ensures forall j :: 0 <= j < |r| ==> r[j] in tasks && MayAccess(actor, r[j].assignedTo)
    ensures forall j :: 0 <= j < |tasks| && MayAccess(actor, tasks[j].assignedTo) ==> tasks[j] in r
  {
    if actor.IsAdmin() then tasks else AssignedTo(tasks, actor.id)
  }

  function CountStatus(tasks: seq<Task>, s: Status): (n: nat)
    reads tasks
    ensures n <= |tasks|
  {
    if tasks == [] then 0
    else (if tasks[0].status == s then 1 else 0) + CountStatus(tasks[1..], s)
  }

  function CountPriority(tasks: seq<Task>, p: Priority): (n: nat)
    reads tasks
    ensures n <= |tasks|
  {
    if tasks == [] then 0
    else (if tasks[0].priority == p then 1 else 0) + CountPriority(tasks[1..], p)
  }

  /** Overdue: not Completed and due strictly before `now`; a task without a
      due date is never overdue. */
  predicate Overdue(t: Task, now: int)
    reads t
  {
    t.status != Completed && t.dueDate.Some? && t.dueDate.value < now
  }

  /** The overdue count of the statistics blocks. */
  function CountOverdue(tasks: seq<Task>, now: int): (n: nat)
    reads tasks
    ensures n <= |tasks|
    ensures n == 0 <==> forall j :: 0 <= j < |tasks| ==> !Overdue(tasks[j], now)
  {
    if tasks == [] then 0
    else
      assert forall j :: 1 <= j < |tasks| ==> tasks[j] == tasks[1..][j - 1];
      (if Overdue(tasks[0], now) then 1 else 0) + CountOverdue(tasks[1..], now)
  }

  /** The three statuses split every collection of tasks. */
  lemma {:induction false} StatusPartition(tasks: seq<Task>)
    ensures CountStatus(tasks, Pending) + CountStatus(tasks, InProgress)
            + CountStatus(tasks, Completed) == |tasks|
    decreases |tasks|
  {
    if tasks != [] {
      StatusPartition(tasks[1..]);
    }
  }

  /** The three priorities split every collection of tasks. */
  lemma {:induction false} PriorityPartition(tasks: seq<Task>)
    ensures CountPriority(tasks, Low) + CountPriority(tasks, Medium)
            + CountPriority(tasks, High) == |tasks|
    decreases |tasks|
  {
    if tasks != [] {
      PriorityPartition(tasks[1..]);
    }
  }

  /** Completed tasks are never overdue. */
  lemma {:induction false} OverdueNotCompleted(tasks: seq<Task>, now: int)
    ensures CountOverdue(tasks, now) + CountStatus(tasks, Completed) <= |tasks|
    decreases |tasks|
  {
    if tasks != [] {
      OverdueNotCompleted(tasks[1..], now);
    }
  }

  /** The overdue count is additive: counting two runs of tasks separately
      and adding gives the count of both together. */
  lemma {:induction false} CountOverdueSplit(a: seq<Task>, b: seq<Task>, now: int)
    ensures CountOverdue(a + b, now) == CountOverdue(a, now) + CountOverdue(b, now)
    decreases |a|
  {
    if a == [] {
      assert a + b == b;
    } else {
      assert (a + b)[0] == a[0];
      assert (a + b)[1..] == a[1..] + b;
      CountOverdueSplit(a[1..], b, now);
    }
  }

  // ---------------------------------------------------------------- listing

  /** A listed task with its number of checked items. */
  datatype Listed = Listed(task: Task, completedTodoCount: nat)

  datatype StatusSummary = StatusSummary(all: nat, pendingTasks: nat, inProgressTasks: nat, completedTasks: nat)

  datatype TaskList = TaskList(tasks: seq<Listed>, statusSummary: StatusSummary)

  /** The optional status query: an empty one matches everything, any other
      only tasks whose stored status is exactly that string. */
  predicate MatchesQuery(t: Task, statusQuery: string)
    reads t
  {
    statusQuery == "" || t.status.Name() == statusQuery
  }

  function Filtered(tasks: seq<Task>, statusQuery: string): (r: seq<Task>)
    reads tasks
    ensures forall j :: 0 <= j < |r| ==> r[j] in tasks && MatchesQuery(r[j], statusQuery)
    ensures forall j :: 0 <= j < |tasks| && MatchesQuery(tasks[j], statusQuery) ==> tasks[j] in r
    ensures |r| <= |tasks|
  {
    if tasks == [] then []
    else if MatchesQuery(tasks[0], statusQuery) then [tasks[0]] + Filtered(tasks[1..], statusQuery)
    else Filtered(tasks[1..], statusQuery)
  }

  /** A status counter equals the number of tasks the listing returns for
      that status as its query. */
  lemma {:induction false} StatusCountIsListing(tasks: seq<Task>, s: Status)
    ensures CountStatus(tasks, s) == |Filtered(tasks, s.Name())|
    decreases |tasks|
  {
    if tasks != [] {
      StatusCountIsListing(tasks[1..], s);
      assert MatchesQuery(tasks[0], s.Name()) <==> tasks[0].status == s;
    }
  }

  function WithCounts(tasks: seq<Task>): (r: seq<Listed>)
    reads tasks
    ensures |r| == |tasks|
    ensures forall j :: 0 <= j < |tasks| ==> r[j] == Listed(tasks[j], CountCompleted(tasks[j].checklist))
  {
    if tasks == [] then []
    else [Listed(tasks[0], CountCompleted(tasks[0].checklist))] + WithCounts(tasks[1..])
  }

  /** The listing: the tasks of the actor's scope matching the status query,
      each with its checked-item count, and a summary. In the summary the
      explicit `status` key of each count query overrides the query's own, so
      the per-status counts ignore the status query, as does `all`. */
  function GetTasks(tasks: seq<Task>, actor: Actor, statusQuery: string): (r: TaskList)
    reads tasks
    ensures forall j :: 0 <= j < |r.tasks| ==>
              && r.tasks[j].task in tasks
              && MayAccess(actor, r.tasks[j].task.assignedTo)
              && MatchesQuery(r.tasks[j].task, statusQuery)
              && r.tasks[j].completedTodoCount == CountCompleted(r.tasks[j].task.checklist)
    ensures forall j :: 0 <= j < |tasks| && MayAccess(actor, tasks[j].assignedTo) && MatchesQuery(tasks[j], statusQuery) ==>
              Listed(tasks[j], CountCompleted(tasks[j].checklist)) in r.tasks
    ensures r.statusSummary.all == |Scope(tasks, actor)|
    ensures r.statusSummary.pendingTasks + r.statusSummary.inProgressTasks
            + r.statusSummary.completedTasks == r.statusSummary.all
    ensures r.statusSummary.pendingTasks == CountStatus(Scope(tasks, actor), Pending)
    ensures r.statusSummary.inProgressTasks == CountStatus(Scope(tasks, actor), InProgress)
    ensures r.statusSummary.completedTasks == CountStatus(Scope(tasks, actor), Completed)
  {
    var scope := Scope(tasks, actor);
    var listed := WithCounts(Filtered(scope, statusQuery));
    StatusPartition(scope);
    forall i | 0 <= i < |tasks| && MayAccess(actor, tasks[i].assignedTo) && MatchesQuery(tasks[i], statusQuery)
      ensures Listed(tasks[i], CountCompleted(tasks[i].checklist)) in listed
    {
      var f := Filtered(scope, statusQuery);
      var k :| 0 <= k < |scope| && scope[k] == tasks[i];
      var j :| 0 <= j < |f| && f[j] == tasks[i];
      assert listed[j] == Listed(tasks[i], CountCompleted(tasks[i].checklist));
    }
    TaskList(listed,
      StatusSummary(|scope|, CountStatus(scope, Pending), CountStatus(scope, InProgress),
                    CountStatus(scope, Completed)))
  }

  // ------------------------------------------------------------- dashboards

  /** The projection of a task in the "recent tasks" list. */
  datatype RecentTask = RecentTask(title: string, status: Status, priority: Priority,
                                   dueDate: Option<int>, createdAt: int)

  function Summary(t: Task): RecentTask
    reads t
  {
    RecentTask(t.title, t.status, t.priority, t.dueDate, t.createdAt)
  }

  function Summaries(tasks: seq<Task>): (r: seq<RecentTask>)
    reads tasks
    ensures |r| == |tasks|
    ensures forall j :: 0 <= j < |tasks| ==> r[j] == Summary(tasks[j])
  {
    if tasks == [] then [] else [Summary(tasks[0])] + Summaries(tasks[1..])
  }

  predicate NewestFirst(s: seq<RecentTask>)
  {
    forall i, j :: 0 <= i < j < |s| ==> s[i].createdAt >= s[j].createdAt
  }

  /** A newer head keeps a newest-first list newest first. */
  lemma ConsNewestFirst(h: RecentTask, t: seq<RecentTask>)
    requires NewestFirst(t)
    requires forall y :: y in t ==> h.createdAt >= y.createdAt
    ensures NewestFirst([h] + t)
  {
    var r := [h] + t;
    forall i, j | 0 <= i < j < |r| ensures r[i].createdAt >= r[j].createdAt {
      assert r[j] == t[j - 1];
      if i > 0 {
        assert r[i] == t[i - 1];
      } else {
        assert t[j - 1] in t;
      }
    }
  }

  /** Inserts `x` after every leading entry at least as new as it. */
  function Insert(x: RecentTask, s: seq<RecentTask>): (r: seq<RecentTask>)
    ensures multiset(r) == multiset(s) + multiset{x}
    ensures |r| == |s| + 1
  {
    if s == [] then [x]
    else if s[0].createdAt >= x.createdAt then
      assert s == [s[0]] + s[1..];
      [s[0]] + Insert(x, s[1..])
    else [x] + s
  }

  lemma {:induction false} InsertNewestFirst(x: RecentTask, s: seq<RecentTask>)
    requires NewestFirst(s)
    ensures NewestFirst(Insert(x, s))
    decreases |s|
  {
    if s != [] {
      if s[0].createdAt >= x.createdAt {
        assert NewestFirst(s[1..]) by {
          forall i, j | 0 <= i < j < |s[1..]| ensures s[1..][i].createdAt >= s[1..][j].createdAt {
            assert s[1..][i] == s[i + 1] && s[1..][j] == s[j + 1];
          }
        }
        InsertNewestFirst(x, s[1..]);
        var rest := Insert(x, s[1..]);
        forall y | y in rest ensures s[0].createdAt >= y.createdAt {
          assert y in multiset(rest);
          if y != x {
            assert y in multiset(s[1..]);
            var j :| 0 <= j < |s[1..]| && s[1..][j] == y;
            assert s[j + 1] == y;
          }
        }
        ConsNewestFirst(s[0], rest);
      } else {
        forall y | y in s ensures x.createdAt >= y.createdAt {
          var j :| 0 <= j < |s| && s[j] == y;
          if j > 0 {
            assert s[0].createdAt >= s[j].createdAt;
          }
        }
        ConsNewestFirst(x, s);
      }
    }
  }

  /** `sort({createdAt: -1})`. */
  function SortNewestFirst(s: seq<RecentTask>): (r: seq<RecentTask>)
    ensures NewestFirst(r)
    ensures multiset(r) == multiset(s)
    ensures |r| == |s|
  {
    if s == [] then []
    else
      assert s == [s[0]] + s[1..];
      var sorted := SortNewestFirst(s[1..]);
      InsertNewestFirst(s[0], sorted);
      Insert(s[0], sorted)
  }

  const RecentLimit: nat := 10

  /** `sort({createdAt: -1}).limit(10)` projected to the summary shape. */
  function Recent(tasks: seq<Task>): (r: seq<RecentTask>)
    reads tasks
    ensures |r| == if |tasks| < RecentLimit then |tasks| else RecentLimit
    ensures NewestFirst(r)
    ensures multiset(r) <= multiset(Summaries(tasks))
  {
    var sorted := SortNewestFirst(Summaries(tasks));
    TakeNewest(sorted, if |sorted| <= RecentLimit then |sorted| else RecentLimit);
    assert sorted[..|sorted|] == sorted;
    if |sorted| <= RecentLimit then sorted else sorted[..RecentLimit]
  }

  /** Cutting a newest-first list leaves nothing newer behind. */
  lemma TakeNewest(sorted: seq<RecentTask>, k: nat)
    requires NewestFirst(sorted)
    requires k <= |sorted|
    ensures NewestFirst(sorted[..k])
    ensures multiset(sorted[..k]) <= multiset(sorted)
    ensures forall x, y :: x in sorted[..k] && y in multiset(sorted) - multiset(sorted[..k]) ==>
              x.createdAt >= y.createdAt
  {
    var r := sorted[..k];
    var rest := sorted[k..];
    assert sorted == r + rest;
    assert multiset(sorted) == multiset(r) + multiset(rest);
    forall x, y | x in r && y in multiset(sorted) - multiset(r)
      ensures x.createdAt >= y.createdAt
    {
      assert y in rest;
      var i :| 0 <= i < k && r[i] == x;
      var j :| 0 <= j < |rest| && rest[j] == y;
      assert sorted[i] == x && sorted[k + j] == y;
    }
  }

  /** The recent list holds at most ten summaries of the given tasks, newest
      first, and no task left out is newer than one kept. */
  lemma RecentIsNewest(tasks: seq<Task>)
    ensures |Recent(tasks)| == if |tasks| < RecentLimit then |tasks| else RecentLimit
    ensures NewestFirst(Recent(tasks))
    ensures multiset(Recent(tasks)) <= multiset(Summaries(tasks))
    ensures forall x, y :: x in Recent(tasks) && y in multiset(Summaries(tasks)) - multiset(Recent(tasks)) ==>
              x.createdAt >= y.createdAt
  {
    var sorted := SortNewestFirst(Summaries(tasks));
    var k := if |sorted| <= RecentLimit then |sorted| else RecentLimit;
    assert sorted[..|sorted|] == sorted;
    assert Recent(tasks) == sorted[..k];
    TakeNewest(sorted, k);
  }

  /** The characters the key formatting removes: whitespace and hyphens. */
  predicate Separator(c: char)
  {
    c == ' ' || c == '\t' || c == '\n' || c == '\r' || c == '-'
  }

  /** `replace(/[\s-]+/g, "")`: every separator removed, the rest kept in order. */
  function ResponseKey(name: string): (r: string)
    ensures forall c :: c in r ==> !Separator(c)
    ensures forall c :: c in name && !Separator(c) ==> c in r
    ensures |r| <= |name|
  {
    if name == [] then []
    else if Separator(name[0]) then ResponseKey(name[1..])
    else [name[0]] + ResponseKey(name[1..])
  }

  lemma {:induction false} ResponseKeyPlain(a: string)
    requires forall c :: c in a ==> !Separator(c)
    ensures ResponseKey(a) == a
    decreases |a|
  {
    if a != [] {
      ResponseKeyPlain(a[1..]);
    }
  }

  /** One separator between two plain words is removed. */
  lemma {:induction false} ResponseKeyDropsSeparator(a: string, c: char, b: string)
    requires forall x :: x in a ==> !Separator(x)
    requires forall x :: x in b ==> !Separator(x)
    requires Separator(c)
    ensures ResponseKey(a + [c] + b) == a + b
    decreases |a|
  {
    if a == [] {
      assert a + [c] + b == [c] + b;
      assert ([c] + b)[1..] == b;
      ResponseKeyPlain(b);
    } else {
      assert (a + [c] + b)[1..] == a[1..] + [c] + b;
      ResponseKeyDropsSeparator(a[1..], c, b);
      assert a + b == [a[0]] + (a[1..] + b);
    }
  }

  /** The chart key of each status. */
  function StatusKey(s: Status): string
  {
    match s
    case Pending => "Pending"
    case InProgress => "InProgress"
    case Completed => "Completed"
  }

  /** Each chart key is the stored status name with its separators removed:
      "In-Progress" is reported as "InProgress". */
  lemma StatusKeyIsResponseKey(s: Status)
    ensures StatusKey(s) == ResponseKey(s.Name())
  {
    match s
    case Pending => ResponseKeyPlain("Pending");
    case Completed => ResponseKeyPlain("Completed");
    case InProgress =>
      ResponseKeyDropsSeparator("In", '-', "Progress");
      assert "In" + ['-'] + "Progress" == "In-Progress";
      assert "In" + "Progress" == "InProgress";
  }

  /** `$group` by status: one entry per status that occurs, with its count. */
  function StatusGroups(tasks: seq<Task>): (g: map<Status, nat>)
    reads tasks
    ensures forall s :: s in g <==> CountStatus(tasks, s) > 0
    ensures forall s :: s in g ==> g[s] == CountStatus(tasks, s)
  {
    if tasks == [] then map[]
    else
      var g := StatusGroups(tasks[1..]);
      var s := tasks[0].status;
      g[s := (if s in g then g[s] else 0) + 1]
  }

  /** `$group` by priority. */
  function PriorityGroups(tasks: seq<Task>): (g: map<Priority, nat>)
    reads tasks
    ensures forall p :: p in g <==> CountPriority(tasks, p) > 0
    ensures forall p :: p in g ==> g[p] == CountPriority(tasks, p)
  {
    if tasks == [] then map[]
    else
      var g := PriorityGroups(tasks[1..]);
      var p := tasks[0].priority;
      g[p := (if p in g then g[p] else 0) + 1]
  }

  /** `raw.find(item => item._id === key)?.count || 0`. */
  function CountOrZero<K>(g: map<K, nat>, key: K): nat
  {
    if key in g then g[key] else 0
  }

  /** The status chart: a key per status, zero when absent, plus "All".
      Each status key holds the number of tasks with that status, whether or
      not `$group` produced an entry for it. */
  function Distribution(tasks: seq<Task>): (d: map<string, nat>)
    reads tasks
    ensures d.Keys == {"Pending", "InProgress", "Completed", "All"}
    ensures d["Pending"] == CountStatus(tasks, Pending)
    ensures d["InProgress"] == CountStatus(tasks, InProgress)
    ensures d["Completed"] == CountStatus(tasks, Completed)
    ensures d["All"] == |tasks|
  {
    var g := StatusGroups(tasks);
    map[StatusKey(Pending) := CountOrZero(g, Pending),
        StatusKey(InProgress) := CountOrZero(g, InProgress),
        StatusKey(Completed) := CountOrZero(g, Completed),
        "All" := |tasks|]
  }

  /** The priority chart: a key per priority, zero when absent, each
      holding the number of tasks with that priority. */
  function PriorityLevels(tasks: seq<Task>): (d: map<string, nat>)
    reads tasks
    ensures d.Keys == {"Low", "Medium", "High"}
    ensures d["Low"] == CountPriority(tasks, Low)
    ensures d["Medium"] == CountPriority(tasks, Medium)
    ensures d["High"] == CountPriority(tasks, High)
  {
    var g := PriorityGroups(tasks);
    map[Low.Name() := CountOrZero(g, Low),
        Medium.Name() := CountOrZero(g, Medium),
        High.Name() := CountOrZero(g, High)]
  }

  /** The status buckets of the chart add up to its "All" entry. */
  lemma StatusChartAddsUp(tasks: seq<Task>)
    ensures Distribution(tasks)["Pending"] + Distribution(tasks)["InProgress"]
            + Distribution(tasks)["Completed"] == Distribution(tasks)["All"]
  {
    StatusPartition(tasks);
  }

  /** The priority buckets of the chart add up to the number of tasks. */
  lemma PriorityChartAddsUp(tasks: seq<Task>)
    ensures PriorityLevels(tasks)["Low"] + PriorityLevels(tasks)["Medium"]
            + PriorityLevels(tasks)["High"] == |tasks|
  {
    PriorityPartition(tasks);
  }

  datatype Dashboard = Dashboard(
    statistics: map<string, nat>,
    taskDistribution: map<string, nat>,
    taskPriorityLevels: map<string, nat>,
    recentTasks: seq<RecentTask>)

  /** The admin statistics block: five counters, each status counter the
      number of tasks in that status, the overdue counter the number of
      overdue tasks, the status counts adding up to the total and the overdue
      tasks among the unfinished ones. */
  function AdminStatistics(tasks: seq<Task>, now: int): (st: map<string, nat>)
    reads tasks
    ensures st.Keys == {"totalTasks", "pendingTasks", "inProgressTasks", "completedTasks", "overdueTasks"}
    ensures st["totalTasks"] == |tasks|
    ensures st["pendingTasks"] == CountStatus(tasks, Pending)
    ensures st["inProgressTasks"] == CountStatus(tasks, InProgress)
    ensures st["completedTasks"] == CountStatus(tasks, Completed)
    ensures st["overdueTasks"] == CountOverdue(tasks, now)
    ensures st["pendingTasks"] + st["inProgressTasks"] + st["completedTasks"] == st["totalTasks"]
    ensures st["overdueTasks"] <= st["totalTasks"] - st["completedTasks"]
  {
    StatusPartition(tasks);
    OverdueNotCompleted(tasks, now);
    map["totalTasks" := |tasks|,
        "pendingTasks" := CountStatus(tasks, Pending),
        "inProgressTasks" := CountStatus(tasks, InProgress),
        "completedTasks" := CountStatus(tasks, Completed),
        "overdueTasks" := CountOverdue(tasks, now)]
  }

  /** The member statistics block, which has no in-progress count: each
      counter holds its number of tasks, pending and completed never exceed
      the total, and the overdue tasks are among the unfinished ones. */
  function MemberStatistics(tasks: seq<Task>, now: int): (st: map<string, nat>)
    reads tasks
    ensures st.Keys == {"totalTasks", "pendingTasks", "completedTasks", "overdueTasks"}
    ensures st["totalTasks"] == |tasks|
    ensures st["pendingTasks"] == CountStatus(tasks, Pending)
    ensures st["completedTasks"] == CountStatus(tasks, Completed)
    ensures st["overdueTasks"] == CountOverdue(tasks, now)
    ensures st["pendingTasks"] + st["completedTasks"] <= st["totalTasks"]
    ensures st["overdueTasks"] <= st["totalTasks"] - st["completedTasks"]
  {
    StatusPartition(tasks);
    OverdueNotCompleted(tasks, now);
    map["totalTasks" := |tasks|,
        "pendingTasks" := CountStatus(tasks, Pending),
        "completedTasks" := CountStatus(tasks, Completed),
        "overdueTasks" := CountOverdue(tasks, now)]
  }

  /** The admin dashboard, over every task: the statistics agree with the
      status chart, and at most ten recent tasks are listed. */
  function DashboardData(tasks: seq<Task>, now: int): (d: Dashboard)
    reads tasks
    ensures "totalTasks" in d.statistics && "pendingTasks" in d.statistics
    ensures "inProgressTasks" in d.statistics && "completedTasks" in d.statistics
    ensures d.taskDistribution.Keys == {"Pending", "InProgress", "Completed", "All"}
    ensures d.statistics["totalTasks"] == d.taskDistribution["All"] == |tasks|
    ensures d.statistics["pendingTasks"] == d.taskDistribution["Pending"]
    ensures d.statistics["inProgressTasks"] == d.taskDistribution["InProgress"]
    ensures d.statistics["completedTasks"] == d.taskDistribution["Completed"]
    ensures d.taskDistribution["Pending"] == CountStatus(tasks, Pending)
    ensures d.taskDistribution["InProgress"] == CountStatus(tasks, InProgress)
    ensures d.taskDistribution["Completed"] == CountStatus(tasks, Completed)
    ensures d.statistics == AdminStatistics(tasks, now)
    ensures "overdueTasks" in d.statistics && d.statistics["overdueTasks"] == CountOverdue(tasks, now)
    ensures d.taskPriorityLevels.Keys == {"Low", "Medium", "High"}
    ensures d.taskPriorityLevels["Low"] == CountPriority(tasks, Low)
    ensures d.taskPriorityLevels["Medium"] == CountPriority(tasks, Medium)
    ensures d.taskPriorityLevels["High"] == CountPriority(tasks, High)
    ensures d.recentTasks == Recent(tasks)
    ensures |d.recentTasks| <= RecentLimit && NewestFirst(d.recentTasks)
  {
    Dashboard(AdminStatistics(tasks, now), Distribution(tasks), PriorityLevels(tasks), Recent(tasks))
  }

  /** The member dashboard: the same computation restricted to the tasks
      assigned to `u`, with the member statistics block. */
  function UserDashboardData(tasks: seq<Task>, u: UserId, now: int): (d: Dashboard)
    reads tasks
    ensures "totalTasks" in d.statistics && "pendingTasks" in d.statistics && "completedTasks" in d.statistics
    ensures d.taskDistribution.Keys == {"Pending", "InProgress", "Completed", "All"}
    ensures d.statistics["totalTasks"] == d.taskDistribution["All"] == |AssignedTo(tasks, u)|
    ensures d.statistics["pendingTasks"] == d.taskDistribution["Pending"]
    ensures d.statistics["completedTasks"] == d.taskDistribution["Completed"]
    ensures d.taskDistribution["Pending"] == CountStatus(AssignedTo(tasks, u), Pending)
    ensures d.taskDistribution["InProgress"] == CountStatus(AssignedTo(tasks, u), InProgress)
    ensures d.taskDistribution["Completed"] == CountStatus(AssignedTo(tasks, u), Completed)
    ensures d.statistics == MemberStatistics(AssignedTo(tasks, u), now)
    ensures "overdueTasks" in d.statistics
    ensures d.statistics["overdueTasks"] == CountOverdue(AssignedTo(tasks, u), now)
    ensures d.taskPriorityLevels.Keys == {"Low", "Medium", "High"}
    ensures d.taskPriorityLevels["Low"] == CountPriority(AssignedTo(tasks, u), Low)
    ensures d.taskPriorityLevels["Medium"] == CountPriority(AssignedTo(tasks, u), Medium)
    ensures d.taskPriorityLevels["High"] == CountPriority(AssignedTo(tasks, u), High)
    ensures d.recentTasks == Recent(AssignedTo(tasks, u))
    ensures |d.recentTasks| <= RecentLimit && NewestFirst(d.recentTasks)
  {
    var mine := AssignedTo(tasks, u);
    Dashboard(MemberStatistics(mine, now), Distribution(mine), PriorityLevels(mine), Recent(mine))
  }

  /** The member dashboard only ever lists tasks assigned to the member. */
  lemma UserRecentAreAssigned(tasks: seq<Task>, u: UserId, now: int)
    ensures forall x :: x in UserDashboardData(tasks, u, now).recentTasks ==>
              exists t :: t in tasks && u in t.assignedTo && Summary(t) == x
  {
    var mine := AssignedTo(tasks, u);
    RecentIsNewest(mine);
    forall x | x in Recent(mine) ensures exists t :: t in tasks && u in t.assignedTo && Summary(t) == x {
      assert x in multiset(Summaries(mine));
      var j :| 0 <= j < |mine| && Summaries(mine)[j] == x;
      assert mine[j] in tasks && u in mine[j].assignedTo;
    }
  }

  /** Over no tasks every counter is zero and the recent list is empty. */
  lemma EmptyDashboard(now: int)
    ensures forall k :: k in DashboardData([], now).statistics ==> DashboardData([], now).statistics[k] == 0
    ensures forall k :: k in DashboardData([], now).taskDistribution ==> DashboardData([], now).taskDistribution[k] == 0
    ensures forall k :: k in DashboardData([], now).taskPriorityLevels ==> DashboardData([], now).taskPriorityLevels[k] == 0
    ensures DashboardData([], now).recentTasks == []
  {
  }

  // ------------------------------------------------------ checkpoint stats

  /** One entry of the checkpoint statistics: a completer, how many items they
      checked, and those items' texts in list order. */
  datatype UserStat = UserStat(user: UserId, count: nat, checkpoints: seq<string>)

  /** The position of `u`'s entry, if it has one. */
  function IndexOf(stats: seq<UserStat>, u: UserId): (k: Option<nat>)
    ensures k.None? <==> forall j :: 0 <= j < |stats| ==> stats[j].user != u
    ensures k.Some? ==> k.value < |stats| && stats[k.value].user == u
  {
    if stats == [] then None
    else if stats[0].user == u then Some(0)
    else match IndexOf(stats[1..], u)
      case None => None
      case Some(k) => Some(k + 1)
  }

  /** One item's contribution: a checked item with a recorded completer adds
      to that completer's entry, opened at the end on first sight. */
  function Record(stats: seq<UserStat>, item: Item): seq<UserStat>
  {
    if item.completed && item.completedBy.Some? then
      var u := item.completedBy.value;
      match IndexOf(stats, u)
      case None => stats + [UserStat(u, 1, [item.text])]
      case Some(k) => stats[k := UserStat(u, stats[k].count + 1, stats[k].checkpoints + [item.text])]
    else stats
  }

  /** The statistics of a checklist, built item by item in list order (what
      each entry holds is stated by `StatsOfCounts`). */
  function StatsOf(items: seq<Item>): seq<UserStat>
  {
    if items == [] then [] else Record(StatsOf(items[..|items| - 1]), items[|items| - 1])
  }

  /** How many items are checked with `u` recorded as completer. */
  function CompletedBy(items: seq<Item>, u: UserId): nat
  {
    if items == [] then 0
    else CompletedBy(items[..|items| - 1], u)
         + (if items[|items| - 1].completed && items[|items| - 1].completedBy == Some(u) then 1 else 0)
  }

  /** The texts of the items checked with `u` recorded as completer, in list order. */
  function TextsBy(items: seq<Item>, u: UserId): seq<string>
  {
    if items == [] then []
    else TextsBy(items[..|items| - 1], u)
         + (if items[|items| - 1].completed && items[|items| - 1].completedBy == Some(u)
            then [items[|items| - 1].text] else [])
  }

  /** One text per item a user completed. */
  lemma {:induction false} TextsByLength(items: seq<Item>, u: UserId)
    ensures |TextsBy(items, u)| == CompletedBy(items, u)
    decreases |items|
  {
    if items != [] {
      TextsByLength(items[..|items| - 1], u);
    }
  }

  predicate DistinctUsers(stats: seq<UserStat>)
  {
    forall i, j :: 0 <= i < j < |stats| ==> stats[i].user != stats[j].user
  }

  /** Every user has at most one entry; a user has an entry exactly when they
      completed at least one item, and its count is the number of items they
      completed, one text per item. Items checked with no recorded completer
      are counted for nobody. */
  lemma {:induction false} StatsOfCounts(items: seq<Item>)
    ensures DistinctUsers(StatsOf(items))
    ensures forall u :: (IndexOf(StatsOf(items), u).Some? <==> CompletedBy(items, u) > 0)
    ensures forall j :: 0 <= j < |StatsOf(items)| ==>
              && StatsOf(items)[j].count == CompletedBy(items, StatsOf(items)[j].user)
              && |StatsOf(items)[j].checkpoints| == StatsOf(items)[j].count
    decreases |items|
  {
    if items != [] {
      var init := items[..|items| - 1];
      var last := items[|items| - 1];
      StatsOfCounts(init);
      var before := StatsOf(init);
      var after := StatsOf(items);
      assert after == Record(before, last);
      if last.completed && last.completedBy.Some? {
        var u := last.completedBy.value;
        assert CompletedBy(items, u) == CompletedBy(init, u) + 1;
        assert forall v :: v != u ==> CompletedBy(items, v) == CompletedBy(init, v);
        match IndexOf(before, u)
        case None =>
          assert after == before + [UserStat(u, 1, [last.text])];
          forall v ensures IndexOf(after, v).Some? <==> CompletedBy(items, v) > 0 {
            if v != u && IndexOf(before, v).None? {
              assert forall j :: 0 <= j < |after| ==> after[j].user != v by {
                forall j | 0 <= j < |after| ensures after[j].user != v {
                  if j < |before| {
                    assert after[j] == before[j];
                  }
                }
              }
            } else if v != u {
              var k := IndexOf(before, v).value;
              assert after[k] == before[k];
            } else {
              assert after[|before|].user == u;
            }
          }
        case Some(k) =>
          forall v ensures IndexOf(after, v).Some? <==> CompletedBy(items, v) > 0 {
            if IndexOf(before, v).None? {
              assert forall j :: 0 <= j < |after| ==> after[j].user != v by {
                forall j | 0 <= j < |after| ensures after[j].user != v {
                  assert after[j].user == before[j].user;
                }
              }
            } else {
              var k' := IndexOf(before, v).value;
              assert after[k'].user == before[k'].user;
            }
          }
      } else {
        assert forall v :: CompletedBy(items, v) == CompletedBy(init, v);
      }
    }
  }

  /** Each entry lists exactly the texts of the items its user completed, in
      list order. */
  lemma {:induction false} StatsOfTexts(items: seq<Item>)
    ensures forall j :: 0 <= j < |StatsOf(items)| ==>
              StatsOf(items)[j].checkpoints == TextsBy(items, StatsOf(items)[j].user)
    decreases |items|
  {
    if items != [] {
      var init := items[..|items| - 1];
      var last := items[|items| - 1];
      StatsOfTexts(init);
      StatsOfCounts(init);
      var before := StatsOf(init);
      var after := StatsOf(items);
      assert after == Record(before, last);
      if last.completed && last.completedBy.Some? {
        var u := last.completedBy.value;
        assert TextsBy(items, u) == TextsBy(init, u) + [last.text];
        assert forall v :: v != u ==> TextsBy(items, v) == TextsBy(init, v);
        match IndexOf(before, u)
        case None =>
          TextsByLength(init, u);
          assert after == before + [UserStat(u, 1, [last.text])];
          forall j | 0 <= j < |after| ensures after[j].checkpoints == TextsBy(items, after[j].user) {
            if j < |before| {
              assert after[j] == before[j];
            }
          }
        case Some(k) =>
          forall j | 0 <= j < |after| ensures after[j].checkpoints == TextsBy(items, after[j].user) {
            if j != k {
              assert after[j] == before[j];
            }
          }
      } else {
        assert forall v :: TextsBy(items, v) == TextsBy(init, v);
      }
    }
  }

  /** The position of the first item checked with `u` recorded as completer,
      or the length of the list when there is none. */
  function FirstCompleted(items: seq<Item>, u: UserId): (f: nat)
    ensures f <= |items|
  {
    if items == [] then 0
    else
      var f := FirstCompleted(items[..|items| - 1], u);
      var last := items[|items| - 1];
      if f < |items| - 1 then f
      else if last.completed && last.completedBy == Some(u) then |items| - 1
      else |items|
  }

  /** A user has a first completed item exactly when they completed one. */
  lemma {:induction false} FirstCompletedExists(items: seq<Item>, u: UserId)
    ensures FirstCompleted(items, u) < |items| <==> CompletedBy(items, u) > 0
    decreases |items|
  {
    if items != [] {
      FirstCompletedExists(items[..|items| - 1], u);
    }
  }

  /** The entries come in the order in which their users first completed an
      item. */
  lemma {:induction false} StatsOfOrder(items: seq<Item>)
    ensures forall j, k :: 0 <= j < k < |StatsOf(items)| ==>
              FirstCompleted(items, StatsOf(items)[j].user) < FirstCompleted(items, StatsOf(items)[k].user)
    decreases |items|
  {
    if items != [] {
      var init := items[..|items| - 1];
      var last := items[|items| - 1];
      StatsOfOrder(init);
      StatsOfCounts(init);
      var before := StatsOf(init);
      var after := StatsOf(items);
      assert after == Record(before, last);
      // every user with an entry so far keeps their first position
      forall j | 0 <= j < |before|
        ensures FirstCompleted(init, before[j].user) < |init|
        ensures FirstCompleted(items, before[j].user) == FirstCompleted(init, before[j].user)
      {
        assert IndexOf(before, before[j].user).Some?;
        FirstCompletedExists(init, before[j].user);
      }
      assert |after| >= |before|;
      assert forall j :: 0 <= j < |before| ==> after[j].user == before[j].user;
      if |after| > |before| {
        var u := last.completedBy.value;
        assert IndexOf(before, u).None?;
        assert after == before + [UserStat(u, 1, [last.text])];
        FirstCompletedExists(init, u);
        assert FirstCompleted(items, u) == |init|;
      }
    }
  }

  /** Opening an entry at the end leaves every earlier lookup unchanged. */
  lemma {:induction false} IndexOfAppend(stats: seq<UserStat>, e: UserStat)
    ensures forall u :: IndexOf(stats + [e], u) ==
              if IndexOf(stats, u).Some? then IndexOf(stats, u)
              else if e.user == u then Some(|stats|) else None
    decreases |stats|
  {
    if stats != [] {
      IndexOfAppend(stats[1..], e);
      assert (stats + [e])[1..] == stats[1..] + [e];
    }
  }

  /** Rewriting an entry for the same user leaves every lookup unchanged. */
  lemma {:induction false} IndexOfUpdate(stats: seq<UserStat>, k: nat, e: UserStat)
    requires k < |stats| && e.user == stats[k].user
    ensures forall u :: IndexOf(stats[k := e], u) == IndexOf(stats, u)
    decreases |stats|
  {
    if k > 0 {
      IndexOfUpdate(stats[1..], k - 1, e);
      assert stats[k := e][1..] == stats[1..][k - 1 := e];
    }
  }

  /** One iteration of the statistics loop: a checked item with a recorded
      completer opens that completer's entry on first sight, then adds one to
      its count and the item's text to its checkpoints; `index` maps each
      completer to the position of their entry. */
  method Tally(stats: seq<UserStat>, index: map<UserId, nat>, todo: Item)
    returns (stats': seq<UserStat>, index': map<UserId, nat>)
    requires forall u :: u in index <==> IndexOf(stats, u).Some?
    requires forall u :: u in index ==> IndexOf(stats, u) == Some(index[u])
    ensures stats' == Record(stats, todo)
    ensures forall u :: u in index' <==> IndexOf(stats', u).Some?
    ensures forall u :: u in index' ==> IndexOf(stats', u) == Some(index'[u])
  {
    if todo.completed && todo.completedBy.Some? {
      var userId := todo.completedBy.value;
      if userId !in index {
        // first sight: the entry opened at the end already holds this item
        var entry := UserStat(userId, 1, [todo.text]);
        IndexOfAppend(stats, entry);
        stats', index' := stats + [entry], index[userId := |stats|];
      } else {
        var k := index[userId];
        var entry := UserStat(userId, stats[k].count + 1, stats[k].checkpoints + [todo.text]);
        IndexOfUpdate(stats, k, entry);
        stats', index' := stats[k := entry], index;
      }
    } else {
      stats', index' := stats, index;
    }
  }

  /** The checkpoint-statistics handler, which only an admin reaches: 404
      when no task has the id; otherwise the entries are built in one pass
      over the task's checklist, each entry updated in place. */
  method CheckpointStats(actor: Actor, tasks: seq<Task>, id: TaskId) returns (r: Result<seq<UserStat>>)
    requires actor.IsAdmin()
    ensures FindTask(tasks, id).None? ==> r == Fail(NotFound(TaskNotFound))
    ensures FindTask(tasks, id).Some? ==> r == Ok(StatsOf(tasks[FindTask(tasks, id).value].checklist))
  {
    var found := FindTask(tasks, id);
    if found.None? {
      return Fail(NotFound(TaskNotFound));
    }
    var task := tasks[found.value];
    var items := task.checklist;
    var index: map<UserId, nat> := map[];
    var stats: seq<UserStat> := [];
    var i := 0;
    while i < |items|
      invariant 0 <= i <= |items|
      invariant stats == StatsOf(items[..i])
      invariant forall u :: u in index <==> IndexOf(stats, u).Some?
      invariant forall u :: u in index ==> IndexOf(stats, u) == Some(index[u])
    {
      assert items[..i + 1][..i] == items[..i];
      assert StatsOf(items[..i + 1]) == Record(stats, items[i]);
      stats, index := Tally(stats, index, items[i]);
      i := i + 1;
    }
    assert items[..i] == items;
    r := Ok(stats);
  }
}
