/** The task record and the handlers that change it: the checklist update,
    the direct status update and the field update with re-assignment, each
    behind the same access rule; plus creation, lookup and deletion. */
module Tasks {
  import opened Common
  import opened Checklist

  type TaskId = nat

  const AccessDenied := "Access denied"
  const TaskNotFound := "Task not found"
  const NotAnArray := "assignedTo must be an array of user ids"

  /** The access rule of reading one task and of its three update handlers:
      an admin, or a member of the task's assignees. */
  predicate MayAccess(actor: Actor, assignedTo: seq<UserId>)
  {
    actor.IsAdmin() || actor.id in assignedTo
  }

  /** The `assignedTo` field of a request body: falsy, a truthy non-array, or an id list. */
  datatype Assignees = NotGiven | NotArray | Ids(ids: seq<UserId>)

  /** The body of a field update. Strings use "" for a falsy value, the
      optional fields None. */
  datatype TaskBody = TaskBody(
    title: string,
    description: string,
    priority: Option<Priority>,
    dueDate: Option<int>,
    todoChecklist: Option<seq<Item>>,
    attachments: Option<seq<string>>,
    assignedTo: Assignees)

  /** Whether the sorted id lists differ: the same ids with the same
      multiplicities, in any order, count as unchanged. */
  predicate AssignmentChanged(before: seq<UserId>, after: seq<UserId>)
  {
    multiset(before) != multiset(after)
  }

  /** The ids of `after` that `before` does not hold, in `after`'s order:
      the users who get the "new task" notification. */
  function NewlyAssigned(before: seq<UserId>, after: seq<UserId>): (r: seq<UserId>)
    ensures forall x :: x in r <==> x in after && x !in before
    ensures r == [] <==> forall x :: x in after ==> x in before
    ensures |r| <= |after|
  {
    if after == [] then []
    else if after[0] in before then NewlyAssigned(before, after[1..])
    else [after[0]] + NewlyAssigned(before, after[1..])
  }

  /** Changing the assignees from {A, B} to {A, C} resets the checklist and
      notifies C alone. */
  lemma SwapOneAssignee(a: UserId, b: UserId, c: UserId)
    requires a != b && b != c && a != c
    ensures AssignmentChanged([a, b], [a, c])
    ensures NewlyAssigned([a, b], [a, c]) == [c]
  {
    assert c in multiset([a, c]) && c !in multiset([a, b]);
    assert NewlyAssigned([a, b], [a, c][1..]) == [c];
  }

  /** Re-sending the same assignees in another order changes nothing and
      notifies nobody. */
  lemma ReorderedAssignees(before: seq<UserId>, after: seq<UserId>)
    requires multiset(before) == multiset(after)
    ensures !AssignmentChanged(before, after)
    ensures NewlyAssigned(before, after) == []
  {
    forall x | x in after ensures x in before {
      assert x in multiset(after);
      assert x in multiset(before);
    }

  }

  class Task {
    const id: TaskId
    var title: string
    var description: string
    var priority: Priority
    var dueDate: Option<int>
    var status: Status
    var progress: int
    var assignedTo: seq<UserId>
    const createdBy: seq<UserId>
    var checklist: seq<Item>
    var attachments: seq<string>
    const createdAt: int

    ghost predicate Valid()
      reads this
    {
      0 <= progress <= 100
    }

    /** Every stored field that may change, except the assignee list. */
    ghost function OtherFields(): (string, string, Priority, Option<int>, Status, int, seq<Item>, seq<string>)
      reads this
    {
      (title, description, priority, dueDate, status, progress, checklist, attachments)
    }

    /** A task record with the given field values. */
    constructor Init(id: TaskId, title: string, description: string, priority: Priority,
                     dueDate: Option<int>, status: Status, progress: int,
                     assignedTo: seq<UserId>, createdBy: seq<UserId>, checklist: seq<Item>,
                     attachments: seq<string>, createdAt: int)
      requires 0 <= progress <= 100
      ensures Valid()
      ensures this.id == id && this.title == title && this.description == description
      ensures this.priority == priority && this.dueDate == dueDate && this.status == status
      ensures this.progress == progress && this.assignedTo == assignedTo
      ensures this.createdBy == createdBy && this.checklist == checklist
      ensures this.attachments == attachments && this.createdAt == createdAt
    {
      this.id, this.title, this.description, this.priority := id, title, description, priority;
      this.dueDate, this.status, this.progress := dueDate, status, progress;
      this.assignedTo, this.createdBy, this.checklist := assignedTo, createdBy, checklist;
      this.attachments, this.createdAt := attachments, createdAt;
    }

    /** The checklist handler: after the access check, the incoming completion
        flags are applied index by index to a working copy; the first refused
        index answers 403 and nothing is saved; otherwise the copy is saved with
        the recomputed progress and status. A missing checklist in the body
        makes the loop throw, which the handler answers with 500. */
    method UpdateChecklist(actor: Actor, incoming: Option<seq<bool>>) returns (r: Outcome)
      requires Valid()
      modifies this`checklist, this`progress, this`status
      ensures Valid()
      ensures !MayAccess(actor, assignedTo) ==> r == Failed(Forbidden(AccessDenied))
      ensures MayAccess(actor, assignedTo) && incoming.None? ==> r == Failed(ServerError)
      ensures MayAccess(actor, assignedTo) && incoming.Some? ==>
                r == match Merge(old(checklist), incoming.value, actor)
                     case Ok(_) => Done
                     case Fail(e) => Failed(e)
      ensures r.Failed? ==>
                checklist == old(checklist) && progress == old(progress) && status == old(status)
      ensures r.Done? ==> incoming.Some? && checklist == Merge(old(checklist), incoming.value, actor).value
      ensures r.Done? ==> |checklist| == |old(checklist)|
      ensures r.Done? ==> progress == Progress(checklist)
      ensures r.Done? ==> (status == Completed <==> progress == 100)
      ensures r.Done? ==> (status == InProgress <==> 0 < progress < 100)
      ensures r.Done? ==> (status == Pending <==> progress == 0)
    {
      if !MayAccess(actor, assignedTo) {
        return Failed(Forbidden(AccessDenied));
      }
      if incoming.None? {
        return Failed(ServerError);
      }
      var want := incoming.value;
      var work := checklist;
      var i := 0;
      while i < |want|
        invariant 0 <= i <= |want|
        invariant |work| == |checklist|
        invariant forall j :: 0 <= j < i && j < |checklist| ==> ItemStep(checklist[j], want[j], actor).Ok?
        invariant forall j :: 0 <= j < |work| ==>
                    work[j] == if j < i then ItemStep(checklist[j], want[j], actor).value else checklist[j]
      {
        if i < |work| {
          var existing := work[i];
          // trying to complete
          if want[i] && !existing.completed {
            if existing.completedBy.None? {
              existing := existing.(completed := true, completedBy := Some(actor.id));
            } else if existing.completedBy.value != actor.id && !actor.IsAdmin() {
              MergeFirstRefusal(checklist, want, actor, i);
              return Failed(Forbidden(AlreadyCompletedMsg));
            }
          }
          // trying to uncheck
          if !want[i] && existing.completed {
            if existing.completedBy.Some? && existing.completedBy.value == actor.id {
              existing := existing.(completed := false, completedBy := None);
            } else if !actor.IsAdmin() {
              MergeFirstRefusal(checklist, want, actor, i);
              return Failed(Forbidden(CannotUncheckMsg));
            } else {
              existing := existing.(completed := false, completedBy := None);
            }
          }
          work := work[i := existing];
        }
        i := i + 1;
      }
      MergePointwise(checklist, want, actor);
      ghost var merged := Merge(checklist, want, actor);
      assert merged.Ok?;
      assert work == merged.value;

      checklist := work;
      var completeCount := CountCompleted(checklist);
      var totalItems := |checklist|;
      progress := if totalItems > 0 then RoundPercent(completeCount, totalItems) else 0;
      if progress == 100 {
        status := Completed;
      } else if progress > 0 {
        status := InProgress;
      } else {
        status := Pending;
      }
      r := Done;
    }

    /** The status handler: a missing status keeps the current one; when the
        resulting status is Completed every item is checked (completers left as
        they were) and progress is forced to 100; any other status touches
        nothing else. */
    method UpdateStatus(actor: Actor, requested: Option<Status>) returns (r: Outcome)
      requires Valid()
      modifies this`status, this`checklist, this`progress
      ensures Valid()
      ensures r.Failed? <==> !MayAccess(actor, assignedTo)
      ensures r.Failed? ==> r.error == Forbidden(AccessDenied)
      ensures r.Failed? ==>
                checklist == old(checklist) && progress == old(progress) && status == old(status)
      ensures r.Done? ==> status == OptOrElse(requested, old(status))
      ensures r.Done? && status == Completed ==>
                checklist == CompleteAll(old(checklist)) && progress == 100
      ensures r.Done? && status != Completed ==>
                checklist == old(checklist) && progress == old(progress)
    {
      if !MayAccess(actor, assignedTo) {
        return Failed(Forbidden(AccessDenied));
      }
      status := OptOrElse(requested, status);
      if status == Completed {
        var i := 0;
        while i < |checklist|
          invariant 0 <= i <= |checklist|
          invariant status == Completed && |checklist| == |old(checklist)|
          invariant forall j :: 0 <= j < |checklist| ==>
                      checklist[j] == if j < i then old(checklist)[j].(completed := true) else old(checklist)[j]
        {
          checklist := checklist[i := checklist[i].(completed := true)];
          i := i + 1;
        }
        progress := 100;
      }
      r := Done;
    }

    /** The field-update handler: each falsy body field keeps its old value; a
        truthy non-array `assignedTo` is a 400 and nothing is saved; new
        assignees whose multiset differs from the old ones reset every item of
        the (possibly just replaced) checklist; progress and status are left as
        they were. `notify` are the ids that get the assignment email. */
    method Update(actor: Actor, body: TaskBody) returns (r: Outcome, notify: seq<UserId>)
      requires Valid()
      modifies this`title, this`description, this`priority, this`dueDate
      modifies this`checklist, this`attachments, this`assignedTo
      ensures Valid()
      ensures !MayAccess(actor, old(assignedTo)) ==> r == Failed(Forbidden(AccessDenied))
      ensures MayAccess(actor, old(assignedTo)) && body.assignedTo.NotArray? ==>
                r == Failed(BadRequest(NotAnArray))
      ensures r.Done? <==> MayAccess(actor, old(assignedTo)) && !body.assignedTo.NotArray?
      ensures r.Failed? ==> notify == []
      ensures r.Failed? ==>
                && title == old(title) && description == old(description)
                && priority == old(priority) && dueDate == old(dueDate)
                && checklist == old(checklist) && attachments == old(attachments)
                && assignedTo == old(assignedTo)
      ensures r.Done? ==>
                && title == OrElse(body.title, old(title))
                && description == OrElse(body.description, old(description))
                && priority == OptOrElse(body.priority, old(priority))
                && dueDate == (if body.dueDate.Some? then body.dueDate else old(dueDate))
                && attachments == OptOrElse(body.attachments, old(attachments))
      ensures r.Done? ==>
                assignedTo == if body.assignedTo.Ids? then body.assignedTo.ids else old(assignedTo)
      ensures r.Done? ==>
                checklist == if AssignmentChanged(old(assignedTo), assignedTo)
                             then ResetAll(OptOrElse(body.todoChecklist, old(checklist)))
                             else OptOrElse(body.todoChecklist, old(checklist))
      ensures r.Done? ==> notify == NewlyAssigned(old(assignedTo), assignedTo)
    {
      var originalAssignedTo := assignedTo;
      if !MayAccess(actor, assignedTo) {
        return Failed(Forbidden(AccessDenied)), [];
      }
      // the source assigns the fields before the 400 below, but does not save them then
      var newTitle := OrElse(body.title, title);
      var newDescription := OrElse(body.description, description);
      var newPriority := OptOrElse(body.priority, priority);
      var newDueDate := if body.dueDate.Some? then body.dueDate else dueDate;
      var items := OptOrElse(body.todoChecklist, checklist);
      var newAttachments := OptOrElse(body.attachments, attachments);
      var assignees := assignedTo;
      if !body.assignedTo.NotGiven? {
        if body.assignedTo.NotArray? {
          return Failed(BadRequest(NotAnArray)), [];
        }
        var assignedToChanged := AssignmentChanged(assignedTo, body.assignedTo.ids);
        assignees := body.assignedTo.ids;
        if assignedToChanged {
          ghost var given := items;
          var i := 0;
          while i < |items|
            invariant 0 <= i <= |items|
            invariant |items| == |given|
            invariant forall j :: 0 <= j < |items| ==>
                        items[j] == if j < i then given[j].(completed := false, completedBy := None) else given[j]
          {
            items := items[i := items[i].(completed := false, completedBy := None)];
            i := i + 1;
          }
        }
      }
      title, description, priority, dueDate := newTitle, newDescription, newPriority, newDueDate;
      checklist, attachments, assignedTo := items, newAttachments, assignees;
      r := Done;
      notify := NewlyAssigned(originalAssignedTo, assignedTo);
    }
  }

  /** The create handler, which only an admin reaches: anything but an id list
      as `assignedTo` is a 400; otherwise a Pending task at 0% created by the
      actor, whose assignees are all notified. */
  method CreateTask(id: TaskId, actor: Actor, title: string, description: string,
                    priority: Priority, dueDate: Option<int>, assignedTo: Assignees,
                    attachments: seq<string>, todoChecklist: Option<seq<Item>>, now: int)
    returns (r: Result<Task>, notify: seq<UserId>)
    requires actor.IsAdmin()
    ensures r.Fail? <==> !assignedTo.Ids?
    ensures r.Fail? ==> r.error == BadRequest(NotAnArray) && notify == []
    ensures r.Ok? ==> fresh(r.value) && r.value.Valid()
    ensures r.Ok? ==> r.value.id == id && r.value.status == Pending && r.value.progress == 0
    ensures r.Ok? ==> r.value.createdBy == [actor.id] && r.value.createdAt == now
    ensures r.Ok? ==> r.value.assignedTo == assignedTo.ids && notify == assignedTo.ids
    ensures r.Ok? ==> r.value.checklist == OptOrElse(todoChecklist, [])
    ensures r.Ok? ==> r.value.title == title && r.value.description == description
    ensures r.Ok? ==> r.value.priority == priority && r.value.dueDate == dueDate
    ensures r.Ok? ==> r.value.attachments == attachments
  {
    if !assignedTo.Ids? {
      return Fail(BadRequest(NotAnArray)), [];
    }
    var task := new Task.Init(id, title, description, priority, dueDate, Pending, 0,
                              assignedTo.ids, [actor.id], OptOrElse(todoChecklist, []),
                              attachments, now);
    r := Ok(task);
    notify := task.assignedTo;
  }

  /** The position of the first task with the given id, as `findById` finds it. */
  function FindTask(tasks: seq<Task>, id: TaskId): (k: Option<nat>)
    ensures k.None? <==> forall j :: 0 <= j < |tasks| ==> tasks[j].id != id
    ensures k.Some? ==> k.value < |tasks| && tasks[k.value].id == id
    ensures k.Some? ==> forall j :: 0 <= j < k.value ==> tasks[j].id != id
  {
    if tasks == [] then None
    else if tasks[0].id == id then Some(0)
    else match FindTask(tasks[1..], id)
      case None => None
      case Some(k) => Some(k + 1)
  }

  /** Reading one task: 404 when no task has the id, 403 when the actor may
      not access it, the task otherwise. */
  function GetTaskById(tasks: seq<Task>, id: TaskId, actor: Actor): (r: Result<Task>)
    reads tasks
    ensures r == Fail(NotFound(TaskNotFound)) <==> forall t :: t in tasks ==> t.id != id
    ensures r.Ok? ==> r.value in tasks && r.value.id == id
    ensures r.Ok? ==> actor.IsAdmin() || actor.id in r.value.assignedTo
    ensures r.Fail? ==> r.error == NotFound(TaskNotFound) || r.error == Forbidden(AccessDenied)
    ensures actor.IsAdmin() ==> r.Ok? || r.error.NotFound?
    ensures FindTask(tasks, id).Some? && MayAccess(actor, tasks[FindTask(tasks, id).value].assignedTo) ==>
              r == Ok(tasks[FindTask(tasks, id).value])
    ensures FindTask(tasks, id).Some? && !MayAccess(actor, tasks[FindTask(tasks, id).value].assignedTo) ==>
              r == Fail(Forbidden(AccessDenied))
  {
    match FindTask(tasks, id)
    case None => Fail(NotFound(TaskNotFound))
    case Some(k) =>
      if !MayAccess(actor, tasks[k].assignedTo) then Fail(Forbidden(AccessDenied))
      else Ok(tasks[k])
  }

  /** The delete handler, which only an admin reaches: 404 when no task has the
      id, otherwise the store without that task. */
  function DeleteTask(tasks: seq<Task>, id: TaskId, actor: Actor): (r: Result<seq<Task>>)
    requires actor.IsAdmin()
    ensures r == Fail(NotFound(TaskNotFound)) <==> forall t :: t in tasks ==> t.id != id
    ensures r.Fail? ==> r.error == NotFound(TaskNotFound)
    ensures r.Ok? ==> |r.value| == |tasks| - 1
    ensures r.Ok? ==> forall t :: t in r.value ==> t in tasks
    ensures r.Ok? ==> multiset(r.value) + multiset{FindTaskOf(tasks, id)} == multiset(tasks)
  {
    match FindTask(tasks, id)
    case None => Fail(NotFound(TaskNotFound))
    case Some(k) =>
      assert tasks == tasks[..k] + [tasks[k]] + tasks[k + 1..];
      Ok(tasks[..k] + tasks[k + 1..])
  }

  /** The task `findById` returns, when there is one. */
  function FindTaskOf(tasks: seq<Task>, id: TaskId): Task
    requires exists t :: t in tasks && t.id == id
  {
    var k := FindTask(tasks, id);
    assert k.Some?;
    tasks[k.value]
  }
}
