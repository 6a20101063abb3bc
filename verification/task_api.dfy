/** The decision logic of TaskController: role gates, request defaults, the
    admin/restricted split of an update, and the extra notices the controller
    fires on top of the ones TaskService already fired. */
module TaskApi {
  import opened Model
  import opened Access
  import opened Notify
  import opened Queries
  import opened Tasks

  /** Status and priority a created task gets when the request leaves them out. */
  const DefaultStatus: string := "To Do"
  const DefaultPriority: string := "Medium"

  /** The body of a create request; status and priority may be absent. */
  datatype TaskRequest = TaskRequest(
    title: string,
    description: string,
    status: Option<string>,
    priority: Option<string>,
    assignedTo: Option<string>,
    boardId: string)

  /** The body of an update request. */
  datatype TaskEdit = TaskEdit(
    title: string,
    description: string,
    status: string,
    priority: string,
    assignedTo: Option<string>,
    boardId: string)

  /** Whether a request names a different assignee than the task has, where
      "nobody" counts as a value of its own. */
  function AssignmentChanged(previous: Option<string>, requested: Option<string>): (r: bool)
    ensures r <==> previous != requested
  {
    match (previous, requested)
    case (None, None) => false
    case (Some(a), Some(b)) => a != b
    case _ => true
  }

  /** POST /tasks: Forbidden for non-admins before anything happens; a missing
      board is a BadRequest. The service and then the controller both fire the
      creation notice. */
  function CreateTaskEndpoint(st: Store, req: TaskRequest, u: User, freshId: string): (r: Reply<Task>)
    ensures !IsAdmin(u) ==> r == Reply(st, Forbidden)
    ensures IsAdmin(u) && req.boardId !in st.boards ==> r == Reply(st, BadRequest)
    ensures r.resp.Ok? <==> IsAdmin(u) && req.boardId in st.boards
    ensures r.resp.Ok? ==>
              var t := r.resp.body;
              && t.id == Some(freshId) && !t.archived
              && t.title == req.title && t.description == req.description
              && t.status == (if req.status.Some? then req.status.value else "To Do")
              && t.priority == (if req.priority.Some? then req.priority.value else "Medium")
              && t.assignedTo == req.assignedTo && t.createdBy == u.name && t.boardId == req.boardId
              && r.st.tasks == st.tasks[freshId := t]
              && r.st.boards == st.boards
  {
    if !IsAdmin(u) then Reply(st, Forbidden)
    else
      var t := NewTask(req.title, req.description, req.status.GetOr(DefaultStatus),
                       req.priority.GetOr(DefaultPriority), req.assignedTo, u.name, req.boardId);
      var step := CreateTask(st, t, u, freshId);
      match step.out
      case Failure(_) => Reply(step.st, BadRequest)
      case Success(created) =>
        Reply(step.st.(notes := Emit(step.st.notes, TaskNotice(step.st.boards, Created, created, u))), Ok(created))
  }

  /** The creation notice fires twice (service, then controller) yet is stored at
      most once: the outcome is that of a single firing. */
  lemma CreateNotifiesOnce(st: Store, req: TaskRequest, u: User, freshId: string)
    requires IsAdmin(u) && req.boardId in st.boards
    ensures var r := CreateTaskEndpoint(st, req, u, freshId);
            r.st.notes == Emit(st.notes, TaskNotice(st.boards, Created, r.resp.body, u))
  {
    var r := CreateTaskEndpoint(st, req, u, freshId);
    EmitIdempotent(st.notes, TaskNotice(st.boards, Created, r.resp.body, u));
  }

  /** ADMIN creating a task for someone else: one TASK_ASSIGNED notice for the
      assignee, appended once when no unread equivalent is stored yet. */
  lemma AdminCreateNotifiesAssignee(st: Store, req: TaskRequest, u: User, freshId: string)
    requires IsAdmin(u) && req.boardId in st.boards
    requires req.assignedTo.Some? && req.assignedTo.value != u.name && req.assignedTo.value != Admin
    ensures var r := CreateTaskEndpoint(st, req, u, freshId);
            var n := TaskNotice(st.boards, Created, r.resp.body, u);
            && n.Some? && n.value.kind == TaskAssigned && n.value.targetUser == req.assignedTo.value
            && n.value.triggeredBy == u.name
            && ((forall i :: 0 <= i < |st.notes| ==> !Matches(st.notes[i], n.value)) ==> r.st.notes == st.notes + [n.value])
  {
    CreateNotifiesOnce(st, req, u, freshId);
  }

  /** Whether a restricted caller's edit touches anything besides the status. */
  function ChangesMoreThanStatus(original: Task, req: TaskEdit): (r: bool)
    ensures !r <==> original.(title := req.title, description := req.description, priority := req.priority,
                              assignedTo := req.assignedTo, boardId := req.boardId) == original
  {
    || original.title != req.title
    || original.description != req.description
    || original.priority != req.priority
    || AssignmentChanged(original.assignedTo, req.assignedTo)
    || original.boardId != req.boardId
  }

  /** PUT /tasks/{id}. A task the caller cannot read is NotFound before any other
      check. ADMIN goes through updateTask and the controller adds an assign notice
      (assignee changed to someone) or an update notice; anyone else must be the
      assignee and may change the status only, through updateTaskStatusOnly. */
  function UpdateTaskEndpoint(st: Store, id: string, req: TaskEdit, u: User): (r: Reply<Task>)
    ensures !(id in st.tasks && CanAccessTask(st.boards, st.tasks[id], u)) ==> r == Reply(st, NotFound)
    ensures !r.resp.Ok? ==> r.st == st
    ensures r.resp.Ok? <==>
              && id in st.tasks && CanAccessTask(st.boards, st.tasks[id], u)
              && (IsAdmin(u) || (st.tasks[id].assignedTo == Some(u.name) && !ChangesMoreThanStatus(st.tasks[id], req)))
    ensures r.resp.Forbidden? <==>
              && id in st.tasks && CanAccessTask(st.boards, st.tasks[id], u) && !IsAdmin(u)
              && (st.tasks[id].assignedTo != Some(u.name) || ChangesMoreThanStatus(st.tasks[id], req))
    ensures IsAdmin(u) && id in st.tasks ==>
              && r.resp.Ok?
              && r.resp.body == st.tasks[id].(title := req.title, description := req.description, status := req.status,
                                              priority := req.priority, assignedTo := req.assignedTo)
    ensures !IsAdmin(u) && r.resp.Ok? ==>
              && id in st.tasks
              && r.resp.body == st.tasks[id].(status := req.status)
    ensures r.resp.Ok? ==>
              && r.st.tasks == st.tasks[id := r.resp.body]
              && r.st.boards == st.boards
  {
    match GetTaskById(st.boards, st.tasks, id, u)
    case None => Reply(st, NotFound)
    case Some(original) =>
      var changed := AssignmentChanged(original.assignedTo, req.assignedTo);
      if IsAdmin(u) then
        // The creator comes from the stored task, never from the request.
        var upd := NewTask(req.title, req.description, req.status, req.priority, req.assignedTo,
                           original.createdBy, req.boardId);
        var step := UpdateTask(st, id, upd, u);
        match step.out
        case Failure(_) => Reply(step.st, NotFound)
        case Success(t) =>
          var notice := if changed && req.assignedTo.Some? then TaskNotice(step.st.boards, Assigned, t, u)
                        else TaskNotice(step.st.boards, Updated, t, u);
          Reply(step.st.(notes := Emit(step.st.notes, notice)), Ok(t))
      else if Some(u.name) != original.assignedTo then Reply(st, Forbidden)
      else if ChangesMoreThanStatus(original, req) then Reply(st, Forbidden)
      else
        var step := UpdateTaskStatusOnly(st, id, req.status, u);
        match step.out
        case Failure(_) => Reply(step.st, NotFound)
        case Success(t) =>
          Reply(step.st.(notes := Emit(step.st.notes, TaskNotice(step.st.boards, Updated, t, u))), Ok(t))
  }

  /** ADMIN reassigning a task: updateTask fires UPDATED then ASSIGNED and the
      controller fires ASSIGNED once more; only the repeat is absorbed, so a new
      assignee other than the actor and "ADMIN" ends up holding both notices. */
  lemma AdminReassignNotifiesTwice(st: Store, id: string, req: TaskEdit, u: User)
    requires IsAdmin(u) && id in st.tasks
    requires req.assignedTo.Some? && st.tasks[id].assignedTo != req.assignedTo
    ensures var r := UpdateTaskEndpoint(st, id, req, u);
            var t := r.resp.body;
            r.st.notes == Emit(Emit(st.notes, TaskNotice(st.boards, Updated, t, u)), TaskNotice(st.boards, Assigned, t, u))
    ensures var r := UpdateTaskEndpoint(st, id, req, u);
            var v := req.assignedTo.value;
            v != u.name && v != Admin ==>
              && (exists i :: 0 <= i < |r.st.notes| && r.st.notes[i].targetUser == v
                              && r.st.notes[i].kind == TaskUpdated && !r.st.notes[i].read)
              && (exists i :: 0 <= i < |r.st.notes| && r.st.notes[i].targetUser == v
                              && r.st.notes[i].kind == TaskAssigned && !r.st.notes[i].read)
  {
    var r := UpdateTaskEndpoint(st, id, req, u);
    var t := r.resp.body;
    var upd := TaskNotice(st.boards, Updated, t, u);
    var asg := TaskNotice(st.boards, Assigned, t, u);
    EmitIdempotent(Emit(st.notes, upd), asg);
    var v := req.assignedTo.value;
    if v != u.name && v != Admin {
      var mid := Emit(st.notes, upd);
      SavedIsDuplicate(st.notes, upd.value);
      DuplicateSurvivesSave(mid, asg.value, upd.value);
      SavedIsDuplicate(mid, asg.value);
    }
  }

  /** ADMIN updating without changing the assignee: the service's and the
      controller's update notices collapse into one. */
  lemma AdminPlainUpdateNotifiesOnce(st: Store, id: string, req: TaskEdit, u: User)
    requires IsAdmin(u) && id in st.tasks
    requires st.tasks[id].assignedTo == req.assignedTo
    ensures var r := UpdateTaskEndpoint(st, id, req, u);
            r.st.notes == Emit(st.notes, TaskNotice(st.boards, Updated, r.resp.body, u))
  {
    var r := UpdateTaskEndpoint(st, id, req, u);
    EmitIdempotent(st.notes, TaskNotice(st.boards, Updated, r.resp.body, u));
  }

  /** ADMIN removing the assignee notifies nobody: every candidate notice is silent
      for a task without an assignee. */
  lemma AdminUnassignIsSilent(st: Store, id: string, req: TaskEdit, u: User)
    requires IsAdmin(u) && id in st.tasks && req.assignedTo.None?
    ensures UpdateTaskEndpoint(st, id, req, u).st.notes == st.notes
  {
  }

  /** An accepted restricted edit notifies the ADMIN target exactly as one
      status-update notice would, though service and controller both fire it. */
  lemma RestrictedUpdateNotifiesOnce(st: Store, id: string, req: TaskEdit, u: User)
    requires !IsAdmin(u) && UpdateTaskEndpoint(st, id, req, u).resp.Ok?
    ensures var r := UpdateTaskEndpoint(st, id, req, u);
            var n := TaskNotice(st.boards, Updated, r.resp.body, u);
            && r.st.notes == Emit(st.notes, n)
            && n.Some? && n.value.targetUser == Admin && n.value.kind == TaskUpdated
  {
    var r := UpdateTaskEndpoint(st, id, req, u);
    EmitIdempotent(st.notes, TaskNotice(st.boards, Updated, r.resp.body, u));
  }

  /** DELETE /tasks/{id}: Forbidden for non-admins before anything happens;
      archives an existing task, NotFound otherwise. */
  function DeleteTaskEndpoint(st: Store, id: string, u: User): (r: Reply<()>)
    ensures !IsAdmin(u) ==> r == Reply(st, Forbidden)
    ensures IsAdmin(u) && id !in st.tasks ==> r == Reply(st, NotFound)
    ensures r.resp.Ok? <==> IsAdmin(u) && id in st.tasks
    ensures r.resp.Ok? ==>
              && r.st.tasks == st.tasks[id := st.tasks[id].(archived := true)]
              && r.st.boards == st.boards
  {
    if !IsAdmin(u) then Reply(st, Forbidden)
    else
      match GetTaskById(st.boards, st.tasks, id, u)
      case Some(found) =>
        var step := DeleteTask(st, id, u);
        (match step.out
         case Failure(_) => Reply(step.st, NotFound)
         case Success(_) =>
           Reply(step.st.(notes := Emit(step.st.notes, TaskNotice(step.st.boards, Archived, found, u))), Ok(())))
      case None =>
        var step := DeleteTask(st, id, u);
        match step.out
        case Failure(_) => Reply(step.st, NotFound)
        case Success(_) => Reply(step.st, Ok(()))
  }

  /** The archive notice fires twice (service, then controller with the copy read
      before archiving) yet is stored at most once. */
  lemma DeleteNotifiesOnce(st: Store, id: string, u: User)
    requires IsAdmin(u) && id in st.tasks
    ensures DeleteTaskEndpoint(st, id, u).st.notes
            == Emit(st.notes, TaskNotice(st.boards, Archived, st.tasks[id].(archived := true), u))
  {
    var archivedTask := st.tasks[id].(archived := true);
    TaskNoticeIgnoresArchived(st.boards, Archived, st.tasks[id], u, true);
    EmitIdempotent(st.notes, TaskNotice(st.boards, Archived, archivedTask, u));
  }

  /** PUT /tasks/{id}/status: Forbidden when canUpdateTaskStatus fails; otherwise
      updateTaskStatusOnly, whose refusal of a non-assignee ADMIN surfaces as
      NotFound. */
  function UpdateTaskStatusEndpoint(st: Store, id: string, status: string, u: User): (r: Reply<Task>)
    ensures !CanUpdateTaskStatus(st.tasks, id, u) ==> r == Reply(st, Forbidden)
    ensures r.resp.Ok? <==> id in st.tasks && st.tasks[id].assignedTo == Some(u.name)
    ensures IsAdmin(u) && !(id in st.tasks && st.tasks[id].assignedTo == Some(u.name)) ==> r == Reply(st, NotFound)
    ensures r.resp.Ok? ==>
              && r.resp.body == st.tasks[id].(status := status)
              && r.st.tasks == st.tasks[id := r.resp.body]
              && r.st.boards == st.boards
              && r.st.notes == Emit(st.notes, TaskNotice(st.boards, Updated, r.resp.body, u))
  {
    if !CanUpdateTaskStatus(st.tasks, id, u) then Reply(st, Forbidden)
    else
      var step := UpdateTaskStatusOnly(st, id, status, u);
      match step.out
      case Failure(_) => Reply(step.st, NotFound)
      case Success(t) => Reply(step.st, Ok(t))
  }

  /** PUT /tasks/{id}/restore: no role check; a missing task is NotFound. */
  function RestoreTaskEndpoint(st: Store, id: string, u: User): (r: Reply<Task>)
    ensures r.resp.Ok? <==> id in st.tasks
    ensures !r.resp.Ok? ==> r == Reply(st, NotFound)
    ensures r.resp.Ok? ==>
              && r.resp.body == st.tasks[id].(archived := false)
              && r.st.tasks == st.tasks[id := r.resp.body]
              && r.st.boards == st.boards
              && r.st.notes == Emit(st.notes, TaskNotice(st.boards, Restored, r.resp.body, u))
  {
    var step := RestoreTask(st, id, u);
    match step.out
    case Failure(_) => Reply(step.st, NotFound)
    case Success(t) => Reply(step.st, Ok(t))
  }
}
