/** The task lifecycle of TaskService: create, full update, status-only update,
    archive (soft delete) and restore. Each call saves first and then hands the
    saved task to the notification engine; a silent or deduplicated notice never
    undoes the save. */
module Tasks {
  import opened Model
  import opened Access
  import opened Notify
  import opened Queries

  /** TaskService.createTask: ADMIN only, the board must exist, and the creator is
      forced to the caller; `freshId` is the id the store assigns on save. */
  function CreateTask(st: Store, t: Task, u: User, freshId: string): (r: Step<Task>)
    ensures !IsAdmin(u) ==> r == Step(st, Failure(Denied))
    ensures IsAdmin(u) && t.boardId !in st.boards ==> r == Step(st, Failure(MissingBoard))
    ensures r.out.Success? <==> IsAdmin(u) && t.boardId in st.boards
    ensures r.out.Success? ==>
              var s := r.out.value;
              var key := SaveKey(t.id, freshId);
              && s == t.(id := Some(key), createdBy := u.name)
              && r.st.tasks.Keys == st.tasks.Keys + {key}
              && r.st.tasks[key] == s
              && (forall k :: k in st.tasks && k != key ==> r.st.tasks[k] == st.tasks[k])
              && r.st.boards == st.boards
              && r.st.notes == Emit(st.notes, TaskNotice(st.boards, Created, s, u))
    ensures WellKeyed(st) ==> WellKeyed(r.st)
  {
    if !IsAdmin(u) then Step(st, Failure(Denied))
    else if t.boardId !in st.boards then Step(st, Failure(MissingBoard))
    else
      var key := SaveKey(t.id, freshId);
      var saved := t.(id := Some(key), createdBy := u.name);
      var notes := Emit(st.notes, TaskNotice(st.boards, Created, saved, u));
      Step(Store(st.boards, st.tasks[key := saved], notes), Success(saved))
  }

  /** The task after TaskService.updateTask's five setters: title, description,
      status, priority and assignee come from `upd`, everything else stays. */
  function CopyEditable(prev: Task, upd: Task): (t: Task)
    ensures t.title == upd.title && t.description == upd.description && t.status == upd.status
    ensures t.priority == upd.priority && t.assignedTo == upd.assignedTo
    ensures t.id == prev.id && t.boardId == prev.boardId && t.createdBy == prev.createdBy && t.archived == prev.archived
  {
    prev.(title := upd.title, description := upd.description, status := upd.status,
         priority := upd.priority, assignedTo := upd.assignedTo)
  }

  /** TaskService.updateTask: requires an existing task and canModifyTask; fires an
      update notice, then an assign notice when the assignee changed. */
  function UpdateTask(st: Store, id: string, upd: Task, u: User): (r: Step<Task>)
    ensures r.out.Success? <==> id in st.tasks && CanModifyTask(st.tasks, id, u)
    ensures r.out.Failure? ==> r == Step(st, Failure(MissingOrDenied))
    ensures r.out.Success? ==>
              var prev := st.tasks[id];
              var s := r.out.value;
              && s.title == upd.title && s.description == upd.description && s.status == upd.status
              && s.priority == upd.priority && s.assignedTo == upd.assignedTo
              && s.id == prev.id && s.boardId == prev.boardId && s.createdBy == prev.createdBy
              && s.archived == prev.archived
              && r.st.tasks.Keys == st.tasks.Keys
              && r.st.tasks[id] == s
              && (forall k :: k in st.tasks && k != id ==> r.st.tasks[k] == st.tasks[k])
              && r.st.boards == st.boards
              && r.st.notes == Emit(Emit(st.notes, TaskNotice(st.boards, Updated, s, u)),
                                    if prev.assignedTo != s.assignedTo then TaskNotice(st.boards, Assigned, s, u) else None)
    ensures WellKeyed(st) ==> WellKeyed(r.st)
  {
    if id in st.tasks && CanModifyTask(st.tasks, id, u) then
      var prev := st.tasks[id];
      var saved := CopyEditable(prev, upd);
      var notes := Emit(st.notes, TaskNotice(st.boards, Updated, saved, u));
      var notes' := if prev.assignedTo != saved.assignedTo then Emit(notes, TaskNotice(st.boards, Assigned, saved, u)) else notes;
      Step(Store(st.boards, st.tasks[id := saved], notes'), Success(saved))
    else
      Step(st, Failure(MissingOrDenied))
  }

  /** TaskService.updateTaskStatusOnly: only the assignee may move a task, and
      that holds for ADMIN too; only the status changes. */
  function UpdateTaskStatusOnly(st: Store, id: string, status: string, u: User): (r: Step<Task>)
    ensures id !in st.tasks ==> r == Step(st, Failure(MissingTask))
    ensures id in st.tasks && st.tasks[id].assignedTo != Some(u.name) ==> r == Step(st, Failure(Denied))
    ensures r.out.Success? <==> id in st.tasks && st.tasks[id].assignedTo == Some(u.name)
    ensures r.out.Success? ==>
              var s := r.out.value;
              && s == st.tasks[id].(status := status)
              && r.st.tasks.Keys == st.tasks.Keys
              && r.st.tasks[id] == s
              && (forall k :: k in st.tasks && k != id ==> r.st.tasks[k] == st.tasks[k])
              && r.st.boards == st.boards
              && r.st.notes == Emit(st.notes, TaskNotice(st.boards, Updated, s, u))
    ensures WellKeyed(st) ==> WellKeyed(r.st)
  {
    if id !in st.tasks then Step(st, Failure(MissingTask))
    else
      var t := st.tasks[id];
      // A task with no assignee fails the assignee comparison with an exception,
      // which the caller sees as the same failure as a different assignee.
      if t.assignedTo.None? || t.assignedTo.value != u.name then Step(st, Failure(Denied))
      else
        var saved := t.(status := status);
        Step(Store(st.boards, st.tasks[id := saved], Emit(st.notes, TaskNotice(st.boards, Updated, saved, u))),
             Success(saved))
  }

  /** TaskService.deleteTask: ADMIN only; archives the task and keeps the record. */
  function DeleteTask(st: Store, id: string, u: User): (r: Step<()>)
    ensures !IsAdmin(u) ==> r == Step(st, Failure(Denied))
    ensures IsAdmin(u) && id !in st.tasks ==> r == Step(st, Failure(MissingTask))
    ensures r.out.Success? <==> IsAdmin(u) && id in st.tasks
    ensures r.out.Success? ==>
              && r.st.tasks.Keys == st.tasks.Keys
              && r.st.tasks[id] == st.tasks[id].(archived := true)
              && (forall k :: k in st.tasks && k != id ==> r.st.tasks[k] == st.tasks[k])
              && r.st.boards == st.boards
              && r.st.notes == Emit(st.notes, TaskNotice(st.boards, Archived, r.st.tasks[id], u))
    ensures WellKeyed(st) ==> WellKeyed(r.st)
  {
    if !IsAdmin(u) then Step(st, Failure(Denied))
    else if id !in st.tasks then Step(st, Failure(MissingTask))
    else
      var saved := st.tasks[id].(archived := true);
      Step(Store(st.boards, st.tasks[id := saved], Emit(st.notes, TaskNotice(st.boards, Archived, saved, u))),
           Success(()))
  }

  /** TaskService.restoreTask: no role check at all; clears the archived flag. */
  function RestoreTask(st: Store, id: string, u: User): (r: Step<Task>)
    ensures id !in st.tasks ==> r == Step(st, Failure(MissingTask))
    ensures r.out.Success? <==> id in st.tasks
    ensures r.out.Success? ==>
              var s := r.out.value;
              && s == st.tasks[id].(archived := false)
              && r.st.tasks.Keys == st.tasks.Keys
              && r.st.tasks[id] == s
              && (forall k :: k in st.tasks && k != id ==> r.st.tasks[k] == st.tasks[k])
              && r.st.boards == st.boards
              && r.st.notes == Emit(st.notes, TaskNotice(st.boards, Restored, s, u))
    ensures WellKeyed(st) ==> WellKeyed(r.st)
  {
    if id !in st.tasks then Step(st, Failure(MissingTask))
    else
      var saved := st.tasks[id].(archived := false);
      Step(Store(st.boards, st.tasks[id := saved], Emit(st.notes, TaskNotice(st.boards, Restored, saved, u))),
           Success(saved))
  }

  /** Archiving then restoring an active task gives back the original task map. */
  lemma ArchiveRestoreRoundTrip(st: Store, id: string, admin: User, anyone: User)
    requires IsAdmin(admin) && id in st.tasks && !st.tasks[id].archived
    ensures RestoreTask(DeleteTask(st, id, admin).st, id, anyone).st.tasks == st.tasks
  {
    var mid := DeleteTask(st, id, admin).st;
    assert mid.tasks[id].(archived := false) == st.tasks[id];
  }

  /** Archiving puts the task in the archived listing of ADMIN and of its assignee,
      and keeps it in getAllTasks, which has no archived filter. */
  lemma ArchivedIsListed(st: Store, id: string, admin: User, v: User)
    requires IsAdmin(admin) && id in st.tasks
    requires st.tasks[id].assignedTo == Some(v.name)
    ensures var after := DeleteTask(st, id, admin).st.tasks;
            && id in GetArchivedTasks(after, admin)
            && id in GetArchivedTasks(after, v)
            && id in GetAllTasks(after, v)
  {
  }

  /** Restoring takes the task out of everyone's archived listing. */
  lemma RestoredIsNotArchived(st: Store, id: string, u: User, v: User)
    requires id in st.tasks
    ensures id !in GetArchivedTasks(RestoreTask(st, id, u).st.tasks, v)
  {
  }
}
