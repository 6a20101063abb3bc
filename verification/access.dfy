/** The access-control predicates of BoardService and TaskService. They read the
    store but never change it. */
module Access {
  import opened Model

  /** BoardService.canAccessBoard(Board, User): having a task assigned on the
      board does not grant access to it. */
  function CanAccessBoard(b: Board, u: User): (r: bool)
    ensures r <==> IsAdmin(u) || b.createdBy == u.name
  {
    if IsAdmin(u) then true
    else b.createdBy == u.name
  }

  /** BoardService.canAccessBoard(String, User): the board must exist and pass
      canAccessBoard. */
  function CanAccessBoardById(boards: map<string, Board>, id: string, u: User): (r: bool)
    ensures r <==> id in boards && (IsAdmin(u) || boards[id].createdBy == u.name)
  {
    id in boards && CanAccessBoard(boards[id], u)
  }

  /** BoardService.canModifyBoard(String, User): ADMIN may modify any id, even
      one with no board behind it. */
  function CanModifyBoard(boards: map<string, Board>, id: string, u: User): (r: bool)
    ensures r <==> IsAdmin(u) || (id in boards && boards[id].createdBy == u.name)
    ensures id in boards ==> (r <==> CanAccessBoard(boards[id], u))
  {
    if IsAdmin(u) then true
    else id in boards && boards[id].createdBy == u.name
  }

  /** BoardService.canCreateTaskInBoard: the board must exist, then ADMIN or owner. */
  function BoardRuleCanCreateTask(boards: map<string, Board>, boardId: string, u: User): (r: bool)
    ensures r <==> boardId in boards && CanAccessBoard(boards[boardId], u)
  {
    if boardId !in boards then false
    else if IsAdmin(u) then true
    else boards[boardId].createdBy == u.name
  }

  /** TaskService.canCreateTaskInBoard: ADMIN only, whatever the board. */
  function TaskRuleCanCreateTask(boardId: string, u: User): (r: bool)
    ensures r <==> IsAdmin(u)
  {
    IsAdmin(u)
  }

  /** The two task-creation rules agree on existing boards except for a
      non-admin owner, whom only the BoardService rule admits. */
  lemma CreateRulesDiffer(boards: map<string, Board>, boardId: string, u: User)
    requires boardId in boards
    ensures TaskRuleCanCreateTask(boardId, u) ==> BoardRuleCanCreateTask(boards, boardId, u)
    ensures BoardRuleCanCreateTask(boards, boardId, u) && !TaskRuleCanCreateTask(boardId, u)
            <==> !IsAdmin(u) && boards[boardId].createdBy == u.name
  {
  }

  /** TaskService.canAccessTask: ADMIN, the creator, the assignee, or the owner of
      the task's board when that board still exists. */
  function CanAccessTask(boards: map<string, Board>, t: Task, u: User): (r: bool)
    ensures r <==> || IsAdmin(u)
                   || t.createdBy == u.name
                   || t.assignedTo == Some(u.name)
                   || (t.boardId in boards && boards[t.boardId].createdBy == u.name)
  {
    if IsAdmin(u) then true
    else if t.createdBy == u.name then true
    else if t.assignedTo.Some? && t.assignedTo.value == u.name then true
    else t.boardId in boards && boards[t.boardId].createdBy == u.name
  }

  /** TaskService.canModifyTask(String, User): ADMIN, or the assignee of an
      existing task. */
  function CanModifyTask(tasks: map<string, Task>, id: string, u: User): (r: bool)
    ensures r <==> IsAdmin(u) || (id in tasks && tasks[id].assignedTo == Some(u.name))
  {
    if IsAdmin(u) then true
    else if id !in tasks then false
    else tasks[id].assignedTo.Some? && tasks[id].assignedTo.value == u.name
  }

  /** TaskService.canUpdateTaskStatus: the drag-and-drop check, written out
      separately in the source with the same rule as canModifyTask. */
  function CanUpdateTaskStatus(tasks: map<string, Task>, id: string, u: User): (r: bool)
    ensures r <==> CanModifyTask(tasks, id, u)
  {
    if IsAdmin(u) then true
    else if id !in tasks then false
    else tasks[id].assignedTo.Some? && tasks[id].assignedTo.value == u.name
  }

  /** Whoever may modify an existing task may also read it. */
  lemma ModifyImpliesAccess(boards: map<string, Board>, tasks: map<string, Task>, id: string, u: User)
    requires id in tasks
    ensures CanModifyTask(tasks, id, u) ==> CanAccessTask(boards, tasks[id], u)
  {
  }

  /** Reading an existing task does not imply modifying it: a non-admin creator or
      board owner who is not the assignee may read but not modify. */
  lemma AccessWithoutModify(boards: map<string, Board>, tasks: map<string, Task>, id: string, u: User)
    requires id in tasks && !IsAdmin(u)
    requires tasks[id].assignedTo != Some(u.name)
    requires tasks[id].createdBy == u.name
    ensures CanAccessTask(boards, tasks[id], u) && !CanModifyTask(tasks, id, u)
  {
  }
}
