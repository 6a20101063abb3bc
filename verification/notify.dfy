/** The notification engine of NotificationService: who is told about which
    event, with which message, and the duplicate check that guards every insert. */
module Notify {
  import opened Model

  /** The board-name placeholder used when a task's board id does not resolve. */
  const UnknownBoard: string := "Unknown Board"

  /** The five task events that produce notices. */
  datatype TaskEvent = Created | Updated | Assigned | Archived | Restored

  /** The three board events that produce notices. */
  datatype BoardEvent = BoardMade | BoardEdited | BoardRemoved

  /** The name a task notice shows for a board id: the board's own name when the
      id resolves, the placeholder otherwise. */
  function BoardNameOf(boards: map<string, Board>, boardId: string): (r: string)
    ensures boardId in boards ==> r == boards[boardId].name
    ensures r == UnknownBoard <==> boardId !in boards || boards[boardId].name == UnknownBoard
  {
    if boardId in boards then boards[boardId].name else UnknownBoard
  }

  /** How a possibly absent name is written into a message: absent prints as "null". */
  function Shown(o: Option<string>): string {
    match o
    case Some(s) => s
    case None => "null"
  }

  /** `shouldNotifyUser`: nobody is told about their own action. */
  function ShouldNotifyUser(target: string, triggeredBy: string): (r: bool)
    ensures r <==> target != triggeredBy
  {
    target != triggeredBy
  }

  /** The type of a task notice: an ADMIN's creation notice tells the assignee
      the task was assigned to them. */
  function TaskKind(ev: TaskEvent, byAdmin: bool): (r: NotificationType)
    ensures !r.BoardCreated? && !r.BoardUpdated? && !r.BoardDeleted?
    ensures r.TaskCreated? <==> ev.Created? && !byAdmin
    ensures r.TaskAssigned? <==> ev.Assigned? || (ev.Created? && byAdmin)
    ensures r.TaskUpdated? <==> ev.Updated?
    ensures r.TaskArchived? <==> ev.Archived?
    ensures r.TaskRestored? <==> ev.Restored?
  {
    match ev
    case Created => if byAdmin then TaskAssigned else TaskCreated
    case Updated => TaskUpdated
    case Assigned => TaskAssigned
    case Archived => TaskArchived
    case Restored => TaskRestored
  }

  /** `sub` occurs somewhere in `s`. */
  predicate Contains(s: string, sub: string) {
    exists i :: 0 <= i <= |s| - |sub| && s[i..][..|sub|] == sub
  }

  /** `s` ends with `suffix`. */
  predicate EndsWith(s: string, suffix: string) {
    |suffix| <= |s| && s[|s| - |suffix|..] == suffix
  }

  /** A string occurs at the end of any string it closes. */
  lemma ContainsEnd(a: string, b: string)
    ensures Contains(a + b, b)
  {
    assert (a + b)[|a|..][..|b|] == b;
  }

  /** Appending text keeps an occurrence. */
  lemma ContainsBefore(s: string, q: string, sub: string)
    requires Contains(s, sub)
    ensures Contains(s + q, sub)
  {
    var i :| 0 <= i <= |s| - |sub| && s[i..][..|sub|] == sub;
    assert (s + q)[i..][..|sub|] == s[i..][..|sub|];
  }

  /** The closing part of a task message: the new status for an update or an
      assignment, a bare quote otherwise. */
  function Closing(ev: TaskEvent, status: string): string {
    if ev.Updated? || ev.Assigned? then "' to '" + status + "'" else "'"
  }

  /** Different statuses give different message endings after the same stem. */
  lemma ClosingInjective(p: string, ev: TaskEvent, s1: string, s2: string)
    requires ev.Updated? || ev.Assigned?
    requires p + Closing(ev, s1) == p + Closing(ev, s2)
    ensures s1 == s2
  {
    var m := p + Closing(ev, s1);
    assert |s1| == |s2|;
    assert s1 == m[|p| + 6..|m| - 1] == s2;
  }

  /** The message an ADMIN's action sends to the task's assignee, up to the
      closing part. */
  function AssigneeStem(ev: TaskEvent, title: string, boardName: string): (r: string)
    ensures Contains(r, title) && Contains(r, boardName)
  {
    var verb :=
      match ev
      case Created => "' has been assigned to you in board '"
      case Updated => "' assigned to you has been updated in board '"
      case Assigned => "' has been assigned to you in board '"
      case Archived => "' assigned to you has been archived in board '"
      case Restored => "' assigned to you has been restored in board '";
    ContainsEnd("Task '", title);
    ContainsBefore("Task '" + title, verb, title);
    ContainsBefore("Task '" + title + verb, boardName, title);
    ContainsEnd("Task '" + title + verb, boardName);
    "Task '" + title + verb + boardName
  }

  /** The message an ADMIN's action sends to the task's assignee. */
  function AssigneeMessage(ev: TaskEvent, t: Task, boardName: string): (r: string)
    ensures Contains(r, t.title) && Contains(r, boardName)
    ensures ev.Updated? || ev.Assigned? ==> EndsWith(r, "' to '" + t.status + "'")
  {
    var stem := AssigneeStem(ev, t.title, boardName);
    ContainsBefore(stem, Closing(ev, t.status), t.title);
    ContainsBefore(stem, Closing(ev, t.status), boardName);
    stem + Closing(ev, t.status)
  }

  /** The message any other caller's action sends to the ADMIN target, up to the
      closing part; it never mentions the status. */
  function AdminStem(ev: TaskEvent, title: string, assignee: Option<string>, boardName: string, actor: string): (r: string)
    ensures Contains(r, title) && Contains(r, boardName) && Contains(r, actor)
  {
    var head := if ev.Created? then "New task '" else "Task '";
    var verb :=
      match ev
      case Created => "' created by "
      case Updated => "' updated by "
      case Assigned => "' assigned to " + Shown(assignee) + " by "
      case Archived => "' archived by "
      case Restored => "' restored by ";
    var a := head + title;
    var b := a + verb + actor;
    var c := b + " in board '";
    ContainsEnd(head, title);
    ContainsBefore(a, verb, title);
    ContainsBefore(a + verb, actor, title);
    ContainsEnd(a + verb, actor);
    ContainsBefore(b, " in board '", title);
    ContainsBefore(b, " in board '", actor);
    ContainsBefore(c, boardName, title);
    ContainsBefore(c, boardName, actor);
    ContainsEnd(c, boardName);
    c + boardName
  }

  /** The message any other caller's action sends to the ADMIN target. */
  function AdminMessage(ev: TaskEvent, t: Task, boardName: string, actor: string): (r: string)
    ensures Contains(r, t.title) && Contains(r, boardName) && Contains(r, actor)
    ensures ev.Updated? || ev.Assigned? ==> EndsWith(r, "' to '" + t.status + "'")
  {
    var stem := AdminStem(ev, t.title, t.assignedTo, boardName, actor);
    ContainsBefore(stem, Closing(ev, t.status), t.title);
    ContainsBefore(stem, Closing(ev, t.status), boardName);
    ContainsBefore(stem, Closing(ev, t.status), actor);
    stem + Closing(ev, t.status)
  }

  /** The notice one of createTaskNotification, updateTaskNotification,
      assignTaskNotification, deleteTaskNotification or restoreTaskNotification
      would hand to safeSaveNotification, or None when it stays silent. */
  function TaskNotice(boards: map<string, Board>, ev: TaskEvent, t: Task, actor: User): (r: Option<Notification>)
    ensures IsAdmin(actor) ==>
              (r.Some? <==> t.assignedTo.Some? && t.assignedTo.value != actor.name && t.assignedTo.value != Admin)
    ensures IsAdmin(actor) && r.Some? ==>
              r.value.targetUser == t.assignedTo.value && r.value.targetUser != actor.name && r.value.targetUser != Admin
    ensures !IsAdmin(actor) ==> r.Some? && r.value.targetUser == Admin
    ensures r.Some? ==> r.value.triggeredBy == actor.name && !r.value.read
    ensures r.Some? ==> r.value.taskId == t.id && r.value.taskTitle == Some(t.title) && r.value.boardId == Some(t.boardId)
    ensures r.Some? ==> r.value.boardName == (if t.boardId in boards then boards[t.boardId].name else "Unknown Board")
    ensures r.Some? && ev == Created ==> r.value.kind == (if IsAdmin(actor) then TaskAssigned else TaskCreated)
    ensures r.Some? && ev == Updated ==> r.value.kind == TaskUpdated
    ensures r.Some? && ev == Assigned ==> r.value.kind == TaskAssigned
    ensures r.Some? && ev == Archived ==> r.value.kind == TaskArchived
    ensures r.Some? && ev == Restored ==> r.value.kind == TaskRestored
    ensures r.Some? ==> Contains(r.value.message, t.title) && Contains(r.value.message, r.value.boardName)
    ensures r.Some? && (ev.Updated? || ev.Assigned?) ==> EndsWith(r.value.message, "' to '" + t.status + "'")
    ensures !IsAdmin(actor) ==> Contains(r.value.message, actor.name)
  {
    var boardName := BoardNameOf(boards, t.boardId);
    if IsAdmin(actor) then
      if t.assignedTo.Some? && ShouldNotifyUser(t.assignedTo.value, actor.name) && t.assignedTo.value != Admin then
        Some(NewNotification(AssigneeMessage(ev, t, boardName), TaskKind(ev, true), t.id, Some(t.title),
                             Some(t.boardId), boardName, t.assignedTo.value, actor.name))
      else
        None
    else
      Some(NewNotification(AdminMessage(ev, t, boardName, actor.name), TaskKind(ev, false), t.id, Some(t.title),
                           Some(t.boardId), boardName, Admin, actor.name))
  }

  /** The text a board message opens with, before the board name. */
  function BoardHead(ev: BoardEvent): string {
    if ev.BoardMade? then "New board '" else "Board '"
  }

  /** The text between the board name and the actor in a board message. */
  function BoardVerb(ev: BoardEvent): string {
    match ev
    case BoardMade => "' created by "
    case BoardEdited => "' has been updated by "
    case BoardRemoved => "' has been deleted by "
  }

  /** The notice of createBoardNotification, updateBoardNotification or
      deleteBoardNotification: only a caller whose role is exactly USER is heard. */
  function BoardNotice(ev: BoardEvent, b: Board, actor: User): (r: Option<Notification>)
    ensures r.Some? <==> actor.role == "USER"
    ensures r.Some? ==> r.value.targetUser == Admin && r.value.triggeredBy == actor.name && !r.value.read
    ensures r.Some? ==> r.value.taskId == None && r.value.taskTitle == None
    ensures r.Some? ==> r.value.boardId == b.id && r.value.boardName == b.name
    ensures r.Some? ==> r.value.kind == (match ev
                                          case BoardMade => BoardCreated
                                          case BoardEdited => BoardUpdated
                                          case BoardRemoved => BoardDeleted)
    ensures r.Some? ==> Contains(r.value.message, b.name) && Contains(r.value.message, actor.name)
  {
    if actor.role == Restricted then
      var head := BoardHead(ev);
      var verb := BoardVerb(ev);
      ContainsEnd(head, b.name);
      ContainsBefore(head + b.name, verb, b.name);
      ContainsBefore(head + b.name + verb, actor.name, b.name);
      ContainsEnd(head + b.name + verb, actor.name);
      var kind :=
        match ev
        case BoardMade => BoardCreated
        case BoardEdited => BoardUpdated
        case BoardRemoved => BoardDeleted;
      Some(NewNotification(head + b.name + verb + actor.name, kind, None, None, b.id, b.name, Admin, actor.name))
    else
      None
  }

  /** The task-id clause of the duplicate test: both null, or the existing one is
      non-null and equal to the new one. */
  function SameTaskId(existing: Option<string>, incoming: Option<string>): (r: bool)
    ensures r <==> existing == incoming
  {
    (existing.None? && incoming.None?) || (existing.Some? && incoming.Some? && existing.value == incoming.value)
  }

  /** An existing notification that makes `incoming` a duplicate: same target, same
      type, same task id, still unread, and the identical message. */
  function Matches(existing: Notification, incoming: Notification): (r: bool)
    ensures r <==> existing == incoming.(taskTitle := existing.taskTitle, boardId := existing.boardId,
                                         boardName := existing.boardName, triggeredBy := existing.triggeredBy,
                                         read := false)
  {
    && existing.targetUser == incoming.targetUser
    && existing.kind == incoming.kind
    && SameTaskId(existing.taskId, incoming.taskId)
    && !existing.read
    && existing.message == incoming.message
  }

  /** The `anyMatch` scan of safeSaveNotification over the stored notifications. */
  function DuplicateExists(notes: seq<Notification>, incoming: Notification): (r: bool)
    ensures r <==> exists i :: 0 <= i < |notes| && Matches(notes[i], incoming)
    decreases |notes|
  {
    if |notes| == 0 then false
    else if Matches(notes[|notes| - 1], incoming) then true
    else DuplicateExists(notes[..|notes| - 1], incoming)
  }

  /** safeSaveNotification: insert unless an unread equivalent is already stored. */
  function SafeSave(notes: seq<Notification>, incoming: Notification): (r: seq<Notification>)
    ensures (exists i :: 0 <= i < |notes| && Matches(notes[i], incoming)) ==> r == notes
    ensures (forall i :: 0 <= i < |notes| ==> !Matches(notes[i], incoming)) ==> r == notes + [incoming]
    ensures r == notes <==> exists i :: 0 <= i < |notes| && Matches(notes[i], incoming)
  {
    if DuplicateExists(notes, incoming) then notes else notes + [incoming]
  }

  /** Hand a candidate notice, if any, to safeSaveNotification. */
  function Emit(notes: seq<Notification>, notice: Option<Notification>): (r: seq<Notification>)
    ensures notice.None? ==> r == notes
    ensures notice.Some? ==> r == SafeSave(notes, notice.value)
    ensures notes <= r && |r| <= |notes| + 1
    ensures notice.Some? && !notice.value.read ==> exists i :: 0 <= i < |r| && Matches(r[i], notice.value)
  {
    match notice
    case None => notes
    case Some(n) =>
      SafeSaveExtends(notes, n);
      if n.read then SafeSave(notes, n)
      else
        SavedIsDuplicate(notes, n);
        SafeSave(notes, n)
  }

  /** Saving never loses or alters what is stored: the old store is a prefix. */
  lemma SafeSaveExtends(notes: seq<Notification>, incoming: Notification)
    ensures |notes| <= |SafeSave(notes, incoming)| <= |notes| + 1
    ensures SafeSave(notes, incoming)[..|notes|] == notes
  {
  }

  /** An unread duplicate already stored stays a duplicate after any later save. */
  lemma {:induction false} DuplicateSurvivesSave(notes: seq<Notification>, other: Notification, incoming: Notification)
    requires exists i :: 0 <= i < |notes| && Matches(notes[i], incoming)
    ensures exists i :: 0 <= i < |SafeSave(notes, other)| && Matches(SafeSave(notes, other)[i], incoming)
  {
    var i :| 0 <= i < |notes| && Matches(notes[i], incoming);
    SafeSaveExtends(notes, other);
    assert SafeSave(notes, other)[i] == notes[i];
  }

  /** After saving a fresh (unread) notice, the store holds an unread duplicate of it. */
  lemma {:induction false} SavedIsDuplicate(notes: seq<Notification>, incoming: Notification)
    requires !incoming.read
    ensures exists i :: 0 <= i < |SafeSave(notes, incoming)| && Matches(SafeSave(notes, incoming)[i], incoming)
  {
    if forall i :: 0 <= i < |notes| ==> !Matches(notes[i], incoming) {
      var r := SafeSave(notes, incoming);
      assert r[|notes|] == incoming;
      assert Matches(r[|notes|], incoming);
    } else {
      var i :| 0 <= i < |notes| && Matches(notes[i], incoming);
      assert SafeSave(notes, incoming)[i] == notes[i];
    }
  }

  /** Dedup idempotence: saving the same fresh notice twice in a row stores it once. */
  lemma SafeSaveIdempotent(notes: seq<Notification>, incoming: Notification)
    requires !incoming.read
    ensures SafeSave(SafeSave(notes, incoming), incoming) == SafeSave(notes, incoming)
  {
    SavedIsDuplicate(notes, incoming);
  }

  /** Firing the same candidate twice in a row has the effect of firing it once. */
  lemma EmitIdempotent(notes: seq<Notification>, notice: Option<Notification>)
    requires notice.Some? ==> !notice.value.read
    ensures Emit(Emit(notes, notice), notice) == Emit(notes, notice)
  {
    if notice.Some? {
      SafeSaveIdempotent(notes, notice.value);
    }
  }

  /** A notice fired, then another, then the first again: the repeat is absorbed. */
  lemma EmitRepeatAbsorbed(notes: seq<Notification>, first: Option<Notification>, second: Option<Notification>)
    requires first.Some? ==> !first.value.read
    ensures Emit(Emit(Emit(notes, first), second), first) == Emit(Emit(notes, first), second)
  {
    if first.Some? {
      SavedIsDuplicate(notes, first.value);
      if second.Some? {
        DuplicateSurvivesSave(Emit(notes, first), second.value, first.value);
      }
    }
  }

  /** A task's notice does not depend on its archived flag. */
  lemma TaskNoticeIgnoresArchived(boards: map<string, Board>, ev: TaskEvent, t: Task, actor: User, flag: bool)
    ensures TaskNotice(boards, ev, t.(archived := flag), actor) == TaskNotice(boards, ev, t, actor)
  {
  }

  /** Two moves of the same task to different statuses are never mistaken for
      duplicates: the status closes the message. */
  lemma UpdateNoticesDiffer(boards: map<string, Board>, t: Task, actor: User, s1: string, s2: string)
    requires s1 != s2
    requires !IsAdmin(actor) || (t.assignedTo.Some? && t.assignedTo.value != actor.name && t.assignedTo.value != Admin)
    ensures TaskNotice(boards, Updated, t.(status := s1), actor).Some?
    ensures TaskNotice(boards, Updated, t.(status := s2), actor).Some?
    ensures TaskNotice(boards, Updated, t.(status := s1), actor).value.message
            != TaskNotice(boards, Updated, t.(status := s2), actor).value.message
  {
    var bn := BoardNameOf(boards, t.boardId);
    var stem := if IsAdmin(actor) then AssigneeStem(Updated, t.title, bn)
                else AdminStem(Updated, t.title, t.assignedTo, bn, actor.name);
    var m1 := TaskNotice(boards, Updated, t.(status := s1), actor).value.message;
    var m2 := TaskNotice(boards, Updated, t.(status := s2), actor).value.message;
    assert m1 == stem + Closing(Updated, s1);
    assert m2 == stem + Closing(Updated, s2);
    if m1 == m2 {
      ClosingInjective(stem, Updated, s1, s2);
    }
  }

  /** Two unread notices with different messages are both stored when neither has
      an unread duplicate stored yet, unlike a repeat of the same notice
      (EmitIdempotent). */
  lemma StatusChangeNotAbsorbed(notes: seq<Notification>, n1: Notification, n2: Notification)
    requires n1.message != n2.message && !n1.read
    requires !DuplicateExists(notes, n1) && !DuplicateExists(notes, n2)
    ensures Emit(Emit(notes, Some(n1)), Some(n2)) == notes + [n1, n2]
  {
    var mid := Emit(notes, Some(n1));
    assert mid == notes + [n1];
    assert forall i :: 0 <= i < |mid| ==> !Matches(mid[i], n2);
  }

  /** Moving a task to one status and then another stores both update notices
      when neither has an unread duplicate stored yet. */
  lemma StatusMovesBothStored(notes: seq<Notification>, boards: map<string, Board>, t: Task, actor: User,
                              s1: string, s2: string)
    requires s1 != s2
    requires !IsAdmin(actor) || (t.assignedTo.Some? && t.assignedTo.value != actor.name && t.assignedTo.value != Admin)
    requires !DuplicateExists(notes, TaskNotice(boards, Updated, t.(status := s1), actor).value)
    requires !DuplicateExists(notes, TaskNotice(boards, Updated, t.(status := s2), actor).value)
    ensures var n1 := TaskNotice(boards, Updated, t.(status := s1), actor);
            var n2 := TaskNotice(boards, Updated, t.(status := s2), actor);
            Emit(Emit(notes, n1), n2) == notes + [n1.value, n2.value]
  {
    UpdateNoticesDiffer(boards, t, actor, s1, s2);
    StatusChangeNotAbsorbed(notes, TaskNotice(boards, Updated, t.(status := s1), actor).value,
                            TaskNotice(boards, Updated, t.(status := s2), actor).value);
  }

  /** Two board notices of one kind from one caller carry the same message exactly
      when the boards have the same name: the board id is not in the text, so two
      same-name boards collide in the duplicate check while the first is unread. */
  lemma BoardNoticesCollideOnName(ev: BoardEvent, b1: Board, b2: Board, u: User)
    requires u.role == Restricted
    ensures BoardNotice(ev, b1, u).value.message == BoardNotice(ev, b2, u).value.message <==> b1.name == b2.name
  {
    var head := BoardHead(ev);
    var verb := BoardVerb(ev);
    var m1, m2 := BoardNotice(ev, b1, u).value.message, BoardNotice(ev, b2, u).value.message;
    assert m1 == head + b1.name + verb + u.name;
    assert m2 == head + b2.name + verb + u.name;
    if m1 == m2 {
      assert |b1.name| == |b2.name|;
      assert b1.name == m1[|head|..|head| + |b1.name|] == b2.name;
    }
  }

  /** Same-name boards created by one USER: while the first notice is unread, the
      second board's notice is absorbed. */
  lemma SameNameBoardNoticeAbsorbed(notes: seq<Notification>, b1: Board, b2: Board, u: User)
    requires u.role == Restricted && b1.name == b2.name
    ensures Emit(Emit(notes, BoardNotice(BoardMade, b1, u)), BoardNotice(BoardMade, b2, u))
            == Emit(notes, BoardNotice(BoardMade, b1, u))
  {
    var n1, n2 := BoardNotice(BoardMade, b1, u).value, BoardNotice(BoardMade, b2, u).value;
    BoardNoticesCollideOnName(BoardMade, b1, b2, u);
    SavedIsDuplicate(notes, n1);
    var mid := Emit(notes, Some(n1));
    var i :| 0 <= i < |mid| && Matches(mid[i], n1);
    assert Matches(mid[i], n2);
  }
}
