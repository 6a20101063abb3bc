/** The read side of NotificationService: listing, unread counts, and the two
    operations that flip the read flag. A notification's id is its index. */
module ReadState {
  import opened Model

  /** The notifications addressed to `name`, in store order. */
  function ForTarget(notes: seq<Notification>, name: string): (r: seq<Notification>)
    ensures |r| <= |notes|
    ensures forall n :: n in r <==> n in notes && n.targetUser == name
    ensures forall x :: multiset(r)[x] == if x.targetUser == name then multiset(notes)[x] else 0
    decreases |notes|
  {
    if |notes| == 0 then []
    else
      var rest := ForTarget(notes[..|notes| - 1], name);
      var last := notes[|notes| - 1];
      assert notes == notes[..|notes| - 1] + [last];
      if last.targetUser == name then rest + [last] else rest
  }

  /** getNotifications: ADMIN sees the whole store, anyone else their own. */
  function GetNotifications(notes: seq<Notification>, u: User): (r: seq<Notification>)
    ensures IsAdmin(u) ==> r == notes
    ensures !IsAdmin(u) ==> forall n :: n in r <==> n in notes && n.targetUser == u.name
    ensures !IsAdmin(u) ==> forall x :: multiset(r)[x] == if x.targetUser == u.name then multiset(notes)[x] else 0
  {
    if IsAdmin(u) then notes else ForTarget(notes, u.name)
  }

  /** A notification that still counts as unread for `name`. */
  predicate UnreadFor(n: Notification, name: string) {
    n.targetUser == name && !n.read
  }

  /** The positions of the notifications that are unread for `name`. */
  ghost function UnreadIndices(notes: seq<Notification>, name: string): set<int> {
    set i | 0 <= i < |notes| && UnreadFor(notes[i], name)
  }

  /** How the unread positions grow by one notification at the end. */
  lemma UnreadIndicesSnoc(notes: seq<Notification>, name: string)
    requires |notes| > 0
    ensures var n := |notes| - 1;
            && n !in UnreadIndices(notes[..n], name)
            && UnreadIndices(notes, name)
               == UnreadIndices(notes[..n], name) + (if UnreadFor(notes[n], name) then {n} else {})
  {
    var n := |notes| - 1;
    assert forall i :: 0 <= i < n ==> notes[..n][i] == notes[i];
  }

  /** getUnreadCount: the number of unread notifications addressed to `name`,
      whatever the caller's role. */
  function UnreadCount(notes: seq<Notification>, name: string): (c: nat)
    ensures c == |UnreadIndices(notes, name)|
    ensures c <= |notes|
    ensures c == 0 <==> forall i :: 0 <= i < |notes| ==> !UnreadFor(notes[i], name)
    decreases |notes|
  {
    if |notes| == 0 then 0
    else
      var rest := UnreadCount(notes[..|notes| - 1], name);
      assert forall i :: 0 <= i < |notes| - 1 ==> notes[..|notes| - 1][i] == notes[i];
      UnreadIndicesSnoc(notes, name);
      if UnreadFor(notes[|notes| - 1], name) then rest + 1 else rest
  }

  /** Whether `u` may mark `n` as read. */
  predicate MayMark(n: Notification, u: User) {
    IsAdmin(u) || n.targetUser == u.name
  }

  /** markAsRead: sets the flag of notification `id` when it exists and the caller
      is ADMIN or its target; otherwise nothing changes. */
  function MarkAsRead(notes: seq<Notification>, id: int, u: User): (r: seq<Notification>)
    ensures |r| == |notes|
    ensures forall i :: 0 <= i < |notes| && i != id ==> r[i] == notes[i]
    ensures 0 <= id < |notes| && (IsAdmin(u) || notes[id].targetUser == u.name) ==>
              r[id].read && r[id] == notes[id].(read := true)
    ensures !(0 <= id < |notes| && (IsAdmin(u) || notes[id].targetUser == u.name)) ==> r == notes
  {
    if 0 <= id < |notes| && MayMark(notes[id], u) then
      notes[id := notes[id].(read := true)]
    else
      notes
  }

  /** markAllAsRead: ADMIN marks every notification, anyone else only those
      addressed to them; records already read are not touched. */
  method MarkAllAsRead(notes: seq<Notification>, u: User) returns (r: seq<Notification>)
    ensures |r| == |notes|
    ensures forall i :: 0 <= i < |notes| ==> r[i].read == (notes[i].read || MayMark(notes[i], u))
    ensures forall i :: 0 <= i < |notes| ==> r[i] == notes[i].(read := r[i].read)
    ensures forall i :: 0 <= i < |notes| && !MayMark(notes[i], u) ==> r[i] == notes[i]
    ensures IsAdmin(u) ==> forall i :: 0 <= i < |r| ==> r[i].read
    ensures UnreadCount(r, u.name) == 0
    ensures forall n :: n in GetNotifications(r, u) ==> n.read
  {
    r := [];
    var k := 0;
    while k < |notes|
      invariant 0 <= k <= |notes|
      invariant |r| == k
      invariant forall i :: 0 <= i < k ==> r[i].read == (notes[i].read || MayMark(notes[i], u))
      invariant forall i :: 0 <= i < k ==> r[i] == notes[i].(read := r[i].read)
    {
      var n := notes[k];
      if !n.read && MayMark(n, u) {
        n := n.(read := true);
      }
      r := r + [n];
      k := k + 1;
    }
    forall n | n in GetNotifications(r, u)
      ensures n.read
    {
      var i :| 0 <= i < |r| && r[i] == n;
      assert r[i].targetUser == notes[i].targetUser;
    }
  }

  /** Marking one notification read leaves the unread count of every user other
      than its target unchanged. */
  lemma {:induction false} MarkAsReadOthersUnaffected(notes: seq<Notification>, id: int, u: User, name: string)
    requires 0 <= id < |notes| && notes[id].targetUser != name
    ensures UnreadCount(MarkAsRead(notes, id, u), name) == UnreadCount(notes, name)
  {
    UnreadCountPointwise(notes, MarkAsRead(notes, id, u), name);
  }

  /** Two stores of equal length that agree on which entries are unread for
      `name` have the same unread count for `name`. */
  lemma {:induction false} UnreadCountPointwise(a: seq<Notification>, b: seq<Notification>, name: string)
    requires |a| == |b|
    requires forall i :: 0 <= i < |a| ==> (UnreadFor(a[i], name) <==> UnreadFor(b[i], name))
    ensures UnreadCount(a, name) == UnreadCount(b, name)
  {
    assert UnreadIndices(a, name) == UnreadIndices(b, name);
  }

  /** Notices addressed to the literal ADMIN target never count for any other
      username: two stores that differ only in such notices give the same count,
      so USER-triggered notices stay out of an administrator's count when the
      administrator has another name. */
  lemma AdminTargetNotCounted(a: seq<Notification>, b: seq<Notification>, name: string)
    requires name != Admin && |a| == |b|
    requires forall i :: 0 <= i < |a| && a[i] != b[i] ==> a[i].targetUser == Admin && b[i].targetUser == Admin
    ensures UnreadCount(a, name) == UnreadCount(b, name)
  {
    UnreadCountPointwise(a, b, name);
  }

  /** Marking one's own unread notification lowers one's count by exactly one. */
  lemma MarkOwnDecrements(notes: seq<Notification>, id: int, u: User)
    requires 0 <= id < |notes| && notes[id].targetUser == u.name && !notes[id].read
    ensures UnreadCount(MarkAsRead(notes, id, u), u.name) == UnreadCount(notes, u.name) - 1
  {
    var after := MarkAsRead(notes, id, u);
    var before, now := UnreadIndices(notes, u.name), UnreadIndices(after, u.name);
    assert id in before;
    assert forall i :: i in now <==> i in before && i != id by {
      forall i ensures i in now <==> i in before && i != id {
        if 0 <= i < |notes| && i != id {
          assert after[i] == notes[i];
        }
      }
    }
    assert now == before - {id};
  }

  /** Appending one notification raises a count by one exactly when it is unread
      for that user. */
  lemma UnreadCountSnoc(notes: seq<Notification>, x: Notification, name: string)
    ensures UnreadCount(notes + [x], name) == UnreadCount(notes, name) + (if UnreadFor(x, name) then 1 else 0)
  {
    assert (notes + [x])[..|notes|] == notes;
  }

  /** The unread count is the number of unread entries in the filtered list. */
  lemma {:induction false} UnreadCountForTarget(notes: seq<Notification>, name: string)
    ensures UnreadCount(ForTarget(notes, name), name) == UnreadCount(notes, name)
    decreases |notes|
  {
    if |notes| > 0 {
      var n := |notes| - 1;
      UnreadCountForTarget(notes[..n], name);
      if notes[n].targetUser == name {
        UnreadCountSnoc(ForTarget(notes[..n], name), notes[n], name);
      }
    }
  }

  /** The unread badge matches the list: the count getUnreadCount reports is the
      number of unread entries in the caller's getNotifications list, for a
      non-admin and for an administrator named "ADMIN". */
  lemma UnreadCountMatchesList(notes: seq<Notification>, u: User)
    requires !IsAdmin(u) || u.name == Admin
    ensures UnreadCount(GetNotifications(notes, u), u.name) == UnreadCount(notes, u.name)
  {
    if !IsAdmin(u) {
      UnreadCountForTarget(notes, u.name);
    }
  }

  /** A caller may mark a notification read exactly when getNotifications lists it
      for them. */
  lemma MarkableIffListed(notes: seq<Notification>, id: int, u: User)
    requires 0 <= id < |notes|
    ensures MayMark(notes[id], u) <==> notes[id] in GetNotifications(notes, u)
  {
  }
}
