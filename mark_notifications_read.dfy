/** `MarkNotificationsRead.invoke`: mark the requester's unread notifications as read, either
    all of them or those whose IDs are listed, and report how many were marked. */
module MarkNotificationsRead {
  import opened Base
  import opened Model
  import opened Tables

  /** An unread notification of the requester that the call asks for: all of them with
      `mark_all_read`, otherwise those whose key is listed. */
  predicate ShouldMark(k: Id, n: Notification, requester: Id, ids: seq<Id>, markAll: bool)
  {
    n.userId == requester && !n.isRead && (markAll || k in ids)
  }

  function Selection(requester: Id, ids: seq<Id>, markAll: bool): (Id, Notification) -> bool
  {
    (k: Id, n: Notification) => ShouldMark(k, n, requester, ids, markAll)
  }

  /** Marking sets is_read and read_at and nothing else. */
  function MarkRead(n: Notification): (m: Notification)
    ensures m.isRead && m.readAt == Some(Now)
    ensures m.(isRead := n.isRead, readAt := n.readAt) == n
  {
    n.(isRead := true, readAt := Some(Now))
  }

  function Mark(): Notification -> Notification
  {
    (n: Notification) => MarkRead(n)
  }

  /** The reply is the number of notifications marked. */
  ghost function Spec(db: Db, requester: Id, ids: seq<Id>, markAll: bool): Outcome<int>
  {
    if requester !in db.users then Fail(db, RequesterNotFound)
    else if |ids| == 0 && !markAll then Fail(db, NothingToMark)
    else
      var sel := Selection(requester, ids, markAll);
      Outcome(Ok(|CollectWhere(db.notifications, sel, Mark())|),
              db.(notifications := UpdateWhere(db.notifications, sel, Mark())))
  }

  method Invoke(store: Store, requester: Id, ids: seq<Id>, markAll: bool) returns (r: Result<int>)
    modifies store
    ensures Outcome(r, store.State()) == Spec(old(store.State()), requester, ids, markAll)
  {
    if requester !in store.users { return Err(RequesterNotFound); }
    if |ids| == 0 && !markAll { return Err(NothingToMark); }
    var markedCount := MarkPass(store, requester, ids, markAll);
    return Ok(markedCount);
  }

  /** The loop over `notifications.items()`, counting the notifications it marks. */
  method MarkPass(store: Store, requester: Id, ids: seq<Id>, markAll: bool) returns (markedCount: int)
    modifies store`notifications
    ensures store.notifications == UpdateWhere(old(store.notifications), Selection(requester, ids, markAll), Mark())
    ensures markedCount == |CollectWhere(old(store.notifications), Selection(requester, ids, markAll), Mark())|
  {
    ghost var sel := Selection(requester, ids, markAll);
    ghost var upd := Mark();
    ghost var original := store.notifications;
    ghost var marked: seq<Notification> := [];
    var notifications := store.notifications;
    markedCount := 0;
    var bound := GenerateId(notifications);
    for k := 0 to bound
      invariant notifications == UpdateBelow(original, sel, upd, k)
      invariant marked == CollectBelow(original, sel, upd, k)
      invariant markedCount == |marked|
    {
      UpdateBelowStep(original, sel, upd, k);
      CollectBelowStep(original, sel, upd, k);
      if k !in notifications { continue; }
      var notification := notifications[k];
      if notification.userId != requester { continue; }
      if notification.isRead { continue; }
      var shouldMark := markAll || (|ids| > 0 && k in ids);
      if shouldMark {
        notification := notification.(isRead := true, readAt := Some(Now));
        notifications := notifications[k := notification];
        marked := marked + [notification];
        markedCount := markedCount + 1;
      }
    }
    store.notifications := notifications;
  }

  /** Neither IDs nor `mark_all_read` is an error, and nothing is marked. */
  lemma NothingRequestedIsRejected(db: Db, requester: Id)
    requires requester in db.users
    ensures Spec(db, requester, [], false) == Fail(db, NothingToMark)
  {
  }

  /** A notification is marked exactly when it is the requester's, unread and asked for; then
      only is_read and read_at change. Every other notification is unchanged. */
  lemma MarksExactlyTheRequested(db: Db, requester: Id, ids: seq<Id>, markAll: bool, k: Id)
    requires Spec(db, requester, ids, markAll).reply.Ok?
    requires k in db.notifications
    ensures var after := Spec(db, requester, ids, markAll).db.notifications;
      var n := db.notifications[k];
      && k in after
      && (ShouldMark(k, n, requester, ids, markAll) ==> after[k] == MarkRead(n))
      && (!ShouldMark(k, n, requester, ids, markAll) ==> after[k] == n)
  {
  }

  /** Another user's notification is never touched, even when its ID is listed. */
  lemma OthersNotificationsUntouched(db: Db, requester: Id, ids: seq<Id>, markAll: bool, k: Id)
    requires k in db.notifications && db.notifications[k].userId != requester
    ensures var o := Spec(db, requester, ids, markAll);
      k in o.db.notifications && o.db.notifications[k] == db.notifications[k]
  {
  }

  /** With `mark_all_read`, none of the requester's notifications is left unread. */
  lemma MarkAllLeavesNoneUnread(db: Db, requester: Id, ids: seq<Id>, k: Id)
    requires Spec(db, requester, ids, true).reply.Ok?
    requires k in db.notifications && db.notifications[k].userId == requester
    ensures Spec(db, requester, ids, true).db.notifications[k].isRead
  {
  }

  /** The count is the number of the requester's unread notifications the call asked for. */
  lemma CountIsUnreadRequested(db: Db, requester: Id, ids: seq<Id>, markAll: bool)
    requires Spec(db, requester, ids, markAll).reply.Ok?
    ensures Spec(db, requester, ids, markAll).reply.value
         == |set k | k in db.notifications && ShouldMark(k, db.notifications[k], requester, ids, markAll)|
  {
    var sel := Selection(requester, ids, markAll);
    CollectWhereLength(db.notifications, sel, Mark());
    assert Selected(db.notifications, sel)
        == set k | k in db.notifications && ShouldMark(k, db.notifications[k], requester, ids, markAll);
  }

  /** After marking, no notification is selected any more. */
  lemma MarkedTableSelectsNothing(notifications: map<Id, Notification>, requester: Id, ids: seq<Id>, markAll: bool)
    ensures var sel := Selection(requester, ids, markAll);
      var once := UpdateWhere(notifications, sel, Mark());
      && UpdateWhere(once, sel, Mark()) == once
      && CollectWhere(once, sel, Mark()) == []
  {
    var sel := Selection(requester, ids, markAll);
    var once := UpdateWhere(notifications, sel, Mark());
    forall k | k in once ensures !sel(k, once[k]) {
      if sel(k, notifications[k]) {
        assert once[k] == MarkRead(notifications[k]);
      }
    }
    CollectWhereEmpty(once, sel, Mark());
  }

  /** Repeating the call marks nothing more and reports zero. */
  lemma RepeatMarksNothing(db: Db, requester: Id, ids: seq<Id>, markAll: bool)
    requires Spec(db, requester, ids, markAll).reply.Ok?
    ensures var once := Spec(db, requester, ids, markAll).db;
      Spec(once, requester, ids, markAll) == Outcome(Ok(0), once)
  {
    var sel := Selection(requester, ids, markAll);
    var once := db.(notifications := UpdateWhere(db.notifications, sel, Mark()));
    assert Spec(db, requester, ids, markAll).db == once;
    MarkedTableSelectsNothing(db.notifications, requester, ids, markAll);
    assert once.(notifications := UpdateWhere(once.notifications, sel, Mark())) == once;
  }
}
