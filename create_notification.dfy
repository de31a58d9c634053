/** `CreateNotification.invoke`: a PlatformOwner or WikiProgramManager sends a notification to a user. */
module CreateNotification {
  import opened Base
  import opened Model
  import opened Tables

  /** The record stored for a new notification: unread, never read, delivered on the web,
      no e-mail sent, created now by the requester. */
  function NewNotification(requester: Id, target: Id, notificationType: string, title: string,
                           message: Option<string>, targetType: Option<string>, targetId: Option<Id>): Notification
  {
    Notification(target, notificationType, title, message, targetType, targetId,
                 false, None, "web", false, Now, requester)
  }

  ghost function Spec(db: Db, requester: Id, target: Id, notificationType: string, title: string,
                      message: Option<string>, targetType: Option<string>, targetId: Option<Id>): Outcome<Id>
  {
    if requester !in db.users then Fail(db, RequesterNotFound)
    else if target !in db.users then Fail(db, TargetUserNotFound)
    else if !IsManager(db.users, requester) then Fail(db, Unauthorized)
    else if notificationType !in NotificationTypes then Fail(db, InvalidArgument(NotificationType))
    else if Given(targetType) && targetType.value !in NotificationTargetTypes then Fail(db, InvalidArgument(TargetType))
    else
      var id := GenerateId(db.notifications);
      Outcome(Ok(id), db.(notifications := db.notifications[
        id := NewNotification(requester, target, notificationType, title, message, targetType, targetId)]))
  }

  method Invoke(store: Store, requester: Id, target: Id, notificationType: string, title: string,
                message: Option<string>, targetType: Option<string>, targetId: Option<Id>) returns (r: Result<Id>)
    modifies store
    ensures Outcome(r, store.State())
         == Spec(old(store.State()), requester, target, notificationType, title, message, targetType, targetId)
  {
    if requester !in store.users { return Err(RequesterNotFound); }
    if target !in store.users { return Err(TargetUserNotFound); }
    var requestingUser := store.users[requester];
    if requestingUser.role != PlatformOwner && requestingUser.role != WikiProgramManager {
      return Err(Unauthorized);
    }
    if notificationType !in NotificationTypes { return Err(InvalidArgument(NotificationType)); }
    if Given(targetType) && targetType.value !in NotificationTargetTypes { return Err(InvalidArgument(TargetType)); }

    var id := GenerateId(store.notifications);
    store.notifications := store.notifications[
      id := NewNotification(requester, target, notificationType, title, message, targetType, targetId)];
    return Ok(id);
  }

  /** The role gate comes before the type check: a plain user gets the authority error even
      for an invalid notification type. */
  lemma RoleCheckedBeforeType(db: Db, requester: Id, target: Id, notificationType: string, title: string,
                              message: Option<string>, targetType: Option<string>, targetId: Option<Id>)
    requires requester in db.users && target in db.users
    requires !IsManager(db.users, requester)
    ensures Spec(db, requester, target, notificationType, title, message, targetType, targetId)
         == Fail(db, Unauthorized)
  {
  }

  /** An unknown notification type, or a given target type other than space/page/comment,
      is rejected with nothing stored. */
  lemma RejectsUnknownTypes(db: Db, requester: Id, target: Id, notificationType: string, title: string,
                            message: Option<string>, targetType: Option<string>, targetId: Option<Id>)
    requires notificationType !in NotificationTypes
          || (Given(targetType) && targetType.value !in NotificationTargetTypes)
    ensures Spec(db, requester, target, notificationType, title, message, targetType, targetId).reply.Err?
    ensures Spec(db, requester, target, notificationType, title, message, targetType, targetId).db == db
  {
  }

  /** The call succeeds exactly when both users exist, the requester is a PlatformOwner or a
      WikiProgramManager, and both types are valid. */
  lemma SucceedsExactlyWhen(db: Db, requester: Id, target: Id, notificationType: string, title: string,
                            message: Option<string>, targetType: Option<string>, targetId: Option<Id>)
    ensures Spec(db, requester, target, notificationType, title, message, targetType, targetId).reply.Ok?
        <==> && requester in db.users && target in db.users
             && db.users[requester].role in {PlatformOwner, WikiProgramManager}
             && notificationType in NotificationTypes
             && (Given(targetType) ==> targetType.value in NotificationTargetTypes)
  {
  }

  /** On success one unread notification for the target user is stored under a fresh key, and
      nothing else changes. */
  lemma SuccessStoresOneUnreadNotification(db: Db, requester: Id, target: Id, notificationType: string,
                                           title: string, message: Option<string>, targetType: Option<string>,
                                           targetId: Option<Id>)
    requires Spec(db, requester, target, notificationType, title, message, targetType, targetId).reply.Ok?
    ensures var o := Spec(db, requester, target, notificationType, title, message, targetType, targetId);
      var id := o.reply.value;
      var n := o.db.notifications[id];
      && id !in db.notifications
      && o.db.notifications.Keys == db.notifications.Keys + {id}
      && (forall k :: k in db.notifications ==> o.db.notifications[k] == db.notifications[k])
      && n.userId == target && n.createdBy == requester
      && !n.isRead && n.readAt.None? && n.deliveryMethod == "web" && !n.emailSent
      && n.notificationType in NotificationTypes
      && o.db == db.(notifications := o.db.notifications)
  {
  }
}
