/** `UpdateNotificationPreferences.invoke`: set the delivery method on every notification that
    matches the filters and that belongs to the requester, or on any matching notification when
    the requester is PlatformOwner. */
module UpdateNotificationPreferences {
  import opened Base
  import opened Model
  import opened Tables

  /** The user and delivery-method filters. */
  predicate Matches(n: Notification, filterUser: Option<Id>, filterDelivery: Option<string>)
  {
    && (filterUser.Some? ==> n.userId == filterUser.value)
    && (Given(filterDelivery) ==> n.deliveryMethod == filterDelivery.value)
  }

  /** PlatformOwner, or the notification's recipient. */
  predicate MayUpdate(users: map<Id, User>, requester: Id, n: Notification)
  {
    IsOwner(users, requester) || n.userId == requester
  }

  function Selection(users: map<Id, User>, requester: Id, filterUser: Option<Id>, filterDelivery: Option<string>)
    : (Id, Notification) -> bool
  {
    (k: Id, n: Notification) => Matches(n, filterUser, filterDelivery) && MayUpdate(users, requester, n)
  }

  /** Only the delivery method changes. */
  function Apply(n: Notification, newDelivery: string): (m: Notification)
    ensures m.deliveryMethod == newDelivery
    ensures m.(deliveryMethod := n.deliveryMethod) == n
  {
    n.(deliveryMethod := newDelivery)
  }

  function Change(newDelivery: string): Notification -> Notification
  {
    (n: Notification) => Apply(n, newDelivery)
  }

  ghost function Spec(db: Db, requester: Id, newDelivery: string, filterUser: Option<Id>,
                      filterDelivery: Option<string>): Outcome<seq<Notification>>
  {
    if requester !in db.users then Fail(db, RequesterNotFound)
    else if Given(filterDelivery) && filterDelivery.value !in DeliveryMethods then
      Fail(db, InvalidArgument(FilterDeliveryMethod))
    else if newDelivery !in DeliveryMethods then Fail(db, InvalidArgument(NewDeliveryMethod))
    else
      var sel := Selection(db.users, requester, filterUser, filterDelivery);
      var upd := Change(newDelivery);
      Outcome(Ok(CollectWhere(db.notifications, sel, upd)),
              db.(notifications := UpdateWhere(db.notifications, sel, upd)))
  }

  /** One iteration of the loop body: the filters, then PlatformOwner or the recipient. */
  method Visit(users: map<Id, User>, requester: Id, newDelivery: string, filterUser: Option<Id>,
               filterDelivery: Option<string>, k: Id, notification: Notification)
    returns (selected: bool, updated: Notification)
    requires requester in users
    ensures selected == Selection(users, requester, filterUser, filterDelivery)(k, notification)
    ensures selected ==> updated == Change(newDelivery)(notification)
  {
    updated := notification;
    if filterUser.Some? && notification.userId != filterUser.value { return false, updated; }
    if Given(filterDelivery) && notification.deliveryMethod != filterDelivery.value { return false, updated; }
    assert Matches(notification, filterUser, filterDelivery);

    selected := users[requester].role == PlatformOwner || notification.userId == requester;
    if !selected { return; }

    updated := updated.(deliveryMethod := newDelivery);
  }

  method Invoke(store: Store, requester: Id, newDelivery: string, filterUser: Option<Id>,
                filterDelivery: Option<string>)
    returns (r: Result<seq<Notification>>)
    modifies store
    ensures Outcome(r, store.State()) == Spec(old(store.State()), requester, newDelivery, filterUser, filterDelivery)
  {
    if requester !in store.users { return Err(RequesterNotFound); }
    if Given(filterDelivery) && filterDelivery.value !in DeliveryMethods {
      return Err(InvalidArgument(FilterDeliveryMethod));
    }
    if newDelivery !in DeliveryMethods { return Err(InvalidArgument(NewDeliveryMethod)); }
    var updatedNotifications := UpdatePass(store, requester, newDelivery, filterUser, filterDelivery);
    return Ok(updatedNotifications);
  }

  /** The loop over `notifications.items()`: each selected notification is rewritten and appended
      to the reply. */
  method UpdatePass(store: Store, requester: Id, newDelivery: string, filterUser: Option<Id>,
                    filterDelivery: Option<string>)
    returns (updatedNotifications: seq<Notification>)
    requires requester in store.users
    modifies store`notifications
    ensures var sel := Selection(store.users, requester, filterUser, filterDelivery);
      && store.notifications == UpdateWhere(old(store.notifications), sel, Change(newDelivery))
      && updatedNotifications == CollectWhere(old(store.notifications), sel, Change(newDelivery))
  {
    ghost var sel := Selection(store.users, requester, filterUser, filterDelivery);
    ghost var upd := Change(newDelivery);
    ghost var original := store.notifications;
    var notifications := store.notifications;
    updatedNotifications := [];
    var users := store.users;
    var bound := GenerateId(notifications);
    for k := 0 to bound
      invariant notifications == UpdateBelow(original, sel, upd, k)
      invariant updatedNotifications == CollectBelow(original, sel, upd, k)
    {
      UpdateBelowStep(original, sel, upd, k);
      CollectBelowStep(original, sel, upd, k);
      if k !in notifications { continue; }
      var selected, notification := Visit(users, requester, newDelivery, filterUser, filterDelivery,
                                          k, notifications[k]);
      if !selected { continue; }
      notifications := notifications[k := notification];
      updatedNotifications := updatedNotifications + [notification];
    }
    store.notifications := notifications;
  }

  /** An invalid delivery method, as filter or as new value, is rejected with nothing changed. */
  lemma InvalidEnumTouchesNothing(db: Db, requester: Id, newDelivery: string, filterUser: Option<Id>,
                                  filterDelivery: Option<string>)
    requires (Given(filterDelivery) && filterDelivery.value !in DeliveryMethods) || newDelivery !in DeliveryMethods
    ensures Spec(db, requester, newDelivery, filterUser, filterDelivery).reply.Err?
    ensures Spec(db, requester, newDelivery, filterUser, filterDelivery).db == db
  {
  }

  /** A notification changes only if it matches the filters and the requester is its recipient
      or PlatformOwner; only its delivery method changes, to a valid one. */
  lemma UpdatedNotificationsMatchAndAreAuthorized(db: Db, requester: Id, newDelivery: string,
                                                  filterUser: Option<Id>, filterDelivery: Option<string>, k: Id)
    requires Spec(db, requester, newDelivery, filterUser, filterDelivery).reply.Ok?
    requires k in db.notifications
    ensures var after := Spec(db, requester, newDelivery, filterUser, filterDelivery).db.notifications[k];
      var n := db.notifications[k];
      var selected := Matches(n, filterUser, filterDelivery) && MayUpdate(db.users, requester, n);
      && (selected ==> after == n.(deliveryMethod := newDelivery) && after.deliveryMethod in DeliveryMethods)
      && (!selected ==> after == n)
  {
  }

  /** A user who is not PlatformOwner never changes another user's notification. */
  lemma OthersNotificationsUntouched(db: Db, requester: Id, newDelivery: string, filterUser: Option<Id>,
                                     filterDelivery: Option<string>, k: Id)
    requires requester in db.users && !IsOwner(db.users, requester)
    requires k in db.notifications && db.notifications[k].userId != requester
    ensures Spec(db, requester, newDelivery, filterUser, filterDelivery).db.notifications[k] == db.notifications[k]
  {
  }

  /** The reply lists exactly the updated notifications, one per selected notification. */
  lemma ReplyListsUpdatedNotifications(db: Db, requester: Id, newDelivery: string, filterUser: Option<Id>,
                                       filterDelivery: Option<string>, n: Notification)
    requires Spec(db, requester, newDelivery, filterUser, filterDelivery).reply.Ok?
    ensures var o := Spec(db, requester, newDelivery, filterUser, filterDelivery);
      var sel := Selection(db.users, requester, filterUser, filterDelivery);
      && (n in o.reply.value <==>
            exists k :: k in db.notifications && sel(k, db.notifications[k]) && o.db.notifications[k] == n)
      && |o.reply.value| == |Selected(db.notifications, sel)|
  {
    var sel := Selection(db.users, requester, filterUser, filterDelivery);
    var upd := Change(newDelivery);
    CollectWhereMembers(db.notifications, sel, upd, n);
    CollectWhereLength(db.notifications, sel, upd);
  }

  /** Only the notifications table changes, and it keeps its keys. */
  lemma OnlyNotificationsChange(db: Db, requester: Id, newDelivery: string, filterUser: Option<Id>,
                                filterDelivery: Option<string>)
    requires Spec(db, requester, newDelivery, filterUser, filterDelivery).reply.Ok?
    ensures var o := Spec(db, requester, newDelivery, filterUser, filterDelivery);
      o.db.notifications.Keys == db.notifications.Keys && o.db == db.(notifications := o.db.notifications)
  {
    var notifications := UpdateWhere(db.notifications, Selection(db.users, requester, filterUser, filterDelivery),
                                     Change(newDelivery));
    assert Spec(db, requester, newDelivery, filterUser, filterDelivery).db == db.(notifications := notifications);
  }
}
