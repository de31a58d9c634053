/** `UpdateWatchersStatus.invoke`: set the watch type (and optionally the notification flag) on
    every watcher that matches the filters and that belongs to the requester, or on any
    matching watcher when the requester is PlatformOwner. */
module UpdateWatchersStatus {
  import opened Base
  import opened Model
  import opened Tables

  /** The user, target-type and target filters. */
  predicate Matches(w: Watcher, filterUser: Option<Id>, filterTargetType: Option<string>, filterTarget: Option<Id>)
  {
    && (filterUser.Some? ==> w.userId == filterUser.value)
    && (Given(filterTargetType) ==> w.targetType == filterTargetType.value)
    && (filterTarget.Some? ==> w.targetId == filterTarget.value)
  }

  /** PlatformOwner, or the watcher's own user. */
  predicate MayUpdate(users: map<Id, User>, requester: Id, w: Watcher)
  {
    IsOwner(users, requester) || w.userId == requester
  }

  function Selection(users: map<Id, User>, requester: Id, filterUser: Option<Id>, filterTargetType: Option<string>,
                     filterTarget: Option<Id>): (Id, Watcher) -> bool
  {
    (k: Id, w: Watcher) => Matches(w, filterUser, filterTargetType, filterTarget) && MayUpdate(users, requester, w)
  }

  /** The watch type is always set; the notification flag only when supplied. */
  function Apply(w: Watcher, newWatchType: string, newNotificationsEnabled: Option<bool>): (v: Watcher)
    ensures v.watchType == newWatchType
    ensures v.notificationsEnabled
         == (if newNotificationsEnabled.Some? then newNotificationsEnabled.value else w.notificationsEnabled)
    ensures v.(watchType := w.watchType, notificationsEnabled := w.notificationsEnabled) == w
  {
    w.(watchType := newWatchType,
       notificationsEnabled := if newNotificationsEnabled.Some? then newNotificationsEnabled.value
                               else w.notificationsEnabled)
  }

  function Change(newWatchType: string, newNotificationsEnabled: Option<bool>): Watcher -> Watcher
  {
    (w: Watcher) => Apply(w, newWatchType, newNotificationsEnabled)
  }

  ghost function Spec(db: Db, requester: Id, newWatchType: string, filterUser: Option<Id>,
                      filterTargetType: Option<string>, filterTarget: Option<Id>,
                      newNotificationsEnabled: Option<bool>): Outcome<seq<Watcher>>
  {
    if requester !in db.users then Fail(db, RequesterNotFound)
    else if Given(filterTargetType) && filterTargetType.value !in WatchTargetTypes then
      Fail(db, InvalidArgument(FilterTargetType))
    else if newWatchType !in WatchTypes then Fail(db, InvalidArgument(NewWatchType))
    else
      var sel := Selection(db.users, requester, filterUser, filterTargetType, filterTarget);
      var upd := Change(newWatchType, newNotificationsEnabled);
      Outcome(Ok(CollectWhere(db.watchers, sel, upd)), db.(watchers := UpdateWhere(db.watchers, sel, upd)))
  }

  /** One iteration of the loop body: the filters, then PlatformOwner or the watcher's own user. */
  method Visit(users: map<Id, User>, requester: Id, newWatchType: string, filterUser: Option<Id>,
               filterTargetType: Option<string>, filterTarget: Option<Id>, newNotificationsEnabled: Option<bool>,
               k: Id, watcher: Watcher)
    returns (selected: bool, updated: Watcher)
    requires requester in users
    ensures selected == Selection(users, requester, filterUser, filterTargetType, filterTarget)(k, watcher)
    ensures selected ==> updated == Change(newWatchType, newNotificationsEnabled)(watcher)
  {
    updated := watcher;
    if filterUser.Some? && watcher.userId != filterUser.value { return false, updated; }
    if Given(filterTargetType) && watcher.targetType != filterTargetType.value { return false, updated; }
    if filterTarget.Some? && watcher.targetId != filterTarget.value { return false, updated; }
    assert Matches(watcher, filterUser, filterTargetType, filterTarget);

    selected := users[requester].role == PlatformOwner || watcher.userId == requester;
    if !selected { return; }

    var notificationsEnabled := watcher.notificationsEnabled;
    if newNotificationsEnabled.Some? { notificationsEnabled := newNotificationsEnabled.value; }
    updated := watcher.(watchType := newWatchType, notificationsEnabled := notificationsEnabled);
  }

  method Invoke(store: Store, requester: Id, newWatchType: string, filterUser: Option<Id>,
                filterTargetType: Option<string>, filterTarget: Option<Id>, newNotificationsEnabled: Option<bool>)
    returns (r: Result<seq<Watcher>>)
    modifies store
    ensures Outcome(r, store.State())
         == Spec(old(store.State()), requester, newWatchType, filterUser, filterTargetType, filterTarget,
                 newNotificationsEnabled)
  {
    if requester !in store.users { return Err(RequesterNotFound); }
    if Given(filterTargetType) && filterTargetType.value !in WatchTargetTypes {
      return Err(InvalidArgument(FilterTargetType));
    }
    if newWatchType !in WatchTypes { return Err(InvalidArgument(NewWatchType)); }
    var updatedWatchers := UpdatePass(store, requester, newWatchType, filterUser, filterTargetType, filterTarget,
                                      newNotificationsEnabled);
    return Ok(updatedWatchers);
  }

  /** The loop over `watchers.items()`: each selected watcher is rewritten and appended to the reply. */
  method UpdatePass(store: Store, requester: Id, newWatchType: string, filterUser: Option<Id>,
                    filterTargetType: Option<string>, filterTarget: Option<Id>, newNotificationsEnabled: Option<bool>)
    returns (updatedWatchers: seq<Watcher>)
    requires requester in store.users
    modifies store`watchers
    ensures var sel := Selection(store.users, requester, filterUser, filterTargetType, filterTarget);
      && store.watchers == UpdateWhere(old(store.watchers), sel, Change(newWatchType, newNotificationsEnabled))
      && updatedWatchers == CollectWhere(old(store.watchers), sel, Change(newWatchType, newNotificationsEnabled))
  {
    ghost var sel := Selection(store.users, requester, filterUser, filterTargetType, filterTarget);
    ghost var upd := Change(newWatchType, newNotificationsEnabled);
    ghost var original := store.watchers;
    var watchers := store.watchers;
    updatedWatchers := [];
    var users := store.users;
    var bound := GenerateId(watchers);
    for k := 0 to bound
      invariant watchers == UpdateBelow(original, sel, upd, k)
      invariant updatedWatchers == CollectBelow(original, sel, upd, k)
    {
      UpdateBelowStep(original, sel, upd, k);
      CollectBelowStep(original, sel, upd, k);
      if k !in watchers { continue; }
      var selected, watcher := Visit(users, requester, newWatchType, filterUser, filterTargetType,
                                     filterTarget, newNotificationsEnabled, k, watchers[k]);
      if !selected { continue; }
      watchers := watchers[k := watcher];
      updatedWatchers := updatedWatchers + [watcher];
    }
    store.watchers := watchers;
  }

  /** An invalid target type or watch type is rejected with nothing changed. */
  lemma InvalidEnumTouchesNothing(db: Db, requester: Id, newWatchType: string, filterUser: Option<Id>,
                                  filterTargetType: Option<string>, filterTarget: Option<Id>,
                                  newNotificationsEnabled: Option<bool>)
    requires (Given(filterTargetType) && filterTargetType.value !in WatchTargetTypes) || newWatchType !in WatchTypes
    ensures Spec(db, requester, newWatchType, filterUser, filterTargetType, filterTarget, newNotificationsEnabled)
              .reply.Err?
    ensures Spec(db, requester, newWatchType, filterUser, filterTargetType, filterTarget, newNotificationsEnabled)
              .db == db
  {
  }

  /** A watcher changes only if it matches the filters and the requester owns it or is
      PlatformOwner; it then carries the new watch type. */
  lemma UpdatedWatchersMatchAndAreAuthorized(db: Db, requester: Id, newWatchType: string, filterUser: Option<Id>,
                                             filterTargetType: Option<string>, filterTarget: Option<Id>,
                                             newNotificationsEnabled: Option<bool>, k: Id)
    requires Spec(db, requester, newWatchType, filterUser, filterTargetType, filterTarget, newNotificationsEnabled)
               .reply.Ok?
    requires k in db.watchers
    ensures var after := Spec(db, requester, newWatchType, filterUser, filterTargetType, filterTarget,
                              newNotificationsEnabled).db.watchers[k];
      var w := db.watchers[k];
      var selected := Matches(w, filterUser, filterTargetType, filterTarget) && MayUpdate(db.users, requester, w);
      && (selected ==> after == Apply(w, newWatchType, newNotificationsEnabled) && after.watchType in WatchTypes)
      && (!selected ==> after == w)
  {
  }

  /** A user who is not PlatformOwner never changes another user's watcher. */
  lemma OthersWatchersUntouched(db: Db, requester: Id, newWatchType: string, filterUser: Option<Id>,
                                filterTargetType: Option<string>, filterTarget: Option<Id>,
                                newNotificationsEnabled: Option<bool>, k: Id)
    requires requester in db.users && !IsOwner(db.users, requester)
    requires k in db.watchers && db.watchers[k].userId != requester
    ensures Spec(db, requester, newWatchType, filterUser, filterTargetType, filterTarget, newNotificationsEnabled)
              .db.watchers[k] == db.watchers[k]
  {
  }

  /** The reply lists exactly the updated watchers, one per selected watcher. */
  lemma ReplyListsUpdatedWatchers(db: Db, requester: Id, newWatchType: string, filterUser: Option<Id>,
                                  filterTargetType: Option<string>, filterTarget: Option<Id>,
                                  newNotificationsEnabled: Option<bool>, w: Watcher)
    requires Spec(db, requester, newWatchType, filterUser, filterTargetType, filterTarget, newNotificationsEnabled)
               .reply.Ok?
    ensures var o := Spec(db, requester, newWatchType, filterUser, filterTargetType, filterTarget,
                          newNotificationsEnabled);
      var sel := Selection(db.users, requester, filterUser, filterTargetType, filterTarget);
      && (w in o.reply.value <==> exists k :: k in db.watchers && sel(k, db.watchers[k]) && o.db.watchers[k] == w)
      && |o.reply.value| == |Selected(db.watchers, sel)|
  {
    var sel := Selection(db.users, requester, filterUser, filterTargetType, filterTarget);
    var upd := Change(newWatchType, newNotificationsEnabled);
    CollectWhereMembers(db.watchers, sel, upd, w);
    CollectWhereLength(db.watchers, sel, upd);
  }

  /** Only the watchers table changes, and it keeps its keys. */
  lemma OnlyWatchersChange(db: Db, requester: Id, newWatchType: string, filterUser: Option<Id>,
                           filterTargetType: Option<string>, filterTarget: Option<Id>,
                           newNotificationsEnabled: Option<bool>)
    requires Spec(db, requester, newWatchType, filterUser, filterTargetType, filterTarget, newNotificationsEnabled)
               .reply.Ok?
    ensures var o := Spec(db, requester, newWatchType, filterUser, filterTargetType, filterTarget,
                          newNotificationsEnabled);
      o.db.watchers.Keys == db.watchers.Keys && o.db == db.(watchers := o.db.watchers)
  {
    var watchers := UpdateWhere(db.watchers, Selection(db.users, requester, filterUser, filterTargetType, filterTarget),
                                Change(newWatchType, newNotificationsEnabled));
    assert Spec(db, requester, newWatchType, filterUser, filterTargetType, filterTarget, newNotificationsEnabled).db
        == db.(watchers := watchers);
  }
}
