/** `UpdateUsersByFilter.invoke`: a PlatformOwner changes status and/or timezone on every user
    that matches the filters. */
module UpdateUsersByFilter {
  import opened Base
  import opened Model
  import opened Tables

  /** The role, status and e-mail domain filters; the domain filter keeps the addresses ending
      in `@` followed by the domain. */
  predicate Matches(u: User, filterRole: Option<string>, filterStatus: Option<string>, filterDomain: Option<string>)
  {
    && (Given(filterRole) ==> u.role == filterRole.value)
    && (Given(filterStatus) ==> u.status == filterStatus.value)
    && (Given(filterDomain) ==> EndsWith(u.email, "@" + filterDomain.value))
  }

  function Selection(filterRole: Option<string>, filterStatus: Option<string>, filterDomain: Option<string>)
    : (Id, User) -> bool
  {
    (k: Id, u: User) => Matches(u, filterRole, filterStatus, filterDomain)
  }

  /** Status and timezone are replaced when given (non-empty); updated_at always. */
  function Apply(u: User, updateStatus: Option<string>, updateTimezone: Option<string>): (v: User)
    ensures v.status == (if Given(updateStatus) then updateStatus.value else u.status)
    ensures v.timezone == (if Given(updateTimezone) then updateTimezone.value else u.timezone)
    ensures v.updatedAt == Now
    ensures v.(status := u.status, timezone := u.timezone, updatedAt := u.updatedAt) == u
  {
    u.(status := if Given(updateStatus) then updateStatus.value else u.status,
       timezone := if Given(updateTimezone) then updateTimezone.value else u.timezone,
       updatedAt := Now)
  }

  function Change(updateStatus: Option<string>, updateTimezone: Option<string>): User -> User
  {
    (u: User) => Apply(u, updateStatus, updateTimezone)
  }

  ghost function Spec(db: Db, requester: Id, filterRole: Option<string>, filterStatus: Option<string>,
                      filterDomain: Option<string>, updateStatus: Option<string>,
                      updateTimezone: Option<string>): Outcome<seq<User>>
  {
    if requester !in db.users then Fail(db, RequesterNotFound)
    else if !IsOwner(db.users, requester) then Fail(db, Unauthorized)
    else if Given(filterRole) && filterRole.value !in Roles then Fail(db, InvalidArgument(FilterRole))
    else if Given(filterStatus) && filterStatus.value !in UserStatuses then Fail(db, InvalidArgument(FilterStatus))
    else if Given(updateStatus) && updateStatus.value !in UserStatuses then Fail(db, InvalidArgument(UpdateStatus))
    else
      var sel := Selection(filterRole, filterStatus, filterDomain);
      var upd := Change(updateStatus, updateTimezone);
      Outcome(Ok(CollectWhere(db.users, sel, upd)), db.(users := UpdateWhere(db.users, sel, upd)))
  }

  method Invoke(store: Store, requester: Id, filterRole: Option<string>, filterStatus: Option<string>,
                filterDomain: Option<string>, updateStatus: Option<string>, updateTimezone: Option<string>)
    returns (r: Result<seq<User>>)
    modifies store
    ensures Outcome(r, store.State())
         == Spec(old(store.State()), requester, filterRole, filterStatus, filterDomain, updateStatus, updateTimezone)
  {
    if requester !in store.users { return Err(RequesterNotFound); }
    if !IsOwner(store.users, requester) { return Err(Unauthorized); }
    if Given(filterRole) && filterRole.value !in Roles { return Err(InvalidArgument(FilterRole)); }
    if Given(filterStatus) && filterStatus.value !in UserStatuses { return Err(InvalidArgument(FilterStatus)); }
    if Given(updateStatus) && updateStatus.value !in UserStatuses { return Err(InvalidArgument(UpdateStatus)); }
    ghost var before := store.State();
    ghost var sel := Selection(filterRole, filterStatus, filterDomain);
    ghost var upd := Change(updateStatus, updateTimezone);
    assert Spec(before, requester, filterRole, filterStatus, filterDomain, updateStatus, updateTimezone)
        == Outcome(Ok(CollectWhere(before.users, sel, upd)), before.(users := UpdateWhere(before.users, sel, upd)));
    var updatedUsers := UpdatePass(store, filterRole, filterStatus, filterDomain, updateStatus, updateTimezone);
    return Ok(updatedUsers);
  }

  /** The loop over `users.items()`: each matching user is rewritten and appended to the reply. */
  method UpdatePass(store: Store, filterRole: Option<string>, filterStatus: Option<string>,
                    filterDomain: Option<string>, updateStatus: Option<string>, updateTimezone: Option<string>)
    returns (updatedUsers: seq<User>)
    modifies store`users
    ensures var sel := Selection(filterRole, filterStatus, filterDomain);
      && store.users == UpdateWhere(old(store.users), sel, Change(updateStatus, updateTimezone))
      && updatedUsers == CollectWhere(old(store.users), sel, Change(updateStatus, updateTimezone))
  {
    ghost var sel := Selection(filterRole, filterStatus, filterDomain);
    ghost var upd := Change(updateStatus, updateTimezone);
    ghost var original := store.users;
    var users := store.users;
    updatedUsers := [];
    var bound := GenerateId(users);
    for k := 0 to bound
      invariant users == UpdateBelow(original, sel, upd, k)
      invariant updatedUsers == CollectBelow(original, sel, upd, k)
    {
      UpdateBelowStep(original, sel, upd, k);
      CollectBelowStep(original, sel, upd, k);
      if k !in users { continue; }
      var user := users[k];
      if Given(filterRole) && user.role != filterRole.value { continue; }
      if Given(filterStatus) && user.status != filterStatus.value { continue; }
      if Given(filterDomain) && !EndsWith(user.email, "@" + filterDomain.value) { continue; }

      if Given(updateStatus) { user := user.(status := updateStatus.value); }
      if Given(updateTimezone) { user := user.(timezone := updateTimezone.value); }
      user := user.(updatedAt := Now);
      users := users[k := user];
      updatedUsers := updatedUsers + [user];
    }
    store.users := users;
  }

  /** Only a PlatformOwner may call it, and the role test comes before the enumeration checks. */
  lemma SuccessNeedsOwner(db: Db, requester: Id, filterRole: Option<string>, filterStatus: Option<string>,
                          filterDomain: Option<string>, updateStatus: Option<string>, updateTimezone: Option<string>)
    requires requester in db.users && !IsOwner(db.users, requester)
    ensures Spec(db, requester, filterRole, filterStatus, filterDomain, updateStatus, updateTimezone)
         == Fail(db, Unauthorized)
  {
  }

  /** An invalid role or status is rejected with nothing changed. */
  lemma InvalidEnumTouchesNothing(db: Db, requester: Id, filterRole: Option<string>, filterStatus: Option<string>,
                                  filterDomain: Option<string>, updateStatus: Option<string>,
                                  updateTimezone: Option<string>)
    requires || (Given(filterRole) && filterRole.value !in Roles)
             || (Given(filterStatus) && filterStatus.value !in UserStatuses)
             || (Given(updateStatus) && updateStatus.value !in UserStatuses)
    ensures Spec(db, requester, filterRole, filterStatus, filterDomain, updateStatus, updateTimezone).reply.Err?
    ensures Spec(db, requester, filterRole, filterStatus, filterDomain, updateStatus, updateTimezone).db == db
  {
  }

  /** Every matching user is updated and every other user is unchanged; no role ever changes,
      so the requester is still a PlatformOwner afterwards. */
  lemma EveryMatchIsUpdated(db: Db, requester: Id, filterRole: Option<string>, filterStatus: Option<string>,
                            filterDomain: Option<string>, updateStatus: Option<string>,
                            updateTimezone: Option<string>, k: Id)
    requires Spec(db, requester, filterRole, filterStatus, filterDomain, updateStatus, updateTimezone).reply.Ok?
    requires k in db.users
    ensures var after := Spec(db, requester, filterRole, filterStatus, filterDomain, updateStatus,
                              updateTimezone).db.users;
      && k in after
      && (Matches(db.users[k], filterRole, filterStatus, filterDomain) ==>
            after[k] == Apply(db.users[k], updateStatus, updateTimezone))
      && (!Matches(db.users[k], filterRole, filterStatus, filterDomain) ==> after[k] == db.users[k])
      && after[k].role == db.users[k].role && after[k].email == db.users[k].email
      && IsOwner(after, requester)
  {
  }

  /** The reply lists exactly the updated users, one per matching user. */
  lemma ReplyListsUpdatedUsers(db: Db, requester: Id, filterRole: Option<string>, filterStatus: Option<string>,
                               filterDomain: Option<string>, updateStatus: Option<string>,
                               updateTimezone: Option<string>, u: User)
    requires Spec(db, requester, filterRole, filterStatus, filterDomain, updateStatus, updateTimezone).reply.Ok?
    ensures var o := Spec(db, requester, filterRole, filterStatus, filterDomain, updateStatus, updateTimezone);
      var sel := Selection(filterRole, filterStatus, filterDomain);
      && (u in o.reply.value <==> exists k :: k in db.users && sel(k, db.users[k]) && o.db.users[k] == u)
      && |o.reply.value| == |Selected(db.users, sel)|
  {
    var sel := Selection(filterRole, filterStatus, filterDomain);
    var upd := Change(updateStatus, updateTimezone);
    var o := Spec(db, requester, filterRole, filterStatus, filterDomain, updateStatus, updateTimezone);
    assert o.reply.value == CollectWhere(db.users, sel, upd) && o.db.users == UpdateWhere(db.users, sel, upd);
    CollectWhereMembers(db.users, sel, upd, u);
    CollectWhereLength(db.users, sel, upd);
  }

  /** Only the users table changes, and it keeps its keys. */
  lemma OnlyUsersChange(db: Db, requester: Id, filterRole: Option<string>, filterStatus: Option<string>,
                        filterDomain: Option<string>, updateStatus: Option<string>, updateTimezone: Option<string>)
    requires Spec(db, requester, filterRole, filterStatus, filterDomain, updateStatus, updateTimezone).reply.Ok?
    ensures var o := Spec(db, requester, filterRole, filterStatus, filterDomain, updateStatus, updateTimezone);
      o.db.users.Keys == db.users.Keys && o.db == db.(users := o.db.users)
  {
    var users := UpdateWhere(db.users, Selection(filterRole, filterStatus, filterDomain),
                             Change(updateStatus, updateTimezone));
    assert Spec(db, requester, filterRole, filterStatus, filterDomain, updateStatus, updateTimezone).db
        == db.(users := users);
  }
}
