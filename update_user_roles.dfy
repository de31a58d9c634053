/** `UpdateUserRoles.invoke`: a PlatformOwner sets a new role on every user that matches the
    current-role and e-mail domain filters. */
module UpdateUserRoles {
  import opened Base
  import opened Model
  import opened Tables

  /** The current-role and e-mail domain filters. */
  predicate Matches(u: User, filterRole: Option<string>, filterDomain: Option<string>)
  {
    && (Given(filterRole) ==> u.role == filterRole.value)
    && (Given(filterDomain) ==> EndsWith(u.email, "@" + filterDomain.value))
  }

  function Selection(filterRole: Option<string>, filterDomain: Option<string>): (Id, User) -> bool
  {
    (k: Id, u: User) => Matches(u, filterRole, filterDomain)
  }

  /** The role is replaced and updated_at set; nothing else changes. */
  function Apply(u: User, newRole: string): (v: User)
    ensures v.role == newRole && v.updatedAt == Now
    ensures v.(role := u.role, updatedAt := u.updatedAt) == u
  {
    u.(role := newRole, updatedAt := Now)
  }

  function Change(newRole: string): User -> User
  {
    (u: User) => Apply(u, newRole)
  }

  ghost function Spec(db: Db, requester: Id, newRole: string, filterRole: Option<string>,
                      filterDomain: Option<string>): Outcome<seq<User>>
  {
    if requester !in db.users then Fail(db, RequesterNotFound)
    else if !IsOwner(db.users, requester) then Fail(db, Unauthorized)
    else if Given(filterRole) && filterRole.value !in Roles then Fail(db, InvalidArgument(FilterCurrentRole))
    else if newRole !in Roles then Fail(db, InvalidArgument(NewRole))
    else
      var sel := Selection(filterRole, filterDomain);
      var upd := Change(newRole);
      Outcome(Ok(CollectWhere(db.users, sel, upd)), db.(users := UpdateWhere(db.users, sel, upd)))
  }

  method Invoke(store: Store, requester: Id, newRole: string, filterRole: Option<string>,
                filterDomain: Option<string>)
    returns (r: Result<seq<User>>)
    modifies store
    ensures Outcome(r, store.State()) == Spec(old(store.State()), requester, newRole, filterRole, filterDomain)
  {
    if requester !in store.users { return Err(RequesterNotFound); }
    if !IsOwner(store.users, requester) { return Err(Unauthorized); }
    if Given(filterRole) && filterRole.value !in Roles { return Err(InvalidArgument(FilterCurrentRole)); }
    if newRole !in Roles { return Err(InvalidArgument(NewRole)); }
    var updatedUsers := UpdatePass(store, newRole, filterRole, filterDomain);
    return Ok(updatedUsers);
  }

  /** The loop over `users.items()`: each matching user gets the new role and is appended to the reply. */
  method UpdatePass(store: Store, newRole: string, filterRole: Option<string>, filterDomain: Option<string>)
    returns (updatedUsers: seq<User>)
    modifies store`users
    ensures store.users == UpdateWhere(old(store.users), Selection(filterRole, filterDomain), Change(newRole))
    ensures updatedUsers == CollectWhere(old(store.users), Selection(filterRole, filterDomain), Change(newRole))
  {
    ghost var sel := Selection(filterRole, filterDomain);
    ghost var upd := Change(newRole);
    ghost var original := store.users;
    var users := store.users;
    updatedUsers := [];
    var bound := GenerateId(users);
    for k := 0 to bound
      invariant users == UpdateBelow(original, sel, upd, k)
      invariant updatedUsers == CollectBelow(original, sel, upd, k)
    {
      UpdateBelowStep(original, sel, upd, k);
      CollectBelowStep(original, sel, upd, k);
      if k !in users { continue; }
      var user := users[k];
      if Given(filterRole) && user.role != filterRole.value { continue; }
      if Given(filterDomain) && !EndsWith(user.email, "@" + filterDomain.value) { continue; }

      user := user.(role := newRole, updatedAt := Now);
      users := users[k := user];
      updatedUsers := updatedUsers + [user];
    }
    store.users := users;
  }

  /** Only a PlatformOwner may call it, and the role test comes before the enumeration checks. */
  lemma SuccessNeedsOwner(db: Db, requester: Id, newRole: string, filterRole: Option<string>,
                          filterDomain: Option<string>)
    requires requester in db.users && !IsOwner(db.users, requester)
    ensures Spec(db, requester, newRole, filterRole, filterDomain) == Fail(db, Unauthorized)
  {
  }

  /** A role outside the three is rejected with nothing changed. */
  lemma InvalidRoleTouchesNothing(db: Db, requester: Id, newRole: string, filterRole: Option<string>,
                                  filterDomain: Option<string>)
    requires (Given(filterRole) && filterRole.value !in Roles) || newRole !in Roles
    ensures Spec(db, requester, newRole, filterRole, filterDomain).reply.Err?
    ensures Spec(db, requester, newRole, filterRole, filterDomain).db == db
  {
  }

  /** Every matching user gets the new role and every other user is unchanged, so every role
      stays one of the three. */
  lemma EveryMatchGetsTheRole(db: Db, requester: Id, newRole: string, filterRole: Option<string>,
                              filterDomain: Option<string>, k: Id)
    requires Spec(db, requester, newRole, filterRole, filterDomain).reply.Ok?
    requires k in db.users
    ensures var after := Spec(db, requester, newRole, filterRole, filterDomain).db.users;
      && k in after
      && (Matches(db.users[k], filterRole, filterDomain) ==> after[k] == Apply(db.users[k], newRole))
      && (!Matches(db.users[k], filterRole, filterDomain) ==> after[k] == db.users[k])
      && (db.users[k].role in Roles ==> after[k].role in Roles)
  {
  }

  /** A PlatformOwner whose own record matches and who sets another role demotes themself: the
      next call they make is refused. */
  lemma SelfDemotionLocksOut(db: Db, requester: Id, newRole: string, filterRole: Option<string>,
                             filterDomain: Option<string>, again: string, againRole: Option<string>,
                             againDomain: Option<string>)
    requires Spec(db, requester, newRole, filterRole, filterDomain).reply.Ok?
    requires Matches(db.users[requester], filterRole, filterDomain) && newRole != PlatformOwner
    ensures var after := Spec(db, requester, newRole, filterRole, filterDomain).db;
      Spec(after, requester, again, againRole, againDomain) == Fail(after, Unauthorized)
  {
    var after := Spec(db, requester, newRole, filterRole, filterDomain).db;
    assert after.users[requester] == Apply(db.users[requester], newRole);
  }

  /** Running the same call again changes nothing more: either the requester has lost the role
      and is refused, or every user it selects already carries the new role and timestamp. */
  lemma UpdateIsIdempotent(db: Db, requester: Id, newRole: string, filterRole: Option<string>,
                           filterDomain: Option<string>)
    requires Spec(db, requester, newRole, filterRole, filterDomain).reply.Ok?
    ensures var once := Spec(db, requester, newRole, filterRole, filterDomain).db;
      Spec(once, requester, newRole, filterRole, filterDomain).db == once
  {
    var sel := Selection(filterRole, filterDomain);
    var upd := Change(newRole);
    var once := db.(users := UpdateWhere(db.users, sel, upd));
    assert Spec(db, requester, newRole, filterRole, filterDomain).db == once;
    UpdateWhereIdempotent(db.users, newRole, filterRole, filterDomain);
    assert once.(users := UpdateWhere(once.users, sel, upd)) == once;
  }

  /** Applying the update to the already-updated table changes nothing more. */
  lemma UpdateWhereIdempotent(users: map<Id, User>, newRole: string, filterRole: Option<string>,
                              filterDomain: Option<string>)
    ensures var sel := Selection(filterRole, filterDomain);
      UpdateWhere(UpdateWhere(users, sel, Change(newRole)), sel, Change(newRole))
      == UpdateWhere(users, sel, Change(newRole))
  {
    var sel := Selection(filterRole, filterDomain);
    var upd := Change(newRole);
    var once := UpdateWhere(users, sel, upd);
    var twice := UpdateWhere(once, sel, upd);
    forall k | k in once ensures twice[k] == once[k] {
      if sel(k, users[k]) {
        assert once[k] == Apply(users[k], newRole);
      }
    }
  }

  /** The reply lists exactly the updated users, one per matching user. */
  lemma ReplyListsUpdatedUsers(db: Db, requester: Id, newRole: string, filterRole: Option<string>,
                               filterDomain: Option<string>, u: User)
    requires Spec(db, requester, newRole, filterRole, filterDomain).reply.Ok?
    ensures var o := Spec(db, requester, newRole, filterRole, filterDomain);
      var sel := Selection(filterRole, filterDomain);
      && (u in o.reply.value <==> exists k :: k in db.users && sel(k, db.users[k]) && o.db.users[k] == u)
      && |o.reply.value| == |Selected(db.users, sel)|
  {
    var sel := Selection(filterRole, filterDomain);
    var upd := Change(newRole);
    CollectWhereMembers(db.users, sel, upd, u);
    CollectWhereLength(db.users, sel, upd);
  }
}
