/** `DeleteUserGroup.invoke`: a PlatformOwner deletes a custom group that holds no grants,
    together with its memberships. */
module DeleteUserGroup {
  import opened Base
  import opened Model
  import opened Tables

  const SystemGroupType: string := "system"

  /** The grant is held by group `group`. */
  function HeldBy(group: Id): (Id, Grant) -> bool
  {
    (k: Id, g: Grant) => g.groupId == Some(group)
  }

  /** The membership row belongs to group `group`. */
  function InGroup(group: Id): (Id, Membership) -> bool
  {
    (k: Id, m: Membership) => m.groupId == group
  }

  /** Some page or space grant is held by the group. */
  predicate HoldsGrants(db: Db, group: Id)
  {
    Exists(db.pagePermissions, HeldBy(group)) || Exists(db.spacePermissions, HeldBy(group))
  }

  ghost function Spec(db: Db, group: Id, requester: Id): Outcome<()>
  {
    if group !in db.groups then Fail(db, GroupNotFound)
    else if requester !in db.users then Fail(db, RequesterNotFound)
    else if !IsOwner(db.users, requester) then Fail(db, Unauthorized)
    else if db.groups[group].groupType == SystemGroupType then Fail(db, SystemGroup)
    else if HoldsGrants(db, group) then Fail(db, GroupHasPermissions)
    else
      Outcome(Ok(()), db.(userGroups := RemoveWhere(db.userGroups, InGroup(group)),
                          groups := db.groups - {group}))
  }

  method Invoke(store: Store, group: Id, requester: Id) returns (r: Result<()>)
    modifies store
    ensures Outcome(r, store.State()) == Spec(old(store.State()), group, requester)
  {
    if group !in store.groups { return Err(GroupNotFound); }
    if requester !in store.users { return Err(RequesterNotFound); }
    if !IsOwner(store.users, requester) { return Err(Unauthorized); }
    if store.groups[group].groupType == SystemGroupType { return Err(SystemGroup); }

    var hasPermissions := Scan(store.pagePermissions, HeldBy(group));
    if !hasPermissions {
      hasPermissions := Scan(store.spacePermissions, HeldBy(group));
    }
    if hasPermissions { return Err(GroupHasPermissions); }

    var userGroups := DeleteWhere(store.userGroups, InGroup(group));
    store.userGroups := userGroups;
    store.groups := store.groups - {group};
    return Ok(());
  }

  /** The call succeeds exactly when both records exist, the requester is PlatformOwner, the
      group is not a system group and it holds no grant. */
  lemma SucceedsExactlyWhen(db: Db, group: Id, requester: Id)
    ensures Spec(db, group, requester).reply.Ok?
        <==> && group in db.groups && requester in db.users && IsOwner(db.users, requester)
             && db.groups[group].groupType != SystemGroupType && !HoldsGrants(db, group)
  {
  }

  /** A rejected call deletes nothing. */
  lemma RejectedChangesNothing(db: Db, group: Id, requester: Id)
    requires Spec(db, group, requester).reply.Err?
    ensures Spec(db, group, requester).db == db
  {
  }

  /** Success removes the group and exactly its memberships; every other membership and every
      other table is unchanged, so no grant is left naming the deleted group. */
  lemma SuccessRemovesGroupAndMemberships(db: Db, group: Id, requester: Id)
    requires Spec(db, group, requester).reply.Ok?
    ensures var o := Spec(db, group, requester);
      && o.db.groups == db.groups - {group}
      && (forall k :: k in o.db.userGroups <==> k in db.userGroups && db.userGroups[k].groupId != group)
      && (forall k :: k in o.db.userGroups ==> o.db.userGroups[k] == db.userGroups[k])
      && o.db.pagePermissions == db.pagePermissions && o.db.spacePermissions == db.spacePermissions
      && (forall k :: k in o.db.pagePermissions ==> o.db.pagePermissions[k].groupId != Some(group))
      && (forall k :: k in o.db.spacePermissions ==> o.db.spacePermissions[k].groupId != Some(group))
      && o.db == db.(userGroups := o.db.userGroups, groups := o.db.groups)
  {
    var o := Spec(db, group, requester);
    assert o.db == db.(userGroups := RemoveWhere(db.userGroups, InGroup(group)), groups := db.groups - {group});
    forall k | k in db.pagePermissions ensures db.pagePermissions[k].groupId != Some(group) {
      assert !HeldBy(group)(k, db.pagePermissions[k]);
    }
    forall k | k in db.spacePermissions ensures db.spacePermissions[k].groupId != Some(group) {
      assert !HeldBy(group)(k, db.spacePermissions[k]);
    }
  }

  /** A group that holds a grant is never deleted. */
  lemma GroupWithGrantSurvives(db: Db, group: Id, requester: Id, grant: Id)
    requires grant in db.pagePermissions && db.pagePermissions[grant].groupId == Some(group)
    ensures Spec(db, group, requester).db == db
  {
    assert HeldBy(group)(grant, db.pagePermissions[grant]);
  }

  /** Every membership row that names an existing group still does afterwards. */
  lemma KeepsMembershipsReferential(db: Db, group: Id, requester: Id)
    requires forall k :: k in db.userGroups ==> db.userGroups[k].groupId in db.groups
    ensures var o := Spec(db, group, requester);
      forall k :: k in o.db.userGroups ==> o.db.userGroups[k].groupId in o.db.groups
  {
    var o := Spec(db, group, requester);
    if o.reply.Ok? {
      assert o.db == db.(userGroups := RemoveWhere(db.userGroups, InGroup(group)), groups := db.groups - {group});
    }
  }
}
