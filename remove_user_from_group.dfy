/** `RemoveUserFromGroup.invoke`: a PlatformOwner or WikiProgramManager deletes the row that
    records a user in a group. */
module RemoveUserFromGroup {
  import opened Base
  import opened Model
  import opened Tables
  import opened Memberships

  /** The row the handler deletes: the first, in key order, that records `target` in `group`. */
  ghost function Spec(db: Db, group: Id, target: Id, requester: Id): Outcome<()>
  {
    if requester !in db.users then Fail(db, RequesterNotFound)
    else if target !in db.users then Fail(db, TargetUserNotFound)
    else if group !in db.groups then Fail(db, GroupNotFound)
    else if !IsManager(db.users, requester) then Fail(db, Unauthorized)
    else
      match First(db.userGroups, Links(target, group))
      case None => Fail(db, NotMember)
      case Some(id) => Outcome(Ok(()), db.(userGroups := db.userGroups - {id}))
  }

  method Invoke(store: Store, group: Id, target: Id, requester: Id) returns (r: Result<()>)
    modifies store
    ensures Outcome(r, store.State()) == Spec(old(store.State()), group, target, requester)
  {
    if requester !in store.users { return Err(RequesterNotFound); }
    if target !in store.users { return Err(TargetUserNotFound); }
    if group !in store.groups { return Err(GroupNotFound); }
    if !IsManager(store.users, requester) { return Err(Unauthorized); }

    var toRemove := FindFirst(store.userGroups, Links(target, group));
    if toRemove.None? { return Err(NotMember); }
    store.userGroups := store.userGroups - {toRemove.value};
    return Ok(());
  }

  /** The call succeeds exactly when the three records exist, the requester manages and the
      target is a member of the group. */
  lemma SucceedsExactlyWhen(db: Db, group: Id, target: Id, requester: Id)
    ensures Spec(db, group, target, requester).reply.Ok?
        <==> && requester in db.users && target in db.users && group in db.groups
             && IsManager(db.users, requester) && IsMember(db.userGroups, target, group)
  {
    var links := Links(target, group);
    if IsMember(db.userGroups, target, group) {
      var k :| k in db.userGroups && links(k, db.userGroups[k]);
      assert First(db.userGroups, links).Some?;
    }
  }

  /** A rejected call deletes nothing. */
  lemma RejectedChangesNothing(db: Db, group: Id, target: Id, requester: Id)
    requires Spec(db, group, target, requester).reply.Err?
    ensures Spec(db, group, target, requester).db == db
  {
  }

  /** Success deletes exactly one row, one that records the target in the group, and no row with
      a smaller key records it; nothing else changes. */
  lemma SuccessRemovesOneMembership(db: Db, group: Id, target: Id, requester: Id)
    requires Spec(db, group, target, requester).reply.Ok?
    ensures var o := Spec(db, group, target, requester);
      exists id :: && id in db.userGroups
                   && db.userGroups[id].userId == target && db.userGroups[id].groupId == group
                   && (forall j :: j < id && j in db.userGroups ==> !Links(target, group)(j, db.userGroups[j]))
                   && o.db == db.(userGroups := db.userGroups - {id})
  {
    var id := First(db.userGroups, Links(target, group)).value;
    assert Spec(db, group, target, requester).db == db.(userGroups := db.userGroups - {id});
  }

  /** While no user is recorded twice in a group, a successful call leaves the target outside
      the group and keeps that invariant. */
  lemma EndsMembership(db: Db, group: Id, target: Id, requester: Id)
    requires NoDuplicateMemberships(db.userGroups)
    requires Spec(db, group, target, requester).reply.Ok?
    ensures var o := Spec(db, group, target, requester);
      !IsMember(o.db.userGroups, target, group) && NoDuplicateMemberships(o.db.userGroups)
  {
    var id := First(db.userGroups, Links(target, group)).value;
    RemoveEndsMembership(db.userGroups, id);
  }
}
