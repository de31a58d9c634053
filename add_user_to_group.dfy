/** `AddUserToGroup.invoke`: a PlatformOwner or WikiProgramManager records a user as a member of a group. */
module AddUserToGroup {
  import opened Base
  import opened Model
  import opened Tables
  import opened Memberships

  ghost function Spec(db: Db, group: Id, target: Id, requester: Id): Outcome<Id>
  {
    if requester !in db.users then Fail(db, RequesterNotFound)
    else if target !in db.users then Fail(db, TargetUserNotFound)
    else if group !in db.groups then Fail(db, GroupNotFound)
    else if !IsManager(db.users, requester) then Fail(db, Unauthorized)
    else if IsMember(db.userGroups, target, group) then Fail(db, AlreadyMember)
    else
      var id := GenerateId(db.userGroups);
      Outcome(Ok(id), db.(userGroups := db.userGroups[id := Membership(target, group, requester, Now)]))
  }

  method Invoke(store: Store, group: Id, target: Id, requester: Id) returns (r: Result<Id>)
    modifies store
    ensures Outcome(r, store.State()) == Spec(old(store.State()), group, target, requester)
  {
    if requester !in store.users { return Err(RequesterNotFound); }
    if target !in store.users { return Err(TargetUserNotFound); }
    if group !in store.groups { return Err(GroupNotFound); }
    if !IsManager(store.users, requester) { return Err(Unauthorized); }

    var alreadyMember := Scan(store.userGroups, Links(target, group));
    if alreadyMember { return Err(AlreadyMember); }

    var id := GenerateId(store.userGroups);
    store.userGroups := store.userGroups[id := Membership(target, group, requester, Now)];
    return Ok(id);
  }

  /** The call succeeds exactly when the three records exist, the requester manages and the
      target is not yet in the group. */
  lemma SucceedsExactlyWhen(db: Db, group: Id, target: Id, requester: Id)
    ensures Spec(db, group, target, requester).reply.Ok?
        <==> && requester in db.users && target in db.users && group in db.groups
             && IsManager(db.users, requester) && !IsMember(db.userGroups, target, group)
  {
  }

  /** A rejected call records nothing. */
  lemma RejectedChangesNothing(db: Db, group: Id, target: Id, requester: Id)
    requires Spec(db, group, target, requester).reply.Err?
    ensures Spec(db, group, target, requester).db == db
  {
  }

  /** Success adds exactly one row, under a fresh key, recording the target in the group with the
      requester as adder; nothing else changes, the group's member_count included. */
  lemma SuccessAddsOneMembership(db: Db, group: Id, target: Id, requester: Id)
    requires Spec(db, group, target, requester).reply.Ok?
    ensures var o := Spec(db, group, target, requester);
      var id := o.reply.value;
      && id !in db.userGroups
      && o.db.userGroups == db.userGroups[id := Membership(target, group, requester, Now)]
      && |o.db.userGroups| == |db.userGroups| + 1
      && IsMember(o.db.userGroups, target, group)
      && o.db == db.(userGroups := o.db.userGroups)
  {
    var id := GenerateId(db.userGroups);
    var after := db.userGroups[id := Membership(target, group, requester, Now)];
    assert Links(target, group)(id, after[id]);
  }

  /** Adding the same user to the same group again is refused. */
  lemma RepeatIsRefused(db: Db, group: Id, target: Id, requester: Id)
    requires Spec(db, group, target, requester).reply.Ok?
    ensures var once := Spec(db, group, target, requester).db;
      Spec(once, group, target, requester) == Fail(once, AlreadyMember)
  {
    SuccessAddsOneMembership(db, group, target, requester);
  }

  /** The call never records a user twice in a group. */
  lemma KeepsNoDuplicates(db: Db, group: Id, target: Id, requester: Id)
    requires NoDuplicateMemberships(db.userGroups)
    ensures NoDuplicateMemberships(Spec(db, group, target, requester).db.userGroups)
  {
    if Spec(db, group, target, requester).reply.Ok? {
      InsertKeepsNoDuplicates(db.userGroups, GenerateId(db.userGroups), Membership(target, group, requester, Now));
    }
  }
}
