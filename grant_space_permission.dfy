/** `GrantSpacePermission.invoke`: give a user or a group a view/contribute/moderate grant on a space. */
module GrantSpacePermission {
  import opened Base
  import opened Model
  import opened Tables
  import opened Authority

  /** A PlatformOwner or a moderator of the space. */
  predicate MayGrant(db: Db, requester: Id, space: Id)
  {
    IsOwner(db.users, requester) || IsSpaceModerator(db.spacePermissions, space, requester)
  }

  ghost function Spec(db: Db, requester: Id, space: Id, permissionType: string,
                      targetUser: Option<Id>, targetGroup: Option<Id>): Outcome<Id>
  {
    if requester !in db.users then Fail(db, RequesterNotFound)
    else if space !in db.spaces then Fail(db, SpaceNotFound)
    else if targetUser.Some? && targetUser.value !in db.users then Fail(db, TargetUserNotFound)
    else if targetGroup.Some? && targetGroup.value !in db.groups then Fail(db, TargetGroupNotFound)
    else if targetUser.None? && targetGroup.None? then Fail(db, MissingPrincipal)
    else if targetUser.Some? && targetGroup.Some? then Fail(db, BothPrincipals)
    else if permissionType !in SpaceGrantTypes then Fail(db, InvalidArgument(PermissionType))
    else if !MayGrant(db, requester, space) then Fail(db, Unauthorized)
    else if PrincipalHasGrant(db.spacePermissions, space, targetUser, targetGroup) then Fail(db, PermissionExists)
    else
      var id := GenerateId(db.spacePermissions);
      Outcome(Ok(id), db.(spacePermissions := db.spacePermissions[
        id := Grant(space, targetUser, targetGroup, permissionType, requester, Now)]))
  }

  method Invoke(store: Store, requester: Id, space: Id, permissionType: string,
                targetUser: Option<Id>, targetGroup: Option<Id>) returns (r: Result<Id>)
    modifies store
    ensures Outcome(r, store.State())
         == Spec(old(store.State()), requester, space, permissionType, targetUser, targetGroup)
  {
    if requester !in store.users { return Err(RequesterNotFound); }
    if space !in store.spaces { return Err(SpaceNotFound); }
    if targetUser.Some? && targetUser.value !in store.users { return Err(TargetUserNotFound); }
    if targetGroup.Some? && targetGroup.value !in store.groups { return Err(TargetGroupNotFound); }
    if targetUser.None? && targetGroup.None? { return Err(MissingPrincipal); }
    if targetUser.Some? && targetGroup.Some? { return Err(BothPrincipals); }
    if permissionType !in SpaceGrantTypes { return Err(InvalidArgument(PermissionType)); }

    var requestingUser := store.users[requester];
    var hasAuthority := requestingUser.role == PlatformOwner;
    if !hasAuthority {
      hasAuthority := FindGrant(store.spacePermissions, space, requester, SpaceModerate);
    }
    if !hasAuthority { return Err(Unauthorized); }

    var duplicate := FindPrincipalGrant(store.spacePermissions, space, targetUser, targetGroup);
    if duplicate { return Err(PermissionExists); }

    var id := GenerateId(store.spacePermissions);
    store.spacePermissions := store.spacePermissions[
      id := Grant(space, targetUser, targetGroup, permissionType, requester, Now)];
    return Ok(id);
  }

  /** Naming neither principal, or both, is rejected and nothing is inserted. */
  lemma ExactlyOnePrincipal(db: Db, requester: Id, space: Id, permissionType: string,
                            targetUser: Option<Id>, targetGroup: Option<Id>)
    requires targetUser.Some? == targetGroup.Some?
    ensures Spec(db, requester, space, permissionType, targetUser, targetGroup).reply.Err?
    ensures Spec(db, requester, space, permissionType, targetUser, targetGroup).db == db
  {
  }

  /** A permission type outside view/contribute/moderate is rejected. */
  lemma RejectsUnknownType(db: Db, requester: Id, space: Id, permissionType: string,
                           targetUser: Option<Id>, targetGroup: Option<Id>)
    requires permissionType !in SpaceGrantTypes
    ensures Spec(db, requester, space, permissionType, targetUser, targetGroup).reply.Err?
    ensures Spec(db, requester, space, permissionType, targetUser, targetGroup).db == db
  {
  }

  /** Success needs PlatformOwner or a direct `moderate` grant on the same space. */
  lemma SuccessNeedsAuthority(db: Db, requester: Id, space: Id, permissionType: string,
                              targetUser: Option<Id>, targetGroup: Option<Id>)
    requires Spec(db, requester, space, permissionType, targetUser, targetGroup).reply.Ok?
    ensures IsOwner(db.users, requester) || IsSpaceModerator(db.spacePermissions, space, requester)
  {
  }

  /** Any existing grant on the space for the same principal blocks the grant, whatever its type. */
  lemma DuplicateRejected(db: Db, requester: Id, space: Id, permissionType: string,
                          targetUser: Option<Id>, targetGroup: Option<Id>, existing: Id)
    requires existing in db.spacePermissions
    requires db.spacePermissions[existing].target == space
    requires (targetUser.Some? && db.spacePermissions[existing].userId == targetUser)
          || (targetGroup.Some? && db.spacePermissions[existing].groupId == targetGroup)
    ensures Spec(db, requester, space, permissionType, targetUser, targetGroup).reply.Err?
    ensures Spec(db, requester, space, permissionType, targetUser, targetGroup).db == db
  {
    assert SamePrincipal(db.spacePermissions[existing], space, targetUser, targetGroup);
  }

  /** On success exactly one record is added, under a fresh key, with the requester as grantor;
      every other record and every other table is unchanged. */
  lemma SuccessAddsOneGrant(db: Db, requester: Id, space: Id, permissionType: string,
                            targetUser: Option<Id>, targetGroup: Option<Id>)
    requires Spec(db, requester, space, permissionType, targetUser, targetGroup).reply.Ok?
    ensures var o := Spec(db, requester, space, permissionType, targetUser, targetGroup);
      var id := o.reply.value;
      && id !in db.spacePermissions
      && o.db.spacePermissions.Keys == db.spacePermissions.Keys + {id}
      && |o.db.spacePermissions| == |db.spacePermissions| + 1
      && (forall k :: k in db.spacePermissions ==> o.db.spacePermissions[k] == db.spacePermissions[k])
      && o.db.spacePermissions[id] == Grant(space, targetUser, targetGroup, permissionType, requester, Now)
      && o.db == db.(spacePermissions := o.db.spacePermissions)
  {
  }

  /** The grant tools keep the space-permission table free of principal-less and duplicate grants. */
  lemma KeepsGrantInvariants(db: Db, requester: Id, space: Id, permissionType: string,
                             targetUser: Option<Id>, targetGroup: Option<Id>)
    requires OnePrincipalEach(db.spacePermissions) && NoDuplicateGrants(db.spacePermissions)
    ensures var o := Spec(db, requester, space, permissionType, targetUser, targetGroup);
      OnePrincipalEach(o.db.spacePermissions) && NoDuplicateGrants(o.db.spacePermissions)
  {
    if Spec(db, requester, space, permissionType, targetUser, targetGroup).reply.Ok? {
      InsertKeepsGrantInvariants(db.spacePermissions, GenerateId(db.spacePermissions),
                                 Grant(space, targetUser, targetGroup, permissionType, requester, Now));
    }
  }
}
