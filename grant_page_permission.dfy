/** `GrantPagePermission.invoke`: give a user or a group a view/edit/admin grant on a page. */
module GrantPagePermission {
  import opened Base
  import opened Model
  import opened Tables
  import opened Authority

  /** A PlatformOwner, an admin of the page, or a moderator of the page's space. */
  predicate MayGrant(db: Db, requester: Id, page: Id)
    requires page in db.pages
  {
    IsOwner(db.users, requester) || ManagesPage(db.pagePermissions, db.spacePermissions, page, db.pages[page].spaceId, requester, PageAdmin)
  }

  ghost function Spec(db: Db, requester: Id, page: Id, permissionType: string,
                      targetUser: Option<Id>, targetGroup: Option<Id>): Outcome<Id>
  {
    if requester !in db.users then Fail(db, RequesterNotFound)
    else if page !in db.pages then Fail(db, PageNotFound)
    else if targetUser.Some? && targetUser.value !in db.users then Fail(db, TargetUserNotFound)
    else if targetGroup.Some? && targetGroup.value !in db.groups then Fail(db, TargetGroupNotFound)
    else if targetUser.None? && targetGroup.None? then Fail(db, MissingPrincipal)
    else if targetUser.Some? && targetGroup.Some? then Fail(db, BothPrincipals)
    else if permissionType !in PageGrantTypes then Fail(db, InvalidArgument(PermissionType))
    else if !MayGrant(db, requester, page) then Fail(db, Unauthorized)
    else if PrincipalHasGrant(db.pagePermissions, page, targetUser, targetGroup) then Fail(db, PermissionExists)
    else
      var id := GenerateId(db.pagePermissions);
      Outcome(Ok(id), db.(pagePermissions := db.pagePermissions[
        id := Grant(page, targetUser, targetGroup, permissionType, requester, Now)]))
  }

  method Invoke(store: Store, requester: Id, page: Id, permissionType: string,
                targetUser: Option<Id>, targetGroup: Option<Id>) returns (r: Result<Id>)
    modifies store
    ensures Outcome(r, store.State())
         == Spec(old(store.State()), requester, page, permissionType, targetUser, targetGroup)
  {
    if requester !in store.users { return Err(RequesterNotFound); }
    if page !in store.pages { return Err(PageNotFound); }
    if targetUser.Some? && targetUser.value !in store.users { return Err(TargetUserNotFound); }
    if targetGroup.Some? && targetGroup.value !in store.groups { return Err(TargetGroupNotFound); }
    if targetUser.None? && targetGroup.None? { return Err(MissingPrincipal); }
    if targetUser.Some? && targetGroup.Some? { return Err(BothPrincipals); }
    if permissionType !in PageGrantTypes { return Err(InvalidArgument(PermissionType)); }

    var requestingUser := store.users[requester];
    var spaceId := store.pages[page].spaceId;
    var hasAuthority := requestingUser.role == PlatformOwner;
    if !hasAuthority {
      hasAuthority := CheckManagesPage(store.pagePermissions, store.spacePermissions,
                                       page, spaceId, requester, PageAdmin);
    }
    if !hasAuthority { return Err(Unauthorized); }

    var duplicate := FindPrincipalGrant(store.pagePermissions, page, targetUser, targetGroup);
    if duplicate { return Err(PermissionExists); }

    var id := GenerateId(store.pagePermissions);
    store.pagePermissions := store.pagePermissions[
      id := Grant(page, targetUser, targetGroup, permissionType, requester, Now)];
    return Ok(id);
  }

  /** Naming neither principal, or both, is rejected and nothing is inserted. */
  lemma ExactlyOnePrincipal(db: Db, requester: Id, page: Id, permissionType: string,
                            targetUser: Option<Id>, targetGroup: Option<Id>)
    requires targetUser.Some? == targetGroup.Some?
    ensures Spec(db, requester, page, permissionType, targetUser, targetGroup).reply.Err?
    ensures Spec(db, requester, page, permissionType, targetUser, targetGroup).db == db
  {
  }

  /** A permission type outside view/edit/admin is rejected. */
  lemma RejectsUnknownType(db: Db, requester: Id, page: Id, permissionType: string,
                           targetUser: Option<Id>, targetGroup: Option<Id>)
    requires permissionType !in PageGrantTypes
    ensures Spec(db, requester, page, permissionType, targetUser, targetGroup).reply.Err?
    ensures Spec(db, requester, page, permissionType, targetUser, targetGroup).db == db
  {
  }

  /** Success needs PlatformOwner, a direct `admin` grant on the page, or a direct
      `moderate` grant on the page's space. */
  lemma SuccessNeedsAuthority(db: Db, requester: Id, page: Id, permissionType: string,
                              targetUser: Option<Id>, targetGroup: Option<Id>)
    requires Spec(db, requester, page, permissionType, targetUser, targetGroup).reply.Ok?
    ensures page in db.pages
    ensures IsOwner(db.users, requester)
         || IsPageAdmin(db.pagePermissions, page, requester)
         || IsSpaceModerator(db.spacePermissions, db.pages[page].spaceId, requester)
  {
  }

  /** Any existing grant on the page for the same principal blocks the grant, whatever its type. */
  lemma DuplicateRejected(db: Db, requester: Id, page: Id, permissionType: string,
                          targetUser: Option<Id>, targetGroup: Option<Id>, existing: Id)
    requires existing in db.pagePermissions
    requires db.pagePermissions[existing].target == page
    requires (targetUser.Some? && db.pagePermissions[existing].userId == targetUser)
          || (targetGroup.Some? && db.pagePermissions[existing].groupId == targetGroup)
    ensures Spec(db, requester, page, permissionType, targetUser, targetGroup).reply.Err?
    ensures Spec(db, requester, page, permissionType, targetUser, targetGroup).db == db
  {
    assert SamePrincipal(db.pagePermissions[existing], page, targetUser, targetGroup);
  }

  /** On success exactly one record is added, under a fresh key, with the requester as grantor;
      every other record and every other table is unchanged. */
  lemma SuccessAddsOneGrant(db: Db, requester: Id, page: Id, permissionType: string,
                            targetUser: Option<Id>, targetGroup: Option<Id>)
    requires Spec(db, requester, page, permissionType, targetUser, targetGroup).reply.Ok?
    ensures var o := Spec(db, requester, page, permissionType, targetUser, targetGroup);
      var id := o.reply.value;
      && id !in db.pagePermissions
      && o.db.pagePermissions.Keys == db.pagePermissions.Keys + {id}
      && |o.db.pagePermissions| == |db.pagePermissions| + 1
      && (forall k :: k in db.pagePermissions ==> o.db.pagePermissions[k] == db.pagePermissions[k])
      && o.db.pagePermissions[id] == Grant(page, targetUser, targetGroup, permissionType, requester, Now)
      && o.db == db.(pagePermissions := o.db.pagePermissions)
  {
  }

  /** The grant tools keep the page-permission table free of principal-less and duplicate grants. */
  lemma KeepsGrantInvariants(db: Db, requester: Id, page: Id, permissionType: string,
                             targetUser: Option<Id>, targetGroup: Option<Id>)
    requires OnePrincipalEach(db.pagePermissions) && NoDuplicateGrants(db.pagePermissions)
    ensures var o := Spec(db, requester, page, permissionType, targetUser, targetGroup);
      OnePrincipalEach(o.db.pagePermissions) && NoDuplicateGrants(o.db.pagePermissions)
  {
    if Spec(db, requester, page, permissionType, targetUser, targetGroup).reply.Ok? {
      InsertKeepsGrantInvariants(db.pagePermissions, GenerateId(db.pagePermissions),
                                 Grant(page, targetUser, targetGroup, permissionType, requester, Now));
    }
  }
}
