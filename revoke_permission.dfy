/** `RevokePermission.invoke`: delete one page or space grant. */
module RevokePermission {
  import opened Base
  import opened Model
  import opened Tables
  import opened Authority

  const PagePermissionsTable: string := "page_permissions"
  const SpacePermissionsTable: string := "space_permissions"

  /** The table the `permission_table` argument names. */
  function Selected(db: Db, table: string): map<Id, Grant>
  {
    if table == PagePermissionsTable then db.pagePermissions else db.spacePermissions
  }

  /** PlatformOwner; the grantor; for a page grant, an admin of the page or, when the page
      exists, a moderator of its space; for a space grant, a moderator of the space. */
  predicate MayRevoke(db: Db, requester: Id, table: string, g: Grant)
  {
    || IsOwner(db.users, requester)
    || g.grantedBy == requester
    || (if table == PagePermissionsTable then
          || IsPageAdmin(db.pagePermissions, g.target, requester)
          || (g.target in db.pages && IsSpaceModerator(db.spacePermissions, db.pages[g.target].spaceId, requester))
        else IsSpaceModerator(db.spacePermissions, g.target, requester))
  }

  ghost function Spec(db: Db, requester: Id, permission: Id, table: string): Outcome<()>
  {
    if requester !in db.users then Fail(db, RequesterNotFound)
    else if table != PagePermissionsTable && table != SpacePermissionsTable then Fail(db, InvalidArgument(PermissionTable))
    else if permission !in Selected(db, table) then Fail(db, PermissionNotFound)
    else if !MayRevoke(db, requester, table, Selected(db, table)[permission]) then Fail(db, Unauthorized)
    else if table == PagePermissionsTable then
      Outcome(Ok(()), db.(pagePermissions := db.pagePermissions - {permission}))
    else
      Outcome(Ok(()), db.(spacePermissions := db.spacePermissions - {permission}))
  }

  method Invoke(store: Store, requester: Id, permission: Id, table: string) returns (r: Result<()>)
    modifies store
    ensures Outcome(r, store.State()) == Spec(old(store.State()), requester, permission, table)
  {
    if requester !in store.users { return Err(RequesterNotFound); }
    if table != PagePermissionsTable && table != SpacePermissionsTable {
      return Err(InvalidArgument(PermissionTable));
    }
    var permissionsTable := if table == PagePermissionsTable then store.pagePermissions else store.spacePermissions;
    if permission !in permissionsTable { return Err(PermissionNotFound); }

    var requestingUser := store.users[requester];
    var grant := permissionsTable[permission];
    var hasAuthority := false;
    if requestingUser.role == PlatformOwner {
      hasAuthority := true;
    } else if grant.grantedBy == requester {
      hasAuthority := true;
    } else if table == PagePermissionsTable {
      hasAuthority := FindGrant(store.pagePermissions, grant.target, requester, PageAdmin);
      if !hasAuthority && grant.target in store.pages {
        hasAuthority := FindGrant(store.spacePermissions, store.pages[grant.target].spaceId, requester, SpaceModerate);
      }
    } else {
      hasAuthority := FindGrant(store.spacePermissions, grant.target, requester, SpaceModerate);
    }
    if !hasAuthority { return Err(Unauthorized); }

    if table == PagePermissionsTable {
      store.pagePermissions := store.pagePermissions - {permission};
    } else {
      store.spacePermissions := store.spacePermissions - {permission};
    }
    return Ok(());
  }

  /** The call succeeds exactly when the requester exists, the table name is one of the two,
      the grant exists in it and the requester may revoke it. */
  lemma SucceedsExactlyWhen(db: Db, requester: Id, permission: Id, table: string)
    ensures Spec(db, requester, permission, table).reply.Ok?
        <==> && requester in db.users
             && (table == PagePermissionsTable || table == SpacePermissionsTable)
             && permission in Selected(db, table)
             && MayRevoke(db, requester, table, Selected(db, table)[permission])
  {
  }

  /** A table name other than the two permission tables is rejected. */
  lemma RejectsUnknownTable(db: Db, requester: Id, permission: Id, table: string)
    requires requester in db.users
    requires table != PagePermissionsTable && table != SpacePermissionsTable
    ensures Spec(db, requester, permission, table) == Fail(db, InvalidArgument(PermissionTable))
  {
  }

  /** A rejected call, in particular an unauthorized one, deletes nothing. */
  lemma RejectedChangesNothing(db: Db, requester: Id, permission: Id, table: string)
    requires Spec(db, requester, permission, table).reply.Err?
    ensures Spec(db, requester, permission, table).db == db
  {
    var o := Spec(db, requester, permission, table);
    if requester !in db.users {
      assert o == Fail(db, RequesterNotFound);
    } else if table != PagePermissionsTable && table != SpacePermissionsTable {
      assert o == Fail(db, InvalidArgument(PermissionTable));
    } else if permission !in Selected(db, table) {
      assert o == Fail(db, PermissionNotFound);
    } else {
      assert !MayRevoke(db, requester, table, Selected(db, table)[permission]);
      assert o == Fail(db, Unauthorized);
    }
  }

  /** Success removes exactly that key from the named table; the other table and every other
      record are unchanged. */
  lemma SuccessRemovesExactlyThatKey(db: Db, requester: Id, permission: Id, table: string)
    requires Spec(db, requester, permission, table).reply.Ok?
    ensures var o := Spec(db, requester, permission, table);
      && permission in Selected(db, table)
      && permission !in Selected(o.db, table)
      && Selected(o.db, table).Keys == Selected(db, table).Keys - {permission}
      && (forall k :: k in Selected(o.db, table) ==> Selected(o.db, table)[k] == Selected(db, table)[k])
      && (table == PagePermissionsTable ==> o.db == db.(pagePermissions := o.db.pagePermissions))
      && (table == SpacePermissionsTable ==> o.db == db.(spacePermissions := o.db.spacePermissions))
  {
    var o := Spec(db, requester, permission, table);
    if table == PagePermissionsTable {
      assert o.db == db.(pagePermissions := db.pagePermissions - {permission});
    } else {
      assert o.db == db.(spacePermissions := db.spacePermissions - {permission});
    }
  }

  /** Deleting a grant keeps the grant-table invariants. */
  lemma KeepsGrantInvariants(db: Db, requester: Id, permission: Id, table: string)
    requires OnePrincipalEach(db.pagePermissions) && NoDuplicateGrants(db.pagePermissions)
    requires OnePrincipalEach(db.spacePermissions) && NoDuplicateGrants(db.spacePermissions)
    ensures var o := Spec(db, requester, permission, table);
      && OnePrincipalEach(o.db.pagePermissions) && NoDuplicateGrants(o.db.pagePermissions)
      && OnePrincipalEach(o.db.spacePermissions) && NoDuplicateGrants(o.db.spacePermissions)
  {
    var o := Spec(db, requester, permission, table);
    if o.reply.Err? {
      assert o.db == db;
    } else if table == PagePermissionsTable {
      RemoveKeepsGrantInvariants(db.pagePermissions, permission);
      assert o.db == db.(pagePermissions := db.pagePermissions - {permission});
    } else {
      RemoveKeepsGrantInvariants(db.spacePermissions, permission);
      assert o.db == db.(spacePermissions := db.spacePermissions - {permission});
    }
  }
}
