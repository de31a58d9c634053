/** The authority checks the handlers repeat: a role test, and linear scans of
    `page_permissions` / `space_permissions` for a grant held directly by a user. */
module Authority {
  import opened Base
  import opened Model
  import opened Tables

  const PageAdmin: set<string> := {"admin"}
  const PageEditOrAdmin: set<string> := {"edit", "admin"}
  const SpaceModerate: set<string> := {"moderate"}
  const SpaceContributeOrModerate: set<string> := {"contribute", "moderate"}
  const SpaceAnyAccess: set<string> := {"view", "contribute", "moderate"}

  /** `perm["<target>_id"] == target and perm["user_id"] == user and perm["permission_type"] in kinds`. */
  predicate GrantMatches(g: Grant, target: Id, user: Id, kinds: set<string>)
  {
    g.target == target && g.userId == Some(user) && g.permissionType in kinds
  }

  /** The user holds, in their own name, a grant of one of `kinds` on `target`.
      Grants held through a group are never consulted. */
  predicate HasGrant(grants: map<Id, Grant>, target: Id, user: Id, kinds: set<string>)
  {
    exists k :: k in grants && GrantMatches(grants[k], target, user, kinds)
  }

  predicate IsPageAdmin(pagePermissions: map<Id, Grant>, page: Id, user: Id)
  {
    HasGrant(pagePermissions, page, user, PageAdmin)
  }

  /** The variant used by the two link tools: `edit` suffices as well as `admin`. */
  predicate IsPageEditorOrAdmin(pagePermissions: map<Id, Grant>, page: Id, user: Id)
  {
    HasGrant(pagePermissions, page, user, PageEditOrAdmin)
  }

  predicate IsSpaceModerator(spacePermissions: map<Id, Grant>, space: Id, user: Id)
  {
    HasGrant(spacePermissions, space, user, SpaceModerate)
  }

  /** Delegated authority over a page: a page grant of one of `pageKinds` on the page,
      or `moderate` on the space the page belongs to. */
  predicate ManagesPage(pagePermissions: map<Id, Grant>, spacePermissions: map<Id, Grant>,
                       page: Id, space: Id, user: Id, pageKinds: set<string>)
  {
    HasGrant(pagePermissions, page, user, pageKinds) || IsSpaceModerator(spacePermissions, space, user)
  }

  /** The flag-setting loop `for perm in table.values(): if ...: has_authority = True; break`. */
  method FindGrant(grants: map<Id, Grant>, target: Id, user: Id, kinds: set<string>) returns (found: bool)
    ensures found == HasGrant(grants, target, user, kinds)
  {
    found := Scan(grants, (k: Id, g: Grant) => GrantMatches(g, target, user, kinds));
  }

  /** The page scan followed, when it fails, by the space scan. */
  method CheckManagesPage(pagePermissions: map<Id, Grant>, spacePermissions: map<Id, Grant>,
                          page: Id, space: Id, user: Id, pageKinds: set<string>) returns (allowed: bool)
    ensures allowed == ManagesPage(pagePermissions, spacePermissions, page, space, user, pageKinds)
  {
    allowed := FindGrant(pagePermissions, page, user, pageKinds);
    if !allowed {
      allowed := FindGrant(spacePermissions, space, user, SpaceModerate);
    }
  }

  /** Authority through a page that may have been deleted: the page exists, and the user holds
      one of `pageKinds` on it or `moderate` on its space. */
  predicate ManagesExistingPage(pages: map<Id, Page>, pagePermissions: map<Id, Grant>,
                                spacePermissions: map<Id, Grant>, page: Id, user: Id, pageKinds: set<string>)
  {
    page in pages && ManagesPage(pagePermissions, spacePermissions, page, pages[page].spaceId, user, pageKinds)
  }

  /** `elif page_id in pages:` followed by the page scan and the space scan. */
  method CheckManagesExistingPage(pages: map<Id, Page>, pagePermissions: map<Id, Grant>,
                                  spacePermissions: map<Id, Grant>, page: Id, user: Id, pageKinds: set<string>)
    returns (allowed: bool)
    ensures allowed == ManagesExistingPage(pages, pagePermissions, spacePermissions, page, user, pageKinds)
  {
    allowed := false;
    if page in pages {
      allowed := CheckManagesPage(pagePermissions, spacePermissions, page, pages[page].spaceId, user, pageKinds);
    }
  }

  /** A page admin is also an editor-or-admin: the link tools accept everyone the other tools accept. */
  lemma AdminIsEditorOrAdmin(pagePermissions: map<Id, Grant>, page: Id, user: Id)
    ensures IsPageAdmin(pagePermissions, page, user) ==> IsPageEditorOrAdmin(pagePermissions, page, user)
  {
    if IsPageAdmin(pagePermissions, page, user) {
      var k :| k in pagePermissions && GrantMatches(pagePermissions[k], page, user, PageAdmin);
      assert GrantMatches(pagePermissions[k], page, user, PageEditOrAdmin);
    }
  }

  /** Adding a grant that names `user` directly gives them that authority. */
  lemma InsertedGrantCounts(grants: map<Id, Grant>, id: Id, g: Grant, user: Id, kinds: set<string>)
    requires g.userId == Some(user) && g.permissionType in kinds
    ensures HasGrant(grants[id := g], g.target, user, kinds)
  {
    assert GrantMatches(grants[id := g][id], g.target, user, kinds);
  }

  /** A grant to a group, or to another user, never gives `user` authority. */
  lemma OtherPrincipalGrantIgnored(grants: map<Id, Grant>, id: Id, g: Grant, target: Id, user: Id, kinds: set<string>)
    requires id !in grants
    requires g.userId != Some(user)
    ensures HasGrant(grants[id := g], target, user, kinds) == HasGrant(grants, target, user, kinds)
  {
    if HasGrant(grants[id := g], target, user, kinds) {
      var k :| k in grants[id := g] && GrantMatches(grants[id := g][k], target, user, kinds);
      assert k != id && k in grants;
    }
    if HasGrant(grants, target, user, kinds) {
      var k :| k in grants && GrantMatches(grants[k], target, user, kinds);
      assert k in grants[id := g] && grants[id := g][k] == grants[k];
    }
  }

  // ---------------------------------------------------------------------------
  // Duplicate grants and the shape of a grant
  // ---------------------------------------------------------------------------

  /** The duplicate test of the grant tools: same target and the same user
      (when a user is named) or the same group (when a group is named). */
  predicate SamePrincipal(g: Grant, target: Id, targetUser: Option<Id>, targetGroup: Option<Id>)
  {
    g.target == target
    && ((targetUser.Some? && g.userId == targetUser) || (targetGroup.Some? && g.groupId == targetGroup))
  }

  predicate PrincipalHasGrant(grants: map<Id, Grant>, target: Id, targetUser: Option<Id>, targetGroup: Option<Id>)
  {
    Exists(grants, (k: Id, g: Grant) => SamePrincipal(g, target, targetUser, targetGroup))
  }

  method FindPrincipalGrant(grants: map<Id, Grant>, target: Id, targetUser: Option<Id>, targetGroup: Option<Id>)
    returns (found: bool)
    ensures found == PrincipalHasGrant(grants, target, targetUser, targetGroup)
  {
    found := Scan(grants, (k: Id, g: Grant) => SamePrincipal(g, target, targetUser, targetGroup));
  }

  /** Every grant names exactly one principal, a user or a group. */
  predicate OnePrincipalEach(grants: map<Id, Grant>)
  {
    forall k :: k in grants ==> (grants[k].userId.Some? != grants[k].groupId.Some?)
  }

  /** No two grants on the same target name the same principal. */
  predicate NoDuplicateGrants(grants: map<Id, Grant>)
  {
    forall j, k :: j in grants && k in grants && j != k && grants[j].target == grants[k].target ==>
      (grants[j].userId.Some? ==> grants[j].userId != grants[k].userId)
      && (grants[j].groupId.Some? ==> grants[j].groupId != grants[k].groupId)
  }

  /** Inserting a one-principal grant that passed the duplicate test keeps both invariants. */
  lemma InsertKeepsGrantInvariants(grants: map<Id, Grant>, id: Id, g: Grant)
    requires OnePrincipalEach(grants) && NoDuplicateGrants(grants)
    requires id !in grants
    requires g.userId.Some? != g.groupId.Some?
    requires !PrincipalHasGrant(grants, g.target, g.userId, g.groupId)
    ensures OnePrincipalEach(grants[id := g]) && NoDuplicateGrants(grants[id := g])
  {
    var t := grants[id := g];
    forall j, k | j in t && k in t && j != k && t[j].target == t[k].target
      ensures (t[j].userId.Some? ==> t[j].userId != t[k].userId)
           && (t[j].groupId.Some? ==> t[j].groupId != t[k].groupId)
    {
      if j == id {
        assert !SamePrincipal(t[k], g.target, g.userId, g.groupId);
      } else if k == id {
        assert !SamePrincipal(t[j], g.target, g.userId, g.groupId);
      }
    }
  }

  /** Removing a grant keeps both invariants. */
  lemma RemoveKeepsGrantInvariants(grants: map<Id, Grant>, id: Id)
    requires OnePrincipalEach(grants) && NoDuplicateGrants(grants)
    ensures OnePrincipalEach(grants - {id}) && NoDuplicateGrants(grants - {id})
  {
  }
}
