/** `ReadUserPermissions.invoke`: list the page and space grants a user holds in their own
    name, each with the title of its page or the name of its space. */
module ReadUserPermissions {
  import opened Base
  import opened Model
  import opened Tables

  const Unknown: string := "Unknown"
  const PageTarget: string := "page"
  const SpaceTarget: string := "space"

  /** A grant with the name of what it is on: `page_title` or `space_name`. */
  datatype GrantView = GrantView(grant: Grant, context: string)

  datatype UserPermissions = UserPermissions(
    userId: Id, pagePermissions: seq<GrantView>, spacePermissions: seq<GrantView>)

  /** The grant is held by `user` directly and passes the permission-type filter. */
  function HeldBy(user: Id, filterType: Option<string>): (Id, Grant) -> bool
  {
    (k: Id, g: Grant) => g.userId == Some(user) && (Given(filterType) ==> g.permissionType == filterType.value)
  }

  function PageTitle(pages: map<Id, Page>, page: Id): string
  {
    if page in pages then pages[page].title else Unknown
  }

  function SpaceName(spaces: map<Id, Space>, space: Id): string
  {
    if space in spaces then spaces[space].name else Unknown
  }

  function WithPageTitle(pages: map<Id, Page>): Grant -> GrantView
  {
    (g: Grant) => GrantView(g, PageTitle(pages, g.target))
  }

  function WithSpaceName(spaces: map<Id, Space>): Grant -> GrantView
  {
    (g: Grant) => GrantView(g, SpaceName(spaces, g.target))
  }

  /** Whether the target-type filter lets the page list, or the space list, be collected. */
  predicate Wants(filterTarget: Option<string>, kind: string)
  {
    !Given(filterTarget) || filterTarget.value == kind
  }

  function Spec(db: Db, requester: Id, target: Id, filterType: Option<string>, filterTarget: Option<string>)
    : Result<UserPermissions>
  {
    if requester !in db.users then Err(RequesterNotFound)
    else if target !in db.users then Err(TargetUserNotFound)
    else if !IsOwner(db.users, requester) && requester != target then Err(Unauthorized)
    else if Given(filterTarget) && filterTarget.value !in {PageTarget, SpaceTarget} then
      Err(InvalidArgument(FilterTargetType))
    else
      Ok(UserPermissions(
        target,
        if Wants(filterTarget, PageTarget) then
          CollectWhere(db.pagePermissions, HeldBy(target, filterType), WithPageTitle(db.pages))
        else [],
        if Wants(filterTarget, SpaceTarget) then
          CollectWhere(db.spacePermissions, HeldBy(target, filterType), WithSpaceName(db.spaces))
        else []))
  }

  method Invoke(store: Store, requester: Id, target: Id, filterType: Option<string>, filterTarget: Option<string>)
    returns (r: Result<UserPermissions>)
    ensures r == Spec(store.State(), requester, target, filterType, filterTarget)
  {
    if requester !in store.users { return Err(RequesterNotFound); }
    if target !in store.users { return Err(TargetUserNotFound); }
    if store.users[requester].role != PlatformOwner && requester != target { return Err(Unauthorized); }
    if Given(filterTarget) && filterTarget.value != PageTarget && filterTarget.value != SpaceTarget {
      return Err(InvalidArgument(FilterTargetType));
    }

    var pageList: seq<GrantView> := [];
    if !Given(filterTarget) || filterTarget.value == PageTarget {
      pageList := CollectGrants(store.pagePermissions, target, filterType, WithPageTitle(store.pages));
    }
    var spaceList: seq<GrantView> := [];
    if !Given(filterTarget) || filterTarget.value == SpaceTarget {
      spaceList := CollectGrants(store.spacePermissions, target, filterType, WithSpaceName(store.spaces));
    }
    return Ok(UserPermissions(target, pageList, spaceList));
  }

  /** One of the two collection loops: every grant the target holds that passes the type filter,
      with its context, in key order. */
  method CollectGrants(grants: map<Id, Grant>, target: Id, filterType: Option<string>, view: Grant -> GrantView)
    returns (list: seq<GrantView>)
    ensures list == CollectWhere(grants, HeldBy(target, filterType), view)
  {
    ghost var sel := HeldBy(target, filterType);
    list := [];
    var bound := GenerateId(grants);
    for k := 0 to bound
      invariant list == CollectBelow(grants, sel, view, k)
    {
      CollectBelowStep(grants, sel, view, k);
      if k !in grants { continue; }
      var grant := grants[k];
      if grant.userId == Some(target) {
        if !Given(filterType) || grant.permissionType == filterType.value {
          list := list + [view(grant)];
        }
      }
    }
  }

  /** The call succeeds exactly when both users exist, the requester is PlatformOwner or reads
      their own grants, and the target-type filter is absent, "page" or "space". */
  lemma SucceedsExactlyWhen(db: Db, requester: Id, target: Id, filterType: Option<string>,
                            filterTarget: Option<string>)
    ensures Spec(db, requester, target, filterType, filterTarget).Ok?
        <==> && requester in db.users && target in db.users
             && (IsOwner(db.users, requester) || requester == target)
             && (!Given(filterTarget) || filterTarget.value == PageTarget || filterTarget.value == SpaceTarget)
  {
  }

  /** The page list holds exactly the page grants the target holds directly and that pass the
      filters, one entry per grant, each with the title of its page or "Unknown". */
  lemma PageListIsExact(db: Db, requester: Id, target: Id, filterType: Option<string>,
                        filterTarget: Option<string>, v: GrantView)
    requires Spec(db, requester, target, filterType, filterTarget).Ok?
    requires Wants(filterTarget, PageTarget)
    ensures var list := Spec(db, requester, target, filterType, filterTarget).value.pagePermissions;
      && (v in list <==> exists k :: && k in db.pagePermissions
                                      && db.pagePermissions[k].userId == Some(target)
                                      && (Given(filterType) ==> db.pagePermissions[k].permissionType == filterType.value)
                                      && v == GrantView(db.pagePermissions[k], PageTitle(db.pages, db.pagePermissions[k].target)))
      && |list| == |Selected(db.pagePermissions, HeldBy(target, filterType))|
  {
    CollectWhereMembers(db.pagePermissions, HeldBy(target, filterType), WithPageTitle(db.pages), v);
    CollectWhereLength(db.pagePermissions, HeldBy(target, filterType), WithPageTitle(db.pages));
  }

  /** The space list holds exactly the space grants the target holds directly and that pass the
      filters, each with the name of its space or "Unknown". */
  lemma SpaceListIsExact(db: Db, requester: Id, target: Id, filterType: Option<string>,
                         filterTarget: Option<string>, v: GrantView)
    requires Spec(db, requester, target, filterType, filterTarget).Ok?
    requires Wants(filterTarget, SpaceTarget)
    ensures var list := Spec(db, requester, target, filterType, filterTarget).value.spacePermissions;
      && (v in list <==> exists k :: && k in db.spacePermissions
                                      && db.spacePermissions[k].userId == Some(target)
                                      && (Given(filterType) ==> db.spacePermissions[k].permissionType == filterType.value)
                                      && v == GrantView(db.spacePermissions[k], SpaceName(db.spaces, db.spacePermissions[k].target)))
      && |list| == |Selected(db.spacePermissions, HeldBy(target, filterType))|
  {
    CollectWhereMembers(db.spacePermissions, HeldBy(target, filterType), WithSpaceName(db.spaces), v);
    CollectWhereLength(db.spacePermissions, HeldBy(target, filterType), WithSpaceName(db.spaces));
  }

  /** The target-type filter empties the other list. */
  lemma TargetFilterEmptiesOtherList(db: Db, requester: Id, target: Id, filterType: Option<string>,
                                     filterTarget: Option<string>)
    requires Spec(db, requester, target, filterType, filterTarget).Ok?
    requires Given(filterTarget)
    ensures var perms := Spec(db, requester, target, filterType, filterTarget).value;
      && (filterTarget.value == SpaceTarget ==> perms.pagePermissions == [])
      && (filterTarget.value == PageTarget ==> perms.spacePermissions == [])
      && perms.userId == target
  {
  }

  /** Grants held through a group are not listed: a grant whose principal is a group never
      appears. */
  lemma GroupGrantsNotListed(db: Db, requester: Id, target: Id, filterType: Option<string>,
                             filterTarget: Option<string>, k: Id)
    requires Spec(db, requester, target, filterType, filterTarget).Ok?
    requires k in db.pagePermissions && db.pagePermissions[k].userId.None?
    ensures GrantView(db.pagePermissions[k], PageTitle(db.pages, db.pagePermissions[k].target))
            !in Spec(db, requester, target, filterType, filterTarget).value.pagePermissions
  {
    var v := GrantView(db.pagePermissions[k], PageTitle(db.pages, db.pagePermissions[k].target));
    if Wants(filterTarget, PageTarget) {
      CollectWhereMembers(db.pagePermissions, HeldBy(target, filterType), WithPageTitle(db.pages), v);
    }
  }
}
