/** `UpdateGroupsByFilter.invoke`: a PlatformOwner sets the description of every group that
    matches the type and creator filters. */
module UpdateGroupsByFilter {
  import opened Base
  import opened Model
  import opened Tables

  /** The type and creator filters. */
  predicate Matches(g: Group, filterType: Option<string>, filterCreator: Option<Id>)
  {
    && (Given(filterType) ==> g.groupType == filterType.value)
    && (filterCreator.Some? ==> g.createdBy == filterCreator.value)
  }

  function Selection(filterType: Option<string>, filterCreator: Option<Id>): (Id, Group) -> bool
  {
    (k: Id, g: Group) => Matches(g, filterType, filterCreator)
  }

  /** The description is replaced when supplied (an empty string included); no timestamp is set. */
  function Apply(g: Group, updateDescription: Option<string>): (h: Group)
    ensures h.description == (if updateDescription.Some? then updateDescription else g.description)
    ensures h.(description := g.description) == g
  {
    if updateDescription.Some? then g.(description := updateDescription) else g
  }

  function Change(updateDescription: Option<string>): Group -> Group
  {
    (g: Group) => Apply(g, updateDescription)
  }

  ghost function Spec(db: Db, requester: Id, filterType: Option<string>, filterCreator: Option<Id>,
                      updateDescription: Option<string>): Outcome<seq<Group>>
  {
    if requester !in db.users then Fail(db, RequesterNotFound)
    else if Given(filterType) && filterType.value !in GroupTypes then Fail(db, InvalidArgument(FilterType))
    else if !IsOwner(db.users, requester) then Fail(db, Unauthorized)
    else
      var sel := Selection(filterType, filterCreator);
      var upd := Change(updateDescription);
      Outcome(Ok(CollectWhere(db.groups, sel, upd)), db.(groups := UpdateWhere(db.groups, sel, upd)))
  }

  method Invoke(store: Store, requester: Id, filterType: Option<string>, filterCreator: Option<Id>,
                updateDescription: Option<string>)
    returns (r: Result<seq<Group>>)
    modifies store
    ensures Outcome(r, store.State()) == Spec(old(store.State()), requester, filterType, filterCreator, updateDescription)
  {
    if requester !in store.users { return Err(RequesterNotFound); }
    if Given(filterType) && filterType.value !in GroupTypes { return Err(InvalidArgument(FilterType)); }
    if !IsOwner(store.users, requester) { return Err(Unauthorized); }
    var updatedGroups := UpdatePass(store, filterType, filterCreator, updateDescription);
    return Ok(updatedGroups);
  }

  /** The loop over `groups.items()`: every matching group is appended to the reply, updated or not. */
  method UpdatePass(store: Store, filterType: Option<string>, filterCreator: Option<Id>,
                    updateDescription: Option<string>)
    returns (updatedGroups: seq<Group>)
    modifies store`groups
    ensures store.groups == UpdateWhere(old(store.groups), Selection(filterType, filterCreator), Change(updateDescription))
    ensures updatedGroups
         == CollectWhere(old(store.groups), Selection(filterType, filterCreator), Change(updateDescription))
  {
    ghost var sel := Selection(filterType, filterCreator);
    ghost var upd := Change(updateDescription);
    ghost var original := store.groups;
    var groups := store.groups;
    updatedGroups := [];
    var bound := GenerateId(groups);
    for k := 0 to bound
      invariant groups == UpdateBelow(original, sel, upd, k)
      invariant updatedGroups == CollectBelow(original, sel, upd, k)
    {
      UpdateBelowStep(original, sel, upd, k);
      CollectBelowStep(original, sel, upd, k);
      if k !in groups { continue; }
      var group := groups[k];
      if Given(filterType) && group.groupType != filterType.value { continue; }
      if filterCreator.Some? && group.createdBy != filterCreator.value { continue; }

      if updateDescription.Some? { group := group.(description := updateDescription); }
      groups := groups[k := group];
      updatedGroups := updatedGroups + [group];
    }
    store.groups := groups;
  }

  /** The type filter is validated before the role: a plain user with an invalid type gets the
      validation error, with a valid one the authority error. */
  lemma TypeCheckedBeforeRole(db: Db, requester: Id, filterType: Option<string>, filterCreator: Option<Id>,
                              updateDescription: Option<string>)
    requires requester in db.users && !IsOwner(db.users, requester)
    ensures Spec(db, requester, filterType, filterCreator, updateDescription)
         == if Given(filterType) && filterType.value !in GroupTypes then Fail(db, InvalidArgument(FilterType))
            else Fail(db, Unauthorized)
  {
  }

  /** Without a new description the call changes nothing, yet still lists every matching group. */
  lemma NoDescriptionChangesNothing(db: Db, requester: Id, filterType: Option<string>, filterCreator: Option<Id>)
    requires Spec(db, requester, filterType, filterCreator, None).reply.Ok?
    ensures Spec(db, requester, filterType, filterCreator, None).db == db
    ensures |Spec(db, requester, filterType, filterCreator, None).reply.value|
         == |Selected(db.groups, Selection(filterType, filterCreator))|
  {
    var sel := Selection(filterType, filterCreator);
    var upd := Change(None);
    assert UpdateWhere(db.groups, sel, upd) == db.groups;
    CollectWhereLength(db.groups, sel, upd);
  }

  /** Every matching group is updated and every other group is unchanged. */
  lemma EveryMatchIsUpdated(db: Db, requester: Id, filterType: Option<string>, filterCreator: Option<Id>,
                            updateDescription: Option<string>, k: Id)
    requires Spec(db, requester, filterType, filterCreator, updateDescription).reply.Ok?
    requires k in db.groups
    ensures var after := Spec(db, requester, filterType, filterCreator, updateDescription).db.groups[k];
      && (Matches(db.groups[k], filterType, filterCreator) ==> after == Apply(db.groups[k], updateDescription))
      && (!Matches(db.groups[k], filterType, filterCreator) ==> after == db.groups[k])
  {
  }

  /** The reply lists exactly the matching groups, after the update. */
  lemma ReplyListsMatchingGroups(db: Db, requester: Id, filterType: Option<string>, filterCreator: Option<Id>,
                                 updateDescription: Option<string>, g: Group)
    requires Spec(db, requester, filterType, filterCreator, updateDescription).reply.Ok?
    ensures var o := Spec(db, requester, filterType, filterCreator, updateDescription);
      var sel := Selection(filterType, filterCreator);
      && (g in o.reply.value <==> exists k :: k in db.groups && sel(k, db.groups[k]) && o.db.groups[k] == g)
      && |o.reply.value| == |Selected(db.groups, sel)|
  {
    var sel := Selection(filterType, filterCreator);
    var upd := Change(updateDescription);
    CollectWhereMembers(db.groups, sel, upd, g);
    CollectWhereLength(db.groups, sel, upd);
  }

  /** Only the groups table changes, and it keeps its keys. */
  lemma OnlyGroupsChange(db: Db, requester: Id, filterType: Option<string>, filterCreator: Option<Id>,
                         updateDescription: Option<string>)
    requires Spec(db, requester, filterType, filterCreator, updateDescription).reply.Ok?
    ensures var o := Spec(db, requester, filterType, filterCreator, updateDescription);
      o.db.groups.Keys == db.groups.Keys && o.db == db.(groups := o.db.groups)
  {
    var groups := UpdateWhere(db.groups, Selection(filterType, filterCreator), Change(updateDescription));
    assert Spec(db, requester, filterType, filterCreator, updateDescription).db == db.(groups := groups);
  }
}
