/** `UpdateSpacesByFilter.invoke`: a PlatformOwner or WikiProgramManager changes status and/or
    anonymous access on every space that matches the filters. */
module UpdateSpacesByFilter {
  import opened Base
  import opened Model
  import opened Tables

  /** The type, status and creator filters; there is no per-space authority test. */
  predicate Matches(s: Space, filterType: Option<string>, filterStatus: Option<string>, filterCreator: Option<Id>)
  {
    && (Given(filterType) ==> s.spaceType == filterType.value)
    && (Given(filterStatus) ==> s.status == filterStatus.value)
    && (filterCreator.Some? ==> s.createdBy == filterCreator.value)
  }

  function Selection(filterType: Option<string>, filterStatus: Option<string>, filterCreator: Option<Id>)
    : (Id, Space) -> bool
  {
    (k: Id, s: Space) => Matches(s, filterType, filterStatus, filterCreator)
  }

  /** Status when given, anonymous access when supplied (`false` included); updated_at always. */
  function Apply(s: Space, updateStatus: Option<string>, updateAnonymous: Option<bool>): (t: Space)
    ensures t.status == (if Given(updateStatus) then updateStatus.value else s.status)
    ensures t.anonymousAccess == (if updateAnonymous.Some? then updateAnonymous.value else s.anonymousAccess)
    ensures t.updatedAt == Now
    ensures t.(status := s.status, anonymousAccess := s.anonymousAccess, updatedAt := s.updatedAt) == s
  {
    s.(status := if Given(updateStatus) then updateStatus.value else s.status,
       anonymousAccess := if updateAnonymous.Some? then updateAnonymous.value else s.anonymousAccess,
       updatedAt := Now)
  }

  function Change(updateStatus: Option<string>, updateAnonymous: Option<bool>): Space -> Space
  {
    (s: Space) => Apply(s, updateStatus, updateAnonymous)
  }

  ghost function Spec(db: Db, requester: Id, filterType: Option<string>, filterStatus: Option<string>,
                      filterCreator: Option<Id>, updateStatus: Option<string>,
                      updateAnonymous: Option<bool>): Outcome<seq<Space>>
  {
    if requester !in db.users then Fail(db, RequesterNotFound)
    else if !IsManager(db.users, requester) then Fail(db, Unauthorized)
    else if Given(filterType) && filterType.value !in SpaceTypes then Fail(db, InvalidArgument(FilterType))
    else if Given(filterStatus) && filterStatus.value !in SpaceStatuses then Fail(db, InvalidArgument(FilterStatus))
    else if Given(updateStatus) && updateStatus.value !in SpaceStatuses then Fail(db, InvalidArgument(UpdateStatus))
    else
      var sel := Selection(filterType, filterStatus, filterCreator);
      var upd := Change(updateStatus, updateAnonymous);
      Outcome(Ok(CollectWhere(db.spaces, sel, upd)), db.(spaces := UpdateWhere(db.spaces, sel, upd)))
  }

  method Invoke(store: Store, requester: Id, filterType: Option<string>, filterStatus: Option<string>,
                filterCreator: Option<Id>, updateStatus: Option<string>, updateAnonymous: Option<bool>)
    returns (r: Result<seq<Space>>)
    modifies store
    ensures Outcome(r, store.State())
         == Spec(old(store.State()), requester, filterType, filterStatus, filterCreator, updateStatus, updateAnonymous)
  {
    if requester !in store.users { return Err(RequesterNotFound); }
    if !IsManager(store.users, requester) { return Err(Unauthorized); }
    if Given(filterType) && filterType.value !in SpaceTypes { return Err(InvalidArgument(FilterType)); }
    if Given(filterStatus) && filterStatus.value !in SpaceStatuses { return Err(InvalidArgument(FilterStatus)); }
    if Given(updateStatus) && updateStatus.value !in SpaceStatuses { return Err(InvalidArgument(UpdateStatus)); }
    ghost var before := store.State();
    ghost var sel := Selection(filterType, filterStatus, filterCreator);
    ghost var upd := Change(updateStatus, updateAnonymous);
    assert Spec(before, requester, filterType, filterStatus, filterCreator, updateStatus, updateAnonymous)
        == Outcome(Ok(CollectWhere(before.spaces, sel, upd)), before.(spaces := UpdateWhere(before.spaces, sel, upd)));
    var updatedSpaces := UpdatePass(store, filterType, filterStatus, filterCreator, updateStatus, updateAnonymous);
    return Ok(updatedSpaces);
  }

  /** The loop over `spaces.items()`: each matching space is rewritten and appended to the reply. */
  method UpdatePass(store: Store, filterType: Option<string>, filterStatus: Option<string>,
                    filterCreator: Option<Id>, updateStatus: Option<string>, updateAnonymous: Option<bool>)
    returns (updatedSpaces: seq<Space>)
    modifies store`spaces
    ensures var sel := Selection(filterType, filterStatus, filterCreator);
      && store.spaces == UpdateWhere(old(store.spaces), sel, Change(updateStatus, updateAnonymous))
      && updatedSpaces == CollectWhere(old(store.spaces), sel, Change(updateStatus, updateAnonymous))
  {
    ghost var sel := Selection(filterType, filterStatus, filterCreator);
    ghost var upd := Change(updateStatus, updateAnonymous);
    ghost var original := store.spaces;
    var spaces := store.spaces;
    updatedSpaces := [];
    var bound := GenerateId(spaces);
    for k := 0 to bound
      invariant spaces == UpdateBelow(original, sel, upd, k)
      invariant updatedSpaces == CollectBelow(original, sel, upd, k)
    {
      UpdateBelowStep(original, sel, upd, k);
      CollectBelowStep(original, sel, upd, k);
      if k !in spaces { continue; }
      var space := spaces[k];
      if Given(filterType) && space.spaceType != filterType.value { continue; }
      if Given(filterStatus) && space.status != filterStatus.value { continue; }
      if filterCreator.Some? && space.createdBy != filterCreator.value { continue; }

      if Given(updateStatus) { space := space.(status := updateStatus.value); }
      if updateAnonymous.Some? { space := space.(anonymousAccess := updateAnonymous.value); }
      space := space.(updatedAt := Now);
      spaces := spaces[k := space];
      updatedSpaces := updatedSpaces + [space];
    }
    store.spaces := spaces;
  }

  /** The role gate comes before the enumeration checks: a plain user gets the authority error
      whatever the other arguments are. */
  lemma RoleCheckedBeforeEnums(db: Db, requester: Id, filterType: Option<string>, filterStatus: Option<string>,
                               filterCreator: Option<Id>, updateStatus: Option<string>, updateAnonymous: Option<bool>)
    requires requester in db.users && !IsManager(db.users, requester)
    ensures Spec(db, requester, filterType, filterStatus, filterCreator, updateStatus, updateAnonymous)
         == Fail(db, Unauthorized)
  {
  }

  /** An invalid type or status is rejected with nothing changed. */
  lemma InvalidEnumTouchesNothing(db: Db, requester: Id, filterType: Option<string>, filterStatus: Option<string>,
                                  filterCreator: Option<Id>, updateStatus: Option<string>, updateAnonymous: Option<bool>)
    requires || (Given(filterType) && filterType.value !in SpaceTypes)
             || (Given(filterStatus) && filterStatus.value !in SpaceStatuses)
             || (Given(updateStatus) && updateStatus.value !in SpaceStatuses)
    ensures Spec(db, requester, filterType, filterStatus, filterCreator, updateStatus, updateAnonymous).reply.Err?
    ensures Spec(db, requester, filterType, filterStatus, filterCreator, updateStatus, updateAnonymous).db == db
  {
  }

  /** Every matching space is updated, with no per-space authority test; every other space is
      unchanged. */
  lemma EveryMatchIsUpdated(db: Db, requester: Id, filterType: Option<string>, filterStatus: Option<string>,
                            filterCreator: Option<Id>, updateStatus: Option<string>, updateAnonymous: Option<bool>, k: Id)
    requires Spec(db, requester, filterType, filterStatus, filterCreator, updateStatus, updateAnonymous).reply.Ok?
    requires k in db.spaces
    ensures var after := Spec(db, requester, filterType, filterStatus, filterCreator, updateStatus,
                              updateAnonymous).db.spaces[k];
      && (Matches(db.spaces[k], filterType, filterStatus, filterCreator) ==>
            after == Apply(db.spaces[k], updateStatus, updateAnonymous))
      && (!Matches(db.spaces[k], filterType, filterStatus, filterCreator) ==> after == db.spaces[k])
  {
  }

  /** The reply lists exactly the updated spaces, one per matching space. */
  lemma ReplyListsUpdatedSpaces(db: Db, requester: Id, filterType: Option<string>, filterStatus: Option<string>,
                                filterCreator: Option<Id>, updateStatus: Option<string>, updateAnonymous: Option<bool>,
                                s: Space)
    requires Spec(db, requester, filterType, filterStatus, filterCreator, updateStatus, updateAnonymous).reply.Ok?
    ensures var o := Spec(db, requester, filterType, filterStatus, filterCreator, updateStatus, updateAnonymous);
      var sel := Selection(filterType, filterStatus, filterCreator);
      && (s in o.reply.value <==> exists k :: k in db.spaces && sel(k, db.spaces[k]) && o.db.spaces[k] == s)
      && |o.reply.value| == |Selected(db.spaces, sel)|
  {
    var sel := Selection(filterType, filterStatus, filterCreator);
    var upd := Change(updateStatus, updateAnonymous);
    var o := Spec(db, requester, filterType, filterStatus, filterCreator, updateStatus, updateAnonymous);
    assert o.reply.value == CollectWhere(db.spaces, sel, upd) && o.db.spaces == UpdateWhere(db.spaces, sel, upd);
    CollectWhereMembers(db.spaces, sel, upd, s);
    CollectWhereLength(db.spaces, sel, upd);
  }

  /** Only the spaces table changes, and it keeps its keys. */
  lemma OnlySpacesChange(db: Db, requester: Id, filterType: Option<string>, filterStatus: Option<string>,
                         filterCreator: Option<Id>, updateStatus: Option<string>, updateAnonymous: Option<bool>)
    requires Spec(db, requester, filterType, filterStatus, filterCreator, updateStatus, updateAnonymous).reply.Ok?
    ensures var o := Spec(db, requester, filterType, filterStatus, filterCreator, updateStatus, updateAnonymous);
      o.db.spaces.Keys == db.spaces.Keys && o.db == db.(spaces := o.db.spaces)
  {
    var spaces := UpdateWhere(db.spaces, Selection(filterType, filterStatus, filterCreator),
                              Change(updateStatus, updateAnonymous));
    assert Spec(db, requester, filterType, filterStatus, filterCreator, updateStatus, updateAnonymous).db
        == db.(spaces := spaces);
  }

  /** Applying the update to the already-updated table changes nothing more. */
  lemma UpdateWhereIdempotent(spaces: map<Id, Space>, filterType: Option<string>, filterStatus: Option<string>,
                              filterCreator: Option<Id>, updateStatus: Option<string>, updateAnonymous: Option<bool>)
    requires Given(filterStatus) && Given(updateStatus) ==> updateStatus.value == filterStatus.value
    ensures var sel := Selection(filterType, filterStatus, filterCreator);
      var upd := Change(updateStatus, updateAnonymous);
      UpdateWhere(UpdateWhere(spaces, sel, upd), sel, upd) == UpdateWhere(spaces, sel, upd)
  {
    var sel := Selection(filterType, filterStatus, filterCreator);
    var upd := Change(updateStatus, updateAnonymous);
    var once := UpdateWhere(spaces, sel, upd);
    var twice := UpdateWhere(once, sel, upd);
    forall k | k in once ensures twice[k] == once[k] {
      if sel(k, spaces[k]) {
        assert once[k] == Apply(spaces[k], updateStatus, updateAnonymous);
      }
    }
  }

  /** Running the same update twice leaves the spaces as the first run left them, provided the
      new status does not move a space out of the status filter. */
  lemma UpdateIsIdempotent(db: Db, requester: Id, filterType: Option<string>, filterStatus: Option<string>,
                           filterCreator: Option<Id>, updateStatus: Option<string>, updateAnonymous: Option<bool>)
    requires Spec(db, requester, filterType, filterStatus, filterCreator, updateStatus, updateAnonymous).reply.Ok?
    requires Given(filterStatus) && Given(updateStatus) ==> updateStatus.value == filterStatus.value
    ensures var once := Spec(db, requester, filterType, filterStatus, filterCreator, updateStatus, updateAnonymous).db;
      Spec(once, requester, filterType, filterStatus, filterCreator, updateStatus, updateAnonymous).db == once
  {
    var sel := Selection(filterType, filterStatus, filterCreator);
    var upd := Change(updateStatus, updateAnonymous);
    var once := db.(spaces := UpdateWhere(db.spaces, sel, upd));
    assert Spec(db, requester, filterType, filterStatus, filterCreator, updateStatus, updateAnonymous).db == once;
    UpdateWhereIdempotent(db.spaces, filterType, filterStatus, filterCreator, updateStatus, updateAnonymous);
    assert once.(spaces := UpdateWhere(once.spaces, sel, upd)) == once;
  }
}
