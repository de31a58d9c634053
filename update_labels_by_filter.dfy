/** `UpdateLabelsByFilter.invoke`: change color and/or description on every label that matches
    the filters and that the requester may manage. */
module UpdateLabelsByFilter {
  import opened Base
  import opened Model
  import opened Tables
  import opened Authority

  /** The space, name and color filters. */
  predicate Matches(l: Label, filterSpace: Option<Id>, filterName: Option<string>, filterColor: Option<string>)
  {
    && (filterSpace.Some? ==> l.spaceId == filterSpace.value)
    && (Given(filterName) ==> l.name == filterName.value)
    && (Given(filterColor) ==> l.color == filterColor.value)
  }

  /** PlatformOwner, the creator of the label, or a moderator of the label's space. */
  predicate MayUpdate(users: map<Id, User>, spacePermissions: map<Id, Grant>, requester: Id, l: Label)
  {
    || IsOwner(users, requester)
    || l.createdBy == requester
    || IsSpaceModerator(spacePermissions, l.spaceId, requester)
  }

  function Selection(users: map<Id, User>, spacePermissions: map<Id, Grant>, requester: Id,
                     filterSpace: Option<Id>, filterName: Option<string>,
                     filterColor: Option<string>): (Id, Label) -> bool
  {
    (k: Id, l: Label) =>
      Matches(l, filterSpace, filterName, filterColor) && MayUpdate(users, spacePermissions, requester, l)
  }

  /** Color and description are replaced when supplied (an empty string included). The handler
      has no updated_at for labels: it stamps created_at with the fixed timestamp instead. */
  function Apply(l: Label, updateColor: Option<string>, updateDescription: Option<string>): (u: Label)
    ensures u.color == (if updateColor.Some? then updateColor.value else l.color)
    ensures u.description == (if updateDescription.Some? then updateDescription else l.description)
    ensures u.createdAt == Now
    ensures u.(color := l.color, description := l.description, createdAt := l.createdAt) == l
  {
    l.(color := if updateColor.Some? then updateColor.value else l.color,
       description := if updateDescription.Some? then updateDescription else l.description,
       createdAt := Now)
  }

  function Change(updateColor: Option<string>, updateDescription: Option<string>): Label -> Label
  {
    (l: Label) => Apply(l, updateColor, updateDescription)
  }

  ghost function Spec(db: Db, requester: Id, filterSpace: Option<Id>, filterName: Option<string>,
                      filterColor: Option<string>, updateColor: Option<string>,
                      updateDescription: Option<string>): Outcome<seq<Label>>
  {
    if requester !in db.users then Fail(db, RequesterNotFound)
    else
      var sel := Selection(db.users, db.spacePermissions, requester, filterSpace, filterName, filterColor);
      var upd := Change(updateColor, updateDescription);
      Outcome(Ok(CollectWhere(db.labels, sel, upd)), db.(labels := UpdateWhere(db.labels, sel, upd)))
  }

  /** One iteration of the loop body: the filters, then PlatformOwner, the creator, and the
      moderator scan on the label's space. */
  method Visit(users: map<Id, User>, spacePermissions: map<Id, Grant>, requester: Id,
               filterSpace: Option<Id>, filterName: Option<string>, filterColor: Option<string>,
               updateColor: Option<string>, updateDescription: Option<string>, k: Id, row: Label)
    returns (selected: bool, updated: Label)
    requires requester in users
    ensures selected == Selection(users, spacePermissions, requester, filterSpace, filterName, filterColor)(k, row)
    ensures selected ==> updated == Change(updateColor, updateDescription)(row)
  {
    updated := row;
    if filterSpace.Some? && row.spaceId != filterSpace.value { return false, updated; }
    if Given(filterName) && row.name != filterName.value { return false, updated; }
    if Given(filterColor) && row.color != filterColor.value { return false, updated; }
    assert Matches(row, filterSpace, filterName, filterColor);

    if users[requester].role == PlatformOwner {
      selected := true;
    } else if row.createdBy == requester {
      selected := true;
    } else {
      selected := FindGrant(spacePermissions, row.spaceId, requester, SpaceModerate);
    }
    if !selected { return; }

    var color, description := row.color, row.description;
    if updateColor.Some? { color := updateColor.value; }
    if updateDescription.Some? { description := updateDescription; }
    updated := row.(color := color, description := description, createdAt := Now);
  }

  method Invoke(store: Store, requester: Id, filterSpace: Option<Id>, filterName: Option<string>,
                filterColor: Option<string>, updateColor: Option<string>, updateDescription: Option<string>)
    returns (r: Result<seq<Label>>)
    modifies store
    ensures Outcome(r, store.State())
         == Spec(old(store.State()), requester, filterSpace, filterName, filterColor, updateColor, updateDescription)
  {
    if requester !in store.users { return Err(RequesterNotFound); }
    var updatedLabels := UpdatePass(store, requester, filterSpace, filterName, filterColor,
                                    updateColor, updateDescription);
    return Ok(updatedLabels);
  }

  /** The loop over `labels.items()`: each selected label is rewritten and appended to the reply. */
  method UpdatePass(store: Store, requester: Id, filterSpace: Option<Id>, filterName: Option<string>,
                    filterColor: Option<string>, updateColor: Option<string>, updateDescription: Option<string>)
    returns (updatedLabels: seq<Label>)
    requires requester in store.users
    modifies store`labels
    ensures var sel := Selection(store.users, store.spacePermissions, requester, filterSpace, filterName, filterColor);
      && store.labels == UpdateWhere(old(store.labels), sel, Change(updateColor, updateDescription))
      && updatedLabels == CollectWhere(old(store.labels), sel, Change(updateColor, updateDescription))
  {
    ghost var sel := Selection(store.users, store.spacePermissions, requester, filterSpace, filterName, filterColor);
    ghost var upd := Change(updateColor, updateDescription);
    ghost var original := store.labels;
    var labels := store.labels;
    updatedLabels := [];
    var users, spacePermissions := store.users, store.spacePermissions;
    var bound := GenerateId(labels);
    for k := 0 to bound
      invariant labels == UpdateBelow(original, sel, upd, k)
      invariant updatedLabels == CollectBelow(original, sel, upd, k)
    {
      UpdateBelowStep(original, sel, upd, k);
      CollectBelowStep(original, sel, upd, k);
      if k !in labels { continue; }
      var selected, updated := Visit(users, spacePermissions, requester, filterSpace, filterName,
                                   filterColor, updateColor, updateDescription, k, labels[k]);
      if !selected { continue; }
      labels := labels[k := updated];
      updatedLabels := updatedLabels + [updated];
    }
    store.labels := labels;
  }

  /** A label changes only if it matches the filters and the requester may update it; it then
      gets the supplied fields and its created_at is overwritten with the fixed timestamp. */
  lemma UpdatedLabelsMatchAndAreAuthorized(db: Db, requester: Id, filterSpace: Option<Id>, filterName: Option<string>,
                                           filterColor: Option<string>, updateColor: Option<string>,
                                           updateDescription: Option<string>, k: Id)
    requires requester in db.users
    requires k in db.labels
    ensures var after := Spec(db, requester, filterSpace, filterName, filterColor, updateColor,
                              updateDescription).db.labels[k];
      var l := db.labels[k];
      var selected := Matches(l, filterSpace, filterName, filterColor)
                      && MayUpdate(db.users, db.spacePermissions, requester, l);
      && (selected ==> after == Apply(l, updateColor, updateDescription) && after.createdAt == Now)
      && (!selected ==> after == l)
  {
  }

  /** A label in a space the requester does not moderate, and that they did not create, is out
      of reach unless they are PlatformOwner. */
  lemma OthersLabelsNeedOwnerOrModerator(db: Db, requester: Id, filterSpace: Option<Id>, filterName: Option<string>,
                                         filterColor: Option<string>, updateColor: Option<string>,
                                         updateDescription: Option<string>, k: Id)
    requires requester in db.users && !IsOwner(db.users, requester)
    requires k in db.labels && db.labels[k].createdBy != requester
    requires !IsSpaceModerator(db.spacePermissions, db.labels[k].spaceId, requester)
    ensures Spec(db, requester, filterSpace, filterName, filterColor, updateColor, updateDescription).db.labels[k]
         == db.labels[k]
  {
  }

  /** The reply lists exactly the updated labels; no match gives []. */
  lemma ReplyListsUpdatedLabels(db: Db, requester: Id, filterSpace: Option<Id>, filterName: Option<string>,
                                filterColor: Option<string>, updateColor: Option<string>,
                                updateDescription: Option<string>, l: Label)
    requires requester in db.users
    ensures var o := Spec(db, requester, filterSpace, filterName, filterColor, updateColor, updateDescription);
      var sel := Selection(db.users, db.spacePermissions, requester, filterSpace, filterName, filterColor);
      && (l in o.reply.value <==> exists k :: k in db.labels && sel(k, db.labels[k]) && o.db.labels[k] == l)
      && |o.reply.value| == |Selected(db.labels, sel)|
      && (o.reply.value == [] <==> forall k :: k in db.labels ==> !sel(k, db.labels[k]))
  {
    var sel := Selection(db.users, db.spacePermissions, requester, filterSpace, filterName, filterColor);
    var upd := Change(updateColor, updateDescription);
    CollectWhereMembers(db.labels, sel, upd, l);
    CollectWhereLength(db.labels, sel, upd);
    CollectWhereEmpty(db.labels, sel, upd);
  }

  /** Only the labels table changes, and it keeps its keys. */
  lemma OnlyLabelsChange(db: Db, requester: Id, filterSpace: Option<Id>, filterName: Option<string>,
                         filterColor: Option<string>, updateColor: Option<string>, updateDescription: Option<string>)
    requires requester in db.users
    ensures var o := Spec(db, requester, filterSpace, filterName, filterColor, updateColor, updateDescription);
      o.db.labels.Keys == db.labels.Keys && o.db == db.(labels := o.db.labels)
  {
    var sel := Selection(db.users, db.spacePermissions, requester, filterSpace, filterName, filterColor);
    var labels := UpdateWhere(db.labels, sel, Change(updateColor, updateDescription));
    assert Spec(db, requester, filterSpace, filterName, filterColor, updateColor, updateDescription).db
        == db.(labels := labels);
  }
}
