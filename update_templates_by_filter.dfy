/** `UpdateTemplatesByFilter.invoke`: change category and/or description on every page template
    that matches the filters and that the requester may manage. */
module UpdateTemplatesByFilter {
  import opened Base
  import opened Model
  import opened Tables
  import opened Authority

  /** The space, global-flag and category filters. The global flag filters whenever it is
      supplied, so `false` selects the non-global templates. */
  predicate Matches(t: Template, filterSpace: Option<Id>, filterIsGlobal: Option<bool>, filterCategory: Option<string>)
  {
    && (filterSpace.Some? ==> t.spaceId == filterSpace)
    && (filterIsGlobal.Some? ==> t.isGlobal == filterIsGlobal.value)
    && (Given(filterCategory) ==> t.category == filterCategory.value)
  }

  /** PlatformOwner, the creator, or, for a non-global template that belongs to a space, a
      moderator of that space. */
  predicate MayUpdate(users: map<Id, User>, spacePermissions: map<Id, Grant>, requester: Id, t: Template)
  {
    || IsOwner(users, requester)
    || t.createdBy == requester
    || (!t.isGlobal && t.spaceId.Some? && IsSpaceModerator(spacePermissions, t.spaceId.value, requester))
  }

  function Selection(users: map<Id, User>, spacePermissions: map<Id, Grant>, requester: Id,
                     filterSpace: Option<Id>, filterIsGlobal: Option<bool>,
                     filterCategory: Option<string>): (Id, Template) -> bool
  {
    (k: Id, t: Template) =>
      Matches(t, filterSpace, filterIsGlobal, filterCategory) && MayUpdate(users, spacePermissions, requester, t)
  }

  /** Category and description are replaced when supplied (an empty string included);
      updated_at is always set. */
  function Apply(t: Template, updateCategory: Option<string>, updateDescription: Option<string>): (u: Template)
    ensures u.category == (if updateCategory.Some? then updateCategory.value else t.category)
    ensures u.description == (if updateDescription.Some? then updateDescription.value else t.description)
    ensures u.updatedAt == Now
    ensures u.(category := t.category, description := t.description, updatedAt := t.updatedAt) == t
  {
    t.(category := if updateCategory.Some? then updateCategory.value else t.category,
       description := if updateDescription.Some? then updateDescription.value else t.description,
       updatedAt := Now)
  }

  function Change(updateCategory: Option<string>, updateDescription: Option<string>): Template -> Template
  {
    (t: Template) => Apply(t, updateCategory, updateDescription)
  }

  ghost function Spec(db: Db, requester: Id, filterSpace: Option<Id>, filterIsGlobal: Option<bool>,
                      filterCategory: Option<string>, updateCategory: Option<string>,
                      updateDescription: Option<string>): Outcome<seq<Template>>
  {
    if requester !in db.users then Fail(db, RequesterNotFound)
    else
      var sel := Selection(db.users, db.spacePermissions, requester, filterSpace, filterIsGlobal, filterCategory);
      var upd := Change(updateCategory, updateDescription);
      Outcome(Ok(CollectWhere(db.pageTemplates, sel, upd)),
              db.(pageTemplates := UpdateWhere(db.pageTemplates, sel, upd)))
  }

  /** One iteration of the loop body: the filters, then PlatformOwner, the creator, and the
      space moderator scan for a non-global space template. */
  method Visit(users: map<Id, User>, spacePermissions: map<Id, Grant>, requester: Id,
               filterSpace: Option<Id>, filterIsGlobal: Option<bool>, filterCategory: Option<string>,
               updateCategory: Option<string>, updateDescription: Option<string>, k: Id, template: Template)
    returns (selected: bool, updated: Template)
    requires requester in users
    ensures selected == Selection(users, spacePermissions, requester, filterSpace, filterIsGlobal,
                                  filterCategory)(k, template)
    ensures selected ==> updated == Change(updateCategory, updateDescription)(template)
  {
    updated := template;
    if filterSpace.Some? && template.spaceId != filterSpace { return false, updated; }
    if filterIsGlobal.Some? && template.isGlobal != filterIsGlobal.value { return false, updated; }
    if Given(filterCategory) && template.category != filterCategory.value { return false, updated; }
    assert Matches(template, filterSpace, filterIsGlobal, filterCategory);

    if users[requester].role == PlatformOwner {
      selected := true;
    } else if template.createdBy == requester {
      selected := true;
    } else if !template.isGlobal && template.spaceId.Some? {
      selected := FindGrant(spacePermissions, template.spaceId.value, requester, SpaceModerate);
    } else {
      selected := false;
    }
    if !selected { return; }

    var category, description := template.category, template.description;
    if updateCategory.Some? { category := updateCategory.value; }
    if updateDescription.Some? { description := updateDescription.value; }
    updated := template.(category := category, description := description, updatedAt := Now);
  }

  method Invoke(store: Store, requester: Id, filterSpace: Option<Id>, filterIsGlobal: Option<bool>,
                filterCategory: Option<string>, updateCategory: Option<string>, updateDescription: Option<string>)
    returns (r: Result<seq<Template>>)
    modifies store
    ensures Outcome(r, store.State())
         == Spec(old(store.State()), requester, filterSpace, filterIsGlobal, filterCategory,
                 updateCategory, updateDescription)
  {
    if requester !in store.users { return Err(RequesterNotFound); }
    var updatedTemplates := UpdatePass(store, requester, filterSpace, filterIsGlobal, filterCategory,
                                       updateCategory, updateDescription);
    return Ok(updatedTemplates);
  }

  /** The loop over `page_templates.items()`: each selected template is rewritten and appended to the reply. */
  method UpdatePass(store: Store, requester: Id, filterSpace: Option<Id>, filterIsGlobal: Option<bool>,
                    filterCategory: Option<string>, updateCategory: Option<string>, updateDescription: Option<string>)
    returns (updatedTemplates: seq<Template>)
    requires requester in store.users
    modifies store`pageTemplates
    ensures var sel := Selection(store.users, store.spacePermissions, requester, filterSpace, filterIsGlobal,
                                 filterCategory);
      && store.pageTemplates == UpdateWhere(old(store.pageTemplates), sel, Change(updateCategory, updateDescription))
      && updatedTemplates == CollectWhere(old(store.pageTemplates), sel, Change(updateCategory, updateDescription))
  {
    ghost var sel := Selection(store.users, store.spacePermissions, requester, filterSpace, filterIsGlobal,
                               filterCategory);
    ghost var upd := Change(updateCategory, updateDescription);
    ghost var original := store.pageTemplates;
    var templates := store.pageTemplates;
    updatedTemplates := [];
    var users, spacePermissions := store.users, store.spacePermissions;
    var bound := GenerateId(templates);
    for k := 0 to bound
      invariant templates == UpdateBelow(original, sel, upd, k)
      invariant updatedTemplates == CollectBelow(original, sel, upd, k)
    {
      UpdateBelowStep(original, sel, upd, k);
      CollectBelowStep(original, sel, upd, k);
      if k !in templates { continue; }
      var selected, template := Visit(users, spacePermissions, requester, filterSpace, filterIsGlobal,
                                      filterCategory, updateCategory, updateDescription, k, templates[k]);
      if !selected { continue; }
      templates := templates[k := template];
      updatedTemplates := updatedTemplates + [template];
    }
    store.pageTemplates := templates;
  }

  /** `filter_is_global = false` is a real filter: a global template is never touched by it. */
  lemma FalseGlobalFilterSkipsGlobal(db: Db, requester: Id, filterSpace: Option<Id>, filterCategory: Option<string>,
                                     updateCategory: Option<string>, updateDescription: Option<string>, k: Id)
    requires requester in db.users
    requires k in db.pageTemplates && db.pageTemplates[k].isGlobal
    ensures Spec(db, requester, filterSpace, Some(false), filterCategory, updateCategory, updateDescription)
              .db.pageTemplates[k] == db.pageTemplates[k]
  {
  }

  /** A moderator of a space cannot touch a global template they did not create. */
  lemma GlobalTemplatesNeedOwnerOrCreator(db: Db, requester: Id, filterSpace: Option<Id>,
                                          filterIsGlobal: Option<bool>, filterCategory: Option<string>,
                                          updateCategory: Option<string>, updateDescription: Option<string>, k: Id)
    requires requester in db.users
    requires k in db.pageTemplates && db.pageTemplates[k].isGlobal
    requires !IsOwner(db.users, requester) && db.pageTemplates[k].createdBy != requester
    ensures Spec(db, requester, filterSpace, filterIsGlobal, filterCategory, updateCategory, updateDescription)
              .db.pageTemplates[k] == db.pageTemplates[k]
  {
  }

  /** A template changes only if it matches the filters and the requester may update it; it then
      gets the supplied fields and the fixed updated_at. */
  lemma UpdatedTemplatesMatchAndAreAuthorized(db: Db, requester: Id, filterSpace: Option<Id>,
                                              filterIsGlobal: Option<bool>, filterCategory: Option<string>,
                                              updateCategory: Option<string>, updateDescription: Option<string>, k: Id)
    requires requester in db.users
    requires k in db.pageTemplates
    ensures var after := Spec(db, requester, filterSpace, filterIsGlobal, filterCategory, updateCategory,
                              updateDescription).db.pageTemplates[k];
      var t := db.pageTemplates[k];
      var selected := Matches(t, filterSpace, filterIsGlobal, filterCategory)
                      && MayUpdate(db.users, db.spacePermissions, requester, t);
      && (selected ==> after == Apply(t, updateCategory, updateDescription))
      && (!selected ==> after == t)
  {
  }

  /** The reply lists exactly the updated templates; no match gives []. */
  lemma ReplyListsUpdatedTemplates(db: Db, requester: Id, filterSpace: Option<Id>, filterIsGlobal: Option<bool>,
                                   filterCategory: Option<string>, updateCategory: Option<string>,
                                   updateDescription: Option<string>, t: Template)
    requires requester in db.users
    ensures var o := Spec(db, requester, filterSpace, filterIsGlobal, filterCategory, updateCategory, updateDescription);
      var sel := Selection(db.users, db.spacePermissions, requester, filterSpace, filterIsGlobal, filterCategory);
      && (t in o.reply.value <==> exists k :: k in db.pageTemplates && sel(k, db.pageTemplates[k]) && o.db.pageTemplates[k] == t)
      && |o.reply.value| == |Selected(db.pageTemplates, sel)|
      && (o.reply.value == [] <==> forall k :: k in db.pageTemplates ==> !sel(k, db.pageTemplates[k]))
  {
    var sel := Selection(db.users, db.spacePermissions, requester, filterSpace, filterIsGlobal, filterCategory);
    var upd := Change(updateCategory, updateDescription);
    CollectWhereMembers(db.pageTemplates, sel, upd, t);
    CollectWhereLength(db.pageTemplates, sel, upd);
    CollectWhereEmpty(db.pageTemplates, sel, upd);
  }

  /** Only the templates table changes, and it keeps its keys. */
  lemma OnlyTemplatesChange(db: Db, requester: Id, filterSpace: Option<Id>, filterIsGlobal: Option<bool>,
                            filterCategory: Option<string>, updateCategory: Option<string>,
                            updateDescription: Option<string>)
    requires requester in db.users
    ensures var o := Spec(db, requester, filterSpace, filterIsGlobal, filterCategory, updateCategory, updateDescription);
      o.db.pageTemplates.Keys == db.pageTemplates.Keys && o.db == db.(pageTemplates := o.db.pageTemplates)
  {
    var sel := Selection(db.users, db.spacePermissions, requester, filterSpace, filterIsGlobal, filterCategory);
    var templates := UpdateWhere(db.pageTemplates, sel, Change(updateCategory, updateDescription));
    assert Spec(db, requester, filterSpace, filterIsGlobal, filterCategory, updateCategory, updateDescription).db
        == db.(pageTemplates := templates);
  }
}
