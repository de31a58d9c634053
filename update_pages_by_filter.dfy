/** `UpdatePagesByFilter.invoke`: set status and/or content format on every page that
    matches the filters and that the requester may manage. */
module UpdatePagesByFilter {
  import opened Base
  import opened Model
  import opened Tables
  import opened Authority

  /** The space, status and template filters; an argument not given does not filter. */
  predicate Matches(p: Page, filterSpace: Option<Id>, filterStatus: Option<string>, filterTemplate: Option<Id>)
  {
    && (filterSpace.Some? ==> p.spaceId == filterSpace.value)
    && (Given(filterStatus) ==> p.status == filterStatus.value)
    && (filterTemplate.Some? ==> p.templateId == filterTemplate)
  }

  /** The pages the pass rewrites: those matching the filters on which the requester is PlatformOwner,
      a page `admin` or a `moderate` grantee of the page's space. */
  predicate Eligible(users: map<Id, User>, pagePermissions: map<Id, Grant>, spacePermissions: map<Id, Grant>,
                     requester: Id, filterSpace: Option<Id>, filterStatus: Option<string>,
                     filterTemplate: Option<Id>, k: Id, p: Page)
  {
    Matches(p, filterSpace, filterStatus, filterTemplate)
    && (IsOwner(users, requester) || ManagesPage(pagePermissions, spacePermissions, k, p.spaceId, requester, PageAdmin))
  }

  function Selection(users: map<Id, User>, pagePermissions: map<Id, Grant>, spacePermissions: map<Id, Grant>,
                     requester: Id, filterSpace: Option<Id>, filterStatus: Option<string>,
                     filterTemplate: Option<Id>): (Id, Page) -> bool
  {
    (k: Id, p: Page) =>
      Eligible(users, pagePermissions, spacePermissions, requester, filterSpace, filterStatus, filterTemplate, k, p)
  }

  /** The fields assigned on an updated page: status and format when supplied, updated_at always. */
  function Apply(p: Page, updateStatus: Option<string>, updateFormat: Option<string>): (q: Page)
    ensures q.status == (if Given(updateStatus) then updateStatus.value else p.status)
    ensures q.contentFormat == (if Given(updateFormat) then updateFormat.value else p.contentFormat)
    ensures q.updatedAt == Now
    ensures q.(status := p.status, contentFormat := p.contentFormat, updatedAt := p.updatedAt) == p
  {
    p.(status := if Given(updateStatus) then updateStatus.value else p.status,
       contentFormat := if Given(updateFormat) then updateFormat.value else p.contentFormat,
       updatedAt := Now)
  }

  function Change(updateStatus: Option<string>, updateFormat: Option<string>): Page -> Page
  {
    (p: Page) => Apply(p, updateStatus, updateFormat)
  }

  /** Applying the selection and the change to one page is the predicate and the field update. */
  lemma SelectionApplies(users: map<Id, User>, pagePermissions: map<Id, Grant>, spacePermissions: map<Id, Grant>,
                         requester: Id, filterSpace: Option<Id>, filterStatus: Option<string>,
                         filterTemplate: Option<Id>, k: Id, p: Page)
    ensures Selection(users, pagePermissions, spacePermissions, requester, filterSpace, filterStatus, filterTemplate)(k, p)
         == Eligible(users, pagePermissions, spacePermissions, requester, filterSpace, filterStatus, filterTemplate, k, p)
  {
  }

  lemma ChangeApplies(updateStatus: Option<string>, updateFormat: Option<string>, p: Page)
    ensures Change(updateStatus, updateFormat)(p) == Apply(p, updateStatus, updateFormat)
  {
  }

  ghost function Spec(db: Db, requester: Id, filterSpace: Option<Id>, filterStatus: Option<string>,
                      filterTemplate: Option<Id>, updateStatus: Option<string>,
                      updateFormat: Option<string>): Outcome<seq<Page>>
  {
    if requester !in db.users then Fail(db, RequesterNotFound)
    else if Given(filterStatus) && filterStatus.value !in PageStatuses then Fail(db, InvalidArgument(FilterStatus))
    else if Given(updateStatus) && updateStatus.value !in PageStatuses then Fail(db, InvalidArgument(UpdateStatus))
    else if Given(updateFormat) && updateFormat.value !in ContentFormats then Fail(db, InvalidArgument(UpdateContentFormat))
    else
      var sel := Selection(db.users, db.pagePermissions, db.spacePermissions, requester, filterSpace, filterStatus, filterTemplate);
      var upd := Change(updateStatus, updateFormat);
      Outcome(Ok(CollectWhere(db.pages, sel, upd)), db.(pages := UpdateWhere(db.pages, sel, upd)))
  }

  /** One iteration of the loop body: the three filters, then PlatformOwner, then the page-admin
      scan and the space-moderator scan; a selected page gets its new field values. */
  method Visit(users: map<Id, User>, pagePermissions: map<Id, Grant>, spacePermissions: map<Id, Grant>,
               requester: Id, filterSpace: Option<Id>, filterStatus: Option<string>, filterTemplate: Option<Id>,
               updateStatus: Option<string>, updateFormat: Option<string>, k: Id, page: Page)
    returns (selected: bool, updated: Page)
    requires requester in users
    ensures selected == Eligible(users, pagePermissions, spacePermissions, requester,
                                 filterSpace, filterStatus, filterTemplate, k, page)
    ensures selected ==> updated == Apply(page, updateStatus, updateFormat)
  {
    updated := page;
    if filterSpace.Some? && page.spaceId != filterSpace.value { return false, updated; }
    if Given(filterStatus) && page.status != filterStatus.value { return false, updated; }
    if filterTemplate.Some? && page.templateId != filterTemplate { return false, updated; }
    assert Matches(page, filterSpace, filterStatus, filterTemplate);
    selected := IsOwner(users, requester);
    if !selected {
      selected := CheckManagesPage(pagePermissions, spacePermissions, k, page.spaceId, requester, PageAdmin);
    }
    if !selected { return; }

    var status, format := page.status, page.contentFormat;
    if Given(updateStatus) { status := updateStatus.value; }
    if Given(updateFormat) { format := updateFormat.value; }
    updated := page.(status := status, contentFormat := format, updatedAt := Now);
  }

  method Invoke(store: Store, requester: Id, filterSpace: Option<Id>, filterStatus: Option<string>,
                filterTemplate: Option<Id>, updateStatus: Option<string>, updateFormat: Option<string>)
    returns (r: Result<seq<Page>>)
    modifies store
    ensures Outcome(r, store.State())
         == Spec(old(store.State()), requester, filterSpace, filterStatus, filterTemplate, updateStatus, updateFormat)
  {
    if requester !in store.users { return Err(RequesterNotFound); }
    if Given(filterStatus) && filterStatus.value !in PageStatuses { return Err(InvalidArgument(FilterStatus)); }
    if Given(updateStatus) && updateStatus.value !in PageStatuses { return Err(InvalidArgument(UpdateStatus)); }
    if Given(updateFormat) && updateFormat.value !in ContentFormats { return Err(InvalidArgument(UpdateContentFormat)); }

    ghost var before := store.State();
    ghost var sel := Selection(before.users, before.pagePermissions, before.spacePermissions, requester,
                               filterSpace, filterStatus, filterTemplate);
    ghost var upd := Change(updateStatus, updateFormat);
    assert Spec(before, requester, filterSpace, filterStatus, filterTemplate, updateStatus, updateFormat)
        == Outcome(Ok(CollectWhere(before.pages, sel, upd)), before.(pages := UpdateWhere(before.pages, sel, upd)));
    var updatedPages := UpdatePass(store, requester, filterSpace, filterStatus, filterTemplate,
                                   updateStatus, updateFormat);
    return Ok(updatedPages);
  }

  /** The loop over `pages.items()`: each selected page is rewritten in place and appended to the reply. */
  method UpdatePass(store: Store, requester: Id, filterSpace: Option<Id>, filterStatus: Option<string>,
                    filterTemplate: Option<Id>, updateStatus: Option<string>, updateFormat: Option<string>)
    returns (updatedPages: seq<Page>)
    requires requester in store.users
    modifies store`pages
    ensures var sel := Selection(store.users, store.pagePermissions, store.spacePermissions, requester,
                                 filterSpace, filterStatus, filterTemplate);
      && store.pages == UpdateWhere(old(store.pages), sel, Change(updateStatus, updateFormat))
      && updatedPages == CollectWhere(old(store.pages), sel, Change(updateStatus, updateFormat))
  {
    ghost var sel := Selection(store.users, store.pagePermissions, store.spacePermissions, requester,
                               filterSpace, filterStatus, filterTemplate);
    ghost var upd := Change(updateStatus, updateFormat);
    ghost var original := store.pages;
    var pages := store.pages;
    updatedPages := [];
    var users, pagePermissions, spacePermissions := store.users, store.pagePermissions, store.spacePermissions;
    var bound := GenerateId(pages);
    for k := 0 to bound
      invariant pages == UpdateBelow(original, sel, upd, k)
      invariant updatedPages == CollectBelow(original, sel, upd, k)
    {
      UpdateBelowStep(original, sel, upd, k);
      CollectBelowStep(original, sel, upd, k);
      if k !in pages { continue; }
      var selected, page := Visit(users, pagePermissions, spacePermissions, requester,
                                  filterSpace, filterStatus, filterTemplate, updateStatus, updateFormat,
                                  k, pages[k]);
      SelectionApplies(users, pagePermissions, spacePermissions, requester, filterSpace, filterStatus, filterTemplate,
                       k, pages[k]);
      ChangeApplies(updateStatus, updateFormat, pages[k]);
      if !selected { continue; }
      pages := pages[k := page];
      updatedPages := updatedPages + [page];
    }
    store.pages := pages;
  }

  /** An invalid status or content format is reported before any page is touched. */
  lemma InvalidEnumTouchesNothing(db: Db, requester: Id, filterSpace: Option<Id>, filterStatus: Option<string>,
                                  filterTemplate: Option<Id>, updateStatus: Option<string>, updateFormat: Option<string>)
    requires || (Given(filterStatus) && filterStatus.value !in PageStatuses)
             || (Given(updateStatus) && updateStatus.value !in PageStatuses)
             || (Given(updateFormat) && updateFormat.value !in ContentFormats)
    ensures Spec(db, requester, filterSpace, filterStatus, filterTemplate, updateStatus, updateFormat).reply.Err?
    ensures Spec(db, requester, filterSpace, filterStatus, filterTemplate, updateStatus, updateFormat).db == db
  {
  }

  /** A rejected call leaves the store as it was. */
  lemma RejectedChangesNothing(db: Db, requester: Id, filterSpace: Option<Id>, filterStatus: Option<string>,
                               filterTemplate: Option<Id>, updateStatus: Option<string>, updateFormat: Option<string>)
    requires Spec(db, requester, filterSpace, filterStatus, filterTemplate, updateStatus, updateFormat).reply.Err?
    ensures Spec(db, requester, filterSpace, filterStatus, filterTemplate, updateStatus, updateFormat).db == db
  {
  }

  /** Only the pages table changes, and it keeps its keys: no page is created or removed. */
  lemma OnlyPagesChange(db: Db, requester: Id, filterSpace: Option<Id>, filterStatus: Option<string>,
                        filterTemplate: Option<Id>, updateStatus: Option<string>, updateFormat: Option<string>)
    requires Spec(db, requester, filterSpace, filterStatus, filterTemplate, updateStatus, updateFormat).reply.Ok?
    ensures var o := Spec(db, requester, filterSpace, filterStatus, filterTemplate, updateStatus, updateFormat);
      o.db.pages.Keys == db.pages.Keys && o.db == db.(pages := o.db.pages)
  {
    var sel := Selection(db.users, db.pagePermissions, db.spacePermissions, requester,
                         filterSpace, filterStatus, filterTemplate);
    var pages := UpdateWhere(db.pages, sel, Change(updateStatus, updateFormat));
    assert Spec(db, requester, filterSpace, filterStatus, filterTemplate, updateStatus, updateFormat).db
        == db.(pages := pages);
  }

  /** A page changes only if it matches every filter and the requester is PlatformOwner, an admin of
      the page or a moderator of its space; such a page is rewritten by `Apply`. */
  lemma UpdatedPagesMatchAndAreAuthorized(db: Db, requester: Id, filterSpace: Option<Id>, filterStatus: Option<string>,
                                          filterTemplate: Option<Id>, updateStatus: Option<string>,
                                          updateFormat: Option<string>, k: Id)
    requires Spec(db, requester, filterSpace, filterStatus, filterTemplate, updateStatus, updateFormat).reply.Ok?
    requires k in db.pages
    ensures var after := Spec(db, requester, filterSpace, filterStatus, filterTemplate, updateStatus, updateFormat).db.pages[k];
      var selected := Matches(db.pages[k], filterSpace, filterStatus, filterTemplate)
                      && (IsOwner(db.users, requester)
                          || IsPageAdmin(db.pagePermissions, k, requester)
                          || IsSpaceModerator(db.spacePermissions, db.pages[k].spaceId, requester));
      && (selected ==> after == Apply(db.pages[k], updateStatus, updateFormat))
      && (!selected ==> after == db.pages[k])
  {
  }

  /** The reply lists exactly the updated pages, one entry per updated page; no match gives []. */
  lemma ReplyListsUpdatedPages(db: Db, requester: Id, filterSpace: Option<Id>, filterStatus: Option<string>,
                               filterTemplate: Option<Id>, updateStatus: Option<string>,
                               updateFormat: Option<string>, p: Page)
    requires requester in db.users
    ensures var o := Spec(db, requester, filterSpace, filterStatus, filterTemplate, updateStatus, updateFormat);
      var sel := Selection(db.users, db.pagePermissions, db.spacePermissions, requester, filterSpace, filterStatus, filterTemplate);
      o.reply.Ok? ==>
        && (p in o.reply.value <==> exists k :: k in db.pages && sel(k, db.pages[k]) && o.db.pages[k] == p)
        && |o.reply.value| == |Selected(db.pages, sel)|
        && (o.reply.value == [] <==> forall k :: k in db.pages ==> !sel(k, db.pages[k]))
  {
    var sel := Selection(db.users, db.pagePermissions, db.spacePermissions, requester, filterSpace, filterStatus, filterTemplate);
    var upd := Change(updateStatus, updateFormat);
    CollectWhereMembers(db.pages, sel, upd, p);
    CollectWhereLength(db.pages, sel, upd);
    CollectWhereEmpty(db.pages, sel, upd);
  }
}
