/** `DeleteSpace.invoke`: a PlatformOwner deletes a space with its grants and labels. Pages are
    never removed: without `force_delete` the space must have no page other than deleted ones,
    with it every page of the space is marked deleted. */
module DeleteSpace {
  import opened Base
  import opened Model
  import opened Tables

  const DeletedStatus: string := "deleted"

  /** A page of the space that is not marked deleted. */
  function ActiveIn(space: Id): (Id, Page) -> bool
  {
    (k: Id, p: Page) => p.spaceId == space && p.status != DeletedStatus
  }

  function InSpace(space: Id): (Id, Page) -> bool
  {
    (k: Id, p: Page) => p.spaceId == space
  }

  /** Marking sets the status and updated_at and nothing else. */
  function MarkDeleted(p: Page): (q: Page)
    ensures q.status == DeletedStatus && q.updatedAt == Now
    ensures q.(status := p.status, updatedAt := p.updatedAt) == p
  {
    p.(status := DeletedStatus, updatedAt := Now)
  }

  function MarkAll(): Page -> Page
  {
    (p: Page) => MarkDeleted(p)
  }

  /** A space grant on the space. */
  function OnSpace(space: Id): (Id, Grant) -> bool
  {
    (k: Id, g: Grant) => g.target == space
  }

  /** A page grant on an existing page of the space. */
  function OnPageOf(pages: map<Id, Page>, space: Id): (Id, Grant) -> bool
  {
    (k: Id, g: Grant) => g.target in pages && pages[g.target].spaceId == space
  }

  function LabelIn(space: Id): (Id, Label) -> bool
  {
    (k: Id, l: Label) => l.spaceId == space
  }

  /** The pages after the optional marking step. */
  function PagesAfter(pages: map<Id, Page>, space: Id, force: bool): map<Id, Page>
  {
    if force then UpdateWhere(pages, InSpace(space), MarkAll()) else pages
  }

  /** The store after a successful call. */
  function AfterDelete(db: Db, space: Id, force: bool): Db
  {
    var pages := PagesAfter(db.pages, space, force);
    db.(pages := pages,
        spacePermissions := RemoveWhere(db.spacePermissions, OnSpace(space)),
        pagePermissions := RemoveWhere(db.pagePermissions, OnPageOf(pages, space)),
        labels := RemoveWhere(db.labels, LabelIn(space)),
        spaces := db.spaces - {space})
  }

  ghost function Spec(db: Db, space: Id, requester: Id, force: bool): Outcome<()>
  {
    if space !in db.spaces then Fail(db, SpaceNotFound)
    else if requester !in db.users then Fail(db, RequesterNotFound)
    else if !IsOwner(db.users, requester) then Fail(db, Unauthorized)
    else if !force && |Selected(db.pages, ActiveIn(space))| > 0 then
      Fail(db, HasActivePages(|Selected(db.pages, ActiveIn(space))|))
    else Outcome(Ok(()), AfterDelete(db, space, force))
  }

  method Invoke(store: Store, space: Id, requester: Id, force: bool) returns (r: Result<()>)
    modifies store
    ensures Outcome(r, store.State()) == Spec(old(store.State()), space, requester, force)
  {
    if space !in store.spaces { return Err(SpaceNotFound); }
    if requester !in store.users { return Err(RequesterNotFound); }
    if !IsOwner(store.users, requester) { return Err(Unauthorized); }
    if !force {
      var activePages := Count(store.pages, ActiveIn(space));
      if activePages > 0 { return Err(HasActivePages(activePages)); }
    }
    Cascade(store, space, force);
    return Ok(());
  }

  /** The deletions, in source order: mark the pages (with force), then drop the space grants,
      the page grants on pages of the space, the labels and the space itself. */
  method Cascade(store: Store, space: Id, force: bool)
    modifies store`pages, store`spacePermissions, store`pagePermissions, store`labels, store`spaces
    ensures store.pages == PagesAfter(old(store.pages), space, force)
    ensures store.spacePermissions == RemoveWhere(old(store.spacePermissions), OnSpace(space))
    ensures store.pagePermissions == RemoveWhere(old(store.pagePermissions), OnPageOf(store.pages, space))
    ensures store.labels == RemoveWhere(old(store.labels), LabelIn(space))
    ensures store.spaces == old(store.spaces) - {space}
  {
    if force {
      MarkPagesDeleted(store, space);
    }
    var spacePermissions := DeleteWhere(store.spacePermissions, OnSpace(space));
    store.spacePermissions := spacePermissions;
    var pagePermissions := DeleteWhere(store.pagePermissions, OnPageOf(store.pages, space));
    store.pagePermissions := pagePermissions;
    var labels := DeleteWhere(store.labels, LabelIn(space));
    store.labels := labels;
    store.spaces := store.spaces - {space};
  }

  /** `pages_to_delete` collected in key order, then each marked deleted. */
  method MarkPagesDeleted(store: Store, space: Id)
    modifies store`pages
    ensures store.pages == UpdateWhere(old(store.pages), InSpace(space), MarkAll())
  {
    ghost var sel := InSpace(space);
    ghost var upd := MarkAll();
    ghost var original := store.pages;
    var pages := store.pages;
    var bound := GenerateId(pages);
    for k := 0 to bound
      invariant pages == UpdateBelow(original, sel, upd, k)
    {
      UpdateBelowStep(original, sel, upd, k);
      if k in pages && pages[k].spaceId == space {
        pages := pages[k := pages[k].(status := DeletedStatus, updatedAt := Now)];
      }
    }
    store.pages := pages;
  }

  /** The call succeeds exactly when the space and the requester exist, the requester is
      PlatformOwner and, without force, every page of the space is already marked deleted. */
  lemma SucceedsExactlyWhen(db: Db, space: Id, requester: Id, force: bool)
    ensures Spec(db, space, requester, force).reply.Ok?
        <==> && space in db.spaces && requester in db.users && IsOwner(db.users, requester)
             && (force || forall k :: k in db.pages && db.pages[k].spaceId == space ==>
                                        db.pages[k].status == DeletedStatus)
  {
    if space in db.spaces && requester in db.users && IsOwner(db.users, requester) && !force {
      if exists k :: k in db.pages && db.pages[k].spaceId == space && db.pages[k].status != DeletedStatus {
        var k :| k in db.pages && db.pages[k].spaceId == space && db.pages[k].status != DeletedStatus;
        assert k in Selected(db.pages, ActiveIn(space));
      } else {
        assert Selected(db.pages, ActiveIn(space)) == {};
      }
    }
  }

  /** A rejected call deletes nothing. */
  lemma RejectedChangesNothing(db: Db, space: Id, requester: Id, force: bool)
    requires Spec(db, space, requester, force).reply.Err?
    ensures Spec(db, space, requester, force).db == db
  {
  }

  /** A successful call leaves the store as AfterDelete describes it. */
  lemma SuccessIsAfterDelete(db: Db, space: Id, requester: Id, force: bool)
    requires Spec(db, space, requester, force).reply.Ok?
    ensures Spec(db, space, requester, force).db == AfterDelete(db, space, force)
  {
  }

  /** The deletion removes the space, every grant on it, every grant on one of its pages and
      every label in it; grants and labels elsewhere are kept unchanged. */
  lemma DeletionCascades(db: Db, space: Id, force: bool)
    ensures var o := AfterDelete(db, space, force);
      && o.spaces == db.spaces - {space}
      && (forall k :: k in o.spacePermissions <==> k in db.spacePermissions && db.spacePermissions[k].target != space)
      && (forall k :: k in o.pagePermissions <==>
            k in db.pagePermissions && !(db.pagePermissions[k].target in db.pages
                                         && db.pages[db.pagePermissions[k].target].spaceId == space))
      && (forall k :: k in o.labels <==> k in db.labels && db.labels[k].spaceId != space)
      && (forall k :: k in o.spacePermissions ==> o.spacePermissions[k] == db.spacePermissions[k])
      && (forall k :: k in o.pagePermissions ==> o.pagePermissions[k] == db.pagePermissions[k])
      && (forall k :: k in o.labels ==> o.labels[k] == db.labels[k])
  {
    var pages := PagesAfter(db.pages, space, force);
    assert pages.Keys == db.pages.Keys;
    assert forall p :: p in pages ==> pages[p].spaceId == db.pages[p].spaceId;
  }

  /** Pages are never removed. With force every page of the space is marked deleted; without it
      the pages are left as they were. Other pages are untouched. */
  lemma PagesAreKept(db: Db, space: Id, requester: Id, force: bool, k: Id)
    requires Spec(db, space, requester, force).reply.Ok?
    requires k in db.pages
    ensures var after := Spec(db, space, requester, force).db.pages;
      && after.Keys == db.pages.Keys
      && (force && db.pages[k].spaceId == space ==> after[k] == MarkDeleted(db.pages[k]))
      && (!force || db.pages[k].spaceId != space ==> after[k] == db.pages[k])
      && (db.pages[k].spaceId == space ==> after[k].status == DeletedStatus)
  {
    assert Spec(db, space, requester, force).db == AfterDelete(db, space, force);
    if !force && db.pages[k].spaceId == space {
      assert Selected(db.pages, ActiveIn(space)) == {};
      assert k !in Selected(db.pages, ActiveIn(space));
    }
  }

  /** Users, groups, memberships, comments and the other tables are untouched. */
  lemma OtherTablesUntouched(db: Db, space: Id, requester: Id, force: bool)
    requires Spec(db, space, requester, force).reply.Ok?
    ensures var o := Spec(db, space, requester, force).db;
      && o.users == db.users && o.groups == db.groups && o.userGroups == db.userGroups
      && o.comments == db.comments && o.watchers == db.watchers && o.notifications == db.notifications
      && o.pageTemplates == db.pageTemplates && o.pageLinks == db.pageLinks && o.attachments == db.attachments
  {
    assert Spec(db, space, requester, force).db == AfterDelete(db, space, force);
  }
}
