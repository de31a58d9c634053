/** `UpdateBrokenLinksStatus.invoke`: set is_broken, and stamp last_checked_at, on every page link
    that matches the filters and that the requester may edit. */
module UpdateBrokenLinksStatus {
  import opened Base
  import opened Model
  import opened Tables
  import opened Authority

  /** The source-page filter, and the space filter, which excludes a link only when its source
      page exists and lies in another space. */
  predicate Matches(pages: map<Id, Page>, l: Link, filterSourcePage: Option<Id>, filterSpace: Option<Id>)
  {
    && (filterSourcePage.Some? ==> l.sourcePageId == filterSourcePage.value)
    && (filterSpace.Some? && l.sourcePageId in pages ==> pages[l.sourcePageId].spaceId == filterSpace.value)
  }

  /** The links the pass rewrites: matches on which the requester is PlatformOwner or, the source
      page existing, holds `edit` or `admin` on it or `moderate` on its space. */
  function Selection(users: map<Id, User>, pages: map<Id, Page>, pagePermissions: map<Id, Grant>,
                     spacePermissions: map<Id, Grant>, requester: Id, filterSourcePage: Option<Id>,
                     filterSpace: Option<Id>): (Id, Link) -> bool
  {
    (k: Id, l: Link) =>
      && Matches(pages, l, filterSourcePage, filterSpace)
      && (|| IsOwner(users, requester)
          || ManagesExistingPage(pages, pagePermissions, spacePermissions, l.sourcePageId, requester, PageEditOrAdmin))
  }

  /** The new broken flag and a last check of now. */
  function Apply(l: Link, newIsBroken: bool): (m: Link)
    ensures m.isBroken == newIsBroken && m.lastCheckedAt == Some(Now)
    ensures m.(isBroken := l.isBroken, lastCheckedAt := l.lastCheckedAt) == l
  {
    l.(isBroken := newIsBroken, lastCheckedAt := Some(Now))
  }

  function Change(newIsBroken: bool): Link -> Link
  {
    (l: Link) => Apply(l, newIsBroken)
  }

  ghost function Spec(db: Db, requester: Id, newIsBroken: bool, filterSourcePage: Option<Id>,
                      filterSpace: Option<Id>): Outcome<seq<Link>>
  {
    if requester !in db.users then Fail(db, RequesterNotFound)
    else
      var sel := Selection(db.users, db.pages, db.pagePermissions, db.spacePermissions, requester,
                           filterSourcePage, filterSpace);
      var upd := Change(newIsBroken);
      Outcome(Ok(CollectWhere(db.pageLinks, sel, upd)), db.(pageLinks := UpdateWhere(db.pageLinks, sel, upd)))
  }

  /** One iteration of the loop body: the filters, then PlatformOwner, then the edit/admin page
      scan and the space moderator scan for an existing source page. */
  method Visit(users: map<Id, User>, pages: map<Id, Page>, pagePermissions: map<Id, Grant>,
               spacePermissions: map<Id, Grant>, requester: Id, newIsBroken: bool,
               filterSourcePage: Option<Id>, filterSpace: Option<Id>, k: Id, link: Link)
    returns (selected: bool, updated: Link)
    requires requester in users
    ensures selected == Selection(users, pages, pagePermissions, spacePermissions, requester,
                                  filterSourcePage, filterSpace)(k, link)
    ensures selected ==> updated == Change(newIsBroken)(link)
  {
    updated := link;
    var sourcePage := link.sourcePageId;
    if filterSourcePage.Some? && sourcePage != filterSourcePage.value { return false, updated; }
    if filterSpace.Some? && sourcePage in pages {
      if pages[sourcePage].spaceId != filterSpace.value { return false, updated; }
    }
    assert Matches(pages, link, filterSourcePage, filterSpace);

    if users[requester].role == PlatformOwner {
      selected := true;
    } else {
      selected := CheckManagesExistingPage(pages, pagePermissions, spacePermissions, sourcePage,
                                           requester, PageEditOrAdmin);
    }
    if !selected { return; }

    updated := link.(isBroken := newIsBroken, lastCheckedAt := Some(Now));
  }

  method Invoke(store: Store, requester: Id, newIsBroken: bool, filterSourcePage: Option<Id>,
                filterSpace: Option<Id>) returns (r: Result<seq<Link>>)
    modifies store
    ensures Outcome(r, store.State())
         == Spec(old(store.State()), requester, newIsBroken, filterSourcePage, filterSpace)
  {
    if requester !in store.users { return Err(RequesterNotFound); }
    var updatedLinks := UpdatePass(store, requester, newIsBroken, filterSourcePage, filterSpace);
    return Ok(updatedLinks);
  }

  /** The loop over `page_links.items()`: each selected link is rewritten and appended to the reply. */
  method UpdatePass(store: Store, requester: Id, newIsBroken: bool, filterSourcePage: Option<Id>,
                    filterSpace: Option<Id>) returns (updatedLinks: seq<Link>)
    requires requester in store.users
    modifies store`pageLinks
    ensures var sel := Selection(store.users, store.pages, store.pagePermissions, store.spacePermissions,
                                 requester, filterSourcePage, filterSpace);
      && store.pageLinks == UpdateWhere(old(store.pageLinks), sel, Change(newIsBroken))
      && updatedLinks == CollectWhere(old(store.pageLinks), sel, Change(newIsBroken))
  {
    ghost var sel := Selection(store.users, store.pages, store.pagePermissions, store.spacePermissions,
                               requester, filterSourcePage, filterSpace);
    ghost var upd := Change(newIsBroken);
    ghost var original := store.pageLinks;
    var links := store.pageLinks;
    updatedLinks := [];
    var users, pages := store.users, store.pages;
    var pagePermissions, spacePermissions := store.pagePermissions, store.spacePermissions;
    var bound := GenerateId(links);
    for k := 0 to bound
      invariant links == UpdateBelow(original, sel, upd, k)
      invariant updatedLinks == CollectBelow(original, sel, upd, k)
    {
      UpdateBelowStep(original, sel, upd, k);
      CollectBelowStep(original, sel, upd, k);
      if k !in links { continue; }
      var selected, link := Visit(users, pages, pagePermissions, spacePermissions,
                                  requester, newIsBroken, filterSourcePage, filterSpace, k, links[k]);
      if !selected { continue; }
      links := links[k := link];
      updatedLinks := updatedLinks + [link];
    }
    store.pageLinks := links;
  }

  /** The only error is an unknown requester. */
  lemma OnlyUnknownRequesterFails(db: Db, requester: Id, newIsBroken: bool, filterSourcePage: Option<Id>,
                                  filterSpace: Option<Id>)
    ensures Spec(db, requester, newIsBroken, filterSourcePage, filterSpace).reply.Err? <==> requester !in db.users
  {
  }

  /** A link whose source page no longer exists passes the space filter; it is still updated
      by a PlatformOwner. */
  lemma DanglingSourcePassesSpaceFilter(db: Db, requester: Id, newIsBroken: bool, filterSpace: Option<Id>, k: Id)
    requires k in db.pageLinks && db.pageLinks[k].sourcePageId !in db.pages
    requires IsOwner(db.users, requester)
    ensures Spec(db, requester, newIsBroken, None, filterSpace).db.pageLinks[k] == Apply(db.pageLinks[k], newIsBroken)
  {
  }

  /** A link changes only if it matches the filters and the requester is PlatformOwner or, the
      source page existing, holds `edit`/`admin` on it or `moderate` on its space; an updated link
      gets the new flag and a last check of now. */
  lemma UpdatedLinksMatchAndAreAuthorized(db: Db, requester: Id, newIsBroken: bool,
                                          filterSourcePage: Option<Id>, filterSpace: Option<Id>, k: Id)
    requires requester in db.users
    requires k in db.pageLinks
    ensures var after := Spec(db, requester, newIsBroken, filterSourcePage, filterSpace).db.pageLinks[k];
      var l := db.pageLinks[k];
      var selected := Matches(db.pages, l, filterSourcePage, filterSpace)
                      && (|| IsOwner(db.users, requester)
                          || (l.sourcePageId in db.pages
                              && (|| IsPageEditorOrAdmin(db.pagePermissions, l.sourcePageId, requester)
                                  || IsSpaceModerator(db.spacePermissions, db.pages[l.sourcePageId].spaceId, requester))));
      && (selected ==> after == Apply(l, newIsBroken))
      && (!selected ==> after == l)
  {
  }

  /** Only the links table changes, and it keeps its keys. */
  lemma OnlyLinksChange(db: Db, requester: Id, newIsBroken: bool, filterSourcePage: Option<Id>, filterSpace: Option<Id>)
    requires requester in db.users
    ensures var o := Spec(db, requester, newIsBroken, filterSourcePage, filterSpace);
      o.db.pageLinks.Keys == db.pageLinks.Keys && o.db == db.(pageLinks := o.db.pageLinks)
  {
    var sel := Selection(db.users, db.pages, db.pagePermissions, db.spacePermissions, requester,
                         filterSourcePage, filterSpace);
    var links := UpdateWhere(db.pageLinks, sel, Change(newIsBroken));
    assert Spec(db, requester, newIsBroken, filterSourcePage, filterSpace).db == db.(pageLinks := links);
  }

  /** The reply lists exactly the links that passed the filters and the authority test, each as
      stored after the update, one entry per such link. */
  lemma ReplyListsUpdatedLinks(db: Db, requester: Id, newIsBroken: bool, filterSourcePage: Option<Id>,
                               filterSpace: Option<Id>, l: Link)
    requires requester in db.users
    ensures var o := Spec(db, requester, newIsBroken, filterSourcePage, filterSpace);
      var sel := Selection(db.users, db.pages, db.pagePermissions, db.spacePermissions, requester,
                           filterSourcePage, filterSpace);
      && (l in o.reply.value <==> exists k :: k in db.pageLinks && sel(k, db.pageLinks[k]) && o.db.pageLinks[k] == l)
      && |o.reply.value| == |Selected(db.pageLinks, sel)|
  {
    var sel := Selection(db.users, db.pages, db.pagePermissions, db.spacePermissions, requester,
                         filterSourcePage, filterSpace);
    var upd := Change(newIsBroken);
    CollectWhereMembers(db.pageLinks, sel, upd, l);
    CollectWhereLength(db.pageLinks, sel, upd);
  }
}
