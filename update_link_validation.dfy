/** `UpdateLinkValidation.invoke`: stamp last_checked_at on every page link that matches the
    filters and that the requester may edit. */
module UpdateLinkValidation {
  import opened Base
  import opened Model
  import opened Tables
  import opened Authority

  /** The link-type filter, and the date filter: with a bound given, a link passes only when
      it has been checked and its last check sorts strictly before the bound. */
  predicate Matches(l: Link, filterLinkType: Option<string>, filterCheckedBefore: Option<string>)
  {
    && (Given(filterLinkType) ==> l.linkType == filterLinkType.value)
    && (Given(filterCheckedBefore) ==>
          Given(l.lastCheckedAt) && Before(l.lastCheckedAt.value, filterCheckedBefore.value))
  }

  /** The links the pass selects: matches on which the requester is PlatformOwner or, the source
      page existing, holds `edit` or `admin` on it or `moderate` on its space. */
  function Selection(users: map<Id, User>, pages: map<Id, Page>, pagePermissions: map<Id, Grant>,
                     spacePermissions: map<Id, Grant>, requester: Id, filterLinkType: Option<string>,
                     filterCheckedBefore: Option<string>): (Id, Link) -> bool
  {
    (k: Id, l: Link) =>
      && Matches(l, filterLinkType, filterCheckedBefore)
      && (|| IsOwner(users, requester)
          || ManagesExistingPage(pages, pagePermissions, spacePermissions, l.sourcePageId, requester, PageEditOrAdmin))
  }

  /** With `mark_as_checked` the last check becomes now; otherwise the link is left as it is. */
  function Apply(l: Link, markAsChecked: bool): (m: Link)
    ensures m.lastCheckedAt == (if markAsChecked then Some(Now) else l.lastCheckedAt)
    ensures m.(lastCheckedAt := l.lastCheckedAt) == l
  {
    if markAsChecked then l.(lastCheckedAt := Some(Now)) else l
  }

  function Change(markAsChecked: bool): Link -> Link
  {
    (l: Link) => Apply(l, markAsChecked)
  }

  ghost function Spec(db: Db, requester: Id, markAsChecked: bool, filterLinkType: Option<string>,
                      filterCheckedBefore: Option<string>): Outcome<seq<Link>>
  {
    if requester !in db.users then Fail(db, RequesterNotFound)
    else if Given(filterLinkType) && filterLinkType.value !in LinkTypes then Fail(db, InvalidArgument(FilterLinkType))
    else
      var sel := Selection(db.users, db.pages, db.pagePermissions, db.spacePermissions, requester,
                           filterLinkType, filterCheckedBefore);
      var upd := Change(markAsChecked);
      Outcome(Ok(CollectWhere(db.pageLinks, sel, upd)), db.(pageLinks := UpdateWhere(db.pageLinks, sel, upd)))
  }

  /** One iteration of the loop body: the filters, then PlatformOwner, then the edit/admin page
      scan and the space moderator scan for an existing source page. */
  method Visit(users: map<Id, User>, pages: map<Id, Page>, pagePermissions: map<Id, Grant>,
               spacePermissions: map<Id, Grant>, requester: Id, markAsChecked: bool,
               filterLinkType: Option<string>, filterCheckedBefore: Option<string>, k: Id, link: Link)
    returns (selected: bool, updated: Link)
    requires requester in users
    ensures selected == Selection(users, pages, pagePermissions, spacePermissions, requester,
                                  filterLinkType, filterCheckedBefore)(k, link)
    ensures selected ==> updated == Change(markAsChecked)(link)
  {
    updated := link;
    if Given(filterLinkType) && link.linkType != filterLinkType.value { return false, updated; }
    if Given(filterCheckedBefore) {
      var lastChecked := link.lastCheckedAt;
      if !Given(lastChecked) || !Before(lastChecked.value, filterCheckedBefore.value) { return false, updated; }
    }
    assert Matches(link, filterLinkType, filterCheckedBefore);

    if users[requester].role == PlatformOwner {
      selected := true;
    } else {
      selected := CheckManagesExistingPage(pages, pagePermissions, spacePermissions, link.sourcePageId,
                                           requester, PageEditOrAdmin);
    }
    if !selected { return; }

    if markAsChecked { updated := updated.(lastCheckedAt := Some(Now)); }
  }

  method Invoke(store: Store, requester: Id, markAsChecked: bool, filterLinkType: Option<string>,
                filterCheckedBefore: Option<string>) returns (r: Result<seq<Link>>)
    modifies store
    ensures Outcome(r, store.State())
         == Spec(old(store.State()), requester, markAsChecked, filterLinkType, filterCheckedBefore)
  {
    if requester !in store.users { return Err(RequesterNotFound); }
    if Given(filterLinkType) && filterLinkType.value !in LinkTypes { return Err(InvalidArgument(FilterLinkType)); }
    var updatedLinks := UpdatePass(store, requester, markAsChecked, filterLinkType, filterCheckedBefore);
    return Ok(updatedLinks);
  }

  /** The loop over `page_links.items()`: each selected link is rewritten and appended to the reply. */
  method UpdatePass(store: Store, requester: Id, markAsChecked: bool, filterLinkType: Option<string>,
                    filterCheckedBefore: Option<string>) returns (updatedLinks: seq<Link>)
    requires requester in store.users
    modifies store`pageLinks
    ensures var sel := Selection(store.users, store.pages, store.pagePermissions, store.spacePermissions,
                                 requester, filterLinkType, filterCheckedBefore);
      && store.pageLinks == UpdateWhere(old(store.pageLinks), sel, Change(markAsChecked))
      && updatedLinks == CollectWhere(old(store.pageLinks), sel, Change(markAsChecked))
  {
    ghost var sel := Selection(store.users, store.pages, store.pagePermissions, store.spacePermissions,
                               requester, filterLinkType, filterCheckedBefore);
    ghost var upd := Change(markAsChecked);
    ghost var original := store.pageLinks;
    var links := store.pageLinks;
    updatedLinks := [];
    var users, pages := store.users, store.pages;
    var pagePermissions, spacePermissions := store.pagePermissions, store.spacePermissions;
    var bound := GenerateId(links);
    for k := 0 to bound
      invariant links == UpdateBelow(original, sel, upd, k)
      invariant updatedLinks == CollectBelow(original, sel, upd, k)
    {
      UpdateBelowStep(original, sel, upd, k);
      CollectBelowStep(original, sel, upd, k);
      if k !in links { continue; }
      var selected, link := Visit(users, pages, pagePermissions, spacePermissions,
                                  requester, markAsChecked, filterLinkType, filterCheckedBefore, k, links[k]);
      if !selected { continue; }
      links := links[k := link];
      updatedLinks := updatedLinks + [link];
    }
    store.pageLinks := links;
  }

  /** A given link type other than internal/external is rejected with nothing changed. */
  lemma RejectsUnknownLinkType(db: Db, requester: Id, markAsChecked: bool, filterLinkType: Option<string>,
                               filterCheckedBefore: Option<string>)
    requires Given(filterLinkType) && filterLinkType.value !in LinkTypes
    ensures Spec(db, requester, markAsChecked, filterLinkType, filterCheckedBefore).reply.Err?
    ensures Spec(db, requester, markAsChecked, filterLinkType, filterCheckedBefore).db == db
  {
  }

  /** With a date bound, a link never checked, or last checked at or after the bound, is left alone. */
  lemma DateFilterSkips(db: Db, requester: Id, markAsChecked: bool, filterLinkType: Option<string>,
                        filterCheckedBefore: Option<string>, k: Id)
    requires Spec(db, requester, markAsChecked, filterLinkType, filterCheckedBefore).reply.Ok?
    requires k in db.pageLinks
    requires Given(filterCheckedBefore)
    requires !Given(db.pageLinks[k].lastCheckedAt)
          || !Before(db.pageLinks[k].lastCheckedAt.value, filterCheckedBefore.value)
    ensures Spec(db, requester, markAsChecked, filterLinkType, filterCheckedBefore).db.pageLinks[k] == db.pageLinks[k]
  {
  }

  /** A link changes only if it matches the filters and the requester is PlatformOwner or, its
      source page existing, holds `edit`/`admin` on that page or `moderate` on its space; only
      last_checked_at can change, and only with `mark_as_checked`. */
  lemma UpdatedLinksMatchAndAreAuthorized(db: Db, requester: Id, markAsChecked: bool,
                                          filterLinkType: Option<string>, filterCheckedBefore: Option<string>, k: Id)
    requires Spec(db, requester, markAsChecked, filterLinkType, filterCheckedBefore).reply.Ok?
    requires k in db.pageLinks
    ensures var after := Spec(db, requester, markAsChecked, filterLinkType, filterCheckedBefore).db.pageLinks[k];
      var l := db.pageLinks[k];
      var selected := Matches(l, filterLinkType, filterCheckedBefore)
                      && (|| IsOwner(db.users, requester)
                          || (l.sourcePageId in db.pages
                              && (|| IsPageEditorOrAdmin(db.pagePermissions, l.sourcePageId, requester)
                                  || IsSpaceModerator(db.spacePermissions, db.pages[l.sourcePageId].spaceId, requester))));
      && (selected ==> after == Apply(l, markAsChecked))
      && (!selected ==> after == l)
      && after.(lastCheckedAt := l.lastCheckedAt) == l
  {
  }

  /** Only the links table changes, and it keeps its keys. */
  lemma OnlyLinksChange(db: Db, requester: Id, markAsChecked: bool, filterLinkType: Option<string>,
                        filterCheckedBefore: Option<string>)
    requires Spec(db, requester, markAsChecked, filterLinkType, filterCheckedBefore).reply.Ok?
    ensures var o := Spec(db, requester, markAsChecked, filterLinkType, filterCheckedBefore);
      o.db.pageLinks.Keys == db.pageLinks.Keys && o.db == db.(pageLinks := o.db.pageLinks)
  {
    var sel := Selection(db.users, db.pages, db.pagePermissions, db.spacePermissions, requester,
                         filterLinkType, filterCheckedBefore);
    var links := UpdateWhere(db.pageLinks, sel, Change(markAsChecked));
    assert Spec(db, requester, markAsChecked, filterLinkType, filterCheckedBefore).db == db.(pageLinks := links);
  }

  /** The reply lists exactly the links that passed the filters and the authority test, each as
      stored after the update, one entry per such link. */
  lemma ReplyListsUpdatedLinks(db: Db, requester: Id, markAsChecked: bool, filterLinkType: Option<string>,
                               filterCheckedBefore: Option<string>, l: Link)
    requires requester in db.users
    requires !Given(filterLinkType) || filterLinkType.value in LinkTypes
    ensures var o := Spec(db, requester, markAsChecked, filterLinkType, filterCheckedBefore);
      var sel := Selection(db.users, db.pages, db.pagePermissions, db.spacePermissions, requester,
                           filterLinkType, filterCheckedBefore);
      && (l in o.reply.value <==> exists k :: k in db.pageLinks && sel(k, db.pageLinks[k]) && o.db.pageLinks[k] == l)
      && |o.reply.value| == |Selected(db.pageLinks, sel)|
  {
    var sel := Selection(db.users, db.pages, db.pagePermissions, db.spacePermissions, requester,
                         filterLinkType, filterCheckedBefore);
    var upd := Change(markAsChecked);
    CollectWhereMembers(db.pageLinks, sel, upd, l);
    CollectWhereLength(db.pageLinks, sel, upd);
  }
}
