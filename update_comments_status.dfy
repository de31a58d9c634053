/** `UpdateCommentsStatus.invoke`: set the status of every comment that matches the filters
    and that the requester may moderate. */
module UpdateCommentsStatus {
  import opened Base
  import opened Model
  import opened Tables
  import opened Authority

  /** The page, creator and current-status filters; an argument not given does not filter. */
  predicate Matches(c: Comment, filterPage: Option<Id>, filterCreator: Option<Id>, filterStatus: Option<string>)
  {
    && (filterPage.Some? ==> c.pageId == filterPage.value)
    && (filterCreator.Some? ==> c.createdBy == filterCreator.value)
    && (Given(filterStatus) ==> c.status == filterStatus.value)
  }

  /** The comments the pass rewrites: those matching the filters on which the requester is
      PlatformOwner, the creator, or (the page existing) a page `admin` or space `moderate`. */
  function Selection(users: map<Id, User>, pages: map<Id, Page>, pagePermissions: map<Id, Grant>,
                     spacePermissions: map<Id, Grant>, requester: Id, filterPage: Option<Id>,
                     filterCreator: Option<Id>, filterStatus: Option<string>): (Id, Comment) -> bool
  {
    (k: Id, c: Comment) =>
      && Matches(c, filterPage, filterCreator, filterStatus)
      && (|| IsOwner(users, requester)
          || c.createdBy == requester
          || ManagesExistingPage(pages, pagePermissions, spacePermissions, c.pageId, requester, PageAdmin))
  }

  /** The fields assigned on an updated comment. */
  function Apply(c: Comment, newStatus: string): (d: Comment)
    ensures d.status == newStatus && d.updatedAt == Now
    ensures d.(status := c.status, updatedAt := c.updatedAt) == c
  {
    c.(status := newStatus, updatedAt := Now)
  }

  function Change(newStatus: string): Comment -> Comment
  {
    (c: Comment) => Apply(c, newStatus)
  }

  ghost function Spec(db: Db, requester: Id, newStatus: string, filterPage: Option<Id>,
                      filterCreator: Option<Id>, filterStatus: Option<string>): Outcome<seq<Comment>>
  {
    if requester !in db.users then Fail(db, RequesterNotFound)
    else if Given(filterStatus) && filterStatus.value !in CommentStatuses then Fail(db, InvalidArgument(FilterCurrentStatus))
    else if newStatus !in CommentStatuses then Fail(db, InvalidArgument(NewStatus))
    else
      var sel := Selection(db.users, db.pages, db.pagePermissions, db.spacePermissions, requester,
                           filterPage, filterCreator, filterStatus);
      var upd := Change(newStatus);
      Outcome(Ok(CollectWhere(db.comments, sel, upd)), db.(comments := UpdateWhere(db.comments, sel, upd)))
  }

  /** One iteration of the loop body: the filters, then the authority tests in the order
      PlatformOwner, creator, page admin scan, space moderator scan. */
  method Visit(users: map<Id, User>, pages: map<Id, Page>, pagePermissions: map<Id, Grant>,
               spacePermissions: map<Id, Grant>, requester: Id, newStatus: string, filterPage: Option<Id>,
               filterCreator: Option<Id>, filterStatus: Option<string>, k: Id, comment: Comment)
    returns (selected: bool, updated: Comment)
    requires requester in users
    ensures selected == Selection(users, pages, pagePermissions, spacePermissions, requester,
                                  filterPage, filterCreator, filterStatus)(k, comment)
    ensures selected ==> updated == Change(newStatus)(comment)
  {
    updated := comment;
    if filterPage.Some? && comment.pageId != filterPage.value { return false, updated; }
    if filterCreator.Some? && comment.createdBy != filterCreator.value { return false, updated; }
    if Given(filterStatus) && comment.status != filterStatus.value { return false, updated; }
    assert Matches(comment, filterPage, filterCreator, filterStatus);

    if users[requester].role == PlatformOwner {
      selected := true;
    } else if comment.createdBy == requester {
      selected := true;
    } else {
      selected := CheckManagesExistingPage(pages, pagePermissions, spacePermissions, comment.pageId,
                                           requester, PageAdmin);
    }
    if !selected { return; }

    updated := comment.(status := newStatus, updatedAt := Now);
  }

  method Invoke(store: Store, requester: Id, newStatus: string, filterPage: Option<Id>,
                filterCreator: Option<Id>, filterStatus: Option<string>) returns (r: Result<seq<Comment>>)
    modifies store
    ensures Outcome(r, store.State())
         == Spec(old(store.State()), requester, newStatus, filterPage, filterCreator, filterStatus)
  {
    if requester !in store.users { return Err(RequesterNotFound); }
    if Given(filterStatus) && filterStatus.value !in CommentStatuses { return Err(InvalidArgument(FilterCurrentStatus)); }
    if newStatus !in CommentStatuses { return Err(InvalidArgument(NewStatus)); }

    var updatedComments := UpdatePass(store, requester, newStatus, filterPage, filterCreator, filterStatus);
    return Ok(updatedComments);
  }

  /** The loop over `comments.items()`: each selected comment is rewritten and appended to the reply. */
  method UpdatePass(store: Store, requester: Id, newStatus: string, filterPage: Option<Id>,
                    filterCreator: Option<Id>, filterStatus: Option<string>) returns (updatedComments: seq<Comment>)
    requires requester in store.users
    modifies store`comments
    ensures var sel := Selection(store.users, store.pages, store.pagePermissions, store.spacePermissions,
                                 requester, filterPage, filterCreator, filterStatus);
      && store.comments == UpdateWhere(old(store.comments), sel, Change(newStatus))
      && updatedComments == CollectWhere(old(store.comments), sel, Change(newStatus))
  {
    ghost var sel := Selection(store.users, store.pages, store.pagePermissions, store.spacePermissions,
                               requester, filterPage, filterCreator, filterStatus);
    ghost var upd := Change(newStatus);
    ghost var original := store.comments;
    var comments := store.comments;
    updatedComments := [];
    var users, pages := store.users, store.pages;
    var pagePermissions, spacePermissions := store.pagePermissions, store.spacePermissions;
    var bound := GenerateId(comments);
    for k := 0 to bound
      invariant comments == UpdateBelow(original, sel, upd, k)
      invariant updatedComments == CollectBelow(original, sel, upd, k)
    {
      UpdateBelowStep(original, sel, upd, k);
      CollectBelowStep(original, sel, upd, k);
      if k !in comments { continue; }
      var selected, comment := Visit(users, pages, pagePermissions, spacePermissions,
                                     requester, newStatus, filterPage, filterCreator, filterStatus,
                                     k, comments[k]);
      if !selected { continue; }
      comments := comments[k := comment];
      updatedComments := updatedComments + [comment];
    }
    store.comments := comments;
  }

  /** An invalid new or current status is reported before any comment is touched. */
  lemma InvalidStatusTouchesNothing(db: Db, requester: Id, newStatus: string, filterPage: Option<Id>,
                                    filterCreator: Option<Id>, filterStatus: Option<string>)
    requires newStatus !in CommentStatuses || (Given(filterStatus) && filterStatus.value !in CommentStatuses)
    ensures Spec(db, requester, newStatus, filterPage, filterCreator, filterStatus).reply.Err?
    ensures Spec(db, requester, newStatus, filterPage, filterCreator, filterStatus).db == db
  {
  }

  /** A rejected call leaves the store as it was. */
  lemma RejectedChangesNothing(db: Db, requester: Id, newStatus: string, filterPage: Option<Id>,
                               filterCreator: Option<Id>, filterStatus: Option<string>)
    requires Spec(db, requester, newStatus, filterPage, filterCreator, filterStatus).reply.Err?
    ensures Spec(db, requester, newStatus, filterPage, filterCreator, filterStatus).db == db
  {
  }

  /** Only the comments table changes, and it keeps its keys. */
  lemma OnlyCommentsChange(db: Db, requester: Id, newStatus: string, filterPage: Option<Id>,
                           filterCreator: Option<Id>, filterStatus: Option<string>)
    requires Spec(db, requester, newStatus, filterPage, filterCreator, filterStatus).reply.Ok?
    ensures var o := Spec(db, requester, newStatus, filterPage, filterCreator, filterStatus);
      o.db.comments.Keys == db.comments.Keys && o.db == db.(comments := o.db.comments)
  {
    var sel := Selection(db.users, db.pages, db.pagePermissions, db.spacePermissions, requester,
                         filterPage, filterCreator, filterStatus);
    var comments := UpdateWhere(db.comments, sel, Change(newStatus));
    assert Spec(db, requester, newStatus, filterPage, filterCreator, filterStatus).db == db.(comments := comments);
  }

  /** A comment changes only if it matches every filter and the requester is PlatformOwner, its
      creator, or (its page existing) an admin of the page or a moderator of the page's space;
      such a comment gets the new status and the fixed updated_at. */
  lemma UpdatedCommentsMatchAndAreAuthorized(db: Db, requester: Id, newStatus: string, filterPage: Option<Id>,
                                             filterCreator: Option<Id>, filterStatus: Option<string>, k: Id)
    requires Spec(db, requester, newStatus, filterPage, filterCreator, filterStatus).reply.Ok?
    requires k in db.comments
    ensures var after := Spec(db, requester, newStatus, filterPage, filterCreator, filterStatus).db.comments[k];
      var c := db.comments[k];
      var selected := Matches(c, filterPage, filterCreator, filterStatus)
                      && (|| IsOwner(db.users, requester)
                          || c.createdBy == requester
                          || (c.pageId in db.pages
                              && (|| IsPageAdmin(db.pagePermissions, c.pageId, requester)
                                  || IsSpaceModerator(db.spacePermissions, db.pages[c.pageId].spaceId, requester))));
      && (selected ==> after == Apply(c, newStatus))
      && (!selected ==> after == c)
  {
  }

  /** The reply lists exactly the updated comments, one entry per updated comment; no match gives []. */
  lemma ReplyListsUpdatedComments(db: Db, requester: Id, newStatus: string, filterPage: Option<Id>,
                                  filterCreator: Option<Id>, filterStatus: Option<string>, c: Comment)
    requires Spec(db, requester, newStatus, filterPage, filterCreator, filterStatus).reply.Ok?
    ensures var o := Spec(db, requester, newStatus, filterPage, filterCreator, filterStatus);
      var sel := Selection(db.users, db.pages, db.pagePermissions, db.spacePermissions, requester,
                           filterPage, filterCreator, filterStatus);
      && (c in o.reply.value <==> exists k :: k in db.comments && sel(k, db.comments[k]) && o.db.comments[k] == c)
      && |o.reply.value| == |Selected(db.comments, sel)|
      && (o.reply.value == [] <==> forall k :: k in db.comments ==> !sel(k, db.comments[k]))
  {
    var sel := Selection(db.users, db.pages, db.pagePermissions, db.spacePermissions, requester,
                         filterPage, filterCreator, filterStatus);
    var upd := Change(newStatus);
    CollectWhereMembers(db.comments, sel, upd, c);
    CollectWhereLength(db.comments, sel, upd);
    CollectWhereEmpty(db.comments, sel, upd);
  }
}
