/** `UpdateAttachmentsMetadata.invoke`: rename every attachment that matches the filters and
    that the requester may manage. */
module UpdateAttachmentsMetadata {
  import opened Base
  import opened Model
  import opened Tables
  import opened Authority

  /** The page, uploader and MIME-type filters; an argument not given does not filter. */
  predicate Matches(a: Attachment, filterPage: Option<Id>, filterUploader: Option<Id>, filterMime: Option<string>)
  {
    && (filterPage.Some? ==> a.pageId == filterPage.value)
    && (filterUploader.Some? ==> a.uploadedBy == filterUploader.value)
    && (Given(filterMime) ==> a.mimeType == filterMime.value)
  }

  /** The attachments the pass selects: those matching the filters on which the requester is
      PlatformOwner, the uploader, or (the page existing) a page `admin` or space `moderate`. */
  function Selection(users: map<Id, User>, pages: map<Id, Page>, pagePermissions: map<Id, Grant>,
                     spacePermissions: map<Id, Grant>, requester: Id, filterPage: Option<Id>,
                     filterUploader: Option<Id>, filterMime: Option<string>): (Id, Attachment) -> bool
  {
    (k: Id, a: Attachment) =>
      && Matches(a, filterPage, filterUploader, filterMime)
      && (|| IsOwner(users, requester)
          || a.uploadedBy == requester
          || ManagesExistingPage(pages, pagePermissions, spacePermissions, a.pageId, requester, PageAdmin))
  }

  /** The filename is replaced when a new one is given; nothing else changes. */
  function Apply(a: Attachment, updateFilename: Option<string>): (b: Attachment)
    ensures b.filename == (if Given(updateFilename) then updateFilename.value else a.filename)
    ensures b.(filename := a.filename) == a
  {
    if Given(updateFilename) then a.(filename := updateFilename.value) else a
  }

  function Change(updateFilename: Option<string>): Attachment -> Attachment
  {
    (a: Attachment) => Apply(a, updateFilename)
  }

  ghost function Spec(db: Db, requester: Id, filterPage: Option<Id>, filterUploader: Option<Id>,
                      filterMime: Option<string>, updateFilename: Option<string>): Outcome<seq<Attachment>>
  {
    if requester !in db.users then Fail(db, RequesterNotFound)
    else
      var sel := Selection(db.users, db.pages, db.pagePermissions, db.spacePermissions, requester,
                           filterPage, filterUploader, filterMime);
      var upd := Change(updateFilename);
      Outcome(Ok(CollectWhere(db.attachments, sel, upd)), db.(attachments := UpdateWhere(db.attachments, sel, upd)))
  }

  /** One iteration of the loop body: the filters, then PlatformOwner, the uploader, and the page
      admin and space moderator scans for an existing page. */
  method Visit(users: map<Id, User>, pages: map<Id, Page>, pagePermissions: map<Id, Grant>,
               spacePermissions: map<Id, Grant>, requester: Id, filterPage: Option<Id>,
               filterUploader: Option<Id>, filterMime: Option<string>, updateFilename: Option<string>,
               k: Id, attachment: Attachment)
    returns (selected: bool, updated: Attachment)
    requires requester in users
    ensures selected == Selection(users, pages, pagePermissions, spacePermissions, requester,
                                  filterPage, filterUploader, filterMime)(k, attachment)
    ensures selected ==> updated == Change(updateFilename)(attachment)
  {
    updated := attachment;
    if filterPage.Some? && attachment.pageId != filterPage.value { return false, updated; }
    if filterUploader.Some? && attachment.uploadedBy != filterUploader.value { return false, updated; }
    if Given(filterMime) && attachment.mimeType != filterMime.value { return false, updated; }
    assert Matches(attachment, filterPage, filterUploader, filterMime);

    if IsOwner(users, requester) {
      selected := true;
    } else if attachment.uploadedBy == requester {
      selected := true;
    } else {
      selected := CheckManagesExistingPage(pages, pagePermissions, spacePermissions, attachment.pageId,
                                           requester, PageAdmin);
    }
    if !selected { return; }

    var filename := attachment.filename;
    if Given(updateFilename) { filename := updateFilename.value; }
    updated := attachment.(filename := filename);
  }

  method Invoke(store: Store, requester: Id, filterPage: Option<Id>, filterUploader: Option<Id>,
                filterMime: Option<string>, updateFilename: Option<string>) returns (r: Result<seq<Attachment>>)
    modifies store
    ensures Outcome(r, store.State())
         == Spec(old(store.State()), requester, filterPage, filterUploader, filterMime, updateFilename)
  {
    if requester !in store.users { return Err(RequesterNotFound); }
    var updatedAttachments := UpdatePass(store, requester, filterPage, filterUploader, filterMime, updateFilename);
    return Ok(updatedAttachments);
  }

  /** The loop over `attachments.items()`: each selected attachment is rewritten and appended to the reply. */
  method UpdatePass(store: Store, requester: Id, filterPage: Option<Id>, filterUploader: Option<Id>,
                    filterMime: Option<string>, updateFilename: Option<string>)
    returns (updatedAttachments: seq<Attachment>)
    requires requester in store.users
    modifies store`attachments
    ensures var sel := Selection(store.users, store.pages, store.pagePermissions, store.spacePermissions,
                                 requester, filterPage, filterUploader, filterMime);
      && store.attachments == UpdateWhere(old(store.attachments), sel, Change(updateFilename))
      && updatedAttachments == CollectWhere(old(store.attachments), sel, Change(updateFilename))
  {
    ghost var sel := Selection(store.users, store.pages, store.pagePermissions, store.spacePermissions,
                               requester, filterPage, filterUploader, filterMime);
    ghost var upd := Change(updateFilename);
    ghost var original := store.attachments;
    var attachments := store.attachments;
    updatedAttachments := [];
    var users, pages := store.users, store.pages;
    var pagePermissions, spacePermissions := store.pagePermissions, store.spacePermissions;
    var bound := GenerateId(attachments);
    for k := 0 to bound
      invariant attachments == UpdateBelow(original, sel, upd, k)
      invariant updatedAttachments == CollectBelow(original, sel, upd, k)
    {
      UpdateBelowStep(original, sel, upd, k);
      CollectBelowStep(original, sel, upd, k);
      if k !in attachments { continue; }
      var selected, attachment := Visit(users, pages, pagePermissions, spacePermissions,
                                        requester, filterPage, filterUploader, filterMime, updateFilename,
                                        k, attachments[k]);
      if !selected { continue; }
      attachments := attachments[k := attachment];
      updatedAttachments := updatedAttachments + [attachment];
    }
    store.attachments := attachments;
  }

  /** The only error is an unknown requester; there is no enumeration to validate. */
  lemma OnlyUnknownRequesterFails(db: Db, requester: Id, filterPage: Option<Id>, filterUploader: Option<Id>,
                                  filterMime: Option<string>, updateFilename: Option<string>)
    ensures Spec(db, requester, filterPage, filterUploader, filterMime, updateFilename).reply.Err?
        <==> requester !in db.users
  {
  }

  /** Only the attachments table changes, and it keeps its keys. */
  lemma OnlyAttachmentsChange(db: Db, requester: Id, filterPage: Option<Id>, filterUploader: Option<Id>,
                              filterMime: Option<string>, updateFilename: Option<string>)
    requires requester in db.users
    ensures var o := Spec(db, requester, filterPage, filterUploader, filterMime, updateFilename);
      o.db.attachments.Keys == db.attachments.Keys && o.db == db.(attachments := o.db.attachments)
  {
    var sel := Selection(db.users, db.pages, db.pagePermissions, db.spacePermissions, requester,
                         filterPage, filterUploader, filterMime);
    var attachments := UpdateWhere(db.attachments, sel, Change(updateFilename));
    assert Spec(db, requester, filterPage, filterUploader, filterMime, updateFilename).db
        == db.(attachments := attachments);
  }

  /** An attachment changes only if it matches every filter and the requester is PlatformOwner,
      its uploader, or (its page existing) a page admin or space moderator; the filename is the
      only field that can change, and only when a new one is given. */
  lemma UpdatedAttachmentsMatchAndAreAuthorized(db: Db, requester: Id, filterPage: Option<Id>,
                                                filterUploader: Option<Id>, filterMime: Option<string>,
                                                updateFilename: Option<string>, k: Id)
    requires requester in db.users
    requires k in db.attachments
    ensures var after := Spec(db, requester, filterPage, filterUploader, filterMime, updateFilename).db.attachments[k];
      var a := db.attachments[k];
      var selected := Matches(a, filterPage, filterUploader, filterMime)
                      && (|| IsOwner(db.users, requester)
                          || a.uploadedBy == requester
                          || (a.pageId in db.pages
                              && (|| IsPageAdmin(db.pagePermissions, a.pageId, requester)
                                  || IsSpaceModerator(db.spacePermissions, db.pages[a.pageId].spaceId, requester))));
      && (selected ==> after == Apply(a, updateFilename))
      && (!selected ==> after == a)
      && (!Given(updateFilename) ==> after == a)
  {
  }

  /** Every authorized match is listed, even when no filename is given and nothing changes. */
  lemma ReplyListsAuthorizedMatches(db: Db, requester: Id, filterPage: Option<Id>, filterUploader: Option<Id>,
                                    filterMime: Option<string>, updateFilename: Option<string>, a: Attachment)
    requires requester in db.users
    ensures var o := Spec(db, requester, filterPage, filterUploader, filterMime, updateFilename);
      var sel := Selection(db.users, db.pages, db.pagePermissions, db.spacePermissions, requester,
                           filterPage, filterUploader, filterMime);
      && (a in o.reply.value <==> exists k :: k in db.attachments && sel(k, db.attachments[k]) && o.db.attachments[k] == a)
      && |o.reply.value| == |Selected(db.attachments, sel)|
  {
    var sel := Selection(db.users, db.pages, db.pagePermissions, db.spacePermissions, requester,
                         filterPage, filterUploader, filterMime);
    var upd := Change(updateFilename);
    CollectWhereMembers(db.attachments, sel, upd, a);
    CollectWhereLength(db.attachments, sel, upd);
  }
}
