/** `DeleteComment.invoke`: delete a comment that has no replies. */
module DeleteComment {
  import opened Base
  import opened Model
  import opened Tables
  import opened Authority

  /** PlatformOwner, the comment's author, or, when its page still exists, an admin of the page
      or a moderator of the page's space. */
  predicate MayDelete(db: Db, requester: Id, c: Comment)
  {
    || IsOwner(db.users, requester)
    || c.createdBy == requester
    || ManagesExistingPage(db.pages, db.pagePermissions, db.spacePermissions, c.pageId, requester, PageAdmin)
  }

  /** The row is a reply to comment `parent`. */
  function RepliesTo(parent: Id): (Id, Comment) -> bool
  {
    (k: Id, c: Comment) => c.parentCommentId == Some(parent)
  }

  predicate HasReplies(comments: map<Id, Comment>, comment: Id)
  {
    Exists(comments, RepliesTo(comment))
  }

  ghost function Spec(db: Db, comment: Id, requester: Id): Outcome<()>
  {
    if comment !in db.comments then Fail(db, CommentNotFound)
    else if requester !in db.users then Fail(db, RequesterNotFound)
    else if !MayDelete(db, requester, db.comments[comment]) then Fail(db, Unauthorized)
    else if HasReplies(db.comments, comment) then Fail(db, Error.HasReplies)
    else Outcome(Ok(()), db.(comments := db.comments - {comment}))
  }

  method Invoke(store: Store, comment: Id, requester: Id) returns (r: Result<()>)
    modifies store
    ensures Outcome(r, store.State()) == Spec(old(store.State()), comment, requester)
  {
    if comment !in store.comments { return Err(CommentNotFound); }
    if requester !in store.users { return Err(RequesterNotFound); }
    var c := store.comments[comment];

    var hasAuthority := false;
    if store.users[requester].role == PlatformOwner {
      hasAuthority := true;
    } else if c.createdBy == requester {
      hasAuthority := true;
    } else {
      hasAuthority := CheckManagesExistingPage(store.pages, store.pagePermissions, store.spacePermissions,
                                               c.pageId, requester, PageAdmin);
    }
    if !hasAuthority { return Err(Unauthorized); }

    var replied := Scan(store.comments, RepliesTo(comment));
    if replied { return Err(Error.HasReplies); }

    store.comments := store.comments - {comment};
    return Ok(());
  }

  /** Every parent_comment_id names a comment that exists. */
  predicate ParentsExist(comments: map<Id, Comment>)
  {
    forall k :: k in comments && comments[k].parentCommentId.Some? ==> comments[k].parentCommentId.value in comments
  }

  /** The call succeeds exactly when both records exist, the requester may delete the comment
      and nobody has replied to it. */
  lemma SucceedsExactlyWhen(db: Db, comment: Id, requester: Id)
    ensures Spec(db, comment, requester).reply.Ok?
        <==> && comment in db.comments && requester in db.users
             && MayDelete(db, requester, db.comments[comment]) && !HasReplies(db.comments, comment)
  {
  }

  /** A rejected call deletes nothing. */
  lemma RejectedChangesNothing(db: Db, comment: Id, requester: Id)
    requires Spec(db, comment, requester).reply.Err?
    ensures Spec(db, comment, requester).db == db
  {
  }

  /** A comment with a reply is never deleted, whoever asks. */
  lemma RepliedCommentSurvives(db: Db, comment: Id, requester: Id, reply: Id)
    requires comment in db.comments
    requires reply in db.comments && db.comments[reply].parentCommentId == Some(comment)
    ensures comment in Spec(db, comment, requester).db.comments
  {
    assert RepliesTo(comment)(reply, db.comments[reply]);
  }

  /** Success removes exactly that comment and changes nothing else. */
  lemma SuccessRemovesOnlyThatComment(db: Db, comment: Id, requester: Id)
    requires Spec(db, comment, requester).reply.Ok?
    ensures var o := Spec(db, comment, requester);
      o.db.comments == db.comments - {comment} && o.db == db.(comments := o.db.comments)
  {
    assert Spec(db, comment, requester).db == db.(comments := db.comments - {comment});
  }

  /** Because only comments without replies are deleted, no comment is left pointing at a
      deleted parent. */
  lemma KeepsParentsExisting(db: Db, comment: Id, requester: Id)
    requires ParentsExist(db.comments)
    ensures ParentsExist(Spec(db, comment, requester).db.comments)
  {
    var o := Spec(db, comment, requester);
    if o.reply.Ok? {
      var after := db.comments - {comment};
      forall k | k in after && after[k].parentCommentId.Some?
        ensures after[k].parentCommentId.value in after
      {
        assert !RepliesTo(comment)(k, db.comments[k]);
      }
    }
  }
}
