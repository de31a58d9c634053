/** `CreateLabel.invoke`: create a label in a space, unless the space already has a label of
    that name up to letter case. */
module CreateLabel {
  import opened Base
  import opened Model
  import opened Tables
  import opened Authority

  const DefaultColor: string := "#007acc"

  /** The row is a label of `space` whose name equals `name` once both are lower-cased. */
  function NameClash(space: Id, name: string): (Id, Label) -> bool
  {
    (k: Id, l: Label) => Lower(l.name) == Lower(name) && l.spaceId == space
  }

  predicate NameTaken(labels: map<Id, Label>, space: Id, name: string)
  {
    Exists(labels, NameClash(space, name))
  }

  /** PlatformOwner, or a direct contribute or moderate grant on the space. */
  predicate MayCreate(db: Db, requester: Id, space: Id)
  {
    IsOwner(db.users, requester) || HasGrant(db.spacePermissions, space, requester, SpaceContributeOrModerate)
  }

  /** No space holds two labels whose names agree up to letter case. */
  predicate DistinctNamesPerSpace(labels: map<Id, Label>)
  {
    forall j, k :: j in labels && k in labels && j != k && labels[j].spaceId == labels[k].spaceId ==>
      Lower(labels[j].name) != Lower(labels[k].name)
  }

  /** The new row: the color falls back to the default when none (or "") is given. */
  function NewLabel(name: string, space: Id, color: Option<string>, description: Option<string>, requester: Id)
    : (l: Label)
    ensures l.name == name && l.spaceId == space && l.createdBy == requester && l.usageCount == 0
    ensures l.color == (if Given(color) then color.value else DefaultColor)
  {
    Label(name, if Given(color) then color.value else DefaultColor, description, space, requester, 0, Now)
  }

  ghost function Spec(db: Db, requester: Id, name: string, space: Id, color: Option<string>,
                      description: Option<string>): Outcome<Id>
  {
    if requester !in db.users then Fail(db, RequesterNotFound)
    else if space !in db.spaces then Fail(db, SpaceNotFound)
    else if NameTaken(db.labels, space, name) then Fail(db, LabelExists(name))
    else if !MayCreate(db, requester, space) then Fail(db, Unauthorized)
    else
      var id := GenerateId(db.labels);
      Outcome(Ok(id), db.(labels := db.labels[id := NewLabel(name, space, color, description, requester)]))
  }

  method Invoke(store: Store, requester: Id, name: string, space: Id, color: Option<string>,
                description: Option<string>) returns (r: Result<Id>)
    modifies store
    ensures Outcome(r, store.State()) == Spec(old(store.State()), requester, name, space, color, description)
  {
    if requester !in store.users { return Err(RequesterNotFound); }
    if space !in store.spaces { return Err(SpaceNotFound); }

    var taken := Scan(store.labels, NameClash(space, name));
    if taken { return Err(LabelExists(name)); }

    var hasPermission := IsOwner(store.users, requester);
    if !hasPermission {
      hasPermission := FindGrant(store.spacePermissions, space, requester, SpaceContributeOrModerate);
    }
    if !hasPermission { return Err(Unauthorized); }

    var id := GenerateId(store.labels);
    store.labels := store.labels[id := NewLabel(name, space, color, description, requester)];
    return Ok(id);
  }

  /** The call succeeds exactly when the requester and the space exist, the name is free in the
      space and the requester may create labels there. */
  lemma SucceedsExactlyWhen(db: Db, requester: Id, name: string, space: Id, color: Option<string>,
                            description: Option<string>)
    ensures Spec(db, requester, name, space, color, description).reply.Ok?
        <==> && requester in db.users && space in db.spaces && !NameTaken(db.labels, space, name)
             && MayCreate(db, requester, space)
  {
  }

  /** The duplicate test runs before the permission test: a requester without any grant on the
      space learns that a label of that name exists there. */
  lemma DuplicateCheckedBeforeAuthority(db: Db, requester: Id, name: string, space: Id, color: Option<string>,
                                        description: Option<string>, existing: Id)
    requires requester in db.users && space in db.spaces
    requires existing in db.labels && db.labels[existing].spaceId == space
    requires Lower(db.labels[existing].name) == Lower(name)
    ensures Spec(db, requester, name, space, color, description) == Fail(db, LabelExists(name))
  {
    assert NameClash(space, name)(existing, db.labels[existing]);
  }

  /** Success adds one unused label under a fresh key and changes nothing else. */
  lemma SuccessAddsOneLabel(db: Db, requester: Id, name: string, space: Id, color: Option<string>,
                            description: Option<string>)
    requires Spec(db, requester, name, space, color, description).reply.Ok?
    ensures var o := Spec(db, requester, name, space, color, description);
      var id := o.reply.value;
      && id !in db.labels
      && o.db.labels == db.labels[id := NewLabel(name, space, color, description, requester)]
      && |o.db.labels| == |db.labels| + 1
      && o.db == db.(labels := o.db.labels)
  {
  }

  /** Creating a label keeps label names distinct, up to letter case, within each space. */
  lemma KeepsNamesDistinct(db: Db, requester: Id, name: string, space: Id, color: Option<string>,
                           description: Option<string>)
    requires DistinctNamesPerSpace(db.labels)
    ensures DistinctNamesPerSpace(Spec(db, requester, name, space, color, description).db.labels)
  {
    var o := Spec(db, requester, name, space, color, description);
    if o.reply.Ok? {
      var id := GenerateId(db.labels);
      var after := db.labels[id := NewLabel(name, space, color, description, requester)];
      forall j, k | j in after && k in after && j != k && after[j].spaceId == after[k].spaceId
        ensures Lower(after[j].name) != Lower(after[k].name)
      {
        if j == id {
          assert !NameClash(space, name)(k, db.labels[k]);
        } else if k == id {
          assert !NameClash(space, name)(j, db.labels[j]);
        }
      }
    }
  }
}
