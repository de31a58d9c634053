/** `CreateUserGroup.invoke`: a PlatformOwner creates a group whose name is not yet taken,
    compared without regard to letter case. */
module CreateUserGroup {
  import opened Base
  import opened Model
  import opened Tables

  /** The row's name equals `name` once both are lower-cased. */
  function NameClash(name: string): (Id, Group) -> bool
  {
    (k: Id, g: Group) => Lower(g.name) == Lower(name)
  }

  predicate NameTaken(groups: map<Id, Group>, name: string)
  {
    Exists(groups, NameClash(name))
  }

  /** No two groups share a name up to letter case. */
  predicate DistinctNames(groups: map<Id, Group>)
  {
    forall j, k :: j in groups && k in groups && j != k ==> Lower(groups[j].name) != Lower(groups[k].name)
  }

  function NewGroup(name: string, description: Option<string>, groupType: string, requester: Id): (g: Group)
    ensures g.name == name && g.groupType == groupType && g.createdBy == requester && g.memberCount == 0
  {
    Group(name, description, groupType, requester, 0, Now)
  }

  /** `group_type` defaults to "custom" in the source; here the caller passes it. */
  ghost function Spec(db: Db, requester: Id, name: string, description: Option<string>, groupType: string)
    : Outcome<Id>
  {
    if requester !in db.users then Fail(db, RequesterNotFound)
    else if !IsOwner(db.users, requester) then Fail(db, Unauthorized)
    else if groupType !in GroupTypes then Fail(db, InvalidArgument(GroupType))
    else if NameTaken(db.groups, name) then Fail(db, GroupExists(name))
    else
      var id := GenerateId(db.groups);
      Outcome(Ok(id), db.(groups := db.groups[id := NewGroup(name, description, groupType, requester)]))
  }

  method Invoke(store: Store, requester: Id, name: string, description: Option<string>, groupType: string)
    returns (r: Result<Id>)
    modifies store
    ensures Outcome(r, store.State()) == Spec(old(store.State()), requester, name, description, groupType)
  {
    if requester !in store.users { return Err(RequesterNotFound); }
    if !IsOwner(store.users, requester) { return Err(Unauthorized); }
    if groupType !in GroupTypes { return Err(InvalidArgument(GroupType)); }

    var taken := Scan(store.groups, NameClash(name));
    if taken { return Err(GroupExists(name)); }

    var id := GenerateId(store.groups);
    store.groups := store.groups[id := NewGroup(name, description, groupType, requester)];
    return Ok(id);
  }

  /** The call succeeds exactly when the requester is PlatformOwner, the type is valid and no
      group has the same name up to letter case. */
  lemma SucceedsExactlyWhen(db: Db, requester: Id, name: string, description: Option<string>, groupType: string)
    ensures Spec(db, requester, name, description, groupType).reply.Ok?
        <==> && requester in db.users && IsOwner(db.users, requester) && groupType in GroupTypes
             && !NameTaken(db.groups, name)
  {
  }

  /** A name that differs from an existing one only in letter case is refused. */
  lemma CaseVariantRefused(db: Db, requester: Id, name: string, description: Option<string>, groupType: string,
                           existing: Id)
    requires existing in db.groups && Lower(db.groups[existing].name) == Lower(name)
    ensures Spec(db, requester, name, description, groupType).reply.Err?
    ensures Spec(db, requester, name, description, groupType).db == db
  {
    assert NameClash(name)(existing, db.groups[existing]);
  }

  /** Success adds one group under a fresh key, with no members, and changes nothing else. */
  lemma SuccessAddsOneGroup(db: Db, requester: Id, name: string, description: Option<string>, groupType: string)
    requires Spec(db, requester, name, description, groupType).reply.Ok?
    ensures var o := Spec(db, requester, name, description, groupType);
      var id := o.reply.value;
      && id !in db.groups
      && o.db.groups == db.groups[id := NewGroup(name, description, groupType, requester)]
      && |o.db.groups| == |db.groups| + 1
      && o.db == db.(groups := o.db.groups)
  {
  }

  /** Creating a group keeps group names distinct up to letter case. */
  lemma KeepsNamesDistinct(db: Db, requester: Id, name: string, description: Option<string>, groupType: string)
    requires DistinctNames(db.groups)
    ensures DistinctNames(Spec(db, requester, name, description, groupType).db.groups)
  {
    var o := Spec(db, requester, name, description, groupType);
    if o.reply.Ok? {
      var id := GenerateId(db.groups);
      var after := db.groups[id := NewGroup(name, description, groupType, requester)];
      forall j, k | j in after && k in after && j != k
        ensures Lower(after[j].name) != Lower(after[k].name)
      {
        if j == id {
          assert !NameClash(name)(k, db.groups[k]);
        } else if k == id {
          assert !NameClash(name)(j, db.groups[j]);
        }
      }
    }
  }

  /** Creating the same group twice is refused the second time. */
  lemma RepeatIsRefused(db: Db, requester: Id, name: string, description: Option<string>, groupType: string)
    requires Spec(db, requester, name, description, groupType).reply.Ok?
    ensures var once := Spec(db, requester, name, description, groupType).db;
      Spec(once, requester, name, description, groupType) == Fail(once, GroupExists(name))
  {
    var id := GenerateId(db.groups);
    var once := Spec(db, requester, name, description, groupType).db;
    assert NameClash(name)(id, once.groups[id]);
  }
}
