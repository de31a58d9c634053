/** Rows of `user_groups`: who belongs to which group, and the invariant the membership tools keep. */
module Memberships {
  import opened Base
  import opened Model
  import opened Tables

  /** The row records `user` in `group`. */
  function Links(user: Id, group: Id): (Id, Membership) -> bool
  {
    (k: Id, m: Membership) => m.userId == user && m.groupId == group
  }

  /** Some row records `user` in `group`. */
  predicate IsMember(userGroups: map<Id, Membership>, user: Id, group: Id)
  {
    Exists(userGroups, Links(user, group))
  }

  /** No user is recorded twice in the same group. */
  predicate NoDuplicateMemberships(userGroups: map<Id, Membership>)
  {
    forall j, k :: j in userGroups && k in userGroups && j != k ==>
      !(userGroups[j].userId == userGroups[k].userId && userGroups[j].groupId == userGroups[k].groupId)
  }

  /** Inserting a membership that is not yet recorded, under a fresh key, keeps the invariant. */
  lemma InsertKeepsNoDuplicates(userGroups: map<Id, Membership>, id: Id, m: Membership)
    requires NoDuplicateMemberships(userGroups)
    requires id !in userGroups && !IsMember(userGroups, m.userId, m.groupId)
    ensures NoDuplicateMemberships(userGroups[id := m])
  {
    var after := userGroups[id := m];
    forall j, k | j in after && k in after && j != k
      ensures !(after[j].userId == after[k].userId && after[j].groupId == after[k].groupId)
    {
      if j == id {
        assert !Links(m.userId, m.groupId)(k, userGroups[k]);
      } else if k == id {
        assert !Links(m.userId, m.groupId)(j, userGroups[j]);
      }
    }
  }

  /** Under the invariant, removing the one row that records `user` in `group` leaves them out of it. */
  lemma RemoveEndsMembership(userGroups: map<Id, Membership>, id: Id)
    requires NoDuplicateMemberships(userGroups) && id in userGroups
    ensures !IsMember(userGroups - {id}, userGroups[id].userId, userGroups[id].groupId)
    ensures NoDuplicateMemberships(userGroups - {id})
  {
  }
}
