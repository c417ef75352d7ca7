/** Team membership (backend/domain/team.go and frontend/src/domain/Team.ts): adding one user, merging a
    list of users into the member list, and the frontend's membership test. */
module Teams {
  import opened Wrappers

  datatype Team = Team(id: string, name: string, memberIDs: seq<string>)

  /** The IDs a list holds. */
  function Elems(xs: seq<string>): set<string> {
    set x | x in xs
  }

  /** No ID occurs twice. */
  predicate Distinct(xs: seq<string>) {
    forall i, j | 0 <= i < j < |xs| :: xs[i] != xs[j]
  }

  /** UpsertUser: a user not yet a member is appended at the end; a member changes nothing. */
  function UpsertUser(t: Team, userID: string): (r: Team)
    ensures userID in r.memberIDs
    ensures userID in t.memberIDs ==> r == t
    ensures userID !in t.memberIDs ==> r == t.(memberIDs := t.memberIDs + [userID])
  {
    if userID in t.memberIDs then t else t.(memberIDs := t.memberIDs + [userID])
  }

  /** Upserting a user twice is upserting once. */
  lemma UpsertIsIdempotent(t: Team, userID: string)
    ensures UpsertUser(UpsertUser(t, userID), userID) == UpsertUser(t, userID)
  {
  }

  /** Upserting adds exactly the user to the member set and keeps the list free of duplicates. */
  lemma UpsertMembers(t: Team, userID: string)
    ensures Elems(UpsertUser(t, userID).memberIDs) == Elems(t.memberIDs) + {userID}
    ensures Distinct(t.memberIDs) ==> Distinct(UpsertUser(t, userID).memberIDs)
  {
  }

  /** The first two loops of MergeMembers: the set of the members and the new IDs, and whether some new
      ID was not a member. */
  method CollectIDs(members: seq<string>, userIDs: seq<string>) returns (unique: set<string>, changed: bool)
    ensures unique == Elems(members) + Elems(userIDs)
    ensures changed <==> exists i | 0 <= i < |userIDs| :: userIDs[i] !in members
  {
    unique := {};
    for i := 0 to |members|
      invariant unique == Elems(members[..i])
    {
      unique := unique + {members[i]};
      assert members[..i + 1] == members[..i] + [members[i]];
    }
    assert members[..|members|] == members;
    changed := false;
    for i := 0 to |userIDs|
      invariant unique == Elems(members) + Elems(userIDs[..i])
      invariant changed <==> exists j | 0 <= j < i :: userIDs[j] !in members
    {
      if userIDs[i] !in unique {
        changed := true;
      }
      unique := unique + {userIDs[i]};
      assert userIDs[..i + 1] == userIDs[..i] + [userIDs[i]];
    }
    assert userIDs[..|userIDs|] == userIDs;
  }

  /** The last loop of MergeMembers: the set's elements, each once, in an arbitrary order. */
  method ListSet(unique: set<string>) returns (res: seq<string>)
    ensures Elems(res) == unique
    ensures Distinct(res)
  {
    res := [];
    var remaining := unique;
    while remaining != {}
      invariant remaining <= unique
      invariant Elems(res) == unique - remaining
      invariant Distinct(res)
      decreases |remaining|
    {
      var id :| id in remaining;
      assert Elems(res + [id]) == Elems(res) + {id};
      res := res + [id];
      remaining := remaining - {id};
    }
  }

  /** MergeMembers: the member list becomes the union of the old members and `userIDs`, each once, in the
      order Go's map iteration yields them (here: any order); the result reports whether some given ID was
      not a member before. */
  method MergeMembers(t: Team, userIDs: seq<string>) returns (r: Team, changed: bool)
    ensures r.id == t.id && r.name == t.name
    ensures Elems(r.memberIDs) == Elems(t.memberIDs) + Elems(userIDs)
    ensures Distinct(r.memberIDs)
    ensures changed <==> exists i | 0 <= i < |userIDs| :: userIDs[i] !in t.memberIDs
  {
    var unique;
    unique, changed := CollectIDs(t.memberIDs, userIDs);
    var res := ListSet(unique);
    r := t.(memberIDs := res);
  }

  /** Merging IDs that are all members already reports no change and keeps the member set. */
  method MergeKnownMembers(t: Team, userIDs: seq<string>) returns (r: Team, changed: bool)
    requires forall i | 0 <= i < |userIDs| :: userIDs[i] in t.memberIDs
    ensures !changed
    ensures Elems(r.memberIDs) == Elems(t.memberIDs)
  {
    r, changed := MergeMembers(t, userIDs);
  }

  /** userIsTeamMember: a team without a member list, or with an empty one, admits everyone; otherwise
      exactly its members. */
  function UserIsTeamMember(members: Option<seq<string>>, userID: string): (r: bool)
    ensures members.None? ==> r
    ensures members.Some? && |members.value| == 0 ==> r
    ensures members.Some? && |members.value| > 0 ==> (r <==> userID in members.value)
  {
    if members.None? then true
    else if |members.value| == 0 then true
    else userID in members.value
  }

  /** The test fails exactly for a non-empty member list lacking the user. */
  lemma NotMemberExactly(members: Option<seq<string>>, userID: string)
    ensures !UserIsTeamMember(members, userID) <==> members.Some? && |members.value| > 0 && userID !in members.value
  {
  }

  /** A user the backend upserted passes the frontend's membership test. */
  lemma UpsertedUserIsMember(t: Team, userID: string)
    ensures UserIsTeamMember(Some(UpsertUser(t, userID).memberIDs), userID)
  {
  }
}
