/** Looking up a roster's owner and choosing the name shown for a team. */
module Teams {
  import opened Wrappers
  import opened Sleeper

  /** Index of the first roster with `rosterId == id` (`rosters.find(...)`). */
  function RosterIndex(rosters: seq<Roster>, id: int): (k: Option<nat>)
    ensures k.Some? ==> k.value < |rosters| && rosters[k.value].rosterId == id
    ensures k.Some? ==> forall i :: 0 <= i < k.value ==> rosters[i].rosterId != id
    ensures k.None? <==> forall i :: 0 <= i < |rosters| ==> rosters[i].rosterId != id
  {
    if rosters == [] then None
    else if rosters[0].rosterId == id then Some(0)
    else
      match RosterIndex(rosters[1..], id)
      case None => None
      case Some(j) => Some(j + 1)
  }

  /** The first user whose `user_id` is `ownerId` (`users.find(...)`). */
  function UserByOwnerId(users: seq<User>, ownerId: string): (u: Option<User>)
    ensures u.Some? ==> exists k :: 0 <= k < |users| && users[k] == u.value && u.value.userId == ownerId
                                   && forall i :: 0 <= i < k ==> users[i].userId != ownerId
    ensures u.None? <==> forall i :: 0 <= i < |users| ==> users[i].userId != ownerId
  {
    if users == [] then None
    else if users[0].userId == ownerId then Some(users[0])
    else
      var u := UserByOwnerId(users[1..], ownerId);
      assert u.Some? ==> exists k :: 0 <= k < |users| && users[k] == u.value && u.value.userId == ownerId
                                   && forall i :: 0 <= i < k ==> users[i].userId != ownerId by {
        if u.Some? {
          var k :| 0 <= k < |users[1..]| && users[1..][k] == u.value && u.value.userId == ownerId
                   && forall i :: 0 <= i < k ==> users[1..][i].userId != ownerId;
          assert users[k + 1] == u.value;
        }
      }
      u
  }

  /** The owner of the first roster with the given id; none when no roster has that id or
      no user owns it (`getUserByRosterId`, where `null` and `undefined` are both absent). */
  function UserByRosterId(rosters: seq<Roster>, users: seq<User>, id: int): (u: Option<User>)
    ensures (forall i :: 0 <= i < |rosters| ==> rosters[i].rosterId != id) ==> u.None?
    ensures RosterIndex(rosters, id).Some? ==> u == UserByOwnerId(users, rosters[RosterIndex(rosters, id).value].ownerId)
  {
    match RosterIndex(rosters, id)
    case None => None
    case Some(k) => UserByOwnerId(users, rosters[k].ownerId)
  }

  /** The first non-empty candidate, or `fallback` when every candidate is empty: a chain
      `a || b || ... || fallback` over strings, where the empty string is false. */
  function FirstNonEmpty(candidates: seq<string>, fallback: string): (r: string)
    ensures (forall i :: 0 <= i < |candidates| ==> candidates[i] == "") ==> r == fallback
    ensures (exists i :: 0 <= i < |candidates| && candidates[i] != "") ==>
              exists i :: 0 <= i < |candidates| && r == candidates[i] && r != ""
                          && forall j :: 0 <= j < i ==> candidates[j] == ""
  {
    if candidates == [] then fallback
    else if candidates[0] != "" then candidates[0]
    else
      var r := FirstNonEmpty(candidates[1..], fallback);
      assert (exists i :: 0 <= i < |candidates| && candidates[i] != "") ==>
              exists i :: 0 <= i < |candidates| && r == candidates[i] && r != ""
                          && forall j :: 0 <= j < i ==> candidates[j] == "" by {
        if exists i :: 0 <= i < |candidates| && candidates[i] != "" {
          var i :| 0 <= i < |candidates| && candidates[i] != "";
          assert candidates[1..][i - 1] != "";
          var k :| 0 <= k < |candidates[1..]| && r == candidates[1..][k] && r != ""
                   && forall j :: 0 <= j < k ==> candidates[1..][j] == "";
          assert r == candidates[k + 1];
        }
      }
      r
  }

  /** `metadata.team_name` as a string; absent counts as empty. */
  function TeamNameOf(u: User): string {
    if u.metadata.Some? && u.metadata.value.teamName.Some? then u.metadata.value.teamName.value else ""
  }

  /** The label of a team card: team name, then display name, then user name, then
      'Unknown' (Matchups and RosterView). */
  function TeamLabel(u: Option<User>): (r: string)
    ensures r != ""
    ensures u.Some? && TeamNameOf(u.value) != "" ==> r == TeamNameOf(u.value)
    ensures u.Some? && TeamNameOf(u.value) == "" && u.value.displayName != "" ==> r == u.value.displayName
    ensures u.Some? && TeamNameOf(u.value) == "" && u.value.displayName == "" && u.value.username != "" ==> r == u.value.username
    ensures u.None? || (TeamNameOf(u.value) == "" && u.value.displayName == "" && u.value.username == "") ==> r == "Unknown"
  {
    var c := if u.None? then [] else [TeamNameOf(u.value), u.value.displayName, u.value.username];
    var r := FirstNonEmpty(c, "Unknown");
    assert u.Some? && (c[0] != "" || c[1] != "" || c[2] != "") ==> r == c[0] || r == c[1] || r == c[2] by {
      if u.Some? && (c[0] != "" || c[1] != "" || c[2] != "") {
        var i :| 0 <= i < 3 && r == c[i] && r != "" && forall j :: 0 <= j < i ==> c[j] == "";
      }
    }
    r
  }

  /** The label of a team in the detail view and the standings: display name, then user
      name, then 'Unknown'; the team name is not consulted. */
  function DisplayLabel(u: Option<User>): (r: string)
    ensures r != ""
    ensures u.Some? && u.value.displayName != "" ==> r == u.value.displayName
    ensures u.Some? && u.value.displayName == "" && u.value.username != "" ==> r == u.value.username
    ensures u.None? || (u.value.displayName == "" && u.value.username == "") ==> r == "Unknown"
  {
    var c := if u.None? then [] else [u.value.displayName, u.value.username];
    var r := FirstNonEmpty(c, "Unknown");
    assert u.Some? && (c[0] != "" || c[1] != "") ==> r == c[0] || r == c[1] by {
      if u.Some? && (c[0] != "" || c[1] != "") {
        var i :| 0 <= i < 2 && r == c[i] && r != "" && forall j :: 0 <= j < i ==> c[j] == "";
      }
    }
    r
  }
}
