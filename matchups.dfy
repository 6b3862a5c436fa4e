/** The week's matchup grid: records grouped by matchup id, each group ordered by score,
    one card per group with the winner marked. */
module Matchups {
  import opened Wrappers
  import opened StableSort
  import opened Sleeper
  import opened Teams

  /** The group comparator `(a, b) => b.points - a.points` lets `a` first when it scores at
      least as much. */
  predicate MatchupPointsAtLeast(a: Matchup, b: Matchup) {
    a.points >= b.points
  }

  lemma MatchupPointsAtLeastOrders()
    ensures TotalPreorder(MatchupPointsAtLeast)
  {
  }

  /** The records with matchup id `id`, in input order. */
  function FilterById(ms: seq<Matchup>, id: nat): seq<Matchup> {
    if ms == [] then []
    else FilterById(ms[..|ms| - 1], id) + (if ms[|ms| - 1].matchupId == id then [ms[|ms| - 1]] else [])
  }

  /** The matchup ids that occur among the records. */
  function MatchupIds(ms: seq<Matchup>): set<nat> {
    set m | m in ms :: m.matchupId
  }

  /** The accumulator of the grouping `reduce` after the records of `ms`: each id seen so
      far maps to its records in the order they were pushed. */
  function Grouped(ms: seq<Matchup>): map<nat, seq<Matchup>> {
    if ms == [] then map[]
    else
      var acc := Grouped(ms[..|ms| - 1]);
      var m := ms[|ms| - 1];
      acc[m.matchupId := (if m.matchupId in acc then acc[m.matchupId] else []) + [m]]
  }

  lemma {:induction false} MinExists(keys: set<nat>)
    requires keys != {}
    ensures exists k :: k in keys && IsLeast(keys, k)
    decreases |keys|
  {
    var k :| k in keys;
    if keys == {k} {
      assert IsLeast(keys, k);
    } else {
      var rest := keys - {k};
      MinExists(rest);
      var m :| m in rest && IsLeast(rest, m);
      var least := if k < m then k else m;
      forall x | x in keys ensures least <= x {
        if x != k {
          assert x in rest;
        }
      }
      assert least in keys && IsLeast(keys, least);
    }
  }

  predicate IsLeast(keys: set<nat>, k: nat) {
    forall x :: x in keys ==> k <= x
  }

  /** The smallest key. */
  function Least(keys: set<nat>): (k: nat)
    requires keys != {}
    ensures k in keys && forall x :: x in keys ==> k <= x
  {
    MinExists(keys);
    var k :| k in keys && IsLeast(keys, k);
    k
  }

  /** The order in which `Object.values` visits the integer keys of an object: ascending. */
  function AscendingKeys(keys: set<nat>): (r: seq<nat>)
    ensures forall i, j :: 0 <= i < j < |r| ==> r[i] < r[j]
    ensures forall k :: k in r <==> k in keys
    decreases |keys|
  {
    if keys == {} then []
    else
      var k := Least(keys);
      var rest := AscendingKeys(keys - {k});
      assert forall j :: 0 <= j < |rest| ==> k < rest[j] by {
        forall j | 0 <= j < |rest| ensures k < rest[j] {
          assert rest[j] in keys - {k};
        }
      }
      [k] + rest
  }

  /** `Object.values(acc)`. */
  function Values(acc: map<nat, seq<Matchup>>): seq<seq<Matchup>> {
    var ks := AscendingKeys(acc.Keys);
    seq(|ks|, i requires 0 <= i < |ks| => acc[ks[i]])
  }

  /** The groups the grid is drawn from: the accumulator's values, each sorted by score. */
  function MatchupPairs(ms: seq<Matchup>): seq<seq<Matchup>> {
    var v := Values(Grouped(ms));
    seq(|v|, i requires 0 <= i < |v| => Sort(v[i], MatchupPointsAtLeast))
  }

  /** The grouping `reduce` over the records, then the per-group sort. */
  method GroupMatchups(matchups: seq<Matchup>) returns (matchupPairs: seq<seq<Matchup>>)
    ensures matchupPairs == MatchupPairs(matchups)
  {
    var acc: map<nat, seq<Matchup>> := map[];
    for i := 0 to |matchups|
      invariant acc == Grouped(matchups[..i])
    {
      var matchup := matchups[i];
      assert matchups[..i + 1][..i] == matchups[..i];
      if matchup.matchupId !in acc {
        acc := acc[matchup.matchupId := []];
      }
      acc := acc[matchup.matchupId := acc[matchup.matchupId] + [matchup]];
    }
    assert matchups[..|matchups|] == matchups;
    var groups := Values(acc);
    matchupPairs := seq(|groups|, i requires 0 <= i < |groups| => Sort(groups[i], MatchupPointsAtLeast));
  }

  /** `team1.points > team2.points ? team1 : team2.points > team1.points ? team2 : null`. */
  function Winner(team1: Matchup, team2: Matchup): (w: Option<Matchup>)
    ensures w == Some(team1) <==> team1.points > team2.points
    ensures w == Some(team2) <==> team2.points > team1.points
    ensures w.None? <==> team1.points == team2.points
  {
    if team1.points > team2.points then Some(team1)
    else if team2.points > team1.points then Some(team2)
    else None
  }

  /** `winner?.roster_id === team.roster_id`: the team is drawn as the winner. */
  predicate Highlighted(winner: Option<Matchup>, team: Matchup) {
    winner.Some? && winner.value.rosterId == team.rosterId
  }

  datatype Card =
    | ByeCard(team: Matchup, name: string)
    | PairCard(matchupId: nat, team1: Matchup, team2: Matchup, name1: string, name2: string,
               winner: Option<Matchup>, team1Wins: bool, team2Wins: bool)

  /** The card of one group: nothing for an empty group, a bye card for a group of one, and
      otherwise a clickable card of its first two records. */
  function CardOf(group: seq<Matchup>, rosters: seq<Roster>, users: seq<User>): (c: Option<Card>)
    ensures c.None? <==> group == []
    ensures c.Some? && c.value.ByeCard? <==> |group| == 1
    ensures c.Some? && c.value.ByeCard? ==> c.value.team == group[0]
    ensures c.Some? && c.value.PairCard? ==>
      c.value.team1 == group[0] && c.value.team2 == group[1] && c.value.matchupId == group[0].matchupId &&
      (c.value.winner.Some? <==> group[0].points != group[1].points) &&
      (c.value.winner == Some(group[0]) <==> group[0].points > group[1].points) &&
      (c.value.winner == Some(group[1]) <==> group[1].points > group[0].points) &&
      (c.value.team1Wins <==> c.value.winner.Some? && c.value.winner.value.rosterId == group[0].rosterId) &&
      (c.value.team2Wins <==> c.value.winner.Some? && c.value.winner.value.rosterId == group[1].rosterId)
  {
    if |group| == 0 then None
    else if |group| == 1 then
      Some(ByeCard(group[0], TeamLabel(UserByRosterId(rosters, users, group[0].rosterId))))
    else
      var w := Winner(group[0], group[1]);
      Some(PairCard(group[0].matchupId, group[0], group[1],
                    TeamLabel(UserByRosterId(rosters, users, group[0].rosterId)),
                    TeamLabel(UserByRosterId(rosters, users, group[1].rosterId)),
                    w, Highlighted(w, group[0]), Highlighted(w, group[1])))
  }

  datatype MatchupsScreen =
    | NoMatchups
    | Grid(cards: seq<Option<Card>>)

  /** What the component shows: the empty-week message when there are no records, and
      otherwise one card per group. */
  function MatchupsView(matchups: seq<Matchup>, rosters: seq<Roster>, users: seq<User>): (v: MatchupsScreen)
    ensures v.NoMatchups? <==> matchups == []
    ensures v.Grid? ==> |v.cards| == |MatchupPairs(matchups)|
    ensures v.Grid? ==> forall i :: 0 <= i < |v.cards| ==> v.cards[i] == CardOf(MatchupPairs(matchups)[i], rosters, users)
  {
    if |matchups| == 0 then NoMatchups
    else
      var pairs := MatchupPairs(matchups);
      Grid(seq(|pairs|, i requires 0 <= i < |pairs| => CardOf(pairs[i], rosters, users)))
  }
}
