/** The detail view of one matchup: its records in input order, a bye or a head-to-head
    with the winner marked, and each team's starters and bench with their scores. */
module MatchupDetail {
  import opened Wrappers
  import opened Seqs
  import opened Sleeper
  import opened Teams
  import opened Matchups

  /** A player line: the id and the score shown beside it. */
  datatype PlayerRow = PlayerRow(id: string, points: real)

  datatype PlayerPoints = PlayerPoints(starters: seq<PlayerRow>, bench: seq<PlayerRow>)

  /** `renderPlayerPoints` reads `players`, and reads `players_points` for each bench
      player; it fails on a record without `players`, or without `players_points` when the
      bench is not empty. */
  predicate Renderable(m: Matchup) {
    m.players.Some? && (m.playersPoints.Some? || Without(m.players.value, m.starters) == [])
  }

  /** The starters in lineup order, each with `starters_points` at its index or 0 when that
      entry is missing; then the bench, the rostered players that are not starters, in roster
      order, each with its `players_points` score or 0. */
  function RenderPlayerPoints(m: Matchup): (r: PlayerPoints)
    requires Renderable(m)
    ensures |r.starters| == |m.starters|
    ensures forall i :: 0 <= i < |r.starters| ==> r.starters[i].id == m.starters[i]
    ensures |r.bench| <= |m.players.value|
    ensures forall j :: 0 <= j < |r.bench| ==> r.bench[j].id in m.players.value && r.bench[j].id !in m.starters
  {
    var bench := Without(m.players.value, m.starters);
    PlayerPoints(
      seq(|m.starters|, i requires 0 <= i < |m.starters| =>
        PlayerRow(m.starters[i], if i < |m.startersPoints| then m.startersPoints[i] else 0.0)),
      seq(|bench|, i requires 0 <= i < |bench| =>
        PlayerRow(bench[i], if m.playersPoints.Some? then ScoreOrZero(m.playersPoints.value, bench[i]) else 0.0)))
  }

  /** One team's side: its record, the name shown, its player lines and whether it is
      marked the winner. */
  datatype TeamPanel = TeamPanel(team: Matchup, name: string, players: PlayerPoints, isWinner: bool)

  datatype DetailScreen =
    | NotFound
    | ByeDetail(panel: TeamPanel)
    | PairDetail(panel1: TeamPanel, panel2: TeamPanel, winner: Option<Matchup>)

  /** The records the view renders can be rendered: the first, and the second when there is one. */
  predicate DetailRenderable(matchups: seq<Matchup>, matchupId: nat) {
    var teams := FilterById(matchups, matchupId);
    (|teams| >= 1 ==> Renderable(teams[0])) && (|teams| >= 2 ==> Renderable(teams[1]))
  }

  /** What `MatchupDetail` shows for `matchupId`: not found without records of that id, a bye
      for one record, and otherwise the first two records in input order, named by display
      name, with the strictly higher scorer marked. */
  function MatchupDetailView(matchups: seq<Matchup>, rosters: seq<Roster>, users: seq<User>, matchupId: nat): (v: DetailScreen)
    requires DetailRenderable(matchups, matchupId)
    ensures v.NotFound? <==> FilterById(matchups, matchupId) == []
    ensures v.ByeDetail? <==> |FilterById(matchups, matchupId)| == 1
    ensures v.ByeDetail? ==> v.panel.team == FilterById(matchups, matchupId)[0] && !v.panel.isWinner
    ensures v.PairDetail? ==>
      v.panel1.team == FilterById(matchups, matchupId)[0] && v.panel2.team == FilterById(matchups, matchupId)[1] &&
      (v.winner.Some? <==> v.panel1.team.points != v.panel2.team.points) &&
      (v.winner == Some(v.panel1.team) <==> v.panel1.team.points > v.panel2.team.points) &&
      (v.winner == Some(v.panel2.team) <==> v.panel2.team.points > v.panel1.team.points) &&
      (v.panel1.isWinner <==> v.winner.Some? && v.winner.value.rosterId == v.panel1.team.rosterId) &&
      (v.panel2.isWinner <==> v.winner.Some? && v.winner.value.rosterId == v.panel2.team.rosterId)
  {
    var teams := FilterById(matchups, matchupId);
    if |teams| == 0 then NotFound
    else
      var team1 := teams[0];
      var name1 := DisplayLabel(UserByRosterId(rosters, users, team1.rosterId));
      if |teams| == 1 then
        ByeDetail(TeamPanel(team1, name1, RenderPlayerPoints(team1), false))
      else
        var team2 := teams[1];
        var name2 := DisplayLabel(UserByRosterId(rosters, users, team2.rosterId));
        var w := Winner(team1, team2);
        PairDetail(TeamPanel(team1, name1, RenderPlayerPoints(team1), Highlighted(w, team1)),
                   TeamPanel(team2, name2, RenderPlayerPoints(team2), Highlighted(w, team2)),
                   w)
  }
}
