/** The records the platform's API returns, as the core reads them. Fields the core never
    reads are omitted; fields that are optional, or that the core tests before use, are
    `Option`s. Scores are exact `real`s. */
module Sleeper {
  import opened Wrappers

  datatype UserMetadata = UserMetadata(teamName: Option<string>)

  datatype User = User(
    userId: string,
    username: string,
    displayName: string,
    avatar: string,
    metadata: Option<UserMetadata>)

  /** `best_ball` is 1 in best-ball leagues and absent otherwise. */
  datatype LeagueSettings = LeagueSettings(bestBall: Option<int>)

  datatype League = League(
    leagueId: string,
    name: string,
    season: string,
    settings: Option<LeagueSettings>,
    rosterPositions: Option<seq<string>>)

  /** Season record and points; the points are an integer part plus hundredths. */
  datatype RosterSettings = RosterSettings(
    wins: nat,
    losses: nat,
    ties: nat,
    fpts: int,
    fptsDecimal: int,
    fptsAgainst: int,
    fptsAgainstDecimal: int)

  datatype Roster = Roster(
    rosterId: int,
    ownerId: string,
    players: Option<seq<string>>,
    starters: seq<string>,
    settings: RosterSettings)

  /** One roster's row for one week. Rosters facing each other share `matchupId`. */
  datatype Matchup = Matchup(
    matchupId: nat,
    rosterId: int,
    points: real,
    players: Option<seq<string>>,
    starters: seq<string>,
    playersPoints: Option<map<string, real>>,
    startersPoints: seq<real>)

  /** An entry of the player reference table. */
  datatype Player = Player(position: Option<string>, team: Option<string>)

  /** The position of a player id when the table has an entry with a non-empty position
      (`player && player.position`, or `player?.position` when tested for truth). */
  function PositionOf(table: map<string, Player>, id: string): (p: Option<string>)
    ensures forall q :: p == Some(q) <==> id in table && table[id].position == Some(q) && q != ""
    ensures p.Some? ==> p.value != ""
    ensures p.GetOr("UNKNOWN") != ""
  {
    if id in table && table[id].position.Some? && table[id].position.value != "" then
      table[id].position
    else
      None
  }

  /** A player's score for the week; a missing score counts as 0 (`players_points[id] || 0`). */
  function ScoreOrZero(points: map<string, real>, id: string): real {
    if id in points then points[id] else 0.0
  }

  /** Games played: wins, losses and ties. */
  function Games(s: RosterSettings): nat {
    s.wins + s.losses + s.ties
  }

  /** Points for: the integer part plus the hundredths (`fpts + fpts_decimal / 100`). */
  function PointsFor(s: RosterSettings): real {
    s.fpts as real + s.fptsDecimal as real / 100.0
  }

  /** Points against, combined the same way. */
  function PointsAgainst(s: RosterSettings): real {
    s.fptsAgainst as real + s.fptsAgainstDecimal as real / 100.0
  }
}
