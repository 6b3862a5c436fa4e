/** One roster's panel: its starters sorted into position buckets, its bench, and its
    season record with points for. */
module RosterView {
  import opened Wrappers
  import opened Seqs
  import opened Sleeper
  import Standings

  /** The positions that get a bucket, in the order they are created. */
  const BucketPositions: seq<string> := ["QB", "RB", "WR", "TE", "FLEX", "K", "DEF"]

  /** One empty bucket per position. */
  function EmptyBuckets(): (b: map<string, seq<string>>)
    ensures forall p :: p in b <==> p in BucketPositions
    ensures forall p :: p in b ==> b[p] == []
  {
    map p | p in BucketPositions :: []
  }

  /** The buckets after placing starter `id`: an empty id is skipped; a starter with a
      player entry and a non-empty position goes into that position's bucket when there is
      one, and otherwise, when the position is RB, WR or TE, into the FLEX bucket; any other
      starter goes nowhere. */
  function Place(acc: map<string, seq<string>>, id: string, table: map<string, Player>): map<string, seq<string>> {
    if id == "" then acc
    else match PositionOf(table, id)
      case None => acc
      case Some(position) =>
        if position in acc then acc[position := acc[position] + [id]]
        else if position == "RB" || position == "WR" || position == "TE" then
          if "FLEX" in acc then acc["FLEX" := acc["FLEX"] + [id]] else acc
        else acc
  }

  /** The buckets after placing the starters of `starters` one by one. */
  function BucketsAfter(starters: seq<string>, table: map<string, Player>): map<string, seq<string>> {
    if starters == [] then EmptyBuckets()
    else Place(BucketsAfter(starters[..|starters| - 1], table), starters[|starters| - 1], table)
  }

  lemma BucketsAfterStep(starters: seq<string>, i: nat, table: map<string, Player>)
    requires i < |starters|
    ensures BucketsAfter(starters[..i + 1], table) == Place(BucketsAfter(starters[..i], table), starters[i], table)
  {
    assert starters[..i + 1][..i] == starters[..i];
  }

  /** The non-empty starter ids whose player has position `position`, in starter order:
      the reference the buckets are checked against. */
  function StartersAt(starters: seq<string>, table: map<string, Player>, position: string): (r: seq<string>)
    ensures forall x :: x in r <==> x in starters && x != "" && PositionOf(table, x) == Some(position)
  {
    if starters == [] then []
    else
      var id := starters[|starters| - 1];
      StartersAt(starters[..|starters| - 1], table, position) +
        (if id != "" && PositionOf(table, id) == Some(position) then [id] else [])
  }

  /** There is exactly one bucket per listed position. */
  lemma {:induction false} BucketKeys(starters: seq<string>, table: map<string, Player>)
    ensures forall p :: p in BucketsAfter(starters, table) <==> p in BucketPositions
  {
    if starters != [] {
      BucketKeys(starters[..|starters| - 1], table);
    }
  }

  /** Each bucket holds exactly the starters of its own position, in starter order. So a
      starter without a player entry, without a position, or with a position outside the
      list is in no bucket, and the FLEX bucket takes no RB, WR or TE starter: those
      positions have buckets of their own, so the FLEX branch never runs. */
  lemma {:induction false} BucketContents(starters: seq<string>, table: map<string, Player>)
    ensures forall p :: p in BucketPositions ==>
      p in BucketsAfter(starters, table) && BucketsAfter(starters, table)[p] == StartersAt(starters, table, p)
  {
    BucketKeys(starters, table);
    if starters != [] {
      var q := starters[..|starters| - 1];
      var id := starters[|starters| - 1];
      BucketContents(q, table);
      BucketKeys(q, table);
      var acc := BucketsAfter(q, table);
      if id != "" && PositionOf(table, id).Some? {
        var position := PositionOf(table, id).value;
        if position !in acc {
          assert position != "RB" && position != "WR" && position != "TE";
        }
      }
    }
  }

  /** Starters whose player plays RB, WR or TE are never in the FLEX bucket. */
  lemma FlexTakesNoSkillPlayer(starters: seq<string>, table: map<string, Player>)
    ensures "FLEX" in BucketsAfter(starters, table)
    ensures forall x :: x in BucketsAfter(starters, table)["FLEX"] ==> PositionOf(table, x) == Some("FLEX")
  {
    BucketKeys(starters, table);
    BucketContents(starters, table);
  }

  /** The bench: the rostered players that are not starters, in roster order; none when
      the roster lists no players. */
  function Bench(roster: Roster): (b: seq<string>)
    ensures roster.players.None? ==> b == []
    ensures roster.players.Some? ==> forall x :: x in b <==> x in roster.players.value && x !in roster.starters
  {
    if roster.players.None? then [] else Without(roster.players.value, roster.starters)
  }

  lemma WithoutStep(ps: seq<string>, i: nat, exclude: seq<string>)
    requires i < |ps|
    ensures Without(ps[..i + 1], exclude) == Without(ps[..i], exclude) + (if ps[i] in exclude then [] else [ps[i]])
  {
    assert ps[..i + 1] == ps[..i] + [ps[i]];
    WithoutSnoc(ps[..i], ps[i], exclude);
  }

  /** The callback run for each starter: skip an empty id, then push the id onto its
      position's bucket, or onto the FLEX bucket for an RB, WR or TE without a bucket. */
  method PlaceStarter(startersByPosition: map<string, seq<string>>, playerId: string, players: map<string, Player>)
    returns (buckets: map<string, seq<string>>)
    ensures buckets == Place(startersByPosition, playerId, players)
  {
    buckets := startersByPosition;
    if playerId == "" {
      return;
    }
    var player := PositionOf(players, playerId);
    if player.Some? {
      var position := player.value;
      if position in buckets {
        buckets := buckets[position := buckets[position] + [playerId]];
      } else if position == "RB" || position == "WR" || position == "TE" {
        if "FLEX" in buckets {
          buckets := buckets["FLEX" := buckets["FLEX"] + [playerId]];
        }
      }
    }
  }

  /** `getPlayersByPosition`: create the buckets, push each starter into its bucket, then
      push each rostered player that is not a starter onto the bench. */
  method GetPlayersByPosition(roster: Roster, players: map<string, Player>)
    returns (startersByPosition: map<string, seq<string>>, bench: seq<string>)
    ensures startersByPosition == BucketsAfter(roster.starters, players)
    ensures bench == Bench(roster)
  {
    startersByPosition := map[];
    bench := [];
    for k := 0 to |BucketPositions|
      invariant forall p :: p in startersByPosition <==> p in BucketPositions[..k]
      invariant forall p :: p in startersByPosition ==> startersByPosition[p] == []
    {
      startersByPosition := startersByPosition[BucketPositions[k] := []];
    }
    assert BucketPositions[..|BucketPositions|] == BucketPositions;
    assert startersByPosition == EmptyBuckets();
    var starters := roster.starters;
    for i := 0 to |starters|
      invariant startersByPosition == BucketsAfter(starters[..i], players)
    {
      BucketsAfterStep(starters, i, players);
      startersByPosition := PlaceStarter(startersByPosition, starters[i], players);
    }
    assert starters[..|starters|] == starters;
    if roster.players.Some? {
      var ps := roster.players.value;
      for i := 0 to |ps|
        invariant bench == Without(ps[..i], starters)
      {
        WithoutStep(ps, i, starters);
        if ps[i] !in starters {
          bench := bench + [ps[i]];
        }
      }
      assert ps[..|ps|] == ps;
    }
  }

  /** The record line: wins and losses, ties only when there are some, and points for. */
  datatype RecordLine = RecordLine(wins: nat, losses: nat, ties: Option<nat>, pointsFor: real)

  function RecordLineOf(s: RosterSettings): (r: RecordLine)
    ensures r.ties.Some? <==> Games(s) > s.wins + s.losses
    ensures r.ties.Some? ==> r.wins + r.losses + r.ties.value == Games(s)
    ensures r.ties.None? ==> r.wins + r.losses == Games(s)
    ensures r.pointsFor * 100.0 == (s.fpts * 100 + s.fptsDecimal) as real
  {
    RecordLine(s.wins, s.losses, if s.ties > 0 then Some(s.ties) else None,
               s.fpts as real + s.fptsDecimal as real / 100.0)
  }

  /** The panel's record line shows the same record and points for as the roster's row in
      the standings table; it adds a ties part exactly when some games were neither won
      nor lost. */
  lemma RecordLineMatchesStandings(r: Roster, rank: nat, users: seq<User>)
    ensures var line, row := RecordLineOf(r.settings), Standings.RowOf(rank, r, users);
      line.wins == row.wins && line.losses == row.losses && line.pointsFor == row.pointsFor &&
      (line.ties.Some? <==> Games(r.settings) > row.wins + row.losses) &&
      (line.ties.Some? ==> line.ties.value == row.ties)
  {
  }
}
