/** The best-ball lineup engine: position requirements from a league's lineup template,
    the greedy choice of each roster's lineup, and the swap of that lineup into a matchup
    record. */
module BestBall {
  import opened Wrappers
  import opened Seqs
  import opened StableSort
  import opened Sleeper

  /** `count` slots of lineup token `position`. */
  datatype Requirement = Requirement(position: string, count: nat)

  /** One requirement per distinct template token, in first-seen order, counting the
      token's occurrences. */
  function Requirements(template: seq<string>): seq<Requirement> {
    Counted(Dedup(template), template)
  }

  /** One requirement per token of `d`, counting its occurrences in `template`. */
  function Counted(d: seq<string>, template: seq<string>): seq<Requirement> {
    seq(|d|, i requires 0 <= i < |d| => Requirement(d[i], multiset(template)[d[i]]))
  }

  /** The number of slots the requirements ask for. */
  function TotalCount(reqs: seq<Requirement>): nat {
    if reqs == [] then 0 else TotalCount(reqs[..|reqs| - 1]) + reqs[|reqs| - 1].count
  }

  /** The dictionary of token counts after counting the tokens of `t` one by one. */
  function Tally(t: seq<string>): map<string, nat> {
    if t == [] then map[]
    else
      var counts := Tally(t[..|t| - 1]);
      var x := t[|t| - 1];
      counts[x := (if x in counts then counts[x] else 0) + 1]
  }

  /** The dictionary has one key per token. */
  lemma {:induction false} TallyKeys(t: seq<string>)
    ensures forall p :: p in Tally(t) <==> p in t
  {
    if t != [] {
      var q, x := t[..|t| - 1], t[|t| - 1];
      assert t == q + [x];
      TallyKeys(q);
    }
  }

  /** Each key counts its token's occurrences. */
  lemma {:induction false} TallyCounts(t: seq<string>)
    ensures forall p :: p in Tally(t) ==> Tally(t)[p] == multiset(t)[p]
  {
    if t != [] {
      var q, x := t[..|t| - 1], t[|t| - 1];
      assert t == q + [x];
      TallyKeys(q);
      TallyCounts(q);
      assert multiset(t) == multiset(q) + multiset{x};
    }
  }

  /** Counting the `i`-th token: what one pass of the counting loop does. */
  lemma TallyStep(t: seq<string>, i: nat)
    requires i < |t|
    ensures Tally(t[..i + 1]) == Tally(t[..i])[t[i] := (if t[i] in Tally(t[..i]) then Tally(t[..i])[t[i]] else 0) + 1]
    ensures Dedup(t[..i + 1]) == if t[i] in Tally(t[..i]) then Dedup(t[..i]) else Dedup(t[..i]) + [t[i]]
  {
    assert t[..i + 1][..i] == t[..i];
    assert t[..i + 1] == t[..i] + [t[i]];
    DedupSnoc(t[..i], t[i]);
    TallyKeys(t[..i]);
  }

  /** Listing the dictionary's entries in first-seen key order gives the requirements. */
  lemma EntriesOfTally(t: seq<string>)
    ensures forall p :: p in Dedup(t) ==> p in Tally(t)
    ensures Entries(Dedup(t), Tally(t)) == Requirements(t)
  {
    TallyKeys(t);
    TallyCounts(t);
  }

  /** `getRosterPositionRequirements`: counts tokens in a dictionary, then lists its entries. */
  method GetRosterPositionRequirements(rosterPositions: seq<string>) returns (reqs: seq<Requirement>)
    ensures reqs == Requirements(rosterPositions)
  {
    var positionCounts: map<string, nat> := map[];
    // the order in which `Object.entries` lists the dictionary's keys: insertion order
    var keyOrder: seq<string> := [];
    for i := 0 to |rosterPositions|
      invariant keyOrder == Dedup(rosterPositions[..i])
      invariant positionCounts == Tally(rosterPositions[..i])
    {
      var position := rosterPositions[i];
      TallyStep(rosterPositions, i);
      if position !in positionCounts {
        keyOrder := keyOrder + [position];
      }
      positionCounts := positionCounts[position := (if position in positionCounts then positionCounts[position] else 0) + 1];
    }
    assert rosterPositions[..|rosterPositions|] == rosterPositions;
    EntriesOfTally(rosterPositions);
    reqs := Entries(keyOrder, positionCounts);
  }

  /** `Object.entries(counts).map(...)`: one requirement per key, in key order. */
  function Entries(keys: seq<string>, counts: map<string, nat>): seq<Requirement>
    requires forall p :: p in keys ==> p in counts
  {
    seq(|keys|, j requires 0 <= j < |keys| => Requirement(keys[j], counts[keys[j]]))
  }

  /** A pool entry: a rostered player with the week's score and resolved position. */
  datatype Candidate = Candidate(id: string, points: real, position: string)

  /** The pool, one entry per rostered id in roster order: a missing score is 0 and a
      player without a table entry or position is 'UNKNOWN'. */
  function Candidates(ids: seq<string>, points: map<string, real>, table: map<string, Player>): seq<Candidate> {
    seq(|ids|, i requires 0 <= i < |ids| =>
      Candidate(ids[i], ScoreOrZero(points, ids[i]), PositionOf(table, ids[i]).GetOr("UNKNOWN")))
  }

  /** The pool sorted by score, highest first. */
  function Pool(ids: seq<string>, points: map<string, real>, table: map<string, Player>): seq<Candidate> {
    Sort(Candidates(ids, points, table), PointsAtLeast)
  }

  /** The pool comparator `(a, b) => b.points - a.points` lets `a` first when it scores at least as much. */
  predicate PointsAtLeast(a: Candidate, b: Candidate) {
    a.points >= b.points
  }

  lemma PointsAtLeastOrders()
    ensures TotalPreorder(PointsAtLeast)
  {
  }

  /** Whether a player at `position` may fill a slot of token `slot`. */
  predicate CanFill(slot: string, position: string) {
    if slot == "FLEX" then position in ["RB", "WR", "TE"]
    else if slot == "DEF" then position == "DEF"
    else position == slot
  }

  function Ids(cs: seq<Candidate>): seq<string> {
    seq(|cs|, i requires 0 <= i < |cs| => cs[i].id)
  }

  function PointsOf(cs: seq<Candidate>): seq<real> {
    seq(|cs|, i requires 0 <= i < |cs| => cs[i].points)
  }

  function IdSet(cs: seq<Candidate>): set<string> {
    set c | c in cs :: c.id
  }

  lemma IdsAppend(a: seq<Candidate>, b: seq<Candidate>)
    ensures Ids(a + b) == Ids(a) + Ids(b)
    ensures PointsOf(a + b) == PointsOf(a) + PointsOf(b)
    ensures IdSet(a + b) == IdSet(a) + IdSet(b)
  {
    assert forall x :: x in IdSet(a + b) ==> x in IdSet(a) + IdSet(b) by {
      forall x | x in IdSet(a + b) ensures x in IdSet(a) + IdSet(b) {
        var c :| c in a + b && c.id == x;
        if c in a { assert x in IdSet(a); } else { assert x in IdSet(b); }
      }
    }
  }

  /** One requirement's scan over the first `j` entries of the sorted pool, with the ids
      in `used` already taken: an entry is taken when fewer than `count` have been, its id
      is not taken, and it may fill the slot. */
  function ScanAfter(pool: seq<Candidate>, slot: string, count: nat, used: set<string>, j: nat): seq<Candidate>
    requires j <= |pool|
  {
    if j == 0 then []
    else
      var picked := ScanAfter(pool, slot, count, used, j - 1);
      var c := pool[j - 1];
      if |picked| < count && c.id !in used && c.id !in IdSet(picked) && CanFill(slot, c.position) then
        picked + [c]
      else
        picked
  }

  function Fill(pool: seq<Candidate>, slot: string, count: nat, used: set<string>): seq<Candidate> {
    ScanAfter(pool, slot, count, used, |pool|)
  }

  /** The lineup after the first `k` requirements, filled in declaration order; each
      requirement's scan treats the ids chosen before it as used. */
  function LineupAfter(pool: seq<Candidate>, reqs: seq<Requirement>, k: nat): seq<Candidate>
    requires k <= |reqs|
  {
    if k == 0 then []
    else
      var before := LineupAfter(pool, reqs, k - 1);
      before + Fill(pool, reqs[k - 1].position, reqs[k - 1].count, IdSet(before))
  }

  function Lineup(pool: seq<Candidate>, reqs: seq<Requirement>): seq<Candidate> {
    LineupAfter(pool, reqs, |reqs|)
  }

  datatype LineupResult = LineupResult(starters: seq<string>, startersPoints: seq<real>, totalPoints: real)

  /** The lineup `calculateBestBallLineup` computes: nothing when the record has no players or
      scores or the league no lineup template; otherwise the greedy lineup over the pool
      sorted by score, highest first. */
  function BestBallLineup(m: Matchup, table: map<string, Player>, league: Option<League>): LineupResult {
    if m.players.None? || m.playersPoints.None? || league.None? || league.value.rosterPositions.None? then
      LineupResult([], [], 0.0)
    else
      var chosen := Lineup(Pool(m.players.value, m.playersPoints.value, table), Requirements(league.value.rosterPositions.value));
      LineupResult(Ids(chosen), PointsOf(chosen), Sum(PointsOf(chosen)))
  }

  method CalculateBestBallLineup(m: Matchup, table: map<string, Player>, league: Option<League>) returns (r: LineupResult)
    ensures r == BestBallLineup(m, table, league)
  {
    if m.players.None? || m.playersPoints.None? || league.None? || league.value.rosterPositions.None? {
      return LineupResult([], [], 0.0);
    }
    var playersWithPoints := Pool(m.players.value, m.playersPoints.value, table);
    var positionRequirements := GetRosterPositionRequirements(league.value.rosterPositions.value);
    var selectedStarters, selectedPoints := FillRequirements(playersWithPoints, positionRequirements);
    r := LineupResult(selectedStarters, selectedPoints, Sum(selectedPoints));
  }

  /** The outer loop of `calculateBestBallLineup`: the requirements in declaration order,
      each scanning the sorted pool with the ids taken so far marked used. */
  method FillRequirements(playersWithPoints: seq<Candidate>, positionRequirements: seq<Requirement>)
    returns (selectedStarters: seq<string>, selectedPoints: seq<real>)
    ensures selectedStarters == Ids(Lineup(playersWithPoints, positionRequirements))
    ensures selectedPoints == PointsOf(Lineup(playersWithPoints, positionRequirements))
  {
    selectedStarters, selectedPoints := [], [];
    var usedPlayers: set<string> := {};
    ghost var chosen: seq<Candidate> := [];
    assert IdSet(chosen) == {};
    for k := 0 to |positionRequirements|
      invariant chosen == LineupAfter(playersWithPoints, positionRequirements, k)
      invariant selectedStarters == Ids(chosen) && selectedPoints == PointsOf(chosen)
      invariant usedPlayers == IdSet(chosen)
    {
      ghost var picked := Fill(playersWithPoints, positionRequirements[k].position, positionRequirements[k].count, usedPlayers);
      var ids, points;
      ids, points, usedPlayers := FillRequirement(playersWithPoints, positionRequirements[k], usedPlayers);
      IdsAppend(chosen, picked);
      selectedStarters, selectedPoints := selectedStarters + ids, selectedPoints + points;
      chosen := chosen + picked;
    }
  }

  /** The inner loop: one requirement's pass over the sorted pool, which skips entries once
      the requirement is full or when the id is used, and takes eligible ones otherwise. */
  method FillRequirement(playersWithPoints: seq<Candidate>, positionReq: Requirement, used: set<string>)
    returns (ids: seq<string>, points: seq<real>, usedPlayers: set<string>)
    ensures ids == Ids(Fill(playersWithPoints, positionReq.position, positionReq.count, used))
    ensures points == PointsOf(Fill(playersWithPoints, positionReq.position, positionReq.count, used))
    ensures usedPlayers == used + IdSet(Fill(playersWithPoints, positionReq.position, positionReq.count, used))
  {
    ids, points, usedPlayers := [], [], used;
    var filled := 0;
    ghost var picked: seq<Candidate> := [];
    assert IdSet(picked) == {};
    for j := 0 to |playersWithPoints|
      invariant picked == ScanAfter(playersWithPoints, positionReq.position, positionReq.count, used, j)
      invariant filled == |picked|
      invariant ids == Ids(picked) && points == PointsOf(picked)
      invariant usedPlayers == used + IdSet(picked)
    {
      var playerData := playersWithPoints[j];
      if filled >= positionReq.count || playerData.id in usedPlayers {
        continue;
      }
      if CanFill(positionReq.position, playerData.position) {
        IdsAppend(picked, [playerData]);
        assert IdSet([playerData]) == {playerData.id};
        ids := ids + [playerData.id];
        points := points + [playerData.points];
        usedPlayers := usedPlayers + {playerData.id};
        filled := filled + 1;
        picked := picked + [playerData];
      }
    }
  }

  /** `isBestBallLeague`: the league's settings say `best_ball` is 1. */
  predicate IsBestBallLeague(league: Option<League>) {
    league.Some? && league.value.settings.Some? && league.value.settings.value.bestBall == Some(1)
  }

  /** `createBestBallMatchup`: outside best-ball leagues the record itself; in them a copy
      whose lineup, per-starter scores and total are the best-ball lineup's, all else kept. */
  function CreateBestBallMatchup(m: Matchup, table: map<string, Player>, league: Option<League>): (r: Matchup)
    ensures !IsBestBallLeague(league) ==> r == m
    ensures IsBestBallLeague(league) ==>
      r.matchupId == m.matchupId && r.rosterId == m.rosterId &&
      r.players == m.players && r.playersPoints == m.playersPoints &&
      r.starters == BestBallLineup(m, table, league).starters &&
      r.startersPoints == BestBallLineup(m, table, league).startersPoints &&
      r.points == BestBallLineup(m, table, league).totalPoints
  {
    if !IsBestBallLeague(league) then m
    else
      var best := BestBallLineup(m, table, league);
      m.(starters := best.starters, startersPoints := best.startersPoints, points := best.totalPoints)
  }
}
