/** The standings table: rosters ranked by win fraction, then by points for, each row with
    its rank, owner name, record, win percentage and points. */
module Standings {
  import opened Wrappers
  import opened StableSort
  import opened Sleeper
  import opened Teams

  /** The fraction of games won; 0 before any game is played. */
  function WinFraction(s: RosterSettings): (f: real)
    ensures 0.0 <= f <= 1.0
    ensures Games(s) == 0 ==> f == 0.0
    ensures Games(s) > 0 ==> f * Games(s) as real == s.wins as real
  {
    if Games(s) == 0 then 0.0 else s.wins as real / Games(s) as real
  }

  /** The comparator of the sort lets `a` come before `b`: a higher win fraction, or an
      equal one and at least as many points for. */
  predicate RanksAtLeast(a: Roster, b: Roster) {
    var fa, fb := WinFraction(a.settings), WinFraction(b.settings);
    fa > fb || (fa == fb && PointsFor(a.settings) >= PointsFor(b.settings))
  }

  lemma RanksAtLeastOrders()
    ensures TotalPreorder(RanksAtLeast)
  {
  }

  /** The rosters in standings order: a sorted copy; the input sequence is a value and is
      left as it was. */
  function SortedRosters(rosters: seq<Roster>): seq<Roster> {
    Sort(rosters, RanksAtLeast)
  }

  /** The sorted copy holds the same rosters; a higher win fraction comes first, equal
      fractions are ordered by points for, and rosters equal on both keys keep their input
      order. */
  lemma SortedRostersFacts(rosters: seq<Roster>)
    ensures multiset(SortedRosters(rosters)) == multiset(rosters)
    ensures forall i, j :: 0 <= i < j < |SortedRosters(rosters)| ==>
      WinFraction(SortedRosters(rosters)[i].settings) >= WinFraction(SortedRosters(rosters)[j].settings)
    ensures forall i, j ::
      (0 <= i < j < |SortedRosters(rosters)| &&
       WinFraction(SortedRosters(rosters)[i].settings) == WinFraction(SortedRosters(rosters)[j].settings)) ==>
      PointsFor(SortedRosters(rosters)[i].settings) >= PointsFor(SortedRosters(rosters)[j].settings)
    ensures forall x :: Ties(SortedRosters(rosters), x, RanksAtLeast) == Ties(rosters, x, RanksAtLeast)
  {
    RanksAtLeastOrders();
    SortSorted(rosters, RanksAtLeast);
    forall x ensures Ties(SortedRosters(rosters), x, RanksAtLeast) == Ties(rosters, x, RanksAtLeast) {
      SortStable(rosters, x, RanksAtLeast);
    }
  }

  /** The percentage shown: 0 before any game, and `wins / games * 100` otherwise. */
  function WinPercent(s: RosterSettings): (p: real)
    ensures 0.0 <= p <= 100.0
    ensures p == 100.0 * WinFraction(s)
  {
    if Games(s) > 0 then s.wins as real / Games(s) as real * 100.0 else 0.0
  }

  /** One line of the table. */
  datatype StandingsRow = StandingsRow(
    rank: nat,
    rosterId: int,
    name: string,
    wins: nat,
    losses: nat,
    ties: nat,
    winPercent: real,
    pointsFor: real,
    pointsAgainst: real)

  /** The row of roster `r` at rank `rank`: its record, its owner's display name, the win
      percentage and both point totals. */
  function RowOf(rank: nat, r: Roster, users: seq<User>): StandingsRow {
    StandingsRow(rank, r.rosterId, DisplayLabel(UserByOwnerId(users, r.ownerId)),
                 r.settings.wins, r.settings.losses, r.settings.ties,
                 WinPercent(r.settings), PointsFor(r.settings), PointsAgainst(r.settings))
  }

  /** The table: the sorted rosters in order, the row at index `i` ranked `i + 1`. */
  function StandingsRows(rosters: seq<Roster>, users: seq<User>): seq<StandingsRow> {
    var sorted := SortedRosters(rosters);
    seq(|sorted|, i requires 0 <= i < |sorted| => RowOf(i + 1, sorted[i], users))
  }

  /** One row per roster, ranked 1 to N; a row never shows a lower win percentage than a row
      below it, nor on an equal percentage fewer points for. */
  lemma StandingsRowsOrdered(rosters: seq<Roster>, users: seq<User>)
    ensures |StandingsRows(rosters, users)| == |rosters|
    ensures forall i :: 0 <= i < |rosters| ==> StandingsRows(rosters, users)[i].rank == i + 1
    ensures forall i, j :: 0 <= i < j < |rosters| ==>
      StandingsRows(rosters, users)[i].winPercent >= StandingsRows(rosters, users)[j].winPercent &&
      (StandingsRows(rosters, users)[i].winPercent == StandingsRows(rosters, users)[j].winPercent ==>
        StandingsRows(rosters, users)[i].pointsFor >= StandingsRows(rosters, users)[j].pointsFor)
  {
    SortedRostersFacts(rosters);
  }

  /** `row` is what roster `r` of `rosters` shows at rank `rank`. */
  predicate ShowsRoster(row: StandingsRow, rank: nat, rosters: seq<Roster>, users: seq<User>) {
    exists r :: r in rosters && row == RowOf(rank, r, users)
  }

  /** Each row shows the record, points and owner's display name of one of the rosters. */
  lemma StandingsRowsShowRosters(rosters: seq<Roster>, users: seq<User>)
    ensures forall i :: 0 <= i < |StandingsRows(rosters, users)| ==>
      ShowsRoster(StandingsRows(rosters, users)[i], i + 1, rosters, users)
  {
    var s := SortedRosters(rosters);
    var rows := StandingsRows(rosters, users);
    forall i | 0 <= i < |rows| ensures ShowsRoster(rows[i], i + 1, rosters, users) {
      assert s[i] in multiset(rosters);
      assert rows[i] == RowOf(i + 1, s[i], users);
    }
  }

  // ----- The comparator as written -----

  /** `(b.wins / games(b) - a.wins / games(a))`, or the points-for difference when the two
      fractions are equal, with JavaScript's `NaN` (`None`) for a `0 / 0` fraction: `NaN`
      differs from every number, and any difference with it is `NaN`. */
  function CompareAsWritten(a: Roster, b: Roster): (c: Option<real>)
    ensures c.None? <==> Games(a.settings) == 0 || Games(b.settings) == 0
    ensures c.Some? ==> (c.value <= 0.0 <==> RanksAtLeast(a, b))
  {
    var fa := if Games(a.settings) == 0 then None else Some(a.settings.wins as real / Games(a.settings) as real);
    var fb := if Games(b.settings) == 0 then None else Some(b.settings.wins as real / Games(b.settings) as real);
    if fa.None? || fb.None? then None
    else if fa != fb then Some(fb.value - fa.value)
    else Some(PointsFor(b.settings) - PointsFor(a.settings))
  }

  /** The sort treats a `NaN` result as 0, so `a` may precede `b` when the result is `NaN`
      or not positive. */
  predicate RanksAtLeastAsWritten(a: Roster, b: Roster)
    ensures Games(a.settings) == 0 || Games(b.settings) == 0 ==> RanksAtLeastAsWritten(a, b)
  {
    var c := CompareAsWritten(a, b);
    c.None? || c.value <= 0.0
  }

  /** A roster with the given record and no points, the shape of the counterexample below. */
  function RecordOf(wins: nat, losses: nat, ties: nat): Roster {
    Roster(0, "", None, [], RosterSettings(wins, losses, ties, 0, 0, 0, 0))
  }

  /** Between two rosters that have played, the comparator as written and the corrected one
      agree: the correction changes only how a roster without games compares. */
  lemma AsWrittenAgreesWhenPlayed(a: Roster, b: Roster)
    requires Games(a.settings) > 0 && Games(b.settings) > 0
    ensures RanksAtLeastAsWritten(a, b) <==> RanksAtLeast(a, b)
  {
  }

  /** As written, a roster without games compares equal to every roster, in both orders. */
  lemma AsWrittenIdleTiesAll(a: Roster, b: Roster)
    requires Games(a.settings) == 0
    ensures RanksAtLeastAsWritten(a, b) && RanksAtLeastAsWritten(b, a)
  {
  }

  /** Two rosters without games that the comparator as written lets come in either order,
      while the corrected one does not let `a` come first. */
  predicate IdleTieReordered(a: Roster, b: Roster) {
    Games(a.settings) == 0 && Games(b.settings) == 0 &&
    RanksAtLeastAsWritten(a, b) && RanksAtLeastAsWritten(b, a) && !RanksAtLeast(a, b)
  }

  /** The corrected comparator orders two rosters without games by points for alone. */
  lemma IdleByPointsFor(a: Roster, b: Roster)
    requires Games(a.settings) == 0 && Games(b.settings) == 0
    ensures RanksAtLeast(a, b) <==> PointsFor(a.settings) >= PointsFor(b.settings)
  {
  }

  /** Two rosters without games and with different points for: as written they tie, so the
      stable sort keeps their input order, while the corrected comparator puts the one with
      more points for first. */
  lemma IdleOrderDiffers(a: Roster, b: Roster)
    requires Games(a.settings) == 0 && Games(b.settings) == 0
    requires PointsFor(a.settings) < PointsFor(b.settings)
    ensures IdleTieReordered(a, b)
  {
    IdleByPointsFor(a, b);
    AsWrittenIdleTiesAll(a, b);
  }

  /** A 0-1 roster may precede a roster with no games, which may precede a 1-0 roster, yet
      the 0-1 roster may not precede the 1-0 roster: the comparator is not consistent, and
      the order the sort then produces is left to the engine. */
  lemma AsWrittenNotTransitive()
    ensures !TotalPreorder(RanksAtLeastAsWritten)
  {
    var loser, idle, winner := RecordOf(0, 1, 0), RecordOf(0, 0, 0), RecordOf(1, 0, 0);
    assert RanksAtLeastAsWritten(loser, idle);
    assert RanksAtLeastAsWritten(idle, winner);
    assert !RanksAtLeastAsWritten(loser, winner);
  }
}
