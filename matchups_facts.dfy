/** What the matchup grid guarantees: the groups partition the week's records by matchup
    id, come in ascending id order and are ordered by score; each card shows a group's first
    two records and marks the strictly higher scorer. */
module MatchupsFacts {
  import opened Wrappers
  import opened Seqs
  import opened StableSort
  import opened Sleeper
  import opened Matchups

  // ----- Records of one id -----

  /** The filter keeps only records of the id, and keeps one when the id occurs. */
  lemma {:induction false} FilterByIdMembers(ms: seq<Matchup>, id: nat)
    ensures forall m :: m in FilterById(ms, id) ==> m in ms && m.matchupId == id
    ensures id in MatchupIds(ms) ==> FilterById(ms, id) != []
  {
    if ms != [] {
      var q, x := ms[..|ms| - 1], ms[|ms| - 1];
      assert ms == q + [x];
      FilterByIdMembers(q, id);
      assert MatchupIds(ms) == MatchupIds(q) + {x.matchupId};
    }
  }

  /** The filter keeps every copy of each record of the id and nothing else. */
  lemma {:induction false} FilterByIdCount(ms: seq<Matchup>, id: nat)
    ensures forall m :: multiset(FilterById(ms, id))[m] == if m.matchupId == id then multiset(ms)[m] else 0
  {
    if ms != [] {
      var q, x := ms[..|ms| - 1], ms[|ms| - 1];
      assert ms == q + [x];
      FilterByIdCount(q, id);
      assert multiset(ms) == multiset(q) + multiset{x};
      assert multiset(FilterById(ms, id)) == multiset(FilterById(q, id)) + multiset(if x.matchupId == id then [x] else []);
    }
  }

  lemma FilterByIdFacts(ms: seq<Matchup>, id: nat)
    ensures forall m :: m in FilterById(ms, id) ==> m in ms && m.matchupId == id
    ensures id in MatchupIds(ms) ==> FilterById(ms, id) != []
    ensures forall m :: multiset(FilterById(ms, id))[m] == if m.matchupId == id then multiset(ms)[m] else 0
  {
    FilterByIdMembers(ms, id);
    FilterByIdCount(ms, id);
  }

  lemma FilterByIdSnoc(ms: seq<Matchup>, x: Matchup, id: nat)
    ensures FilterById(ms + [x], id) == FilterById(ms, id) + (if x.matchupId == id then [x] else [])
  {
    assert (ms + [x])[..|ms|] == ms;
  }

  /** The accumulator has one key per matchup id, holding that id's records in input order. */
  lemma {:induction false} GroupedFacts(ms: seq<Matchup>)
    ensures Grouped(ms).Keys == MatchupIds(ms)
    ensures forall id :: id in Grouped(ms) ==> Grouped(ms)[id] == FilterById(ms, id)
  {
    if ms != [] {
      var q, x := ms[..|ms| - 1], ms[|ms| - 1];
      assert ms == q + [x];
      GroupedFacts(q);
      assert MatchupIds(ms) == MatchupIds(q) + {x.matchupId};
      forall id | id in Grouped(ms) ensures Grouped(ms)[id] == FilterById(ms, id) {
        FilterByIdSnoc(q, x, id);
        FilterByIdFacts(q, id);
      }
    }
  }

  // ----- Nothing lost, nothing duplicated -----

  /** The records of all groups, group after group. */
  function Flatten(gs: seq<seq<Matchup>>): seq<Matchup> {
    if gs == [] then [] else Flatten(gs[..|gs| - 1]) + gs[|gs| - 1]
  }

  /** The records of each id of `ks`, one sequence per id. */
  function Filtered(ks: seq<nat>, ms: seq<Matchup>): seq<seq<Matchup>> {
    seq(|ks|, i requires 0 <= i < |ks| => FilterById(ms, ks[i]))
  }

  lemma FlattenLast(gs: seq<seq<Matchup>>)
    requires gs != []
    ensures multiset(Flatten(gs)) == multiset(Flatten(gs[..|gs| - 1])) + multiset(gs[|gs| - 1])
  {
  }

  lemma FilteredLast(ks: seq<nat>, ms: seq<Matchup>)
    requires ks != []
    ensures Filtered(ks, ms)[..|ks| - 1] == Filtered(ks[..|ks| - 1], ms)
    ensures Filtered(ks, ms)[|ks| - 1] == FilterById(ms, ks[|ks| - 1])
  {
  }

  /** The id is either the last one or among the earlier ones, not both. */
  lemma LastIdSplit(ks: seq<nat>, id: nat)
    requires ks != [] && NoDuplicates(ks)
    ensures NoDuplicates(ks[..|ks| - 1])
    ensures id in ks <==> id in ks[..|ks| - 1] || id == ks[|ks| - 1]
    ensures id == ks[|ks| - 1] ==> id !in ks[..|ks| - 1]
  {
    assert ks == ks[..|ks| - 1] + [ks[|ks| - 1]];
  }

  /** Grouping by distinct ids keeps each record of a listed id as often as it occurs. */
  lemma {:induction false} FilteredCount(ks: seq<nat>, ms: seq<Matchup>, y: Matchup)
    requires NoDuplicates(ks)
    ensures multiset(Flatten(Filtered(ks, ms)))[y] == if y.matchupId in ks then multiset(ms)[y] else 0
  {
    if ks != [] {
      var n := |ks| - 1;
      LastIdSplit(ks, y.matchupId);
      FilteredLast(ks, ms);
      FlattenLast(Filtered(ks, ms));
      FilteredCount(ks[..n], ms, y);
      FilterByIdFacts(ms, ks[n]);
    }
  }

  /** Grouping by distinct ids that cover every record keeps each record exactly once. */
  lemma FilteredCovers(ks: seq<nat>, ms: seq<Matchup>)
    requires NoDuplicates(ks)
    requires forall m :: m in ms ==> m.matchupId in ks
    ensures multiset(Flatten(Filtered(ks, ms))) == multiset(ms)
  {
    forall y ensures multiset(Flatten(Filtered(ks, ms)))[y] == multiset(ms)[y] {
      FilteredCount(ks, ms, y);
    }
  }

  lemma {:induction false} FlattenPermuted(gs: seq<seq<Matchup>>, hs: seq<seq<Matchup>>)
    requires |gs| == |hs|
    requires forall i :: 0 <= i < |gs| ==> multiset(gs[i]) == multiset(hs[i])
    ensures multiset(Flatten(gs)) == multiset(Flatten(hs))
  {
    if gs != [] {
      FlattenPermuted(gs[..|gs| - 1], hs[..|hs| - 1]);
    }
  }

  // ----- The groups -----

  /** Group `i` is the stably sorted records of the `i`-th smallest matchup id. */
  lemma PairsAreSortedFilters(ms: seq<Matchup>)
    ensures |MatchupPairs(ms)| == |AscendingKeys(MatchupIds(ms))|
    ensures forall i :: 0 <= i < |MatchupPairs(ms)| ==>
      MatchupPairs(ms)[i] == Sort(FilterById(ms, AscendingKeys(MatchupIds(ms))[i]), MatchupPointsAtLeast)
  {
    GroupedFacts(ms);
  }

  /** Group `i` is non-empty and holds only records of the `i`-th smallest id. */
  lemma GroupIds(ms: seq<Matchup>, i: nat)
    requires i < |MatchupPairs(ms)|
    ensures |MatchupPairs(ms)| == |AscendingKeys(MatchupIds(ms))|
    ensures MatchupPairs(ms)[i] != [] && MatchupPairs(ms)[i][0].matchupId == AscendingKeys(MatchupIds(ms))[i]
    ensures forall j :: 0 <= j < |MatchupPairs(ms)[i]| ==> MatchupPairs(ms)[i][j].matchupId == AscendingKeys(MatchupIds(ms))[i]
  {
    var ks: seq<nat> := AscendingKeys(MatchupIds(ms));
    PairsAreSortedFilters(ms);
    var f := FilterById(ms, ks[i]);
    var p: seq<Matchup> := MatchupPairs(ms)[i];
    assert p == Sort(f, MatchupPointsAtLeast);
    FilterByIdFacts(ms, ks[i]);
    forall j | 0 <= j < |p| ensures p[j].matchupId == ks[i] {
      assert p[j] in multiset(f);
    }
  }

  /** Group `i` is non-empty, holds the records of the `i`-th smallest id and no others,
      ordered by score with equal scores in input order. */
  lemma GroupFacts(ms: seq<Matchup>, i: nat)
    requires i < |MatchupPairs(ms)|
    ensures |MatchupPairs(ms)| == |AscendingKeys(MatchupIds(ms))|
    ensures MatchupPairs(ms)[i] != [] && MatchupPairs(ms)[i][0].matchupId == AscendingKeys(MatchupIds(ms))[i]
    ensures multiset(MatchupPairs(ms)[i]) == multiset(FilterById(ms, AscendingKeys(MatchupIds(ms))[i]))
    ensures SortedBy(MatchupPairs(ms)[i], MatchupPointsAtLeast)
    ensures forall x ::
      Ties(MatchupPairs(ms)[i], x, MatchupPointsAtLeast) ==
      Ties(FilterById(ms, AscendingKeys(MatchupIds(ms))[i]), x, MatchupPointsAtLeast)
  {
    var ks: seq<nat> := AscendingKeys(MatchupIds(ms));
    GroupIds(ms, i);
    PairsAreSortedFilters(ms);
    MatchupPointsAtLeastOrders();
    var f := FilterById(ms, ks[i]);
    var p: seq<Matchup> := MatchupPairs(ms)[i];
    assert p == Sort(f, MatchupPointsAtLeast);
    SortSorted(f, MatchupPointsAtLeast);
    forall x ensures Ties(p, x, MatchupPointsAtLeast) == Ties(f, x, MatchupPointsAtLeast) {
      SortStable(f, x, MatchupPointsAtLeast);
    }
  }

  /** Every group is non-empty and all its records share the group's id. */
  lemma GroupsShareIds(ms: seq<Matchup>)
    ensures forall i :: 0 <= i < |MatchupPairs(ms)| ==> MatchupPairs(ms)[i] != []
    ensures forall i, j :: 0 <= i < |MatchupPairs(ms)| && 0 <= j < |MatchupPairs(ms)[i]| ==>
      MatchupPairs(ms)[i][j].matchupId == MatchupPairs(ms)[i][0].matchupId
  {
    forall i | 0 <= i < |MatchupPairs(ms)|
      ensures MatchupPairs(ms)[i] != []
      ensures forall j :: 0 <= j < |MatchupPairs(ms)[i]| ==> MatchupPairs(ms)[i][j].matchupId == MatchupPairs(ms)[i][0].matchupId
    {
      GroupIds(ms, i);
    }
  }

  /** The group ids ascend. */
  lemma GroupsAscend(ms: seq<Matchup>)
    ensures forall i :: 0 <= i < |MatchupPairs(ms)| ==> MatchupPairs(ms)[i] != []
    ensures forall i, j :: 0 <= i < j < |MatchupPairs(ms)| ==>
      MatchupPairs(ms)[i][0].matchupId < MatchupPairs(ms)[j][0].matchupId
  {
    var ks: seq<nat> := AscendingKeys(MatchupIds(ms));
    var ps: seq<seq<Matchup>> := MatchupPairs(ms);
    PairsAreSortedFilters(ms);
    forall i | 0 <= i < |ps| ensures ps[i] != [] && ps[i][0].matchupId == ks[i] {
      GroupIds(ms, i);
    }
  }

  /** The groups follow the matchup ids: none is empty, all records of a group share its
      id, the ids ascend from group to group, and every record's id has a group. */
  lemma MatchupPairsByIds(ms: seq<Matchup>)
    ensures ms == [] <==> MatchupPairs(ms) == []
    ensures forall i :: 0 <= i < |MatchupPairs(ms)| ==> MatchupPairs(ms)[i] != []
    ensures forall i, j :: 0 <= i < |MatchupPairs(ms)| && 0 <= j < |MatchupPairs(ms)[i]| ==>
      MatchupPairs(ms)[i][j].matchupId == MatchupPairs(ms)[i][0].matchupId
    ensures forall i, j :: 0 <= i < j < |MatchupPairs(ms)| ==>
      MatchupPairs(ms)[i][0].matchupId < MatchupPairs(ms)[j][0].matchupId
    ensures forall m :: m in ms ==>
      exists i :: 0 <= i < |MatchupPairs(ms)| && MatchupPairs(ms)[i][0].matchupId == m.matchupId
  {
    GroupsShareIds(ms);
    GroupsAscend(ms);
    PairsCover(ms);
    PairsAreSortedFilters(ms);
    if ms != [] {
      assert ms[0].matchupId in MatchupIds(ms);
    }
  }

  /** The groups partition the records: each holds exactly the records of its id, and
      together they hold every record once. */
  lemma MatchupPairsPartition(ms: seq<Matchup>)
    ensures forall i :: 0 <= i < |MatchupPairs(ms)| ==>
      MatchupPairs(ms)[i] != [] &&
      multiset(MatchupPairs(ms)[i]) == multiset(FilterById(ms, MatchupPairs(ms)[i][0].matchupId))
    ensures multiset(Flatten(MatchupPairs(ms))) == multiset(ms)
  {
    var ks: seq<nat> := AscendingKeys(MatchupIds(ms));
    var ps: seq<seq<Matchup>> := MatchupPairs(ms);
    PairsAreSortedFilters(ms);
    forall i | 0 <= i < |ps|
      ensures ps[i] != [] && ps[i][0].matchupId == ks[i]
      ensures multiset(ps[i]) == multiset(Filtered(ks, ms)[i])
    {
      GroupFacts(ms, i);
    }
    assert NoDuplicates(ks);
    FlattenPermuted(ps, Filtered(ks, ms));
    FilteredCovers(ks, ms);
  }

  /** Each group is ordered by score, highest first, and records with equal scores keep
      their input order. */
  lemma MatchupPairsOrdered(ms: seq<Matchup>)
    ensures forall i :: 0 <= i < |MatchupPairs(ms)| ==> SortedBy(MatchupPairs(ms)[i], MatchupPointsAtLeast)
    ensures forall i, x :: 0 <= i < |MatchupPairs(ms)| && MatchupPairs(ms)[i] != [] ==>
      Ties(MatchupPairs(ms)[i], x, MatchupPointsAtLeast) ==
      Ties(FilterById(ms, MatchupPairs(ms)[i][0].matchupId), x, MatchupPointsAtLeast)
  {
    forall i | 0 <= i < |MatchupPairs(ms)|
      ensures SortedBy(MatchupPairs(ms)[i], MatchupPointsAtLeast)
      ensures MatchupPairs(ms)[i] != [] && forall x ::
        Ties(MatchupPairs(ms)[i], x, MatchupPointsAtLeast) ==
        Ties(FilterById(ms, MatchupPairs(ms)[i][0].matchupId), x, MatchupPointsAtLeast)
    {
      GroupFacts(ms, i);
    }
  }

  /** Every record's id has a group. */
  lemma PairsCover(ms: seq<Matchup>)
    ensures forall m :: m in ms ==>
      exists i :: 0 <= i < |MatchupPairs(ms)| && MatchupPairs(ms)[i] != [] && MatchupPairs(ms)[i][0].matchupId == m.matchupId
  {
    var ks: seq<nat> := AscendingKeys(MatchupIds(ms));
    PairsAreSortedFilters(ms);
    forall m | m in ms
      ensures exists i :: 0 <= i < |MatchupPairs(ms)| && MatchupPairs(ms)[i] != [] && MatchupPairs(ms)[i][0].matchupId == m.matchupId
    {
      assert m.matchupId in MatchupIds(ms);
      var i :| 0 <= i < |ks| && ks[i] == m.matchupId;
      GroupIds(ms, i);
    }
  }

  // ----- Winner and cards -----

  /** The first two records of a group of two or more share the id, the first scoring at
      least as much. */
  lemma GroupHead(ms: seq<Matchup>, i: nat)
    requires i < |MatchupPairs(ms)| && |MatchupPairs(ms)[i]| >= 2
    ensures MatchupPairs(ms)[i][0].matchupId == MatchupPairs(ms)[i][1].matchupId
    ensures MatchupPairs(ms)[i][0].points >= MatchupPairs(ms)[i][1].points
  {
    GroupIds(ms, i);
    GroupFacts(ms, i);
  }

  /** The winner does not depend on which team is listed first. */
  lemma WinnerSymmetric(team1: Matchup, team2: Matchup)
    ensures Winner(team1, team2) == Winner(team2, team1)
  {
  }

  /** The empty-week message shows exactly when there are no records. Otherwise there is
      one card per group: a bye card for a group of one, else a card of the group's two
      highest scorers, clicking through to the group's matchup id, on which the first team
      is marked the winner exactly when it scores strictly more, and the second team only
      when it shares the first's roster id. */
  lemma MatchupsViewFacts(ms: seq<Matchup>, rosters: seq<Roster>, users: seq<User>)
    ensures MatchupsView(ms, rosters, users).NoMatchups? <==> ms == []
    ensures MatchupsView(ms, rosters, users).Grid? ==>
      |MatchupsView(ms, rosters, users).cards| == |MatchupPairs(ms)| &&
      forall i :: 0 <= i < |MatchupPairs(ms)| ==>
        MatchupsView(ms, rosters, users).cards[i].Some? &&
        (MatchupsView(ms, rosters, users).cards[i].value.ByeCard? <==> |MatchupPairs(ms)[i]| == 1)
    ensures MatchupsView(ms, rosters, users).Grid? ==>
      forall i :: 0 <= i < |MatchupsView(ms, rosters, users).cards| &&
                  MatchupsView(ms, rosters, users).cards[i].Some? &&
                  MatchupsView(ms, rosters, users).cards[i].value.PairCard? ==>
        var c := MatchupsView(ms, rosters, users).cards[i].value;
        c.team1 == MatchupPairs(ms)[i][0] && c.team2 == MatchupPairs(ms)[i][1] &&
        c.matchupId == c.team1.matchupId && c.team2.matchupId == c.matchupId &&
        c.team1.points >= c.team2.points &&
        (c.winner.None? || c.winner == Some(c.team1)) &&
        (c.team1Wins <==> c.team1.points > c.team2.points) &&
        (c.team2Wins <==> c.team1.points > c.team2.points && c.team1.rosterId == c.team2.rosterId)
  {
    if ms != [] {
      var ps: seq<seq<Matchup>> := MatchupPairs(ms);
      var cards := MatchupsView(ms, rosters, users).cards;
      GroupsShareIds(ms);
      forall i | 0 <= i < |cards| && cards[i].Some? && cards[i].value.PairCard?
        ensures cards[i].value.team1 == ps[i][0] && cards[i].value.team2 == ps[i][1]
        ensures cards[i].value.matchupId == ps[i][0].matchupId == ps[i][1].matchupId
        ensures ps[i][0].points >= ps[i][1].points
      {
        assert cards[i] == CardOf(ps[i], rosters, users);
        GroupHead(ms, i);
      }
    }
  }
}
