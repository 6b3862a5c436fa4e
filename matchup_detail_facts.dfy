/** What the detail view guarantees: which records it shows, how the winner is marked, and
    how a team's players split into starters and bench. */
module MatchupDetailFacts {
  import opened Wrappers
  import opened Seqs
  import opened Sleeper
  import opened Teams
  import opened Matchups
  import opened MatchupsFacts
  import opened BestBall
  import opened BestBallFacts
  import opened MatchupDetail

  // ----- The records of the requested id, in input order -----

  lemma {:induction false} FilterByIdAppend(a: seq<Matchup>, b: seq<Matchup>, id: nat)
    ensures FilterById(a + b, id) == FilterById(a, id) + FilterById(b, id)
  {
    if b == [] {
      assert a + b == a;
    } else {
      var q, x := b[..|b| - 1], b[|b| - 1];
      assert (a + b)[..|a + b| - 1] == a + q;
      assert (a + b)[|a + b| - 1] == x;
      FilterByIdAppend(a, q, id);
    }
  }

  /** No record before `i + 1 + j'` other than the one at `i` has the id, when none of
      `ms[..i]` and none of `rest[..j']` has it. */
  lemma NoneBetween(ms: seq<Matchup>, rest: seq<Matchup>, id: nat, i: nat, j': nat)
    requires i < |ms| && rest == ms[i + 1..]
    requires forall k :: 0 <= k < i ==> ms[k].matchupId != id
    requires j' < |rest| && forall k :: 0 <= k < j' ==> rest[k].matchupId != id
    ensures forall k :: 0 <= k < i + 1 + j' && k != i ==> ms[k].matchupId != id
  {
    forall k | 0 <= k < i + 1 + j' && k != i ensures ms[k].matchupId != id {
      if k > i { assert ms[k] == rest[k - i - 1]; }
    }
  }

  lemma FilterCons(ms: seq<Matchup>, id: nat)
    requires ms != []
    ensures FilterById(ms, id) == (if ms[0].matchupId == id then [ms[0]] else []) + FilterById(ms[1..], id)
  {
    assert ms == [ms[0]] + ms[1..];
    FilterByIdAppend([ms[0]], ms[1..], id);
    assert FilterById([ms[0]], id) == FilterById([], id) + (if ms[0].matchupId == id then [ms[0]] else []);
  }

  /** `ms[i]` is the first record of the id: the head of the filter, with the rest of the
      filter coming from the records after it. */
  predicate FirstAt(ms: seq<Matchup>, id: nat, i: int) {
    && 0 <= i < |ms|
    && FilterById(ms, id) != []
    && ms[i] == FilterById(ms, id)[0]
    && ms[i].matchupId == id
    && (forall k :: 0 <= k < i ==> ms[k].matchupId != id)
    && FilterById(ms, id)[1..] == FilterById(ms[i + 1..], id)
  }

  /** The first record of the filter is the first record of the id, and the rest of the
      filter is the filter of what follows it. */
  lemma {:induction false} FilterFront(ms: seq<Matchup>, id: nat)
    requires FilterById(ms, id) != []
    ensures exists i :: FirstAt(ms, id, i)
  {
    FilterCons(ms, id);
    var rest := ms[1..];
    if ms[0].matchupId == id {
      assert ms[0 + 1..] == rest;
      assert FirstAt(ms, id, 0);
    } else {
      FilterFront(rest, id);
      var i :| FirstAt(rest, id, i);
      FirstShift(ms, rest, id, i);
    }
  }

  /** A first record of the id in `ms[1..]` is one in `ms` too, one place later, when
      `ms[0]` does not have the id. */
  lemma FirstShift(ms: seq<Matchup>, rest: seq<Matchup>, id: nat, i: int)
    requires ms != [] && rest == ms[1..] && ms[0].matchupId != id
    requires FirstAt(rest, id, i)
    ensures FirstAt(ms, id, i + 1)
  {
    FilterCons(ms, id);
    NoneBetween(ms, rest, id, 0, i);
    assert rest[i + 1..] == ms[i + 2..];
    assert ms[i + 1] == rest[i];
  }

  lemma {:induction false} FilterNone(ms: seq<Matchup>, id: nat)
    ensures FilterById(ms, id) == [] <==> forall k :: 0 <= k < |ms| ==> ms[k].matchupId != id
  {
    FilterByIdFacts(ms, id);
    if FilterById(ms, id) == [] {
      forall k | 0 <= k < |ms| ensures ms[k].matchupId != id {
        assert ms[k] in ms;
      }
    } else {
      var m := FilterById(ms, id)[0];
      assert m in FilterById(ms, id);
      var k :| 0 <= k < |ms| && ms[k] == m;
    }
  }

  // ----- A team's player lines -----

  /** Starters are listed in lineup order with the score at their index, or 0; the bench
      holds exactly the rostered players that are not starters, each with its own score, or
      0; no player is on both lists. */
  lemma PlayerPointsFacts(m: Matchup)
    requires Renderable(m)
    ensures |RenderPlayerPoints(m).starters| == |m.starters|
    ensures forall i :: 0 <= i < |m.starters| ==>
      RenderPlayerPoints(m).starters[i].id == m.starters[i] &&
      RenderPlayerPoints(m).starters[i].points == (if i < |m.startersPoints| then m.startersPoints[i] else 0.0)
    ensures forall x :: (exists j :: 0 <= j < |RenderPlayerPoints(m).bench| && RenderPlayerPoints(m).bench[j].id == x) <==>
      x in m.players.value && x !in m.starters
    ensures forall i, j :: 0 <= i < |RenderPlayerPoints(m).starters| && 0 <= j < |RenderPlayerPoints(m).bench| ==>
      RenderPlayerPoints(m).starters[i].id != RenderPlayerPoints(m).bench[j].id
    ensures m.playersPoints.Some? ==> forall j :: 0 <= j < |RenderPlayerPoints(m).bench| ==>
      RenderPlayerPoints(m).bench[j].points == ScoreOrZero(m.playersPoints.value, RenderPlayerPoints(m).bench[j].id)
  {
    var r := RenderPlayerPoints(m);
    var bench := Without(m.players.value, m.starters);
    forall x | x in m.players.value && x !in m.starters
      ensures exists j :: 0 <= j < |r.bench| && r.bench[j].id == x
    {
      var j :| 0 <= j < |bench| && bench[j] == x;
      assert r.bench[j].id == x;
    }
    forall i, j | 0 <= i < |r.starters| && 0 <= j < |r.bench| ensures r.starters[i].id != r.bench[j].id {
      assert r.bench[j].id == bench[j] && bench[j] in bench;
      assert r.starters[i].id == m.starters[i];
    }
  }

  // ----- The view -----

  /** A single record of the id is the only one in the input. */
  lemma OnlyOne(ms: seq<Matchup>, id: nat)
    requires |FilterById(ms, id)| == 1
    ensures exists i ::
      0 <= i < |ms| && ms[i] == FilterById(ms, id)[0] &&
      forall k :: 0 <= k < |ms| ==> (ms[k].matchupId == id <==> k == i)
  {
    FilterFront(ms, id);
    var i :| FirstAt(ms, id, i);
    var rest := ms[i + 1..];
    FilterNone(rest, id);
    forall k | 0 <= k < |ms| && k > i ensures ms[k].matchupId != id {
      assert ms[k] == rest[k - i - 1];
    }
  }

  /** The first two records of the filter are the first two records of the id in the input. */
  lemma FirstTwo(ms: seq<Matchup>, id: nat)
    requires |FilterById(ms, id)| >= 2
    ensures exists i, j ::
      0 <= i < j < |ms| && ms[i] == FilterById(ms, id)[0] && ms[j] == FilterById(ms, id)[1] &&
      ms[i].matchupId == id && ms[j].matchupId == id &&
      forall k :: 0 <= k < j && k != i ==> ms[k].matchupId != id
  {
    var f := FilterById(ms, id);
    FilterFront(ms, id);
    var i :| FirstAt(ms, id, i);
    var rest := ms[i + 1..];
    var g := FilterById(rest, id);
    assert g == f[1..];
    assert g != [] && f[1] == g[0];
    FilterFront(rest, id);
    var j' :| FirstAt(rest, id, j');
    NoneBetween(ms, rest, id, i, j');
    var j := i + 1 + j';
    assert ms[j] == rest[j'];
    assert 0 <= i < j < |ms| && ms[i] == f[0] && ms[j] == f[1] && ms[i].matchupId == id && ms[j].matchupId == id;
  }

  /** Not found exactly when no record has the id; a bye exactly when one record has it,
      and that record is shown; otherwise the first and second records of the id in input
      order are shown. */
  lemma DetailRecords(ms: seq<Matchup>, rosters: seq<Roster>, users: seq<User>, id: nat)
    requires DetailRenderable(ms, id)
    ensures MatchupDetailView(ms, rosters, users, id).NotFound? <==>
      forall k :: 0 <= k < |ms| ==> ms[k].matchupId != id
    ensures MatchupDetailView(ms, rosters, users, id).ByeDetail? ==>
      exists i :: 0 <= i < |ms| && ms[i] == MatchupDetailView(ms, rosters, users, id).panel.team &&
        forall k :: 0 <= k < |ms| ==> (ms[k].matchupId == id <==> k == i)
    ensures MatchupDetailView(ms, rosters, users, id).PairDetail? ==>
      exists i, j :: 0 <= i < j < |ms| &&
        ms[i] == MatchupDetailView(ms, rosters, users, id).panel1.team &&
        ms[j] == MatchupDetailView(ms, rosters, users, id).panel2.team &&
        ms[i].matchupId == id && ms[j].matchupId == id &&
        forall k :: 0 <= k < j && k != i ==> ms[k].matchupId != id
  {
    FilterNone(ms, id);
    var n := |FilterById(ms, id)|;
    if n == 1 {
      OnlyOne(ms, id);
    } else if n >= 2 {
      FirstTwo(ms, id);
    }
  }

  /** Each panel shows its record's players and owner's display name. A bye has no winner.
      A head-to-head has no winner on equal scores and otherwise the strictly higher scorer;
      when the two roster ids differ, exactly that panel is marked. */
  lemma DetailWinner(ms: seq<Matchup>, rosters: seq<Roster>, users: seq<User>, id: nat)
    requires DetailRenderable(ms, id)
    ensures MatchupDetailView(ms, rosters, users, id).ByeDetail? ==>
      var p := MatchupDetailView(ms, rosters, users, id).panel;
      !p.isWinner && p.players == RenderPlayerPoints(p.team) &&
      p.name == DisplayLabel(UserByRosterId(rosters, users, p.team.rosterId))
    ensures MatchupDetailView(ms, rosters, users, id).PairDetail? ==>
      var v := MatchupDetailView(ms, rosters, users, id);
      var t1, t2 := v.panel1.team, v.panel2.team;
      v.panel1.players == RenderPlayerPoints(t1) && v.panel2.players == RenderPlayerPoints(t2) &&
      v.panel1.name == DisplayLabel(UserByRosterId(rosters, users, t1.rosterId)) &&
      v.panel2.name == DisplayLabel(UserByRosterId(rosters, users, t2.rosterId)) &&
      (v.winner.None? <==> t1.points == t2.points) &&
      (v.winner == Some(t1) <==> t1.points > t2.points) &&
      (v.winner == Some(t2) <==> t2.points > t1.points) &&
      (t1.points == t2.points ==> !v.panel1.isWinner && !v.panel2.isWinner) &&
      (t1.rosterId != t2.rosterId ==>
        (v.panel1.isWinner <==> t1.points > t2.points) && (v.panel2.isWinner <==> t2.points > t1.points))
  {
  }

  // ----- Best-ball records in the detail view -----

  /** In a best-ball league the detail view of a swapped record lists distinct rostered
      starters, each beside its own `players_points` score, none of them on the bench. */
  lemma BestBallStarterRows(m: Matchup, table: map<string, Player>, league: Option<League>)
    requires IsBestBallLeague(league) && m.players.Some? && m.playersPoints.Some?
    ensures Renderable(CreateBestBallMatchup(m, table, league))
    ensures var rows := RenderPlayerPoints(CreateBestBallMatchup(m, table, league));
      NoDuplicates(CreateBestBallMatchup(m, table, league).starters) &&
      forall i :: 0 <= i < |rows.starters| ==>
        rows.starters[i].id in m.players.value &&
        rows.starters[i].points == ScoreOrZero(m.playersPoints.value, rows.starters[i].id) &&
        forall j :: 0 <= j < |rows.bench| ==> rows.bench[j].id != rows.starters[i].id
  {
    var b := CreateBestBallMatchup(m, table, league);
    CreateBestBallMatchupFacts(m, table, league);
    PlayerPointsFacts(b);
  }
}
