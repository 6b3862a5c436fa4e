/** What the best-ball engine guarantees: the shape of the position requirements, the
    greedy choice each requirement makes, and the lineup and matchup record it produces. */
module BestBallFacts {
  import opened Wrappers
  import opened Seqs
  import opened StableSort
  import opened Sleeper
  import opened BestBall

  // ----- Position requirements -----

  lemma {:induction false} CountedEmpty(d: seq<string>)
    ensures TotalCount(Counted(d, [])) == 0
  {
    if d != [] {
      var n := |d| - 1;
      assert Counted(d, [])[..n] == Counted(d[..n], []);
      CountedEmpty(d[..n]);
    }
  }

  /** One more template token adds one slot to the requirement that counts it. */
  lemma {:induction false} CountedSnoc(d: seq<string>, t: seq<string>, x: string)
    requires NoDuplicates(d)
    ensures TotalCount(Counted(d, t + [x])) == TotalCount(Counted(d, t)) + (if x in d then 1 else 0)
  {
    if d != [] {
      var n := |d| - 1;
      assert Counted(d, t + [x])[..n] == Counted(d[..n], t + [x]);
      assert Counted(d, t)[..n] == Counted(d[..n], t);
      assert NoDuplicates(d[..n]);
      CountedSnoc(d[..n], t, x);
      assert multiset(t + [x]) == multiset(t) + multiset{x};
      assert d == d[..n] + [d[n]];
      assert x == d[n] ==> x !in d[..n];
    }
  }

  /** Distinct tokens covering the template count every template token once. */
  lemma {:induction false} CountedTotal(d: seq<string>, t: seq<string>)
    requires NoDuplicates(d)
    requires forall y :: y in t ==> y in d
    ensures TotalCount(Counted(d, t)) == |t|
  {
    if t == [] {
      CountedEmpty(d);
    } else {
      var q := t[..|t| - 1];
      assert t == q + [t[|t| - 1]];
      CountedTotal(d, q);
      CountedSnoc(d, q, t[|t| - 1]);
    }
  }

  /** The requirements list each distinct template token once, in first-seen order, with
      its number of occurrences; their counts add up to the template's length. */
  lemma RequirementsFacts(t: seq<string>)
    ensures t == [] ==> Requirements(t) == []
    ensures forall p :: p in t <==> exists i :: 0 <= i < |Requirements(t)| && Requirements(t)[i].position == p
    ensures forall i, j :: 0 <= i < j < |Requirements(t)| ==> Requirements(t)[i].position != Requirements(t)[j].position
    ensures forall i, j :: 0 <= i < j < |Requirements(t)| ==>
      IndexOf(t, Requirements(t)[i].position) < IndexOf(t, Requirements(t)[j].position)
    ensures forall i :: 0 <= i < |Requirements(t)| ==>
      Requirements(t)[i].count == multiset(t)[Requirements(t)[i].position] && Requirements(t)[i].count > 0
    ensures TotalCount(Requirements(t)) == |t|
  {
    var d := Dedup(t);
    forall p | p in t
      ensures exists i :: 0 <= i < |Requirements(t)| && Requirements(t)[i].position == p
    {
      var i := IndexOf(d, p);
      assert Requirements(t)[i].position == p;
    }
    DedupFirstSeen(t);
    CountedTotal(d, t);
  }

  // ----- One requirement's scan over the pool -----

  /** A pool entry that may take a slot of token `slot` while the ids in `used` are taken. */
  predicate Eligible(slot: string, used: set<string>, c: Candidate) {
    c.id !in used && CanFill(slot, c.position)
  }

  lemma IdsMembership(cs: seq<Candidate>)
    ensures |Ids(cs)| == |cs|
    ensures forall x :: x in Ids(cs) <==> x in IdSet(cs)
  {
    forall x | x in IdSet(cs) ensures x in Ids(cs) {
      var c :| c in cs && c.id == x;
      var i :| 0 <= i < |cs| && cs[i] == c;
      assert Ids(cs)[i] == x;
    }
  }

  /** What the scan over the first `j` pool entries has taken: no more than `count`
      entries, no id twice, only eligible entries of the pool, and it has passed over an
      eligible entry with a new id only once full. */
  lemma {:induction false} ScanFacts(pool: seq<Candidate>, slot: string, count: nat, used: set<string>, j: nat)
    requires j <= |pool|
    ensures |ScanAfter(pool, slot, count, used, j)| <= count
    ensures NoDuplicates(Ids(ScanAfter(pool, slot, count, used, j)))
    ensures forall c :: c in ScanAfter(pool, slot, count, used, j) ==> c in pool[..j] && Eligible(slot, used, c)
    ensures forall k :: 0 <= k < j && Eligible(slot, used, pool[k]) && pool[k].id !in IdSet(ScanAfter(pool, slot, count, used, j)) ==>
      |ScanAfter(pool, slot, count, used, j)| == count
  {
    if j > 0 {
      var s := ScanAfter(pool, slot, count, used, j - 1);
      var c := pool[j - 1];
      ScanFacts(pool, slot, count, used, j - 1);
      assert pool[..j] == pool[..j - 1] + [c];
      if |s| < count && c.id !in used && c.id !in IdSet(s) && CanFill(slot, c.position) {
        IdsAppend(s, [c]);
        IdsMembership(s);
        assert Ids([c]) == [c.id];
        assert IdSet([c]) == {c.id};
      }
    }
  }

  /** A scan only grows, and once full it stays as it is. */
  lemma {:induction false} ScanGrows(pool: seq<Candidate>, slot: string, count: nat, used: set<string>, j: nat, j': nat)
    requires j <= j' <= |pool|
    ensures ScanAfter(pool, slot, count, used, j) <= ScanAfter(pool, slot, count, used, j')
    ensures |ScanAfter(pool, slot, count, used, j)| >= count ==>
      ScanAfter(pool, slot, count, used, j') == ScanAfter(pool, slot, count, used, j)
  {
    if j < j' {
      ScanGrows(pool, slot, count, used, j, j' - 1);
    }
  }

  /** A requirement takes at most its count, never an id twice, and only eligible entries
      of the pool; it stays short of its count only when every eligible entry's id was taken. */
  lemma FillFacts(pool: seq<Candidate>, slot: string, count: nat, used: set<string>)
    ensures |Fill(pool, slot, count, used)| <= count
    ensures NoDuplicates(Ids(Fill(pool, slot, count, used)))
    ensures forall c :: c in Fill(pool, slot, count, used) ==> c in pool && Eligible(slot, used, c)
    ensures |Fill(pool, slot, count, used)| < count ==>
      forall k :: 0 <= k < |pool| && Eligible(slot, used, pool[k]) ==> pool[k].id in IdSet(Fill(pool, slot, count, used))
  {
    ScanFacts(pool, slot, count, used, |pool|);
    assert pool[..|pool|] == pool;
  }

  /** Over a pool sorted by score, a requirement takes its entries highest score first, and
      every eligible entry it passes over scores no more than any entry it took. */
  lemma FillGreedy(pool: seq<Candidate>, slot: string, count: nat, used: set<string>)
    requires SortedBy(pool, PointsAtLeast)
    ensures SortedBy(Fill(pool, slot, count, used), PointsAtLeast)
    ensures forall i, k ::
      (0 <= i < |Fill(pool, slot, count, used)| && 0 <= k < |pool| &&
       Eligible(slot, used, pool[k]) && pool[k].id !in IdSet(Fill(pool, slot, count, used))) ==>
      Fill(pool, slot, count, used)[i].points >= pool[k].points
  {
    ScanSorted(pool, slot, count, used, |pool|);
    var f := Fill(pool, slot, count, used);
    forall i, k | 0 <= i < |f| && 0 <= k < |pool| && Eligible(slot, used, pool[k]) && pool[k].id !in IdSet(f)
      ensures f[i].points >= pool[k].points
    {
      FullBeforePassed(pool, slot, count, used, k);
      ScanFacts(pool, slot, count, used, k);
      assert f[i] in pool[..k];
      var x :| 0 <= x < k && pool[x] == f[i];
    }
  }

  /** An eligible entry the scan reaches while it still has room ends up among the ids
      of the final choice: it was taken then, or its id already had been. */
  lemma ScanRoomTakes(pool: seq<Candidate>, slot: string, count: nat, used: set<string>, k: nat)
    requires k < |pool| && Eligible(slot, used, pool[k])
    requires |ScanAfter(pool, slot, count, used, k)| < count
    ensures pool[k].id in IdSet(Fill(pool, slot, count, used))
  {
    var s := ScanAfter(pool, slot, count, used, k);
    var f := Fill(pool, slot, count, used);
    if pool[k].id in IdSet(s) {
      ScanGrows(pool, slot, count, used, k, |pool|);
      var c :| c in s && c.id == pool[k].id;
      var x :| 0 <= x < |s| && s[x] == c;
      assert f[x] == c;
    } else {
      assert ScanAfter(pool, slot, count, used, k + 1) == s + [pool[k]];
      ScanGrows(pool, slot, count, used, k + 1, |pool|);
      assert f[|s|] == pool[k];
    }
  }

  /** An eligible entry the requirement passes over comes after the point where the scan was
      already full: the final choice is the scan up to that entry. */
  lemma FullBeforePassed(pool: seq<Candidate>, slot: string, count: nat, used: set<string>, k: nat)
    requires k < |pool| && Eligible(slot, used, pool[k]) && pool[k].id !in IdSet(Fill(pool, slot, count, used))
    ensures Fill(pool, slot, count, used) == ScanAfter(pool, slot, count, used, k)
  {
    ScanGrows(pool, slot, count, used, k, |pool|);
    if |ScanAfter(pool, slot, count, used, k)| < count {
      ScanRoomTakes(pool, slot, count, used, k);
    }
  }

  lemma {:induction false} ScanSorted(pool: seq<Candidate>, slot: string, count: nat, used: set<string>, j: nat)
    requires j <= |pool|
    requires SortedBy(pool, PointsAtLeast)
    ensures SortedBy(ScanAfter(pool, slot, count, used, j), PointsAtLeast)
  {
    if j > 0 {
      var s := ScanAfter(pool, slot, count, used, j - 1);
      ScanSorted(pool, slot, count, used, j - 1);
      ScanFacts(pool, slot, count, used, j - 1);
      forall i | 0 <= i < |s| ensures s[i].points >= pool[j - 1].points {
        assert s[i] in pool[..j - 1];
        var x :| 0 <= x < j - 1 && pool[x] == s[i];
      }
    }
  }

  // ----- The lineup over all requirements -----

  /** The lineup after `k` requirements holds no id twice, at most the slots they ask for,
      and only pool entries that one of those requirements accepts. */
  lemma {:induction false} LineupAfterFacts(pool: seq<Candidate>, reqs: seq<Requirement>, k: nat)
    requires k <= |reqs|
    ensures NoDuplicates(Ids(LineupAfter(pool, reqs, k)))
    ensures |LineupAfter(pool, reqs, k)| <= TotalCount(reqs[..k])
    ensures forall c :: c in LineupAfter(pool, reqs, k) ==>
      c in pool && exists r :: r in reqs[..k] && CanFill(r.position, c.position)
  {
    if k > 0 {
      var before := LineupAfter(pool, reqs, k - 1);
      var req := reqs[k - 1];
      var f := Fill(pool, req.position, req.count, IdSet(before));
      LineupAfterFacts(pool, reqs, k - 1);
      FillFacts(pool, req.position, req.count, IdSet(before));
      IdsAppend(before, f);
      IdsMembership(before);
      IdsMembership(f);
      NoDuplicatesAppend(Ids(before), Ids(f));
      assert reqs[..k][..k - 1] == reqs[..k - 1];
      assert reqs[..k] == reqs[..k - 1] + [req];
    }
  }

  lemma LineupFacts(pool: seq<Candidate>, reqs: seq<Requirement>)
    ensures NoDuplicates(Ids(Lineup(pool, reqs)))
    ensures |Lineup(pool, reqs)| <= TotalCount(reqs)
    ensures forall c :: c in Lineup(pool, reqs) ==>
      c in pool && exists r :: r in reqs && CanFill(r.position, c.position)
  {
    LineupAfterFacts(pool, reqs, |reqs|);
    assert reqs[..|reqs|] == reqs;
  }

  // ----- The pool -----

  /** The pool holds one entry per rostered id and nothing else, each with its score (0
      when missing) and its position ('UNKNOWN' when unknown); it is ordered by score,
      highest first, and entries with equal scores keep their roster order. */
  lemma PoolFacts(ids: seq<string>, points: map<string, real>, table: map<string, Player>)
    ensures |Pool(ids, points, table)| == |ids|
    ensures multiset(Pool(ids, points, table)) == multiset(Candidates(ids, points, table))
    ensures forall i :: 0 <= i < |ids| ==>
      Candidate(ids[i], ScoreOrZero(points, ids[i]), PositionOf(table, ids[i]).GetOr("UNKNOWN")) in Pool(ids, points, table)
    ensures forall c :: c in Pool(ids, points, table) ==>
      c.id in ids && c.points == ScoreOrZero(points, c.id) && c.position == PositionOf(table, c.id).GetOr("UNKNOWN")
    ensures SortedBy(Pool(ids, points, table), PointsAtLeast)
    ensures forall c :: Ties(Pool(ids, points, table), c, PointsAtLeast) == Ties(Candidates(ids, points, table), c, PointsAtLeast)
  {
    var cs := Candidates(ids, points, table);
    PointsAtLeastOrders();
    SortSorted(cs, PointsAtLeast);
    forall c ensures Ties(Pool(ids, points, table), c, PointsAtLeast) == Ties(cs, c, PointsAtLeast) {
      SortStable(cs, c, PointsAtLeast);
    }
    forall i | 0 <= i < |ids|
      ensures Candidate(ids[i], ScoreOrZero(points, ids[i]), PositionOf(table, ids[i]).GetOr("UNKNOWN")) in Pool(ids, points, table)
    {
      assert cs[i] in multiset(cs);
    }
    forall c | c in Pool(ids, points, table)
      ensures c.id in ids && c.points == ScoreOrZero(points, c.id) && c.position == PositionOf(table, c.id).GetOr("UNKNOWN")
    {
      assert c in multiset(cs);
      var i :| 0 <= i < |cs| && cs[i] == c;
    }
  }

  // ----- The lineup calculation and the swapped record -----

  /** The greedy lineup over a roster's pool for template `t`: distinct rostered ids, each
      with its own score, no more than `t` has slots, each accepted by one of `t`'s tokens. */
  lemma ChosenFacts(ids: seq<string>, points: map<string, real>, table: map<string, Player>, t: seq<string>)
    ensures NoDuplicates(Ids(Lineup(Pool(ids, points, table), Requirements(t))))
    ensures |Lineup(Pool(ids, points, table), Requirements(t))| <= |t|
    ensures forall c :: c in Lineup(Pool(ids, points, table), Requirements(t)) ==>
      c.id in ids && c.points == ScoreOrZero(points, c.id) &&
      exists tok :: tok in t && CanFill(tok, PositionOf(table, c.id).GetOr("UNKNOWN"))
  {
    var pool := Pool(ids, points, table);
    var reqs := Requirements(t);
    PoolFacts(ids, points, table);
    LineupFacts(pool, reqs);
    RequirementsFacts(t);
    forall c | c in Lineup(pool, reqs)
      ensures exists tok :: tok in t && CanFill(tok, PositionOf(table, c.id).GetOr("UNKNOWN"))
    {
      var req :| req in reqs && CanFill(req.position, c.position);
      var k :| 0 <= k < |reqs| && reqs[k] == req;
      assert req.position in t;
    }
  }

  /** The lineup is empty when an input is missing; otherwise its ids are distinct rostered
      players, each listed with its own score, no more than the template has slots, each
      accepted by one of the template's tokens; the total is the scores' sum. */
  lemma BestBallLineupFacts(m: Matchup, table: map<string, Player>, league: Option<League>)
    ensures m.players.None? || m.playersPoints.None? || league.None? || league.value.rosterPositions.None? ==>
      BestBallLineup(m, table, league) == LineupResult([], [], 0.0)
    ensures |BestBallLineup(m, table, league).starters| == |BestBallLineup(m, table, league).startersPoints|
    ensures BestBallLineup(m, table, league).totalPoints == Sum(BestBallLineup(m, table, league).startersPoints)
    ensures NoDuplicates(BestBallLineup(m, table, league).starters)
    ensures m.players.Some? && m.playersPoints.Some? ==>
      forall i :: 0 <= i < |BestBallLineup(m, table, league).starters| ==>
        BestBallLineup(m, table, league).starters[i] in m.players.value &&
        BestBallLineup(m, table, league).startersPoints[i] == ScoreOrZero(m.playersPoints.value, BestBallLineup(m, table, league).starters[i])
    ensures league.Some? && league.value.rosterPositions.Some? ==>
      |BestBallLineup(m, table, league).starters| <= |league.value.rosterPositions.value| &&
      forall i :: 0 <= i < |BestBallLineup(m, table, league).starters| ==>
        exists tok :: tok in league.value.rosterPositions.value &&
          CanFill(tok, PositionOf(table, BestBallLineup(m, table, league).starters[i]).GetOr("UNKNOWN"))
  {
    if !(m.players.None? || m.playersPoints.None? || league.None? || league.value.rosterPositions.None?) {
      var chosen := Lineup(Pool(m.players.value, m.playersPoints.value, table), Requirements(league.value.rosterPositions.value));
      ChosenFacts(m.players.value, m.playersPoints.value, table, league.value.rosterPositions.value);
      IdsMembership(chosen);
      forall i | 0 <= i < |chosen| ensures chosen[i] in chosen { }
    }
  }

  /** In a best-ball league the swapped record lists distinct rostered starters, each with its
      own score, and its points are their sum. */
  lemma CreateBestBallMatchupFacts(m: Matchup, table: map<string, Player>, league: Option<League>)
    ensures IsBestBallLeague(league) ==>
      |CreateBestBallMatchup(m, table, league).starters| == |CreateBestBallMatchup(m, table, league).startersPoints| &&
      CreateBestBallMatchup(m, table, league).points == Sum(CreateBestBallMatchup(m, table, league).startersPoints) &&
      NoDuplicates(CreateBestBallMatchup(m, table, league).starters)
    ensures IsBestBallLeague(league) && m.players.Some? && m.playersPoints.Some? ==>
      forall i :: 0 <= i < |CreateBestBallMatchup(m, table, league).starters| ==>
        CreateBestBallMatchup(m, table, league).starters[i] in m.players.value &&
        CreateBestBallMatchup(m, table, league).startersPoints[i] ==
          ScoreOrZero(m.playersPoints.value, CreateBestBallMatchup(m, table, league).starters[i])
  {
    BestBallLineupFacts(m, table, league);
  }
}
