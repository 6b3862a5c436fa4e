/** The live-teams endpoint: the abbreviations of the teams playing in in-progress games,
    read from a scoreboard, and the response for each outcome of the upstream request. */
module LiveTeams {
  import opened Wrappers
  import opened Seqs

  /** The parts of the scoreboard document the endpoint reads; every step of the path it
      follows with optional chaining is an `Option`. */
  datatype Team = Team(abbreviation: Option<string>)
  datatype Competitor = Competitor(team: Option<Team>)
  datatype Competition = Competition(state: Option<string>, competitors: Option<seq<Competitor>>)
  datatype Event = Event(competitions: Option<seq<Competition>>)
  datatype Scoreboard = Scoreboard(events: Option<seq<Event>>)

  /** The event's first competition, when it has one. */
  function FirstCompetition(e: Event): Option<Competition> {
    if e.competitions.Some? && |e.competitions.value| > 0 then Some(e.competitions.value[0]) else None
  }

  /** The first competition's state is `'in'`: the game is in progress. */
  predicate IsLive(e: Event) {
    var c := FirstCompetition(e);
    c.Some? && c.value.state == Some("in")
  }

  /** The competitors of the first competition; none when the list is missing. */
  function Competitors(e: Event): seq<Competitor> {
    var c := FirstCompetition(e);
    if c.Some? && c.value.competitors.Some? then c.value.competitors.value else []
  }

  /** The competitor's team abbreviation when it is present and non-empty. */
  function AbbrOf(c: Competitor): (a: Option<string>)
    ensures a.Some? ==> a.value != ""
  {
    if c.team.Some? && c.team.value.abbreviation.Some? && c.team.value.abbreviation.value != "" then
      c.team.value.abbreviation
    else None
  }

  /** The abbreviations of the competitors, in order, skipping missing and empty ones. */
  function CompetitorAbbrs(cs: seq<Competitor>): (r: seq<string>)
    ensures forall x :: x in r <==> exists c :: c in cs && AbbrOf(c) == Some(x)
  {
    if cs == [] then []
    else
      var c := cs[|cs| - 1];
      assert cs == cs[..|cs| - 1] + [c];
      CompetitorAbbrs(cs[..|cs| - 1]) + (if AbbrOf(c).Some? then [AbbrOf(c).value] else [])
  }

  /** The abbreviations of the live events' competitors, in event order, repeats kept. */
  function LiveAbbreviations(events: seq<Event>): seq<string> {
    if events == [] then []
    else
      var e := events[|events| - 1];
      LiveAbbreviations(events[..|events| - 1]) + (if IsLive(e) then CompetitorAbbrs(Competitors(e)) else [])
  }

  /** The team list of a scoreboard: the live abbreviations, each once, in first-seen order;
      a scoreboard without `events` has none. */
  function LiveTeamsOf(board: Scoreboard): seq<string> {
    Dedup(LiveAbbreviations(board.events.GetOr([])))
  }

  lemma LiveAbbreviationsStep(events: seq<Event>, i: nat)
    requires i < |events|
    ensures LiveAbbreviations(events[..i + 1]) ==
      LiveAbbreviations(events[..i]) + (if IsLive(events[i]) then CompetitorAbbrs(Competitors(events[i])) else [])
  {
    assert events[..i + 1][..i] == events[..i];
  }

  /** One competitor more: the list grows by its abbreviation exactly when it has one that
      is not yet listed. */
  lemma PushStep(before: seq<string>, cs: seq<Competitor>, j: nat, teams: seq<string>)
    requires j < |cs| && teams == Dedup(before + CompetitorAbbrs(cs[..j]))
    ensures var a := AbbrOf(cs[j]);
      Dedup(before + CompetitorAbbrs(cs[..j + 1])) == if a.Some? && a.value !in teams then teams + [a.value] else teams
  {
    assert cs[..j + 1][..j] == cs[..j];
    var seen := before + CompetitorAbbrs(cs[..j]);
    var a := AbbrOf(cs[j]);
    if a.Some? {
      assert before + CompetitorAbbrs(cs[..j + 1]) == seen + [a.value];
      DedupSnoc(seen, a.value);
    } else {
      assert before + CompetitorAbbrs(cs[..j + 1]) == seen;
    }
  }

  /** The extraction loop: walk the events; for a live one, walk its first competition's
      competitors and push each present abbreviation that is not yet listed. */
  method ExtractLiveTeams(board: Scoreboard) returns (teams: seq<string>)
    ensures teams == LiveTeamsOf(board)
  {
    teams := [];
    var events := board.events.GetOr([]);
    for i := 0 to |events|
      invariant teams == Dedup(LiveAbbreviations(events[..i]))
    {
      var event := events[i];
      ghost var before := LiveAbbreviations(events[..i]);
      LiveAbbreviationsStep(events, i);
      if IsLive(event) {
        var competitors := Competitors(event);
        assert before + CompetitorAbbrs(competitors[..0]) == before;
        for j := 0 to |competitors|
          invariant teams == Dedup(before + CompetitorAbbrs(competitors[..j]))
        {
          var abbr := AbbrOf(competitors[j]);
          PushStep(before, competitors, j, teams);
          if abbr.Some? && abbr.value !in teams {
            teams := teams + [abbr.value];
          }
        }
        assert competitors[..|competitors|] == competitors;
        assert LiveAbbreviations(events[..i + 1]) == before + CompetitorAbbrs(competitors);
      } else {
        assert LiveAbbreviations(events[..i + 1]) == before;
      }
    }
    assert events[..|events|] == events;
  }

  /** A live event contributes abbreviation `x` when one of its first competition's
      competitors has it. */
  predicate Contributes(e: Event, x: string) {
    IsLive(e) && exists c :: c in Competitors(e) && AbbrOf(c) == Some(x)
  }

  lemma {:induction false} LiveAbbreviationsMembers(events: seq<Event>)
    ensures forall x :: x in LiveAbbreviations(events) <==> exists e :: e in events && Contributes(e, x)
  {
    if events != [] {
      var p, e := events[..|events| - 1], events[|events| - 1];
      assert events == p + [e];
      LiveAbbreviationsMembers(p);
      forall x | exists d :: d in events && Contributes(d, x)
        ensures x in LiveAbbreviations(events)
      {
        var d :| d in events && Contributes(d, x);
        if d != e { assert d in p; }
      }
      forall x | x in LiveAbbreviations(events)
        ensures exists d :: d in events && Contributes(d, x)
      {
        if x in LiveAbbreviations(p) {
          var d :| d in p && Contributes(d, x);
          assert d in events;
        } else {
          assert IsLive(e) && x in CompetitorAbbrs(Competitors(e));
          assert Contributes(e, x);
        }
      }
    }
  }

  /** The team list has no repeats; it holds exactly the abbreviations that some live
      event contributes, a scoreboard without events giving none; and it lists them in
      the order they first appear among the live events' competitors. */
  lemma LiveTeamsFacts(board: Scoreboard)
    ensures NoDuplicates(LiveTeamsOf(board))
    ensures forall x :: x in LiveTeamsOf(board) <==>
      board.events.Some? && exists e :: e in board.events.value && Contributes(e, x)
    ensures board.events.None? ==> LiveTeamsOf(board) == []
    ensures var all := LiveAbbreviations(board.events.GetOr([]));
      forall i, j :: 0 <= i < j < |LiveTeamsOf(board)| ==>
        IndexOf(all, LiveTeamsOf(board)[i]) < IndexOf(all, LiveTeamsOf(board)[j])
  {
    LiveAbbreviationsMembers(board.events.GetOr([]));
    DedupFirstSeen(LiveAbbreviations(board.events.GetOr([])));
  }

  /** What the upstream request produced: a response that was not ok, with its status; a
      failure (the request or the body parse threw); or the parsed scoreboard. */
  datatype Upstream = NotOk(status: int) | Failed | Fetched(board: Scoreboard)

  datatype Response = Response(teams: seq<string>, status: int)

  /** `GET`: an empty list with the upstream status when the response is not ok, an empty
      list with status 500 on a failure, and otherwise the extracted teams with status 200. */
  method Get(upstream: Upstream) returns (r: Response)
    ensures upstream.NotOk? ==> r == Response([], upstream.status)
    ensures upstream.Failed? ==> r == Response([], 500)
    ensures upstream.Fetched? ==> r == Response(LiveTeamsOf(upstream.board), 200)
  {
    match upstream
    case NotOk(status) =>
      r := Response([], status);
    case Failed =>
      r := Response([], 500);
    case Fetched(board) =>
      var teams := ExtractLiveTeams(board);
      r := Response(teams, 200);
  }
}
