/** The home page: the state the page keeps, the handlers that move it between the
    standings, the matchup grid and a matchup's detail, and what the page shows for a state. */
module HomePage {
  import opened Wrappers
  import opened Sleeper

  datatype View = StandingsTab | MatchupsTab | DetailView

  /** A snapshot of the page's state variables. */
  datatype HomeState = HomeState(
    user: Option<User>,
    leagues: seq<League>,
    selectedLeague: Option<League>,
    rosters: seq<Roster>,
    users: seq<User>,
    matchups: seq<Matchup>,
    currentView: View,
    selectedMatchupId: Option<nat>,
    currentWeek: int,
    loading: bool)

  /** The detail view is current exactly when a matchup is selected. */
  predicate Consistent(s: HomeState) {
    s.currentView == DetailView <==> s.selectedMatchupId.Some?
  }

  /** The main area of a league's page. */
  datatype Content = NoContent | StandingsContent | MatchupsContent | DetailContent(matchupId: nat)

  /** What the page shows: the username form before a user is loaded; the league picker,
      greeting the user by display name or user name, before a league is selected; and
      otherwise the league page, with the loading notice while loading, and otherwise the
      navigation bar outside the detail view and the content of the current view. */
  datatype Page =
    | Landing
    | LeaguePicker(greeting: string, leagues: seq<League>)
    | LeaguePage(league: League, showLoading: bool, showNavigation: bool, content: Content)

  function Render(s: HomeState): (p: Page)
    ensures s.user.None? <==> p.Landing?
    ensures p.LeaguePage? <==> s.user.Some? && s.selectedLeague.Some?
    ensures p.LeaguePage? ==> (p.showLoading <==> s.loading) && (s.loading ==> !p.showNavigation && p.content.NoContent?)
    ensures p.LeaguePage? && p.content.DetailContent? ==> s.selectedMatchupId == Some(p.content.matchupId)
  {
    if s.user.None? then Landing
    else if s.selectedLeague.None? then
      LeaguePicker(if s.user.value.displayName != "" then s.user.value.displayName else s.user.value.username, s.leagues)
    else
      LeaguePage(s.selectedLeague.value, s.loading,
                 !s.loading && s.currentView != DetailView,
                 if s.loading then NoContent
                 else match s.currentView
                   case StandingsTab => StandingsContent
                   case MatchupsTab => MatchupsContent
                   case DetailView => if s.selectedMatchupId.Some? then DetailContent(s.selectedMatchupId.value) else NoContent)
  }

  /** In a consistent state the league page, once loaded, shows either the navigation bar
      or a matchup's detail, never both and never neither: the detail renders exactly when
      a matchup is selected. */
  lemma NavigationOrDetail(s: HomeState)
    requires Consistent(s)
    ensures var p := Render(s);
      p.LeaguePage? && !s.loading ==>
        (p.showNavigation <==> !p.content.DetailContent?) &&
        (p.content.DetailContent? <==> s.selectedMatchupId.Some?) &&
        p.content != NoContent
  {
  }

  /** A fetch made by a handler: the league and the week it asks for. */
  datatype Request = Request(leagueId: string, week: int)

  class Home {
    var user: Option<User>
    var leagues: seq<League>
    var selectedLeague: Option<League>
    var rosters: seq<Roster>
    var users: seq<User>
    var matchups: seq<Matchup>
    var currentView: View
    var selectedMatchupId: Option<nat>
    var currentWeek: int
    var loading: bool

    function State(): HomeState
      reads this
    {
      HomeState(user, leagues, selectedLeague, rosters, users, matchups,
                currentView, selectedMatchupId, currentWeek, loading)
    }

    predicate Valid()
      reads this
    {
      Consistent(State())
    }

    /** The initial state: no user, nothing loaded, the standings tab, week 1. */
    constructor ()
      ensures Valid()
      ensures State() == HomeState(None, [], None, [], [], [], StandingsTab, None, 1, false)
    {
      user, leagues, selectedLeague := None, [], None;
      rosters, users, matchups := [], [], [];
      currentView, selectedMatchupId := StandingsTab, None;
      currentWeek, loading := 1, false;
    }

    /** `handleUserLoaded`: store the user and the leagues; a single league becomes the
        selected one, otherwise the selection stays as it was. */
    method HandleUserLoaded(loadedUser: User, loadedLeagues: seq<League>)
      requires Valid()
      modifies this
      ensures Valid()
      ensures State() == old(State()).(user := Some(loadedUser), leagues := loadedLeagues,
        selectedLeague := if |loadedLeagues| == 1 then Some(loadedLeagues[0]) else old(selectedLeague))
    {
      user := Some(loadedUser);
      leagues := loadedLeagues;
      if |loadedLeagues| == 1 {
        selectedLeague := Some(loadedLeagues[0]);
      }
    }

    /** The first half of `handleLeagueSelect`: select the league, start loading, and ask
        for its rosters, users and the current week's matchups. */
    method StartLeagueSelect(league: League) returns (request: Request)
      requires Valid()
      modifies this
      ensures Valid()
      ensures request == Request(league.leagueId, old(currentWeek))
      ensures State() == old(State()).(selectedLeague := Some(league), loading := true)
    {
      selectedLeague := Some(league);
      loading := true;
      request := Request(league.leagueId, currentWeek);
    }

    /** The second half of `handleLeagueSelect`: store the fetched data, or keep the old
        data when the fetch threw (`None`); loading ends either way. */
    method CompleteLeagueSelect(fetched: Option<(seq<Roster>, seq<User>, seq<Matchup>)>)
      requires Valid()
      modifies this
      ensures Valid()
      ensures fetched.Some? ==> State() == old(State()).(rosters := fetched.value.0, users := fetched.value.1,
                                                         matchups := fetched.value.2, loading := false)
      ensures fetched.None? ==> State() == old(State()).(loading := false)
    {
      if fetched.Some? {
        rosters := fetched.value.0;
        users := fetched.value.1;
        matchups := fetched.value.2;
      }
      loading := false;
    }

    /** `handleTabChange`: show the chosen tab and drop the selected matchup. */
    method HandleTabChange(tab: View)
      requires tab != DetailView
      requires Valid()
      modifies this
      ensures Valid()
      ensures State() == old(State()).(currentView := tab, selectedMatchupId := None)
    {
      currentView := tab;
      selectedMatchupId := None;
    }

    /** The first half of `handleWeekChange`: without a selected league nothing happens and
        nothing is asked for; otherwise store the week, start loading and ask for that
        week's matchups of the selected league. */
    method StartWeekChange(week: int) returns (request: Option<Request>)
      requires Valid()
      modifies this
      ensures Valid()
      ensures old(selectedLeague).None? ==> request.None? && State() == old(State())
      ensures old(selectedLeague).Some? ==>
        request == Some(Request(old(selectedLeague).value.leagueId, week)) &&
        State() == old(State()).(currentWeek := week, loading := true)
    {
      if selectedLeague.None? {
        return None;
      }
      currentWeek := week;
      loading := true;
      request := Some(Request(selectedLeague.value.leagueId, week));
    }

    /** The second half of `handleWeekChange`: store the fetched matchups, or keep the old
        ones when the fetch threw; loading ends either way. */
    method CompleteWeekChange(fetched: Option<seq<Matchup>>)
      requires Valid()
      modifies this
      ensures Valid()
      ensures fetched.Some? ==> State() == old(State()).(matchups := fetched.value, loading := false)
      ensures fetched.None? ==> State() == old(State()).(loading := false)
    {
      if fetched.Some? {
        matchups := fetched.value;
      }
      loading := false;
    }

    /** `handleMatchupClick`: select the matchup and open its detail. */
    method HandleMatchupClick(matchupId: nat)
      requires Valid()
      modifies this
      ensures Valid()
      ensures State() == old(State()).(selectedMatchupId := Some(matchupId), currentView := DetailView)
    {
      selectedMatchupId := Some(matchupId);
      currentView := DetailView;
    }

    /** `handleBackToMatchups`: drop the selected matchup and return to the grid. */
    method HandleBackToMatchups()
      requires Valid()
      modifies this
      ensures Valid()
      ensures State() == old(State()).(selectedMatchupId := None, currentView := MatchupsTab)
    {
      selectedMatchupId := None;
      currentView := MatchupsTab;
    }

    /** The "Change League" button: drop the selected league, back to the league picker. */
    method HandleChangeLeague()
      requires Valid()
      modifies this
      ensures Valid()
      ensures State() == old(State()).(selectedLeague := None)
    {
      selectedLeague := None;
    }
  }
}
