/** The esports score client: raw PandaScore match records are normalised into
    the match shape the scores widget shows, and the two fetchers keep only the
    matches whose two teams are known. */
module PandaScore {
  import opened Wrappers
  import opened Strings
  import opened Sequences

  datatype MatchStatus = Running | NotStarted | Finished

  datatype Opponent = Opponent(id: int, name: string, imageUrl: Option<string>)
  datatype TeamResult = TeamResult(score: int, teamId: int)
  datatype Stream = Stream(rawUrl: string, main: bool, language: string)
  datatype Videogame = Videogame(name: string, slug: string)
  datatype Tournament = Tournament(name: string)
  datatype League = League(name: string)

  /** A match record as the API delivers it; `opponents` flattens the
      `{ opponent: … }` wrapper of each entry. */
  datatype RawMatch = RawMatch(
    id: int,
    name: string,
    status: MatchStatus,
    beginAt: Option<string>,
    videogame: Videogame,
    tournament: Tournament,
    league: League,
    opponents: seq<Opponent>,
    results: seq<TeamResult>,
    streams: seq<Stream>)

  /** The normalised match; `beginAt` and `streamUrl` are nullable. */
  datatype EsportsMatch = EsportsMatch(
    id: int,
    team1: string,
    team2: string,
    score1: int,
    score2: int,
    game: string,
    gameLabel: string,
    tournament: string,
    status: MatchStatus,
    beginAt: Option<string>,
    streamUrl: Option<string>)

  /** Display shorthands for the games the widget knows. */
  const GameLabels: map<string, string> := map[
    "Counter-Strike 2" := "CS2",
    "League of Legends" := "LoL",
    "Dota 2" := "Dota 2",
    "Valorant" := "Valorant",
    "Overwatch" := "OW2",
    "Rainbow Six Siege" := "R6",
    "PUBG Mobile" := "PUBG"
  ]

  /** The shorthand for a known game; any other name passes through. A label is
      never longer than the name, and labelling a label changes nothing. */
  function GetGameLabel(gameName: string): (shown: string)
    ensures |shown| <= |gameName|
    ensures gameName !in GameLabels ==> shown == gameName
    ensures shown !in GameLabels || GameLabels[shown] == shown
  {
    if gameName in GameLabels then GameLabels[gameName] else gameName
  }

  lemma GameLabelIdempotent(gameName: string)
    ensures GetGameLabel(GetGameLabel(gameName)) == GetGameLabel(gameName)
  {
  }

  lemma GameLabelExamples()
    ensures GetGameLabel("Counter-Strike 2") == "CS2"
    ensures GetGameLabel("League of Legends") == "LoL"
    ensures GetGameLabel("Dota 2") == "Dota 2"
    ensures GetGameLabel("Valorant") == "Valorant"
    ensures GetGameLabel("Overwatch") == "OW2"
    ensures GetGameLabel("Rainbow Six Siege") == "R6"
    ensures GetGameLabel("PUBG Mobile") == "PUBG"
    ensures GetGameLabel("Rocket League") == "Rocket League"
  {
  }

  const ScoreSeparator := " - "

  /** `${score1} - ${score2}`. */
  function FormatMatchScore(score1: int, score2: int): string {
    IntToDecimal(score1) + ScoreSeparator + IntToDecimal(score2)
  }

  /** Reads a rendered score back: the text up to the first space is the first
      score, and " - " separates it from the second. */
  function ParseMatchScore(s: string): Option<(int, int)> {
    var k := IndexOf(s, ' ');
    if k + |ScoreSeparator| <= |s| && s[k..k + |ScoreSeparator|] == ScoreSeparator then
      match (ParseInt(s[..k]), ParseInt(s[k + |ScoreSeparator|..]))
      case (Some(a), Some(b)) => Some((a, b))
      case _ => None
    else None
  }

  /** The rendered score determines both scores. */
  lemma {:induction false} MatchScoreRoundTrip(score1: int, score2: int)
    ensures ParseMatchScore(FormatMatchScore(score1, score2)) == Some((score1, score2))
  {
    var a := IntToDecimal(score1);
    var b := IntToDecimal(score2);
    var s := FormatMatchScore(score1, score2);
    assert forall i :: 0 <= i < |a| ==> s[i] == a[i] && a[i] != ' ';
    assert s[|a|] == ' ';
    var k := IndexOf(s, ' ');
    assert k == |a|;
    assert s[..k] == a;
    assert s[k..k + 3] == ScoreSeparator;
    assert s[k + 3..] == b;
    IntDecimalRoundTrip(score1);
    IntDecimalRoundTrip(score2);
  }

  lemma MatchScoreExamples()
    ensures FormatMatchScore(2, 1) == "2 - 1"
    ensures FormatMatchScore(0, 0) == "0 - 0"
  {
  }

  /** The name of the opponent at `k`, or "TBD" when there is none. */
  function TeamName(opponents: seq<Opponent>, k: nat): string {
    if k < |opponents| then opponents[k].name else "TBD"
  }

  function TeamId(opponents: seq<Opponent>, k: nat): Option<int> {
    if k < |opponents| then Some(opponents[k].id) else None
  }

  /** The score of the first result entry for `team`, or 0. A missing team
      (an undefined id) matches no entry. */
  function ScoreFor(results: seq<TeamResult>, team: Option<int>): int {
    match Find(results, (r: TeamResult) => team.Some? && r.teamId == team.value)
    case Some(r) => r.score
    case None => 0
  }

  /** `score` is what the results list says for `team`: the score of its first
      entry for that team, or 0 when it has none. */
  ghost predicate ScoreFromResults(results: seq<TeamResult>, team: Option<int>, score: int) {
    if team.Some? && exists i :: 0 <= i < |results| && results[i].teamId == team.value then
      exists i :: 0 <= i < |results| && results[i].teamId == team.value && results[i].score == score
        && forall j :: 0 <= j < i ==> results[j].teamId != team.value
    else score == 0
  }

  lemma ScoreForMeetsResults(results: seq<TeamResult>, team: Option<int>)
    ensures ScoreFromResults(results, team, ScoreFor(results, team))
  {
    var p := (r: TeamResult) => team.Some? && r.teamId == team.value;
    match FindIndex(results, p)
    case Some(i) =>
      assert results[i].teamId == team.value && results[i].score == ScoreFor(results, team);
    case None =>
  }

  predicate IsEnglishMain(s: Stream) {
    s.main && s.language == "en"
  }

  predicate IsMain(s: Stream) {
    s.main
  }

  /** The first English main stream, else the first main stream, else none. */
  function MainStream(streams: seq<Stream>): Option<Stream> {
    match Find(streams, IsEnglishMain)
    case Some(s) => Some(s)
    case None => Find(streams, IsMain)
  }

  /** Normalises one raw match record. */
  function TransformMatch(m: RawMatch): (r: EsportsMatch)
    ensures r.id == m.id && r.status == m.status && r.beginAt == m.beginAt
    ensures r.game == m.videogame.name && r.tournament == m.tournament.name
    ensures r.gameLabel == GetGameLabel(r.game)
    ensures |m.opponents| >= 1 ==> r.team1 == m.opponents[0].name
    ensures |m.opponents| >= 2 ==> r.team2 == m.opponents[1].name
    ensures |m.opponents| == 0 ==> r.team1 == "TBD" && r.score1 == 0
    ensures |m.opponents| <= 1 ==> r.team2 == "TBD" && r.score2 == 0
    ensures r.streamUrl.Some? ==> exists i :: 0 <= i < |m.streams| && m.streams[i].main
                                             && m.streams[i].rawUrl == r.streamUrl.value
    ensures r.streamUrl.None? <==> forall i :: 0 <= i < |m.streams| ==> !m.streams[i].main
  {
    var main := MainStream(m.streams);
    EsportsMatch(
      m.id,
      TeamName(m.opponents, 0),
      TeamName(m.opponents, 1),
      ScoreFor(m.results, TeamId(m.opponents, 0)),
      ScoreFor(m.results, TeamId(m.opponents, 1)),
      m.videogame.name,
      GetGameLabel(m.videogame.name),
      m.tournament.name,
      m.status,
      m.beginAt,
      if main.Some? then Some(main.value.rawUrl) else None)
  }

  /** Both scores are read from the results list by the teams' ids. */
  lemma TransformMatchScores(m: RawMatch)
    ensures ScoreFromResults(m.results, TeamId(m.opponents, 0), TransformMatch(m).score1)
    ensures ScoreFromResults(m.results, TeamId(m.opponents, 1), TransformMatch(m).score2)
  {
    ScoreForMeetsResults(m.results, TeamId(m.opponents, 0));
    ScoreForMeetsResults(m.results, TeamId(m.opponents, 1));
  }

  /** An English main stream, when there is one, is preferred: the URL is that
      of the first such stream. Otherwise it is the first main stream's. */
  lemma {:induction false} TransformMatchStream(m: RawMatch)
    ensures forall i :: 0 <= i < |m.streams| && IsEnglishMain(m.streams[i])
                        && (forall j :: 0 <= j < i ==> !IsEnglishMain(m.streams[j]))
                        ==> TransformMatch(m).streamUrl == Some(m.streams[i].rawUrl)
    ensures (forall j :: 0 <= j < |m.streams| ==> !IsEnglishMain(m.streams[j])) ==>
              forall i :: 0 <= i < |m.streams| && m.streams[i].main
                          && (forall j :: 0 <= j < i ==> !m.streams[j].main)
                          ==> TransformMatch(m).streamUrl == Some(m.streams[i].rawUrl)
  {
    var e := FindIndex(m.streams, IsEnglishMain);
    var a := FindIndex(m.streams, IsMain);
    forall i | 0 <= i < |m.streams| && IsEnglishMain(m.streams[i])
               && (forall j :: 0 <= j < i ==> !IsEnglishMain(m.streams[j]))
      ensures TransformMatch(m).streamUrl == Some(m.streams[i].rawUrl)
    {
      assert e.Some?;
      assert e.value == i;
    }
    if forall j :: 0 <= j < |m.streams| ==> !IsEnglishMain(m.streams[j]) {
      forall i | 0 <= i < |m.streams| && m.streams[i].main
                 && (forall j :: 0 <= j < i ==> !m.streams[j].main)
        ensures TransformMatch(m).streamUrl == Some(m.streams[i].rawUrl)
      {
        assert IsMain(m.streams[i]);
        assert a.Some?;
        assert a.value == i;
      }
    }
  }

  /** The record the unit tests use, and what they expect of it. */
  const FazeNavi := RawMatch(
    1, "FaZe vs NaVi", Running, Some("2026-02-20T15:00:00Z"),
    Videogame("Counter-Strike 2", "cs-go"), Tournament("ESL Pro League"), League("ESL"),
    [Opponent(10, "FaZe Clan", Some("https://example.com/faze.png")),
     Opponent(11, "NaVi", Some("https://example.com/navi.png"))],
    [TeamResult(2, 10), TeamResult(1, 11)],
    [Stream("https://twitch.tv/esl_csgo", true, "en")])

  lemma TransformMatchExamples()
    ensures TransformMatch(FazeNavi).team1 == "FaZe Clan"
    ensures TransformMatch(FazeNavi).team2 == "NaVi"
    ensures TransformMatch(FazeNavi).score1 == 2
    ensures TransformMatch(FazeNavi).score2 == 1
    ensures TransformMatch(FazeNavi).streamUrl == Some("https://twitch.tv/esl_csgo")
    ensures TransformMatch(FazeNavi.(streams := [])).streamUrl == None
    ensures TransformMatch(FazeNavi.(opponents := [])).team1 == "TBD"
    ensures TransformMatch(FazeNavi.(opponents := [])).team2 == "TBD"
    ensures TransformMatch(FazeNavi).game == "Counter-Strike 2"
    ensures TransformMatch(FazeNavi).tournament == "ESL Pro League"
  {
    var m := FazeNavi;
    assert Find(m.results, (r: TeamResult) => TeamId(m.opponents, 0).Some? && r.teamId == TeamId(m.opponents, 0).value) == Some(TeamResult(2, 10));
    assert Find(m.results, (r: TeamResult) => TeamId(m.opponents, 1).Some? && r.teamId == TeamId(m.opponents, 1).value) == Some(TeamResult(1, 11));
  }

  predicate HasBothTeams(m: RawMatch) {
    |m.opponents| >= 2
  }

  /** The pure step of both fetchers: drop matches with fewer than two
      opponents, then normalise the rest. */
  function KeepPlayable(data: seq<RawMatch>): (r: seq<EsportsMatch>)
    ensures |r| == |Filter(data, HasBothTeams)| <= |data|
    ensures forall k :: 0 <= k < |r| ==> r[k] == TransformMatch(Filter(data, HasBothTeams)[k])
    ensures forall k :: 0 <= k < |r| ==>
              var m := Filter(data, HasBothTeams)[k];
              r[k].team1 == m.opponents[0].name && r[k].team2 == m.opponents[1].name
  {
    var kept := Filter(data, HasBothTeams);
    seq(|kept|, k requires 0 <= k < |kept| => TransformMatch(kept[k]))
  }

  /** Which matches are kept, and in what order: a match is kept exactly when it
      has two opponents, and the kept matches keep their input order. */
  lemma KeepPlayableSelection(a: seq<RawMatch>, b: seq<RawMatch>, m: RawMatch)
    ensures m in Filter(a, HasBothTeams) <==> m in a && |m.opponents| >= 2
    ensures KeepPlayable(a + b) == KeepPlayable(a) + KeepPlayable(b)
  {
    FilterAppend(a, b, HasBothTeams);
    FilterMembers(a, HasBothTeams, m);
  }

  const BaseUrl := "https://api.pandascore.co"
  const LivePath := "/matches/running?page[size]=5"
  const UpcomingPath := "/matches/upcoming?sort=begin_at&page[size]=5"

  /** What the HTTP layer hands back: no answer at all, or a status code with a
      body that either decodes to match records or does not. */
  datatype HttpReply = Unreachable | Reply(status: int, body: Option<seq<RawMatch>>)

  datatype FetchError = MissingApiKey | NetworkFailure | HttpError(status: int) | MalformedBody

  /** The message the thrown error carries, where the code fixes it. */
  function ErrorMessage(e: FetchError): Option<string> {
    match e
    case MissingApiKey => Some("VITE_PANDASCORE_API_KEY is not set")
    case HttpError(status) => Some("PandaScore error: " + IntToDecimal(status))
    case _ => None
  }

  /** A fetcher: the API key is checked before any request; a non-2xx status
      or an undecodable body is an error; otherwise the kept, normalised
      matches. `respond` answers a request given its URL and its
      Authorization header. */
  /** The thrown HTTP error names the status it failed with. */
  lemma HttpErrorNamesStatus(a: int, b: int)
    requires ErrorMessage(HttpError(a)) == ErrorMessage(HttpError(b))
    ensures a == b
  {
    var prefix := "PandaScore error: ";
    var x, y := IntToDecimal(a), IntToDecimal(b);
    assert x == (prefix + x)[|prefix|..];
    assert y == (prefix + y)[|prefix|..];
    IntToDecimalInjective(a, b);
  }

  function FetchMatches(path: string, apiKey: Option<string>,
                        respond: (string, string) -> HttpReply): (r: Result<seq<EsportsMatch>, FetchError>)
    ensures !Truthy(apiKey) ==> r == Failure(MissingApiKey)
    ensures r.Success? ==>
              (&& Truthy(apiKey)
               && var reply := respond(BaseUrl + path, "Bearer " + apiKey.value);
                  && reply.Reply? && 200 <= reply.status <= 299 && reply.body.Some?
                  && r.value == KeepPlayable(reply.body.value))
    ensures Truthy(apiKey) ==>
              var reply := respond(BaseUrl + path, "Bearer " + apiKey.value);
              && (reply.Unreachable? ==> r == Failure(NetworkFailure))
              && (reply.Reply? && !(200 <= reply.status <= 299) ==> r == Failure(HttpError(reply.status)))
              && (reply.Reply? && 200 <= reply.status <= 299 && reply.body.None? ==> r == Failure(MalformedBody))
              && (reply.Reply? && 200 <= reply.status <= 299 && reply.body.Some? ==>
                    r == Success(KeepPlayable(reply.body.value)))
    ensures r.Failure? && r.error.HttpError? ==> !(200 <= r.error.status <= 299)
  {
    if !Truthy(apiKey) then Failure(MissingApiKey)
    else
      match respond(BaseUrl + path, "Bearer " + apiKey.value)
      case Unreachable => Failure(NetworkFailure)
      case Reply(status, body) =>
        if !(200 <= status <= 299) then Failure(HttpError(status))
        else if body.None? then Failure(MalformedBody)
        else Success(KeepPlayable(body.value))
  }

  function FetchLiveMatches(apiKey: Option<string>, respond: (string, string) -> HttpReply): Result<seq<EsportsMatch>, FetchError> {
    FetchMatches(LivePath, apiKey, respond)
  }

  function FetchUpcomingMatches(apiKey: Option<string>, respond: (string, string) -> HttpReply): Result<seq<EsportsMatch>, FetchError> {
    FetchMatches(UpcomingPath, apiKey, respond)
  }
}
