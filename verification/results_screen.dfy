/** The results screen of components/ResultsScreen.tsx: the user's position on
    the leaderboard and the summary/leaderboard toggle. */
module ResultsScreen {
  import opened Wrappers
  import opened Domain

  /** `entry.user_id === user?.id`: never true without a signed-in user. */
  predicate IsUser(entry: LeaderboardEntry, userId: Option<string>) {
    userId.Some? && entry.userId == userId.value
  }

  /** `findIndex`: the first matching position, or -1. */
  function FindIndex(entries: seq<LeaderboardEntry>, userId: Option<string>): (i: int)
    ensures -1 <= i < |entries|
    ensures i >= 0 ==> IsUser(entries[i], userId)
    ensures i >= 0 ==> forall j :: 0 <= j < i ==> !IsUser(entries[j], userId)
    ensures i == -1 <==> forall j :: 0 <= j < |entries| ==> !IsUser(entries[j], userId)
    decreases |entries|
  {
    if |entries| == 0 then -1
    else if IsUser(entries[0], userId) then 0
    else
      var k := FindIndex(entries[1..], userId);
      assert forall j :: 1 <= j < |entries| ==> entries[j] == entries[1..][j - 1];
      if k == -1 then -1 else k + 1
  }

  /** The displayed rank: one plus the user's position, 0 when absent. It is
      positional and ignores the entries' own `rank` field. */
  function UserRank(entries: seq<LeaderboardEntry>, userId: Option<string>): (r: int)
    ensures 0 <= r <= |entries|
    ensures r > 0 ==> IsUser(entries[r - 1], userId) && forall j :: 0 <= j < r - 1 ==> !IsUser(entries[j], userId)
    ensures r == 0 <==> forall j :: 0 <= j < |entries| ==> !IsUser(entries[j], userId)
  {
    FindIndex(entries, userId) + 1
  }

  /** What the rank card shows: the rank and `totalParticipants`. */
  datatype RankCard = RankCard(rank: int, totalParticipants: int)

  datatype Page =
    | LeaderboardPage(showsTable: bool)
    | SummaryPage(attempt: QuizAttempt, rankCard: Option<RankCard>)

  /** The leaderboard view when toggled on (its table only with a user);
      otherwise the summary, with the rank card only for a ranked user. */
  function Render(showLeaderboard: bool, attempt: QuizAttempt, entries: seq<LeaderboardEntry>,
                  userId: Option<string>): (p: Page)
    ensures p.LeaderboardPage? <==> showLeaderboard
    ensures p.LeaderboardPage? ==> (p.showsTable <==> userId.Some?)
    ensures p.SummaryPage? ==> p.attempt == attempt
    ensures p.SummaryPage? ==> (p.rankCard.Some? <==> exists j :: 0 <= j < |entries| && IsUser(entries[j], userId))
    ensures p.SummaryPage? && p.rankCard.Some? ==>
      p.rankCard.value.totalParticipants == |entries|
      && 1 <= p.rankCard.value.rank <= |entries|
      && IsUser(entries[p.rankCard.value.rank - 1], userId)
  {
    if showLeaderboard then LeaderboardPage(userId.Some?)
    else
      var rank := UserRank(entries, userId);
      SummaryPage(attempt, if rank > 0 then Some(RankCard(rank, |entries|)) else None)
  }

  datatype ResultsEvent = ViewLeaderboardClicked | BackToResultsClicked

  /** "View Full Leaderboard" turns the toggle on, "Back to Results" off. */
  function Toggle(showLeaderboard: bool, e: ResultsEvent): (r: bool)
    ensures r <==> e.ViewLeaderboardClicked?
  {
    match e
    case ViewLeaderboardClicked => true
    case BackToResultsClicked => false
  }
}
