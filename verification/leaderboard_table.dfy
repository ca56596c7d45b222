/** components/leaderboard/LeaderboardTable.tsx: the split into the top three
    cards and the remaining rows, the current-user highlight, and the top
    cards' suffix, medal and trophy colour. */
module LeaderboardTable {
  import opened Domain
  import Scoring
  import Formatters

  function Min(a: int, b: int): int {
    if a <= b then a else b
  }

  /** `entries.slice(0, 3)`. */
  function TopThree(entries: seq<LeaderboardEntry>): (t: seq<LeaderboardEntry>)
    ensures |t| == Min(3, |entries|)
    ensures t == entries[..|t|]
  {
    entries[..Min(3, |entries|)]
  }

  /** `entries.slice(3)`. */
  function Rest(entries: seq<LeaderboardEntry>): (r: seq<LeaderboardEntry>)
    ensures |r| == |entries| - Min(3, |entries|)
    ensures r == entries[|entries| - |r|..]
  {
    entries[Min(3, |entries|)..]
  }

  /** The two parts cover the entries in order, and the rest is empty exactly
      for three entries or fewer. */
  lemma SplitIsPartition(entries: seq<LeaderboardEntry>)
    ensures TopThree(entries) + Rest(entries) == entries
    ensures Rest(entries) == [] <==> |entries| <= 3
    ensures TopThree(entries) == [] <==> entries == []
  {
  }

  /** A card or row is highlighted exactly for the current user. */
  predicate Highlighted(entry: LeaderboardEntry, currentUserId: string) {
    entry.userId == currentUserId
  }

  datatype TrophyColor = Magenta | Purple | Blue
  datatype Medal = FirstMedal | SecondMedal | ThirdMedal

  /** The suffix on a top card: everything other than rank 1 or 2 reads "rd". */
  function TopSuffix(rank: int): (s: string)
    ensures s == "st" <==> rank == 1
    ensures s == "nd" <==> rank == 2
    ensures s == "rd" <==> rank != 1 && rank != 2
  {
    if rank == 1 then "st" else if rank == 2 then "nd" else "rd"
  }

  function TrophyColorFor(rank: int): (c: TrophyColor)
    ensures c == Magenta <==> rank == 1
    ensures c == Purple <==> rank == 2
    ensures c == Blue <==> rank != 1 && rank != 2
  {
    if rank == 1 then Magenta else if rank == 2 then Purple else Blue
  }

  function MedalFor(rank: int): (m: Medal)
    ensures m == FirstMedal <==> rank == 1
    ensures m == SecondMedal <==> rank == 2
    ensures m == ThirdMedal <==> rank != 1 && rank != 2
  {
    if rank == 1 then FirstMedal else if rank == 2 then SecondMedal else ThirdMedal
  }

  /** On ranks 1-3 the top-card suffix agrees with `formatRank`; on any other
      rank (a tie, or a missing rank) the card says "rd" where `formatRank`
      says "th". */
  lemma TopSuffixVersusFormatRank(rank: int)
    ensures 1 <= rank <= 3 ==> TopSuffix(rank) == Formatters.RankSuffix(rank)
    ensures !(1 <= rank <= 3) ==> TopSuffix(rank) != Formatters.RankSuffix(rank)
  {
  }

  /** The badge has a medal colour exactly when `formatRank` gives a
      non-"th" suffix. */
  lemma BadgeMatchesRankSuffix(rank: int)
    ensures Scoring.RankBadgeType(rank) != Scoring.DefaultBadge <==> Formatters.RankSuffix(rank) != "th"
  {
  }

  datatype TopCard = TopCard(entry: LeaderboardEntry, highlighted: bool, medal: Medal, suffix: string,
                             trophy: TrophyColor, badge: Scoring.RankBadge)

  datatype RestRow = RestRow(entry: LeaderboardEntry, highlighted: bool)

  datatype Table = Table(topCards: seq<TopCard>, restRows: seq<RestRow>)

  /** The rendered table: one card per top entry and one row per remaining
      entry, in order, each highlighted exactly for the current user. */
  function Render(entries: seq<LeaderboardEntry>, currentUserId: string): (t: Table)
    ensures |t.topCards| + |t.restRows| == |entries|
    ensures |t.topCards| == Min(3, |entries|)
    ensures forall i :: 0 <= i < |t.topCards| ==>
      t.topCards[i].entry == entries[i]
      && (t.topCards[i].highlighted <==> entries[i].userId == currentUserId)
    ensures forall i :: 0 <= i < |t.topCards| ==>
      && t.topCards[i].suffix == TopSuffix(entries[i].rank)
      && t.topCards[i].trophy == TrophyColorFor(entries[i].rank)
      && t.topCards[i].medal == MedalFor(entries[i].rank)
      && t.topCards[i].badge == Scoring.RankBadgeType(entries[i].rank)
    ensures forall i :: 0 <= i < |t.restRows| ==>
      t.restRows[i].entry == entries[i + 3]
      && (t.restRows[i].highlighted <==> entries[i + 3].userId == currentUserId)
  {
    var top := TopThree(entries);
    var rest := Rest(entries);
    Table(
      seq(|top|, i requires 0 <= i < |top| =>
        var e := top[i];
        TopCard(e, Highlighted(e, currentUserId), MedalFor(e.rank), TopSuffix(e.rank),
                TrophyColorFor(e.rank), Scoring.RankBadgeType(e.rank))),
      seq(|rest|, i requires 0 <= i < |rest| => RestRow(rest[i], Highlighted(rest[i], currentUserId))))
  }
}
