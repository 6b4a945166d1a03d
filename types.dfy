/**
 * The tournament's data: players, match results, matches, the whole state, and the
 * scoring constants.
 */
module TournamentTypes {
  import opened Wrappers
  import opened JsNumbers

  /** A player's status; every player holds exactly one of the three. */
  datatype PlayerStatus = Normal | Elimination | Champion

  /**
   * A registered player. `totalScore` is a JavaScript number: a match in which the
   * player took a rank without a score table entry makes it NaN. `registeredAt` is a
   * timestamp.
   */
  datatype Player = Player(id: string, name: string, totalScore: Num, status: PlayerStatus, registeredAt: int)

  /**
   * One line of a match: who, the name they had when the match was recorded, their
   * rank, and the points of that rank (`None` where the score table has no entry,
   * which JavaScript reads as `undefined`).
   */
  datatype MatchResult = MatchResult(playerId: string, playerName: string, rank: int, score: Option<nat>)

  datatype Match = Match(id: string, date: int, results: seq<MatchResult>, createdAt: int)

  /** The whole tournament: players and matches in insertion order, and two derived fields. */
  datatype TournamentState = TournamentState(players: seq<Player>, matches: seq<Match>, isFinished: bool, championCount: int)

  /** Points at or above which a player reaches the elimination stage. */
  const EliminationThreshold: int := 25

  /** The tournament is over once this many players are champions. */
  const MaxChampions: int := 3

  /** The score table: points for ranks 1 to 8, and no entry for any other rank. */
  function ScoreMap(rank: int): (points: Option<nat>)
    ensures points.Some? <==> 1 <= rank <= 8
    ensures points.Some? ==> points.value <= 8
  {
    if rank == 1 then Some(8)
    else if rank == 2 then Some(6)
    else if rank == 3 then Some(5)
    else if rank == 4 then Some(4)
    else if rank == 5 then Some(3)
    else if rank == 6 then Some(2)
    else if rank == 7 then Some(1)
    else if rank == 8 then Some(0)
    else None
  }

  /** The eight entries of the table, best rank first. */
  lemma ScoreTable()
    ensures seq(8, k => ScoreMap(k + 1)) == [Some(8), Some(6), Some(5), Some(4), Some(3), Some(2), Some(1), Some(0)]
  {
  }

  /** A better rank always earns strictly more points; so rank 1 is the unique maximum. */
  lemma ScoreMapStrictlyDecreasing(better: int, worse: int)
    requires 1 <= better < worse <= 8
    ensures ScoreMap(better).value > ScoreMap(worse).value
  {
  }
}
