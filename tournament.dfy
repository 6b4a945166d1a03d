/**
 * The tournament reducer: every operation takes one immutable state and returns a
 * new one, or the error it throws before building anything. Fresh identifiers and the
 * current time are parameters.
 */
module Tournament {
  import opened Wrappers
  import opened JsNumbers
  import opened JsArray
  import opened TournamentTypes

  /** The errors the reducer throws. */
  datatype TournamentError = DuplicatePlayer | TournamentFinished | InvalidRanks | UnknownPlayer

  /** One line of a submitted match: a player id and the rank given for it. */
  datatype RankSubmission = RankSubmission(playerId: string, rank: int)

  /** The state a tournament starts from. */
  function EmptyState(): TournamentState
  {
    TournamentState([], [], false, 0)
  }

  /** The index of the first player with this id. */
  function FindPlayer(players: seq<Player>, id: string): Option<nat>
  {
    Find(players, (p: Player) => p.id == id)
  }

  /** Whether some player has this id. */
  predicate IsRegistered(players: seq<Player>, id: string)
  {
    exists i | 0 <= i < |players| :: players[i].id == id
  }

  // Registration

  /**
   * Registers `name` under the fresh id `id` at time `now`. Fails when a player already
   * has exactly this name; otherwise appends one player and changes nothing else.
   */
  function AddPlayer(s: TournamentState, name: string, id: string, now: int): (r: Result<TournamentState, TournamentError>)
    ensures r.Failure? <==> exists i | 0 <= i < |s.players| :: s.players[i].name == name
    ensures r.Failure? ==> r.error == DuplicatePlayer
    ensures r.Success? ==>
      && r.value.players == s.players + [Player(id, name, Finite(0), Normal, now)]
      && r.value.matches == s.matches
      && r.value.isFinished == s.isFinished
      && r.value.championCount == s.championCount
  {
    if exists i | 0 <= i < |s.players| :: s.players[i].name == name then
      Failure(DuplicatePlayer)
    else
      Success(s.(players := s.players + [Player(id, name, Finite(0), Normal, now)]))
  }

  // Score and status recomputation

  /**
   * The status a recomputed score gives: a champion stays champion; nobody else becomes
   * one; elimination exactly at or above the threshold (never for NaN).
   */
  function CalculatePlayerStatus(score: Num, current: PlayerStatus): (status: PlayerStatus)
    ensures current == Champion ==> status == Champion
    ensures current != Champion ==> status != Champion
    ensures status == Elimination <==> current != Champion && AtLeast(score, EliminationThreshold)
  {
    if current == Champion then Champion
    else if AtLeast(score, EliminationThreshold) then Elimination
    else Normal
  }

  /** A result's score as `+` reads it: `undefined` becomes NaN. */
  function ScoreAsNumber(score: Option<nat>): Num
  {
    if score.Some? then Finite(score.value) else NaN
  }

  /** What one match adds to a player's total: the score of the first line naming the player, or 0. */
  function MatchContribution(id: string, m: Match): (c: Num)
    ensures (forall j | 0 <= j < |m.results| :: m.results[j].playerId != id) ==> c == Finite(0)
    ensures c.Finite? ==> c.value >= 0
  {
    match Find(m.results, (r: MatchResult) => r.playerId == id)
    case None => Finite(0)
    case Some(k) => ScoreAsNumber(m.results[k].score)
  }

  /** A player's total over a ledger, summed from the first match to the last. */
  function LedgerScore(id: string, matches: seq<Match>): (total: Num)
    ensures total.Finite? ==> total.value >= 0
    decreases |matches|
  {
    if matches == [] then Finite(0)
    else Add(LedgerScore(id, matches[..|matches| - 1]), MatchContribution(id, matches[|matches| - 1]))
  }

  /** One player with score and status recomputed from the ledger. */
  function RecomputePlayer(p: Player, matches: seq<Match>): Player
  {
    var total := LedgerScore(p.id, matches);
    p.(totalScore := total, status := CalculatePlayerStatus(total, p.status))
  }

  /**
   * Every player rebuilt from the ledger, in the same order: identity, name and
   * registration time kept, score summed afresh, status recalculated from it.
   */
  function UpdatePlayersScores(players: seq<Player>, matches: seq<Match>): (r: seq<Player>)
    ensures |r| == |players|
    ensures forall i | 0 <= i < |players| ::
      && r[i].id == players[i].id
      && r[i].name == players[i].name
      && r[i].registeredAt == players[i].registeredAt
      && r[i].totalScore == LedgerScore(players[i].id, matches)
      && r[i].status == CalculatePlayerStatus(r[i].totalScore, players[i].status)
  {
    seq(|players|, i requires 0 <= i < |players| => RecomputePlayer(players[i], matches))
  }

  /** How many players are champions. */
  function CountChampions(players: seq<Player>): (count: nat)
    ensures count <= |players|
    ensures count == 0 <==> forall i | 0 <= i < |players| :: players[i].status != Champion
  {
    if players == [] then 0
    else (if players[0].status == Champion then 1 else 0) + CountChampions(players[1..])
  }

  // Recording a match

  /** The submitted ranks, in submission order. */
  function Ranks(submissions: seq<RankSubmission>): (ranks: seq<int>)
    ensures |ranks| == |submissions|
    ensures forall k | 0 <= k < |submissions| :: ranks[k] == submissions[k].rank
  {
    seq(|submissions|, k requires 0 <= k < |submissions| => submissions[k].rank)
  }

  /** The ranks 1 to n in order: what a valid match's sorted ranks must equal. */
  function Iota(n: nat): (r: seq<int>)
    ensures |r| == n
    ensures forall i | 0 <= i < n :: r[i] == i + 1
  {
    seq(n, i => i + 1)
  }

  /**
   * The rank check: the ranks, sorted the way `sort()` without a comparator sorts
   * them (as strings), must read exactly `[1, ..., N]`.
   */
  predicate RanksAccepted(ranks: seq<int>)
  {
    Sort(ranks, DefaultLess) == Iota(|ranks|)
  }

  /** Every submitted player id belongs to a registered player. */
  predicate AllRegistered(players: seq<Player>, submissions: seq<RankSubmission>)
  {
    forall k | 0 <= k < |submissions| :: IsRegistered(players, submissions[k].playerId)
  }

  /** One recorded line: id and rank copied, name snapshot taken, points from the table. */
  function MakeResult(players: seq<Player>, submission: RankSubmission): (r: MatchResult)
    requires IsRegistered(players, submission.playerId)
    ensures FindPlayer(players, submission.playerId).Some?
    ensures r.playerId == submission.playerId && r.rank == submission.rank
    ensures r.playerName == players[FindPlayer(players, submission.playerId).value].name
    ensures r.score == ScoreMap(submission.rank)
  {
    var i := FindPlayer(players, submission.playerId).value;
    MatchResult(submission.playerId, players[i].name, submission.rank, ScoreMap(submission.rank))
  }

  function MakeResults(players: seq<Player>, submissions: seq<RankSubmission>): (results: seq<MatchResult>)
    requires AllRegistered(players, submissions)
    ensures |results| == |submissions|
    ensures forall k | 0 <= k < |submissions| :: results[k] == MakeResult(players, submissions[k])
  {
    seq(|submissions|, k requires 0 <= k < |submissions| => MakeResult(players, submissions[k]))
  }

  /** Whether the first player with this id has this status. */
  predicate HasStatus(players: seq<Player>, id: string, status: PlayerStatus)
  {
    match FindPlayer(players, id)
    case None => false
    case Some(i) => players[i].status == status
  }

  /**
   * The ids of the players to crown: those that took rank 1 in `results` and, in the
   * recomputed `players`, are at elimination status.
   */
  function NewChampionIds(results: seq<MatchResult>, players: seq<Player>): (ids: seq<string>)
    ensures forall id :: id in ids <==>
      exists k | 0 <= k < |results| :: results[k].rank == 1 && results[k].playerId == id && HasStatus(players, id, Elimination)
  {
    if results == [] then []
    else
      var head := if results[0].rank == 1 && HasStatus(players, results[0].playerId, Elimination)
        then [results[0].playerId] else [];
      var rest := NewChampionIds(results[1..], players);
      assert forall id :: id in rest <==>
        exists k | 1 <= k < |results| :: results[k].rank == 1 && results[k].playerId == id && HasStatus(players, id, Elimination);
      head + rest
  }

  /** Every player whose id is listed becomes champion; everyone else is left as is. */
  function Promote(players: seq<Player>, ids: seq<string>): seq<Player>
  {
    seq(|players|, i requires 0 <= i < |players| =>
      if players[i].id in ids then players[i].(status := Champion) else players[i])
  }

  /**
   * Records a match. Throws, in this order, when the tournament is finished, when the
   * ranks are not accepted, when a submitted id is unknown. Otherwise appends the
   * match, rebuilds every player from the ledger, crowns the rank-1 player of this
   * match if the recomputation put them at elimination status, and re-derives the
   * champion count and the finished flag.
   */
  function AddMatch(s: TournamentState, submissions: seq<RankSubmission>, matchId: string, now: int)
    : (r: Result<TournamentState, TournamentError>)
    ensures s.isFinished ==> r == Failure(TournamentFinished)
    ensures !s.isFinished && !RanksAccepted(Ranks(submissions)) ==> r == Failure(InvalidRanks)
    ensures !s.isFinished && RanksAccepted(Ranks(submissions)) && !AllRegistered(s.players, submissions)
      ==> r == Failure(UnknownPlayer)
    ensures r.Success? <==>
      !s.isFinished && RanksAccepted(Ranks(submissions)) && AllRegistered(s.players, submissions)
    ensures r.Success? ==>
      && r.value.matches == s.matches + [Match(matchId, now, MakeResults(s.players, submissions), now)]
      && |r.value.players| == |s.players|
      && (forall i | 0 <= i < |s.players| ::
            && r.value.players[i].id == s.players[i].id
            && r.value.players[i].name == s.players[i].name
            && r.value.players[i].registeredAt == s.players[i].registeredAt
            && r.value.players[i].totalScore == LedgerScore(s.players[i].id, r.value.matches))
      && r.value.championCount == CountChampions(r.value.players)
      && r.value.isFinished == (r.value.championCount >= MaxChampions)
  {
    if s.isFinished then Failure(TournamentFinished)
    else if !RanksAccepted(Ranks(submissions)) then Failure(InvalidRanks)
    else if !AllRegistered(s.players, submissions) then Failure(UnknownPlayer)
    else
      var results := MakeResults(s.players, submissions);
      var matches := s.matches + [Match(matchId, now, results, now)];
      var updated := UpdatePlayersScores(s.players, matches);
      var players := Promote(updated, NewChampionIds(results, updated));
      var count := CountChampions(players);
      Success(TournamentState(players, matches, count >= MaxChampions, count))
  }

  // Deleting a match

  /** The ledger without the matches carrying this id, order kept. */
  function RemoveMatch(matches: seq<Match>, matchId: string): (r: seq<Match>)
    ensures forall m :: m in r <==> m in matches && m.id != matchId
    ensures (forall k | 0 <= k < |matches| :: matches[k].id != matchId) ==> r == matches
  {
    if matches == [] then []
    else (if matches[0].id == matchId then [] else [matches[0]]) + RemoveMatch(matches[1..], matchId)
  }

  /**
   * Deletes every match with this id (none is fine) and rebuilds every player from the
   * remaining ledger. Champions stay champions and nobody else becomes one, so the
   * champion count and the finished flag are those of the players before.
   */
  function DeleteMatch(s: TournamentState, matchId: string): (r: TournamentState)
    ensures r.matches == RemoveMatch(s.matches, matchId)
    ensures |r.players| == |s.players|
    ensures forall i | 0 <= i < |s.players| ::
      && r.players[i].id == s.players[i].id
      && r.players[i].name == s.players[i].name
      && r.players[i].registeredAt == s.players[i].registeredAt
      && r.players[i].totalScore == LedgerScore(s.players[i].id, r.matches)
      && r.players[i].status == CalculatePlayerStatus(r.players[i].totalScore, s.players[i].status)
    ensures r.championCount == CountChampions(s.players)
    ensures r.isFinished == (CountChampions(s.players) >= MaxChampions)
  {
    var matches := RemoveMatch(s.matches, matchId);
    var players := UpdatePlayersScores(s.players, matches);
    ChampionsKept(s.players, players);
    var count := CountChampions(players);
    s.(players := players, matches := matches, championCount := count, isFinished := count >= MaxChampions)
  }

  /** Two player lists with champions at the same places have the same champion count. */
  lemma {:induction false} ChampionsKept(before: seq<Player>, after: seq<Player>)
    requires |before| == |after|
    requires forall i | 0 <= i < |before| :: (before[i].status == Champion) == (after[i].status == Champion)
    ensures CountChampions(after) == CountChampions(before)
  {
    if before != [] {
      ChampionsKept(before[1..], after[1..]);
    }
  }

  // Standings

  /**
   * The leaderboard comparator: a champion before a non-champion, then more points
   * first (`b.totalScore - a.totalScore`), then earlier registration first.
   */
  function CompareForLeaderboard(a: Player, b: Player): Num
  {
    if a.status == Champion && b.status != Champion then Finite(-1)
    else if b.status == Champion && a.status != Champion then Finite(1)
    else if StrictlyUnequal(a.totalScore, b.totalScore) then Sub(b.totalScore, a.totalScore)
    else Finite(a.registeredAt - b.registeredAt)
  }

  /** `a` goes before `b`: the comparator is negative (a NaN result counts as 0). */
  predicate GoesBefore(a: Player, b: Player)
  {
    var c := CompareForLeaderboard(a, b);
    c.Finite? && c.value < 0
  }

  /** The standings: a sorted copy of the players; the input list is not changed. */
  function GetLeaderboard(players: seq<Player>): (board: seq<Player>)
    ensures multiset(board) == multiset(players)
  {
    Sort(players, GoesBefore)
  }
}
