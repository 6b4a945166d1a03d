/**
 * A session of the page: registrations, recorded matches and deletions applied in
 * turn to the shared state. A reducer error is shown as a notification and the state
 * stays as it was. Fresh ids and clock readings are part of each operation.
 */
module TournamentSession {
  import opened Wrappers
  import opened TournamentTypes
  import opened Tournament
  import opened TournamentProperties

  datatype Operation =
    | Register(name: string, playerId: string, now: int)
    | Record(submissions: seq<RankSubmission>, matchId: string, now: int)
    | Delete(matchId: string)

  /** One handler call: the reducer's new state, or the old one when it fails. */
  function Apply(s: TournamentState, op: Operation): (r: TournamentState)
    ensures op.Register? && AddPlayer(s, op.name, op.playerId, op.now).Failure? ==> r == s
    ensures op.Record? && AddMatch(s, op.submissions, op.matchId, op.now).Failure? ==> r == s
  {
    match op
    case Register(name, id, now) =>
      (match AddPlayer(s, name, id, now)
       case Success(t) => t
       case Failure(_) => s)
    case Record(submissions, matchId, now) =>
      (match AddMatch(s, submissions, matchId, now)
       case Success(t) => t
       case Failure(_) => s)
    case Delete(matchId) => DeleteMatch(s, matchId)
  }

  function Run(s: TournamentState, ops: seq<Operation>): TournamentState
    decreases |ops|
  {
    if ops == [] then s else Run(Apply(s, ops[0]), ops[1..])
  }

  /** Every registration gets an id that no registered player has yet. */
  ghost predicate FreshIds(s: TournamentState, ops: seq<Operation>)
    decreases |ops|
  {
    ops != [] ==>
      && (ops[0].Register? ==> !IsRegistered(s.players, ops[0].playerId))
      && FreshIds(Apply(s, ops[0]), ops[1..])
  }

  /** One handler call keeps the invariant, never loses a champion and never reopens the tournament. */
  lemma ApplyPreservesValid(s: TournamentState, op: Operation)
    requires Valid(s)
    requires op.Register? ==> !IsRegistered(s.players, op.playerId)
    ensures var t := Apply(s, op);
      && Valid(t)
      && s.championCount <= t.championCount
      && (s.isFinished ==> t.isFinished)
  {
    match op
    case Register(name, id, now) =>
      AddPlayerPreservesValid(s, name, id, now);
    case Record(submissions, matchId, now) =>
      AddMatchPreservesValid(s, submissions, matchId, now);
      if AddMatch(s, submissions, matchId, now).Success? {
        AddMatchChampions(s, submissions, matchId, now);
      }
    case Delete(matchId) =>
      DeleteMatchPreservesValid(s, matchId);
  }

  lemma {:induction false} RunPreservesValid(s: TournamentState, ops: seq<Operation>)
    requires Valid(s) && FreshIds(s, ops)
    ensures var t := Run(s, ops);
      && Valid(t)
      && s.championCount <= t.championCount
      && (s.isFinished ==> t.isFinished)
    decreases |ops|
  {
    if ops != [] {
      ApplyPreservesValid(s, ops[0]);
      RunPreservesValid(Apply(s, ops[0]), ops[1..]);
    }
  }

  /**
   * Every state a session reaches from the empty tournament is consistent: totals
   * and statuses agree with the match ledger, there are at most three champions, and
   * the tournament is finished exactly when there are three.
   */
  lemma ReachableValid(ops: seq<Operation>)
    requires FreshIds(EmptyState(), ops)
    ensures Valid(Run(EmptyState(), ops))
    ensures Run(EmptyState(), ops).championCount <= MaxChampions
    ensures Run(EmptyState(), ops).isFinished <==> Run(EmptyState(), ops).championCount == MaxChampions
  {
    EmptyStateValid();
    RunPreservesValid(EmptyState(), ops);
  }

  /** Once finished, a session stays finished and refuses every further match. */
  lemma {:induction false} FinishedStaysFinished(s: TournamentState, ops: seq<Operation>)
    requires Valid(s) && FreshIds(s, ops) && s.isFinished
    ensures Run(s, ops).isFinished
    ensures forall m | m in Run(s, ops).matches :: m in s.matches
    decreases |ops|
  {
    if ops != [] {
      ApplyPreservesValid(s, ops[0]);
      FinishedStaysFinished(Apply(s, ops[0]), ops[1..]);
    }
  }
}
