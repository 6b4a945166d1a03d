/**
 * What the reducer guarantees: the rank check's meaning, the whole-state invariant
 * kept by every operation, champion promotion, the record-then-delete round trip, how
 * scores add up over the ledger, and the order of the leaderboard.
 */
module TournamentProperties {
  import opened Wrappers
  import opened JsNumbers
  import opened JsArray
  import opened TournamentTypes
  import opened Tournament

  // The rank check

  /** The default sort comparison is consistent on any list of integers. */
  lemma DefaultLessConsistent(dom: seq<int>)
    ensures ConsistentOn(dom, DefaultLess)
  {
    forall a, b | a in dom && b in dom
      ensures DefaultLess(a, b) ==> !DefaultLess(b, a)
    {
      StringLessAsymmetric(NumberToString(a), NumberToString(b));
    }
    forall a, b, c | a in dom && b in dom && c in dom
      ensures !DefaultLess(b, a) && !DefaultLess(c, b) ==> !DefaultLess(c, a)
    {
      var sa, sb, sc := NumberToString(a), NumberToString(b), NumberToString(c);
      StringLessTotal(sa, sb);
      StringLessTotal(sb, sc);
      StringLessTransitive(sa, sb, sc);
      StringLessAsymmetric(sa, sc);
      StringLessAsymmetric(sa, sa);
    }
  }

  /** Up to nine, `[1, ..., n]` is already in string order. */
  lemma IotaSorted(n: nat)
    requires n <= 9
    ensures SortedBy(Iota(n), DefaultLess)
  {
    forall i, j | 0 <= i < j < n
      ensures !DefaultLess(Iota(n)[j], Iota(n)[i])
    {
      SingleDigitOrder(j + 1, i + 1);
    }
  }

  lemma InIota(n: nat, a: int)
    requires a in multiset(Iota(n))
    ensures 1 <= a <= n
  {
    var i :| 0 <= i < n && Iota(n)[i] == a;
  }

  /**
   * The rank check accepts exactly the permutations of 1..N for N up to 9: the empty
   * list passes, and every list of ten or more ranks fails, because "10" sorts
   * before "9".
   */
  lemma RanksAcceptedIff(ranks: seq<int>)
    ensures RanksAccepted(ranks) <==> |ranks| <= 9 && multiset(ranks) == multiset(Iota(|ranks|))
    ensures |ranks| == 0 ==> RanksAccepted(ranks)
    ensures |ranks| >= 10 ==> !RanksAccepted(ranks)
  {
    var n := |ranks|;
    var sorted := Sort(ranks, DefaultLess);
    DefaultLessConsistent(ranks);
    SortSorted(ranks, DefaultLess);
    if n >= 10 {
      TenBeforeNine();
      assert !DefaultLess(sorted[9], sorted[8]);
      assert Iota(n)[9] == 10 && Iota(n)[8] == 9;
      assert sorted != Iota(n);
    } else if multiset(ranks) == multiset(Iota(n)) {
      IotaSorted(n);
      forall a, b | a in sorted && b in sorted
        ensures Tied(a, b, DefaultLess) ==> a == b
      {
        InIota(n, a);
        InIota(n, b);
        SingleDigitOrder(a, b);
        SingleDigitOrder(b, a);
      }
      SortedUnique(sorted, Iota(n), DefaultLess);
    }
  }

  lemma {:induction false} IotaOnce(n: nat, v: int)
    ensures multiset(Iota(n))[v] <= 1
  {
    if n > 0 {
      IotaOnce(n - 1, v);
      assert Iota(n) == Iota(n - 1) + [n];
      if v == n {
        assert v !in Iota(n - 1);
      }
    }
  }

  lemma {:induction false} TwiceCounted(s: seq<int>, i: nat, j: nat)
    requires i < j < |s| && s[i] == s[j]
    ensures multiset(s)[s[i]] >= 2
  {
    assert s == [s[0]] + s[1..];
    if i == 0 {
      assert s[1..][j - 1] == s[i];
    } else {
      TwiceCounted(s[1..], i - 1, j - 1);
    }
  }

  /** In an accepted match at most one line has rank 1. */
  lemma RankOneAtMostOnce(submissions: seq<RankSubmission>, k1: nat, k2: nat)
    requires RanksAccepted(Ranks(submissions))
    requires k1 < |submissions| && k2 < |submissions|
    requires submissions[k1].rank == 1 && submissions[k2].rank == 1
    ensures k1 == k2
  {
    var ranks := Ranks(submissions);
    RanksAcceptedIff(ranks);
    IotaOnce(|ranks|, 1);
    if k1 < k2 {
      TwiceCounted(ranks, k1, k2);
    } else if k2 < k1 {
      TwiceCounted(ranks, k2, k1);
    }
  }

  // The whole-state invariant

  ghost predicate DistinctIds(players: seq<Player>)
  {
    forall i, j | 0 <= i < j < |players| :: players[i].id != players[j].id
  }

  ghost predicate DistinctNames(players: seq<Player>)
  {
    forall i, j | 0 <= i < j < |players| :: players[i].name != players[j].name
  }

  /** Every line of every match names a registered player. */
  ghost predicate LedgerRefersToPlayers(players: seq<Player>, matches: seq<Match>)
  {
    forall k, j | 0 <= k < |matches| && 0 <= j < |matches[k].results| ::
      IsRegistered(players, matches[k].results[j].playerId)
  }

  /** Every total is the player's sum over the ledger. */
  ghost predicate ScoresMatchLedger(players: seq<Player>, matches: seq<Match>)
  {
    forall i | 0 <= i < |players| :: players[i].totalScore == LedgerScore(players[i].id, matches)
  }

  /** Recalculating any status from its own score changes nothing. */
  ghost predicate StatusesSettled(players: seq<Player>)
  {
    forall i | 0 <= i < |players| ::
      players[i].status == CalculatePlayerStatus(players[i].totalScore, players[i].status)
  }

  /** The ranks of a recorded match, in line order. */
  function ResultRanks(results: seq<MatchResult>): (ranks: seq<int>)
    ensures |ranks| == |results|
    ensures forall j | 0 <= j < |results| :: ranks[j] == results[j].rank
  {
    seq(|results|, j requires 0 <= j < |results| => results[j].rank)
  }

  /** A recorded match passed the rank check and every line carries its rank's points. */
  ghost predicate MatchWellFormed(m: Match)
  {
    && RanksAccepted(ResultRanks(m.results))
    && forall j | 0 <= j < |m.results| :: m.results[j].score == ScoreMap(m.results[j].rank)
  }

  ghost predicate LedgerWellFormed(matches: seq<Match>)
  {
    forall k | 0 <= k < |matches| :: MatchWellFormed(matches[k])
  }

  /**
   * The invariant of every reachable state: ids and names unique, the ledger refers
   * only to registered players and holds only checked matches, totals are ledger
   * sums, statuses agree with totals,
   * `championCount` counts the champions, `isFinished` is `championCount >= 3`, and
   * there are never more than three champions.
   */
  ghost predicate Valid(s: TournamentState)
  {
    && DistinctIds(s.players)
    && DistinctNames(s.players)
    && LedgerRefersToPlayers(s.players, s.matches)
    && LedgerWellFormed(s.matches)
    && ScoresMatchLedger(s.players, s.matches)
    && StatusesSettled(s.players)
    && s.championCount == CountChampions(s.players)
    && s.isFinished == (s.championCount >= MaxChampions)
    && s.championCount <= MaxChampions
  }

  lemma EmptyStateValid()
    ensures Valid(EmptyState())
  {
  }

  lemma {:induction false} CountAppend(a: seq<Player>, b: seq<Player>)
    ensures CountChampions(a + b) == CountChampions(a) + CountChampions(b)
  {
    if a == [] {
      assert a + b == b;
    } else {
      assert (a + b)[1..] == a[1..] + b;
      CountAppend(a[1..], b);
    }
  }

  /** A player no line of the ledger names has a total of 0. */
  lemma {:induction false} LedgerScoreUnmentioned(id: string, matches: seq<Match>)
    requires forall k, j | 0 <= k < |matches| && 0 <= j < |matches[k].results| ::
      matches[k].results[j].playerId != id
    ensures LedgerScore(id, matches) == Finite(0)
  {
    if matches != [] {
      var prefix := matches[..|matches| - 1];
      assert forall k, j | 0 <= k < |prefix| && 0 <= j < |prefix[k].results| ::
        prefix[k].results[j] == matches[k].results[j];
      LedgerScoreUnmentioned(id, prefix);
    }
  }

  /** Registering under a fresh id keeps the invariant. */
  lemma AddPlayerPreservesValid(s: TournamentState, name: string, id: string, now: int)
    requires Valid(s)
    requires !IsRegistered(s.players, id)
    ensures AddPlayer(s, name, id, now).Success? ==> Valid(AddPlayer(s, name, id, now).value)
  {
    if AddPlayer(s, name, id, now).Success? {
      var p := Player(id, name, Finite(0), Normal, now);
      var ps := s.players + [p];
      assert AddPlayer(s, name, id, now).value == s.(players := ps);
      assert forall i | 0 <= i < |s.players| :: s.players[i].name != name;
      AppendPlayerSound(s.players, s.matches, p);
      CountAppend(s.players, [p]);
    }
  }

  /** Appending a new player on 0 points, with a fresh id and name, keeps the per-player parts of the invariant. */
  lemma AppendPlayerSound(players: seq<Player>, matches: seq<Match>, p: Player)
    requires DistinctIds(players) && DistinctNames(players)
    requires LedgerRefersToPlayers(players, matches)
    requires ScoresMatchLedger(players, matches) && StatusesSettled(players)
    requires !IsRegistered(players, p.id)
    requires forall i | 0 <= i < |players| :: players[i].name != p.name
    requires p.totalScore == Finite(0) && p.status == Normal
    ensures var ps := players + [p];
      && DistinctIds(ps) && DistinctNames(ps)
      && LedgerRefersToPlayers(ps, matches)
      && ScoresMatchLedger(ps, matches) && StatusesSettled(ps)
  {
    AppendDistinct(players, p);
    AppendLedgerRefers(players, matches, p);
    AppendScoresSettled(players, matches, p);
  }

  lemma AppendDistinct(players: seq<Player>, p: Player)
    requires DistinctIds(players) && DistinctNames(players)
    requires !IsRegistered(players, p.id)
    requires forall i | 0 <= i < |players| :: players[i].name != p.name
    ensures DistinctIds(players + [p]) && DistinctNames(players + [p])
  {
    var ps := players + [p];
    forall i, j | 0 <= i < j < |ps|
      ensures ps[i].id != ps[j].id && ps[i].name != ps[j].name
    {
      assert ps[i] == players[i];
      if j < |players| {
        assert ps[j] == players[j];
      } else {
        assert ps[j] == p;
      }
    }
  }

  /** A ledger that names only registered players never names a fresh id. */
  lemma AppendLedgerRefers(players: seq<Player>, matches: seq<Match>, p: Player)
    requires LedgerRefersToPlayers(players, matches)
    requires !IsRegistered(players, p.id)
    ensures LedgerRefersToPlayers(players + [p], matches)
    ensures forall k, j | 0 <= k < |matches| && 0 <= j < |matches[k].results| ::
      matches[k].results[j].playerId != p.id
  {
    var ps := players + [p];
    forall k, j | 0 <= k < |matches| && 0 <= j < |matches[k].results|
      ensures matches[k].results[j].playerId != p.id
      ensures IsRegistered(ps, matches[k].results[j].playerId)
    {
      var i :| 0 <= i < |players| && players[i].id == matches[k].results[j].playerId;
      assert ps[i] == players[i];
    }
  }

  lemma AppendScoresSettled(players: seq<Player>, matches: seq<Match>, p: Player)
    requires ScoresMatchLedger(players, matches) && StatusesSettled(players)
    requires forall k, j | 0 <= k < |matches| && 0 <= j < |matches[k].results| ::
      matches[k].results[j].playerId != p.id
    requires p.totalScore == Finite(0) && p.status == Normal
    ensures ScoresMatchLedger(players + [p], matches) && StatusesSettled(players + [p])
  {
    var ps := players + [p];
    LedgerScoreUnmentioned(p.id, matches);
    forall i | 0 <= i < |ps|
      ensures ps[i].totalScore == LedgerScore(ps[i].id, matches)
      ensures ps[i].status == CalculatePlayerStatus(ps[i].totalScore, ps[i].status)
    {
      if i < |players| {
        assert ps[i] == players[i];
      } else {
        assert ps[i] == p;
      }
    }
  }

  // Recording a match: promotion

  /** Whether some submitted line gives this player rank 1. */
  predicate WonMatch(submissions: seq<RankSubmission>, id: string)
  {
    exists k | 0 <= k < |submissions| :: submissions[k].rank == 1 && submissions[k].playerId == id
  }

  /**
   * The status a player ends a recorded match with: recalculated from the total that
   * counts the match, then champion if the player won the match and that recalculated
   * status is elimination.
   */
  function StatusAfterMatch(before: PlayerStatus, total: Num, won: bool): PlayerStatus
  {
    var recalculated := CalculatePlayerStatus(total, before);
    if won && recalculated == Elimination then Champion else recalculated
  }

  lemma FindPlayerDistinct(players: seq<Player>, i: nat)
    requires DistinctIds(players) && i < |players|
    ensures FindPlayer(players, players[i].id) == Some(i)
  {
    var r := FindPlayer(players, players[i].id);
    assert ((p: Player) => p.id == players[i].id)(players[i]);
    assert forall j | 0 <= j < |players| && j != i :: players[j].id != players[i].id;
  }

  /**
   * Promotion in `addMatch`: exactly the winners of the new match whose recalculated
   * status (counting this match) is elimination become champion, and every other
   * status is just the recalculated one.
   */
  lemma AddMatchStatuses(s: TournamentState, submissions: seq<RankSubmission>, matchId: string, now: int)
    requires Valid(s)
    requires AddMatch(s, submissions, matchId, now).Success?
    ensures forall i | 0 <= i < |s.players| ::
      AddMatch(s, submissions, matchId, now).value.players[i].status
      == StatusAfterMatch(s.players[i].status,
                          AddMatch(s, submissions, matchId, now).value.players[i].totalScore,
                          WonMatch(submissions, s.players[i].id))
  {
    var t := AddMatch(s, submissions, matchId, now).value;
    var results := MakeResults(s.players, submissions);
    var matches := s.matches + [Match(matchId, now, results, now)];
    var updated := UpdatePlayersScores(s.players, matches);
    var ids := NewChampionIds(results, updated);
    assert t.players == Promote(updated, ids);
    forall i | 0 <= i < |s.players|
      ensures t.players[i].status
        == StatusAfterMatch(s.players[i].status, t.players[i].totalScore, WonMatch(submissions, s.players[i].id))
    {
      var id := s.players[i].id;
      FindPlayerDistinct(updated, i);
      assert HasStatus(updated, id, Elimination) <==> updated[i].status == Elimination;
      if WonMatch(submissions, id) && updated[i].status == Elimination {
        var k :| 0 <= k < |submissions| && submissions[k].rank == 1 && submissions[k].playerId == id;
        assert results[k].rank == 1 && results[k].playerId == id;
      }
      if id in ids {
        var k :| 0 <= k < |results| && results[k].rank == 1 && results[k].playerId == id
          && HasStatus(updated, id, Elimination);
        assert submissions[k].rank == 1 && submissions[k].playerId == id;
      }
    }
  }

  /** A player who reaches the threshold with this very match and wins it is crowned by it. */
  lemma CrossAndWinPromotes(s: TournamentState, submissions: seq<RankSubmission>, matchId: string, now: int, i: nat)
    requires Valid(s)
    requires AddMatch(s, submissions, matchId, now).Success?
    requires i < |s.players| && s.players[i].status == Normal
    requires WonMatch(submissions, s.players[i].id)
    requires AtLeast(AddMatch(s, submissions, matchId, now).value.players[i].totalScore, EliminationThreshold)
    ensures AddMatch(s, submissions, matchId, now).value.players[i].status == Champion
  {
    AddMatchStatuses(s, submissions, matchId, now);
  }

  /** A player who was not champion before and is afterwards. */
  predicate Crowned(before: Player, after: Player)
  {
    after.status == Champion && before.status != Champion
  }

  lemma {:induction false} CountMonotone(before: seq<Player>, after: seq<Player>)
    requires |before| == |after|
    requires forall i | 0 <= i < |before| :: before[i].status == Champion ==> after[i].status == Champion
    ensures CountChampions(before) <= CountChampions(after)
  {
    if before != [] {
      CountMonotone(before[1..], after[1..]);
    }
  }

  lemma {:induction false} CountNoneCrowned(before: seq<Player>, after: seq<Player>)
    requires |before| == |after|
    requires forall i | 0 <= i < |before| :: !Crowned(before[i], after[i])
    ensures CountChampions(after) <= CountChampions(before)
  {
    if before != [] {
      assert forall i | 0 <= i < |before| - 1 :: before[1..][i] == before[i + 1] && after[1..][i] == after[i + 1];
      CountNoneCrowned(before[1..], after[1..]);
    }
  }

  lemma {:induction false} CountOneCrowned(before: seq<Player>, after: seq<Player>)
    requires |before| == |after|
    requires forall i, j | 0 <= i < |before| && 0 <= j < |before| && Crowned(before[i], after[i]) && Crowned(before[j], after[j]) :: i == j
    ensures CountChampions(after) <= CountChampions(before) + 1
  {
    if before != [] {
      assert forall i | 0 <= i < |before| - 1 :: before[1..][i] == before[i + 1] && after[1..][i] == after[i + 1];
      if Crowned(before[0], after[0]) {
        CountNoneCrowned(before[1..], after[1..]);
      } else {
        CountOneCrowned(before[1..], after[1..]);
      }
    }
  }

  /** Only winners can be crowned, and an accepted match has at most one winner. */
  lemma AtMostOneCrowned(before: seq<Player>, after: seq<Player>, submissions: seq<RankSubmission>)
    requires |before| == |after| && DistinctIds(before)
    requires RanksAccepted(Ranks(submissions))
    requires forall i | 0 <= i < |before| :: Crowned(before[i], after[i]) ==> WonMatch(submissions, before[i].id)
    ensures forall i, j | 0 <= i < |before| && 0 <= j < |before|
      && Crowned(before[i], after[i]) && Crowned(before[j], after[j]) :: i == j
  {
    forall i, j | 0 <= i < |before| && 0 <= j < |before|
        && Crowned(before[i], after[i]) && Crowned(before[j], after[j])
      ensures i == j
    {
      var ki :| 0 <= ki < |submissions| && submissions[ki].rank == 1 && submissions[ki].playerId == before[i].id;
      var kj :| 0 <= kj < |submissions| && submissions[kj].rank == 1 && submissions[kj].playerId == before[j].id;
      RankOneAtMostOnce(submissions, ki, kj);
    }
  }

  /**
   * At most one player is crowned per match (rank 1 appears at most once), nobody
   * loses the champion title, so the champion count grows by at most one.
   */
  lemma AddMatchChampions(s: TournamentState, submissions: seq<RankSubmission>, matchId: string, now: int)
    requires Valid(s)
    requires AddMatch(s, submissions, matchId, now).Success?
    ensures var t := AddMatch(s, submissions, matchId, now).value;
      && (forall i | 0 <= i < |s.players| :: s.players[i].status == Champion ==> t.players[i].status == Champion)
      && (forall i, j | 0 <= i < |s.players| && 0 <= j < |s.players|
            && Crowned(s.players[i], t.players[i]) && Crowned(s.players[j], t.players[j]) :: i == j)
      && s.championCount <= t.championCount <= s.championCount + 1
  {
    AddMatchStatuses(s, submissions, matchId, now);
    ChampionsAfterMatch(s.players, AddMatch(s, submissions, matchId, now).value.players, submissions);
  }

  /** The champion bookkeeping of one match, for any statuses that follow `StatusAfterMatch`. */
  lemma ChampionsAfterMatch(before: seq<Player>, after: seq<Player>, submissions: seq<RankSubmission>)
    requires |before| == |after| && DistinctIds(before)
    requires RanksAccepted(Ranks(submissions))
    requires forall i | 0 <= i < |before| ::
      after[i].status == StatusAfterMatch(before[i].status, after[i].totalScore, WonMatch(submissions, before[i].id))
    ensures forall i | 0 <= i < |before| :: before[i].status == Champion ==> after[i].status == Champion
    ensures forall i, j | 0 <= i < |before| && 0 <= j < |before|
      && Crowned(before[i], after[i]) && Crowned(before[j], after[j]) :: i == j
    ensures CountChampions(before) <= CountChampions(after) <= CountChampions(before) + 1
  {
    assert forall i | 0 <= i < |before| :: Crowned(before[i], after[i]) ==> WonMatch(submissions, before[i].id);
    AtMostOneCrowned(before, after, submissions);
    CountMonotone(before, after);
    CountOneCrowned(before, after);
  }

  /** Registration is a matter of ids alone: a list with the same ids registers the same players. */
  lemma SameIdsSameRegistered(players: seq<Player>, players': seq<Player>, id: string)
    requires |players'| == |players|
    requires forall i | 0 <= i < |players| :: players'[i].id == players[i].id
    ensures IsRegistered(players', id) == IsRegistered(players, id)
  {
    if IsRegistered(players, id) {
      var i :| 0 <= i < |players| && players[i].id == id;
      assert players'[i].id == id;
    }
    if IsRegistered(players', id) {
      var i :| 0 <= i < |players'| && players'[i].id == id;
      assert players[i].id == id;
    }
  }

  /** A ledger made of matches from a sound ledger, over players with the same ids, is sound. */
  lemma LedgerKept(players: seq<Player>, matches: seq<Match>, players': seq<Player>, matches': seq<Match>)
    requires LedgerRefersToPlayers(players, matches) && LedgerWellFormed(matches)
    requires |players'| == |players|
    requires forall i | 0 <= i < |players| :: players'[i].id == players[i].id
    requires forall m | m in matches' :: m in matches
    ensures LedgerRefersToPlayers(players', matches') && LedgerWellFormed(matches')
  {
    forall k, j | 0 <= k < |matches'| && 0 <= j < |matches'[k].results|
      ensures IsRegistered(players', matches'[k].results[j].playerId)
    {
      assert matches'[k] in matches;
      SameIdsSameRegistered(players, players', matches'[k].results[j].playerId);
    }
    forall k | 0 <= k < |matches'|
      ensures MatchWellFormed(matches'[k])
    {
      assert matches'[k] in matches;
    }
  }

  /** The match `addMatch` appends passed the rank check, names registered players and is scored from the table. */
  lemma NewMatchSound(s: TournamentState, submissions: seq<RankSubmission>, matchId: string, now: int)
    requires AddMatch(s, submissions, matchId, now).Success?
    ensures var m := Match(matchId, now, MakeResults(s.players, submissions), now);
      && MatchWellFormed(m)
      && forall j | 0 <= j < |m.results| :: IsRegistered(s.players, m.results[j].playerId)
  {
    var results := MakeResults(s.players, submissions);
    assert ResultRanks(results) == Ranks(submissions);
  }

  lemma AppendSound(players: seq<Player>, matches: seq<Match>, m: Match)
    requires LedgerRefersToPlayers(players, matches) && LedgerWellFormed(matches)
    requires MatchWellFormed(m)
    requires forall j | 0 <= j < |m.results| :: IsRegistered(players, m.results[j].playerId)
    ensures LedgerRefersToPlayers(players, matches + [m]) && LedgerWellFormed(matches + [m])
  {
    var ms := matches + [m];
    forall k, j | 0 <= k < |ms| && 0 <= j < |ms[k].results|
      ensures IsRegistered(players, ms[k].results[j].playerId)
    {
      if k < |matches| {
        assert ms[k] == matches[k];
      }
    }
  }

  lemma AddMatchLedgerSound(s: TournamentState, submissions: seq<RankSubmission>, matchId: string, now: int)
    requires Valid(s)
    requires AddMatch(s, submissions, matchId, now).Success?
    ensures var t := AddMatch(s, submissions, matchId, now).value;
      LedgerRefersToPlayers(t.players, t.matches) && LedgerWellFormed(t.matches)
  {
    var t := AddMatch(s, submissions, matchId, now).value;
    var m := Match(matchId, now, MakeResults(s.players, submissions), now);
    NewMatchSound(s, submissions, matchId, now);
    AppendSound(s.players, s.matches, m);
    LedgerKept(s.players, s.matches + [m], t.players, t.matches);
  }

  lemma AddMatchPlayersSound(s: TournamentState, submissions: seq<RankSubmission>, matchId: string, now: int)
    requires Valid(s)
    requires AddMatch(s, submissions, matchId, now).Success?
    ensures var t := AddMatch(s, submissions, matchId, now).value;
      && DistinctIds(t.players)
      && DistinctNames(t.players)
      && ScoresMatchLedger(t.players, t.matches)
      && StatusesSettled(t.players)
  {
    AddMatchStatuses(s, submissions, matchId, now);
    var t := AddMatch(s, submissions, matchId, now).value;
    PromotedSound(s.players, t.players, t.matches, submissions);
  }

  /**
   * Players rebuilt from a ledger and then promoted as one match promotes them keep
   * distinct ids and names, agree with the ledger, and have settled statuses.
   */
  lemma PromotedSound(players: seq<Player>, players': seq<Player>, matches: seq<Match>, submissions: seq<RankSubmission>)
    requires DistinctIds(players) && DistinctNames(players)
    requires |players'| == |players|
    requires forall i | 0 <= i < |players| ::
      && players'[i].id == players[i].id
      && players'[i].name == players[i].name
      && players'[i].totalScore == LedgerScore(players[i].id, matches)
      && players'[i].status
         == StatusAfterMatch(players[i].status, players'[i].totalScore, WonMatch(submissions, players[i].id))
    ensures DistinctIds(players') && DistinctNames(players')
    ensures ScoresMatchLedger(players', matches) && StatusesSettled(players')
  {
    forall i | 0 <= i < |players'|
      ensures players'[i].status == CalculatePlayerStatus(players'[i].totalScore, players'[i].status)
    {
      SettledAfterMatch(players[i].status, players'[i].totalScore, WonMatch(submissions, players[i].id));
    }
  }

  /** A status set by one match is already what recalculating it from the same total gives. */
  lemma SettledAfterMatch(before: PlayerStatus, total: Num, won: bool)
    ensures var after := StatusAfterMatch(before, total, won);
      after == CalculatePlayerStatus(total, after)
  {
  }

  /** Recording a match keeps the invariant, whatever its outcome. */
  lemma AddMatchPreservesValid(s: TournamentState, submissions: seq<RankSubmission>, matchId: string, now: int)
    requires Valid(s)
    ensures AddMatch(s, submissions, matchId, now).Success? ==> Valid(AddMatch(s, submissions, matchId, now).value)
  {
    if AddMatch(s, submissions, matchId, now).Success? {
      AddMatchLedgerSound(s, submissions, matchId, now);
      AddMatchPlayersSound(s, submissions, matchId, now);
      AddMatchChampions(s, submissions, matchId, now);
    }
  }

  // Deleting a match

  /** Deleting a match keeps the invariant and never changes who is champion. */
  lemma DeleteMatchPreservesValid(s: TournamentState, matchId: string)
    requires Valid(s)
    ensures Valid(DeleteMatch(s, matchId))
    ensures DeleteMatch(s, matchId).championCount == s.championCount
    ensures DeleteMatch(s, matchId).isFinished == s.isFinished
  {
    var t := DeleteMatch(s, matchId);
    LedgerKept(s.players, s.matches, t.players, t.matches);
    RecomputedSound(s.players, t.players, t.matches);
  }

  /**
   * A player list rebuilt from a ledger, as `UpdatePlayersScores` rebuilds it, keeps ids
   * and names distinct, agrees with that ledger, is settled, and has the same champions.
   */
  lemma RecomputedSound(players: seq<Player>, players': seq<Player>, matches: seq<Match>)
    requires DistinctIds(players) && DistinctNames(players)
    requires |players'| == |players|
    requires forall i | 0 <= i < |players| ::
      && players'[i].id == players[i].id
      && players'[i].name == players[i].name
      && players'[i].totalScore == LedgerScore(players[i].id, matches)
      && players'[i].status == CalculatePlayerStatus(players'[i].totalScore, players[i].status)
    ensures DistinctIds(players') && DistinctNames(players')
    ensures ScoresMatchLedger(players', matches) && StatusesSettled(players')
    ensures CountChampions(players') == CountChampions(players)
  {
    ChampionsKept(players, players');
  }

  lemma {:induction false} RemoveMatchAppend(a: seq<Match>, b: seq<Match>, matchId: string)
    ensures RemoveMatch(a + b, matchId) == RemoveMatch(a, matchId) + RemoveMatch(b, matchId)
  {
    if a == [] {
      assert a + b == b;
    } else {
      assert (a + b)[1..] == a[1..] + b;
      RemoveMatchAppend(a[1..], b, matchId);
    }
  }

  /**
   * Deleting a match just recorded under a fresh id gives every player back their
   * total and status from before the match, except that a title won in that match is
   * kept.
   */
  lemma AddThenDeleteRestores(s: TournamentState, submissions: seq<RankSubmission>, matchId: string, now: int)
    requires Valid(s)
    requires forall k | 0 <= k < |s.matches| :: s.matches[k].id != matchId
    requires AddMatch(s, submissions, matchId, now).Success?
    ensures var added := AddMatch(s, submissions, matchId, now).value;
      var restored := DeleteMatch(added, matchId);
      && restored.matches == s.matches
      && |restored.players| == |s.players|
      && forall i | 0 <= i < |s.players| ::
           restored.players[i]
           == if added.players[i].status == Champion then s.players[i].(status := Champion) else s.players[i]
  {
    var added := AddMatch(s, submissions, matchId, now).value;
    var restored := DeleteMatch(added, matchId);
    var m := Match(matchId, now, MakeResults(s.players, submissions), now);
    RemoveMatchAppend(s.matches, [m], matchId);
    assert RemoveMatch([m], matchId) == [];
    assert restored.matches == s.matches;
    AddMatchStatuses(s, submissions, matchId, now);
    forall i | 0 <= i < |s.players|
      ensures restored.players[i]
        == if added.players[i].status == Champion then s.players[i].(status := Champion) else s.players[i]
    {
      RestoredPlayer(s.players[i], added.players[i], restored.players[i]);
    }
  }

  /**
   * One player through record-then-delete: `q` is `p` rebuilt from `p`'s own total,
   * starting from the status `mid` had in between.
   */
  lemma RestoredPlayer(p: Player, mid: Player, q: Player)
    requires p.status == CalculatePlayerStatus(p.totalScore, p.status)
    requires p.status == Champion ==> mid.status == Champion
    requires q.id == p.id && q.name == p.name && q.registeredAt == p.registeredAt
    requires q.totalScore == p.totalScore
    requires q.status == CalculatePlayerStatus(q.totalScore, mid.status)
    ensures q == if mid.status == Champion then p.(status := Champion) else p
  {
  }

  /**
   * Recomputing a valid state without removing anything gives the same state back:
   * deleting an id no match has changes nothing.
   */
  lemma DeleteAbsentIsIdentity(s: TournamentState, matchId: string)
    requires Valid(s)
    requires forall k | 0 <= k < |s.matches| :: s.matches[k].id != matchId
    ensures DeleteMatch(s, matchId) == s
  {
    var t := DeleteMatch(s, matchId);
    assert t.players == s.players;
  }

  // Scores over the ledger

  /** A match adds the points of the first line naming the player; later lines for the same player do not count. */
  lemma ContributionOfFirstLine(id: string, m: Match, k: nat)
    requires k < |m.results| && m.results[k].playerId == id
    requires forall j | 0 <= j < k :: m.results[j].playerId != id
    ensures MatchContribution(id, m) == ScoreAsNumber(m.results[k].score)
  {
    assert ((r: MatchResult) => r.playerId == id)(m.results[k]);
  }

  /** A match whose lines all carry points adds a non-negative integer to every total. */
  lemma ContributionOfScoredMatch(id: string, m: Match)
    requires forall j | 0 <= j < |m.results| :: m.results[j].score.Some?
    ensures MatchContribution(id, m).Finite? && MatchContribution(id, m).value >= 0
  {
  }

  /** The total over a ledger with one more match at the end. */
  lemma LedgerScoreSnoc(id: string, matches: seq<Match>, m: Match)
    ensures LedgerScore(id, matches + [m]) == Add(LedgerScore(id, matches), MatchContribution(id, m))
  {
    assert (matches + [m])[..|matches + [m]| - 1] == matches;
  }

  lemma {:induction false} LedgerScoreAppend(id: string, a: seq<Match>, b: seq<Match>)
    ensures LedgerScore(id, a + b) == Add(LedgerScore(id, a), LedgerScore(id, b))
  {
    if b == [] {
      assert a + b == a;
    } else {
      var b', x := b[..|b| - 1], b[|b| - 1];
      assert b == b' + [x];
      assert a + b == (a + b') + [x];
      LedgerScoreSnoc(id, a + b', x);
      LedgerScoreSnoc(id, b', x);
      LedgerScoreAppend(id, a, b');
      AddAssociative(LedgerScore(id, a), LedgerScore(id, b'), MatchContribution(id, x));
    }
  }

  /** A total does not depend on the order of the ledger. */
  lemma {:induction false} LedgerScoreOrderFree(id: string, a: seq<Match>, b: seq<Match>)
    requires multiset(a) == multiset(b)
    ensures LedgerScore(id, a) == LedgerScore(id, b)
    decreases |a|
  {
    if a == [] {
      assert |b| == |multiset(b)| == 0;
    } else {
      var x := a[|a| - 1];
      var a' := a[..|a| - 1];
      assert a == a' + [x];
      assert multiset(a') == multiset(a) - multiset{x};
      assert x in multiset(b);
      var k :| 0 <= k < |b| && b[k] == x;
      SplitAt(b, k);
      LedgerScoreOrderFree(id, a', b[..k] + b[k + 1..]);
      LedgerScoreSnoc(id, a', x);
      LedgerScoreMiddle(id, b[..k], x, b[k + 1..]);
    }
  }

  /** Taking out the element at `k` leaves the rest around it. */
  lemma SplitAt<T>(b: seq<T>, k: nat)
    requires k < |b|
    ensures b == (b[..k] + [b[k]]) + b[k + 1..]
    ensures multiset(b[..k] + b[k + 1..]) == multiset(b) - multiset{b[k]}
  {
    assert b == (b[..k] + [b[k]]) + b[k + 1..];
  }

  /** A match in the middle of the ledger adds what it would add at the end. */
  lemma LedgerScoreMiddle(id: string, b1: seq<Match>, x: Match, b2: seq<Match>)
    ensures LedgerScore(id, (b1 + [x]) + b2) == Add(LedgerScore(id, b1 + b2), MatchContribution(id, x))
  {
    LedgerScoreSnoc(id, b1, x);
    LedgerScoreAppend(id, b1, b2);
    LedgerScoreAppend(id, b1 + [x], b2);
    AddRearranged(LedgerScore(id, b1), LedgerScore(id, b2), MatchContribution(id, x));
  }

  /** Every line of the ledger carries points. */
  ghost predicate AllScored(matches: seq<Match>)
  {
    forall k, j | 0 <= k < |matches| && 0 <= j < |matches[k].results| :: matches[k].results[j].score.Some?
  }

  /** When every line carries points, every total is a non-negative integer. */
  lemma {:induction false} LedgerScoreNonNegative(id: string, matches: seq<Match>)
    requires AllScored(matches)
    ensures LedgerScore(id, matches).Finite? && LedgerScore(id, matches).value >= 0
  {
    if matches != [] {
      var prefix, last := matches[..|matches| - 1], matches[|matches| - 1];
      assert matches == prefix + [last];
      assert forall k | 0 <= k < |prefix| :: prefix[k] == matches[k];
      LedgerScoreNonNegative(id, prefix);
      ContributionOfScoredMatch(id, last);
      LedgerScoreSnoc(id, prefix, last);
    }
  }

  /**
   * In an accepted match of at most eight lines every line carries points (the match
   * form never submits more than eight players).
   */
  lemma CappedMatchScored(s: TournamentState, submissions: seq<RankSubmission>, matchId: string, now: int)
    requires AddMatch(s, submissions, matchId, now).Success?
    requires |submissions| <= 8
    ensures var results := MakeResults(s.players, submissions);
      forall j | 0 <= j < |results| :: results[j].score.Some? && results[j].score.value <= 8
  {
    CappedRanksInTable(submissions);
  }

  /** In an accepted match of at most eight lines every rank is between 1 and 8. */
  lemma CappedRanksInTable(submissions: seq<RankSubmission>)
    requires RanksAccepted(Ranks(submissions)) && |submissions| <= 8
    ensures forall j | 0 <= j < |submissions| :: 1 <= submissions[j].rank <= 8
  {
    var ranks := Ranks(submissions);
    RanksAcceptedIff(ranks);
    forall j | 0 <= j < |submissions|
      ensures 1 <= submissions[j].rank <= 8
    {
      assert ranks[j] in multiset(ranks);
      InIota(|ranks|, ranks[j]);
    }
  }

  /**
   * The score table has no entry for rank 9, yet a nine-player match passes the rank
   * check: the ninth-placed player's total becomes NaN, and NaN is never at the
   * threshold, so that player is demoted to normal unless already champion.
   */
  lemma NinthPlaceScoresNaN(s: TournamentState, submissions: seq<RankSubmission>, matchId: string, now: int, k: nat, i: nat)
    requires Valid(s)
    requires AddMatch(s, submissions, matchId, now).Success?
    requires k < |submissions| && submissions[k].rank == 9
    requires forall j | 0 <= j < k :: submissions[j].playerId != submissions[k].playerId
    requires i < |s.players| && s.players[i].id == submissions[k].playerId
    ensures AddMatch(s, submissions, matchId, now).value.players[i].totalScore == NaN
    ensures AddMatch(s, submissions, matchId, now).value.players[i].status
      == if s.players[i].status == Champion then Champion else Normal
  {
    var t := AddMatch(s, submissions, matchId, now).value;
    var id := submissions[k].playerId;
    var m := Match(matchId, now, MakeResults(s.players, submissions), now);
    assert t.matches == s.matches + [m];
    ContributionOfFirstLine(id, m, k);
    LedgerScoreSnoc(id, s.matches, m);
    AddMatchStatuses(s, submissions, matchId, now);
  }

  /** One match in which the player's line has no score makes the whole total NaN. */
  lemma {:induction false} LedgerScoreNaN(id: string, matches: seq<Match>, k: nat)
    requires k < |matches| && MatchContribution(id, matches[k]) == NaN
    ensures LedgerScore(id, matches) == NaN
    decreases |matches|
  {
    if k < |matches| - 1 {
      var prefix := matches[..|matches| - 1];
      assert prefix[k] == matches[k];
      LedgerScoreNaN(id, prefix, k);
    }
  }

  /**
   * A player whose total is NaN keeps a NaN total through every further match and is
   * never crowned: the player ends the match normal unless already champion.
   */
  lemma NaNTotalNeverCrowned(s: TournamentState, submissions: seq<RankSubmission>, matchId: string, now: int, i: nat)
    requires Valid(s)
    requires AddMatch(s, submissions, matchId, now).Success?
    requires i < |s.players| && s.players[i].totalScore == NaN
    ensures AddMatch(s, submissions, matchId, now).value.players[i].totalScore == NaN
    ensures AddMatch(s, submissions, matchId, now).value.players[i].status
      == if s.players[i].status == Champion then Champion else Normal
  {
    var m := Match(matchId, now, MakeResults(s.players, submissions), now);
    LedgerScoreSnoc(s.players[i].id, s.matches, m);
    AddMatchStatuses(s, submissions, matchId, now);
  }

  /**
   * While no match has more than eight lines (the match form's limit), every total of
   * a valid state is a non-negative integer.
   */
  lemma ScoresNonNegativeUnderCap(s: TournamentState)
    requires Valid(s)
    requires forall k | 0 <= k < |s.matches| :: |s.matches[k].results| <= 8
    ensures forall i | 0 <= i < |s.players| :: s.players[i].totalScore.Finite? && s.players[i].totalScore.value >= 0
  {
    forall k, j | 0 <= k < |s.matches| && 0 <= j < |s.matches[k].results|
      ensures s.matches[k].results[j].score.Some?
    {
      var ranks := ResultRanks(s.matches[k].results);
      RanksAcceptedIff(ranks);
      assert ranks[j] in multiset(ranks);
      InIota(|ranks|, ranks[j]);
    }
    forall i | 0 <= i < |s.players|
      ensures s.players[i].totalScore.Finite? && s.players[i].totalScore.value >= 0
    {
      LedgerScoreNonNegative(s.players[i].id, s.matches);
    }
  }
}
