/**
 * What the leaderboard promises. When every total is a number, `GetLeaderboard`
 * lists champions first, then players by points (most first), then by registration
 * time (earliest first); players in the same standing keep their registration-list
 * order; and that is the only list with these properties, so any engine's stable
 * sort returns the same board.
 */
module LeaderboardProperties {
  import opened JsNumbers
  import opened JsArray
  import opened TournamentTypes
  import opened Tournament

  ghost predicate FiniteScores(players: seq<Player>)
  {
    forall p | p in players :: p.totalScore.Finite?
  }

  /** Reference order: `a` may be listed before `b`. */
  predicate PlacedNoLowerThan(a: Player, b: Player)
    requires a.totalScore.Finite? && b.totalScore.Finite?
  {
    if (a.status == Champion) != (b.status == Champion) then a.status == Champion
    else if a.totalScore.value != b.totalScore.value then a.totalScore.value > b.totalScore.value
    else a.registeredAt <= b.registeredAt
  }

  /** `a` and `b` hold the same standing: neither outranks the other. */
  predicate SameStanding(a: Player, b: Player)
  {
    && (a.status == Champion) == (b.status == Champion)
    && a.totalScore == b.totalScore
    && a.registeredAt == b.registeredAt
  }

  /** The players of `s` in `e`'s standing, in their order in `s`. */
  function StandingOf(s: seq<Player>, e: Player): (r: seq<Player>)
    ensures forall p | p in r :: p in s && SameStanding(p, e)
  {
    if s == [] then [] else (if SameStanding(s[0], e) then [s[0]] else []) + StandingOf(s[1..], e)
  }

  /** The comparator agrees with the reference order and ties exactly on equal standing. */
  lemma GoesBeforeMeaning(a: Player, b: Player)
    requires a.totalScore.Finite? && b.totalScore.Finite?
    ensures !GoesBefore(b, a) <==> PlacedNoLowerThan(a, b)
    ensures Tied(a, b, GoesBefore) <==> SameStanding(a, b)
  {
  }

  lemma GoesBeforeConsistent(players: seq<Player>)
    requires FiniteScores(players)
    ensures ConsistentOn(players, GoesBefore)
  {
    forall a, b, c | a in players && b in players && c in players
      ensures !GoesBefore(b, a) && !GoesBefore(c, b) ==> !GoesBefore(c, a)
    {
      GoesBeforeMeaning(a, b);
      GoesBeforeMeaning(b, c);
      GoesBeforeMeaning(a, c);
    }
  }

  lemma {:induction false} TiesAreStanding(s: seq<Player>, e: Player)
    requires FiniteScores(s) && e.totalScore.Finite?
    ensures TiesWith(s, e, GoesBefore) == StandingOf(s, e)
  {
    if s != [] {
      GoesBeforeMeaning(s[0], e);
      TiesAreStanding(s[1..], e);
    }
  }

  /** Champions first, then more points, then earlier registration. */
  lemma LeaderboardOrdered(players: seq<Player>)
    requires FiniteScores(players)
    ensures var board := GetLeaderboard(players);
      && FiniteScores(board)
      && forall i, j | 0 <= i < j < |board| :: PlacedNoLowerThan(board[i], board[j])
  {
    var board := GetLeaderboard(players);
    assert forall p | p in board :: p in multiset(players);
    assert FiniteScores(board);
    GoesBeforeConsistent(players);
    SortSorted(players, GoesBefore);
    forall i, j | 0 <= i < j < |board|
      ensures PlacedNoLowerThan(board[i], board[j])
    {
      assert board[i] in multiset(players) && board[j] in multiset(players);
      GoesBeforeMeaning(board[i], board[j]);
    }
  }

  /** Players in the same standing keep their order from the registration list. */
  lemma LeaderboardStable(players: seq<Player>, e: Player)
    requires FiniteScores(players) && e in players
    ensures StandingOf(GetLeaderboard(players), e) == StandingOf(players, e)
  {
    var board := GetLeaderboard(players);
    assert forall p | p in board :: p in multiset(players);
    GoesBeforeConsistent(players);
    SortStable(players, e, GoesBefore);
    TiesAreStanding(players, e);
    TiesAreStanding(board, e);
  }

  /**
   * The board is the only arrangement of the players that is ordered and stable, so
   * the choice of sorting algorithm does not change it.
   */
  lemma LeaderboardUnique(players: seq<Player>, r: seq<Player>)
    requires FiniteScores(players)
    requires multiset(r) == multiset(players)
    requires FiniteScores(r) && forall i, j | 0 <= i < j < |r| :: PlacedNoLowerThan(r[i], r[j])
    requires forall e | e in players :: StandingOf(r, e) == StandingOf(players, e)
    ensures r == GetLeaderboard(players)
  {
    var board := GetLeaderboard(players);
    assert forall p | p in r :: p in multiset(players);
    assert forall p | p in board :: p in multiset(players);
    GoesBeforeConsistent(players);
    SortSorted(players, GoesBefore);
    forall i, j | 0 <= i < j < |r|
      ensures !GoesBefore(r[j], r[i])
    {
      GoesBeforeMeaning(r[i], r[j]);
    }
    forall e | e in r
      ensures TiesWith(r, e, GoesBefore) == TiesWith(board, e, GoesBefore)
    {
      assert e in multiset(players);
      LeaderboardStable(players, e);
      TiesAreStanding(r, e);
      TiesAreStanding(board, e);
    }
    StableSortedUnique(r, board, GoesBefore, players);
  }

  /** A champion on 25 heads two players on 10, who keep registration order. */
  lemma LeaderboardExample()
    ensures var a := Player("a", "Ann", Finite(10), Normal, 1);
      var b := Player("b", "Bo", Finite(25), Champion, 2);
      var c := Player("c", "Cy", Finite(10), Normal, 3);
      GetLeaderboard([a, b, c]) == [b, a, c]
  {
    var a := Player("a", "Ann", Finite(10), Normal, 1);
    var b := Player("b", "Bo", Finite(25), Champion, 2);
    var c := Player("c", "Cy", Finite(10), Normal, 3);
    assert !GoesBefore(c, b) && GoesBefore(b, a) && !GoesBefore(c, a);
    assert [a, b, c][1..] == [b, c] && [b, c][1..] == [c];
    calc {
      Sort([b, c], GoesBefore);
      Insert(b, Sort([c], GoesBefore), GoesBefore);
      { assert Sort([c], GoesBefore) == Insert(c, [], GoesBefore) == [c]; }
      Insert(b, [c], GoesBefore);
      [b, c];
    }
    calc {
      Sort([a, b, c], GoesBefore);
      Insert(a, [b, c], GoesBefore);
      [b] + Insert(a, [c], GoesBefore);
      [b] + [a, c];
    }
  }
}
