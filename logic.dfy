/**
 * The match state machine: one `Game` object per match, created by setup and
 * mutated in place by the three action handlers. Each handler checks all of
 * its preconditions before it touches a field, so a rejected action leaves
 * the state exactly as it was.
 */
module Logic {
  import opened Common
  import opened Board
  import opened Scoring
  import opened Outcomes

  /** Roster bounds the host enforces before setup. */
  const MinPlayers := 2
  const MaxPlayers := 6

  datatype Phase = Rolling | Claiming

  /**
   * What an action handler does: `Invalid` is the host's invalid-action
   * rejection, `Ignored` the silent return of a match that already has a
   * winner, `GameOver` the per-player verdicts passed to the host.
   */
  datatype ActionResult = Invalid | Ignored | Ok | GameOver(outcomes: map<PlayerId, Outcome>)

  /**
   * The state invariant: a board of ten well-formed equations with ids 0..9,
   * one record per roster entry, a current player on the roster, a dice value
   * exactly while claiming, and each score equal to the number of equations
   * its player owns.
   */
  ghost predicate ConsistentState(equations: seq<Equation>, diceValue: Option<int>,
                                  players: map<PlayerId, PlayerState>, currentPlayerIndex: nat,
                                  playerIds: seq<PlayerId>, phase: Phase)
  {
    IsBoard(equations) &&
    MinPlayers <= |playerIds| <= MaxPlayers && Distinct(playerIds) &&
    players.Keys == (set p | p in playerIds) &&
    currentPlayerIndex < |playerIds| &&
    (diceValue.Some? <==> phase == Claiming) &&
    (diceValue.Some? ==> MinResult <= diceValue.value <= MaxResult) &&
    Accounted(equations, players)
  }

  class Game {
    var equations: seq<Equation>
    var diceValue: Option<int>
    var players: map<PlayerId, PlayerState>
    var currentPlayerIndex: nat
    var playerIds: seq<PlayerId>
    var phase: Phase
    var winner: Option<PlayerId>
    /** The host has been told the match is over and delivers no more actions. */
    var ended: bool

    /** The state invariant, on the current field values. */
    ghost predicate Consistent()
      reads this
    {
      ConsistentState(equations, diceValue, players, currentPlayerIndex, playerIds, phase)
    }

    /** The invariant, and the match is over exactly when every equation is owned. */
    ghost predicate Valid()
      reads this
    {
      Consistent() && (ended <==> AllClaimed(equations))
    }

    /** `caller` is the player whose turn it is. */
    predicate IsCurrent(caller: PlayerId)
      reads this
    {
      currentPlayerIndex < |playerIds| && playerIds[currentPlayerIndex] == caller
    }

    /** The checks every handler makes before it changes anything. */
    ghost predicate Admits(caller: PlayerId, expected: Phase)
      reads this
    {
      !ended && winner == None && IsCurrent(caller) && phase == expected
    }

    /** Equation `k` exists and has no owner yet. */
    ghost predicate Claimable(k: int)
      reads this
    {
      0 <= k < |equations| && equations[k].claimedBy == None
    }

    /** The result of equation `k` equals the rolled value. */
    ghost predicate Matches(k: int)
      reads this
      requires 0 <= k < |equations|
    {
      diceValue == Some(equations[k].result)
    }

    /**
     * Match setup: ten generated equations with ids 0..9, a zero-score record
     * for every player, the first player to roll, no dice value and no winner.
     */
    constructor Setup(allPlayerIds: seq<PlayerId>, boardDraws: seq<seq<Draw>>)
      requires MinPlayers <= |allPlayerIds| <= MaxPlayers && Distinct(allPlayerIds)
      requires BoardDraws(boardDraws)
      ensures Valid()
      ensures |equations| == BoardSize
      ensures forall i :: 0 <= i < BoardSize ==>
                Fresh(equations[i], i) && GeneratedFrom(equations[i], i, boardDraws[i])
      ensures players.Keys == set p | p in allPlayerIds
      ensures forall p :: p in players ==> players[p] == PlayerState(0, None)
      ensures playerIds == allPlayerIds && currentPlayerIndex == 0
      ensures phase == Rolling && diceValue == None && winner == None && !ended
    {
      var board := GenerateBoard(boardDraws);
      var records := InitialPlayers(allPlayerIds);
      assert IsBoard(board);
      assert !AllClaimed(board) by {
        assert board[0].claimedBy == None;
      }
      forall p | p in records
        ensures records[p].score == Owned(board, p)
      {
        OwnsNothing(board, p);
      }
      assert Accounted(board, records);
      assert ConsistentState(board, None, records, 0, allPlayerIds, Rolling);
      equations := board;
      diceValue := None;
      players := records;
      currentPlayerIndex := 0;
      playerIds := allPlayerIds;
      phase := Rolling;
      winner := None;
      ended := false;
    }

    /**
     * The roll handler: the current player, in the rolling phase, rolls
     * `roll + 1` (the floored draw plus one) and moves to claiming; every
     * player's last action is cleared.
     */
    method RollDice(caller: PlayerId, roll: int) returns (r: ActionResult)
      requires Valid()
      requires 0 <= roll < 10
      modifies this
      ensures Valid()
      ensures r.Invalid? || r.Ignored? || r.Ok?
      ensures r.Ignored? <==> old(!ended && winner.Some?)
      ensures r.Ok? <==> old(Admits(caller, Rolling))
      ensures !r.Ok? ==> unchanged(this)
      ensures r.Ok? ==>
                diceValue == Some(roll + 1) && phase == Claiming &&
                players.Keys == old(players).Keys &&
                (forall p :: p in players ==> players[p] == old(players)[p].(lastAction := None)) &&
                equations == old(equations) && playerIds == old(playerIds) &&
                currentPlayerIndex == old(currentPlayerIndex) &&
                winner == old(winner) && ended == old(ended)
      ensures Advances(old(equations), equations, old(players), players)
    {
      if ended {
        return Invalid;
      }
      if winner.Some? {
        return Ignored;
      }
      if !IsCurrent(caller) || phase != Rolling {
        return Invalid;
      }
      diceValue := Some(roll + 1);
      phase := Claiming;

      var cleared := players;
      var pending := players.Keys;
      while pending != {}
        invariant pending <= cleared.Keys && cleared.Keys == players.Keys
        invariant forall p :: p in cleared && p !in pending ==> cleared[p] == players[p].(lastAction := None)
        invariant forall p :: p in pending ==> cleared[p] == players[p]
        decreases pending
      {
        var p :| p in pending;
        cleared := cleared[p := cleared[p].(lastAction := None)];
        pending := pending - {p};
      }
      players := cleared;
      r := Ok;
    }

    /**
     * The pass handler: the current player, in the claiming phase, gives up
     * the turn; the turn moves to the next player and the dice are cleared.
     */
    method Pass(caller: PlayerId) returns (r: ActionResult)
      requires Valid()
      modifies this
      ensures Valid()
      ensures r.Invalid? || r.Ignored? || r.Ok?
      ensures r.Ignored? <==> old(!ended && winner.Some?)
      ensures r.Ok? <==> old(Admits(caller, Claiming))
      ensures !r.Ok? ==> unchanged(this)
      ensures r.Ok? ==>
                caller in old(players) &&
                players == old(players)[caller := old(players)[caller].(lastAction := Some(LastAction.Pass))] &&
                currentPlayerIndex == (old(currentPlayerIndex) + 1) % |playerIds| &&
                diceValue == None && phase == Rolling &&
                equations == old(equations) && playerIds == old(playerIds) &&
                winner == old(winner) && ended == old(ended)
      ensures Advances(old(equations), equations, old(players), players)
    {
      if ended {
        return Invalid;
      }
      if winner.Some? {
        return Ignored;
      }
      if !IsCurrent(caller) || phase != Claiming {
        return Invalid;
      }
      assert caller in players;
      players := players[caller := players[caller].(lastAction := Some(LastAction.Pass))];
      currentPlayerIndex := (currentPlayerIndex + 1) % |playerIds|;
      diceValue := None;
      phase := Rolling;
      r := Ok;
    }

    /**
     * The claim handler: the current player, in the claiming phase, claims an
     * unowned equation by id; any other call is rejected before anything
     * changes. A hit adds one to the caller's score, records the hit and
     * makes the caller the owner; a miss records the miss and changes no
     * score or equation. The match is over exactly when a hit leaves no
     * equation unowned: the turn then stays put and the verdicts cover the
     * roster, whose scores sum to the board size. Otherwise the turn moves on
     * and the dice are cleared. The roster and the winner field never change,
     * nor does any other player's record.
     */
    method ClaimEquation(caller: PlayerId, equationId: int) returns (r: ActionResult)
      requires Valid()
      modifies this
      ensures Valid()
      ensures r.Ignored? <==> old(!ended && winner.Some?)
      ensures r.Invalid? <==>
                old(ended || (winner == None && !(Admits(caller, Claiming) && Claimable(equationId))))
      ensures r.Invalid? || r.Ignored? ==> unchanged(this)
      ensures playerIds == old(playerIds) && winner == old(winner)
      ensures Advances(old(equations), equations, old(players), players)
      ensures (r.Ok? || r.GameOver?) && old(Matches(equationId)) ==>
                caller in old(players) &&
                players == old(players)[caller := PlayerState(old(players)[caller].score + 1, Some(Hit))] &&
                equations == ClaimAt(old(equations), equationId, caller)
      ensures (r.Ok? || r.GameOver?) && !old(Matches(equationId)) ==>
                caller in old(players) &&
                players == old(players)[caller := old(players)[caller].(lastAction := Some(Miss))] &&
                equations == old(equations)
      ensures r.GameOver? <==> (r.Ok? || r.GameOver?) && old(Matches(equationId)) && AllClaimed(equations)
      ensures r.Ok? ==>
                currentPlayerIndex == (old(currentPlayerIndex) + 1) % |playerIds| &&
                diceValue == None && phase == Rolling && !ended
      ensures r.GameOver? ==>
                ended && currentPlayerIndex == old(currentPlayerIndex) &&
                diceValue == old(diceValue) && phase == old(phase) &&
                Decided(playerIds, players, r.outcomes) &&
                TotalScore(playerIds, players) == BoardSize
    {
      if ended {
        return Invalid;
      }
      if winner.Some? {
        return Ignored;
      }
      if !IsCurrent(caller) || phase != Claiming {
        return Invalid;
      }
      var k := FindIndex(equations, equationId);
      if k == -1 {
        return Invalid;
      }
      if equations[k].claimedBy.Some? {
        return Invalid;
      }
      assert k == equationId;
      if diceValue == Some(equations[k].result) {
        r := ClaimHit(caller, k);
        HitAdvances(old(equations), k, caller, old(players));
      } else {
        r := ClaimMiss(caller, k);
      }
    }

    /** An accepted claim of equation `k` whose result matches the dice. */
    method ClaimHit(caller: PlayerId, k: int) returns (r: ActionResult)
      requires Valid() && Admits(caller, Claiming) && Claimable(k) && Matches(k)
      modifies this
      ensures Valid()
      ensures r.Ok? || r.GameOver?
      ensures caller in old(players)
      ensures players == old(players)[caller := PlayerState(old(players)[caller].score + 1, Some(Hit))]
      ensures equations == ClaimAt(old(equations), k, caller)
      ensures playerIds == old(playerIds) && winner == old(winner)
      ensures r.GameOver? <==> AllClaimed(equations)
      ensures r.Ok? ==>
                currentPlayerIndex == (old(currentPlayerIndex) + 1) % |playerIds| &&
                diceValue == None && phase == Rolling && !ended
      ensures r.GameOver? ==>
                ended && currentPlayerIndex == old(currentPlayerIndex) &&
                diceValue == old(diceValue) && phase == old(phase) &&
                Decided(playerIds, players, r.outcomes) &&
                TotalScore(playerIds, players) == BoardSize
    {
      Award(caller, k);
      r := Conclude();
    }

    /**
     * What follows a hit: the match ends when no equation is left unowned,
     * otherwise the turn passes on.
     */
    method Conclude() returns (r: ActionResult)
      requires Consistent() && !ended
      modifies this`ended, this`currentPlayerIndex, this`diceValue, this`phase
      ensures Valid()
      ensures r.Ok? || r.GameOver?
      ensures r.GameOver? <==> AllClaimed(equations)
      ensures r.Ok? ==>
                currentPlayerIndex == (old(currentPlayerIndex) + 1) % |playerIds| &&
                diceValue == None && phase == Rolling && !ended
      ensures r.GameOver? ==>
                ended && currentPlayerIndex == old(currentPlayerIndex) &&
                diceValue == old(diceValue) && phase == old(phase) &&
                Decided(playerIds, players, r.outcomes) &&
                TotalScore(playerIds, players) == BoardSize
    {
      if AllClaimed(equations) {
        r := EndMatch();
        return;
      }
      AdvanceTurn();
      r := Ok;
    }

    /**
     * The end of the match once every equation is owned: the verdicts over
     * the roster go to the host, and the scores add up to the board size.
     */
    method EndMatch() returns (r: ActionResult)
      requires Consistent() && AllClaimed(equations)
      modifies this`ended
      ensures Valid() && ended
      ensures r.GameOver? && Rostered(playerIds, players)
      ensures Decided(playerIds, players, r.outcomes)
      ensures TotalScore(playerIds, players) == BoardSize
    {
      MarkEnded();
      ScoresAccountForClaims(equations, playerIds, players);
      AllClaimedCount(equations);
      var outcomes := ComputeOutcomes(playerIds, players);
      r := GameOver(outcomes);
    }

    /** The host is told the match is over; every equation has its owner. */
    method MarkEnded()
      requires Consistent() && AllClaimed(equations)
      modifies this`ended
      ensures Valid() && ended
    {
      ended := true;
    }

    /** The turn passes to the next player on the roster, who must roll. */
    method AdvanceTurn()
      requires Consistent()
      modifies this`currentPlayerIndex, this`diceValue, this`phase
      ensures Consistent()
      ensures currentPlayerIndex == (old(currentPlayerIndex) + 1) % |playerIds|
      ensures diceValue == None && phase == Rolling
    {
      currentPlayerIndex := (currentPlayerIndex + 1) % |playerIds|;
      diceValue := None;
      phase := Rolling;
    }

    /** A hit's effect on the records and the board: one more point and one more owned equation. */
    method Award(caller: PlayerId, k: int)
      requires Valid() && Admits(caller, Claiming) && Claimable(k) && Matches(k)
      modifies this`players, this`equations
      ensures Consistent()
      ensures caller in old(players)
      ensures players == old(players)[caller := PlayerState(old(players)[caller].score + 1, Some(Hit))]
      ensures equations == ClaimAt(old(equations), k, caller)
    {
      assert caller in players;
      AccountedAfterHit(equations, k, caller, players);
      ClaimKeepsBoard(equations, k, caller);
      var record := players[caller];
      players := players[caller := PlayerState(record.score + 1, Some(Hit))];
      equations := ClaimAt(equations, k, caller);
      assert players.Keys == old(players).Keys;
    }

    /** An accepted claim of equation `k` whose result does not match the dice. */
    method ClaimMiss(caller: PlayerId, k: int) returns (r: ActionResult)
      requires Valid() && Admits(caller, Claiming) && Claimable(k) && !Matches(k)
      modifies this
      ensures Valid()
      ensures r.Ok?
      ensures caller in old(players)
      ensures players == old(players)[caller := old(players)[caller].(lastAction := Some(Miss))]
      ensures equations == old(equations)
      ensures playerIds == old(playerIds) && winner == old(winner) && !ended
      ensures Advances(old(equations), equations, old(players), players)
      ensures currentPlayerIndex == (old(currentPlayerIndex) + 1) % |playerIds|
      ensures diceValue == None && phase == Rolling
    {
      assert caller in players;
      var record := players[caller];
      players := players[caller := record.(lastAction := Some(Miss))];
      assert players.Keys == old(players).Keys;
      AdvanceTurn();
      r := Ok;
    }

    /** Every point scored is one equation owned, so the scores sum to the claimed count. */
    lemma ScoresMatchClaims()
      requires Valid()
      ensures TotalScore(playerIds, players) == ClaimedCount(equations)
    {
      ScoresAccountForClaims(equations, playerIds, players);
    }
  }
}
