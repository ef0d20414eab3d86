# Mind-match game engine in Dafny

This project models the engine of a turn-based dice-and-equations game for
two to six players. Setup builds a board of ten arithmetic equations. Each
equation's integer result lies in 1..10, and the equations get ids 0..9. The
players then take turns. The current player rolls a ten-sided die, then either
passes or claims an unowned equation. A claim is a hit when the equation's
result equals the dice value: the caller scores a point and owns the equation.
Otherwise the claim is a miss. Both end the turn. Under the exclusive-claim
policy, an owned equation cannot be claimed again. When a hit leaves no
equation unowned, the match is over. Every player at the highest score gets
TIE if that score is shared, and WON otherwise. Everybody else gets LOST.

Layout, one module per part of the engine:

- `common.dfy` (`Common`): option type, player identifiers, distinct rosters.
- `board.dfy` (`Board`): operators, equations, one generation attempt, the
  rejection loop of the generator, the board loop of setup, and the id lookup.
- `scoring.dfy` (`Scoring`): player records, the loop that creates them, and
  the accounting that ties scores to owned equations.
- `outcomes.dfy` (`Outcomes`): the game-over scan for the top scorers, the
  verdict loop, and what a verdict means.
- `logic.dfy` (`Logic`): the `Game` class, whose fields the three action
  handlers update in place.

The random source is a parameter. A generation attempt takes a `Draw`: three
values that are already scaled and floored. `ValidDraw` gives their ranges.
A roll takes the floored draw `roll` in 0..9 and produces the dice value
`roll + 1`. The host's rejection becomes the result `Invalid`. The host's
game-over call becomes `GameOver(outcomes)`. The `ended` field records that
the host has been told the match is over.

`Game.Valid()` is the state invariant that every handler keeps:

- the board holds ten well-formed equations with ids 0..9;
- the roster is distinct and has 2..6 players;
- there is one record per player on the roster;
- the turn index points into the roster;
- a dice value exists exactly in the claiming phase, and lies in 1..10;
- every owner is on the roster;
- every score equals the number of equations its player owns;
- `ended` holds exactly when every equation is owned.

## Model

| member | source | states |
|---|---|---|
| Board.Attempt | src/logic.ts:41-66 | One pass of the generator loop: any equation it yields is unclaimed, has the requested id, uses the drawn operator, has a result in 1..10 and exact arithmetic. It fails exactly when a product exceeds 10, so addition, subtraction and division never need a retry. |
| Board.GenerateEquation | src/logic.ts:40-68 | The rejection loop returns a well-formed, unclaimed equation with the requested id. That equation comes from the first draw whose attempt succeeds. |
| Board.DivisionIsExact | src/logic.ts:58-62 | In a well-formed division equation the dividend is a multiple of the divisor, `val1 % val2 == 0`, and `val1 / val2 == result`. |
| Board.GenerateBoard | src/logic.ts:74-77 | Setup's loop builds exactly ten equations. Slot `i` holds an unclaimed equation with id `i`, generated from that slot's draws. |
| Board.FindIndex | src/logic.ts:123-124 | Returns the first position holding the id, or -1 exactly when no equation has that id. |
| Scoring.InitialPlayers | src/logic.ts:79-82 | Creates one record for each roster entry and no other. Each record has score 0 and no last action. |
| Scoring.ClaimKeepsBoard | src/logic.ts:133 | Setting an owner keeps a board a board: same ids, same operands and results. |
| Scoring.AccountedAfterHit | src/logic.ts:130-133 | After a hit, every score still equals the number of equations its player owns, and every owner is still on the roster. |
| Scoring.OwnsNothing | src/logic.ts:127-133 | A player owns no equation exactly when no equation names them as its owner. |
| Scoring.AllClaimedCount | src/logic.ts:136 | The claimed count equals the board size exactly when the all-claimed test holds. |
| Scoring.OwnedAfterClaim | src/logic.ts:130-133 | A hit on an unowned equation gives the claimant exactly one more owned equation. Every other player owns as many as before. |
| Scoring.ScoresAccountForClaims | src/logic.ts:129-136 | On a distinct roster where each score counts its player's equations, the scores sum to the number of owned equations. |
| Scoring.HitAdvances | src/logic.ts:127-133 | A hit changes no key of the records and lowers no score. It keeps the board size, and it overwrites no owner. |
| Outcomes.MaxScoreBounds | src/logic.ts:139-150 | The scan's maximum bounds every roster score. On a non-empty roster some player attains it. On an empty roster it is the start value -1. |
| Outcomes.AtScoreMembers | src/logic.ts:142-150 | The list at a score holds exactly the roster entries with that score. |
| Outcomes.AtScoreDistinct | src/logic.ts:142-150 | The top-scorer list of a distinct roster has no duplicates. |
| Outcomes.TopScorers | src/logic.ts:139-150 | The scan loop's final `maxScore` is the roster maximum. `potentialWinners` lists, in roster order, the players at that maximum. |
| Outcomes.ComputeOutcomes | src/logic.ts:152-159 | The verdict loop gives exactly the roster entries a verdict. A top scorer gets TIE when several players share the top and WON otherwise. Everyone else gets LOST. |
| Outcomes.OutcomeMeaning | src/logic.ts:152-159 | On a distinct roster: WON exactly when the player's score is above every other player's; TIE exactly when it is the maximum and another player shares it; LOST exactly when someone scored more. |
| Outcomes.WinnerOrTie | src/logic.ts:139-159 | A finished match has a player who did not lose. A WON player is the only one not to lose. A TIE rules out any WON. |
| Logic.Game.Setup | src/logic.ts:73-93 | Setup meets the invariant. The board is ten generated, unclaimed equations with ids 0..9. Every player has score 0 and no last action. The turn index is 0, the phase is rolling, and there is no dice value and no winner. |
| Logic.Game.RollDice | src/logic.ts:95-104 | An accepted roll requires the current player, the rolling phase and no winner. It sets the dice to the draw plus one (in 1..10) and the phase to claiming. It clears every last action, and leaves scores, equations, roster and turn as they were. A rejected roll changes nothing. The invariant holds after both. |
| Logic.Game.Pass | src/logic.ts:106-116 | An accepted pass requires the current player, the claiming phase and no winner. It records the caller's pass and advances the turn by one modulo the roster size. It clears the dice and sets the phase to rolling. A rejected pass changes nothing. |
| Logic.Game.ClaimEquation | src/logic.ts:118-173 | Rejected, with nothing changed, exactly when the caller is not current, the phase is not claiming, the id is unknown or the equation is owned. On a hit the caller gets one more point, the last action becomes hit, and the equation becomes theirs. On a miss the last action becomes miss, and no score or equation changes. The match ends exactly when a hit leaves nothing unowned: the turn stays put, the verdicts cover the roster and the scores sum to 10. Otherwise the turn advances and the dice are cleared. Scores never fall and owners are never overwritten. |
| Logic.Game.ClaimHit | src/logic.ts:129-161 | An accepted hit adds one point and makes the caller the owner. It then either ends the match with the verdicts or advances the turn. |
| Logic.Game.ClaimMiss | src/logic.ts:164-172 | An accepted miss records the miss. It changes no score or equation, advances the turn and clears the dice. |
| Logic.Game.Award | src/logic.ts:130-133 | A hit's update: the caller's score rises by one, the last action becomes hit, equation `k` becomes the caller's, and the accounts still balance. |
| Logic.Game.Conclude | src/logic.ts:135-172 | After a hit: game over with the verdicts exactly when every equation is owned, otherwise the next turn. |
| Logic.Game.EndMatch | src/logic.ts:136-161 | The match ends with the verdict map over the roster, and the scores sum to the board size. |
| Logic.Game.MarkEnded | src/logic.ts:160 | Once every equation is owned, recording the end restores the invariant. |
| Logic.Game.AdvanceTurn | src/logic.ts:169-172 | The turn passes to the next roster entry modulo the roster size, the dice are cleared, and the phase becomes rolling. |
| Logic.Game.ScoresMatchClaims | src/logic.ts:129-136 | In every valid state the scores sum to the number of owned equations. |

## Left out

- The host SDK wiring (`initLogic`, the `Rune` declaration): the 2..6 roster bound is a precondition of setup. The rejection is the `Invalid` result, and the game-over call is the `GameOver` result.
- The host stops the match after game over. The `ended` flag stands for that: once it is set, every action is `Invalid`. The source itself has no such check.
- `Math.random` is replaced by draw parameters that are already floored. The model assumes the rejection loop ends: each slot's draws must hold at least one successful attempt. Each slot has its own draw sequence, not one shared random stream.
- `winner` is declared and tested but never assigned, so `Ignored` (the silent return) happens only in a state with a winner, which setup never creates. JavaScript truthiness is not modelled: an empty-string winner id counts as a winner here.
- Player ids are assumed distinct. The source takes the host's roster as given.
- Integers are unbounded. All values stay within 0..50, so floating point plays no part.
- Deleting `lastAction` is modelled as setting it to `None`.
- `equationId` is an integer. The host could pass any JSON value; only integer ids can match.
- `src/client.ts` (rendering and input wiring) is not part of this model.
- Logic.Game.RollDice: checks `ended` before the winner test at src/logic.ts:96. The two never hold together in a reachable state.
- Logic.Game.Pass: checks `ended` before the winner test at src/logic.ts:107. The two never hold together in a reachable state.
- Logic.Game.ClaimEquation: checks `ended` before the winner test at src/logic.ts:119. The two never hold together in a reachable state.
