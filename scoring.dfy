/**
 * Per-player records and the accounting that ties scores to claimed
 * equations: under the exclusive-claim policy every point is one equation
 * owned.
 */
module Scoring {
  import opened Common
  import opened Board

  /** Feedback tag of a player's most recent move; cleared on every roll. */
  datatype LastAction = Hit | Miss | Pass

  datatype PlayerState = PlayerState(score: nat, lastAction: Option<LastAction>)

  /** Setup's loop over the roster: every player starts with a zero score and no last action. */
  method InitialPlayers(ids: seq<PlayerId>) returns (players: map<PlayerId, PlayerState>)
    ensures players.Keys == set p | p in ids
    ensures forall p :: p in players ==> players[p] == PlayerState(0, None)
  {
    players := map[];
    for i := 0 to |ids|
      invariant players.Keys == set p | p in ids[..i]
      invariant forall p :: p in players ==> players[p] == PlayerState(0, None)
    {
      assert ids[..i + 1] == ids[..i] + [ids[i]];
      players := players[ids[i] := PlayerState(0, None)];
    }
    assert ids[..|ids|] == ids;
  }

  /** Every identifier of the roster has a player record. */
  predicate Rostered(ids: seq<PlayerId>, players: map<PlayerId, PlayerState>)
  {
    forall p :: p in ids ==> p in players
  }

  /** The `every` test of the claim handler: no equation is left unclaimed. */
  predicate AllClaimed(eqs: seq<Equation>)
  {
    forall i :: 0 <= i < |eqs| ==> eqs[i].claimedBy.Some?
  }

  /** The board after `q` takes equation `k`. */
  function ClaimAt(eqs: seq<Equation>, k: int, q: PlayerId): (r: seq<Equation>)
    requires 0 <= k < |eqs|
  {
    eqs[k := eqs[k].(claimedBy := Some(q))]
  }

  /** Claiming changes only an owner, so a board stays a board. */
  lemma ClaimKeepsBoard(eqs: seq<Equation>, k: int, q: PlayerId)
    requires IsBoard(eqs) && 0 <= k < |eqs|
    ensures IsBoard(ClaimAt(eqs, k, q))
  {
  }

  /**
   * The accounting invariant: every owner has a record, and every score is
   * the number of equations its player owns.
   */
  ghost predicate Accounted(eqs: seq<Equation>, players: map<PlayerId, PlayerState>)
  {
    (forall i :: 0 <= i < |eqs| && eqs[i].claimedBy.Some? ==> eqs[i].claimedBy.value in players) &&
    (forall p :: p in players ==> players[p].score == Owned(eqs, p))
  }

  /** A hit keeps the accounts: the claimant's new point is their new equation. */
  lemma AccountedAfterHit(eqs: seq<Equation>, k: int, q: PlayerId, players: map<PlayerId, PlayerState>)
    requires Accounted(eqs, players) && 0 <= k < |eqs| && eqs[k].claimedBy == None && q in players
    ensures Accounted(ClaimAt(eqs, k, q), players[q := PlayerState(players[q].score + 1, Some(Hit))])
  {
    var players' := players[q := PlayerState(players[q].score + 1, Some(Hit))];
    forall p | p in players'
      ensures players'[p].score == Owned(ClaimAt(eqs, k, q), p)
    {
      OwnedAfterClaim(eqs, k, q, p);
    }
  }

  /** Number of equations `p` owns. */
  function Owned(eqs: seq<Equation>, p: PlayerId): (n: nat)
    ensures n <= |eqs|
  {
    if eqs == [] then 0 else (if eqs[0].claimedBy == Some(p) then 1 else 0) + Owned(eqs[1..], p)
  }

  /** A player owns nothing exactly when no equation names them as owner. */
  lemma {:induction false} OwnsNothing(eqs: seq<Equation>, p: PlayerId)
    ensures Owned(eqs, p) == 0 <==> forall i :: 0 <= i < |eqs| ==> eqs[i].claimedBy != Some(p)
  {
    if eqs != [] {
      OwnsNothing(eqs[1..], p);
      assert forall i :: 1 <= i < |eqs| ==> eqs[i] == eqs[1..][i - 1];
    }
  }

  /** Number of equations that have an owner. */
  function ClaimedCount(eqs: seq<Equation>): (n: nat)
    ensures n <= |eqs|
  {
    if eqs == [] then 0 else (if eqs[0].claimedBy.Some? then 1 else 0) + ClaimedCount(eqs[1..])
  }

  /** The count reaches the board size exactly when every equation is owned. */
  lemma {:induction false} AllClaimedCount(eqs: seq<Equation>)
    ensures ClaimedCount(eqs) == |eqs| <==> AllClaimed(eqs)
  {
    if eqs != [] {
      AllClaimedCount(eqs[1..]);
      assert forall i :: 1 <= i < |eqs| ==> eqs[i] == eqs[1..][i - 1];
    }
  }

  /** Sum of the scores of the roster. */
  function TotalScore(ids: seq<PlayerId>, players: map<PlayerId, PlayerState>): nat
    requires Rostered(ids, players)
  {
    if ids == [] then 0 else players[ids[0]].score + TotalScore(ids[1..], players)
  }

  /**
   * A hit hands one unclaimed equation to `q`: `q` owns one more equation
   * and every other player owns as many as before.
   */
  lemma {:induction false} OwnedAfterClaim(eqs: seq<Equation>, k: int, q: PlayerId, p: PlayerId)
    requires 0 <= k < |eqs| && eqs[k].claimedBy == None
    ensures Owned(ClaimAt(eqs, k, q), p) == Owned(eqs, p) + (if p == q then 1 else 0)
  {
    var eqs' := ClaimAt(eqs, k, q);
    if k == 0 {
      assert eqs'[1..] == eqs[1..];
    } else {
      assert eqs'[1..] == ClaimAt(eqs[1..], k - 1, q);
      OwnedAfterClaim(eqs[1..], k - 1, q, p);
    }
  }

  /**
   * The scores of the roster add up to the number of claimed equations when
   * each player's score is the number of equations they own and every owner
   * is on the roster.
   */
  lemma ScoresAccountForClaims(eqs: seq<Equation>, ids: seq<PlayerId>, players: map<PlayerId, PlayerState>)
    requires Distinct(ids) && Rostered(ids, players)
    requires forall p :: p in ids ==> players[p].score == Owned(eqs, p)
    requires forall i :: 0 <= i < |eqs| && eqs[i].claimedBy.Some? ==> eqs[i].claimedBy.value in ids
    ensures TotalScore(ids, players) == ClaimedCount(eqs)
  {
    TotalScoreIsOwnedSum(eqs, ids, players);
    OwnedSumIsClaimedCount(eqs, ids);
  }

  /** Sum over the roster of the equations each player owns. */
  function OwnedSum(eqs: seq<Equation>, ids: seq<PlayerId>): nat
  {
    if ids == [] then 0 else Owned(eqs, ids[0]) + OwnedSum(eqs, ids[1..])
  }

  /** How many roster entries equal the owner `o`. */
  function Hits(ids: seq<PlayerId>, o: Option<PlayerId>): nat
  {
    if ids == [] then 0 else (if o == Some(ids[0]) then 1 else 0) + Hits(ids[1..], o)
  }

  lemma {:induction false} TotalScoreIsOwnedSum(eqs: seq<Equation>, ids: seq<PlayerId>, players: map<PlayerId, PlayerState>)
    requires Rostered(ids, players)
    requires forall p :: p in ids ==> players[p].score == Owned(eqs, p)
    ensures TotalScore(ids, players) == OwnedSum(eqs, ids)
  {
    if ids != [] {
      assert forall p :: p in ids[1..] ==> p in ids;
      TotalScoreIsOwnedSum(eqs, ids[1..], players);
    }
  }

  /** On a distinct roster an owner is counted once, or not at all if absent. */
  lemma {:induction false} HitsDistinct(ids: seq<PlayerId>, o: Option<PlayerId>)
    requires Distinct(ids)
    ensures Hits(ids, o) == if o.Some? && o.value in ids then 1 else 0
  {
    if ids != [] {
      assert Distinct(ids[1..]) by {
        forall i, j | 0 <= i < j < |ids[1..]| ensures ids[1..][i] != ids[1..][j] {
          assert ids[1..][i] == ids[i + 1] && ids[1..][j] == ids[j + 1];
        }
      }
      HitsDistinct(ids[1..], o);
      if o == Some(ids[0]) {
        assert ids[0] !in ids[1..] by {
          forall i | 0 <= i < |ids[1..]| ensures ids[1..][i] != ids[0] {
            assert ids[1..][i] == ids[i + 1];
          }
        }
      }
      assert ids == [ids[0]] + ids[1..];
    }
  }

  /** Peeling the first equation off the board takes its owner's point off the sum. */
  lemma {:induction false} OwnedSumStep(eqs: seq<Equation>, ids: seq<PlayerId>)
    requires eqs != []
    ensures OwnedSum(eqs, ids) == Hits(ids, eqs[0].claimedBy) + OwnedSum(eqs[1..], ids)
  {
    if ids != [] {
      OwnedSumStep(eqs, ids[1..]);
    }
  }

  lemma {:induction false} OwnedSumIsClaimedCount(eqs: seq<Equation>, ids: seq<PlayerId>)
    requires Distinct(ids)
    requires forall i :: 0 <= i < |eqs| && eqs[i].claimedBy.Some? ==> eqs[i].claimedBy.value in ids
    ensures OwnedSum(eqs, ids) == ClaimedCount(eqs)
  {
    if eqs == [] {
      OwnedSumOfEmpty(ids);
    } else {
      OwnedSumStep(eqs, ids);
      HitsDistinct(ids, eqs[0].claimedBy);
      assert forall i :: 0 <= i < |eqs[1..]| ==> eqs[1..][i] == eqs[i + 1];
      OwnedSumIsClaimedCount(eqs[1..], ids);
    }
  }

  lemma {:induction false} OwnedSumOfEmpty(ids: seq<PlayerId>)
    ensures OwnedSum([], ids) == 0
  {
    if ids != [] {
      OwnedSumOfEmpty(ids[1..]);
    }
  }

  /**
   * Progress between two states: the roster of records is the same, no score
   * goes down, the board keeps its size and a claimed equation keeps its owner.
   */
  ghost predicate Advances(eqs0: seq<Equation>, eqs1: seq<Equation>,
                           players0: map<PlayerId, PlayerState>, players1: map<PlayerId, PlayerState>)
  {
    players0.Keys == players1.Keys &&
    (forall p :: p in players0 ==> players0[p].score <= players1[p].score) &&
    |eqs0| == |eqs1| &&
    (forall i :: 0 <= i < |eqs0| && eqs0[i].claimedBy.Some? ==> eqs1[i].claimedBy == eqs0[i].claimedBy)
  }

  /** A hit is progress: one more point for the claimant and one newly owned equation. */
  lemma HitAdvances(eqs: seq<Equation>, k: int, q: PlayerId, players: map<PlayerId, PlayerState>)
    requires 0 <= k < |eqs| && eqs[k].claimedBy == None && q in players
    ensures Advances(eqs, ClaimAt(eqs, k, q), players,
                     players[q := PlayerState(players[q].score + 1, Some(Hit))])
  {
  }
}
