/**
 * End-of-match verdicts: once every equation has an owner, the top scorer
 * wins, several top scorers tie and everyone else loses.
 */
module Outcomes {
  import opened Common
  import opened Scoring

  datatype Outcome = Won | Lost | Tie

  /** The highest score on the roster, or -1 (the scan's start value) for an empty roster. */
  function MaxScore(ids: seq<PlayerId>, players: map<PlayerId, PlayerState>): int
    requires Rostered(ids, players)
  {
    if ids == [] then -1
    else
      var m0 := MaxScore(ids[..|ids| - 1], players);
      var s := players[ids[|ids| - 1]].score;
      if s > m0 then s else m0
  }

  /** The roster entries whose score is `m`, in roster order. */
  function AtScore(ids: seq<PlayerId>, players: map<PlayerId, PlayerState>, m: int): seq<PlayerId>
    requires Rostered(ids, players)
  {
    if ids == [] then []
    else
      var last := ids[|ids| - 1];
      AtScore(ids[..|ids| - 1], players, m) + (if players[last].score == m then [last] else [])
  }

  /** One more roster entry: the maximum rises to its score if that is higher. */
  lemma MaxScoreSnoc(ids: seq<PlayerId>, p: PlayerId, players: map<PlayerId, PlayerState>)
    requires Rostered(ids + [p], players)
    ensures Rostered(ids, players)
    ensures MaxScore(ids + [p], players) ==
              if players[p].score > MaxScore(ids, players) then players[p].score else MaxScore(ids, players)
  {
  }

  /** One more roster entry: it joins the list when it has score `m`. */
  lemma AtScoreSnoc(ids: seq<PlayerId>, p: PlayerId, players: map<PlayerId, PlayerState>, m: int)
    requires Rostered(ids + [p], players)
    ensures Rostered(ids, players)
    ensures AtScore(ids + [p], players, m) ==
              AtScore(ids, players, m) + (if players[p].score == m then [p] else [])
  {
  }

  /** The maximum bounds every score and, on a non-empty roster, is someone's score. */
  lemma {:induction false} MaxScoreBounds(ids: seq<PlayerId>, players: map<PlayerId, PlayerState>)
    requires Rostered(ids, players)
    ensures forall p :: p in ids ==> players[p].score <= MaxScore(ids, players)
    ensures ids != [] ==> exists p :: p in ids && players[p].score == MaxScore(ids, players)
    ensures ids == [] ==> MaxScore(ids, players) == -1
  {
    if ids != [] {
      var front, last := ids[..|ids| - 1], ids[|ids| - 1];
      assert ids == front + [last];
      MaxScoreBounds(front, players);
      if players[last].score <= MaxScore(front, players) && front != [] {
        var w :| w in front && players[w].score == MaxScore(front, players);
        assert w in ids;
      }
    }
  }

  /** The list at score `m` holds exactly the roster entries with that score. */
  lemma {:induction false} AtScoreMembers(ids: seq<PlayerId>, players: map<PlayerId, PlayerState>, m: int)
    requires Rostered(ids, players)
    ensures forall p :: p in AtScore(ids, players, m) <==> p in ids && players[p].score == m
  {
    if ids != [] {
      var front, last := ids[..|ids| - 1], ids[|ids| - 1];
      assert ids == front + [last];
      AtScoreMembers(front, players, m);
    }
  }

  /** The verdict for `p` given the top scorers: shared top is TIE, sole top is WON. */
  function Verdict(top: seq<PlayerId>, p: PlayerId): Outcome
  {
    if p in top then (if |top| > 1 then Tie else Won) else Lost
  }

  /** The verdict for `p` at the end of the match: the top scorers are those at the maximum. */
  function OutcomeOf(ids: seq<PlayerId>, players: map<PlayerId, PlayerState>, p: PlayerId): Outcome
    requires Rostered(ids, players)
  {
    Verdict(AtScore(ids, players, MaxScore(ids, players)), p)
  }

  /** `outcomes` holds one verdict per roster entry, each as `OutcomeOf` decides it. */
  ghost predicate Decided(ids: seq<PlayerId>, players: map<PlayerId, PlayerState>,
                          outcomes: map<PlayerId, Outcome>)
  {
    Rostered(ids, players) && outcomes.Keys == (set p | p in ids) &&
    forall p :: p in ids ==> outcomes[p] == OutcomeOf(ids, players, p)
  }

  /**
   * The game-over scan over the roster: it keeps the running maximum and the
   * players who reach it, restarting the list whenever the maximum rises.
   */
  method TopScorers(ids: seq<PlayerId>, players: map<PlayerId, PlayerState>)
    returns (maxScore: int, potentialWinners: seq<PlayerId>)
    requires Rostered(ids, players)
    ensures maxScore == MaxScore(ids, players)
    ensures potentialWinners == AtScore(ids, players, maxScore)
  {
    maxScore, potentialWinners := -1, [];
    for i := 0 to |ids|
      invariant maxScore == MaxScore(ids[..i], players)
      invariant forall q :: q in ids[..i] ==> players[q].score <= maxScore
      invariant potentialWinners == AtScore(ids[..i], players, maxScore)
    {
      var p := ids[i];
      var score := players[p].score;
      assert ids[..i + 1] == ids[..i] + [p];
      MaxScoreSnoc(ids[..i], p, players);
      AtScoreSnoc(ids[..i], p, players, maxScore);
      if score > maxScore {
        AtScoreNone(ids[..i], players, score);
        AtScoreSnoc(ids[..i], p, players, score);
        maxScore := score;
        potentialWinners := [p];
      } else if score == maxScore {
        potentialWinners := potentialWinners + [p];
      }
    }
    assert ids[..|ids|] == ids;
  }

  /** Nobody is listed at a score above everyone's. */
  lemma {:induction false} AtScoreNone(ids: seq<PlayerId>, players: map<PlayerId, PlayerState>, m: int)
    requires Rostered(ids, players)
    requires forall q :: q in ids ==> players[q].score < m
    ensures AtScore(ids, players, m) == []
  {
    if ids != [] {
      var front, last := ids[..|ids| - 1], ids[|ids| - 1];
      assert ids == front + [last];
      AtScoreNone(front, players, m);
    }
  }

  /**
   * The game-over verdicts: every roster entry among the top scorers gets TIE
   * when there are several of them and WON otherwise; the others get LOST.
   */
  method ComputeOutcomes(ids: seq<PlayerId>, players: map<PlayerId, PlayerState>)
    returns (outcomes: map<PlayerId, Outcome>)
    requires Rostered(ids, players)
    ensures outcomes.Keys == set p | p in ids
    ensures forall p :: p in ids ==> outcomes[p] == OutcomeOf(ids, players, p)
  {
    var maxScore, potentialWinners := TopScorers(ids, players);
    outcomes := map[];
    for j := 0 to |ids|
      invariant outcomes.Keys == set p | p in ids[..j]
      invariant forall p :: p in ids[..j] ==> outcomes[p] == Verdict(potentialWinners, p)
    {
      var p := ids[j];
      assert ids[..j + 1] == ids[..j] + [p];
      if p in potentialWinners {
        outcomes := outcomes[p := if |potentialWinners| > 1 then Tie else Won];
      } else {
        outcomes := outcomes[p := Lost];
      }
    }
    assert ids[..|ids|] == ids;
  }

  /** Keeping only some entries of a distinct roster leaves it distinct. */
  lemma {:induction false} AtScoreDistinct(ids: seq<PlayerId>, players: map<PlayerId, PlayerState>, m: int)
    requires Rostered(ids, players) && Distinct(ids)
    ensures Distinct(AtScore(ids, players, m))
  {
    if ids != [] {
      var front, last := ids[..|ids| - 1], ids[|ids| - 1];
      assert ids == front + [last];
      assert Distinct(front) by {
        forall i, j | 0 <= i < j < |front| ensures front[i] != front[j] {
          assert front[i] == ids[i] && front[j] == ids[j];
        }
      }
      assert last !in front by {
        forall i | 0 <= i < |front| ensures front[i] != last {
          assert front[i] == ids[i];
        }
      }
      AtScoreDistinct(front, players, m);
      AtScoreMembers(front, players, m);
      if players[last].score == m {
        DistinctSnoc(AtScore(front, players, m), last);
      }
    }
  }

  /**
   * What a verdict means on a distinct roster: WON is a strictly highest
   * score, TIE a highest score that someone else shares, LOST a score below
   * someone else's.
   */
  lemma OutcomeMeaning(ids: seq<PlayerId>, players: map<PlayerId, PlayerState>, p: PlayerId)
    requires Rostered(ids, players) && Distinct(ids) && p in ids
    ensures OutcomeOf(ids, players, p) == Won <==>
              forall q :: q in ids && q != p ==> players[q].score < players[p].score
    ensures OutcomeOf(ids, players, p) == Tie <==>
              (forall q :: q in ids ==> players[q].score <= players[p].score) &&
              (exists q :: q in ids && q != p && players[q].score == players[p].score)
    ensures OutcomeOf(ids, players, p) == Lost <==>
              exists q :: q in ids && players[q].score > players[p].score
  {
    var m := MaxScore(ids, players);
    var top := AtScore(ids, players, m);
    MaxScoreBounds(ids, players);
    AtScoreMembers(ids, players, m);
    if players[p].score == m {
      assert p in top;
      AtScoreDistinct(ids, players, m);
      if |top| > 1 {
        var q := if top[0] == p then top[1] else top[0];
        assert q in top && q != p;
      } else {
        assert forall q :: q in top ==> q == top[0];
      }
    }
  }

  /** A finished match has a WON player or a TIE, never both, and WON is unique. */
  lemma WinnerOrTie(ids: seq<PlayerId>, players: map<PlayerId, PlayerState>)
    requires Rostered(ids, players) && Distinct(ids) && ids != []
    ensures exists p :: p in ids && OutcomeOf(ids, players, p) != Lost
    ensures forall p, q :: p in ids && q in ids && OutcomeOf(ids, players, p) == Won ==>
              (q == p || OutcomeOf(ids, players, q) == Lost)
    ensures forall p, q :: p in ids && q in ids && OutcomeOf(ids, players, p) == Tie ==>
              OutcomeOf(ids, players, q) != Won
  {
    var m := MaxScore(ids, players);
    MaxScoreBounds(ids, players);
    AtScoreMembers(ids, players, m);
    var w :| w in ids && players[w].score == m;
    assert OutcomeOf(ids, players, w) != Lost;
    forall p, q | p in ids && q in ids && OutcomeOf(ids, players, p) == Won
      ensures q == p || OutcomeOf(ids, players, q) == Lost
    {
      OutcomeMeaning(ids, players, p);
      OutcomeMeaning(ids, players, q);
    }
  }
}
