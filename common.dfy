/** Values shared by every part of the game engine. */
module Common {

  /** A nullable value: `null` in the game state becomes `None`. */
  datatype Option<+T> = None | Some(value: T)

  /** Player identifiers are opaque strings handed out by the host. */
  type PlayerId = string

  /** No identifier occurs twice in the roster. */
  predicate Distinct(ids: seq<PlayerId>)
  {
    forall i, j :: 0 <= i < j < |ids| ==> ids[i] != ids[j]
  }

  /** Appending an identifier not yet present keeps a roster distinct. */
  lemma DistinctSnoc(ids: seq<PlayerId>, p: PlayerId)
    requires Distinct(ids) && p !in ids
    ensures Distinct(ids + [p])
  {
  }
}
