/**
 * The phrase list (`Slop_Stopper::get_phrases`): six base phrases in a fixed
 * order, passed through the `slop_stopper_phrases` filter. The filter is
 * modelled as an optional replacement list: `None` when no callback is
 * hooked, `Some(list)` for what the callbacks return.
 */
module PhraseRegistry {
  import opened Wrappers

  const BASE_PHRASES: seq<string> :=
    ["digital landscape", "transformative journey", "innovative solutions",
     "delve", "tapestry", "embark"]

  /** The list the scan and the listing use. */
  function GetPhrases(filter: Option<seq<string>>): (r: seq<string>)
    ensures filter.None? ==>
      && |r| == 6
      && r[0] == "digital landscape" && r[1] == "transformative journey"
      && r[2] == "innovative solutions" && r[3] == "delve"
      && r[4] == "tapestry" && r[5] == "embark"
    ensures filter.Some? ==> r == filter.value
  {
    match filter
    case None => BASE_PHRASES
    case Some(replacement) => replacement
  }

  /** The base phrases are pairwise distinct and non-empty. */
  lemma BasePhrasesDistinct()
    ensures forall i, j :: 0 <= i < j < |BASE_PHRASES| ==> BASE_PHRASES[i] != BASE_PHRASES[j]
    ensures forall i :: 0 <= i < |BASE_PHRASES| ==> BASE_PHRASES[i] != []
  {
  }
}
