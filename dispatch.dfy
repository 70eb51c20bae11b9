/**
 * Keyword lookup of a dispatchable command object and the table that gives
 * each command category its help-section name (src/DispatchObject.cpp).
 */
module Dispatch {
  import opened Wrappers

  /** Command categories. TOPIC is the category help topics use. */
  datatype Otype =
    | NONE | PARM | TRAJ | COORDS | ACTION | ANALYSIS | GENERAL | SYSTEM
    | HIDDEN | DEPRECATED | TOPIC

  /**
   * True when the key equals one of the object's keywords; the search walks
   * the keyword list from the front and stops at the first equal entry.
   */
  function KeyMatches(keywords: seq<string>, key: string): (r: bool)
    ensures r <==> exists i :: 0 <= i < |keywords| && keywords[i] == key
    ensures keywords == [] ==> !r
  {
    if keywords == [] then false
    else if keywords[0] == key then true
    else
      var rest := KeyMatches(keywords[1..], key);
      assert forall i :: 1 <= i < |keywords| ==> keywords[i] == keywords[1..][i - 1];
      rest
  }

  /** Help-section name of a category; None for hidden or unnamed ones. */
  function ObjKeyword(t: Otype): (r: Option<string>)
    ensures r.Some? ==> r.value != ""
  {
    match t
    case NONE => None
    case PARM => Some("Topology")
    case TRAJ => Some("Trajectory")
    case COORDS => Some("Coords")
    case ACTION => Some("Action")
    case ANALYSIS => Some("Analysis")
    case GENERAL => Some("General")
    case SYSTEM => Some("System")
    case HIDDEN => None
    case DEPRECATED => None
    case TOPIC => None
  }

  /** The categories that appear in help under a name. */
  predicate Listed(t: Otype) {
    t in {PARM, TRAJ, COORDS, ACTION, ANALYSIS, GENERAL, SYSTEM}
  }

  /** A category has a name exactly when it is listed; hidden ones have none. */
  lemma ObjKeywordNamedIffListed(t: Otype)
    ensures ObjKeyword(t).Some? <==> Listed(t)
    ensures t == NONE || t == HIDDEN || t == DEPRECATED || t == TOPIC ==> ObjKeyword(t) == None
  {
  }

  /** Distinct listed categories get distinct names, so a name identifies its category. */
  lemma ObjKeywordInjective(a: Otype, b: Otype)
    requires ObjKeyword(a).Some? && ObjKeyword(a) == ObjKeyword(b)
    ensures a == b
  {
  }
}
