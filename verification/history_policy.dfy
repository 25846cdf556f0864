/**
 * `should_continue_as_new`, identical in both cluster-manager workflows: never while an
 * update holds `nodes_lock`; otherwise when the server suggests it, or (for testing) when
 * the history has grown past a configured length.
 */
module HistoryPolicy {
  import opened Common

  /**
   * `locked`: an update holds `nodes_lock`. `suggested`: `is_continue_as_new_suggested()`.
   * `historyLength`: `get_current_history_length()`. A limit of `None` or `0` is falsy in
   * Python and disables the length test.
   */
  function ShouldContinueAsNew(locked: bool, suggested: bool, maxHistoryLength: Option<int>, historyLength: int): (r: bool)
    ensures locked ==> !r
    ensures !locked && suggested ==> r
    ensures maxHistoryLength.None? ==> (r <==> !locked && suggested)
    ensures !suggested ==>
              (r <==> !locked && maxHistoryLength.Some? && maxHistoryLength.value != 0 &&
                      maxHistoryLength.value < historyLength)
  {
    if locked then false
    else if suggested then true
    else match maxHistoryLength
      case None => false
      case Some(limit) => limit != 0 && historyLength > limit
  }
}
