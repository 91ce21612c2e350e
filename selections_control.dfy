/**
 * The row of coloured buttons above the plots (src/components/SelectionsControl.tsx): a click on
 * button `idx` flips the visibility flag of selection `idx`.
 */
module SelectionsControl {
  import opened Wrappers
  import opened Types

  /** The buttons; they read and update the page-level list. */
  class SelectionControls {
    const state: SelectionsState

    constructor (state: SelectionsState)
      ensures this.state == state
    {
      this.state := state;
    }

    /** A click on button `idx`, one button per entry of the list. */
    method Click(idx: nat)
      requires idx < |state.selections|
      modifies state
      ensures state.selections == ToggledAt(old(state.selections), idx)
    {
      state.selections := ToggleUpdater(state.selections, idx);
    }
  }

  /** A button is dimmed exactly when its selection's flag is `false`. */
  predicate Dimmed(s: Selection) {
    s.visible == Some(false)
  }

  /**
   * A button is dimmed exactly when its selection is hidden from the plots, and a click dims it
   * exactly when its flag was `true`: an entry with no flag is shown and stays shown.
   */
  lemma DimmedMatchesHidden(prev: seq<Selection>, idx: nat)
    requires idx < |prev|
    ensures Dimmed(prev[idx]) <==> !Shown(prev[idx])
    ensures Dimmed(ToggledAt(prev, idx)[idx]) <==> prev[idx].visible == Some(true)
  {
  }
}
