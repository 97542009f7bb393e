/**
 * The application mode (src/ModeContext.tsx): one state cell holding
 * `performance` or `edit`.
 */
module ModeContext {

  datatype AppMode = Performance | Edit

  /** `prev === 'performance' ? 'edit' : 'performance'`. */
  function Toggled(m: AppMode): (r: AppMode)
    ensures r != m
  {
    if m == Performance then Edit else Performance
  }

  /** Toggling twice returns to the starting mode. */
  lemma ToggleTwice(m: AppMode)
    ensures Toggled(Toggled(m)) == m
  {
  }

  class ModeProvider {
    var mode: AppMode

    /** The provider starts in performance mode. */
    constructor()
      ensures mode == Performance
    {
      mode := Performance;
    }

    method ToggleMode()
      modifies this
      ensures mode == Toggled(old(mode))
      ensures old(mode) == Performance ==> mode == Edit
      ensures old(mode) == Edit ==> mode == Performance
    {
      mode := if mode == Performance then Edit else Performance;
    }

    /** The mode becomes exactly `m`, whatever it was. */
    method SetMode(m: AppMode)
      modifies this
      ensures mode == m
    {
      mode := m;
    }
  }
}
