/** The two cell states, encoded as the numbers that grids store. */
module CellState {

  const DEAD: int := 0
  const ALIVE: int := 1

  /** A number that is one of the two states. */
  predicate IsState(value: int) {
    value == DEAD || value == ALIVE
  }

  /** Normalises an arbitrary number: only 1 means ALIVE, everything else DEAD. */
  function FromValue(value: int): (state: int)
    ensures IsState(state)
    ensures state == ALIVE <==> value == 1
  {
    if value == 1 then ALIVE else DEAD
  }

  /** Flips ALIVE to DEAD; any other value, DEAD included, becomes ALIVE. */
  function Toggle(state: int): (toggled: int)
    ensures IsState(toggled)
    ensures toggled == DEAD <==> state == ALIVE
  {
    if state == ALIVE then DEAD else ALIVE
  }

  /** On the two states, toggling twice gives the state back. */
  lemma ToggleInvolution(state: int)
    requires IsState(state)
    ensures Toggle(Toggle(state)) == state
  {
  }

  /** Normalising leaves the two states as they are. */
  lemma FromValueKeepsStates(state: int)
    requires IsState(state)
    ensures FromValue(state) == state
  {
  }
}
