/** The resource lifecycle (runtime/src/ResourceState.cpp). */
module ResourceState {
  datatype State = Pending | Downloading | Verifying | Cached | Loading | Loaded | Started | Stopped | Failed

  predicate IsValidTransition(from: State, to: State) {
    match from
    case Pending => to == Downloading || to == Cached || to == Failed
    case Downloading => to == Verifying || to == Failed
    case Verifying => to == Cached || to == Failed
    case Cached => to == Loading || to == Failed
    case Loading => to == Loaded || to == Failed
    case Loaded => to == Started || to == Failed
    case Started => to == Stopped || to == Loading || to == Failed
    case Stopped => to == Started || to == Loading || to == Failed
    case Failed => false
  }

  /** Where a state can be entered from. */
  function EnteredFrom(to: State): set<State> {
    match to
    case Pending => {}
    case Downloading => {Pending}
    case Verifying => {Downloading}
    case Cached => {Pending, Verifying}
    case Loading => {Cached, Started, Stopped}
    case Loaded => {Loading}
    case Started => {Loaded, Stopped}
    case Stopped => {Started}
    case Failed => {Pending, Downloading, Verifying, Cached, Loading, Loaded, Started, Stopped}
  }

  lemma EnteredExactly(from: State, to: State)
    ensures IsValidTransition(from, to) <==> from in EnteredFrom(to)
  {
  }
}
