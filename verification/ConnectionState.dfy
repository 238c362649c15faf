/** The session lifecycle (server/src/connectionState.js). */
module ConnectionState {
  datatype State = Connecting | Authenticating | Authenticated | Disconnecting | Disconnected

  predicate IsValidTransition(from: State, to: State) {
    match from
    case Connecting => to in {Authenticating, Disconnecting}
    case Authenticating => to in {Authenticated, Disconnecting}
    case Authenticated => to == Disconnecting
    case Disconnecting => to == Disconnected
    case Disconnected => false
  }

  /** Where a state can be entered from. */
  function EnteredFrom(to: State): set<State> {
    match to
    case Connecting => {}
    case Authenticating => {Connecting}
    case Authenticated => {Authenticating}
    case Disconnecting => {Connecting, Authenticating, Authenticated}
    case Disconnected => {Disconnecting}
  }

  lemma EnteredExactly(from: State, to: State)
    ensures IsValidTransition(from, to) <==> from in EnteredFrom(to)
  {
  }
}
