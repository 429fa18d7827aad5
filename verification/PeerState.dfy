/** The states of a peer, in the order of the program's enumeration. */
module PeerStates {
  datatype PeerState =
    | Disconnected
    | Connecting
    | AcknowledgingConnect
    | ConnectionPending
    | ConnectionSucceeded
    | Connected
    | DisconnectLater
    | Disconnecting
    | AcknowledgingDisconnect
    | Zombie

  /** A peer that is counted: it takes part in the exchange of data. */
  predicate Counted(s: PeerState) {
    s == Connected || s == DisconnectLater
  }
}
