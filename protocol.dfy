/** The messages the signalling server sends over its connections, and the
    fixed texts of its status notices. A connection handle stands for the
    transport's opaque socket id. */
module Protocol {

  /** Opaque per-connection identifier assigned by the transport. */
  type Handle = nat

  /** Session descriptions and network candidates, never inspected. */
  type Payload = string

  datatype Option<T> = None | Some(value: T)

  /** The three handshake messages that are passed through unchanged. */
  datatype RelayKind = Offer | Answer | IceCandidate

  /** One entry of the broadcast user list: name, status word and the
      peer's name (absent when there is no peer or the peer is gone). */
  datatype UserInfo = UserInfo(id: string, status: string, peer: Option<string>)

  /** What the server emits. `UserList` is broadcast to every connection,
      `Close` is the server closing a connection; every other message goes
      to the single connection `to`. */
  datatype Message =
    | Notice(to: Handle, text: string)
    | CallInitiated(to: Handle, peerName: string, peerHandle: Handle)
    | CallIncoming(to: Handle, peerName: string, peerHandle: Handle)
    | CallEndedByPeer(to: Handle)
    | UserList(roster: seq<UserInfo>)
    | Relayed(kind: RelayKind, to: Handle, from: Handle, payload: Payload)
    | Close(to: Handle)

  /** Whether connection `h` receives `m`. */
  predicate AddressedTo(m: Message, h: Handle)
  {
    match m
    case UserList(_) => true
    case Notice(to, _) => to == h
    case CallInitiated(to, _, _) => to == h
    case CallIncoming(to, _, _) => to == h
    case CallEndedByPeer(to) => to == h
    case Relayed(_, to, _, _) => to == h
    case Close(to) => to == h
  }

  function TakenNotice(name: string): string
  {
    "User ID \"" + name + "\" already taken. Please choose another."
  }

  const ConnectedNotice: string := "Connected."

  const WaitingNotice: string := "Waiting for another user to connect..."

  function CallEndedNotice(name: string): string
  {
    "Call with " + name + " ended. You are now available."
  }

  function PeerLeftNotice(name: string): string
  {
    "Your peer (" + name + ") disconnected. Looking for a new call..."
  }
}
