/**
 * The vocabulary the relay speaks: logical peer ids, transport connections, the decoded
 * message envelope and the notifications it emits to the document repository.
 */
module Protocol {
  import opened Wrappers

  /** A logical peer id: a string chosen by the remote side. */
  type PeerId = string

  /** Peer metadata, passed through without being looked at. */
  type PeerMetadata

  /** The protocol-specific fields of a document-sync message, forwarded unread. */
  type Payload

  type ProtocolVersion = string

  /** The only protocol version this relay speaks. */
  const V1: ProtocolVersion := "1"

  /**
   * A transport connection (a websocket peer object) with its transport-scoped `id`. As in
   * JavaScript, two connections are the same exactly when they are the same object.
   */
  class Connection {
    const id: string
  }

  /** Data `data` travelling on connection `conn` (inbound or outbound). */
  datatype Frame<P> = Frame(conn: Connection, data: P)

  /**
   * A decoded envelope. `Join` is the handshake request; `Peer` the handshake answer (the
   * relay's id and metadata are `None` when the relay's own identity is still undefined);
   * `Other` is every other document-sync message, whose `kind` is its `type` field.
   */
  datatype Message =
    | Join(senderId: PeerId, peerMetadata: PeerMetadata, supportedProtocolVersions: seq<ProtocolVersion>)
    | Peer(relayId: Option<PeerId>, relayMetadata: Option<PeerMetadata>,
           selectedProtocolVersion: ProtocolVersion, targetId: PeerId)
    | Other(kind: string, senderId: PeerId, target: Option<PeerId>, body: Payload)

  /** The peer a message is addressed to; a join carries no target. */
  function TargetOf(m: Message): (r: Option<PeerId>)
    ensures m.Peer? ==> r == Some(m.targetId)
    ensures m.Join? ==> r.None?
    ensures m.Other? ==> r == m.target
  {
    match m
    case Join(_, _, _) => None
    case Peer(_, _, _, target) => Some(target)
    case Other(_, _, target, _) => target
  }

  /** The notifications the relay emits to the document repository. */
  datatype Event =
    | PeerCandidate(peerId: PeerId, peerMetadata: PeerMetadata)
    | PeerDisconnected(peerId: PeerId)
    | Received(message: Message)
}
