/**
 * The websocket sync relay: the network adapter that bridges websocket connections to the
 * document repository, and the websocket handlers that feed it. Every method is proved to
 * leave the state that the matching function of RelaySpec describes.
 */
module SyncServer {
  import opened Wrappers
  import opened Bytes
  import opened Protocol
  import RelaySpec

  class ManagedNetwork {
    var peersByAutomerge: map<PeerId, Connection>
    var peersByVinxi: map<string, Connection>
    var peerId: Option<PeerId>
    var peerMetadata: Option<PeerMetadata>
    var ready: bool
    var resolveCount: nat
    /** Everything emitted to the repository's listeners, in order. */
    var events: seq<Event>
    /** Everything written to a socket, in order. */
    var outbox: seq<Frame<seq<Byte>>>
    /** The CBOR encoder used by `send`. */
    const encode: RelaySpec.Encoder

    function State(): RelaySpec.RelayState
      reads this
    {
      RelaySpec.RelayState(peersByAutomerge, peersByVinxi, peerId, peerMetadata, ready, resolveCount, events, outbox)
    }

    predicate Valid()
      reads this
    {
      RelaySpec.Valid(State())
    }

    constructor (encode: RelaySpec.Encoder)
      ensures Valid() && State() == RelaySpec.INITIAL && this.encode == encode
    {
      peersByAutomerge, peersByVinxi := map[], map[];
      peerId, peerMetadata := None, None;
      ready, resolveCount := false, 0;
      events, outbox := [], [];
      this.encode := encode;
    }

    /** `isReady()`: true exactly when the relay's identity is assigned and `whenReady()` has resolved. */
    method IsReady() returns (r: bool)
      requires Valid()
      ensures r <==> peerId.Some?
      ensures r <==> WhenReady() == RelaySpec.Resolved
    {
      r := ready;
    }

    /** `whenReady()`: the one promise, observed through its state. */
    function WhenReady(): (p: RelaySpec.PromiseState)
      reads this
      ensures Valid() ==> (p == RelaySpec.Resolved <==> ready)
    {
      RelaySpec.ReadyPromise(State())
    }

    /**
     * `#forceReady`, private in the source: only `Connect` calls it, right after assigning
     * the identity, which is what keeps `Valid()`.
     */
    method ForceReady()
      modifies this
      ensures State() == RelaySpec.ForceReady(old(State()))
    {
      if !ready {
        ready := true;
        resolveCount := resolveCount + 1;
      }
    }

    method Connect(p: PeerId, m: PeerMetadata)
      requires Valid()
      modifies this
      ensures Valid()
      ensures State() == RelaySpec.Connect(old(State()), p, m)
      ensures peerId == Some(p) && peerMetadata == Some(m) && ready && resolveCount == 1
    {
      peerId := Some(p);
      peerMetadata := Some(m);
      ForceReady();
    }

    /** `disconnect()` does nothing. */
    method Disconnect()
      ensures State() == old(State())
    {
    }

    method Emit(e: Event)
      modifies this
      ensures State() == RelaySpec.Emit(old(State()), e)
    {
      events := events + [e];
    }

    /** `peer.send(bytes)`: the bytes are written to the connection. */
    method Transmit(c: Connection, data: seq<Byte>)
      modifies this
      ensures State() == old(State()).(outbox := old(outbox) + [Frame(c, data)])
    {
      outbox := outbox + [Frame(c, data)];
    }

    method Send(m: Message)
      modifies this
      ensures State() == RelaySpec.Send(old(State()), encode, m)
      ensures old(Valid()) ==> Valid()
    {
      var peer := None;
      var target := TargetOf(m);
      if target.Some? {
        peer := Lookup(peersByAutomerge, target.value);
      }
      var bytes := encode(m);
      var arraybuffer := ToArrayBuffer(bytes);
      if peer.Some? {
        Transmit(peer.value, arraybuffer);
      }
      // otherwise the message is logged as "peer not found" and dropped
    }

    method AddPeer(c: Connection)
      modifies this
      ensures State() == RelaySpec.AddPeer(old(State()), c)
      ensures old(Valid()) ==> Valid()
    {
      peersByVinxi := peersByVinxi[c.id := c];
    }

    method KnowPeer(p: PeerId, c: Connection)
      modifies this
      ensures State() == RelaySpec.KnowPeer(old(State()), p, c)
      ensures old(Valid()) ==> Valid()
    {
      peersByAutomerge := peersByAutomerge[p := c];
    }
  }

  /** The websocket `open` handler. */
  method OnOpen(network: ManagedNetwork, peer: Connection)
    modifies network
    ensures network.State() == RelaySpec.AddPeer(old(network.State()), peer)
    ensures old(network.Valid()) ==> network.Valid()
  {
    network.AddPeer(peer);
  }

  /** The websocket `message` handler: raw bytes `raw` arrive on connection `peer`. */
  method OnMessage(network: ManagedNetwork, decode: RelaySpec.Decoder, peer: Connection, raw: seq<Byte>)
    modifies network
    ensures network.State() == RelaySpec.HandleMessage(old(network.State()), network.encode, decode, peer, raw)
    ensures old(network.Valid()) ==> network.Valid()
  {
    var decoded := decode(raw);
    if decoded.None? {
      // a decode error is logged and the frame dropped
      return;
    }
    var message := decoded.value;
    if message.Join? {
      var sender := message.senderId;
      var existingSocket := Lookup(network.peersByAutomerge, sender);
      if existingSocket.Some? {
        network.Emit(PeerDisconnected(sender));
      }
      network.Emit(PeerCandidate(sender, message.peerMetadata));
      network.KnowPeer(sender, peer);
      if V1 in message.supportedProtocolVersions {
        network.Send(Peer(network.peerId, network.peerMetadata, V1, sender));
      }
    } else {
      network.Emit(Received(message));
    }
  }

  /** The websocket `close` handler does nothing. */
  method OnClose(network: ManagedNetwork, peer: Connection)
    ensures network.State() == old(network.State())
  {
  }

  /** The websocket `error` handler does nothing. */
  method OnError(network: ManagedNetwork, peer: Connection)
    ensures network.State() == old(network.State())
  {
  }
}
