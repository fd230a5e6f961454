# Websocket sync relay, modelled in Dafny

This project models the server side of a document-sync relay. The relay sits between
websocket connections and an automerge document repository. It has three parts:

- **The network adapter `ManagedNetwork`** (`again/src/sync-server.ts`). It holds two maps:
  `peersByVinxi` (transport id to connection) and `peersByAutomerge` (logical peer id to
  connection). It also holds a one-shot readiness gate: `#ready` plus the resolver of the
  `whenReady()` promise. `send` routes an outgoing message to the connection bound to its
  target. The websocket handlers feed the adapter:
  - `open` registers the connection;
  - `message` decodes the frame and runs the `join` handshake, or re-emits any other message
    to the repository;
  - `close` and `error` do nothing.
- **The party server's helpers** (`graveyard/st/src/sync-server.ts`): protocol-version
  selection, copying a `Uint8Array` view out of its pooled buffer, and the broadcast that
  forwards a message to every connection but the sender.
- **The sign-up form validators** (`graveyard/st/src/lib/server.ts`).

Files and modules:

- `wrappers.dfy` (`Wrappers`): `Option` and `Map.get`.
- `bytes.dfy` (`Bytes`): bytes, typed-array views, `ArrayBuffer.slice` and `toArrayBuffer`.
- `protocol.dfy` (`Protocol`): peer ids, connections, the decoded message envelope, and
  the events emitted to the repository.
- `relay_spec.dfy` (`RelaySpec`): the relay's whole state as a value, with one pure function
  per operation. The lemmas about the relay live here.
- `managed_network.dfy` (`SyncServer`): the class `ManagedNetwork`, with fields the methods
  update in place, and the websocket handlers. Each method is proved to leave exactly the
  state the matching `RelaySpec` function gives.
- `party_server.dfy` (`PartyServer`): `SelectProtocol`, and the broadcast loop as a method
  with loop invariants.
- `validators.dfy` (`Validation`): the three validators.

What the relay emits is kept as two logs in its state:

- `events`: the `peer-candidate`, `peer-disconnected` and `message` notifications, in order;
- `outbox`: every `(connection, bytes)` pair written to a socket.

The CBOR codec is not part of this model. `encode` is a function from messages to byte
views, given to the network when it is built. `decode` is a function from bytes to
`Option<Message>`, given to the `message` handler; `None` stands for the throw that the
handler catches.

Where commented-out lines and `todo`s in `again/src/sync-server.ts` (:119-122, :143-151,
:158) describe other behaviour, the model follows what runs:

- the sender is bound before the protocol version is checked, so a peer that offers no
  version "1" is still bound (it just gets no answer);
- no `error` envelope is sent on a version mismatch;
- `peer-disconnected` is emitted whenever the sender was already bound, even to the same
  connection;
- `close` and `error` unbind nothing, so a closed connection stays routable;
- the relay keeps no reverse index, so one connection can hold several logical ids
  (`OneConnectionManyIds`).

## Model

| member | source | states |
|---|---|---|
| Bytes.ToArrayBuffer | graveyard/st/src/sync-server.ts:59-62 | the copy has exactly `byteLength` bytes, and its i-th byte is the view's i-th byte (`buffer[byteOffset + i]`) |
| Bytes.ToArrayBufferWhole | graveyard/st/src/sync-server.ts:59-62 | a view covering its whole buffer is copied unchanged |
| Bytes.ToArrayBufferOnlyWindow | graveyard/st/src/sync-server.ts:55-62 | the copy depends only on the bytes inside the view's window, never on the rest of the pooled buffer |
| Protocol.TargetOf | again/src/sync-server.ts:52-54 | a `peer` envelope is addressed to its `targetId`, any other document-sync message to its optional `targetId`; a `join` has no target |
| RelaySpec.InitialNotReady | again/src/sync-server.ts:17-28 | a new network is not ready, its promise is pending, it has no identity, and the readiness invariant holds |
| RelaySpec.ReadyIffResolved | again/src/sync-server.ts:20-32 | under the invariant, `isReady()` is true iff the `whenReady()` promise has resolved |
| RelaySpec.ForceReadyOnce | again/src/sync-server.ts:34-39 | `#forceReady` leaves the network ready; it runs the resolver exactly when it was not ready; a second call changes nothing |
| RelaySpec.ConnectAssignsIdentity | again/src/sync-server.ts:41-46 | after `connect(p, m)` the network is ready with identity `p` and metadata `m`; the resolver has run exactly once; maps and logs are unchanged |
| RelaySpec.ReconnectDoesNotResolve | again/src/sync-server.ts:34-46 | a second `connect` overwrites the identity and metadata, but the resolver count stays 1 |
| RelaySpec.SendRoutes | again/src/sync-server.ts:52-65 | `send` appends exactly one frame, `(peersByAutomerge[target], copy of encode(m))`, when the target is bound, and nothing otherwise; the frame has `byteLength` bytes; maps, identity and events never change |
| RelaySpec.AddPeerOnlyRegisters | again/src/sync-server.ts:67-69 | `addPeer(c)` sets `peersByVinxi[c.id] := c` and changes nothing else |
| RelaySpec.KnowPeerOnlyBinds | again/src/sync-server.ts:71-73 | `knowPeer(p, c)` makes `p` route to `c`, replacing any earlier binding; other ids, `peersByVinxi`, identity, readiness, resolver count and both logs are unchanged |
| RelaySpec.JoinEffects | again/src/sync-server.ts:115-152 | a join appends `peer-disconnected` (iff the sender was already bound) just before `peer-candidate`; binds the sender to this connection whatever versions it offered; sends the `peer` answer on this connection iff "1" is offered, and nothing otherwise |
| RelaySpec.NonJoinEffects | again/src/sync-server.ts:95-155 | bytes that fail to decode change nothing; a decoded non-join message appends exactly one `message` event carrying it and changes nothing else |
| RelaySpec.CloseKeepsBindings | again/src/sync-server.ts:157-162 | `close` and `error` leave the whole state unchanged |
| RelaySpec.DispatchBinding | again/src/sync-server.ts:91-162 | one transport event changes the binding of `p` only by a join from `p`, which binds `p` to that event's connection |
| RelaySpec.RunBinding | again/src/sync-server.ts:91-162 | after any sequence of transport events, `p` routes to the connection of the last join from `p`, or keeps its earlier binding (or absence) if `p` never joined: last join wins |
| RelaySpec.RunKeepsIdentity | again/src/sync-server.ts:91-162 | transport events never change the relay's identity, readiness or resolver count, so the readiness invariant survives any run |
| RelaySpec.RunNeverUnbinds | again/src/sync-server.ts:117-128 | no sequence of transport events removes a bound peer id |
| RelaySpec.HandshakeScenario | again/src/sync-server.ts:126-152 | relay "R" with A joining as "p1": offering ["1"], exactly the answer `peer {R, "1", target p1}` is sent on A, and "p1" routes to A; offering ["99"], nothing is sent but "p1" still routes to A |
| RelaySpec.RejoinScenario | again/src/sync-server.ts:115-128 | two joins for one id, on A then on B: the id routes to B, and the events are candidate, disconnected, candidate, in that order |
| RelaySpec.OneConnectionManyIds | again/src/sync-server.ts:115-128 | joins from "p" and "q" on one connection leave both ids routed to it |
| SyncServer.ManagedNetwork.constructor | again/src/sync-server.ts:16-24 | a new network has empty maps, no identity, is not ready, and has emitted and sent nothing |
| SyncServer.ManagedNetwork.IsReady | again/src/sync-server.ts:26-28 | the result is true iff the identity is assigned, and iff the `whenReady()` promise has resolved |
| SyncServer.ManagedNetwork.WhenReady | again/src/sync-server.ts:30-32 | the promise is resolved iff the network is ready |
| SyncServer.ManagedNetwork.ForceReady | again/src/sync-server.ts:34-39 | the new state is `RelaySpec.ForceReady` of the old one; it is private, and only `Connect` calls it |
| SyncServer.ManagedNetwork.Connect | again/src/sync-server.ts:41-46 | the new state is `RelaySpec.Connect` of the old one: identity `p`, metadata `m`, ready, resolver run once; the readiness invariant is kept |
| SyncServer.ManagedNetwork.Disconnect | again/src/sync-server.ts:48-51 | the state is unchanged |
| SyncServer.ManagedNetwork.Send | again/src/sync-server.ts:52-65 | the new state is `RelaySpec.Send` of the old one (see `SendRoutes`); the readiness invariant is kept |
| SyncServer.ManagedNetwork.AddPeer | again/src/sync-server.ts:67-69 | the new state is `RelaySpec.AddPeer` of the old one; the readiness invariant is kept |
| SyncServer.ManagedNetwork.KnowPeer | again/src/sync-server.ts:71-73 | the new state is `RelaySpec.KnowPeer` of the old one; the readiness invariant is kept |
| SyncServer.OnOpen | again/src/sync-server.ts:91-94 | the connection is registered under its transport id (`RelaySpec.AddPeer`); the readiness invariant is kept |
| SyncServer.OnMessage | again/src/sync-server.ts:95-156 | the new state is `RelaySpec.HandleMessage` of the old one (see `JoinEffects`, `NonJoinEffects`); the readiness invariant is kept |
| SyncServer.OnClose | again/src/sync-server.ts:157-159 | the state is unchanged |
| SyncServer.OnError | again/src/sync-server.ts:160-162 | the state is unchanged |
| PartyServer.SelectProtocol | graveyard/st/src/sync-server.ts:64-68 | no list gives `undefined`; a list containing "1" gives "1"; any other list gives `null`; each case holds in both directions |
| PartyServer.Broadcast | graveyard/st/src/sync-server.ts:44-50 | the writes are, in order, one per connection that is not the sender object, each carrying `encode(message)` |
| PartyServer.RecipientsCount | graveyard/st/src/sync-server.ts:45-49 | the sender is written to zero times; every other connection is written to as often as it occurs among the connections |
| PartyServer.BroadcastReachesOthersOnce | graveyard/st/src/sync-server.ts:44-50 | over a party's repeat-free connections, the writes go exactly once to each connection other than the sender and never to the sender, and every payload is the same `encode(message)` |
| Validation.ValidateEmail | graveyard/st/src/lib/server.ts:4-10 | "Email is required." iff empty; "Please enter a valid email address." iff non-empty without '@'; no error iff it contains '@' |
| Validation.ValidateName | graveyard/st/src/lib/server.ts:12-16 | no error iff non-empty; otherwise "Name is required." |
| Validation.ValidatePassword | graveyard/st/src/lib/server.ts:18-24 | "Password is required." iff empty (checked first); "Password must be at least 6 characters." iff 1 to 5 code units; no error iff at least 6 |

## Left out

- The CBOR codec (`encode`/`decode` from the automerge-repo helpers) is not part of this model. Both are parameters, and no round-trip law is claimed. `encode` is a Dafny function, so it is assumed deterministic: equal messages encode to equal bytes.
- Repository and storage construction, `os.hostname`, `process.env`, `existsSync`/`mkdirSync`: process bootstrap and I/O.
- Framework wiring: `eventHandler`/`partyHandler`, the party server's `onConnect` (which attaches a websocket client adapter to the repository), `ws.binaryType`, the `{binary, compress}` send options, and `console` logging.
- The `whenReady()` promise is a flag plus a resolver count, not asynchronous behaviour. The handlers run one at a time, each to completion.
- Event listeners: `emit` appends to a log. Anything a listener does synchronously inside `emit` (such as the repository calling `send`) is not modelled.
- Commented-out or `todo` behaviour: the `error` envelope on a version mismatch, closing sockets, `removePeer` on close, and the empty `selectProtocol` stub at the end of `again/src/sync-server.ts`.
- A `join` decoded without a `supportedProtocolVersions` list: `Protocol.Join` always carries one. The code would throw a `TypeError` at the `includes` call, after emitting and binding, and send nothing.
- PartyServer.Broadcast: the party's connections are given as a sequence, in iteration order. Whether a socket sends the whole pooled buffer behind a view, rather than just the view, depends on the transport and is not modelled.
- Reactive proxy stores, schema-validating document wrappers, UI and client bootstrap, build configuration, and the database and password-hashing functions (`login`, `accountExists`, `register`): these are outside the relay and the validators.
