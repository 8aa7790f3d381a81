/**
  The GRID server's session bookkeeping (`grid::Server`), with the transport
  callbacks replaced by explicit operations:

  - `Start` stands for `Server::Start`; what `BindNetwork` answers is a parameter;
  - `NewConnection` stands for the new-connection delegate the server registers;
  - `Deliver` stands for the data-received delegate registered on each connection,
    which holds only a weak handle (here: the session id) to its session;
  - `Stop` and `Destroy` stand for `Server::Stop` and the destructor.

  Every `ReleaseNetwork` call is recorded in the state so that it can be counted.
*/
module Server {
  import opened Options

  /** Identifies a transport object handed to `Start`. */
  type TransportId = nat

  /** Identifies a `Connection` object handed to the new-connection delegate. */
  type ConnectionId = nat

  /** The weak handle a data-received delegate holds on its session. */
  type SessionId = nat

  /** `ConnectionState`: the connection and the bytes received on it so far, in arrival order. */
  datatype Session = Session(connection: ConnectionId, buffer: seq<bv8>)

  /**
    `Server::Impl`: the bound transport (if any) and the active sessions.
    `nextId` is the next session handle to hand out; `released` lists the
    transports on which `ReleaseNetwork` was called, oldest first.
  */
  datatype ServerState = ServerState(
    transport: Option<TransportId>,
    sessions: map<SessionId, Session>,
    nextId: SessionId,
    released: seq<TransportId>)

  /** Handles are never reused: every live session's handle is below `nextId`. */
  ghost predicate Valid(s: ServerState) {
    forall id :: id in s.sessions ==> id < s.nextId
  }

  /** A newly constructed server: no transport, no sessions. */
  const Initial := ServerState(None, map[], 0, [])

  /**
    `Server::Start(transport, port)`. The transport is stored, then asked to
    bind; `bindOk` is its answer. On failure the stored transport is cleared.
    A transport that was bound before is overwritten without `ReleaseNetwork`.
  */
  function Start(s: ServerState, t: TransportId, bindOk: bool): (r: (ServerState, bool))
    ensures r.1 == bindOk
    ensures r.0.transport == (if bindOk then Some(t) else None)
    ensures r.0.sessions == s.sessions && r.0.nextId == s.nextId
    ensures r.0.released == s.released
  {
    var stored := s.(transport := Some(t));
    if !bindOk then (stored.(transport := None), false) else (stored, true)
  }

  /** `Server::Stop`: release the bound transport, if any, and forget it. Sessions stay. */
  function Stop(s: ServerState): (r: ServerState)
    ensures r.transport.None?
    ensures s.transport.Some? ==> r.released == s.released + [s.transport.value]
    ensures s.transport.None? ==> r == s
    ensures r.sessions == s.sessions && r.nextId == s.nextId
  {
    if s.transport.Some? then
      s.(released := s.released + [s.transport.value], transport := None)
    else
      s
  }

  /**
    `Server::Impl::NewConnection`: a session with an empty buffer is added under
    a fresh handle, which the data-received delegate then captures.
  */
  function NewConnection(s: ServerState, c: ConnectionId): (r: (ServerState, SessionId))
    requires Valid(s)
    ensures Valid(r.0)
    ensures r.1 !in s.sessions && r.1 in r.0.sessions
    ensures r.0.sessions[r.1] == Session(c, [])
    ensures r.0.sessions.Keys == s.sessions.Keys + {r.1}
    ensures forall id :: id in s.sessions ==> r.0.sessions[id] == s.sessions[id]
    ensures r.0.transport == s.transport && r.0.released == s.released
  {
    var id := s.nextId;
    (s.(sessions := s.sessions[id := Session(c, [])], nextId := id + 1), id)
  }

  /** `Server::Impl::DataReceived`: append the received bytes to the reassembly buffer. */
  function DataReceived(session: Session, data: seq<bv8>): (r: Session)
    ensures r.connection == session.connection
    ensures |r.buffer| == |session.buffer| + |data|
    ensures r.buffer[..|session.buffer|] == session.buffer
    ensures r.buffer[|session.buffer|..] == data
  {
    session.(buffer := session.buffer + data)
  }

  /**
    The data-received delegate: the weak handle is locked (looked up); if its
    session is gone the data is dropped, otherwise `DataReceived` runs on it.
  */
  function Deliver(s: ServerState, id: SessionId, data: seq<bv8>): (r: ServerState)
    ensures id !in s.sessions ==> r == s
    ensures id in s.sessions ==> id in r.sessions && r.sessions[id] == DataReceived(s.sessions[id], data)
    ensures id in s.sessions ==> r.sessions[id].buffer == s.sessions[id].buffer + data
    ensures r.sessions.Keys == s.sessions.Keys
    ensures forall other :: other in s.sessions && other != id ==> r.sessions[other] == s.sessions[other]
    ensures r.transport == s.transport && r.nextId == s.nextId && r.released == s.released
  {
    if id in s.sessions then
      s.(sessions := s.sessions[id := DataReceived(s.sessions[id], data)])
    else
      s
  }

  /**
    `Server::~Server`: `Stop`, then the server's state, and with it every
    session, is destroyed. Handles stay unique, so an old handle never
    reaches a later session.
  */
  function Destroy(s: ServerState): (r: ServerState)
    ensures r.sessions == map[] && r.transport.None?
    ensures r.released == Stop(s).released && r.nextId == s.nextId
  {
    Stop(s).(sessions := map[])
  }
}
