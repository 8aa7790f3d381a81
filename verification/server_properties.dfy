/** What `grid::Server` guarantees about its transport and its sessions, over single operations and whole event traces. */
module ServerProperties {
  import opened Options
  import opened Server

  /** Stopping twice has the effect of stopping once. */
  lemma StopIdempotent(s: ServerState)
    ensures Stop(Stop(s)) == Stop(s)
  {
  }

  /**
    A failing bind leaves no transport behind, even when one was bound before,
    and that earlier transport is dropped without `ReleaseNetwork`.
  */
  lemma StartFailClosed(s: ServerState, t: TransportId)
    ensures Start(s, t, false).0.transport.None?
    ensures Stop(Start(s, t, false).0).released == s.released
  {
  }

  /**
    Binding over a bound transport replaces it without releasing it: the
    following `Stop` releases only the new one.
  */
  lemma RebindDropsOldTransport(s: ServerState, previous: TransportId, t: TransportId)
    requires s.transport == Some(previous)
    ensures Start(s, t, true).0.transport == Some(t)
    ensures Stop(Start(s, t, true).0).released == s.released + [t]
  {
  }

  /** Once the server is destroyed every handle is stale: delivering through it changes nothing. */
  lemma DeliverAfterDestroy(s: ServerState, id: SessionId, data: seq<bv8>)
    ensures Deliver(Destroy(s), id, data) == Destroy(s)
  {
  }

  /** The events the server reacts to. */
  datatype Event =
    | StartEvent(transport: TransportId, bindOk: bool)
    | StopEvent
    | Connect(connection: ConnectionId)
    | Data(session: SessionId, bytes: seq<bv8>)

  /** Applies one event. */
  function Step(s: ServerState, e: Event): (r: ServerState)
    requires Valid(s)
    ensures Valid(r)
  {
    match e
    case StartEvent(t, ok) => Start(s, t, ok).0
    case StopEvent => Stop(s)
    case Connect(c) => NewConnection(s, c).0
    case Data(id, bytes) => Deliver(s, id, bytes)
  }

  /** Applies a trace of events in order. */
  function Run(s: ServerState, events: seq<Event>): (r: ServerState)
    requires Valid(s)
    ensures Valid(r)
    ensures r.nextId >= s.nextId
    ensures s.sessions.Keys <= r.sessions.Keys
    decreases |events|
  {
    if |events| == 0 then s else Run(Step(s, events[0]), events[1..])
  }

  /** The bytes a trace delivers to handle `id`, in trace order. */
  function Delivered(events: seq<Event>, id: SessionId): seq<bv8>
    decreases |events|
  {
    if |events| == 0 then []
    else (if events[0].Data? && events[0].session == id then events[0].bytes else []) + Delivered(events[1..], id)
  }

  /**
    A live session's buffer, after any trace, is its earlier buffer followed by
    exactly the bytes the trace delivered to its handle, in order: nothing sent
    to other sessions reaches it, and `Start`/`Stop` do not touch it.
  */
  lemma {:induction false} RunBuffer(s: ServerState, events: seq<Event>, id: SessionId)
    requires Valid(s) && id in s.sessions
    ensures id in Run(s, events).sessions
    ensures Run(s, events).sessions[id].buffer == s.sessions[id].buffer + Delivered(events, id)
    ensures Run(s, events).sessions[id].connection == s.sessions[id].connection
    decreases |events|
  {
    if |events| > 0 {
      var s' := Step(s, events[0]);
      RunBuffer(s', events[1..], id);
      assert s.sessions[id].buffer + Delivered(events, id)
          == s'.sessions[id].buffer + Delivered(events[1..], id);
    }
  }

  /**
    A connection accepted at the start of a trace gets a fresh handle whose
    buffer ends up holding exactly the bytes the rest of the trace delivers to it.
  */
  lemma ConnectThenRun(s: ServerState, c: ConnectionId, events: seq<Event>)
    requires Valid(s)
    ensures var (s', id) := NewConnection(s, c);
      && id !in s.sessions
      && id in Run(s', events).sessions
      && Run(s', events).sessions[id] == Session(c, Delivered(events, id))
  {
    var (s', id) := NewConnection(s, c);
    RunBuffer(s', events, id);
  }

  /** The number of successful `Start` events in a trace. */
  function Binds(events: seq<Event>): nat
    decreases |events|
  {
    if |events| == 0 then 0
    else (if events[0].StartEvent? && events[0].bindOk then 1 else 0) + Binds(events[1..])
  }

  function BoundCount(s: ServerState): nat {
    if s.transport.Some? then 1 else 0
  }

  /**
    `ReleaseNetwork` is called at most once per successful bind: the releases a
    trace causes, plus the transport still bound at its end, never exceed the
    successful binds plus the transport bound at its start. The inequality is
    strict when a bound server is started again, since the old transport is
    overwritten without being released.
  */
  lemma {:induction false} ReleasesBounded(s: ServerState, events: seq<Event>)
    requires Valid(s)
    ensures var r := Run(s, events);
      |r.released| >= |s.released|
      && |r.released| - |s.released| + BoundCount(r) <= BoundCount(s) + Binds(events)
    decreases |events|
  {
    if |events| > 0 {
      ReleasesBounded(Step(s, events[0]), events[1..]);
    }
  }
}
