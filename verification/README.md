# GRID core in Dafny: the SURF parser and the server session table

This project models two small parts of the GRID protocol skeleton and proves
properties of them.

- **SURF** (Standard Unique Resource Finder). These are addresses of the form
  `scheme!host[:port]/path`. `grid::Surf::ParseFromString` splits the text into a
  scheme, a host, an optional 16-bit port and a path string. A `Surf` object can be
  parsed more than once. Here it is the value `Surf.SurfState`, holding the five
  fields of `Surf::Impl`. `Surf.Parse(self, s)` gives the state after parsing `s`
  into an object whose fields were `self`, together with the returned flag. That
  makes the fields a parse leaves alone visible to the proofs. The accessors `GetScheme`, `GetHost`, `GetPath`,
  `HasPort` and `GetPort` are plain reads of those fields.
- **Path segments.** The source stores the path as one string. Its header says the
  first step of the path is empty for an absolute path, and its test compares the
  path with a vector of segments. Module `SurfPath` defines the segment view
  (`Split`, `Segments`) together with its inverse `Join`, and relates the two.
- **Server.** `grid::Server` keeps at most one bound transport and a set of
  `ConnectionState` sessions. Each session has a byte reassembly buffer. The
  transport's callbacks become explicit operations on the value
  `Server.ServerState`:
  - `Start(s, t, bindOk)`: the transport's `BindNetwork` answer is the input `bindOk`.
  - `Stop(s)`.
  - `NewConnection(s, c)`: returns the fresh session handle.
  - `Deliver(s, id, data)`: the data-received delegate. It looks the handle up and
    ignores data for a session that is gone. This stands in for `weak_ptr::lock`.
  - `Destroy(s)`: the destructor.

  Every `ReleaseNetwork` call is appended to the `released` log in the state.
  `ServerProperties` replays traces of events and proves facts about them:
  buffers are append-only, sessions are isolated from each other, and releases
  are balanced against binds.

Modules: `Options` (the optional value), `Text` (`find` and `substr` of
`std::string`), `Decimal` (decimal port numerals), `SurfPath`, `Surf`,
`SurfProperties`, `Server`, `ServerProperties`.

The model follows the code, including these behaviours:

- Without a `!` in the text, the scheme is the whole text: `substr(0, npos)` runs
  to the end. The header's comment on `GetScheme` (lib/grid/surf.h:68-69) promises
  `""` when there is no scheme, but lib/grid/surf.cc:44-45 stores the whole text.
  `npos + 1` wraps to 0 in `size_t`, so the remainder is the whole text as well.
- Host-only text (no `/`) keeps the previous path and port number. Text without a
  `:` keeps the previous port number.
- The `:` is looked for in the whole remainder, not only before the first `/`.
  When it comes after the `/`, the host takes in part of the path. The unsigned
  length `authorityEnd - portDelimiter - 1` then wraps around, so `substr` takes
  the rest of the text as the port text.
- The path is stored as a string. The segment list is derived from it.
- `Stop` releases the transport but leaves the sessions in place. Only the
  destructor drops them.
- `Start` on a bound server overwrites the transport without releasing it. A
  failing `Start` on a bound server drops the old transport, also without
  releasing it.

## Model

| member | source | states |
|---|---|---|
| `Text.Find` | lib/grid/surf.cc:44 | `find` gives the first index holding the character, with no earlier occurrence; it gives "not found" exactly when the character is absent |
| `Text.ToSizeT` | lib/grid/surf.cc:63 | converting to `size_t` keeps values in range and adds 2^64 to negative values down to -2^64 (unsigned wrap-around) |
| `Text.StartAfter` | lib/grid/surf.cc:46 | `pos + 1` computed in `size_t` is 0 when `pos` is `npos` and one past `pos` otherwise |
| `Text.Substr` | lib/grid/surf.cc:45-46 | `substr(pos, count)` is exactly the `min(count, size - pos)` characters from `pos`: the slice of length `count`, or everything from `pos` to the end when `count` reaches past it |
| `Surf.SchemeOf` | lib/grid/surf.cc:44-45 | the scheme is the whole text when it has no `!`; otherwise it has no `!` and the text is scheme + `!` + remainder |
| `Surf.Remainder` | lib/grid/surf.cc:46 | the remainder is the whole text when it has no `!` (the `npos + 1` wrap); otherwise it is strictly shorter than the text |
| `Surf.PortText` | lib/grid/surf.cc:62-63 | the port text is the text between `:` and `/` when the `:` comes first, and everything after the `:` when it comes after the `/`, because the wrapped count is clamped |
| `Surf.ScanPort` | lib/grid/surf.cc:62-64 | a non-empty all-digit port text of value at most 65535 yields that value; text that is empty or not all digits leaves the previous port number |
| `Surf.ParseRest` | lib/grid/surf.cc:48-73 | both branches that return give true; the port flag is set only if the remainder holds both `/` and `:`; when it is not set the port number is unchanged; the path is either left as it was or starts with `/` |
| `Surf.Parse` | lib/grid/surf.cc:42-74 | parsing never fails: the returned flag is true on every input; the port flag is set only if the text holds both `/` and `:`; when it is not set the port number is unchanged; the path is left as it was or starts with `/` |
| `SurfProperties.SchemeBeforeFirstBang` | lib/grid/surf.cc:44-46 | with a `!`, the text is scheme + `!` + remainder and the scheme has no `!`; without one, the scheme and the remainder are both the whole text |
| `SurfProperties.ParseAfterScheme` | lib/grid/surf.cc:44-46 | `scheme!rest`, with no `!` in the scheme, parses as that scheme followed by the parse of `rest` |
| `SurfProperties.ParseIgnoresHistory` | lib/grid/surf.cc:44-59 | scheme, host and port flag depend only on the text, because the port flag is reset on every parse; the path also does once the remainder has a `/` |
| `SurfProperties.HostOnly` | lib/grid/surf.cc:51-55 | with no `/` in the remainder, the host is the whole remainder (any `:port` text included) and the port flag is cleared; path and port number are unchanged, and nothing else changes |
| `SurfProperties.HostThenPath` | lib/grid/surf.cc:51-71 | for `host + path` with no `:`, where the path starts with `/`, the host and path are recovered, the port flag is false and the port number is unchanged |
| `SurfProperties.HostPortPath` | lib/grid/surf.cc:51-71 | for `host:port/path`, the host is the text before `:`, the port flag is set, the path is the text from the `/`, and an all-digit port of at most 65535 gives the port number |
| `SurfProperties.ColonAfterSlash` | lib/grid/surf.cc:51-71 | a `:` after the first `/` still splits host from port: the host takes in the start of the path, the port text is everything after `:`, and the path still starts at the `/` |
| `SurfProperties.StoredPathIsAbsolute` | lib/grid/surf.h:87-89 | after any sequence of parses the stored path is unset or starts with `/`, so its first segment is empty (an absolute path) |
| `SurfProperties.ParseRender` | lib/grid/surf.cc:42-74 | rendering scheme, host, optional port and path as `scheme!host[:port]path`, then parsing, gives back every part; with a port the path may hold `:` |
| `SurfProperties.ExampleHostPath` | test/surf_test.cc:12-19 | `grid!domain.com/foo/bar` parses successfully and gives scheme `grid`, host `domain.com`, no port, path `/foo/bar` with segments `["", "foo", "bar"]` |
| `SurfProperties.ExampleHostPortPath` | lib/grid/surf.cc:57-71 | `grid!domain.com:1234/foo/bar/` gives host `domain.com`, port 1234, segments `["", "foo", "bar", ""]` |
| `SurfProperties.ExampleHostOnly` | lib/grid/surf.cc:51-55 | `grid!domain.com:80` gives host `domain.com:80`, no port flag, and keeps the previous path and port |
| `SurfPath.Split` | lib/grid/surf.h:87-89 | a string with k slashes splits into k + 1 segments, none holding a `/` |
| `SurfPath.Segments` | test/surf_test.cc:18 | the empty path has no segments; any other path has one more segment than it has slashes |
| `SurfPath.JoinSplit` | lib/grid/surf.h:84-94 | joining the segments of a path with `/` gives back the stored path string |
| `SurfPath.SplitJoin` | lib/grid/surf.h:84-94 | splitting slash-free segments joined with `/` gives back the segments |
| `SurfPath.AbsoluteIffEmptyFirstSegment` | lib/grid/surf.h:87-89 | a non-empty path starts with `/` exactly when its first segment is empty |
| `Decimal.ToDecimal` | lib/grid/surf.cc:62-64 | the rendering of a number is a canonical numeral (digits only, no leading zero) |
| `Decimal.ValueOfToDecimal` | lib/grid/surf.cc:62-64 | reading back a rendered number gives the number |
| `Decimal.ToDecimalOfValue` | lib/grid/surf.cc:62-64 | rendering the value of a canonical numeral gives the numeral |
| `Server.Start` | lib/grid/net/server.cc:78-88 | the result is the bind answer; on success the server holds the new transport, and on failure it holds none; sessions are untouched and nothing is released |
| `Server.Stop` | lib/grid/net/server.cc:90-95 | a bound transport is released exactly once and forgotten; an unbound server is unchanged; sessions are untouched |
| `Server.NewConnection` | lib/grid/net/server.cc:56-69 | one session with a fresh handle and an empty buffer is added; existing sessions, the transport and the release log are unchanged; handles stay unique |
| `Server.DataReceived` | lib/grid/net/server.cc:45-47 | the new buffer is the old buffer followed by exactly the received bytes |
| `Server.Deliver` | lib/grid/net/server.cc:45-68 | a live session becomes `DataReceived` of itself: its buffer gets the bytes appended and its connection is kept; every other session and the rest of the state are unchanged; a stale handle changes nothing |
| `Server.Destroy` | lib/grid/net/server.cc:74-76 | the destructor releases as `Stop` does and leaves no session and no transport |
| `ServerProperties.StopIdempotent` | lib/grid/net/server.cc:90-95 | `Stop; Stop` has the same effect as `Stop` |
| `ServerProperties.StartFailClosed` | lib/grid/net/server.cc:79-85 | a failing bind leaves no transport, even on a bound server, and releases nothing |
| `ServerProperties.RebindDropsOldTransport` | lib/grid/net/server.cc:78-95 | starting a bound server replaces its transport without releasing it; the next `Stop` releases only the new one |
| `ServerProperties.DeliverAfterDestroy` | lib/grid/net/server.cc:60-76 | after the server is destroyed, delivering through any handle changes nothing |
| `ServerProperties.RunBuffer` | lib/grid/net/server.cc:45-68 | over any trace of events, a live session's buffer becomes its old buffer plus exactly the bytes delivered to its handle, in order; other sessions' data and transport events never reach it |
| `ServerProperties.ConnectThenRun` | lib/grid/net/server.cc:56-68 | a newly accepted connection's session ends any trace holding exactly the bytes delivered to its handle |
| `ServerProperties.ReleasesBounded` | lib/grid/net/server.cc:78-95 | over any trace, the releases plus the transport still bound never exceed the successful binds plus the transport bound at the start |

## Left out

- Every string is shorter than `npos`. `std::string::max_size` guarantees this, and the parser's operations require it, so that `find` results fit in `size_t`.

- `Surf.ScanPort`: the `sscanf("%" SCNu16)` conversion is specified only for non-empty all-digit text of value at most 65535. Its other cases are leading whitespace, a sign, trailing non-digits and overflow. For those the model keeps the previous port number. That matches `sscanf` only when the text starts with a character that is not a digit, a space or a sign.
- The query and fragment parts of a SURF, and the rule that tries `scheme.host` before `host`. They exist only in comments of lib/grid/surf.h, not in the code.
- Concrete transports and connections. `Connection` and `ServerTransport` are interfaces without behaviour. The bind answer is an input to `Start`. The port passed to `BindNetwork` does not affect the server's state, so `Start` does not take it. The server never uses `SendData`, `Break` or `SetBrokenDelegate`.
- The transport calling the new-connection delegate from inside `BindNetwork`. Accepted connections are modelled only as later, separate events.
- Threads, `shared_ptr`/`weak_ptr` lifetimes and the lambda's capture of `this`. A weak handle is modelled as a session id that is never reused, and locking it is modelled as a map lookup. Concurrent delivery is not modelled.
- The `Connection` object a session holds is represented only by its id.
