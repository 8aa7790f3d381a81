/**
  SURF (Standard Unique Resource Finder) values and the parser that builds them
  from text of the form `scheme!host[:port]/path`.

  The source keeps a Surf as a mutable object whose fields `ParseFromString`
  overwrites; here the object is a `SurfState` value and a parse is a function
  from the previous state and the text to the next state, so that the fields a
  parse leaves untouched can be stated.
*/
module Surf {
  import opened Text
  import Decimal
  import SurfPath

  /** The C++ `uint16_t`. */
  type U16 = x: int | 0 <= x < 0x1_0000

  /**
    The fields of `Surf::Impl`. The accessors `GetScheme`, `GetHost`, `GetPath`,
    `HasPort` and `GetPort` read these fields and nothing else.
  */
  datatype SurfState = SurfState(scheme: string, host: string, hasPort: bool, port: U16, path: string)

  /** A freshly constructed Surf: empty strings, no port, port number 0. */
  const Initial := SurfState("", "", false, 0, "")

  /** The segment view of the stored path. */
  function PathSegments(st: SurfState): seq<string> {
    SurfPath.Segments(st.path)
  }

  /**
    `sscanf(text, "%" SCNu16, &port)` on the port text. Only a non-empty
    all-digit text whose value fits in 16 bits is given a meaning; any other text
    leaves the previous port number in place.
  */
  function ScanPort(text: string, previous: U16): (port: U16)
    ensures Decimal.AllDigits(text) && text != "" && Decimal.Value(text) < 0x1_0000 ==> port == Decimal.Value(text)
    ensures !(Decimal.AllDigits(text) && text != "") ==> port == previous
  {
    if Decimal.AllDigits(text) && text != "" && Decimal.Value(text) < 0x1_0000 then Decimal.Value(text) else previous
  }

  /**
    The scheme `s.substr(0, s.find('!'))`: the text before the first '!', or,
    since a count of `npos` runs to the end, all of `s` when there is none.
  */
  function SchemeOf(s: string): (scheme: string)
    requires |s| < NPOS
    ensures '!' !in s ==> scheme == s
    ensures '!' in s ==> '!' !in scheme && s == scheme + "!" + Remainder(s)
  {
    ghost var f := Find(s, '!');
    assert f != NPOS ==> s == s[..f] + "!" + s[f + 1..];
    Substr(s, 0, Find(s, '!'))
  }

  /**
    The remainder `s.substr(s.find('!') + 1)`: the text after the first '!',
    or all of `s` when there is none, because `npos + 1` wraps around to 0.
  */
  function Remainder(s: string): (rest: string)
    requires |s| < NPOS
    ensures |rest| <= |s|
    ensures '!' !in s ==> rest == s
    ensures '!' in s ==> |rest| < |s|
  {
    Substr(s, StartAfter(Find(s, '!')), NPOS)
  }

  /**
    The port text `rest.substr(colon + 1, slash - colon - 1)`. When the colon
    lies after the slash the unsigned count wraps around to a value beyond the
    end of `rest`, so the text runs to the end.
  */
  function PortText(rest: string, colon: SizeT, slash: SizeT): (text: string)
    requires |rest| < NPOS && colon < |rest| && slash < |rest|
    ensures colon < slash ==> text == rest[colon + 1..slash]
    ensures slash < colon ==> text == rest[colon + 1..]
  {
    Substr(rest, StartAfter(colon), ToSizeT(slash - colon - 1))
  }

  /**
    The part of `Surf::ParseFromString` after the scheme, given the scheme and
    the remainder `rest`: the new state and the returned flag.
  */
  function ParseRest(self: SurfState, scheme: string, rest: string): (r: (SurfState, bool))
    requires |rest| < NPOS
    ensures r.1
    ensures r.0.scheme == scheme
    ensures r.0.hasPort ==> '/' in rest && ':' in rest
    ensures !r.0.hasPort ==> r.0.port == self.port
    ensures r.0.path == self.path || (r.0.path != "" && r.0.path[0] == '/')
  {
    var reset := self.(scheme := scheme, hasPort := false);
    var authorityEnd := Find(rest, '/');
    // the source compares with -1, which converts to npos
    if authorityEnd == ToSizeT(-1) then
      (reset.(host := rest), true)
    else
      var portDelimiter := Find(rest, ':');
      var withHost :=
        if portDelimiter == NPOS then
          reset.(host := Substr(rest, 0, authorityEnd))
        else
          reset.(host := Substr(rest, 0, portDelimiter),
                 port := ScanPort(PortText(rest, portDelimiter, authorityEnd), self.port),
                 hasPort := true);
      (withHost.(path := Substr(rest, authorityEnd, NPOS)), true)
  }

  /**
    `Surf::ParseFromString` applied to a Surf whose fields are `self`: the new
    fields and the returned flag, which is true on every input.
    The scheme, host and port flag are always overwritten; the path only when
    the remainder has a '/', the port number only when there is also a ':'.
  */
  function Parse(self: SurfState, s: string): (r: (SurfState, bool))
    requires |s| < NPOS
    ensures r.1
    ensures r.0.hasPort ==> '/' in s && ':' in s
    ensures !r.0.hasPort ==> r.0.port == self.port
    ensures r.0.path == self.path || (r.0.path != "" && r.0.path[0] == '/')
  {
    var rest := Remainder(s);
    assert forall c :: c in rest ==> c in s;
    ParseRest(self, SchemeOf(s), rest)
  }
}
