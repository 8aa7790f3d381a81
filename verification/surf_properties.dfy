/** What `Surf::ParseFromString` guarantees, stated about the `Surf.Parse` model. */
module SurfProperties {
  import opened Options
  import opened Text
  import Decimal
  import SurfPath
  import opened Surf

  /** The scheme is the text before the first '!'; with no '!' the scheme and the remainder are both all of `s`. */
  lemma SchemeBeforeFirstBang(self: SurfState, s: string)
    requires |s| < NPOS
    ensures '!' in s ==> var r := Parse(self, s).0;
      '!' !in r.scheme && s == r.scheme + "!" + Remainder(s)
    ensures '!' !in s ==> Parse(self, s).0.scheme == s && Remainder(s) == s
  {
    var f := Find(s, '!');
    if f != NPOS {
      assert s == s[..f] + "!" + s[f + 1..];
    }
  }

  /** Scheme, host and port flag depend on the text alone: nothing carries over from an earlier parse. */
  lemma ParseIgnoresHistory(a: SurfState, b: SurfState, s: string)
    requires |s| < NPOS
    ensures Parse(a, s).0.scheme == Parse(b, s).0.scheme
    ensures Parse(a, s).0.host == Parse(b, s).0.host
    ensures Parse(a, s).0.hasPort == Parse(b, s).0.hasPort
    ensures '/' in Remainder(s) ==> Parse(a, s).0.path == Parse(b, s).0.path
  {
  }

  /** With no '!' in the scheme, `scheme!rest` parses as the scheme followed by the parse of `rest`. */
  lemma ParseAfterScheme(self: SurfState, scheme: string, rest: string)
    requires '!' !in scheme && |scheme| + 1 + |rest| < NPOS
    ensures Parse(self, scheme + "!" + rest) == ParseRest(self, scheme, rest)
  {
    var s := scheme + "!" + rest;
    assert s[..|scheme|] == scheme && s[|scheme|] == '!';
    FindFirst(s, '!', |scheme|);
    assert s[|scheme| + 1..] == rest;
  }

  /**
    Host-only text (no '/' after the scheme): the whole remainder, `:port` text
    included, becomes the host, there is no port, and the path and port number
    of the previous parse stay as they were.
  */
  lemma HostOnly(self: SurfState, scheme: string, rest: string)
    requires |rest| < NPOS && '/' !in rest
    ensures ParseRest(self, scheme, rest) == (self.(scheme := scheme, host := rest, hasPort := false), true)
  {
  }

  /**
    Host and path without a port: with `rest == host + path`, where the host has
    no '/' and the path starts with one, the host and the path are recovered,
    the port flag is cleared and the port number is left alone.
  */
  lemma HostThenPath(self: SurfState, scheme: string, rest: string, host: string, path: string)
    requires rest == host + path && |rest| < NPOS
    requires '/' !in host && ':' !in rest
    requires path != "" && path[0] == '/'
    ensures var r := ParseRest(self, scheme, rest).0;
      && r.host == host
      && r.path == path
      && !r.hasPort && r.port == self.port
  {
    assert rest[..|host|] == host && rest[|host|] == '/';
    FindFirst(rest, '/', |host|);
    assert rest[|host|..] == path;
  }

  /**
    Host, port and path: with `rest == host + ":" + portText + path` the host is
    the text before the ':', the port flag is set, the path is the text from the
    first '/', and an all-digit port text of at most 65535 gives the port number.
  */
  lemma HostPortPath(self: SurfState, scheme: string, rest: string, host: string, portText: string, path: string)
    requires rest == host + ":" + portText + path && |rest| < NPOS
    requires ':' !in host && '/' !in host && '/' !in portText
    requires path != "" && path[0] == '/'
    ensures var r := ParseRest(self, scheme, rest).0;
      && r.host == host
      && r.hasPort
      && r.path == path
      && r.port == ScanPort(portText, self.port)
      && (Decimal.AllDigits(portText) && portText != "" && Decimal.Value(portText) < 0x1_0000 ==>
            r.port == Decimal.Value(portText))
  {
    var slash := |host| + 1 + |portText|;
    assert rest[..|host|] == host && rest[|host|] == ':';
    FindFirst(rest, ':', |host|);
    assert rest[..slash] == host + ":" + portText;
    assert rest[slash] == '/';
    FindFirst(rest, '/', slash);
    assert PortText(rest, |host|, slash) == portText;
    assert rest[slash..] == path;
  }

  /** The branch of the parse taken when both a '/' and a ':' are found. */
  lemma PortBranch(self: SurfState, scheme: string, rest: string, slash: nat, colon: nat)
    requires |rest| < NPOS && slash < |rest| && colon < |rest|
    requires Find(rest, '/') == slash && Find(rest, ':') == colon
    ensures ParseRest(self, scheme, rest).0
         == self.(scheme := scheme, host := rest[..colon], hasPort := true,
                  port := ScanPort(PortText(rest, colon, slash), self.port), path := rest[slash..])
  {
  }

  /**
    A ':' after the first '/' is still taken as the port delimiter: the host runs
    up to that ':' (taking in the start of the path), the port flag is set and
    the port text is everything after the ':'.
  */
  lemma ColonAfterSlash(self: SurfState, scheme: string, rest: string, host: string, mid: string, tail: string)
    requires rest == host + "/" + mid + ":" + tail && |rest| < NPOS
    requires '/' !in host && ':' !in host && ':' !in mid
    ensures var r := ParseRest(self, scheme, rest).0;
      && r.host == host + "/" + mid
      && r.hasPort
      && r.path == "/" + mid + ":" + tail
      && r.port == ScanPort(tail, self.port)
  {
    var colon := |host| + 1 + |mid|;
    FindsBeforeColon(rest, host, mid, tail);
    assert rest[..colon] == host + "/" + mid;
    assert rest[|host|..] == "/" + mid + ":" + tail;
    assert PortText(rest, colon, |host|) == tail by {
      assert rest[colon + 1..] == tail;
    }
    PortBranch(self, scheme, rest, |host|, colon);
  }

  lemma FindsBeforeColon(rest: string, host: string, mid: string, tail: string)
    requires rest == host + "/" + mid + ":" + tail && |rest| < NPOS
    requires '/' !in host && ':' !in host && ':' !in mid
    ensures Find(rest, '/') == |host| && Find(rest, ':') == |host| + 1 + |mid|
  {
    var colon := |host| + 1 + |mid|;
    assert rest[..|host|] == host && rest[|host|] == '/';
    FindFirst(rest, '/', |host|);
    assert rest[..colon] == host + "/" + mid;
    assert rest[colon] == ':';
    FindFirst(rest, ':', colon);
  }

  /** Applies `Parse` to each text in turn, starting from `st`. */
  function ParseAll(st: SurfState, texts: seq<string>): SurfState
    requires forall i :: 0 <= i < |texts| ==> |texts[i]| < NPOS
    decreases |texts|
  {
    if |texts| == 0 then st else ParseAll(Parse(st, texts[0]).0, texts[1..])
  }

  /** The stored path is empty (never set) or absolute. */
  predicate PathAbsoluteOrUnset(st: SurfState) {
    st.path == "" || SurfPath.Segments(st.path)[0] == ""
  }

  /**
    Whatever sequence of texts a fresh Surf parses, the stored path is either
    still unset or splits with an empty first segment, i.e. is absolute.
  */
  lemma {:induction false} StoredPathIsAbsolute(st: SurfState, texts: seq<string>)
    requires st.path == "" || st.path[0] == '/'
    requires forall i :: 0 <= i < |texts| ==> |texts[i]| < NPOS
    ensures var r := ParseAll(st, texts); r.path == "" || r.path[0] == '/'
    ensures PathAbsoluteOrUnset(ParseAll(st, texts))
    decreases |texts|
  {
    var r := ParseAll(st, texts);
    if |texts| > 0 {
      StoredPathIsAbsolute(Parse(st, texts[0]).0, texts[1..]);
    }
    if r.path != "" {
      SurfPath.AbsoluteIffEmptyFirstSegment(r.path);
    }
  }

  /** The textual form `scheme!host[:port]path` of SURF parts. */
  function Render(scheme: string, host: string, port: Option<U16>, path: string): string {
    scheme + "!" + host + (if port.Some? then ":" + Decimal.ToDecimal(port.value) else "") + path
  }

  /**
    Parsing a rendered SURF recovers its parts, provided the scheme has no '!',
    the host has neither '/' nor ':', and the path is absolute, with no ':' when
    there is no port.
  */
  lemma ParseRender(self: SurfState, scheme: string, host: string, port: Option<U16>, path: string)
    requires '!' !in scheme
    requires '/' !in host && ':' !in host
    requires path != "" && path[0] == '/' && (port.None? ==> ':' !in path)
    requires |Render(scheme, host, port, path)| < NPOS
    ensures var r := Parse(self, Render(scheme, host, port, path)).0;
      && r.scheme == scheme
      && r.host == host
      && r.hasPort == port.Some?
      && (port.Some? ==> r.port == port.value)
      && (port.None? ==> r.port == self.port)
      && r.path == path
  {
    if port.Some? {
      ParseRenderWithPort(self, scheme, host, port.value, path);
    } else {
      var rest := host + path;
      assert Render(scheme, host, port, path) == scheme + "!" + rest;
      ParseAfterScheme(self, scheme, rest);
      HostThenPath(self, scheme, rest, host, path);
    }
  }

  lemma ParseRenderWithPort(self: SurfState, scheme: string, host: string, port: U16, path: string)
    requires '!' !in scheme
    requires '/' !in host && ':' !in host
    requires path != "" && path[0] == '/'
    requires |Render(scheme, host, Some(port), path)| < NPOS
    ensures var r := Parse(self, Render(scheme, host, Some(port), path)).0;
      r.scheme == scheme && r.host == host && r.hasPort && r.port == port && r.path == path
  {
    var digits := Decimal.ToDecimal(port);
    var rest := host + ":" + digits + path;
    assert Render(scheme, host, Some(port), path) == scheme + "!" + rest;
    ParseAfterScheme(self, scheme, rest);
    assert '/' !in digits by {
      forall i | 0 <= i < |digits| ensures digits[i] != '/' {
        assert Decimal.IsDigit(digits[i]);
      }
    }
    HostPortPath(self, scheme, rest, host, digits, path);
    Decimal.ValueOfToDecimal(port);
  }

  /*
    The examples below are proved in small steps: a single proof that mentions a
    whole literal SURF makes the verifier unfold the parser over every character.
  */

  lemma GridScheme(self: SurfState, rest: string)
    requires |rest| < NPOS - 5
    ensures Parse(self, "grid" + "!" + rest) == ParseRest(self, "grid", rest)
  {
    ParseAfterScheme(self, "grid", rest);
  }

  lemma DomainFooBar(self: SurfState)
    ensures var r := ParseRest(self, "grid", "domain.com/foo/bar").0;
      r.host == "domain.com" && r.path == "/foo/bar" && !r.hasPort
  {
    assert "domain.com/foo/bar" == "domain.com" + "/foo/bar";
    HostThenPath(self, "grid", "domain.com/foo/bar", "domain.com", "/foo/bar");
  }

  lemma Port1234(previous: U16)
    ensures ScanPort("1234", previous) == 1234
  {
    assert Decimal.ToDecimal(1234) == "1234";
    Decimal.ValueOfToDecimal(1234);
  }

  lemma DomainPortFooBar(self: SurfState)
    ensures var r := ParseRest(self, "grid", "domain.com:1234/foo/bar/").0;
      r.host == "domain.com" && r.path == "/foo/bar/" && r.hasPort && r.port == 1234
  {
    assert "domain.com:1234/foo/bar/" == "domain.com" + ":" + "1234" + "/foo/bar/";
    HostPortPath(self, "grid", "domain.com:1234/foo/bar/", "domain.com", "1234", "/foo/bar/");
    Port1234(self.port);
  }

  lemma DomainWithPortText(self: SurfState)
    ensures ParseRest(self, "grid", "domain.com:80") == (self.(scheme := "grid", host := "domain.com:80", hasPort := false), true)
  {
    HostOnly(self, "grid", "domain.com:80");
  }

  lemma SegmentsFooBar()
    ensures SurfPath.Segments("/foo/bar") == ["", "foo", "bar"]
    ensures SurfPath.Segments("/foo/bar/") == ["", "foo", "bar", ""]
  {
    SurfPath.SplitJoin(["", "foo", "bar"]);
    assert SurfPath.Join(["", "foo", "bar"]) == "/foo/bar";
    SurfPath.SplitJoin(["", "foo", "bar", ""]);
    assert SurfPath.Join(["", "foo", "bar", ""]) == "/foo/bar/";
  }

  /** The example of the source's test: `grid!domain.com/foo/bar`. */
  lemma ExampleHostPath()
    ensures var (r, ok) := Parse(Initial, "grid" + "!" + "domain.com/foo/bar");
      && ok
      && r.scheme == "grid"
      && r.host == "domain.com"
      && !r.hasPort
      && r.path == "/foo/bar"
      && PathSegments(r) == ["", "foo", "bar"]
  {
    GridScheme(Initial, "domain.com/foo/bar");
    DomainFooBar(Initial);
    SegmentsFooBar();
  }

  /** A port and a trailing '/': `grid!domain.com:1234/foo/bar/`. */
  lemma ExampleHostPortPath()
    ensures var r := Parse(Initial, "grid" + "!" + "domain.com:1234/foo/bar/").0;
      && r.scheme == "grid"
      && r.host == "domain.com"
      && r.hasPort && r.port == 1234
      && PathSegments(r) == ["", "foo", "bar", ""]
  {
    GridScheme(Initial, "domain.com:1234/foo/bar/");
    DomainPortFooBar(Initial);
    SegmentsFooBar();
  }

  /** Host-only text keeps the `:port` text in the host and sets no port: `grid!domain.com:80`. */
  lemma ExampleHostOnly(self: SurfState)
    ensures var r := Parse(self, "grid" + "!" + "domain.com:80").0;
      && r.scheme == "grid"
      && r.host == "domain.com:80"
      && !r.hasPort
      && r.path == self.path
      && r.port == self.port
  {
    GridScheme(self, "domain.com:80");
    DomainWithPortText(self);
  }
}
