/** The way back: internal/telebit/table.go files a client under the text of its remote address, and
    finds it again by the address a reply frame carries after a round trip over the tunnel. */
module ReturnPath {
  import opened Text
  import opened Numerals
  import opened Addrs
  import opened Header

  datatype Served = Panics | Source(src: Addr)

  /** The source address `SubscriberConn.Serve` derives from "host:port". */
  function SourceOf(remote: bytes, scheme: bytes): Served {
    var parts := Split(remote, COLON);
    if |parts| < 2 then Panics else Source(NewAddr(scheme, [], parts[0], Atoi(parts[1]).value))
  }

  /** The id `SubscriberConn.RouteBytes` looks up. */
  function RouteId(src: Addr): bytes {
    src.addr + [COLON] + Itoa(src.port)
  }

  /** It splits at the colons, whatever the text: the part before the first is the address, that before
      the second is read as the port, and the rest is not looked at; without a colon it panics. */
  lemma SourceOfParts(host: bytes, port: bytes, rest: bytes, scheme: bytes)
    requires COLON !in host && COLON !in port
    ensures SourceOf(host, scheme) == Panics
    ensures SourceOf(host + [COLON] + port, scheme) == Source(Addr(TUN, scheme, [], host, Meant(port)))
    ensures SourceOf(host + [COLON] + (port + [COLON] + rest), scheme)
         == Source(Addr(TUN, scheme, [], host, Meant(port)))
  {
    hide Split, Atoi, Meant;
    SplitLast(host, COLON);
    SplitField(host, port, COLON);
    SplitLast(port, COLON);
    SplitField(host, port + [COLON] + rest, COLON);
    SplitField(port, rest, COLON);
    AtoiExact(port);
  }

  lemma {:induction false} NoLeadingZero(n: nat)
    ensures n > 0 ==> Digits(n)[0] != 48
    ensures n < 10 <==> |Digits(n)| == 1
    ensures |Digits(n)| >= 1
  {
    if n >= 10 { NoLeadingZero(n / 10); }
  }

  /** Numbers are printed canonically. */
  lemma PrintedIsCanonical(v: int, p: bytes)
    requires Itoa(v) == p && 1 <= |p| <= 5 && forall c :: c in p ==> IsDigit(c)
    ensures CanonicalPort(p)
  {
    assert p[0] in p;
    NoLeadingZero(if v < 0 then -v else v);
  }

  lemma SplitHostPort(host: bytes, port: bytes)
    requires COLON !in port
    ensures var parts := Split(host + [COLON] + port, COLON);
            |parts| >= 2 && (COLON !in host ==> parts == [host, port])
  {
    if COLON !in host {
      SplitField(host, port, COLON);
      SplitLast(port, COLON);
    } else {
      var parts := Split(host + [COLON] + port, COLON);
      JoinSplit(host + [COLON] + port, COLON);
      assert |parts| >= 2 by { assert COLON in host + [COLON] + port; }
    }
  }

  /** For a printed TCP address, the id derived from the source is the one the client is stored under
      exactly when the host has no colon (it is not an IPv6 address) and the port is canonical. */
  lemma IdOfSource(host: bytes, port: bytes, scheme: bytes)
    requires 1 <= |port| <= 5 && forall c :: c in port ==> IsDigit(c)
    ensures var remote := host + [COLON] + port;
            && SourceOf(remote, scheme).Source?
            && (RouteId(SourceOf(remote, scheme).src) == remote <==> COLON !in host && CanonicalPort(port))
  {
    hide CanonicalPort, Split, Atoi, Itoa;
    var remote := host + [COLON] + port;
    SplitHostPort(host, port);
    var src := SourceOf(remote, scheme).src;
    if COLON !in host && CanonicalPort(port) {
      ItoaAtoi(port);
    } else if RouteId(src) == remote {
      ItoaBytes(src.port);
      SameLast(src.addr, Itoa(src.port), host, port, COLON);
      PrintedIsCanonical(src.port, port);
    }
  }

  predicate Fits(n: nat, id: Addr, tun: Addr) {
    Typed(n, id, tun) && Clean(id, tun) && |HeaderLine(n, id, tun)| <= 255
  }

  /** Two hops over the tunnel, out to the subscriber and back, change nothing that the id depends
      on; so a reply finds the client it belongs to exactly when the address is of that form. */
  lemma ReplyFindsClient(host: bytes, port: bytes, scheme: bytes, n1: nat, tun1: Addr, n2: nat, tun2: Addr)
    requires 1 <= |port| <= 5 && forall c :: c in port ==> IsDigit(c)
    requires var src := SourceOf(host + [COLON] + port, scheme);
             src.Source? && Fits(n1, src.src, tun1) && Fits(n2, WireSrc(src.src), tun2)
    ensures var remote := host + [COLON] + port;
            var out := ParseHeader(Announced(n1, SourceOf(remote, scheme).src, tun1));
            && out.Fields?
            && var back := ParseHeader(Announced(n2, out.src, tun2));
            && back.Fields?
            && (RouteId(back.src) == remote <==> COLON !in host && CanonicalPort(port))
  {
    hide ParseHeader, Announced, HeaderLine, CanonicalPort, Clean, SourceOf;
    var src := SourceOf(host + [COLON] + port, scheme).src;
    HeaderRoundTrip(n1, src, tun1);
    HeaderRoundTrip(n2, WireSrc(src), tun2);
    IdOfSource(host, port, scheme);
  }

  /** No reply to anybody, whatever the address, is looked up under the id of a client whose host has
      a colon in it. */
  lemma ColonHostIsLost(remote: bytes, scheme: bytes, host: bytes, port: bytes)
    requires COLON in host && COLON !in port
    ensures SourceOf(remote, scheme).Source? ==> RouteId(SourceOf(remote, scheme).src) != host + [COLON] + port
  {
    hide Split, Atoi, Itoa;
    var served := SourceOf(remote, scheme);
    if served.Source? && RouteId(served.src) == host + [COLON] + port { IdParts(served.src, host, port); }
  }

  /** A host as net.JoinHostPort prints it: in brackets exactly when it has a colon. */
  predicate Printed(host: bytes) {
    if COLON in host then host[0] == 91 else 91 !in host
  }

  /** For printed addresses of every kind: a reply to one client is looked up under the id of another
      exactly when both are the same and not IPv6. Replies to an IPv6 client reach nobody. */
  lemma ReplyFindsNoOther(host: bytes, port: bytes, host': bytes, port': bytes, scheme: bytes)
    requires CanonicalPort(port) && CanonicalPort(port') && Printed(host) && Printed(host')
    ensures var remote := host + [COLON] + port;
            && SourceOf(remote, scheme).Source?
            && (RouteId(SourceOf(remote, scheme).src) == host' + [COLON] + port'
                <==> COLON !in host && host == host' && port == port')
  {
    hide Split, Atoi, Itoa, SourceOf, RouteId;
    var remote := host + [COLON] + port;
    IdOfSource(host, port, scheme);
    if COLON in host' {
      ColonHostIsLost(remote, scheme, host', port');
    } else if COLON in host {
      StartsWithBracket(host, port, scheme);
      assert host' != [] ==> host'[0] in host';
      var src := SourceOf(remote, scheme).src;
      if RouteId(src) == host' + [COLON] + port' { IdParts(src, host', port'); }
    } else if remote == host' + [COLON] + port' {
      SameLast(host, port, host', port', COLON);
    }
  }

  lemma IdParts(src: Addr, host: bytes, port: bytes)
    requires RouteId(src) == host + [COLON] + port && COLON !in port
    ensures src.addr == host
  {
    hide Itoa;
    ItoaBytes(src.port);
    SameLast(src.addr, Itoa(src.port), host, port, COLON);
  }

  lemma StartsWithBracket(host: bytes, port: bytes, scheme: bytes)
    requires COLON in host && host[0] == 91 && COLON !in port
    ensures var remote := host + [COLON] + port;
            && SourceOf(remote, scheme).Source?
            && SourceOf(remote, scheme).src.addr != [] && SourceOf(remote, scheme).src.addr[0] == 91
  {
    hide Atoi;
    SplitHostPort(host, port);
    assert (host + [COLON] + port)[0] == 91;
  }

  /** An IPv6 address that starts with "::" is printed as "[::", something, and its port; every reply to
      every such client is looked up under "[:0", where none of them is filed. */
  lemma Ipv6IsLost(rest: bytes, scheme: bytes)
    ensures var remote := [91, COLON, COLON] + rest;
            && SourceOf(remote, scheme).Source?
            && RouteId(SourceOf(remote, scheme).src) == [91, COLON, 48]
            && remote != [91, COLON, 48]
  {
    var remote := [91, COLON, COLON] + rest;
    assert remote == [91] + [COLON] + ([] + [COLON] + rest);
    SplitField([91], [] + [COLON] + rest, COLON);
    SplitField([], rest, COLON);
  }
}
