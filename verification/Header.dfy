/** The MPLEXY v1 header: printed by internal/telebit/packer.go, read back by `unpackV1Header`
    in internal/telebit/v1.go. */
module Header {
  import opened Text
  import opened Addrs

  /** First byte of every v1 frame. */
  const V1: byte := 254

  // ---------- printing ----------

  /** Each part followed by a comma. */
  function Line(parts: seq<bytes>): bytes {
    if parts == [] then [] else parts[0] + [COMMA] + Line(parts[1..])
  }

  function HeaderParts(n: nat, id: Addr, tun: Addr): seq<bytes> {
    [id.family, id.addr, Itoa(id.port), Itoa(n), tun.scheme, Itoa(tun.port), tun.addr]
  }

  function HeaderLine(n: nat, id: Addr, tun: Addr): bytes {
    Line(HeaderParts(n, id, tun)) + [NEWLINE]
  }

  /** The header as written: version, one length byte, text. */
  function EncodeHeader(n: nat, id: Addr, tun: Addr): bytes {
    var line := HeaderLine(n, id, tun);
    [V1, |line| % 256] + line
  }

  function Frame(payload: bytes, id: Addr, tun: Addr): bytes {
    EncodeHeader(|payload|, id, tun) + payload
  }

  // ---------- reading ----------

  datatype Parsed =
    | Fields(src: Addr, dst: Addr, payloadLen: int)
    | TooFewParts
    | BadLength
    | ControlMessage(payloadLen: int)

  function ParseHeader(text: bytes): Parsed {
    var parts := Split(TrimSpace(text), COMMA);
    if |parts| < 5 then TooFewParts
    else if !Atoi(parts[3]).ok then BadLength
    else if parts[4] == CONTROL then ControlMessage(Atoi(parts[3]).value)
    else Fields(
      Addr(parts[0], [], [], parts[1], Atoi(parts[2]).value),
      Addr([], parts[4], [], if |parts| > 6 then parts[6] else [], if |parts| > 5 then Atoi(parts[5]).value else 0),
      Atoi(parts[3]).value)
  }

  // ---------- round trip ----------

  /** What survives of a source: its scheme does not. */
  function WireSrc(a: Addr): Addr { Addr(a.family, [], [], a.addr, a.port) }

  /** What survives of a destination: its family does not. */
  function WireDst(a: Addr): Addr { Addr([], a.scheme, [], a.addr, a.port) }

  predicate Clean(id: Addr, tun: Addr) {
    && COMMA !in id.family && COMMA !in id.addr && COMMA !in tun.scheme && COMMA !in tun.addr
    && LeadingSpace(id.family) == 0
    && tun.scheme != CONTROL
  }

  /** Go's field types. */
  predicate Typed(n: nat, id: Addr, tun: Addr) {
    IsInt64(n) && IsInt64(id.port) && IsInt64(tun.port)
  }

  lemma {:induction false} SplitLine(parts: seq<bytes>)
    requires forall k :: 0 <= k < |parts| ==> COMMA !in parts[k]
    ensures Split(Line(parts), COMMA) == parts + [[]]
  {
    if parts == [] {
      SplitLast([], COMMA);
    } else {
      SplitLine(parts[1..]);
      SplitField(parts[0], Line(parts[1..]), COMMA);
      assert [parts[0]] + (parts[1..] + [[]]) == parts + [[]];
    }
  }

  lemma {:induction false} LineEnds(parts: seq<bytes>)
    requires parts != []
    ensures Line(parts) != [] && Line(parts)[|Line(parts)| - 1] == COMMA
  {
    if |parts| > 1 { LineEnds(parts[1..]); } else { assert |parts[1..]| == 0; }
  }

  lemma LineParts(n: nat, id: Addr, tun: Addr)
    requires Clean(id, tun)
    ensures Split(TrimSpace(HeaderLine(n, id, tun)), COMMA) == HeaderParts(n, id, tun) + [[]]
  {
    hide LeadingSpace, Itoa, Line;
    var parts: seq<bytes> := HeaderParts(n, id, tun);
    ItoaBytes(id.port);
    ItoaBytes(n);
    ItoaBytes(tun.port);
    LineUnfold(parts);
    LeadingSpaceBeforeComma(id.family, Line(parts[1..]));
    LineEnds(parts);
    TrimLine(Line(parts));
    SplitLine(parts);
  }

  lemma LineUnfold(parts: seq<bytes>)
    requires parts != []
    ensures Line(parts) == parts[0] + [COMMA] + Line(parts[1..])
  {
  }

  /** Whatever text it comes from, a parsed header never carries a comma, a control message or a
      family that starts with white space. */
  lemma ParsedIsClean(text: bytes)
    requires ParseHeader(text).Fields?
    ensures Clean(ParseHeader(text).src, ParseHeader(text).dst)
  {
    var line := TrimSpace(text);
    var parts := Split(line, COMMA);
    TrimSpaceResult(text);
    JoinSplit(line, COMMA);
    assert parts[0] <= line;
    PrefixLeadingSpace(parts[0], line);
  }

  /** Reading the printed line recovers everything that travels exactly when the fields are clean. */
  lemma LineRoundTrip(n: nat, id: Addr, tun: Addr)
    requires Typed(n, id, tun)
    ensures ParseHeader(HeaderLine(n, id, tun)) == Fields(WireSrc(id), WireDst(tun), n) <==> Clean(id, tun)
  {
    hide Split, Itoa, Atoi, TrimSpace, LeadingSpace, HeaderLine;
    if Clean(id, tun) {
      LineParts(n, id, tun);
      AtoiItoa(id.port);
      AtoiItoa(n);
      AtoiItoa(tun.port);
    } else if ParseHeader(HeaderLine(n, id, tun)) == Fields(WireSrc(id), WireDst(tun), n) {
      ParsedIsClean(HeaderLine(n, id, tun));
    }
  }

  // ---------- the one-byte length ----------

  /** The bytes the parser will take for the header: as many as the length byte announces. */
  function Announced(n: nat, id: Addr, tun: Addr): bytes {
    var line := HeaderLine(n, id, tun);
    line[..|line| % 256]
  }

  function TotalLength(parts: seq<bytes>): nat {
    if parts == [] then 0 else |parts[0]| + TotalLength(parts[1..])
  }

  lemma {:induction false} JoinLength(parts: seq<bytes>, sep: byte)
    requires |parts| >= 1
    ensures TotalLength(parts) <= |Join(parts, sep)|
  {
    if |parts| == 1 {
      assert |parts[1..]| == 0;
    } else {
      JoinLength(parts[1..], sep);
    }
  }

  lemma {:induction false} TotalAtLeast(parts: seq<bytes>, k: nat)
    requires k <= |parts|
    ensures TotalLength(parts[k..]) <= TotalLength(parts)
  {
    if k > 0 {
      assert parts[k..] == parts[1..][k - 1..];
      TotalAtLeast(parts[1..], k - 1);
    }
  }

  lemma ParsedFieldsFit(text: bytes)
    requires ParseHeader(text).Fields?
    ensures var p := ParseHeader(text);
            |p.src.family| + |p.src.addr| + |p.dst.scheme| + |p.dst.addr| <= |text|
  {
    var parts := Split(TrimSpace(text), COMMA);
    TrimSpaceResult(text);
    JoinSplit(TrimSpace(text), COMMA);
    JoinLength(parts, COMMA);
    assert TotalLength(parts) == |parts[0]| + |parts[1]| + TotalLength(parts[2..]) by {
      assert parts[1..][1..] == parts[2..];
    }
    TotalAtLeast(parts[2..], 2);
    assert parts[2..][2..] == parts[4..];
    assert TotalLength(parts[4..]) == |parts[4]| + TotalLength(parts[5..]) by { assert parts[4..][1..] == parts[5..]; }
    if |parts| > 6 {
      TotalAtLeast(parts[5..], 1);
      assert parts[5..][1..] == parts[6..];
      assert TotalLength(parts[6..]) == |parts[6]| + TotalLength(parts[6..][1..]);
    }
  }

  lemma {:induction false} LengthOfLine(parts: seq<bytes>)
    ensures |Line(parts)| == TotalLength(parts) + |parts|
  {
    if parts != [] { LengthOfLine(parts[1..]); }
  }

  lemma LineLength(n: nat, id: Addr, tun: Addr)
    ensures |HeaderLine(n, id, tun)| == |id.family| + |id.addr| + |Itoa(id.port)| + |Itoa(n)|
                                        + |tun.scheme| + |Itoa(tun.port)| + |tun.addr| + 8
  {
    var p: seq<bytes> := HeaderParts(n, id, tun);
    LengthOfLine(p);
    assert TotalLength(p[6..]) == |p[6]| by { assert |p[6..][1..]| == 0; }
    assert TotalLength(p[4..]) == |p[4]| + |p[5]| + TotalLength(p[6..]) by {
      assert p[4..][1..] == p[5..] && p[5..][1..] == p[6..];
    }
    assert TotalLength(p[2..]) == |p[2]| + |p[3]| + TotalLength(p[4..]) by {
      assert p[2..][1..] == p[3..] && p[3..][1..] == p[4..];
    }
    assert TotalLength(p) == |p[0]| + |p[1]| + TotalLength(p[2..]) by { assert p[1..][1..] == p[2..]; }
  }

  /** The full header round trip. The parser recovers family, address and port of the source,
      scheme, port and address of the destination and the payload length exactly when the fields
      are clean and the line fits the one-byte length: once the length wraps, no header survives. */
  lemma HeaderRoundTrip(n: nat, id: Addr, tun: Addr)
    requires Typed(n, id, tun)
    ensures ParseHeader(Announced(n, id, tun)) == Fields(WireSrc(id), WireDst(tun), n)
       <==> Clean(id, tun) && |HeaderLine(n, id, tun)| <= 255
  {
    hide ParseHeader, HeaderLine, Clean;
    var line := HeaderLine(n, id, tun);
    LineRoundTrip(n, id, tun);
    if |line| <= 255 {
      assert Announced(n, id, tun) == line;
    } else if ParseHeader(Announced(n, id, tun)) == Fields(WireSrc(id), WireDst(tun), n) {
      LineLength(n, id, tun);
      ItoaLength(id.port);
      ItoaLength(n);
      ItoaLength(tun.port);
      ParsedFieldsFit(Announced(n, id, tun));
      assert false;
    }
  }

  /** A sufficient bound for the addresses the relay builds: family "tun", at most 8192 payload
      bytes, 16-bit ports, a scheme of at most seven letters. */
  lemma HeaderFits(n: nat, id: Addr, tun: Addr)
    requires id.family == TUN && n <= 8192
    requires 0 <= id.port <= 65535 && 0 <= tun.port <= 65535
    requires |tun.scheme| <= 7 && |id.addr| + |tun.addr| <= 223
    ensures |HeaderLine(n, id, tun)| <= 255
  {
    ItoaLength(id.port);
    ItoaLength(n);
    ItoaLength(tun.port);
    LineLength(n, id, tun);
  }

  /** ... and that bound is tight. */
  lemma HeaderFitsIsTight(id: Addr, tun: Addr)
    requires id.family == TUN && id.port == 65535 && tun.port == 65535
    requires |tun.scheme| == 7 && |id.addr| + |tun.addr| == 224
    ensures |HeaderLine(8192, id, tun)| == 256
    ensures EncodeHeader(8192, id, tun)[1] == 0
  {
    LineLength(8192, id, tun);
    assert |Digits(65535)| == 5 by {
      assert Digits(65535) == Digits(6553) + [53] && Digits(6553) == Digits(655) + [51];
      assert Digits(655) == Digits(65) + [53];
    }
    assert |Digits(8192)| == 4 by {
      assert Digits(8192) == Digits(819) + [50] && Digits(819) == Digits(81) + [57];
    }
  }
}
