/** internal/sni/sni.go: finding the host name in a TLS ClientHello. */
module Sni {
  import opened Text

  datatype Error = NotClientHello | Malformed | NoExtensions | NotAHostname | NoHostname

  datatype Result = Host(name: bytes) | Failed(error: Error)

  predicate Readable(b: bytes, i: int, n: int) { 0 <= i && 0 <= n && i + n <= |b| }

  function Be16(b: bytes, i: int): nat
    requires Readable(b, i, 2)
  { b[i] as int * 256 + b[i + 1] }

  // ---------- the walk, as a function ----------

  /** The extension loop from offset `current`. A read out of bounds is recovered as Malformed. */
  function WalkExtensions(rest: bytes, current: nat): Result
    decreases |rest| - current
  {
    if current >= |rest| then Failed(NoHostname)
    else if !Readable(rest, current, 4) then Failed(Malformed)
    else
      var kind, len, data := Be16(rest, current), Be16(rest, current + 2), current + 4;
      if kind != 0 then WalkExtensions(rest, data + len)
      else if !Readable(rest, data, 3) then Failed(Malformed)
      else if rest[data + 2] != 0 then Failed(NotAHostname)
      else if !Readable(rest, data, 5) then Failed(Malformed)
      else
        var nameLen := Be16(rest, data + 3);
        if !Readable(rest, data + 5, nameLen) then Failed(Malformed)
        else if nameLen > 0 then Host(rest[data + 5..data + 5 + nameLen])
        else WalkExtensions(rest, data + 5 + len)
  }

  /** The fixed part and the three variable-length vectors before the extensions. */
  function Walk(b: bytes): Result {
    if |b| < 6 then Failed(Malformed)
    else
      var rest := b[5..];
      if rest[0] != 1 then Failed(NotClientHello)
      else if !Readable(rest, 38, 1) then Failed(Malformed)
      else
        var ciphers := rest[38] as int + 39;
        if !Readable(rest, ciphers, 2) then Failed(Malformed)
        else
          var compression := ciphers + 2 + Be16(rest, ciphers);
          if !Readable(rest, compression, 1) then Failed(Malformed)
          else
            var end := rest[compression] as int + (compression + 1);
            if end > |rest| then Failed(NoExtensions) else WalkExtensions(rest, end + 2)
  }

  /** GetHostname, with its running offset. Every out-of-bounds read in the source panics and is
      turned into ErrMalformedHello; here each read is guarded and returns that error. */
  method GetHostname(b: bytes) returns (r: Result)
    ensures r == Walk(b)
  {
    hide WalkExtensions;
    if |b| < 6 { return Failed(Malformed); }
    var rest := b[5..];
    var n := |rest|;
    var current := 0;
    var handshakeType := rest[0];
    current := current + 1;
    if handshakeType != 1 { return Failed(NotClientHello); }
    current := current + 3;
    current := current + 2;
    current := current + 4 + 28;
    if !Readable(rest, current, 1) { return Failed(Malformed); }
    var sessionIDLength := rest[current];
    current := current + 1;
    current := current + sessionIDLength;
    if !Readable(rest, current, 2) { return Failed(Malformed); }
    var cipherSuiteLength := Be16(rest, current);
    current := current + 2;
    current := current + cipherSuiteLength;
    if !Readable(rest, current, 1) { return Failed(Malformed); }
    var compressionMethodLength := rest[current];
    current := current + 1;
    current := current + compressionMethodLength;
    if current > n { return Failed(NoExtensions); }
    current := current + 2;
    r := ScanExtensions(rest, current);
  }

  /** The loop of GetHostname. */
  method ScanExtensions(rest: bytes, start: nat) returns (r: Result)
    ensures r == WalkExtensions(rest, start)
  {
    var current, n := start, |rest|;
    while current < n
      invariant 0 <= current
      invariant WalkExtensions(rest, start) == WalkExtensions(rest, current)
      decreases n - current
    {
      if !Readable(rest, current, 2) { return Failed(Malformed); }
      var extensionType := Be16(rest, current);
      current := current + 2;
      if !Readable(rest, current, 2) { return Failed(Malformed); }
      var extensionDataLength := Be16(rest, current);
      current := current + 2;
      if extensionType == 0 {
        current := current + 2;
        if !Readable(rest, current, 1) { return Failed(Malformed); }
        var nameType := rest[current];
        current := current + 1;
        if nameType != 0 { return Failed(NotAHostname); }
        if !Readable(rest, current, 2) { return Failed(Malformed); }
        var nameLen := Be16(rest, current);
        current := current + 2;
        if !Readable(rest, current, nameLen) { return Failed(Malformed); }
        var hostname := rest[current..current + nameLen];
        if |hostname| > 0 { return Host(hostname); }
      }
      current := current + extensionDataLength;
    }
    return Failed(NoHostname);
  }

  // ---------- what a ClientHello looks like ----------

  /** Section 4.1.2 of RFC 8446. */
  datatype Extension = Extension(kind: nat, data: bytes)

  datatype ClientHello = ClientHello(
    recordVersion: bytes, version: bytes, random: bytes, sessionId: bytes,
    cipherSuites: bytes, compressionMethods: bytes, extensions: seq<Extension>)

  function U16(n: nat): bytes
    requires n < 65536
  { [n / 256, n % 256] }

  function U24(n: nat): bytes
    requires n < 16777216
  { [n / 65536, n / 256 % 256, n % 256] }

  predicate ExtensionOk(e: Extension) { e.kind < 65536 && |e.data| < 65536 }

  function EncodeExtension(e: Extension): bytes
    requires ExtensionOk(e)
  { U16(e.kind) + (U16(|e.data|) + e.data) }

  function EncodeExtensions(es: seq<Extension>): bytes
    requires forall e :: e in es ==> ExtensionOk(e)
  {
    if es == [] then [] else EncodeExtension(es[0]) + EncodeExtensions(es[1..])
  }

  predicate VectorsOk(h: ClientHello) {
    && |h.version| == 2 && |h.random| == 32
    && |h.sessionId| < 256 && |h.cipherSuites| < 65536 && |h.compressionMethods| < 256
    && (forall e :: e in h.extensions ==> ExtensionOk(e))
    && |EncodeExtensions(h.extensions)| < 65536
  }

  function ExtensionBlock(h: ClientHello): bytes
    requires VectorsOk(h)
  { U16(|EncodeExtensions(h.extensions)|) + EncodeExtensions(h.extensions) }

  function FromCompression(h: ClientHello): bytes
    requires VectorsOk(h)
  { [|h.compressionMethods|] + (h.compressionMethods + ExtensionBlock(h)) }

  function FromCiphers(h: ClientHello): bytes
    requires VectorsOk(h)
  { U16(|h.cipherSuites|) + (h.cipherSuites + FromCompression(h)) }

  function FromSession(h: ClientHello): bytes
    requires VectorsOk(h)
  { [|h.sessionId|] + (h.sessionId + FromCiphers(h)) }

  /** The handshake body. */
  function Body(h: ClientHello): bytes
    requires VectorsOk(h)
  { h.version + h.random + FromSession(h) }

  predicate HelloOk(h: ClientHello) {
    VectorsOk(h) && |h.recordVersion| == 2 && |Body(h)| + 4 < 65536
  }

  /** One handshake record. */
  function Encode(h: ClientHello): bytes
    requires HelloOk(h)
  {
    [22] + h.recordVersion + U16(|Body(h)| + 4) + ([1] + U24(|Body(h)|) + Body(h))
  }

  /** Section 3 of RFC 6066: what the first entry of a server_name list is. */
  datatype Entry = HostEntry(name: bytes) | EmptyEntry | OtherEntry | BadEntry

  function FirstEntry(data: bytes): Entry {
    if |data| < 3 then BadEntry
    else if data[2] != 0 then OtherEntry
    else if |data| < 5 || Be16(data, 3) > |data| - 5 then BadEntry
    else
      var n := Be16(data, 3);
      if n == 0 then EmptyEntry else HostEntry(data[5..5 + n])
  }

  /** The first server_name extension, or the length. */
  function FirstServerName(es: seq<Extension>): (k: nat)
    ensures k <= |es|
    ensures forall j :: 0 <= j < k ==> es[j].kind != 0
    ensures k < |es| ==> es[k].kind == 0
  {
    if es == [] || es[0].kind == 0 then 0 else 1 + FirstServerName(es[1..])
  }

  // ---------- the round trip ----------

  lemma ReadsU16(pre: bytes, n: nat, post: bytes)
    requires n < 65536
    ensures Readable(pre + (U16(n) + post), |pre|, 2) && Be16(pre + (U16(n) + post), |pre|) == n
  {
    var b := pre + (U16(n) + post);
    assert b[|pre|] == n / 256 && b[|pre| + 1] == n % 256;
  }

  /** What the extension loop answers for a list of extensions. It reads the entry of the first
      server_name extension from that extension and everything after it, and an empty name makes it
      resume five bytes late. */
  predicate Answers(es: seq<Extension>, r: Result)
    requires forall e :: e in es ==> ExtensionOk(e)
  {
    if es == [] then r == Failed(NoHostname)
    else if es[0].kind != 0 then Answers(es[1..], r)
    else
      var tail := EncodeExtensions(es[1..]);
      match FirstEntry(es[0].data + tail)
      case HostEntry(name) => r == Host(name)
      case EmptyEntry => r == WalkExtensions(tail, 5)
      case OtherEntry => r == Failed(NotAHostname)
      case BadEntry => r == Failed(Malformed)
  }

  /** A well-formed first server_name extension gives the host name it lists first; without one there
      is none. */
  lemma {:induction false} FirstDecides(es: seq<Extension>, r: Result)
    requires (forall e :: e in es ==> ExtensionOk(e)) && Answers(es, r)
    ensures var k := FirstServerName(es);
            if k == |es| then r == Failed(NoHostname)
            else FirstEntry(es[k].data).HostEntry? ==> r == Host(FirstEntry(es[k].data).name)
    decreases |es|
  {
    hide FirstEntry, EncodeExtensions, WalkExtensions;
    if es != [] {
      if es[0].kind != 0 {
        FirstDecides(es[1..], r);
      } else {
        EntryAcrossEnd(es[0].data, EncodeExtensions(es[1..]));
      }
    }
  }

  /** How many bytes the first entry of a list takes up, as far as that can be told. */
  function Wants(data: bytes): nat {
    if |data| < 3 || data[2] != 0 then 3 else if |data| < 5 then 5 else 5 + Be16(data, 3)
  }

  /** The bytes after the extension matter exactly when the entry is cut off by the extension's own
      end and they complete it; the name is then read across that end, or beyond it. */
  lemma EntryAcrossEnd(data: bytes, tail: bytes)
    ensures FirstEntry(data) == BadEntry <==> Wants(data) > |data|
    ensures FirstEntry(data + tail) != FirstEntry(data)
       <==> Wants(data) > |data| && Wants(data + tail) <= |data + tail|
    ensures |data| >= 5 && Wants(data) > |data| ==>
              FirstEntry(data + tail) == if Wants(data) > |data| + |tail| then BadEntry
                                         else HostEntry(data[5..] + tail[..Wants(data) - |data|])
    ensures |data| < 5 && FirstEntry(data + tail).HostEntry? ==>
              FirstEntry(data + tail).name == tail[5 - |data|..Wants(data + tail) - |data|]
  {
    var w := data + tail;
    if |w| >= 5 && 5 + Be16(w, 3) <= |w| { SliceOfConcat(data, tail, 5, 5 + Be16(w, 3)); }
  }

  lemma SliceOfConcat(a: bytes, b: bytes, i: nat, j: nat)
    requires i <= j <= |a + b|
    ensures (a + b)[i..j] == if |a| <= i then b[i - |a|..j - |a|]
                             else if j <= |a| then a[i..j]
                             else a[i..] + b[..j - |a|]
  {
  }

  lemma {:induction false} WalkList(pre: bytes, es: seq<Extension>)
    requires forall e :: e in es ==> ExtensionOk(e)
    ensures Answers(es, WalkExtensions(pre + EncodeExtensions(es), |pre|))
    decreases |es|
  {
    hide WalkExtensions, Be16, FirstEntry, EncodeExtension;
    var rest := pre + EncodeExtensions(es);
    OneExtension(rest, |pre|);
    if es != [] {
      var e, tail := es[0], EncodeExtensions(es[1..]);
      assert e in es;
      HeadOfList(pre, e, tail);
      assert rest == pre + (EncodeExtension(e) + tail);
      if e.kind == 0 {
        EntryDecides(pre, e, tail);
      } else {
        assert rest == (pre + EncodeExtension(e)) + tail;
        WalkList(pre + EncodeExtension(e), es[1..]);
      }
    }
  }

  lemma HeadOfList(pre: bytes, e: Extension, tail: bytes)
    requires ExtensionOk(e)
    ensures var rest := pre + (EncodeExtension(e) + tail);
            && Readable(rest, |pre|, 4)
            && Be16(rest, |pre|) == e.kind && Be16(rest, |pre| + 2) == |e.data|
            && |pre| + 4 + |e.data| == |pre + EncodeExtension(e)| <= |rest|
            && rest[|pre| + 4..] == e.data + tail
  {
    var rest := pre + (EncodeExtension(e) + tail);
    assert rest == pre + (U16(e.kind) + (U16(|e.data|) + e.data + tail));
    ReadsU16(pre, e.kind, U16(|e.data|) + e.data + tail);
    assert rest == (pre + U16(e.kind)) + (U16(|e.data|) + (e.data + tail));
    ReadsU16(pre + U16(e.kind), |e.data|, e.data + tail);
    assert rest == (pre + U16(e.kind) + U16(|e.data|)) + (e.data + tail);
  }

  /** One server_name extension, malformed or not, at the loop's offset. */
  lemma EntryDecides(pre: bytes, e: Extension, tail: bytes)
    requires ExtensionOk(e) && e.kind == 0
    ensures var r := WalkExtensions(pre + (EncodeExtension(e) + tail), |pre|);
            match FirstEntry(e.data + tail)
            case HostEntry(name) => r == Host(name)
            case EmptyEntry => r == WalkExtensions(tail, 5)
            case OtherEntry => r == Failed(NotAHostname)
            case BadEntry => r == Failed(Malformed)
  {
    hide WalkExtensions, EncodeExtension, FirstEntry, Be16;
    HeadOfList(pre, e, tail);
    EntryAt(pre + (EncodeExtension(e) + tail), |pre|);
    assert pre + (EncodeExtension(e) + tail) == pre + EncodeExtension(e) + tail;
    WalkShift(pre + EncodeExtension(e), tail, 5);
  }

  lemma EntryAt(rest: bytes, current: nat)
    requires Readable(rest, current, 4) && Be16(rest, current) == 0
    ensures var r := WalkExtensions(rest, current);
            match FirstEntry(rest[current + 4..])
            case HostEntry(name) => r == Host(name)
            case EmptyEntry => r == WalkExtensions(rest, current + 9 + Be16(rest, current + 2))
            case OtherEntry => r == Failed(NotAHostname)
            case BadEntry => r == Failed(Malformed)
  {
    var d, w := current + 4, rest[current + 4..];
    if |w| >= 5 {
      assert Be16(w, 3) == Be16(rest, d + 3);
      if 5 + Be16(w, 3) <= |w| {
        assert rest[d + 5..d + 5 + Be16(w, 3)] == w[5..5 + Be16(w, 3)];
      }
    }
  }

  lemma {:induction false} WalkShift(pre: bytes, rest: bytes, i: nat)
    ensures WalkExtensions(pre + rest, |pre| + i) == WalkExtensions(rest, i)
    decreases |rest| - i
  {
    hide WalkExtensions, FirstEntry, Be16;
    var all, c := pre + rest, |pre| + i;
    OneExtension(all, c);
    OneExtension(rest, i);
    if Readable(rest, i, 4) {
      SameBytes(pre, rest, i);
      var kind, len := Be16(rest, i), Be16(rest, i + 2);
      if kind != 0 {
        WalkShift(pre, rest, i + 4 + len);
      } else {
        EntryAt(all, c);
        EntryAt(rest, i);
        WalkShift(pre, rest, i + 9 + len);
      }
    }
  }

  lemma SameBytes(pre: bytes, rest: bytes, i: nat)
    requires Readable(rest, i, 4)
    ensures var all, c := pre + rest, |pre| + i;
            && Be16(all, c) == Be16(rest, i) && Be16(all, c + 2) == Be16(rest, i + 2)
            && all[c + 4..] == rest[i + 4..]
  {
  }

  lemma OneExtension(rest: bytes, i: nat)
    ensures var r := WalkExtensions(rest, i);
            if i >= |rest| then r == Failed(NoHostname)
            else if !Readable(rest, i, 4) then r == Failed(Malformed)
            else Be16(rest, i) != 0 ==> r == WalkExtensions(rest, i + 4 + Be16(rest, i + 2))
  {
  }

  /** The offset at which the scanner starts on the extensions. */
  lemma FindsExtensions(h: ClientHello) returns (pre: bytes)
    requires HelloOk(h)
    ensures var es := EncodeExtensions(h.extensions);
            Walk(Encode(h)) == WalkExtensions(pre + es, |pre|)
  {
    hide WalkExtensions, U16, EncodeExtensions, FromCiphers, FromCompression, ExtensionBlock, Be16, Encode, Body;
    var p0 := ToSession(h);
    var rest := Encode(h)[5..];
    var p1 := p0 + [|h.sessionId|] + h.sessionId;
    assert rest == p1 + FromCiphers(h) && rest[38] == |h.sessionId|;
    var p2 := SkipCiphers(h, p1);
    var p3 := SkipCompression(h, p2);
    pre := SkipLength(h, p3);
  }

  lemma ToSession(h: ClientHello) returns (p: bytes)
    requires HelloOk(h)
    ensures |Encode(h)| >= 6 && Encode(h)[5..] == p + FromSession(h) && |p| == 38 && p[0] == 1
  {
    hide U16, EncodeExtensions, FromSession;
    LengthOfU16(|Body(h)| + 4);
    p := [1] + U24(|Body(h)|) + h.version + h.random;
    assert Encode(h)[5..] == [1] + U24(|Body(h)|) + Body(h);
  }

  lemma LengthOfU16(n: nat)
    requires n < 65536
    ensures |U16(n)| == 2
  {
  }

  lemma SkipCiphers(h: ClientHello, p: bytes) returns (q: bytes)
    requires VectorsOk(h)
    ensures p + FromCiphers(h) == q + FromCompression(h) && |q| == |p| + 2 + |h.cipherSuites|
    ensures Readable(p + FromCiphers(h), |p|, 2) && Be16(p + FromCiphers(h), |p|) == |h.cipherSuites|
  {
    hide FromCompression;
    ReadsU16(p, |h.cipherSuites|, h.cipherSuites + FromCompression(h));
    q := p + U16(|h.cipherSuites|) + h.cipherSuites;
  }

  lemma SkipCompression(h: ClientHello, p: bytes) returns (q: bytes)
    requires VectorsOk(h)
    ensures p + FromCompression(h) == q + ExtensionBlock(h) && |q| == |p| + 1 + |h.compressionMethods|
    ensures Readable(p + FromCompression(h), |p|, 1) && (p + FromCompression(h))[|p|] == |h.compressionMethods|
  {
    hide ExtensionBlock;
    q := p + [|h.compressionMethods|] + h.compressionMethods;
  }

  lemma SkipLength(h: ClientHello, p: bytes) returns (q: bytes)
    requires VectorsOk(h)
    ensures p + ExtensionBlock(h) == q + EncodeExtensions(h.extensions) && |q| == |p| + 2
  {
    hide EncodeExtensions;
    q := p + U16(|EncodeExtensions(h.extensions)|);
  }

  /** For every well-formed single-record ClientHello, whatever its session id, cipher suites,
      compression methods and other extensions: the first server_name extension decides, and gives
      the host name it lists first; without one the answer is "No hostname". `Answers` also says what
      is read when that extension's own data is malformed. */
  lemma SniRoundTrip(h: ClientHello)
    requires HelloOk(h)
    ensures Answers(h.extensions, Walk(Encode(h)))
    ensures var k := FirstServerName(h.extensions);
            if k == |h.extensions| then Walk(Encode(h)) == Failed(NoHostname)
            else FirstEntry(h.extensions[k].data).HostEntry? ==>
              Walk(Encode(h)) == Host(FirstEntry(h.extensions[k].data).name)
  {
    hide Walk, WalkExtensions, FirstEntry, Encode, Answers;
    var pre := FindsExtensions(h);
    WalkList(pre, h.extensions);
    FirstDecides(h.extensions, Walk(Encode(h)));
  }

  lemma ExtensionLength(e: Extension)
    requires ExtensionOk(e)
    ensures |EncodeExtension(e)| == 4 + |e.data|
  {
  }

  /** A ClientHello whose answer is read across the end of its server_name extension: that extension
      announces a name of two bytes and ends, and the two bytes taken for it are the type of the
      extension after it. */
  lemma NameAcrossEnd(a: byte, b: byte) returns (h: ClientHello)
    ensures HelloOk(h) && Walk(Encode(h)) == Host([a, b])
    ensures h.extensions == [Extension(0, [0, 5, 0, 0, 2]), Extension(a as int * 256 + b, [])]
    ensures FirstEntry(h.extensions[0].data) == BadEntry
  {
    hide Walk, WalkExtensions, Encode, EncodeExtension, FirstEntry;
    var e, f := Extension(0, [0, 5, 0, 0, 2]), Extension(a as int * 256 + b, []);
    ExtensionLength(e);
    ExtensionLength(f);
    assert [e, f][1..] == [f] && [f][1..] == [];
    assert EncodeExtensions([f]) == EncodeExtension(f);
    assert EncodeExtensions([e, f]) == EncodeExtension(e) + EncodeExtension(f);
    h := ClientHello([3, 1], [3, 3], seq(32, _ => 0), [], [], [], [e, f]);
    SniRoundTrip(h);
    NameInType(a, b);
  }

  lemma NameInType(a: byte, b: byte)
    ensures FirstEntry([0, 5, 0, 0, 2]) == BadEntry
    ensures FirstEntry([0, 5, 0, 0, 2] + EncodeExtension(Extension(a as int * 256 + b, []))) == HostEntry([a, b])
  {
    var w := [0, 5, 0, 0, 2] + EncodeExtension(Extension(a as int * 256 + b, []));
    assert w[5] == a && w[6] == b && w[5..7] == [a, b];
  }

  // ---------- any input, by its vectors ----------

  /** The record and handshake headers, version and random of a ClientHello. */
  predicate IsHead(head: bytes) { |head| == 43 && head[5] == 1 }

  function Vector8(v: bytes): bytes
    requires |v| < 256
  { [|v|] + v }

  function Vector16(v: bytes): bytes
    requires |v| < 65536
  { U16(|v|) + v }

  /** What is too short for a head, or is none. */
  lemma HeadDecides(b: bytes)
    ensures |b| < 6 ==> Walk(b) == Failed(Malformed)
    ensures |b| >= 6 && b[5] != 1 ==> Walk(b) == Failed(NotClientHello)
    ensures 6 <= |b| < 44 && b[5] == 1 ==> Walk(b) == Failed(Malformed)
  {
  }

  lemma AfterHead(head: bytes, t: bytes)
    requires IsHead(head) && t != []
    ensures var rest := (head + t)[5..];
            && |rest| == 38 + |t| && rest[0] == 1 && rest[38..] == t
            && forall i :: 0 <= i < |t| ==> rest[38 + i] == t[i]
  {
    assert (head + t)[5..] == head[5..] + t;
  }

  /** The session id is cut off. */
  lemma SessionCutOff(head: bytes, n: byte, t: bytes)
    requires IsHead(head) && |t| < n as int + 2
    ensures Walk(head + ([n] + t)) == Failed(Malformed)
  {
    AfterHead(head, [n] + t);
    assert ([n] + t)[0] == n;
  }

  /** The cipher suites are cut off. */
  lemma CiphersCutOff(head: bytes, sid: bytes, n: nat, t: bytes)
    requires IsHead(head) && |sid| < 256 && n < 65536 && |t| < n + 1
    ensures Walk(head + (Vector8(sid) + (U16(n) + t))) == Failed(Malformed)
  {
    hide U16;
    var all := Vector8(sid) + (U16(n) + t);
    LengthOfU16(n);
    AfterHead(head, all);
    var rest := (head + all)[5..];
    assert rest == (rest[..38] + Vector8(sid)) + (U16(n) + t);
    ReadsU16(rest[..38] + Vector8(sid), n, t);
    assert all[0] == |sid|;
  }

  lemma WalkOf(b: bytes, s: byte, c: nat, n: byte)
    requires |b| >= 6
    requires var rest := b[5..];
             var p := 39 + s as int + 2 + c;
             && |rest| > 38 && rest[0] == 1 && rest[38] == s
             && Readable(rest, 39 + s as int, 2) && Be16(rest, 39 + s as int) == c && p < |rest| && rest[p] == n
    ensures var rest := b[5..];
            var end := 39 + s as int + 2 + c + 1 + n as int;
            Walk(b) == if end > |rest| then Failed(NoExtensions) else WalkExtensions(rest, end + 2)
  {
    hide WalkExtensions, Be16;
  }

  /** Where the two first vectors lie. */
  lemma TwoVectors(head: bytes, sid: bytes, ciphers: bytes, u: bytes)
    requires IsHead(head) && |sid| < 256 && |ciphers| < 65536
    ensures var b := head + (Vector8(sid) + (Vector16(ciphers) + u));
            var rest := b[5..];
            && |b| >= 44 && |rest| == 38 + 1 + |sid| + 2 + |ciphers| + |u|
            && rest[0] == 1 && rest[38] == |sid|
            && Readable(rest, 39 + |sid|, 2) && Be16(rest, 39 + |sid|) == |ciphers|
            && rest[41 + |sid| + |ciphers|..] == u
  {
    hide U16, Be16;
    LengthOfU16(|ciphers|);
    var all := Vector8(sid) + (Vector16(ciphers) + u);
    AfterHead(head, all);
    var rest := (head + all)[5..];
    assert all[0] == |sid|;
    var pre := rest[..38] + Vector8(sid);
    assert Vector16(ciphers) + u == U16(|ciphers|) + (ciphers + u);
    assert rest == pre + (U16(|ciphers|) + (ciphers + u));
    ReadsU16(pre, |ciphers|, ciphers + u);
    assert rest == pre + U16(|ciphers|) + ciphers + u;
  }

  /** The walk up to the compression methods. */
  lemma ToCompression(head: bytes, sid: bytes, ciphers: bytes, n: byte, t: bytes)
    requires IsHead(head) && |sid| < 256 && |ciphers| < 65536
    ensures var p := 41 + |sid| + |ciphers|;
            var b := head + (Vector8(sid) + (Vector16(ciphers) + ([n] + t)));
            && |b| >= 5 && |b[5..]| == p + 1 + |t| && b[5..][p + 1..] == t
            && Walk(b) == if |t| < n as int then Failed(NoExtensions) else WalkExtensions(b[5..], p + 1 + n as int + 2)
  {
    hide U16, WalkExtensions, Walk, Be16, Vector8, Vector16;
    TwoVectors(head, sid, ciphers, [n] + t);
    var b := head + (Vector8(sid) + (Vector16(ciphers) + ([n] + t)));
    var rest, p := b[5..], 41 + |sid| + |ciphers|;
    assert rest[p] == rest[p..][0] && rest[p + 1..] == rest[p..][1..];
    WalkOf(b, |sid|, |ciphers|, n);
  }

  /** The compression methods are cut off. */
  lemma CompressionCutOff(head: bytes, sid: bytes, ciphers: bytes, n: byte, t: bytes)
    requires IsHead(head) && |sid| < 256 && |ciphers| < 65536 && |t| < n as int
    ensures Walk(head + (Vector8(sid) + (Vector16(ciphers) + ([n] + t)))) == Failed(NoExtensions)
  {
    ToCompression(head, sid, ciphers, n, t);
  }

  /** All three vectors are there: the extension loop decides, on what follows, past the two bytes of
      its length, which are not looked at. */
  lemma VectorsSkipped(head: bytes, sid: bytes, ciphers: bytes, compression: bytes, tail: bytes)
    requires IsHead(head) && |sid| < 256 && |ciphers| < 65536 && |compression| < 256
    ensures Walk(head + (Vector8(sid) + (Vector16(ciphers) + (Vector8(compression) + tail))))
         == WalkExtensions(tail, 2)
  {
    hide U16, WalkExtensions, Walk;
    var n: byte, t := |compression|, compression + tail;
    assert Vector8(compression) + tail == [n] + t;
    ToCompression(head, sid, ciphers, n, t);
    var p := 41 + |sid| + |ciphers|;
    var rest := (head + (Vector8(sid) + (Vector16(ciphers) + ([n] + t))))[5..];
    assert rest == (rest[..p + 1] + compression) + tail;
    WalkShift(rest[..p + 1] + compression, tail, 2);
  }

  // ---------- truncated input ----------

  lemma {:induction false} WalkExtensionsLonger(rest: bytes, more: bytes, current: nat)
    requires WalkExtensions(rest, current).Host?
    ensures WalkExtensions(rest + more, current) == WalkExtensions(rest, current)
    decreases |rest| - current
  {
    var all := rest + more;
    var kind, len, data := Be16(rest, current), Be16(rest, current + 2), current + 4;
    assert Be16(all, current) == kind && Be16(all, current + 2) == len;
    if kind != 0 {
      WalkExtensionsLonger(rest, more, data + len);
    } else {
      var nameLen := Be16(rest, data + 3);
      assert Be16(all, data + 3) == nameLen;
      if nameLen > 0 {
        assert all[data + 5..data + 5 + nameLen] == rest[data + 5..data + 5 + nameLen];
      } else {
        WalkExtensionsLonger(rest, more, data + 5 + len);
      }
    }
  }

  /** A peek that came back short, of any bytes whatever, never yields a name that the full bytes
      would not: either the whole input gives the same name, or the part gave an error. */
  lemma TruncationIsSafe(b: bytes, more: bytes)
    requires Walk(b).Host?
    ensures Walk(b + more) == Walk(b)
  {
    var rest, all := b[5..], (b + more)[5..];
    assert all == rest + more;
    var ciphers := rest[38] as int + 39;
    assert Be16(all, ciphers) == Be16(rest, ciphers);
    var compression := ciphers + 2 + Be16(rest, ciphers);
    var end := rest[compression] as int + (compression + 1);
    WalkExtensionsLonger(rest, more, end + 2);
  }
}
