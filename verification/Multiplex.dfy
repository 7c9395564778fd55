/** Many clients, one tunnel: the reader and select loops of internal/telebit/encoder.go, the
    message-per-write tunnel, and the decoder's parser at the far end, as one state machine whose
    steps may be scheduled in any order. */
module Multiplex {
  import opened Text
  import opened Addrs
  import opened Header
  import opened ParserModel
  import opened Chunking
  import opened Frames
  import opened Readers

  /** A client connection as `Encode` is given it. */
  datatype Peer = Peer(src: Addr, dst: Addr)

  function DataDst(p: Peer): Addr { Addr([], p.src.scheme, [], p.dst.addr, p.dst.port) }

  function CloseDst(eof: bool): Addr { Addr([], if eof then END else ERROR, [], [], 0) }

  /** The frames `Encode` writes: one per chunk, and a last one when reading fails. */
  datatype Body = Data(chunk: bytes) | Close(eof: bool)

  function PacketOf(p: Peer, body: Body): Packet {
    match body
    case Data(chunk) => Packet(p.src, DataDst(p), chunk)
    case Close(eof) => Packet(p.src, CloseDst(eof), [])
  }

  // ---------- which clients can be carried at all ----------

  predicate PeerOk(p: Peer) {
    && IsInt64(p.src.port) && IsInt64(p.dst.port)
    && COMMA !in p.src.family && COMMA !in p.src.addr && COMMA !in p.src.scheme && COMMA !in p.dst.addr
    && LeadingSpace(p.src.family) == 0
    && p.src.scheme != CONTROL && p.src.scheme != END
    && |p.src.family| + |p.src.addr| + |Itoa(p.src.port)| <= 240
    && |p.src.family| + |p.src.addr| + |Itoa(p.src.port)| + |p.src.scheme| + |p.dst.addr| + |Itoa(p.dst.port)| <= 243
  }

  predicate BodyOk(body: Body) {
    body.Data? ==> 0 < |body.chunk| <= BUFFER_SIZE
  }

  lemma PeerSendable(p: Peer, body: Body)
    requires PeerOk(p) && BodyOk(body)
    ensures Sendable(PacketOf(p, body))
  {
    hide HeaderLine, LeadingSpace, Itoa;
    var q := PacketOf(p, body);
    LineLength(|q.payload|, q.src, q.dst);
    ItoaLength(|q.payload|);
    ZeroIsOneDigit();
  }

  /** The clients the relay builds are of this kind when their names are not too long. */
  lemma RelayPeersFit(p: Peer)
    requires p.src.family == TUN && |p.src.scheme| <= 7 && |p.src.addr| + |p.dst.addr| <= 223
    requires 0 <= p.src.port <= 65535 && 0 <= p.dst.port <= 65535
    requires COMMA !in p.src.addr && COMMA !in p.src.scheme && COMMA !in p.dst.addr
    requires p.src.scheme != CONTROL && p.src.scheme != END
    ensures PeerOk(p)
  {
    ItoaLength(p.src.port);
    ItoaLength(p.dst.port);
  }

  lemma ZeroIsOneDigit()
    ensures |Itoa(0)| == 1
  {
  }

  /** Nothing is asked of how the clients' addresses relate: they may be alike, or the zero address. */
  predicate CfgOk(cfg: seq<Peer>) { forall i :: 0 <= i < |cfg| ==> PeerOk(cfg[i]) }

  // ---------- the machine ----------

  /** The select loop: waiting, about to write a frame, gone, or gone because that write failed. */
  datatype Sender = Selecting | Writing(body: Body) | Returned | Failed(body: Body)

  datatype Client = Client(read: bytes, reader: Reader, sender: Sender)

  /** A frame on the tunnel, with the client that wrote it. */
  datatype Sent = Sent(who: nat, body: Body)

  datatype State = State(
    clients: seq<Client>,
    wire: seq<Sent>,        // every frame written so far, one message each
    taken: nat,             // bytes the decoder's reader goroutine has taken off the tunnel
    pos: nat,               // bytes of them given to the parser; the rest is the chunk on offer
    m: Machine,             // the parser
    routed: seq<Route>,     // what the parser has handed on
    error: Error)           // how the parser's last write ended

  datatype Step =
    | ReadSome(i: nat, chunk: bytes, next: Next)
    | ReadFails(i: nat, eof: bool)
    | TakeChunk(i: nat)
    | TakeError(i: nat)
    | Cancel(i: nat)
    | WriteFrame(i: nat)
    | WriteFails(i: nat)
    | TunnelRead(n: nat)
    | ParseChunk

  function Init(cfg: seq<Peer>): State {
    State(seq(|cfg|, _ => Client([], Reading, Selecting)), [], 0, 0, START, [], NoError)
  }

  function Packets(cfg: seq<Peer>, wire: seq<Sent>): (ps: seq<Packet>)
    requires WireOk(cfg, wire)
    ensures |ps| == |wire|
    ensures forall k :: 0 <= k < |wire| ==> ps[k] == PacketOf(cfg[wire[k].who], wire[k].body)
  {
    if wire == [] then []
    else
      var n := |wire| - 1;
      assert wire[n] in wire;
      Packets(cfg, wire[..n]) + [PacketOf(cfg[wire[n].who], wire[n].body)]
  }

  predicate WireOk(cfg: seq<Peer>, wire: seq<Sent>) {
    forall e :: e in wire ==> e.who < |cfg| && BodyOk(e.body)
  }

  function WireBytes(cfg: seq<Peer>, wire: seq<Sent>): bytes
    requires WireOk(cfg, wire)
  {
    Bytes(Packets(cfg, wire))
  }

  predicate Enabled(cfg: seq<Peer>, s: State, step: Step) {
    && WireOk(cfg, s.wire)
    && match step
       case ReadSome(i, chunk, _) => i < |s.clients| && s.clients[i].reader == Reading && 0 < |chunk| <= BUFFER_SIZE
       case ReadFails(i, _) => i < |s.clients| && s.clients[i].reader == Reading
       case TakeChunk(i) => i < |s.clients| && s.clients[i].reader.Offering? && s.clients[i].sender == Selecting
       case TakeError(i) => i < |s.clients| && s.clients[i].reader.Failing? && s.clients[i].sender == Selecting
       case Cancel(i) => i < |s.clients| && s.clients[i].sender == Selecting
       case WriteFrame(i) => i < |s.clients| && s.clients[i].sender.Writing?
       case WriteFails(i) => i < |s.clients| && s.clients[i].sender.Writing?
       case TunnelRead(n) => s.pos == s.taken && 0 < n <= BUFFER_SIZE && s.taken + n <= |WireBytes(cfg, s.wire)|
       case ParseChunk => s.error == NoError && s.pos < s.taken <= |WireBytes(cfg, s.wire)|
  }

  function Apply(cfg: seq<Peer>, s: State, step: Step): State
    requires Enabled(cfg, s, step)
  {
    match step
    case ReadSome(i, chunk, next) =>
      s.(clients := s.clients[i := s.clients[i].(read := s.clients[i].read + chunk, reader := Offering(chunk, next))])
    case ReadFails(i, eof) =>
      s.(clients := s.clients[i := s.clients[i].(reader := Failing(eof))])
    case TakeChunk(i) =>
      var c := s.clients[i];
      s.(clients := s.clients[i := c.(reader := NextReader(c.reader.next), sender := Writing(Data(c.reader.chunk)))])
    case TakeError(i) =>
      var c := s.clients[i];
      s.(clients := s.clients[i := c.(reader := Stopped, sender := Writing(Close(c.reader.eof)))])
    case Cancel(i) =>
      s.(clients := s.clients[i := s.clients[i].(sender := Returned)])
    case WriteFrame(i) =>
      var c := s.clients[i];
      s.(clients := s.clients[i := c.(sender := if c.sender.body.Data? then Selecting else Returned)],
         wire := s.wire + [Sent(i, c.sender.body)])
    case WriteFails(i) =>
      s.(clients := s.clients[i := s.clients[i].(sender := Failed(s.clients[i].sender.body))])
    case TunnelRead(n) => s.(taken := s.taken + n)
    case ParseChunk =>
      var o := WriteOutcome(s.m, WireBytes(cfg, s.wire)[s.pos..s.taken]);
      s.(pos := s.taken, m := o.m, routed := s.routed + o.routed, error := o.error)
  }

  /** A stretch of the tunnel's bytes that lies within one message. */
  predicate InOneMessage(cfg: seq<Peer>, wire: seq<Sent>, start: nat, end: nat)
    requires WireOk(cfg, wire)
  {
    var ps := Packets(cfg, wire);
    exists k :: 0 <= k < |ps| && |Bytes(ps[..k])| <= start && end <= |Bytes(ps[..k + 1])|
  }

  ghost predicate IsRun(cfg: seq<Peer>, states: seq<State>, steps: seq<Step>) {
    && |states| == |steps| + 1
    && states[0] == Init(cfg)
    && forall k :: 0 <= k < |steps| ==>
         Enabled(cfg, states[k], steps[k]) && states[k + 1] == Apply(cfg, states[k], steps[k])
  }

  /** A run over a websocket tunnel: no read returns bytes of two messages. */
  ghost predicate IsWebsocketRun(cfg: seq<Peer>, states: seq<State>, steps: seq<Step>) {
    && IsRun(cfg, states, steps)
    && forall k :: 0 <= k < |steps| && steps[k].TunnelRead? ==>
         InOneMessage(cfg, states[k].wire, states[k].taken, states[k].taken + steps[k].n)
  }

  // ---------- invariant of the clients ----------

  function SentBytes(wire: seq<Sent>, i: nat): bytes {
    if wire == [] then []
    else
      var last := wire[|wire| - 1];
      SentBytes(wire[..|wire| - 1], i) + if last.who == i && last.body.Data? then last.body.chunk else []
  }

  /** Bytes read from the client and not on the tunnel: still to be written, or lost with it. */
  function Held(c: Client): bytes {
    (if (c.sender.Writing? || c.sender.Failed?) && c.sender.body.Data? then c.sender.body.chunk else [])
    + (if c.reader.Offering? then c.reader.chunk else [])
  }

  predicate ClientInv(c: Client, i: nat, wire: seq<Sent>) {
    && c.read == SentBytes(wire, i) + Held(c)
    && (c.reader.Offering? ==> 0 < |c.reader.chunk| <= BUFFER_SIZE)
    && (c.sender.Writing? ==> BodyOk(c.sender.body))
    && (c.sender.Writing? && c.sender.body.Close? ==> c.reader == Stopped)
    && (forall e :: e in wire && e.who == i && e.body.Close? ==> c.reader == Stopped && c.sender == Returned)
  }

  /** Nothing follows a closing frame of the same client. */
  predicate CloseIsLast(wire: seq<Sent>) {
    forall a, b :: 0 <= a < b < |wire| && wire[a].who == wire[b].who ==> wire[a].body.Data?
  }

  predicate ClientsInv(cfg: seq<Peer>, s: State) {
    && |s.clients| == |cfg|
    && WireOk(cfg, s.wire)
    && (forall i :: 0 <= i < |cfg| ==> ClientInv(s.clients[i], i, s.wire))
    && CloseIsLast(s.wire)
  }

  lemma SentBytesSnoc(wire: seq<Sent>, e: Sent, i: nat)
    ensures SentBytes(wire + [e], i) == SentBytes(wire, i) + if e.who == i && e.body.Data? then e.body.chunk else []
  {
    assert (wire + [e])[..|wire|] == wire;
  }

  lemma OthersKeep(s: State, i: nat, cs: seq<Client>)
    requires i < |s.clients| == |cs| && cs == s.clients[i := cs[i]]
    requires forall j :: 0 <= j < |s.clients| ==> ClientInv(s.clients[j], j, s.wire)
    requires ClientInv(cs[i], i, s.wire)
    ensures forall j :: 0 <= j < |cs| ==> ClientInv(cs[j], j, s.wire)
  {
    hide ClientInv;
  }

  lemma ClientStep(cfg: seq<Peer>, s: State, step: Step)
    requires ClientsInv(cfg, s) && Enabled(cfg, s, step)
    ensures ClientsInv(cfg, Apply(cfg, s, step))
  {
    hide SentBytes, WireOk, CloseIsLast, WireBytes, WriteOutcome, BodyOk, ClientInv;
    match step
    case ReadSome(i, chunk, next) => ReadSomeKeeps(s, i, chunk, next); OthersKeep(s, i, Apply(cfg, s, step).clients);
    case ReadFails(i, eof) => ReadFailsKeeps(s, i, eof); OthersKeep(s, i, Apply(cfg, s, step).clients);
    case TakeChunk(i) => TakeChunkKeeps(s, i); OthersKeep(s, i, Apply(cfg, s, step).clients);
    case TakeError(i) => TakeErrorKeeps(s, i); OthersKeep(s, i, Apply(cfg, s, step).clients);
    case Cancel(i) => CancelKeeps(s, i); OthersKeep(s, i, Apply(cfg, s, step).clients);
    case WriteFrame(i) => WriteKeeps(cfg, s, i);
    case WriteFails(i) => WriteFailsKeeps(s, i); OthersKeep(s, i, Apply(cfg, s, step).clients);
    case TunnelRead(n) =>
    case ParseChunk =>
  }

  lemma ReadSomeKeeps(s: State, i: nat, chunk: bytes, next: Next)
    requires i < |s.clients| && ClientInv(s.clients[i], i, s.wire)
    requires s.clients[i].reader == Reading && 0 < |chunk| <= BUFFER_SIZE
    ensures ClientInv(s.clients[i].(read := s.clients[i].read + chunk, reader := Offering(chunk, next)), i, s.wire)
  {
    var c := s.clients[i];
    assert SentBytes(s.wire, i) + Held(c) + chunk == SentBytes(s.wire, i) + (Held(c) + chunk);
    assert Held(c.(reader := Offering(chunk, next))) == Held(c) + chunk;
  }

  lemma ReadFailsKeeps(s: State, i: nat, eof: bool)
    requires i < |s.clients| && ClientInv(s.clients[i], i, s.wire) && s.clients[i].reader == Reading
    ensures ClientInv(s.clients[i].(reader := Failing(eof)), i, s.wire)
  {
  }

  lemma TakeChunkKeeps(s: State, i: nat)
    requires i < |s.clients| && ClientInv(s.clients[i], i, s.wire)
    requires s.clients[i].reader.Offering? && s.clients[i].sender == Selecting
    ensures var c := s.clients[i];
            ClientInv(c.(reader := NextReader(c.reader.next), sender := Writing(Data(c.reader.chunk))), i, s.wire)
  {
  }

  lemma TakeErrorKeeps(s: State, i: nat)
    requires i < |s.clients| && ClientInv(s.clients[i], i, s.wire)
    requires s.clients[i].reader.Failing? && s.clients[i].sender == Selecting
    ensures ClientInv(s.clients[i].(reader := Stopped, sender := Writing(Close(s.clients[i].reader.eof))), i, s.wire)
  {
  }

  lemma CancelKeeps(s: State, i: nat)
    requires i < |s.clients| && ClientInv(s.clients[i], i, s.wire) && s.clients[i].sender == Selecting
    ensures ClientInv(s.clients[i].(sender := Returned), i, s.wire)
  {
  }

  lemma WriteFailsKeeps(s: State, i: nat)
    requires i < |s.clients| && ClientInv(s.clients[i], i, s.wire) && s.clients[i].sender.Writing?
    ensures ClientInv(s.clients[i].(sender := Failed(s.clients[i].sender.body)), i, s.wire)
  {
  }

  lemma WriteKeeps(cfg: seq<Peer>, s: State, i: nat)
    requires ClientsInv(cfg, s) && Enabled(cfg, s, WriteFrame(i))
    ensures ClientsInv(cfg, Apply(cfg, s, WriteFrame(i)))
  {
    hide ClientInv, CloseIsLast, SentBytes, BodyOk;
    var t := Apply(cfg, s, WriteFrame(i));
    var e := Sent(i, s.clients[i].sender.body);
    SenderIsOpen(s.clients[i], i, s.wire);
    forall j | 0 <= j < |cfg|
      ensures ClientInv(t.clients[j], j, t.wire)
    {
      if j == i { WriterKeeps(s.clients[i], i, s.wire); } else { OthersIgnoreWrites(s.clients[j], j, s.wire, e); }
    }
    CloseStaysLast(s.wire, e);
  }

  lemma SenderIsOpen(c: Client, i: nat, wire: seq<Sent>)
    requires ClientInv(c, i, wire) && c.sender.Writing?
    ensures BodyOk(c.sender.body)
    ensures forall e :: e in wire && e.who == i ==> e.body.Data?
  {
  }

  lemma WriterKeeps(c: Client, i: nat, wire: seq<Sent>)
    requires ClientInv(c, i, wire) && c.sender.Writing?
    ensures ClientInv(c.(sender := if c.sender.body.Data? then Selecting else Returned), i,
                      wire + [Sent(i, c.sender.body)])
  {
    hide SentBytes;
    var e := Sent(i, c.sender.body);
    var c' := c.(sender := if c.sender.body.Data? then Selecting else Returned);
    SentBytesSnoc(wire, e, i);
    if e.body.Data? {
      assert Held(c) == e.body.chunk + Held(c');
      assert SentBytes(wire, i) + (e.body.chunk + Held(c')) == SentBytes(wire + [e], i) + Held(c');
    }
    assert forall x :: x in wire + [e] ==> x in wire || x == e;
  }

  lemma OthersIgnoreWrites(c: Client, j: nat, wire: seq<Sent>, e: Sent)
    requires ClientInv(c, j, wire) && e.who != j
    ensures ClientInv(c, j, wire + [e])
  {
    hide SentBytes;
    SentBytesSnoc(wire, e, j);
    assert forall x :: x in wire + [e] ==> x in wire || x == e;
  }

  lemma CloseStaysLast(wire: seq<Sent>, e: Sent)
    requires CloseIsLast(wire)
    requires forall x :: x in wire && x.who == e.who ==> x.body.Data?
    ensures CloseIsLast(wire + [e])
  {
    forall a, b | 0 <= a < b < |wire + [e]| && (wire + [e])[a].who == (wire + [e])[b].who
      ensures (wire + [e])[a].body.Data?
    {
      assert (wire + [e])[a] == wire[a] && wire[a] in wire;
    }
  }

  // ---------- invariant of the parser ----------

  ghost predicate ParserInv(cfg: seq<Peer>, s: State)
    requires WireOk(cfg, s.wire)
  {
    var ps := Packets(cfg, s.wire);
    && AllSendable(ps)
    && s.pos <= s.taken <= |Bytes(ps)|
    && s.error in {NoError, LoopPanic}
    && Atoms(s.routed) <= WireAtoms(ps)
    && (s.error == NoError ==> Fold(START, Bytes(ps)[..s.pos]) == Fed(s.m, Atoms(s.routed), NoError))
  }

  lemma PacketsSendable(cfg: seq<Peer>, wire: seq<Sent>)
    requires CfgOk(cfg) && WireOk(cfg, wire)
    ensures AllSendable(Packets(cfg, wire))
  {
    hide Sendable, PacketOf, PeerOk, BodyOk;
    var ps := Packets(cfg, wire);
    forall p | p in ps
      ensures Sendable(p)
    {
      var k :| 0 <= k < |ps| && ps[k] == p;
      assert wire[k] in wire;
      PeerSendable(cfg[wire[k].who], wire[k].body);
    }
  }

  lemma FoldPrefix(m: Machine, a: bytes, b: bytes)
    requires Fold(m, a + b).error == NoError
    ensures Fold(m, a).error == NoError && Fold(m, a).atoms <= Fold(m, a + b).atoms
    ensures Fold(Fold(m, a).m, b).error == NoError
  {
    hide Fold;
    FoldAppend(m, a, b);
  }

  lemma ParserReads(cfg: seq<Peer>, s: State, t: State)
    requires WireOk(cfg, s.wire) && ParserInv(cfg, s) && Enabled(cfg, s, ParseChunk)
    requires t.wire == s.wire && t == Apply(cfg, s, ParseChunk)
    ensures ParserInv(cfg, t)
  {
    hide Fold, WireAtoms, Bytes, Packets, AllSendable, WriteOutcome, Sound, Atoms, NeverRefused, Admits;
    var ps := Packets(cfg, s.wire);
    var b := Bytes(ps);
    var a, c, d := b[..s.pos], b[s.pos..s.taken], b[s.taken..];
    assert b == a + (c + d) && b == (a + c) + d && b[..s.taken] == a + c;
    FoldWire(ps);
    FoldPrefix(START, a, c + d);
    FoldPrefix(s.m, c, d);
    FoldPrefix(START, a + c, d);
    FoldAppend(START, a, c);
    StartIsSound();
    FoldKeepsSound(START, a);
    BytesNeverRefused(START, ps);
    NeverRefusedAppend(START, a, c + d);
    NeverRefusedAppend(s.m, c, d);
    FirstAdmitted(s.m, c);
    WriteIsFold(s.m, c);
    AtomsAppend(s.routed, WriteOutcome(s.m, c).routed);
  }

  lemma StartIsSound()
    ensures Sound(START)
  {
  }

  lemma PacketsSnoc(cfg: seq<Peer>, wire: seq<Sent>, e: Sent)
    requires WireOk(cfg, wire) && e.who < |cfg| && BodyOk(e.body)
    ensures WireOk(cfg, wire + [e])
    ensures Packets(cfg, wire + [e]) == Packets(cfg, wire) + [PacketOf(cfg[e.who], e.body)]
  {
    assert (wire + [e])[..|wire|] == wire;
  }

  lemma ParserIgnoresWrites(cfg: seq<Peer>, s: State, e: Sent)
    requires CfgOk(cfg) && WireOk(cfg, s.wire) && ParserInv(cfg, s)
    requires e.who < |cfg| && BodyOk(e.body)
    ensures WireOk(cfg, s.wire + [e]) && ParserInv(cfg, s.(wire := s.wire + [e]))
  {
    hide Fold, PacketOf, BodyOk, AllSendable, CfgOk, Packets, Atoms;
    var ps := Packets(cfg, s.wire);
    var p := PacketOf(cfg[e.who], e.body);
    PacketsSnoc(cfg, s.wire, e);
    PacketsSendable(cfg, s.wire + [e]);
    BytesSnoc(ps, p);
    assert Bytes(ps + [p])[..s.pos] == Bytes(ps)[..s.pos];
    assert (ps + [p])[..|ps|] == ps;
  }

  lemma ParserStep(cfg: seq<Peer>, s: State, step: Step)
    requires CfgOk(cfg) && ClientsInv(cfg, s) && ParserInv(cfg, s) && Enabled(cfg, s, step)
    ensures WireOk(cfg, Apply(cfg, s, step).wire) && ParserInv(cfg, Apply(cfg, s, step))
  {
    hide WireOk, CfgOk, WriteOutcome, CloseIsLast, ClientInv, Fold, WireAtoms, Atoms, AllSendable, Packets, Bytes;
    match step
    case WriteFrame(i) =>
      SenderIsOpen(s.clients[i], i, s.wire);
      ParserIgnoresWrites(cfg, s, Sent(i, s.clients[i].sender.body));
    case ParseChunk => ParserReads(cfg, s, Apply(cfg, s, step));
    case _ =>
  }

  // ---------- every reachable state ----------

  ghost predicate Inv(cfg: seq<Peer>, s: State) {
    ClientsInv(cfg, s) && ParserInv(cfg, s)
  }

  lemma InitInv(cfg: seq<Peer>)
    ensures Inv(cfg, Init(cfg))
  {
  }

  lemma {:induction false} Reachable(cfg: seq<Peer>, states: seq<State>, steps: seq<Step>, k: nat)
    requires CfgOk(cfg) && IsRun(cfg, states, steps) && k < |states|
    ensures Inv(cfg, states[k])
  {
    hide ClientsInv, ParserInv, Enabled, Apply, CfgOk;
    if k == 0 {
      InitInv(cfg);
    } else {
      Reachable(cfg, states, steps, k - 1);
      ClientStep(cfg, states[k - 1], steps[k - 1]);
      ParserStep(cfg, states[k - 1], steps[k - 1]);
    }
  }
}
