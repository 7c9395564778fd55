/** Clients that share a source address, one after another: a remote address may come back once the
    loop that served it has returned. What the tunnel carries for the address then falls into the
    connections' shares, in the order of the connections. */
module Turns {
  import opened Text
  import opened Addrs
  import opened Header
  import opened ParserModel
  import opened Chunking
  import opened Frames
  import opened Readers
  import opened Multiplex
  import opened Delivery

  /** What a trace has for a source: bytes, and "end"s. */
  datatype Mark = Octet(value: byte) | Over

  function MarkOf(src: Addr, a: Atom): seq<Mark> {
    if IsEnd(src, a) then [Over] else if a.Byte? && a.src == src then [Octet(a.value)] else []
  }

  function Marks(src: Addr, atoms: seq<Atom>): seq<Mark> {
    if atoms == [] then [] else MarkOf(src, atoms[0]) + Marks(src, atoms[1..])
  }

  function Octets(b: bytes): (ms: seq<Mark>)
    ensures |ms| == |b|
  { seq(|b|, i requires 0 <= i < |b| => Octet(b[i])) }

  lemma {:induction false} MarksAppend(src: Addr, a: seq<Atom>, b: seq<Atom>)
    ensures Marks(src, a + b) == Marks(src, a) + Marks(src, b)
  {
    if a == [] {
      assert a + b == b;
    } else {
      assert (a + b)[1..] == a[1..] + b;
      MarksAppend(src, a[1..], b);
    }
  }

  lemma {:induction false} MarksOfPayload(src: Addr, from: Addr, dst: Addr, offset: int, payload: bytes)
    ensures Marks(src, PayloadAtoms(from, dst, offset, payload)) == if from == src then Octets(payload) else []
    decreases |payload|
  {
    var atoms := PayloadAtoms(from, dst, offset, payload);
    if payload != [] {
      assert atoms[1..] == PayloadAtoms(from, dst, offset + 1, payload[1..]);
      MarksOfPayload(src, from, dst, offset + 1, payload[1..]);
    }
  }

  function BodyMarks(body: Body): seq<Mark> {
    match body
    case Data(chunk) => Octets(chunk)
    case Close(eof) => if eof then [Over] else []
  }

  lemma MarksOfFrame(p: Peer, body: Body, src: Addr)
    requires PeerOk(p) && BodyOk(body)
    ensures Marks(src, PacketAtoms(PacketOf(p, body))) == if WireSrc(p.src) == src then BodyMarks(body) else []
  {
    hide LeadingSpace, Itoa;
    var q := PacketOf(p, body);
    MarksAppend(src, EndAtoms(q), PayloadAtoms(WireSrc(q.src), WireDst(q.dst), 0, q.payload));
    MarksOfPayload(src, WireSrc(q.src), WireDst(q.dst), 0, q.payload);
    MarksOfEnd(q, src);
    assert |END| == 3 && |ERROR| == 5;
  }

  lemma MarksOfEnd(q: Packet, src: Addr)
    ensures Marks(src, EndAtoms(q)) == if WireSrc(q.src) == src && q.dst.scheme == END then [Over] else []
  {
  }

  lemma MarksOfLate(m: Machine, src: Addr)
    ensures Marks(src, Late(m)) == []
  {
  }

  // ---------- the wire ----------

  /** The frames of all clients with the source, in the order in which they were written. */
  function WireMarks(cfg: seq<Peer>, wire: seq<Sent>, src: Addr): seq<Mark>
    requires WireOk(cfg, wire)
  {
    if wire == [] then []
    else
      var front, e := wire[..|wire| - 1], wire[|wire| - 1];
      assert e in wire;
      WireMarks(cfg, front, src) + if SrcOf(cfg, e.who) == src then BodyMarks(e.body) else []
  }

  lemma {:induction false} MarksOfWire(cfg: seq<Peer>, wire: seq<Sent>, src: Addr)
    requires CfgOk(cfg) && WireOk(cfg, wire)
    ensures AllSendable(Packets(cfg, wire))
    ensures Marks(src, WireAtoms(Packets(cfg, wire))) == WireMarks(cfg, wire, src)
    decreases |wire|
  {
    hide WireAtoms, AllSendable, Packets, CfgOk, Marks, BodyMarks, SrcOf;
    PacketsSendable(cfg, wire);
    if wire == [] {
      EmptyWire(cfg);
      NoMarks(src);
    } else {
      var front, e := wire[..|wire| - 1], wire[|wire| - 1];
      assert wire == front + [e] && e in wire;
      assert forall x :: x in front ==> x in wire;
      MarksOfWire(cfg, front, src);
      MarksOfLast(cfg, front, e, src);
    }
  }

  lemma MarksOfLast(cfg: seq<Peer>, front: seq<Sent>, e: Sent, src: Addr)
    requires CfgOk(cfg) && WireOk(cfg, front) && WireOk(cfg, front + [e])
    requires AllSendable(Packets(cfg, front)) && AllSendable(Packets(cfg, front + [e]))
    requires e.who < |cfg| && BodyOk(e.body)
    ensures Marks(src, WireAtoms(Packets(cfg, front + [e])))
         == Marks(src, WireAtoms(Packets(cfg, front))) + if SrcOf(cfg, e.who) == src then BodyMarks(e.body) else []
  {
    hide WireAtoms, PacketAtoms, Late, AfterAll, AllSendable, Packets, CfgOk, Marks, BodyMarks, BodyOk, PeerOk;
    LastFrame(cfg, front, e);
    var late, own := Late(AfterAll(Packets(cfg, front))), PacketAtoms(PacketOf(cfg[e.who], e.body));
    MarksAppend(src, WireAtoms(Packets(cfg, front)), late + own);
    MarksAppend(src, late, own);
    MarksOfLate(AfterAll(Packets(cfg, front)), src);
    EachOk(cfg, e.who);
    MarksOfFrame(cfg[e.who], e.body, src);
  }

  lemma EachOk(cfg: seq<Peer>, i: nat)
    requires CfgOk(cfg) && i < |cfg|
    ensures PeerOk(cfg[i])
  {
    hide PeerOk;
  }

  lemma NoMarks(src: Addr)
    ensures Marks(src, []) == []
  {
  }

  // ---------- one connection after another ----------

  /** No client's frames have frames of another client of the same source between them. */
  predicate InTurns(cfg: seq<Peer>, wire: seq<Sent>)
    requires WireOk(cfg, wire)
  {
    forall a, b, c :: 0 <= a < b < c < |wire| && wire[a].who == wire[c].who && wire[b].who != wire[a].who ==>
      SrcOf(cfg, wire[b].who) != SrcOf(cfg, wire[a].who)
  }

  /** The clients of the source that have written, in order. */
  function Order(cfg: seq<Peer>, wire: seq<Sent>, src: Addr): (o: seq<nat>)
    requires WireOk(cfg, wire)
    ensures forall i :: i in o ==> i < |cfg| && SrcOf(cfg, i) == src
  {
    if wire == [] then []
    else
      var front, e := wire[..|wire| - 1], wire[|wire| - 1];
      assert e in wire;
      var o := Order(cfg, front, src);
      if SrcOf(cfg, e.who) == src && e.who !in o then o + [e.who] else o
  }

  /** What one client contributes. */
  function Share(wire: seq<Sent>, i: nat): seq<Mark> {
    Octets(SentBytes(wire, i)) + if Closed(wire, i) then [Over] else []
  }

  function Shares(wire: seq<Sent>, o: seq<nat>): seq<Mark> {
    if o == [] then [] else Shares(wire, o[..|o| - 1]) + Share(wire, o[|o| - 1])
  }

  lemma {:induction false} OrderIsWriters(cfg: seq<Peer>, wire: seq<Sent>, src: Addr, i: nat)
    requires WireOk(cfg, wire)
    ensures i in Order(cfg, wire, src) <==> exists a :: 0 <= a < |wire| && wire[a].who == i && SrcOf(cfg, i) == src
    decreases |wire|
  {
    hide SrcOf;
    if wire != [] {
      var front, e := wire[..|wire| - 1], wire[|wire| - 1];
      assert e in wire && wire == front + [e];
      OrderIsWriters(cfg, front, src, i);
      if a :| 0 <= a < |wire| && wire[a].who == i && SrcOf(cfg, i) == src {
        if a < |front| { assert front[a].who == i; }
      }
    }
  }

  /** Of two clients in the order, the later one has a frame after one of the earlier. */
  lemma {:induction false} OrderIsByFrames(cfg: seq<Peer>, wire: seq<Sent>, src: Addr, u: nat, v: nat)
    requires WireOk(cfg, wire) && u < v < |Order(cfg, wire, src)|
    ensures Order(cfg, wire, src)[u] != Order(cfg, wire, src)[v]
    ensures exists a, b :: 0 <= a < b < |wire| && wire[a].who == Order(cfg, wire, src)[u]
                           && wire[b].who == Order(cfg, wire, src)[v]
    decreases |wire|
  {
    hide SrcOf;
    var front, e := wire[..|wire| - 1], wire[|wire| - 1];
    assert e in wire;
    var o := Order(cfg, front, src);
    if v < |o| {
      OrderIsByFrames(cfg, front, src, u, v);
      var a, b :| 0 <= a < b < |front| && front[a].who == o[u] && front[b].who == o[v];
      assert wire[a].who == o[u] && wire[b].who == o[v];
    } else {
      OrderIsWriters(cfg, front, src, o[u]);
      var a :| 0 <= a < |front| && front[a].who == o[u];
      assert wire[a].who == o[u] && wire[|front|].who == e.who;
    }
  }

  lemma ShareGrows(front: seq<Sent>, e: Sent, i: nat)
    requires e.who == i ==> !Closed(front, i)
    ensures Share(front + [e], i) == Share(front, i) + if e.who == i then BodyMarks(e.body) else []
  {
    hide SentBytes;
    SentBytesSnoc(front, e, i);
    if e.who == i {
      assert Closed(front + [e], i) <==> e.body == Close(true) by {
        assert forall x :: x in front + [e] <==> x in front || x == e;
      }
    } else {
      assert Closed(front + [e], i) <==> Closed(front, i) by {
        assert forall x :: x in front + [e] <==> x in front || x == e;
      }
    }
  }

  lemma {:induction false} SharesOfOthers(front: seq<Sent>, e: Sent, o: seq<nat>)
    requires e.who !in o
    ensures Shares(front + [e], o) == Shares(front, o)
    decreases |o|
  {
    hide Share;
    if o != [] {
      SharesOfOthers(front, e, o[..|o| - 1]);
      assert o[|o| - 1] in o;
      ShareGrows(front, e, o[|o| - 1]);
    }
  }

  lemma {:induction false} NothingYet(wire: seq<Sent>, i: nat)
    requires forall a :: 0 <= a < |wire| ==> wire[a].who != i
    ensures SentBytes(wire, i) == [] && !Closed(wire, i)
    decreases |wire|
  {
    if wire != [] { NothingYet(wire[..|wire| - 1], i); }
  }

  lemma ShareOfNew(front: seq<Sent>, e: Sent)
    requires forall a :: 0 <= a < |front| ==> front[a].who != e.who
    ensures Share(front + [e], e.who) == BodyMarks(e.body)
  {
    hide SentBytes, BodyMarks;
    NothingYet(front, e.who);
    ShareGrows(front, e, e.who);
  }

  /** A client that writes again is the latest one of its source. */
  lemma WriterIsLast(cfg: seq<Peer>, front: seq<Sent>, e: Sent, src: Addr)
    requires WireOk(cfg, front + [e]) && WireOk(cfg, front) && InTurns(cfg, front + [e])
    requires e.who in Order(cfg, front, src)
    ensures var o := Order(cfg, front, src); o[|o| - 1] == e.who && e.who !in o[..|o| - 1]
  {
    hide SrcOf;
    var o, wire := Order(cfg, front, src), front + [e];
    var v := |o| - 1;
    forall u | 0 <= u < v
      ensures o[u] != e.who
    {
      OrderIsByFrames(cfg, front, src, u, v);
      var a, b :| 0 <= a < b < |front| && front[a].who == o[u] && front[b].who == o[v];
      assert wire[a].who == o[u] && wire[b].who == o[v] && wire[|front|].who == e.who;
      assert o[u] in o && o[v] in o;
    }
  }

  lemma OneMoreFrame(cfg: seq<Peer>, front: seq<Sent>, e: Sent, src: Addr)
    requires WireOk(cfg, front) && WireOk(cfg, front + [e])
    ensures e.who < |cfg|
    ensures Order(cfg, front + [e], src)
         == var o := Order(cfg, front, src); if SrcOf(cfg, e.who) == src && e.who !in o then o + [e.who] else o
    ensures WireMarks(cfg, front + [e], src)
         == WireMarks(cfg, front, src) + if SrcOf(cfg, e.who) == src then BodyMarks(e.body) else []
  {
    hide SrcOf, BodyMarks;
    assert e in front + [e] && (front + [e])[..|front|] == front;
  }

  lemma SharesStep(cfg: seq<Peer>, front: seq<Sent>, e: Sent, src: Addr)
    requires WireOk(cfg, front) && WireOk(cfg, front + [e]) && e.who < |cfg|
    requires InTurns(cfg, front + [e]) && CloseIsLast(front + [e])
    ensures Shares(front + [e], Order(cfg, front + [e], src))
         == Shares(front, Order(cfg, front, src)) + if SrcOf(cfg, e.who) == src then BodyMarks(e.body) else []
  {
    hide SrcOf, Share, BodyMarks, WireOk, InTurns, CloseIsLast, Order, WireMarks;
    var o := Order(cfg, front, src);
    OneMoreFrame(cfg, front, e, src);
    if SrcOf(cfg, e.who) != src {
      SharesOfOthers(front, e, o);
    } else if e.who in o {
      WriterIsLast(cfg, front, e, src);
      SharesOfOthers(front, e, o[..|o| - 1]);
      ClosedStops(front, e, e.who);
      ShareGrows(front, e, e.who);
    } else {
      NewWriter(cfg, front, e, src);
      SharesOfOthers(front, e, o);
      ShareOfNew(front, e);
      assert (o + [e.who])[..|o|] == o;
    }
  }

  lemma NewWriter(cfg: seq<Peer>, front: seq<Sent>, e: Sent, src: Addr)
    requires WireOk(cfg, front) && e.who < |cfg| && SrcOf(cfg, e.who) == src && e.who !in Order(cfg, front, src)
    ensures forall a :: 0 <= a < |front| ==> front[a].who != e.who
  {
    hide SrcOf;
    OrderIsWriters(cfg, front, src, e.who);
  }

  /** While the clients of a source take turns, what the wire has for the source is one whole share
      after another. */
  lemma {:induction false} SharesInTurn(cfg: seq<Peer>, wire: seq<Sent>, src: Addr)
    requires WireOk(cfg, wire) && InTurns(cfg, wire) && CloseIsLast(wire)
    ensures WireMarks(cfg, wire, src) == Shares(wire, Order(cfg, wire, src))
    decreases |wire|
  {
    if wire != [] {
      hide SrcOf, BodyMarks, BodyOk, InTurns, CloseIsLast, Order, WireMarks, Shares;
      var front, e := wire[..|wire| - 1], wire[|wire| - 1];
      assert e in wire && wire == front + [e] && forall x :: x in front ==> x in wire;
      TurnsBefore(cfg, front, e);
      SharesInTurn(cfg, front, src);
      OneMoreFrame(cfg, front, e, src);
      SharesStep(cfg, front, e, src);
    }
  }

  lemma TurnsBefore(cfg: seq<Peer>, front: seq<Sent>, e: Sent)
    requires WireOk(cfg, front) && WireOk(cfg, front + [e])
    requires InTurns(cfg, front + [e]) && CloseIsLast(front + [e])
    ensures InTurns(cfg, front) && CloseIsLast(front)
  {
    hide SrcOf;
    var wire := front + [e];
    assert forall a :: 0 <= a < |front| ==> wire[a] == front[a];
  }

  // ---------- runs ----------

  predicate Touched(c: Client) { c != Client([], Reading, Selecting) }

  predicate HasReturned(c: Client) { c.sender == Returned || c.sender.Failed? }

  predicate Active(c: Client) { Touched(c) && !HasReturned(c) }

  /** A client is read for the first time only when the loop of every other client of its source has
      returned, or has not begun. */
  predicate Waits(cfg: seq<Peer>, s: State, step: Step) {
    (step.ReadSome? || step.ReadFails?) && step.i < |s.clients| == |cfg| && !Touched(s.clients[step.i]) ==>
      forall j :: 0 <= j < |cfg| && j != step.i && SrcOf(cfg, j) == SrcOf(cfg, step.i) ==> !Active(s.clients[j])
  }

  predicate OneActive(cfg: seq<Peer>, cs: seq<Client>)
    requires |cs| == |cfg|
  {
    forall i, j :: 0 <= i < j < |cfg| && SrcOf(cfg, i) == SrcOf(cfg, j) ==> !Active(cs[i]) || !Active(cs[j])
  }

  predicate WritersDone(cfg: seq<Peer>, cs: seq<Client>, wire: seq<Sent>)
    requires |cs| == |cfg| && WireOk(cfg, wire)
  {
    && (forall a :: 0 <= a < |wire| ==> Touched(cs[wire[a].who]))
    && (forall a, b :: 0 <= a < b < |wire| && wire[a].who != wire[b].who ==>
          SrcOf(cfg, wire[a].who) != SrcOf(cfg, wire[b].who) || HasReturned(cs[wire[a].who]))
  }

  predicate TurnInv(cfg: seq<Peer>, s: State) {
    && |s.clients| == |cfg| && WireOk(cfg, s.wire)
    && OneActive(cfg, s.clients) && WritersDone(cfg, s.clients, s.wire) && InTurns(cfg, s.wire)
  }

  /** What a step can do to the clients: one of them moves on, and never back. */
  predicate Moves(cfg: seq<Peer>, cs: seq<Client>, cs': seq<Client>, i: nat)
    requires |cs| == |cfg|
  {
    && |cs'| == |cs| && i < |cs| && (forall j :: 0 <= j < |cs| && j != i ==> cs'[j] == cs[j])
    && (Touched(cs[i]) ==> Touched(cs'[i])) && (HasReturned(cs[i]) ==> HasReturned(cs'[i]))
    && (Active(cs'[i]) && !Active(cs[i]) ==>
          forall j :: 0 <= j < |cfg| && j != i && SrcOf(cfg, j) == SrcOf(cfg, i) ==> !Active(cs[j]))
  }

  lemma WriterHasRead(c: Client, i: nat, wire: seq<Sent>)
    requires ClientInv(c, i, wire) && c.sender.Writing? && c.sender.body.Data?
    ensures c.read != []
  {
    hide SentBytes;
  }

  lemma StepMoves(cfg: seq<Peer>, s: State, step: Step)
    requires ClientsInv(cfg, s) && Enabled(cfg, s, step) && Waits(cfg, s, step)
    requires !step.TunnelRead? && !step.ParseChunk?
    ensures Moves(cfg, s.clients, Apply(cfg, s, step).clients, step.i)
    ensures step.WriteFrame? ==> Active(s.clients[step.i])
  {
    hide WireOk, SrcOf, ClientInv, CloseIsLast;
    assert ClientInv(s.clients[step.i], step.i, s.wire);
    if step.WriteFrame? && s.clients[step.i].sender.body.Data? { WriterHasRead(s.clients[step.i], step.i, s.wire); }
  }

  lemma MovesKeep(cfg: seq<Peer>, cs: seq<Client>, cs': seq<Client>, i: nat, wire: seq<Sent>)
    requires |cs| == |cfg| && WireOk(cfg, wire) && Moves(cfg, cs, cs', i)
    requires OneActive(cfg, cs) && WritersDone(cfg, cs, wire)
    ensures OneActive(cfg, cs') && WritersDone(cfg, cs', wire)
  {
    hide SrcOf, Touched, HasReturned;
    assert forall a :: 0 <= a < |wire| ==> wire[a] in wire;
  }

  /** An active client of a source writes: all others of the source that have written are done. */
  lemma WriteKeepsTurns(cfg: seq<Peer>, cs: seq<Client>, wire: seq<Sent>, e: Sent)
    requires |cs| == |cfg| && WireOk(cfg, wire) && WireOk(cfg, wire + [e]) && e.who < |cfg| && Active(cs[e.who])
    requires OneActive(cfg, cs) && WritersDone(cfg, cs, wire) && InTurns(cfg, wire)
    ensures WritersDone(cfg, cs, wire + [e]) && InTurns(cfg, wire + [e])
  {
    hide SrcOf;
    var all := wire + [e];
    assert forall a :: 0 <= a < |wire| ==> wire[a] in wire && all[a] == wire[a];
    forall a | 0 <= a < |wire| && wire[a].who != e.who && SrcOf(cfg, wire[a].who) == SrcOf(cfg, e.who)
      ensures HasReturned(cs[wire[a].who])
    {
      assert Touched(cs[wire[a].who]);
    }
  }

  lemma StepKeepsTurns(cfg: seq<Peer>, s: State, step: Step)
    requires TurnInv(cfg, s) && ClientsInv(cfg, s) && Enabled(cfg, s, step) && Waits(cfg, s, step)
    requires WireOk(cfg, Apply(cfg, s, step).wire)
    ensures TurnInv(cfg, Apply(cfg, s, step))
  {
    hide WireOk, SrcOf, OneActive, WritersDone, InTurns, WriteOutcome, WireBytes, Moves, Waits, Active, ClientsInv;
    var t := Apply(cfg, s, step);
    if !step.TunnelRead? && !step.ParseChunk? {
      StepMoves(cfg, s, step);
      SameNumber(cfg, s.clients, t.clients, step.i);
      if step.WriteFrame? { WriteKeepsTurns(cfg, s.clients, s.wire, Sent(step.i, s.clients[step.i].sender.body)); }
      MovesKeep(cfg, s.clients, t.clients, step.i, t.wire);
    }
  }

  lemma SameNumber(cfg: seq<Peer>, cs: seq<Client>, cs': seq<Client>, i: nat)
    requires |cs| == |cfg| && Moves(cfg, cs, cs', i)
    ensures |cs'| == |cs|
  {
  }

  ghost predicate IsTurnRun(cfg: seq<Peer>, states: seq<State>, steps: seq<Step>) {
    IsRun(cfg, states, steps) && forall k :: 0 <= k < |steps| ==> Waits(cfg, states[k], steps[k])
  }

  lemma {:induction false} RunTakesTurns(cfg: seq<Peer>, states: seq<State>, steps: seq<Step>, k: nat)
    requires CfgOk(cfg) && IsTurnRun(cfg, states, steps) && k < |states|
    ensures TurnInv(cfg, states[k])
  {
    hide TurnInv, Enabled, Apply, CfgOk, Waits;
    if k == 0 {
      NobodyYet(cfg);
    } else {
      RunTakesTurns(cfg, states, steps, k - 1);
      Reachable(cfg, states, steps, k - 1);
      Reachable(cfg, states, steps, k);
      StepKeepsTurns(cfg, states[k - 1], steps[k - 1]);
    }
  }

  lemma NobodyYet(cfg: seq<Peer>)
    ensures TurnInv(cfg, Init(cfg))
  {
  }

  lemma RoutedIsPrefix(cfg: seq<Peer>, s: State, src: Addr)
    requires CfgOk(cfg) && Inv(cfg, s)
    ensures WireOk(cfg, s.wire) && Marks(src, Atoms(s.routed)) <= WireMarks(cfg, s.wire, src)
    ensures s.error == NoError && s.pos == |WireBytes(cfg, s.wire)| ==>
              Marks(src, Atoms(s.routed)) == WireMarks(cfg, s.wire, src)
  {
    hide CfgOk, WireAtoms, Atoms, Marks, Fold, WireMarks, ClientInv, CloseIsLast, AllSendable, Packets;
    MarksOfWire(cfg, s.wire, src);
    var ps := Packets(cfg, s.wire);
    MarksPrefix(src, Atoms(s.routed), WireAtoms(ps));
    if s.error == NoError && s.pos == |WireBytes(cfg, s.wire)| {
      assert Bytes(ps)[..s.pos] == Bytes(ps);
      FoldWire(ps);
    }
  }

  lemma ShareIsRead(c: Client, i: nat, wire: seq<Sent>)
    requires ClientInv(c, i, wire)
    ensures SentBytes(wire, i) <= c.read && (Closed(wire, i) ==> SentBytes(wire, i) == c.read)
  {
    hide SentBytes;
    ClosedMeansSent(c, i, wire);
    ClosedByFrame(wire, i);
  }

  /** In every run in which clients of one source wait for each other, in every schedule and chunking:
      what has been routed for the source is a prefix of the shares of its clients, one after another;
      all but the last have returned; each share is of bytes the client read, and of all of them if it
      sent a closing frame. */
  lemma AddressInTurns(cfg: seq<Peer>, states: seq<State>, steps: seq<Step>, k: nat, src: Addr)
    requires CfgOk(cfg) && IsTurnRun(cfg, states, steps) && k < |states|
    ensures |states[k].clients| == |cfg| && WireOk(cfg, states[k].wire)
    ensures var s := states[k];
            var o := Order(cfg, s.wire, src);
            && Marks(src, Atoms(s.routed)) <= Shares(s.wire, o)
            && (s.error == NoError && s.pos == |WireBytes(cfg, s.wire)| ==>
                  Marks(src, Atoms(s.routed)) == Shares(s.wire, o))
            && (forall n :: 0 <= n < |o| - 1 ==> o[n] in o && HasReturned(s.clients[o[n]]))
            && (forall i :: i in o ==>
                  && SentBytes(s.wire, i) <= s.clients[i].read
                  && (Closed(s.wire, i) ==> SentBytes(s.wire, i) == s.clients[i].read))
  {
    hide CfgOk, IsTurnRun, Atoms, Marks, Shares, SrcOf, HasReturned, WireMarks, Order, ParserInv, WireBytes;
    hide WireOk, ClientInv, WritersDone, SentBytes, Closed, OneActive, InTurns, CloseIsLast;
    var s := states[k];
    assert IsRun(cfg, states, steps) by { TurnRunIsRun(cfg, states, steps); }
    Reachable(cfg, states, steps, k);
    RunTakesTurns(cfg, states, steps, k);
    RoutedIsPrefix(cfg, s, src);
    SharesInTurn(cfg, s.wire, src);
    var o := Order(cfg, s.wire, src);
    forall n | 0 <= n < |o| - 1
      ensures o[n] in o && HasReturned(s.clients[o[n]])
    {
      EarlierAreDone(cfg, s.clients, s.wire, src, n);
    }
    forall i | i in o
      ensures SentBytes(s.wire, i) <= s.clients[i].read
      ensures Closed(s.wire, i) ==> SentBytes(s.wire, i) == s.clients[i].read
    {
      ShareIsRead(s.clients[i], i, s.wire);
    }
  }

  lemma TurnRunIsRun(cfg: seq<Peer>, states: seq<State>, steps: seq<Step>)
    requires IsTurnRun(cfg, states, steps)
    ensures IsRun(cfg, states, steps)
  {
  }

  lemma ClosedByFrame(wire: seq<Sent>, i: nat)
    ensures Closed(wire, i) ==> exists e :: e in wire && e.who == i && e.body.Close?
  {
  }

  lemma MarksPrefix(src: Addr, a: seq<Atom>, b: seq<Atom>)
    requires a <= b
    ensures Marks(src, a) <= Marks(src, b)
  {
    assert b == a + b[|a|..];
    MarksAppend(src, a, b[|a|..]);
  }

  lemma EarlierAreDone(cfg: seq<Peer>, cs: seq<Client>, wire: seq<Sent>, src: Addr, n: nat)
    requires |cs| == |cfg| && WireOk(cfg, wire) && WritersDone(cfg, cs, wire)
    requires n < |Order(cfg, wire, src)| - 1
    ensures var o := Order(cfg, wire, src); o[n] in o && HasReturned(cs[o[n]])
  {
    hide SrcOf, HasReturned, Touched;
    var o := Order(cfg, wire, src);
    OrderIsByFrames(cfg, wire, src, n, n + 1);
    var a, b :| 0 <= a < b < |wire| && wire[a].who == o[n] && wire[b].who == o[n + 1];
    assert o[n] in o && o[n + 1] in o;
  }
}
