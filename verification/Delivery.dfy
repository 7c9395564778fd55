/** End-to-end delivery over the multiplexed tunnel, for every schedule. */
module Delivery {
  import opened Text
  import opened Addrs
  import opened Header
  import opened ParserModel
  import opened Chunking
  import opened Frames
  import opened PassGuard
  import opened Multiplex
  import opened Origins

  // ---------- one source's share of a trace ----------

  /** The payload routed for a source, in order. */
  function DataOf(src: Addr, atoms: seq<Atom>): bytes {
    if atoms == [] then []
    else
      var a := atoms[0];
      (if a.Byte? && a.src == src then [a.value] else []) + DataOf(src, atoms[1..])
  }

  predicate IsEnd(src: Addr, a: Atom) { a.Empty? && a.src == src && a.dst.scheme == END }

  lemma {:induction false} DataOfAppend(src: Addr, a: seq<Atom>, b: seq<Atom>)
    ensures DataOf(src, a + b) == DataOf(src, a) + DataOf(src, b)
  {
    if a == [] {
      assert a + b == b;
    } else {
      assert (a + b)[1..] == a[1..] + b;
      DataOfAppend(src, a[1..], b);
    }
  }

  lemma {:induction false} DataOfPayload(src: Addr, from: Addr, dst: Addr, offset: int, payload: bytes)
    ensures DataOf(src, PayloadAtoms(from, dst, offset, payload)) == if from == src then payload else []
    decreases |payload|
  {
    var atoms := PayloadAtoms(from, dst, offset, payload);
    if payload != [] {
      assert atoms[1..] == PayloadAtoms(from, dst, offset + 1, payload[1..]);
      DataOfPayload(src, from, dst, offset + 1, payload[1..]);
      assert payload == [payload[0]] + payload[1..];
    }
  }

  lemma {:induction false} DataOfOthers(src: Addr, atoms: seq<Atom>)
    requires forall k :: 0 <= k < |atoms| ==> atoms[k].src != src
    ensures DataOf(src, atoms) == []
  {
    if atoms != [] { DataOfOthers(src, atoms[1..]); }
  }

  lemma DataOfPrefix(src: Addr, a: seq<Atom>, b: seq<Atom>)
    requires a <= b
    ensures DataOf(src, a) <= DataOf(src, b)
  {
    assert b == a + b[|a|..];
    DataOfAppend(src, a, b[|a|..]);
  }

  // ---------- the whole wire ----------

  function SrcOf(cfg: seq<Peer>, i: nat): Addr
    requires i < |cfg|
  { WireSrc(cfg[i].src) }

  /** No other client has the source of client i. */
  predicate OwnSource(cfg: seq<Peer>, i: nat)
    requires i < |cfg|
  { forall j :: 0 <= j < |cfg| && j != i ==> SrcOf(cfg, j) != SrcOf(cfg, i) }

  /** ... nor is it the one under which empty frames are reported. */
  predicate ProperSource(cfg: seq<Peer>, i: nat)
    requires i < |cfg|
  { OwnSource(cfg, i) && SrcOf(cfg, i) != NO_ADDR }

  /** What the last frame of a wire adds to the trace. */
  lemma LastFrame(cfg: seq<Peer>, wire: seq<Sent>, e: Sent)
    requires CfgOk(cfg) && WireOk(cfg, wire) && e.who < |cfg| && BodyOk(e.body)
    ensures WireOk(cfg, wire + [e])
    ensures AllSendable(Packets(cfg, wire)) && AllSendable(Packets(cfg, wire + [e]))
    ensures WireAtoms(Packets(cfg, wire + [e]))
         == WireAtoms(Packets(cfg, wire))
            + (Late(AfterAll(Packets(cfg, wire))) + PacketAtoms(PacketOf(cfg[e.who], e.body)))
  {
    hide Packets, PacketAtoms, Late, AfterAll, CfgOk;
    var ps, p := Packets(cfg, wire), PacketOf(cfg[e.who], e.body);
    PacketsSnoc(cfg, wire, e);
    PacketsSendable(cfg, wire);
    PacketsSendable(cfg, wire + [e]);
    assert (ps + [p])[..|ps|] == ps;
  }

  lemma FrameData(p: Peer, body: Body, src: Addr)
    ensures DataOf(src, PacketAtoms(PacketOf(p, body)))
         == if WireSrc(p.src) == src && body.Data? then body.chunk else []
  {
    var q := PacketOf(p, body);
    DataOfAppend(src, EndAtoms(q), PayloadAtoms(WireSrc(q.src), WireDst(q.dst), 0, q.payload));
    DataOfPayload(src, WireSrc(q.src), WireDst(q.dst), 0, q.payload);
  }

  lemma LateData(m: Machine, src: Addr)
    ensures DataOf(src, Late(m)) == []
  {
  }

  lemma {:induction false} WireData(cfg: seq<Peer>, wire: seq<Sent>, i: nat)
    requires CfgOk(cfg) && WireOk(cfg, wire) && i < |cfg| && OwnSource(cfg, i)
    ensures AllSendable(Packets(cfg, wire))
    ensures DataOf(SrcOf(cfg, i), WireAtoms(Packets(cfg, wire))) == SentBytes(wire, i)
    decreases |wire|
  {
    hide WireAtoms, PacketAtoms, Late, AfterAll, DataOf, AllSendable, Packets, CfgOk, SrcOf;
    PacketsSendable(cfg, wire);
    if wire == [] {
      EmptyWire(cfg);
      DataOfOthers(SrcOf(cfg, i), []);
    } else {
      var front, e := wire[..|wire| - 1], wire[|wire| - 1];
      assert wire == front + [e] && e in wire;
      assert forall x :: x in front ==> x in wire;
      WireData(cfg, front, i);
      WireDataStep(cfg, front, e, i);
    }
  }

  lemma EmptyWire(cfg: seq<Peer>)
    ensures WireOk(cfg, []) && AllSendable(Packets(cfg, [])) && WireAtoms(Packets(cfg, [])) == []
  {
  }

  lemma WireDataStep(cfg: seq<Peer>, front: seq<Sent>, e: Sent, i: nat)
    requires CfgOk(cfg) && WireOk(cfg, front) && WireOk(cfg, front + [e]) && i < |cfg| && OwnSource(cfg, i)
    requires AllSendable(Packets(cfg, front)) && AllSendable(Packets(cfg, front + [e]))
    ensures DataOf(SrcOf(cfg, i), WireAtoms(Packets(cfg, front + [e])))
         == DataOf(SrcOf(cfg, i), WireAtoms(Packets(cfg, front)))
            + if e.who == i && e.body.Data? then e.body.chunk else []
  {
    hide WireAtoms, PacketAtoms, Late, AfterAll, DataOf, AllSendable, Packets, CfgOk, BodyOk;
    var src := SrcOf(cfg, i);
    assert e in front + [e];
    LastFrame(cfg, front, e);
    var late, own := Late(AfterAll(Packets(cfg, front))), PacketAtoms(PacketOf(cfg[e.who], e.body));
    DataOfAppend(src, WireAtoms(Packets(cfg, front)), late + own);
    DataOfAppend(src, late, own);
    LateData(AfterAll(Packets(cfg, front)), src);
    FrameData(cfg[e.who], e.body, src);
    assert e.who != i ==> SrcOf(cfg, e.who) != src;
  }

  predicate Closed(wire: seq<Sent>, i: nat) {
    exists e :: e in wire && e.who == i && e.body == Close(true)
  }

  /** The properties of a finished trace for one client: an "end" comes from a closing frame, and
      nothing of that client follows it; every destination is the client's own. */
  predicate Tidy(cfg: seq<Peer>, wire: seq<Sent>, i: nat, atoms: seq<Atom>)
    requires i < |cfg|
  {
    && (forall k, l :: 0 <= k < l < |atoms| && IsEnd(SrcOf(cfg, i), atoms[k]) ==> atoms[l].src != SrcOf(cfg, i))
    && (forall k :: 0 <= k < |atoms| && IsEnd(SrcOf(cfg, i), atoms[k]) ==> Closed(wire, i))
    && (forall k :: 0 <= k < |atoms| && atoms[k].src == SrcOf(cfg, i) ==>
          atoms[k].dst == WireDst(DataDst(cfg[i])) || (atoms[k].Empty? && atoms[k].dst == WireDst(CloseDst(true))))
  }

  lemma FrameIsTidy(cfg: seq<Peer>, e: Sent, m: Machine, i: nat)
    requires CfgOk(cfg) && e.who < |cfg| && i < |cfg| && ProperSource(cfg, i)
    ensures var x := Late(m) + PacketAtoms(PacketOf(cfg[e.who], e.body));
            && (forall k :: 0 <= k < |x| && e.who != i ==> x[k].src != SrcOf(cfg, i))
            && (forall k :: 0 <= k < |x| && IsEnd(SrcOf(cfg, i), x[k]) ==>
                  e.who == i && e.body == Close(true) && k == |x| - 1)
            && (forall k :: 0 <= k < |x| && x[k].src == SrcOf(cfg, i) ==>
                  x[k].dst == WireDst(DataDst(cfg[i])) || (x[k].Empty? && x[k].dst == WireDst(CloseDst(true))))
  {
    hide LeadingSpace, Itoa;
    assert PeerOk(cfg[e.who]);
    assert e.who != i ==> SrcOf(cfg, e.who) != SrcOf(cfg, i);
  }

  lemma {:induction false} WireIsTidy(cfg: seq<Peer>, wire: seq<Sent>, i: nat)
    requires CfgOk(cfg) && WireOk(cfg, wire) && CloseIsLast(wire) && i < |cfg| && ProperSource(cfg, i)
    ensures AllSendable(Packets(cfg, wire))
    ensures Tidy(cfg, wire, i, WireAtoms(Packets(cfg, wire)))
    decreases |wire|
  {
    hide WireAtoms, PacketAtoms, Late, AfterAll, AllSendable, Packets, CfgOk, SrcOf, Tidy, Closed;
    PacketsSendable(cfg, wire);
    if wire == [] {
      EmptyWire(cfg);
      NothingIsTidy(cfg, i);
    } else {
      var front, e := wire[..|wire| - 1], wire[|wire| - 1];
      assert wire == front + [e] && e in wire;
      assert forall x :: x in front ==> x in wire;
      WireIsTidy(cfg, front, i);
      LastFrame(cfg, front, e);
      var m := AfterAll(Packets(cfg, front));
      FrameIsTidy(cfg, e, m, i);
      ClosedStops(front, e, i);
      ExtendTidy(cfg, front, e, i, WireAtoms(Packets(cfg, front)), Late(m) + PacketAtoms(PacketOf(cfg[e.who], e.body)));
    }
  }

  lemma NothingIsTidy(cfg: seq<Peer>, i: nat)
    requires i < |cfg|
    ensures Tidy(cfg, [], i, [])
  {
  }

  lemma ClosedStops(front: seq<Sent>, e: Sent, i: nat)
    requires CloseIsLast(front + [e])
    ensures Closed(front, i) ==> e.who != i
  {
    if Closed(front, i) {
      var c :| c in front && c.who == i && c.body == Close(true);
      var a :| 0 <= a < |front| && front[a] == c;
      assert (front + [e])[a] == c && (front + [e])[|front|] == e;
    }
  }

  lemma ExtendTidy(cfg: seq<Peer>, front: seq<Sent>, e: Sent, i: nat, w: seq<Atom>, x: seq<Atom>)
    requires i < |cfg| && Tidy(cfg, front, i, w)
    requires Closed(front, i) ==> e.who != i
    requires forall k :: 0 <= k < |x| && e.who != i ==> x[k].src != SrcOf(cfg, i)
    requires forall k :: 0 <= k < |x| && IsEnd(SrcOf(cfg, i), x[k]) ==>
               e.who == i && e.body == Close(true) && k == |x| - 1
    requires forall k :: 0 <= k < |x| && x[k].src == SrcOf(cfg, i) ==>
               x[k].dst == WireDst(DataDst(cfg[i])) || (x[k].Empty? && x[k].dst == WireDst(CloseDst(true)))
    ensures Tidy(cfg, front + [e], i, w + x)
  {
    hide IsEnd, SrcOf, Closed;
    ClosedGrows(front, e, i);
    var all := w + x;
    assert forall k :: 0 <= k < |all| ==> all[k] == if k < |w| then w[k] else x[k - |w|];
    forall k, l | 0 <= k < l < |all| && IsEnd(SrcOf(cfg, i), all[k])
      ensures all[l].src != SrcOf(cfg, i)
    {
      if k < |w| <= l { assert all[k] == w[k] && all[l] == x[l - |w|]; }
    }
    forall k | 0 <= k < |all| && IsEnd(SrcOf(cfg, i), all[k])
      ensures Closed(front + [e], i)
    {
      if k >= |w| { assert all[k] == x[k - |w|]; } else { assert all[k] == w[k]; }
    }
    forall k | 0 <= k < |all| && all[k].src == SrcOf(cfg, i)
      ensures all[k].dst == WireDst(DataDst(cfg[i])) || (all[k].Empty? && all[k].dst == WireDst(CloseDst(true)))
    {
      if k >= |w| { assert all[k] == x[k - |w|]; } else { assert all[k] == w[k]; }
    }
  }

  lemma ClosedGrows(front: seq<Sent>, e: Sent, i: nat)
    ensures Closed(front, i) ==> Closed(front + [e], i)
    ensures e.who == i && e.body == Close(true) ==> Closed(front + [e], i)
  {
    if Closed(front, i) {
      var c :| c in front && c.who == i && c.body == Close(true);
      assert c in front + [e];
    }
    assert e in front + [e];
  }

  predicate HasEnd(src: Addr, atoms: seq<Atom>) {
    exists k :: 0 <= k < |atoms| && IsEnd(src, atoms[k])
  }

  /** An "end" frame is reported. */
  lemma {:induction false} EndIsReported(cfg: seq<Peer>, wire: seq<Sent>, i: nat)
    requires CfgOk(cfg) && WireOk(cfg, wire) && i < |cfg|
    ensures AllSendable(Packets(cfg, wire))
    ensures Closed(wire, i) ==> HasEnd(SrcOf(cfg, i), WireAtoms(Packets(cfg, wire)))
    decreases |wire|
  {
    hide WireAtoms, PacketAtoms, Late, AfterAll, AllSendable, Packets, CfgOk, SrcOf, IsEnd, HasEnd;
    PacketsSendable(cfg, wire);
    if Closed(wire, i) {
      var front, e := wire[..|wire| - 1], wire[|wire| - 1];
      assert wire == front + [e] && e in wire;
      assert forall x :: x in front ==> x in wire;
      EndIsReported(cfg, front, i);
      LastFrame(cfg, front, e);
      var own := PacketAtoms(PacketOf(cfg[e.who], e.body));
      var rest := Late(AfterAll(Packets(cfg, front))) + own;
      if e.who == i && e.body == Close(true) { CloseReportsEnd(cfg, i); }
      HasEndAppend(SrcOf(cfg, i), Late(AfterAll(Packets(cfg, front))), own);
      HasEndAppend(SrcOf(cfg, i), WireAtoms(Packets(cfg, front)), rest);
    }
  }

  lemma CloseReportsEnd(cfg: seq<Peer>, i: nat)
    requires i < |cfg|
    ensures HasEnd(SrcOf(cfg, i), PacketAtoms(PacketOf(cfg[i], Close(true))))
  {
    assert IsEnd(SrcOf(cfg, i), PacketAtoms(PacketOf(cfg[i], Close(true)))[0]);
  }

  lemma HasEndAppend(src: Addr, a: seq<Atom>, b: seq<Atom>)
    ensures HasEnd(src, a) || HasEnd(src, b) ==> HasEnd(src, a + b)
  {
    if k :| 0 <= k < |a| && IsEnd(src, a[k]) { assert (a + b)[k] == a[k]; }
    if k :| 0 <= k < |b| && IsEnd(src, b[k]) { assert (a + b)[|a| + k] == b[k]; }
  }

  // ---------- the theorems ----------

  /** What the far end has been given for client i, in a reachable state. */
  predicate FaithfulTo(cfg: seq<Peer>, s: State, i: nat)
    requires i < |cfg| && |s.clients| == |cfg|
  {
    var src, atoms := SrcOf(cfg, i), Atoms(s.routed);
    // never a byte lost, added, reordered or taken from another client
    && DataOf(src, atoms) <= s.clients[i].read
    // an "end" means everything has been delivered, and nothing follows it
    && (forall k :: 0 <= k < |atoms| && IsEnd(src, atoms[k]) ==> DataOf(src, atoms) == s.clients[i].read)
    && (forall k, l :: 0 <= k < l < |atoms| && IsEnd(src, atoms[k]) ==> atoms[l].src != src)
    // and every byte is labelled with the client's own destination
    && (forall k :: 0 <= k < |atoms| && atoms[k].src == src ==>
          atoms[k].dst == WireDst(DataDst(cfg[i])) || (atoms[k].Empty? && atoms[k].dst == WireDst(CloseDst(true))))
  }

  lemma ClosedMeansSent(c: Client, i: nat, wire: seq<Sent>)
    requires ClientInv(c, i, wire)
    ensures SentBytes(wire, i) <= c.read
    ensures (exists e :: e in wire && e.who == i && e.body.Close?) ==> c.read == SentBytes(wire, i)
  {
    hide SentBytes;
  }

  lemma InvIsFaithful(cfg: seq<Peer>, s: State, i: nat)
    requires CfgOk(cfg) && Inv(cfg, s) && i < |cfg| && ProperSource(cfg, i)
    ensures FaithfulTo(cfg, s, i)
  {
    hide CfgOk, WireAtoms, Atoms, DataOf, IsEnd, SrcOf, Fold, WireOk, CloseIsLast, ClientInv, Packets;
    var ps := Packets(cfg, s.wire);
    var all, atoms, src := WireAtoms(ps), Atoms(s.routed), SrcOf(cfg, i);
    WireData(cfg, s.wire, i);
    WireIsTidy(cfg, s.wire, i);
    DataOfPrefix(src, atoms, all);
    ClosedMeansSent(s.clients[i], i, s.wire);
    forall k | 0 <= k < |atoms|
      ensures atoms[k] == all[k]
    {
    }
    forall k | 0 <= k < |atoms| && IsEnd(src, atoms[k])
      ensures DataOf(src, atoms) == s.clients[i].read
    {
      var later := all[|atoms|..];
      assert all == atoms + later;
      forall l | 0 <= l < |later|
        ensures later[l].src != src
      {
        assert later[l] == all[|atoms| + l];
      }
      DataOfOthers(src, later);
      DataOfAppend(src, atoms, later);
    }
  }

  /** Safety, for any number of clients, any interleaving of their readers and select loops, and any
      chunking of the tunnel: in every reachable state every client with a source of its own, whatever
      the others', has been served faithfully, and the parser has failed, if at all, only by running
      into its pass guard. Clients that share a source are the matter of Turns.dfy. */
  lemma EndToEnd(cfg: seq<Peer>, states: seq<State>, steps: seq<Step>, k: nat, i: nat)
    requires CfgOk(cfg) && IsRun(cfg, states, steps) && k < |states| && i < |cfg| && ProperSource(cfg, i)
    ensures |states[k].clients| == |cfg| && FaithfulTo(cfg, states[k], i)
    ensures states[k].clients[i].read == ReadBy(steps[..k], i)
    ensures HasEnd(SrcOf(cfg, i), Atoms(states[k].routed)) ==> EndingOf(steps[..k], i) == Ended(true)
    ensures states[k].error in {NoError, LoopPanic}
  {
    hide CfgOk, IsRun, FaithfulTo, ClientInv, Fold, WireAtoms, Packets, EndingOf, HasEnd, Closed, SrcOf, Atoms;
    ClosedByEnding(cfg, states, steps, k, i);
    FramesHaveOrigins(cfg, states, steps, k, i);
    Reachable(cfg, states, steps, k);
    InvIsFaithful(cfg, states[k], i);
    EndIsOnWire(cfg, states[k], i);
  }

  lemma EndIsOnWire(cfg: seq<Peer>, s: State, i: nat)
    requires CfgOk(cfg) && Inv(cfg, s) && i < |cfg| && ProperSource(cfg, i)
    ensures HasEnd(SrcOf(cfg, i), Atoms(s.routed)) ==> Closed(s.wire, i)
  {
    hide CfgOk, WireAtoms, Atoms, IsEnd, SrcOf, Fold, WireOk, CloseIsLast, ClientInv, Packets, Closed;
    WireIsTidy(cfg, s.wire, i);
    var all := WireAtoms(Packets(cfg, s.wire));
    if k :| 0 <= k < |Atoms(s.routed)| && IsEnd(SrcOf(cfg, i), Atoms(s.routed)[k]) {
      assert all[k] == Atoms(s.routed)[k];
    }
  }

  /** The closing frame is an "end" exactly if reading ended at the end of the stream. */
  lemma ClosedByEnding(cfg: seq<Peer>, states: seq<State>, steps: seq<Step>, k: nat, i: nat)
    requires IsRun(cfg, states, steps) && k < |states| && i < |cfg|
    ensures Closed(states[k].wire, i)
       <==> EndingOf(steps[..k], i) == Ended(true) && exists e :: e in states[k].wire && e.who == i && e.body.Close?
  {
    hide IsRun, EndingOf;
    FramesHaveOrigins(cfg, states, steps, k, i);
    var wire := states[k].wire;
    if e :| e in wire && e.who == i && e.body.Close? {
      assert e == Sent(i, Close(e.body.eof));
    }
    if Closed(wire, i) {
      var e :| e in wire && e.who == i && e.body == Close(true);
      assert e == Sent(i, Close(true));
    }
  }

  /** Completeness: once the decoder has caught up with the tunnel, it has delivered exactly what the
      clients put on it; a client that has closed has been delivered entirely; and its "end" has been
      reported exactly if it closed and reading it had ended at the end of its stream. */
  lemma CaughtUp(cfg: seq<Peer>, states: seq<State>, steps: seq<Step>, k: nat, i: nat)
    requires CfgOk(cfg) && IsRun(cfg, states, steps) && k < |states| && i < |cfg| && ProperSource(cfg, i)
    requires WireOk(cfg, states[k].wire)
    requires states[k].error == NoError && states[k].pos == |WireBytes(cfg, states[k].wire)|
    ensures |states[k].clients| == |cfg|
    ensures DataOf(SrcOf(cfg, i), Atoms(states[k].routed)) == SentBytes(states[k].wire, i)
    ensures (exists e :: e in states[k].wire && e.who == i && e.body.Close?) ==>
              DataOf(SrcOf(cfg, i), Atoms(states[k].routed)) == states[k].clients[i].read
    ensures HasEnd(SrcOf(cfg, i), Atoms(states[k].routed)) <==> Closed(states[k].wire, i)
    ensures HasEnd(SrcOf(cfg, i), Atoms(states[k].routed))
       <==> EndingOf(steps[..k], i) == Ended(true) && exists e :: e in states[k].wire && e.who == i && e.body.Close?
  {
    ClosedByEnding(cfg, states, steps, k, i);
    hide IsEnd, SrcOf;
    hide CfgOk, IsRun, ClientInv, Fold, WireAtoms, Packets, DataOf, Atoms, SentBytes, AfterAll;
    Reachable(cfg, states, steps, k);
    var s := states[k];
    var ps := Packets(cfg, s.wire);
    assert Bytes(ps)[..s.pos] == Bytes(ps);
    FoldWire(ps);
    WireData(cfg, s.wire, i);
    ClosedMeansSent(s.clients[i], i, s.wire);
    WireIsTidy(cfg, s.wire, i);
    EndIsReported(cfg, s.wire, i);
  }

  lemma CutBytes(ps: seq<Packet>, k: nat)
    requires k < |ps|
    ensures Bytes(ps) == Bytes(ps[..k]) + (Encoded(ps[k]) + Bytes(ps[k + 1..]))
    ensures Bytes(ps[..k + 1]) == Bytes(ps[..k]) + Encoded(ps[k])
  {
    hide Encoded;
    assert ps == ps[..k] + ps[k..];
    assert ps[k..][1..] == ps[k + 1..];
    BytesAppend(ps[..k], ps[k..]);
    assert ps[..k + 1] == ps[..k] + [ps[k]];
    BytesSnoc(ps[..k], ps[k]);
  }

  lemma WebsocketReadIsFine(cfg: seq<Peer>, s: State)
    requires CfgOk(cfg) && WireOk(cfg, s.wire) && ParserInv(cfg, s)
    requires Enabled(cfg, s, ParseChunk) && InOneMessage(cfg, s.wire, s.pos, s.taken)
    ensures Apply(cfg, s, ParseChunk).error == NoError
  {
    hide CfgOk, Fold, WireAtoms, Packets, Bytes, Encoded, Sendable, WriteOutcome, AfterAll, Atoms, Sound, Pending;
    var ps, n := Packets(cfg, s.wire), s.taken - s.pos;
    var k :| 0 <= k < |ps| && |Bytes(ps[..k])| <= s.pos && s.taken <= |Bytes(ps[..k + 1])|;
    CutBytes(ps, k);
    var before, frame, after := Bytes(ps[..k]), Encoded(ps[k]), Bytes(ps[k + 1..]);
    var j := s.pos - |before|;
    var a, c, d := frame[..j], frame[j..j + n], frame[j + n..];
    assert frame == a + (c + d);
    assert Bytes(ps)[..s.pos] == before + a;
    assert Bytes(ps)[s.pos..s.taken] == c;
    FoldWire(ps[..k]);
    AfterAllAtBoundary(ps[..k]);
    FoldAppend(START, before, a);
    OnePacket(ps[k]);
    GuardUnreachable(AfterAll(ps[..k]), [ps[k]], a, c, d);
  }

  lemma OnePacket(p: Packet)
    ensures Bytes([p]) == Encoded(p)
  {
    hide Encoded;
    assert |[p][1..]| == 0;
    assert Bytes([p]) == Encoded(p) + [];
  }

  /** The chunk on offer, if any, came from one message. */
  ghost predicate OfferInv(cfg: seq<Peer>, s: State)
    requires WireOk(cfg, s.wire)
  { s.pos < s.taken ==> InOneMessage(cfg, s.wire, s.pos, s.taken) }

  lemma MoreFrames(cfg: seq<Peer>, s: State, t: State, e: Sent)
    requires WireOk(cfg, s.wire) && e.who < |cfg| && BodyOk(e.body) && OfferInv(cfg, s)
    requires t.wire == s.wire + [e] && t.pos == s.pos && t.taken == s.taken
    ensures WireOk(cfg, t.wire) && OfferInv(cfg, t)
  {
    hide Packets, Bytes, PacketOf, BodyOk, WireOk;
    PacketsSnoc(cfg, s.wire, e);
    if s.pos < s.taken {
      var ps := Packets(cfg, s.wire);
      var k :| 0 <= k < |ps| && |Bytes(ps[..k])| <= s.pos && s.taken <= |Bytes(ps[..k + 1])|;
      var ps' := Packets(cfg, t.wire);
      assert ps'[..k] == ps[..k] && ps'[..k + 1] == ps[..k + 1];
    }
  }

  /** Over a websocket the parser never fails at all: no schedule makes it panic or return an error. */
  lemma {:induction false} WebsocketNeverFails(cfg: seq<Peer>, states: seq<State>, steps: seq<Step>, k: nat)
    requires CfgOk(cfg) && IsWebsocketRun(cfg, states, steps) && k < |states|
    ensures WireOk(cfg, states[k].wire) && OfferInv(cfg, states[k])
    ensures states[k].error == NoError
  {
    hide CfgOk, ParserInv, InOneMessage, PacketOf, WriteOutcome, ClientInv, CloseIsLast, Packets, Bytes;
    Reachable(cfg, states, steps, k);
    if k > 0 {
      WebsocketNeverFails(cfg, states, steps, k - 1);
      var s := states[k - 1];
      Reachable(cfg, states, steps, k - 1);
      match steps[k - 1]
      case ParseChunk => WebsocketReadIsFine(cfg, s);
      case WriteFrame(i) =>
        SenderIsOpen(s.clients[i], i, s.wire);
        MoreFrames(cfg, s, states[k], Sent(i, s.clients[i].sender.body));
      case _ =>
    }
  }
}
