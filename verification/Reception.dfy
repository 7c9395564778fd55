/** The whole way: from the bytes read at a client to the pipe the listener announces for it. */
module Reception {
  import opened Text
  import opened Addrs
  import opened Header
  import opened ParserModel
  import opened Chunking
  import opened Frames
  import opened Multiplex
  import opened Delivery
  import opened Demux

  /** Two more demands on the clients, so that the listener's string keys keep them apart and no
      client's scheme reads as an error message. */
  predicate KeysOk(cfg: seq<Peer>) {
    forall i :: 0 <= i < |cfg| ==> PLUS !in cfg[i].src.family && cfg[i].src.scheme != ERROR
  }

  function KeyOf(cfg: seq<Peer>, i: nat): bytes
    requires i < |cfg|
  { SrcOf(cfg, i).String() }

  // ---------- from atoms to routes ----------

  lemma AtomsAt(trace: seq<Route>, n: nat)
    requires n < |trace|
    ensures Atoms(trace) == Atoms(trace[..n]) + (RouteAtoms(trace[n]) + Atoms(trace[n + 1..]))
  {
    assert trace == trace[..n] + trace[n..] && trace[n..][1..] == trace[n + 1..];
    AtomsAppend(trace[..n], trace[n..]);
  }

  /** The first atom of a route. */
  lemma FirstAtom(trace: seq<Route>, n: nat) returns (j: nat)
    requires n < |trace|
    ensures j == |Atoms(trace[..n])| && j < |Atoms(trace)|
    ensures var a, r := Atoms(trace)[j], trace[n];
            a.src == r.src && a.dst == r.dst && (a.Empty? <==> r.payload == [])
  {
    AtomsAt(trace, n);
    j := |Atoms(trace[..n])|;
  }

  lemma AtomsInOrder(trace: seq<Route>, n: nat, n': nat)
    requires n < n' < |trace|
    ensures |Atoms(trace[..n])| < |Atoms(trace[..n'])|
  {
    assert trace[..n'][..n] == trace[..n] && trace[..n'][n] == trace[n];
    AtomsAt(trace[..n'], n);
  }

  // ---------- a source that closes once ----------

  /** Within the trace the key belongs to the source alone, nothing reports an error for it, and
      nothing follows its end. */
  predicate ClosesOnce(trace: seq<Route>, src: Addr) {
    && (forall n :: 0 <= n < |trace| ==> (Key(trace[n]) == src.String() <==> trace[n].src == src))
    && (forall n :: 0 <= n < |trace| && trace[n].src == src ==> trace[n].dst.scheme != ERROR)
    && (forall n, n' :: 0 <= n < n' < |trace| && trace[n].src == src && Closing(trace[n]) ==> trace[n'].src != src)
  }

  predicate HasClosed(trace: seq<Route>, src: Addr) {
    exists n :: 0 <= n < |trace| && trace[n].src == src && Closing(trace[n])
  }

  lemma {:induction false} OneSession(trace: seq<Route>, src: Addr)
    requires ClosesOnce(trace, src)
    ensures var key := src.String();
            && Openings(trace, key) <= 1
            && DataFor(trace, key) == DataOf(src, Atoms(trace))
            && (Openings(trace, key) == 0 ==> !Live(trace, key) && !HasClosed(trace, src))
            && (Openings(trace, key) == 1 ==> (Live(trace, key) <==> !HasClosed(trace, src)))
    decreases |trace|
  {
    hide Addr.String, Closing, Atoms, DataOf, DataFor;
    AllData(trace, src);
    if trace != [] {
      var front, r := trace[..|trace| - 1], trace[|trace| - 1];
      ClosesOnceBefore(trace, src);
      OneSession(front, src);
      if HasClosed(front, src) {
        var n :| 0 <= n < |front| && front[n].src == src && Closing(front[n]);
        assert trace[n] == front[n];
        assert r.src != src;
      }
      assert r.src == src && Closing(r) ==> HasClosed(trace, src) by { assert trace[|trace| - 1] == r; }
      assert HasClosed(trace, src) ==> HasClosed(front, src) || (r.src == src && Closing(r));
    }
  }

  lemma ClosesOnceBefore(trace: seq<Route>, src: Addr)
    requires ClosesOnce(trace, src) && trace != []
    ensures var front, r := trace[..|trace| - 1], trace[|trace| - 1];
            && ClosesOnce(front, src) && (Key(r) == src.String() <==> r.src == src)
            && (r.src == src ==> r.dst.scheme != ERROR)
  {
    hide Addr.String, Closing, Key;
    assert forall n :: 0 <= n < |trace| - 1 ==> trace[..|trace| - 1][n] == trace[n];
  }

  /** Nothing routed to the source is lost to an error. */
  lemma {:induction false} AllData(trace: seq<Route>, src: Addr)
    requires ClosesOnce(trace, src)
    ensures DataFor(trace, src.String()) == DataOf(src, Atoms(trace))
    decreases |trace|
  {
    hide Addr.String, Closing, Atoms, DataOf, RouteAtoms, ClosesOnce, Key, DataFor;
    if trace == [] {
      NothingRouted(src);
    } else {
      var front, r := trace[..|trace| - 1], trace[|trace| - 1];
      ClosesOnceBefore(trace, src);
      AllData(front, src);
      LastData(front, r, src);
      assert trace == front + [r];
    }
  }

  lemma NothingRouted(src: Addr)
    ensures DataFor([], src.String()) == [] && DataOf(src, Atoms([])) == []
  {
  }

  lemma LastData(front: seq<Route>, r: Route, src: Addr)
    requires Key(r) == src.String() <==> r.src == src
    requires r.src == src ==> r.dst.scheme != ERROR
    ensures DataFor(front + [r], src.String())
         == DataFor(front, src.String()) + if r.src == src then r.payload else []
    ensures DataOf(src, Atoms(front + [r]))
         == DataOf(src, Atoms(front)) + if r.src == src then r.payload else []
  {
    hide Addr.String, Atoms, DataOf, RouteAtoms, Key;
    assert (front + [r])[..|front|] == front;
    AtomsAppend(front, [r]);
    AtomsOfOne(r);
    DataOfAppend(src, Atoms(front), RouteAtoms(r));
    RouteData(r, src);
  }

  lemma RouteData(r: Route, src: Addr)
    ensures DataOf(src, RouteAtoms(r)) == if r.src == src then r.payload else []
  {
    if r.payload != [] { DataOfPayload(src, r.src, r.dst, r.offset, r.payload); }
  }

  // ---------- the trace of a run ----------

  /** Every atom names a client, or is the late report of an empty frame. */
  predicate Known(cfg: seq<Peer>, a: Atom) {
    a == Empty(NO_ADDR, NO_ADDR) || exists j :: 0 <= j < |cfg| && a.src == SrcOf(cfg, j)
  }

  lemma {:induction false} WireSources(cfg: seq<Peer>, wire: seq<Sent>)
    requires CfgOk(cfg) && WireOk(cfg, wire)
    ensures AllSendable(Packets(cfg, wire))
    ensures forall k :: 0 <= k < |WireAtoms(Packets(cfg, wire))| ==> Known(cfg, WireAtoms(Packets(cfg, wire))[k])
    decreases |wire|
  {
    hide WireAtoms, PacketAtoms, Late, AfterAll, AllSendable, Packets, CfgOk, Known;
    PacketsSendable(cfg, wire);
    if wire == [] {
      EmptyWire(cfg);
    } else {
      var front, e := wire[..|wire| - 1], wire[|wire| - 1];
      assert wire == front + [e] && e in wire;
      assert forall x :: x in front ==> x in wire;
      WireSources(cfg, front);
      LastFrame(cfg, front, e);
      FrameSources(cfg, e, AfterAll(Packets(cfg, front)));
    }
  }

  lemma FrameSources(cfg: seq<Peer>, e: Sent, m: Machine)
    requires e.who < |cfg|
    ensures var x := Late(m) + PacketAtoms(PacketOf(cfg[e.who], e.body));
            forall k :: 0 <= k < |x| ==> Known(cfg, x[k])
  {
    var x := Late(m) + PacketAtoms(PacketOf(cfg[e.who], e.body));
    forall k | 0 <= k < |x|
      ensures Known(cfg, x[k])
    {
      if x[k].src == SrcOf(cfg, e.who) { assert 0 <= e.who < |cfg|; }
    }
  }

  /** Among the sources of a run, keys are as good as addresses. */
  lemma KeysDiffer(cfg: seq<Peer>, a: Atom, b: Atom)
    requires CfgOk(cfg) && KeysOk(cfg) && Known(cfg, a) && Known(cfg, b)
    ensures a.src.String() == b.src.String() <==> a.src == b.src
  {
    hide Addr.String, LeadingSpace, Itoa;
    SourceIsPlain(cfg, a);
    SourceIsPlain(cfg, b);
    StringInjective(a.src, b.src);
  }

  lemma SourceIsPlain(cfg: seq<Peer>, a: Atom)
    requires CfgOk(cfg) && KeysOk(cfg) && Known(cfg, a)
    ensures PLUS !in a.src.family && a.src.scheme == [] && a.src.termination == [] && IsInt64(a.src.port)
  {
    hide LeadingSpace, Itoa;
    if a.src != NO_ADDR {
      var j :| 0 <= j < |cfg| && a.src == SrcOf(cfg, j);
      assert PeerOk(cfg[j]) && PLUS !in cfg[j].src.family;
    }
  }

  lemma KnownSource(cfg: seq<Peer>, i: nat)
    requires i < |cfg|
    ensures Known(cfg, Empty(SrcOf(cfg, i), NO_ADDR)) && Known(cfg, Empty(NO_ADDR, NO_ADDR))
  {
  }

  lemma RunClosesOnce(cfg: seq<Peer>, s: State, i: nat)
    requires CfgOk(cfg) && KeysOk(cfg) && Inv(cfg, s) && i < |cfg| && ProperSource(cfg, i)
    ensures ClosesOnce(s.routed, SrcOf(cfg, i))
  {
    hide WireAtoms, Atoms, Packets, Fold, CfgOk, KeysOk, Addr.String, WireOk, CloseIsLast, ClientInv, Known, SrcOf;
    var all, src, trace := WireAtoms(Packets(cfg, s.wire)), SrcOf(cfg, i), s.routed;
    WireIsTidy(cfg, s.wire, i);
    WireSources(cfg, s.wire);
    KnownSource(cfg, i);
    ClientSchemes(cfg, i);
    forall n | 0 <= n < |trace|
      ensures Key(trace[n]) == src.String() <==> trace[n].src == src
      ensures trace[n].src == src ==> trace[n].dst.scheme != ERROR
      ensures trace[n].src == src && Closing(trace[n]) ==>
                |Atoms(trace[..n])| < |all| && IsEnd(src, all[|Atoms(trace[..n])|])
    {
      var j := FirstAtom(trace, n);
      assert all[j] == Atoms(trace)[j];
      KeysDiffer(cfg, all[j], Empty(src, NO_ADDR));
    }
    forall n, n' | 0 <= n < n' < |trace| && trace[n].src == src && Closing(trace[n])
      ensures trace[n'].src != src
    {
      AtomsInOrder(trace, n, n');
      var j := FirstAtom(trace, n);
      var j' := FirstAtom(trace, n');
      assert all[j] == Atoms(trace)[j] && all[j'] == Atoms(trace)[j'];
    }
  }

  lemma ClientSchemes(cfg: seq<Peer>, i: nat)
    requires CfgOk(cfg) && KeysOk(cfg) && i < |cfg|
    ensures DataDst(cfg[i]).scheme != END && DataDst(cfg[i]).scheme != ERROR
    ensures CloseDst(true).scheme == END && END != ERROR
  {
    hide LeadingSpace, Itoa;
    assert |END| == 3 && |ERROR| == 5;
    assert PeerOk(cfg[i]);
  }

  /** What the listener holds for a client, in any state of any run: at most one pipe is ever created
      for it; what has been written to that pipe is a prefix of what the client sent; and once the
      pipe is closed it is all of it. */
  lemma PipeOfClient(cfg: seq<Peer>, states: seq<State>, steps: seq<Step>, k: nat, i: nat)
    requires CfgOk(cfg) && KeysOk(cfg) && IsRun(cfg, states, steps) && k < |states|
    requires i < |cfg| && ProperSource(cfg, i)
    ensures |states[k].clients| == |cfg|
    ensures var ss, key, sent := Sessions(states[k].routed), KeyOf(cfg, i), states[k].clients[i].read;
            && KeyCount(ss, key) <= 1
            && KeyData(ss, key) <= sent
            && (KeyCount(ss, key) == 1 && FindOpen(ss, key) == |ss| ==> KeyData(ss, key) == sent)
  {
    hide CfgOk, KeysOk, IsRun, Sessions, KeyCount, KeyData, FindOpen, Inv, Atoms, DataOf, Addr.String;
    hide SrcOf, IsEnd, Openings, DataFor, Live;
    var s, src, key := states[k], SrcOf(cfg, i), KeyOf(cfg, i);
    Reachable(cfg, states, steps, k);
    EndToEnd(cfg, states, steps, k, i);
    RunClosesOnce(cfg, s, i);
    OneSession(s.routed, src);
    DemuxExact(s.routed, key);
    if KeyCount(Sessions(s.routed), key) == 1 && FindOpen(Sessions(s.routed), key) == |Sessions(s.routed)| {
      var n :| 0 <= n < |s.routed| && s.routed[n].src == src && Closing(s.routed[n]);
      ClientSchemes(cfg, i);
      ClosedIsEnd(cfg, s, i, n);
    }
  }

  lemma ClosedIsEnd(cfg: seq<Peer>, s: State, i: nat, n: nat)
    requires i < |cfg| && ClosesOnce(s.routed, SrcOf(cfg, i))
    requires n < |s.routed| && s.routed[n].src == SrcOf(cfg, i) && Closing(s.routed[n])
    requires forall j :: 0 <= j < |Atoms(s.routed)|
                         && Atoms(s.routed)[j].src == SrcOf(cfg, i) && Atoms(s.routed)[j].dst.scheme == END ==>
               Atoms(s.routed)[j].Empty?
    ensures exists j :: 0 <= j < |Atoms(s.routed)| && IsEnd(SrcOf(cfg, i), Atoms(s.routed)[j])
  {
    hide Atoms, SrcOf, Addr.String;
    var j := FirstAtom(s.routed, n);
    assert IsEnd(SrcOf(cfg, i), Atoms(s.routed)[j]);
  }

  // ---------- connections nobody made ----------

  predicate ReportsNobody(atoms: seq<Atom>) {
    exists k :: 0 <= k < |atoms| && atoms[k].src == NO_ADDR
  }

  predicate EmptyThenMore(ps: seq<Packet>) {
    exists k :: 0 <= k < |ps| - 1 && ps[k].payload == []
  }

  lemma ReportsNobodyAppend(a: seq<Atom>, b: seq<Atom>)
    ensures ReportsNobody(a + b) <==> ReportsNobody(a) || ReportsNobody(b)
  {
    if k :| 0 <= k < |a| && a[k].src == NO_ADDR { assert (a + b)[k] == a[k]; }
    if k :| 0 <= k < |b| && b[k].src == NO_ADDR { assert (a + b)[|a| + k] == b[k]; }
    if k :| 0 <= k < |a + b| && (a + b)[k].src == NO_ADDR {
      assert if k < |a| then a[k].src == NO_ADDR else b[k - |a|].src == NO_ADDR;
    }
  }

  lemma EmptyThenMoreSnoc(ps: seq<Packet>, p: Packet)
    ensures EmptyThenMore(ps + [p]) <==> EmptyThenMore(ps) || (ps != [] && ps[|ps| - 1].payload == [])
  {
    if k :| 0 <= k < |ps| - 1 && ps[k].payload == [] { assert (ps + [p])[k] == ps[k]; }
    if ps != [] { assert (ps + [p])[|ps| - 1] == ps[|ps| - 1]; }
  }

  /** The parser reports the zero addresses exactly when an empty frame has been followed by another
      frame. */
  lemma {:induction false} PhantomReport(ps: seq<Packet>)
    requires AllSendable(ps) && forall p :: p in ps ==> WireSrc(p.src) != NO_ADDR
    ensures ReportsNobody(WireAtoms(ps)) <==> EmptyThenMore(ps)
    decreases |ps|
  {
    hide Sendable, Loaded, ReportsNobody, EmptyThenMore, PacketAtoms, Late, AfterAll;
    if ps == [] {
      NobodyAtFirst();
    } else {
      var n := |ps| - 1;
      var front, p := ps[..n], ps[n];
      assert p in ps && forall q :: q in front ==> q in ps;
      assert ps == front + [p];
      PhantomReport(front);
      EmptyThenMoreSnoc(front, p);
      ReportsNobodyAppend(WireAtoms(front), Late(AfterAll(front)) + PacketAtoms(p));
      ReportsNobodyAppend(Late(AfterAll(front)), PacketAtoms(p));
      LateIffEmpty(front);
      OwnAtoms(p);
      NobodyAtFirst();
    }
  }

  lemma NobodyAtFirst()
    ensures !ReportsNobody([]) && !EmptyThenMore([]) && ReportsNobody([Empty(NO_ADDR, NO_ADDR)])
  {
    assert [Empty(NO_ADDR, NO_ADDR)][0].src == NO_ADDR;
  }

  lemma OwnAtoms(p: Packet)
    requires WireSrc(p.src) != NO_ADDR
    ensures !ReportsNobody(PacketAtoms(p))
  {
  }

  lemma LateIffEmpty(ps: seq<Packet>)
    requires AllSendable(ps)
    ensures Late(AfterAll(ps)) == if ps != [] && ps[|ps| - 1].payload == [] then [Empty(NO_ADDR, NO_ADDR)] else []
  {
    if ps != [] { DoneAtBoundary(ps[|ps| - 1]); }
  }

  // ---------- ... and the pipe they get ----------

  predicate NobodyRouted(trace: seq<Route>) {
    exists n :: 0 <= n < |trace| && trace[n].src == NO_ADDR
  }

  lemma {:induction false} NobodyInAtoms(trace: seq<Route>)
    ensures ReportsNobody(Atoms(trace)) <==> NobodyRouted(trace)
    decreases |trace|
  {
    hide ReportsNobody, NobodyRouted;
    if trace == [] {
      NobodyAtFirst();
      NobodySnoc([], Route(Addr([0], [], [], [], 0), NO_ADDR, [], 0));
    } else {
      var front, r := trace[..|trace| - 1], trace[|trace| - 1];
      assert trace == front + [r];
      NobodyInAtoms(front);
      AtomsAppend(front, [r]);
      AtomsOfOne(r);
      ReportsNobodyAppend(Atoms(front), RouteAtoms(r));
      NobodySnoc(front, r);
      NobodyInRoute(r);
    }
  }

  lemma NobodySnoc(trace: seq<Route>, r: Route)
    ensures NobodyRouted(trace + [r]) <==> NobodyRouted(trace) || r.src == NO_ADDR
    ensures !NobodyRouted([])
  {
    if n :| 0 <= n < |trace| && trace[n].src == NO_ADDR { assert (trace + [r])[n] == trace[n]; }
    assert (trace + [r])[|trace|] == r;
  }

  lemma NobodyInRoute(r: Route)
    ensures ReportsNobody(RouteAtoms(r)) <==> r.src == NO_ADDR
  {
    assert RouteAtoms(r)[0].src == r.src;
  }

  /** A key comes to life as soon as it occurs. */
  lemma {:induction false} OpenedOnceSeen(trace: seq<Route>, key: bytes)
    ensures Openings(trace, key) >= 1 <==> exists n :: 0 <= n < |trace| && Key(trace[n]) == key
    ensures Live(trace, key) ==> Openings(trace, key) >= 1
    decreases |trace|
  {
    hide Key, Closing;
    if trace != [] {
      var front, r := trace[..|trace| - 1], trace[|trace| - 1];
      OpenedOnceSeen(front, key);
      assert forall n :: 0 <= n < |front| ==> front[n] == trace[n];
      if n :| 0 <= n < |front| && Key(front[n]) == key { assert Key(trace[n]) == key; }
    }
  }

  lemma {:induction false} NoBytesNoData(src: Addr, atoms: seq<Atom>)
    requires forall k :: 0 <= k < |atoms| && atoms[k].src == src ==> atoms[k].Empty?
    ensures DataOf(src, atoms) == []
  {
    if atoms != [] { NoBytesNoData(src, atoms[1..]); }
  }

  /** No client has the zero address; those that the relay builds do not. */
  predicate Somebodies(cfg: seq<Peer>) { forall i :: 0 <= i < |cfg| ==> SrcOf(cfg, i) != NO_ADDR }

  lemma NobodyNeverCloses(cfg: seq<Peer>, s: State)
    requires CfgOk(cfg) && KeysOk(cfg) && Inv(cfg, s) && Somebodies(cfg)
    ensures ClosesOnce(s.routed, NO_ADDR) && !HasClosed(s.routed, NO_ADDR)
    ensures DataOf(NO_ADDR, Atoms(s.routed)) == []
  {
    hide WireAtoms, Atoms, Packets, Fold, CfgOk, KeysOk, Addr.String, WireOk, CloseIsLast, ClientInv;
    hide SrcOf, AllSendable;
    var all, trace := WireAtoms(Packets(cfg, s.wire)), s.routed;
    WireSources(cfg, s.wire);
    forall k | 0 <= k < |Atoms(trace)|
      ensures Atoms(trace)[k] == all[k] && (all[k].src == NO_ADDR ==> all[k] == Empty(NO_ADDR, NO_ADDR))
    {
      assert Known(cfg, all[k]);
      if all[k].src == NO_ADDR { NobodyIsNoClient(cfg, all[k]); }
    }
    NoBytesNoData(NO_ADDR, Atoms(trace));
    forall n | 0 <= n < |trace|
      ensures Key(trace[n]) == NO_ADDR.String() <==> trace[n].src == NO_ADDR
      ensures trace[n].src == NO_ADDR ==> !Closing(trace[n])
    {
      var j := FirstAtom(trace, n);
      assert Known(cfg, all[j]);
      KeysDiffer(cfg, all[j], Empty(NO_ADDR, NO_ADDR));
    }
  }

  lemma NobodyIsNoClient(cfg: seq<Peer>, a: Atom)
    requires Somebodies(cfg) && Known(cfg, a) && a.src == NO_ADDR
    ensures a == Empty(NO_ADDR, NO_ADDR)
  {
  }

  /** At the listener: in every run, the key of the zero address has one pipe as soon as the parser
      has reported nobody, and none before; the pipe is announced like any other, nothing is ever
      written to it, and it is never closed. When the decoder has caught up with the tunnel this is
      so exactly if some empty frame was followed by another frame. */
  lemma PhantomPipe(cfg: seq<Peer>, states: seq<State>, steps: seq<Step>, k: nat)
    requires CfgOk(cfg) && KeysOk(cfg) && IsRun(cfg, states, steps) && k < |states| && Somebodies(cfg)
    ensures var s, ss, key := states[k], Sessions(states[k].routed), NO_ADDR.String();
            && KeyCount(ss, key) == (if NobodyRouted(s.routed) then 1 else 0)
            && (NobodyRouted(s.routed) ==> FindOpen(ss, key) < |ss|)
            && KeyData(ss, key) == []
            && WireOk(cfg, s.wire)
            && (s.error == NoError && s.pos == |WireBytes(cfg, s.wire)| ==>
                  (NobodyRouted(s.routed) <==> EmptyThenMore(Packets(cfg, s.wire))))
  {
    hide CfgOk, KeysOk, IsRun, Sessions, KeyCount, KeyData, FindOpen, Atoms, DataOf, Addr.String, SrcOf;
    hide Openings, DataFor, Live, Closing, EmptyThenMore, ReportsNobody, Packets, Bytes, WireAtoms, Fold;
    hide ClientInv, AllSendable, AfterAll;
    var s, key := states[k], NO_ADDR.String();
    Reachable(cfg, states, steps, k);
    NobodyNeverCloses(cfg, s);
    OneSession(s.routed, NO_ADDR);
    OpenedOnceSeen(s.routed, key);
    DemuxExact(s.routed, key);
    NobodyInAtoms(s.routed);
    if s.error == NoError && s.pos == |WireBytes(cfg, s.wire)| {
      var ps := Packets(cfg, s.wire);
      assert Bytes(ps)[..s.pos] == Bytes(ps);
      FoldWire(ps);
      PacketsAreSomebodys(cfg, s.wire);
      PhantomReport(ps);
    }
  }

  lemma PacketsAreSomebodys(cfg: seq<Peer>, wire: seq<Sent>)
    requires Somebodies(cfg) && WireOk(cfg, wire)
    ensures forall p :: p in Packets(cfg, wire) ==> WireSrc(p.src) != NO_ADDR
  {
    hide PeerOk, BodyOk;
    var ps := Packets(cfg, wire);
    forall p | p in ps
      ensures WireSrc(p.src) != NO_ADDR
    {
      var k :| 0 <= k < |ps| && ps[k] == p;
      assert wire[k] in wire && SrcOf(cfg, wire[k].who) != NO_ADDR;
    }
  }
}
