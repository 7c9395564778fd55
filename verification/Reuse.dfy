/** The listener's pipes for an address that comes back: which connection's bytes go into which pipe. */
module Reuse {
  import opened Text
  import opened Addrs
  import opened Header
  import opened ParserModel
  import opened Chunking
  import opened Frames
  import opened Multiplex
  import opened Delivery
  import opened Demux
  import opened Reception
  import opened Turns

  /** A pipe of the address: what it was handed, and whether it is open. */
  datatype Part = Part(data: bytes, open: bool)

  predicate LastOpen(ps: seq<Part>) { ps != [] && ps[|ps| - 1].open }

  /** Bytes go into the open pipe, or a new one; an "end" closes it, or a new one at once. */
  function Put(ps: seq<Part>, b: bytes, open: bool): seq<Part> {
    if LastOpen(ps) then ps[|ps| - 1 := Part(ps[|ps| - 1].data + b, open)] else ps + [Part(b, open)]
  }

  function Parts(ms: seq<Mark>): seq<Part> {
    if ms == [] then []
    else
      var front := Parts(ms[..|ms| - 1]);
      match ms[|ms| - 1]
      case Octet(v) => Put(front, [v], true)
      case Over => Put(front, [], false)
  }

  lemma {:induction false} PutOctets(ms: seq<Mark>, b: bytes)
    requires b != []
    ensures Parts(ms + Octets(b)) == Put(Parts(ms), b, true)
    decreases |b|
  {
    hide Parts, Put;
    var a, v := b[..|b| - 1], b[|b| - 1];
    assert ms + Octets(b) == (ms + Octets(a)) + [Octet(v)];
    PutOctet(ms + Octets(a), v);
    if a == [] {
      assert ms + Octets(a) == ms && b == [v];
    } else {
      PutOctets(ms, a);
      PutTwice(Parts(ms), a, [v], true);
      assert a + [v] == b;
    }
  }

  lemma PutOctet(ms: seq<Mark>, v: byte)
    ensures Parts(ms + [Octet(v)]) == Put(Parts(ms), [v], true)
  {
    assert (ms + [Octet(v)])[..|ms|] == ms;
  }

  lemma PutTwice(ps: seq<Part>, a: bytes, b: bytes, open: bool)
    ensures Put(Put(ps, a, true), b, open) == Put(ps, a + b, open)
  {
    if LastOpen(ps) { assert ps[|ps| - 1].data + a + b == ps[|ps| - 1].data + (a + b); }
  }

  lemma PutOver(ms: seq<Mark>)
    ensures Parts(ms + [Over]) == Put(Parts(ms), [], false)
  {
    assert (ms + [Over])[..|ms|] == ms;
  }

  // ---------- the sessions of a key ----------

  function KeyParts(ss: seq<Session>, key: bytes): seq<Part> {
    if ss == [] then []
    else
      var s := ss[|ss| - 1];
      KeyParts(ss[..|ss| - 1], key) + if s.key == key then [Part(s.data, s.open)] else []
  }

  lemma KeyPartsSnoc(ss: seq<Session>, s: Session, key: bytes)
    ensures KeyParts(ss + [s], key) == KeyParts(ss, key) + if s.key == key then [Part(s.data, s.open)] else []
  {
    assert (ss + [s])[..|ss|] == ss;
  }

  /** The open session is the key's latest. */
  lemma {:induction false} LatestPart(ss: seq<Session>, key: bytes)
    requires LatestOpen(ss)
    ensures var k, ps := FindOpen(ss, key), KeyParts(ss, key);
            && (k < |ss| <==> LastOpen(ps))
            && (k < |ss| ==> ps[|ps| - 1] == Part(ss[k].data, true))
    decreases |ss|
  {
    hide FindOpen;
    FindSpec(ss, key);
    if ss != [] {
      var n := |ss| - 1;
      LatestPart(ss[..n], key);
      FindSpec(ss[..n], key);
      var k, j := FindOpen(ss, key), FindOpen(ss[..n], key);
      if j < n { FindUnique(ss, j); }
      if k < n { FindUnique(ss[..n], k); }
    }
  }

  lemma {:induction false} ChangePart(ss: seq<Session>, k: nat, s: Session, key: bytes)
    requires LatestOpen(ss) && k < |ss| && ss[k].open && s.key == ss[k].key
    ensures var ps := KeyParts(ss, key);
            KeyParts(ss[k := s], key)
            == if s.key == key && ps != [] then ps[|ps| - 1 := Part(s.data, s.open)] else ps
    ensures s.key == key ==> KeyParts(ss, key) != []
    decreases |ss|
  {
    var n := |ss| - 1;
    if k < n {
      assert ss[k := s][..n] == ss[..n][k := s];
      assert ss[n].key != s.key;
      ChangePart(ss[..n], k, s, key);
    } else {
      assert ss[k := s][..n] == ss[..n];
    }
  }

  lemma DeliverPart(ss: seq<Session>, r: Route, key: bytes)
    requires LatestOpen(ss)
    ensures KeyParts(Deliver(ss, r), key)
         == if Key(r) == key then Put(KeyParts(ss, key), Lands(r), !Closing(r)) else KeyParts(ss, key)
  {
    hide FindOpen, Key, Lands, Closing, LatestOpen;
    var i := FindOpen(ss, Key(r));
    FindSpec(ss, Key(r));
    LatestPart(ss, Key(r));
    var s := Session(Key(r), (if i == |ss| then [] else ss[i].data) + Lands(r), !Closing(r));
    if i == |ss| {
      assert Opened(ss, Key(r))[i := s] == ss + [s] && [] + Lands(r) == Lands(r);
      KeyPartsSnoc(ss, s, key);
    } else {
      ChangePart(ss, i, s, key);
    }
  }

  // ---------- the trace of a source ----------

  /** The key is the source's own; its events carry bytes, or are an empty "end". */
  predicate PlainRoute(src: Addr, r: Route) {
    && (Key(r) == src.String() <==> r.src == src)
    && (r.src == src ==> if r.payload == [] then r.dst.scheme == END else !Closing(r))
  }

  lemma MarksOfRoute(src: Addr, r: Route)
    requires PlainRoute(src, r)
    ensures Marks(src, RouteAtoms(r))
         == if r.src != src then [] else if r.payload == [] then [Over] else Octets(r.payload)
  {
    hide Addr.String;
    if r.payload == [] {
      var a := RouteAtoms(r);
      assert a[1..] == [];
    } else {
      MarksOfPayload(src, r.src, r.dst, r.offset, r.payload);
    }
  }

  lemma {:induction false} PartsOfTrace(trace: seq<Route>, src: Addr)
    requires forall n :: 0 <= n < |trace| ==> PlainRoute(src, trace[n])
    ensures KeyParts(Sessions(trace), src.String()) == Parts(Marks(src, Atoms(trace)))
    decreases |trace|
  {
    hide Addr.String, Atoms, Marks, Parts, Deliver, RouteAtoms, Put, LatestOpen, PlainRoute, KeyParts;
    if trace == [] {
      NoParts(src);
    } else {
      var front, r := trace[..|trace| - 1], trace[|trace| - 1];
      assert trace == front + [r] && PlainRoute(src, r);
      PartsOfTrace(front, src);
      DemuxExact(front, src.String());
      DeliverPart(Sessions(front), r, src.String());
      AtomsAppend(front, [r]);
      AtomsOfOne(r);
      MarksAppend(src, Atoms(front), RouteAtoms(r));
      PartsStep(Marks(src, Atoms(front)), r, src);
    }
  }

  lemma NoParts(src: Addr)
    ensures KeyParts(Sessions([]), src.String()) == [] && Parts(Marks(src, Atoms([]))) == []
  {
  }

  lemma PartsStep(ms: seq<Mark>, r: Route, src: Addr)
    requires PlainRoute(src, r)
    ensures Parts(ms + Marks(src, RouteAtoms(r)))
         == if Key(r) == src.String() then Put(Parts(ms), Lands(r), !Closing(r)) else Parts(ms)
  {
    hide Addr.String, Parts, Put, RouteAtoms, Marks;
    MarksOfRoute(src, r);
    if r.src != src {
      assert ms + [] == ms;
    } else if r.payload == [] {
      PutOver(ms);
    } else {
      PutOctets(ms, r.payload);
    }
  }

  /** The atoms of a source are bytes, or "end"s. */
  predicate PlainAtom(src: Addr, a: Atom) {
    a.src == src ==> (a.Empty? <==> a.dst.scheme == END) && a.dst.scheme != ERROR
  }

  predicate PlainAtoms(src: Addr, atoms: seq<Atom>) { forall k :: 0 <= k < |atoms| ==> PlainAtom(src, atoms[k]) }

  lemma PlainAppend(src: Addr, a: seq<Atom>, b: seq<Atom>)
    requires PlainAtoms(src, a) && PlainAtoms(src, b)
    ensures PlainAtoms(src, a + b)
  {
    hide PlainAtom;
  }

  lemma PlainFrame(p: Peer, body: Body, m: Machine, src: Addr)
    requires PeerOk(p) && BodyOk(body) && p.src.scheme != ERROR && src != NO_ADDR
    ensures PlainAtoms(src, Late(m) + PacketAtoms(PacketOf(p, body)))
  {
    hide LeadingSpace, Itoa;
    assert |END| == 3 && |ERROR| == 5;
  }

  lemma {:induction false} PlainWire(cfg: seq<Peer>, wire: seq<Sent>, src: Addr)
    requires CfgOk(cfg) && KeysOk(cfg) && WireOk(cfg, wire) && src != NO_ADDR
    ensures AllSendable(Packets(cfg, wire))
    ensures PlainAtoms(src, WireAtoms(Packets(cfg, wire)))
    decreases |wire|
  {
    hide WireAtoms, PacketAtoms, Late, AfterAll, AllSendable, Packets, CfgOk, PlainAtoms, PeerOk, BodyOk;
    PacketsSendable(cfg, wire);
    if wire == [] {
      EmptyWire(cfg);
      assert PlainAtoms(src, []) by { NothingPlain(src); }
    } else {
      var front, e := wire[..|wire| - 1], wire[|wire| - 1];
      assert wire == front + [e] && e in wire;
      assert forall x :: x in front ==> x in wire;
      PlainWire(cfg, front, src);
      LastFrame(cfg, front, e);
      EachOk(cfg, e.who);
      PlainFrame(cfg[e.who], e.body, AfterAll(Packets(cfg, front)), src);
      PlainAppend(src, WireAtoms(Packets(cfg, front)),
                  Late(AfterAll(Packets(cfg, front))) + PacketAtoms(PacketOf(cfg[e.who], e.body)));
    }
  }

  lemma NothingPlain(src: Addr)
    ensures PlainAtoms(src, [])
  {
  }

  lemma RunIsPlain(cfg: seq<Peer>, s: State, i: nat)
    requires CfgOk(cfg) && KeysOk(cfg) && Inv(cfg, s) && i < |cfg| && SrcOf(cfg, i) != NO_ADDR
    ensures forall n :: 0 <= n < |s.routed| ==> PlainRoute(SrcOf(cfg, i), s.routed[n])
  {
    hide WireAtoms, Atoms, Packets, CfgOk, KeysOk, Addr.String, WireOk, ClientInv, CloseIsLast, Known, SrcOf, Fold;
    var all, src := WireAtoms(Packets(cfg, s.wire)), SrcOf(cfg, i);
    WireSources(cfg, s.wire);
    PlainWire(cfg, s.wire, src);
    KnownSource(cfg, i);
    forall n | 0 <= n < |s.routed|
      ensures PlainRoute(src, s.routed[n])
    {
      var j := FirstAtom(s.routed, n);
      assert all[j] == Atoms(s.routed)[j] && PlainAtom(src, all[j]);
      KeysDiffer(cfg, all[j], Empty(src, NO_ADDR));
    }
  }

  // ---------- what a pipe is labelled with ----------

  lemma {:induction false} OpenerInTrace(trace: seq<Route>, k: nat) returns (n: nat)
    requires k < |Openers(trace)|
    ensures n < |trace| && trace[n] == Openers(trace)[k] && !Live(trace[..n], Key(trace[n]))
    decreases |trace|
  {
    hide Key;
    var front := trace[..|trace| - 1];
    if k < |Openers(front)| {
      n := OpenerInTrace(front, k);
      assert front[..n] == trace[..n];
    } else {
      n := |trace| - 1;
    }
  }

  lemma {:induction false} OpeningsGrow(trace: seq<Route>, n: nat, key: bytes)
    requires n <= |trace|
    ensures Openings(trace[..n], key) <= Openings(trace, key)
    decreases |trace|
  {
    hide Key, Live;
    if n == |trace| {
      assert trace[..n] == trace;
    } else {
      var front := trace[..|trace| - 1];
      assert front[..n] == trace[..n];
      OpeningsGrow(front, n, key);
    }
  }

  /** A key that comes to life only once does so with its first event. */
  lemma OpenerIsFirst(trace: seq<Route>, n: nat, m: nat)
    requires m < n < |trace| && !Live(trace[..n], Key(trace[n])) && Openings(trace, Key(trace[n])) <= 1
    ensures Key(trace[m]) != Key(trace[n])
  {
    hide Key, Live;
    var key := Key(trace[n]);
    assert trace[..n + 1][..n] == trace[..n];
    OpeningsGrow(trace, n + 1, key);
    OpenedOnceSeen(trace[..n], key);
    assert trace[..n][m] == trace[m];
  }

  /** The pipe of a client with a source of its own is announced with the client's destination; or, if
      the client sent nothing but an "end", with the destination of that. */
  lemma PipeCarriesTarget(cfg: seq<Peer>, states: seq<State>, steps: seq<Step>, k: nat, i: nat, p: nat)
    requires CfgOk(cfg) && KeysOk(cfg) && IsRun(cfg, states, steps) && k < |states|
    requires i < |cfg| && ProperSource(cfg, i)
    requires p < |Openers(states[k].routed)| && Openers(states[k].routed)[p].src == SrcOf(cfg, i)
    ensures var trace, opener := states[k].routed, Openers(states[k].routed)[p];
            || opener.dst == WireDst(DataDst(cfg[i]))
            || (opener.dst == WireDst(CloseDst(true)) && DataOf(SrcOf(cfg, i), Atoms(trace)) == [])
  {
    hide CfgOk, KeysOk, IsRun, Atoms, DataOf, SrcOf, Addr.String, FaithfulTo, PlainRoute, Openers, DataFor, Live;
    hide Openings, Inv, ProperSource;
    var s, src := states[k], SrcOf(cfg, i);
    Reachable(cfg, states, steps, k);
    EndToEnd(cfg, states, steps, k, i);
    RunClosesOnce(cfg, s, i);
    OneSession(s.routed, src);
    var n := OpenerInTrace(s.routed, p);
    LabelOfRoute(cfg, s, i, n);
    if s.routed[n].payload == [] {
      forall m | 0 <= m < |s.routed| && m != n
        ensures s.routed[m].src != src
      {
        if m < n { OpenerIsFirst(s.routed, n, m); }
      }
      OnlyEmpty(s.routed, src);
    }
  }

  lemma LabelOfRoute(cfg: seq<Peer>, s: State, i: nat, n: nat)
    requires CfgOk(cfg) && KeysOk(cfg) && Inv(cfg, s) && i < |cfg| && ProperSource(cfg, i)
    requires |s.clients| == |cfg| && FaithfulTo(cfg, s, i) && n < |s.routed| && s.routed[n].src == SrcOf(cfg, i)
    ensures s.routed[n].payload != [] ==> s.routed[n].dst == WireDst(DataDst(cfg[i]))
    ensures s.routed[n].payload == [] ==> s.routed[n].dst == WireDst(CloseDst(true)) && Closing(s.routed[n])
  {
    hide CfgOk, KeysOk, Atoms, DataOf, Addr.String, Inv;
    RunIsPlain(cfg, s, i);
    var j := FirstAtom(s.routed, n);
    assert PlainRoute(SrcOf(cfg, i), s.routed[n]);
    ClientSchemes(cfg, i);
  }

  lemma {:induction false} OnlyEmpty(trace: seq<Route>, src: Addr)
    requires forall m :: 0 <= m < |trace| && trace[m].src == src ==> trace[m].payload == []
    ensures DataOf(src, Atoms(trace)) == []
    decreases |trace|
  {
    hide Atoms, DataOf, RouteAtoms;
    if trace == [] {
      NothingRouted(src);
    } else {
      var front, r := trace[..|trace| - 1], trace[|trace| - 1];
      assert trace == front + [r] && forall m :: 0 <= m < |front| ==> front[m] == trace[m];
      OnlyEmpty(front, src);
      AtomsAppend(front, [r]);
      AtomsOfOne(r);
      DataOfAppend(src, Atoms(front), RouteAtoms(r));
      RouteData(r, src);
    }
  }

  // ---------- which connection's bytes go into which pipe ----------

  /** A connection that ended with an "end" has its pipe to itself; what one that ended otherwise left
      in its pipe is followed there by the bytes of the next. */
  function Groups(wire: seq<Sent>, o: seq<nat>): seq<Part> {
    if o == [] then []
    else
      var front, i := Groups(wire, o[..|o| - 1]), o[|o| - 1];
      if SentBytes(wire, i) == [] && !Closed(wire, i) then front else Put(front, SentBytes(wire, i), !Closed(wire, i))
  }

  lemma {:induction false} PartsOfShares(wire: seq<Sent>, o: seq<nat>)
    ensures Parts(Shares(wire, o)) == Groups(wire, o)
    decreases |o|
  {
    if o != [] {
      hide Parts, Put, SentBytes, Closed;
      PartsOfShares(wire, o[..|o| - 1]);
      PartsOfShare(Shares(wire, o[..|o| - 1]), wire, o[|o| - 1]);
    }
  }

  lemma PartsOfShare(ms: seq<Mark>, wire: seq<Sent>, i: nat)
    ensures Parts(ms + Share(wire, i))
         == if SentBytes(wire, i) == [] && !Closed(wire, i) then Parts(ms)
            else Put(Parts(ms), SentBytes(wire, i), !Closed(wire, i))
  {
    hide Parts, Put, SentBytes, Closed;
    var b := SentBytes(wire, i);
    assert Octets([]) == [];
    assert b == [] ==> ms + Octets(b) == ms;
    if Closed(wire, i) {
      assert ms + Share(wire, i) == (ms + Octets(b)) + [Over];
      PutOver(ms + Octets(b));
      if b != [] {
        PutOctets(ms, b);
        PutTwice(Parts(ms), b, [], false);
        assert b + [] == b;
      }
    } else {
      assert ms + Share(wire, i) == ms + Octets(b);
      if b != [] { PutOctets(ms, b); }
    }
  }

  /** If every connection before it ended with an "end", the n-th has the n-th pipe to itself. */
  lemma {:induction false} OwnPipes(wire: seq<Sent>, o: seq<nat>, n: nat)
    requires n < |o| && forall m :: 0 <= m < n ==> Closed(wire, o[m])
    requires SentBytes(wire, o[n]) != [] || Closed(wire, o[n])
    ensures Groups(wire, o[..n + 1])
         == seq(n + 1, m requires 0 <= m <= n => Part(SentBytes(wire, o[m]), !Closed(wire, o[m])))
    decreases n
  {
    hide SentBytes, Closed;
    assert o[..n + 1][..n] == o[..n];
    if n > 0 { OwnPipes(wire, o, n - 1); }
  }

  /** The pipes only grow, and one that is closed stays as it is. */
  predicate Grown(ps: seq<Part>, qs: seq<Part>) {
    && |ps| <= |qs|
    && forall m :: 0 <= m < |ps| ==> ps[m].data <= qs[m].data && (!ps[m].open ==> ps[m] == qs[m])
  }

  lemma {:induction false} PartsGrow(a: seq<Mark>, b: seq<Mark>)
    requires a <= b
    ensures Grown(Parts(a), Parts(b))
    decreases |b|
  {
    if |a| < |b| {
      PartsGrow(a, b[..|b| - 1]);
    } else {
      assert a == b;
    }
  }

  /** At the listener, in every run in which clients of one address wait for each other, in every
      schedule and chunking: the pipes of the address are, as far as the decoder has come, those that
      `Groups` lays down; when it has caught up with the tunnel they are exactly those. */
  lemma PipesOfAddress(cfg: seq<Peer>, states: seq<State>, steps: seq<Step>, k: nat, i: nat)
    requires CfgOk(cfg) && KeysOk(cfg) && IsTurnRun(cfg, states, steps) && k < |states|
    requires i < |cfg| && SrcOf(cfg, i) != NO_ADDR
    ensures WireOk(cfg, states[k].wire)
    ensures var s := states[k];
            var ps := KeyParts(Sessions(s.routed), KeyOf(cfg, i));
            var gs := Groups(s.wire, Order(cfg, s.wire, SrcOf(cfg, i)));
            Grown(ps, gs) && (s.error == NoError && s.pos == |WireBytes(cfg, s.wire)| ==> ps == gs)
  {
    hide CfgOk, KeysOk, IsTurnRun, Atoms, Marks, Shares, SrcOf, Order, WireBytes, Groups, Parts, Inv, PlainRoute;
    hide Sessions, KeyParts, Addr.String, WireOk, Grown, HasReturned, SentBytes, Closed;
    var s, src := states[k], SrcOf(cfg, i);
    TurnRunIsRun(cfg, states, steps);
    Reachable(cfg, states, steps, k);
    AddressInTurns(cfg, states, steps, k, src);
    RunIsPlain(cfg, s, i);
    PartsOfTrace(s.routed, src);
    PartsOfShares(s.wire, Order(cfg, s.wire, src));
    PartsGrow(Marks(src, Atoms(s.routed)), Shares(s.wire, Order(cfg, s.wire, src)));
  }

  /** A connection that left bytes and did not end with an "end", because reading it failed or its loop
      was cancelled: what the next one of the address sends follows in the same pipe. */
  lemma SharedPipe(wire: seq<Sent>, o: seq<nat>, n: nat) returns (pre: bytes)
    requires n + 1 < |o| && SentBytes(wire, o[n]) != [] && !Closed(wire, o[n])
    requires SentBytes(wire, o[n + 1]) != [] || Closed(wire, o[n + 1])
    ensures var gs := Groups(wire, o[..n + 2]);
            gs != [] && gs[|gs| - 1].data == pre + SentBytes(wire, o[n]) + SentBytes(wire, o[n + 1])
  {
    hide SentBytes, Closed;
    var before := Groups(wire, o[..n]);
    pre := if LastOpen(before) then before[|before| - 1].data else [];
    assert o[..n + 2][..n + 1] == o[..n + 1] && o[..n + 1][..n] == o[..n];
    assert [] + SentBytes(wire, o[n]) == SentBytes(wire, o[n]);
  }
}
