/** The relay's end of the way back: internal/telebit/table.go hands what a device sends for a client
    to the connection filed under the client's remote address. */
module Replies {
  import opened Text
  import opened Addrs
  import opened Header
  import opened ParserModel
  import opened Chunking
  import opened Frames
  import opened Multiplex
  import opened Delivery
  import opened Demux
  import opened Reception
  import opened ReturnPath

  // ---------- what a client gets, read off the trace ----------

  /** The client has been sent an "end". */
  predicate Shut(trace: seq<Route>, id: bytes) {
    trace != [] &&
    var front, last := trace[..|trace| - 1], trace[|trace| - 1];
    Shut(front, id) || (RouteId(last.src) == id && last.dst.scheme == END)
  }

  /** What it is given until then. */
  function Given(trace: seq<Route>, id: bytes): bytes {
    if trace == [] then []
    else
      var front, last := trace[..|trace| - 1], trace[|trace| - 1];
      Given(front, id)
      + if RouteId(last.src) == id && last.dst.scheme != END && !Shut(front, id) then last.payload else []
  }

  // ---------- the stateful table ----------

  function Extended(seen: map<bytes, seq<Route>>, r: Route): (now: map<bytes, seq<Route>>)
    ensures now.Keys == seen.Keys && forall id :: id in seen ==> now[id] == seen[id] + [r]
  { map id | id in seen :: seen[id] + [r] }

  ghost predicate Apart(clients: map<bytes, Pipe>) {
    forall a, b :: a in clients && b in clients && a != b ==> clients[a] != clients[b]
  }

  lemma StillApart(clients: map<bytes, Pipe>, conns: set<Pipe>, id: bytes, c: Pipe)
    requires Apart(clients) && c !in conns && forall a :: a in clients ==> clients[a] in conns
    ensures Apart(clients[id := c])
  {
  }

  lemma FreshKeeps(id: bytes, c: Pipe)
    requires c.Ok() && c.handed == [] && !c.closed
    ensures Keeps(id, c, [])
  {
  }

  /** The connection filed under the id has what the trace since then has for it. */
  ghost predicate Keeps(id: bytes, c: Pipe, trace: seq<Route>)
    reads c
  {
    c.Ok() && c.handed == Given(trace, id) && (c.closed <==> Shut(trace, id))
  }

  /** The `Clients` of a SubscriberConn, with the methods that use them. */
  class ClientTable {
    /** The clients' connections by remote address. */
    var clients: map<bytes, Pipe>
    /** All connections that were ever filed, and the events routed since each client was. */
    ghost var conns: set<Pipe>
    ghost var seen: map<bytes, seq<Route>>

    constructor ()
      ensures Valid() && clients == map[]
    {
      clients, conns, seen := map[], {}, map[];
    }

    ghost predicate Valid()
      reads this, conns
    {
      && clients.Keys == seen.Keys
      && (forall id :: id in clients ==> clients[id] in conns)
      && Apart(clients)
      && (forall id :: id in clients ==> Keeps(id, clients[id], seen[id]))
    }

    /** The start of Serve: a client is filed, in place of any earlier one with the same address. */
    method File(id: bytes, client: Pipe)
      requires Valid() && client !in conns
      requires client.Ok() && client.handed == [] && !client.closed
      modifies this`clients, this`seen, this`conns
      ensures Valid() && clients == old(clients)[id := client] && seen == old(seen)[id := []]
    {
      FreshKeeps(id, client);
      StillApart(clients, conns, id, client);
      hide Keeps, Apart;
      clients, seen, conns := clients[id := client], seen[id := []], conns + {client};
    }

    /** The end of Serve. */
    method Forget(id: bytes)
      requires Valid()
      modifies this`clients, this`seen
      ensures Valid() && clients == old(clients) - {id} && seen == old(seen) - {id}
    {
      hide Keeps;
      clients, seen := clients - {id}, seen - {id};
    }

    /** RouteBytes: what is for nobody is dropped, an "end" closes, anything else is written. */
    method RouteBytes(src: Addr, dst: Addr, payload: bytes, got: nat, ghost offset: int)
      requires Valid() && got <= |payload|
      modifies this`seen, conns
      ensures Valid()
      ensures seen == Extended(old(seen), Route(src, dst, payload, offset))
      ensures forall id :: id in clients ==>
                var mine := id == src.addr + [COLON] + Itoa(src.port);
                && (clients[id].closed <==> old(clients[id].closed) || (mine && dst.scheme == [101, 110, 100]))
                && clients[id].handed == old(clients[id].handed)
                     + if mine && dst.scheme != [101, 110, 100] && !old(clients[id].closed) then payload else []
    {
      assert RouteId(src) == src.addr + [COLON] + Itoa(src.port);
      hide RouteId, Given, Shut, Itoa, Pipe.Ok, Extended, Apart;
      ghost var r := Route(src, dst, payload, offset);
      forall id | id in clients
        ensures clients[id].Ok() && clients[id] in conns && clients[id].handed == Given(seen[id], id)
        ensures clients[id].closed <==> Shut(seen[id], id)
      {
        assert Keeps(id, clients[id], seen[id]);
      }
      assert Apart(clients) && clients.Keys == seen.Keys;
      hide Keeps, Valid;
      Hand(RouteId(src), dst, payload, got);
      seen := Extended(seen, r);
      forall id | id in clients
        ensures Keeps(id, clients[id], seen[id])
      {
        KeepsNext(id, clients[id], old(seen)[id], r, old(clients[id].handed), old(clients[id].closed));
      }
      AllKeep();
    }

    lemma AllKeep()
      requires clients.Keys == seen.Keys && Apart(clients)
      requires forall id :: id in clients ==> clients[id] in conns && Keeps(id, clients[id], seen[id])
      ensures Valid()
    {
    }

    /** What is for one id reaches that client, if it is there, and no other. */
    method Hand(id: bytes, dst: Addr, payload: bytes, got: nat)
      requires forall a :: a in clients ==> clients[a] in conns
      requires Apart(clients)
      requires (forall a :: a in clients ==> clients[a].Ok()) && got <= |payload|
      modifies conns
      ensures forall a :: a in clients ==>
                && clients[a].Ok()
                && (clients[a].closed <==> old(clients[a].closed) || (a == id && dst.scheme == END))
                && clients[a].handed == old(clients[a].handed)
                     + if a == id && dst.scheme != END && !old(clients[a].closed) then payload else []
    {
      hide Pipe.Ok;
      if id !in clients { return; }
      Pass(clients[id], dst, payload, got);
    }

    method Pass(client: Pipe, dst: Addr, payload: bytes, got: nat)
      requires client.Ok() && got <= |payload|
      modifies client
      ensures client.Ok()
      ensures client.handed == old(client.handed) + if dst.scheme == END || old(client.closed) then [] else payload
      ensures client.closed <==> old(client.closed) || dst.scheme == END
    {
      if dst.scheme == END {
        client.Close();
      } else {
        client.Write(payload, got);
      }
    }
  }

  lemma KeepsNext(id: bytes, c: Pipe, trace: seq<Route>, r: Route, handed: bytes, closed: bool)
    requires c.Ok() && handed == Given(trace, id) && (closed <==> Shut(trace, id))
    requires c.closed <==> closed || (id == RouteId(r.src) && r.dst.scheme == END)
    requires c.handed == handed + if id == RouteId(r.src) && r.dst.scheme != END && !closed then r.payload else []
    ensures Keeps(id, c, trace + [r])
  {
    hide RouteId, Given, Shut;
    OneMoreEvent(trace, r, id);
  }

  lemma OneMoreEvent(trace: seq<Route>, r: Route, id: bytes)
    ensures Shut(trace + [r], id) <==> Shut(trace, id) || (RouteId(r.src) == id && r.dst.scheme == END)
    ensures Given(trace + [r], id) == Given(trace, id)
              + if RouteId(r.src) == id && r.dst.scheme != END && !Shut(trace, id) then r.payload else []
  {
    assert (trace + [r])[..|trace|] == trace;
  }

  // ---------- what a device's replies come to ----------

  /** A client's remote address, host and port. */
  datatype Remote = Remote(host: bytes, port: bytes) {
    function Text(): bytes { host + [COLON] + port }

    predicate Ok() { host != [] && COLON !in host && CanonicalPort(port) }
  }

  /** Peer i of the device answers the relay's client r, under the source it has read for it, and no
      other peer's source gives the same id. The others may be anything: clients with IPv6 addresses,
      or the connection that the listener announces for the zero address. */
  predicate Answers(cfg: seq<Peer>, i: nat, r: Remote, scheme: bytes) {
    && i < |cfg| && r.Ok()
    && SourceOf(r.Text(), scheme).Source? && cfg[i].src == WireSrc(SourceOf(r.Text(), scheme).src)
    && forall j :: 0 <= j < |cfg| && j != i ==> RouteId(SrcOf(cfg, j)) != r.Text()
  }

  lemma IdOfPeer(cfg: seq<Peer>, i: nat, r: Remote, scheme: bytes)
    requires Answers(cfg, i, r, scheme)
    ensures RouteId(SrcOf(cfg, i)) == r.Text() != RouteId(NO_ADDR)
    ensures ProperSource(cfg, i) && cfg[i].src.scheme == []
  {
    hide CanonicalPort, Itoa;
    PortHasNoColon(r.port);
    IdOfSource(r.host, r.port, scheme);
    if RouteId(NO_ADDR) == r.Text() { IdParts(NO_ADDR, r.host, r.port); }
  }

  lemma PortHasNoColon(port: bytes)
    requires CanonicalPort(port)
    ensures COLON !in port && 1 <= |port| <= 5 && forall c :: c in port ==> IsDigit(c)
  {
  }

  /** Within the trace the id belongs to the source alone; an "end" carries nothing, and is the last. */
  predicate EndsOnce(trace: seq<Route>, src: Addr, id: bytes) {
    && (forall n :: 0 <= n < |trace| ==> (RouteId(trace[n].src) == id <==> trace[n].src == src))
    && (forall n :: 0 <= n < |trace| && trace[n].src == src && trace[n].dst.scheme == END ==> trace[n].payload == [])
    && (forall n, n' :: 0 <= n < n' < |trace| && trace[n].src == src && trace[n].dst.scheme == END ==>
          trace[n'].src != src)
  }

  lemma {:induction false} GivenIsData(trace: seq<Route>, src: Addr, id: bytes)
    requires EndsOnce(trace, src, id)
    ensures Given(trace, id) == DataOf(src, Atoms(trace))
    ensures Shut(trace, id) <==> exists n :: 0 <= n < |trace| && trace[n].src == src && trace[n].dst.scheme == END
    decreases |trace|
  {
    hide RouteId, Atoms, DataOf, RouteAtoms;
    if trace == [] {
      NothingGiven(src);
    } else {
      var front, r := trace[..|trace| - 1], trace[|trace| - 1];
      assert trace == front + [r] && forall n :: 0 <= n < |front| ==> front[n] == trace[n];
      GivenIsData(front, src, id);
      AtomsAppend(front, [r]);
      AtomsOfOne(r);
      DataOfAppend(src, Atoms(front), RouteAtoms(r));
      RouteData(r, src);
    }
  }

  lemma NothingGiven(src: Addr)
    ensures DataOf(src, Atoms([])) == []
  {
  }

  /** Whose a route of the run is. */
  lemma SourceOfRoute(cfg: seq<Peer>, s: State, n: nat)
    requires CfgOk(cfg) && Inv(cfg, s) && n < |s.routed|
    ensures s.routed[n].src == NO_ADDR || exists j :: 0 <= j < |cfg| && s.routed[n].src == SrcOf(cfg, j)
  {
    hide WireAtoms, Atoms, Packets, Fold, CfgOk, WireOk, CloseIsLast, ClientInv, SrcOf, AllSendable;
    WireSources(cfg, s.wire);
    var j := FirstAtom(s.routed, n);
    var all := WireAtoms(Packets(cfg, s.wire));
    assert all[j] == Atoms(s.routed)[j] && Known(cfg, all[j]);
  }

  lemma IdIsOfPeer(cfg: seq<Peer>, i: nat, r: Remote, scheme: bytes, a: Addr)
    requires Answers(cfg, i, r, scheme)
    requires a == NO_ADDR || exists j :: 0 <= j < |cfg| && a == SrcOf(cfg, j)
    ensures RouteId(a) == r.Text() <==> a == SrcOf(cfg, i)
  {
    IdOfPeer(cfg, i, r, scheme);
  }

  lemma EndsOfClient(cfg: seq<Peer>, s: State, i: nat)
    requires i < |cfg| == |s.clients| && FaithfulTo(cfg, s, i) && cfg[i].src.scheme == []
    ensures var src, atoms := SrcOf(cfg, i), Atoms(s.routed);
            && (forall k :: 0 <= k < |atoms| && atoms[k].src == src && atoms[k].dst.scheme == END ==> atoms[k].Empty?)
            && (forall k, l :: 0 <= k < l < |atoms| && atoms[k].src == src && atoms[k].dst.scheme == END ==>
                  atoms[l].src != src)
  {
    hide Atoms, DataOf, SrcOf;
  }

  lemma RouteOfClient(cfg: seq<Peer>, r: Remote, scheme: bytes, s: State, i: nat, n: nat)
    requires CfgOk(cfg) && Answers(cfg, i, r, scheme) && Inv(cfg, s) && n < |s.routed|
    requires var src, atoms := SrcOf(cfg, i), Atoms(s.routed);
             forall k :: 0 <= k < |atoms| && atoms[k].src == src && atoms[k].dst.scheme == END ==> atoms[k].Empty?
    ensures var route := s.routed[n];
            && (RouteId(route.src) == r.Text() <==> route.src == SrcOf(cfg, i))
            && (route.src == SrcOf(cfg, i) && route.dst.scheme == END ==> route.payload == [])
  {
    hide Atoms, CfgOk, SrcOf, RouteId, Inv, SourceOf;
    SourceOfRoute(cfg, s, n);
    IdIsOfPeer(cfg, i, r, scheme, s.routed[n].src);
    var k := FirstAtom(s.routed, n);
  }

  lemma RunEndsOnce(cfg: seq<Peer>, r: Remote, scheme: bytes, s: State, i: nat)
    requires CfgOk(cfg) && Answers(cfg, i, r, scheme) && Inv(cfg, s)
    ensures EndsOnce(s.routed, SrcOf(cfg, i), r.Text())
  {
    SameLength(cfg, s);
    IdOfPeer(cfg, i, r, scheme);
    hide Atoms, CfgOk, SrcOf, RouteId, Inv, Answers, ProperSource, FaithfulTo;
    var trace, src, id := s.routed, SrcOf(cfg, i), r.Text();
    InvIsFaithful(cfg, s, i);
    EndsOfClient(cfg, s, i);
    forall n | 0 <= n < |trace|
      ensures RouteId(trace[n].src) == id <==> trace[n].src == src
      ensures trace[n].src == src && trace[n].dst.scheme == END ==> trace[n].payload == []
    {
      RouteOfClient(cfg, r, scheme, s, i, n);
    }
    forall n, n' | 0 <= n < n' < |trace| && trace[n].src == src && trace[n].dst.scheme == END
      ensures trace[n'].src != src
    {
      AtomsInOrder(trace, n, n');
      var k := FirstAtom(trace, n);
      var k' := FirstAtom(trace, n');
    }
  }

  lemma SameLength(cfg: seq<Peer>, s: State)
    requires Inv(cfg, s)
    ensures |s.clients| == |cfg|
  {
    hide ParserInv;
  }

  /** In every schedule and chunking of the device's tunnel, whoever else it answers: what the relay
      gives a client is a prefix of what the device wrote for it, and all of it once the client has
      been sent an "end". */
  lemma RepliesAreFaithful(
      cfg: seq<Peer>, i: nat, r: Remote, scheme: bytes, states: seq<State>, steps: seq<Step>, k: nat)
    requires CfgOk(cfg) && Answers(cfg, i, r, scheme) && IsRun(cfg, states, steps) && k < |states|
    ensures |states[k].clients| == |cfg|
    ensures var given, wrote := Given(states[k].routed, r.Text()), states[k].clients[i].read;
            given <= wrote && (Shut(states[k].routed, r.Text()) ==> given == wrote)
  {
    IdOfPeer(cfg, i, r, scheme);
    hide Atoms, Fold, WireAtoms, CfgOk, Answers, SrcOf, RouteId, Inv, EndsOnce, IsRun, Given, Shut, DataOf;
    hide ProperSource;
    Reachable(cfg, states, steps, k);
    var s, src, id := states[k], SrcOf(cfg, i), r.Text();
    SameLength(cfg, s);
    InvIsFaithful(cfg, s, i);
    RunEndsOnce(cfg, r, scheme, s, i);
    GivenIsData(s.routed, src, id);
    if Shut(s.routed, id) {
      var n :| 0 <= n < |s.routed| && s.routed[n].src == src && s.routed[n].dst.scheme == END;
      EndCarriesNothing(s.routed, src, id, n);
      var j := FirstAtom(s.routed, n);
      assert IsEnd(src, Atoms(s.routed)[j]);
    }
  }

  lemma EndCarriesNothing(trace: seq<Route>, src: Addr, id: bytes, n: nat)
    requires EndsOnce(trace, src, id) && n < |trace| && trace[n].src == src && trace[n].dst.scheme == END
    ensures trace[n].payload == []
  {
  }

  /** ... and nobody else is given anything: no id but those of the device's peers, and that of the
      zero address. */
  lemma NobodyElseIsGiven(cfg: seq<Peer>, states: seq<State>, steps: seq<Step>, k: nat, id: bytes)
    requires CfgOk(cfg) && IsRun(cfg, states, steps) && k < |states|
    requires id != RouteId(NO_ADDR) && forall j :: 0 <= j < |cfg| ==> RouteId(SrcOf(cfg, j)) != id
    ensures Given(states[k].routed, id) == [] && !Shut(states[k].routed, id)
  {
    hide Fold, WireAtoms, CfgOk, SrcOf, RouteId, Inv, IsRun, Atoms;
    Reachable(cfg, states, steps, k);
    forall n | 0 <= n < |states[k].routed|
      ensures RouteId(states[k].routed[n].src) != id
    {
      SourceOfRoute(cfg, states[k], n);
    }
    NoneGiven(states[k].routed, id);
  }

  /** In particular a client with an IPv6 address is given nothing, whomever the device answers: every
      source it has read was made from some remote address, or is the zero address. */
  lemma Ipv6IsGivenNothing(
      cfg: seq<Peer>, remotes: seq<bytes>, scheme: bytes, states: seq<State>, steps: seq<Step>, k: nat,
      host: bytes, port: bytes)
    requires CfgOk(cfg) && IsRun(cfg, states, steps) && k < |states|
    requires |remotes| == |cfg| && forall j :: 0 <= j < |cfg| && SrcOf(cfg, j) != NO_ADDR ==>
               SourceOf(remotes[j], scheme).Source? && cfg[j].src == WireSrc(SourceOf(remotes[j], scheme).src)
    requires COLON in host && COLON !in port
    ensures var id := host + [COLON] + port;
            Given(states[k].routed, id) == [] && !Shut(states[k].routed, id)
  {
    hide SourceOf, IsRun, CfgOk;
    var id := host + [COLON] + port;
    if RouteId(NO_ADDR) == id { IdParts(NO_ADDR, host, port); }
    forall j | 0 <= j < |cfg|
      ensures RouteId(SrcOf(cfg, j)) != id
    {
      if SrcOf(cfg, j) != NO_ADDR { ColonHostIsLost(remotes[j], scheme, host, port); }
    }
    NobodyElseIsGiven(cfg, states, steps, k, id);
  }

  lemma {:induction false} NoneGiven(trace: seq<Route>, id: bytes)
    requires forall n :: 0 <= n < |trace| ==> RouteId(trace[n].src) != id
    ensures Given(trace, id) == [] && !Shut(trace, id)
    decreases |trace|
  {
    if trace != [] { NoneGiven(trace[..|trace| - 1], id); }
  }

  // ---------- the table at the end of the tunnel ----------

  /** Events before the first of the id do not matter. */
  lemma {:induction false} GivenFrom(trace: seq<Route>, start: nat, id: bytes)
    requires start <= |trace| && forall n :: 0 <= n < start ==> RouteId(trace[n].src) != id
    ensures Given(trace[start..], id) == Given(trace, id) && (Shut(trace[start..], id) <==> Shut(trace, id))
    decreases |trace|
  {
    hide RouteId;
    if start == |trace| {
      NoneGiven(trace, id);
      assert trace[start..] == [];
    } else {
      var front, r := trace[..|trace| - 1], trace[|trace| - 1];
      GivenFrom(front, start, id);
      assert trace[start..] == front[start..] + [r] && trace == front + [r];
      OneMoreEvent(front[start..], r, id);
      OneMoreEvent(front, r, id);
    }
  }

  /** The subscriber's table, fed by the relay's parser: if the client was filed before the first event
      of its id, its connection has been handed a prefix of what the device wrote for it, and what came
      through is one too; when it was closed it had been handed all of it. */
  lemma TableIsFaithful(
      t: ClientTable, start: nat, cfg: seq<Peer>, i: nat, r: Remote, scheme: bytes,
      states: seq<State>, steps: seq<Step>, k: nat)
    requires CfgOk(cfg) && Answers(cfg, i, r, scheme) && IsRun(cfg, states, steps) && k < |states|
    requires t.Valid() && r.Text() in t.clients
    requires start <= |states[k].routed| && t.seen[r.Text()] == states[k].routed[start..]
    requires forall n :: 0 <= n < start ==> RouteId(states[k].routed[n].src) != r.Text()
    ensures |states[k].clients| == |cfg|
    ensures var c, wrote := t.clients[r.Text()], states[k].clients[i].read;
            && c.written <= c.handed <= wrote
            && (c.closed ==> c.handed == wrote)
            && (c.closed && !c.gone ==> c.written == wrote)
  {
    hide CfgOk, Answers, IsRun, Given, Shut, RouteId;
    GivenFrom(states[k].routed, start, r.Text());
    RepliesAreFaithful(cfg, i, r, scheme, states, steps, k);
    assert Keeps(r.Text(), t.clients[r.Text()], t.seen[r.Text()]);
  }
}
