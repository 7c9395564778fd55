/** internal/telebit/listener.go: the demultiplexer keyed by source address. `Sessions` is what it
    does step by step; `Live`, `Since`, `Openings` and `DataFor` say, from the trace alone, what
    should come out. */
module Demux {
  import opened Text
  import opened Addrs
  import opened ParserModel

  function Key(r: Route): bytes { r.src.String() }

  predicate Closing(r: Route) { r.dst.scheme == END || r.dst.scheme == ERROR }

  /** A write after an error finds the pipe closed already. */
  function Lands(r: Route): bytes { if r.dst.scheme == ERROR then [] else r.payload }

  // ---------- what should come out, read off the trace ----------

  /** The latest event of the key did not close it. */
  predicate Live(trace: seq<Route>, key: bytes) {
    trace != [] &&
    var front, last := trace[..|trace| - 1], trace[|trace| - 1];
    if Key(last) == key then !Closing(last) else Live(front, key)
  }

  /** The payload routed to the key since it last came to life. */
  function Since(trace: seq<Route>, key: bytes): bytes {
    if trace == [] then []
    else
      var front, last := trace[..|trace| - 1], trace[|trace| - 1];
      if Key(last) != key then Since(front, key)
      else (if Live(front, key) then Since(front, key) else []) + last.payload
  }

  /** How often the key came to life. */
  function Openings(trace: seq<Route>, key: bytes): nat {
    if trace == [] then 0
    else
      var front, last := trace[..|trace| - 1], trace[|trace| - 1];
      Openings(front, key) + if Key(last) == key && !Live(front, key) then 1 else 0
  }

  /** The events that brought a key to life, in order. */
  function Openers(trace: seq<Route>): seq<Route> {
    if trace == [] then []
    else
      var front, last := trace[..|trace| - 1], trace[|trace| - 1];
      Openers(front) + if Live(front, Key(last)) then [] else [last]
  }

  lemma OpenersSnoc(trace: seq<Route>, r: Route)
    ensures Openers(trace + [r]) == Openers(trace) + if Live(trace, Key(r)) then [] else [r]
  {
    hide Key;
    assert (trace + [r])[..|trace|] == trace;
  }

  /** Everything routed to the key that was not lost to an error. */
  function DataFor(trace: seq<Route>, key: bytes): bytes {
    if trace == [] then []
    else
      var front, last := trace[..|trace| - 1], trace[|trace| - 1];
      DataFor(front, key) + if Key(last) == key then Lands(last) else []
  }

  // ---------- what the listener does ----------

  /** A pipe: its key, what has been written to it, and whether it is still open. */
  datatype Session = Session(key: bytes, data: bytes, open: bool)

  /** The open session of the key, or the length when there is none. */
  function FindOpen(ss: seq<Session>, key: bytes): (i: nat)
    ensures i <= |ss|
  {
    if ss == [] then 0
    else
      var n := |ss| - 1;
      if ss[n].open && ss[n].key == key then n
      else
        var i := FindOpen(ss[..n], key);
        if i == n then |ss| else i
  }

  lemma {:induction false} FindSpec(ss: seq<Session>, key: bytes)
    ensures var i := FindOpen(ss, key);
            if i < |ss| then ss[i].open && ss[i].key == key
            else forall j :: 0 <= j < |ss| && ss[j].open ==> ss[j].key != key
  {
    if ss != [] { FindSpec(ss[..|ss| - 1], key); }
  }

  /** getPipe: a new session unless one is open. */
  function Opened(ss: seq<Session>, key: bytes): seq<Session> {
    if FindOpen(ss, key) == |ss| then ss + [Session(key, [], true)] else ss
  }

  function Deliver(ss: seq<Session>, r: Route): seq<Session> {
    var i, grown := FindOpen(ss, Key(r)), Opened(ss, Key(r));
    grown[i := Session(Key(r), grown[i].data + Lands(r), !Closing(r))]
  }

  function Sessions(trace: seq<Route>): seq<Session> {
    if trace == [] then [] else Deliver(Sessions(trace[..|trace| - 1]), trace[|trace| - 1])
  }

  // ---------- they agree ----------

  /** Only the latest session of a key can be open. */
  predicate LatestOpen(ss: seq<Session>) {
    forall i, j :: 0 <= i < j < |ss| && ss[i].key == ss[j].key ==> !ss[i].open
  }

  function KeyCount(ss: seq<Session>, key: bytes): nat {
    if ss == [] then 0 else KeyCount(ss[..|ss| - 1], key) + if ss[|ss| - 1].key == key then 1 else 0
  }

  function KeyData(ss: seq<Session>, key: bytes): bytes {
    if ss == [] then [] else KeyData(ss[..|ss| - 1], key) + if ss[|ss| - 1].key == key then ss[|ss| - 1].data else []
  }

  lemma {:induction false} UpdateSession(ss: seq<Session>, i: nat, more: bytes, open: bool, key: bytes)
    requires i < |ss|
    requires forall j :: i < j < |ss| ==> ss[j].key != ss[i].key
    ensures var ss' := ss[i := Session(ss[i].key, ss[i].data + more, open)];
            && KeyCount(ss', key) == KeyCount(ss, key)
            && KeyData(ss', key) == KeyData(ss, key) + if ss[i].key == key then more else []
    decreases |ss|
  {
    var n := |ss| - 1;
    var s := Session(ss[i].key, ss[i].data + more, open);
    if i < n {
      assert ss[i := s][..n] == ss[..n][i := s];
      UpdateSession(ss[..n], i, more, open, key);
      if ss[i].key == key { assert ss[n].key != key; }
    } else {
      assert ss[i := s][..n] == ss[..n];
      assert KeyData(ss[..n], key) + (ss[i].data + more) == KeyData(ss[..n], key) + ss[i].data + more;
    }
  }

  lemma AddSession(ss: seq<Session>, s: Session, key: bytes)
    ensures KeyCount(ss + [s], key) == KeyCount(ss, key) + if s.key == key then 1 else 0
    ensures KeyData(ss + [s], key) == KeyData(ss, key) + if s.key == key then s.data else []
  {
    assert (ss + [s])[..|ss|] == ss;
  }

  lemma DeliverCounts(ss: seq<Session>, r: Route, key: bytes)
    requires LatestOpen(ss)
    ensures LatestOpen(Deliver(ss, r))
    ensures KeyCount(Deliver(ss, r), key)
         == KeyCount(ss, key) + if Key(r) == key && FindOpen(ss, key) == |ss| then 1 else 0
    ensures KeyData(Deliver(ss, r), key) == KeyData(ss, key) + if Key(r) == key then Lands(r) else []
  {
    hide KeyCount, KeyData, FindOpen;
    var i := FindOpen(ss, Key(r));
    FindSpec(ss, Key(r));
    if i == |ss| {
      AddSession(ss, Session(Key(r), [], true), key);
      UpdateSession(ss + [Session(Key(r), [], true)], i, Lands(r), !Closing(r), key);
    } else {
      UpdateSession(ss, i, Lands(r), !Closing(r), key);
    }
  }

  /** The refinement. For every trace and key: a session of the key is open exactly when the key is
      live; it has received exactly what was routed to it since it was created; one session was
      created each time the key came to life; and all sessions of the key together received all of
      its data, in order. */
  lemma {:induction false} DemuxExact(trace: seq<Route>, key: bytes)
    ensures var ss := Sessions(trace);
            && LatestOpen(ss)
            && (Live(trace, key) <==> FindOpen(ss, key) < |ss|)
            && (Live(trace, key) ==> ss[FindOpen(ss, key)].key == key && ss[FindOpen(ss, key)].open
                                     && ss[FindOpen(ss, key)].data == Since(trace, key))
            && KeyCount(ss, key) == Openings(trace, key)
            && KeyData(ss, key) == DataFor(trace, key)
    decreases |trace|
  {
    if trace != [] {
      hide KeyCount, KeyData, FindOpen;
      var front, r := trace[..|trace| - 1], trace[|trace| - 1];
      DemuxExact(front, key);
      var ss := Sessions(front);
      DeliverCounts(ss, r, key);
      DeliverShape(ss, r);
      DeliverFinds(ss, r, key);
      FindSpec(Sessions(trace), key);
    }
  }

  lemma FindUnique(ss: seq<Session>, i: nat)
    requires LatestOpen(ss) && i < |ss| && ss[i].open
    ensures FindOpen(ss, ss[i].key) == i
  {
    FindSpec(ss, ss[i].key);
  }

  lemma DeliverShape(ss: seq<Session>, r: Route)
    ensures var k, ss' := FindOpen(ss, Key(r)), Deliver(ss, r);
            && |ss'| == (if k == |ss| then |ss| + 1 else |ss|)
            && (forall j :: 0 <= j < |ss| && j != k ==> ss'[j] == ss[j])
            && ss'[k] == Session(Key(r), (if k == |ss| then [] else ss[k].data) + Lands(r), !Closing(r))
            && (k < |ss| ==> ss[k].key == Key(r) && ss[k].open)
  {
    FindSpec(ss, Key(r));
  }

  lemma DeliverFinds(ss: seq<Session>, r: Route, key: bytes)
    requires LatestOpen(ss)
    ensures var k, o := FindOpen(ss, Key(r)), FindOpen(ss, key);
            FindOpen(Deliver(ss, r), key)
            == if Key(r) == key then (if Closing(r) then |Deliver(ss, r)| else k)
               else if o == |ss| then |Deliver(ss, r)| else o
  {
    hide Key, Closing;
    var k, o := FindOpen(ss, Key(r)), FindOpen(ss, key);
    DeliverShape(ss, r);
    DeliverCounts(ss, r, key);
    var ss' := Deliver(ss, r);
    FindSpec(ss, key);
    FindSpec(ss', key);
    if Key(r) == key && !Closing(r) {
      FindUnique(ss', k);
    } else if Key(r) != key && o < |ss| {
      FindUnique(ss', o);
    }
  }

  /** The open sessions by key. */
  function OpenMap(ss: seq<Session>): map<bytes, nat> {
    map key | key in (set i | 0 <= i < |ss| && ss[i].open :: ss[i].key) :: FindOpen(ss, key)
  }

  lemma OpenMapSpec(ss: seq<Session>, key: bytes)
    ensures key in OpenMap(ss) <==> FindOpen(ss, key) < |ss|
    ensures key in OpenMap(ss) ==> OpenMap(ss)[key] == FindOpen(ss, key)
  {
    hide FindOpen;
    FindSpec(ss, key);
    if FindOpen(ss, key) < |ss| { assert ss[FindOpen(ss, key)].open; }
  }

  lemma OpenedMap(ss: seq<Session>, key: bytes)
    requires LatestOpen(ss)
    ensures var k, ss' := FindOpen(ss, key), Opened(ss, key);
            && LatestOpen(ss') && k < |ss'| && ss'[k].open && ss'[k].key == key && FindOpen(ss', key) == k
            && OpenMap(ss') == OpenMap(ss)[key := k]
  {
    hide FindOpen, OpenMap;
    var k, ss' := FindOpen(ss, key), Opened(ss, key);
    FindSpec(ss, key);
    assert LatestOpen(ss');
    FindUnique(ss', k);
    var m, m' := OpenMap(ss), OpenMap(ss');
    forall x
      ensures x in m' <==> x == key || x in m
      ensures x in m' ==> m'[x] == if x == key then k else m[x]
    {
      if x != key { FindSame(ss, ss', k, x); }
      OpenMapSpec(ss, x);
      OpenMapSpec(ss', x);
    }
  }

  /** A session that changes, or is added, matters to its own key only. */
  lemma FindSame(ss: seq<Session>, ss': seq<Session>, k: nat, x: bytes)
    requires LatestOpen(ss) && LatestOpen(ss') && |ss| <= |ss'| <= |ss| + 1
    requires k < |ss'| && ss'[k].key != x && (|ss'| > |ss| ==> k == |ss|)
    requires k < |ss| ==> ss[k].key == ss'[k].key
    requires forall j :: 0 <= j < |ss| && j != k ==> ss'[j] == ss[j]
    ensures FindOpen(ss', x) == if FindOpen(ss, x) == |ss| then |ss'| else FindOpen(ss, x)
  {
    hide FindOpen;
    FindSpec(ss, x);
    FindSpec(ss', x);
    var o, o' := FindOpen(ss, x), FindOpen(ss', x);
    if o < |ss| { FindUnique(ss', o); }
    if o' < |ss'| { assert ss'[o'] == ss[o']; }
  }

  lemma FedMap(ss: seq<Session>, k: nat, s: Session)
    requires LatestOpen(ss) && k < |ss| && ss[k].open && ss[k].key == s.key
    ensures LatestOpen(ss[k := s])
    ensures OpenMap(ss[k := s]) == if s.open then OpenMap(ss) else OpenMap(ss) - {s.key}
  {
    hide FindOpen, OpenMap;
    var ss' := ss[k := s];
    FindUnique(ss, k);
    if s.open { FindUnique(ss', k); }
    var m, m' := OpenMap(ss), OpenMap(ss');
    forall x
      ensures x in m' <==> x in m && (x == s.key ==> s.open)
      ensures x in m' ==> m'[x] == m[x]
    {
      FindSpec(ss', x);
      OpenMapSpec(ss, x);
      OpenMapSpec(ss', x);
      if x != s.key { FindSame(ss, ss', k, x); }
    }
  }

  // ---------- what comes out at the other end of a pipe ----------

  /** What befalls a listener: an event is routed, of whose payload the pipe's other end takes `got`
      bytes before it is closed, if it is; or the other end of the i-th pipe is closed. */
  datatype Happening = Routed(r: Route, got: nat) | ClosedLocally(i: nat)

  /** The other end of a pipe: what has come through to it, and whether it has been closed. */
  datatype End = End(written: bytes, gone: bool)

  function TraceOf(hs: seq<Happening>): seq<Route> {
    if hs == [] then []
    else
      var front, h := TraceOf(hs[..|hs| - 1]), hs[|hs| - 1];
      if h.Routed? then front + [h.r] else front
  }

  /** An error event writes nothing, and a pipe whose other end is gone passes nothing on. */
  function Take(e: End, r: Route, got: nat): End {
    if r.dst.scheme == ERROR || e.gone then e
    else if got < |r.payload| then End(e.written + r.payload[..got], true)
    else End(e.written + r.payload, false)
  }

  /** The ends of all pipes, after an event that finds pipe k open, or else creates it. */
  function TakeAt(es: seq<End>, k: nat, r: Route, got: nat): seq<End> {
    if k < |es| then es[k := Take(es[k], r, got)] else es + [Take(End([], false), r, got)]
  }

  function Ends(hs: seq<Happening>): seq<End> {
    if hs == [] then []
    else
      var front, h := hs[..|hs| - 1], hs[|hs| - 1];
      var es := Ends(front);
      match h
      case Routed(r, got) => TakeAt(es, FindOpen(Sessions(TraceOf(front)), Key(r)), r, got)
      case ClosedLocally(i) => if i < |es| then es[i := es[i].(gone := true)] else es
  }

  // ---------- the stateful listener ----------

  /** One end of a net.Pipe. Its other end, `incoming` for Accept, may be closed by whoever accepted
      it, or by the encoder that reads it: then it is `gone`, and nothing more gets through. */
  class Pipe {
    const src: Addr
    const dst: Addr
    var written: bytes
    var closed: bool
    var gone: bool
    /** What Write was given while this end was open. */
    ghost var handed: bytes

    constructor (src: Addr, dst: Addr)
      ensures this.src == src && this.dst == dst && handed == [] && !closed && !gone && Ok()
    {
      this.src, this.dst, written, closed, gone, handed := src, dst, [], false, false, [];
    }

    /** All of it came through, unless the other end is gone. */
    ghost predicate Ok()
      reads this
    { written <= handed && (!gone ==> written == handed) }

    ghost function View(): Session
      reads this
    { Session(src.String(), handed, !closed) }

    function Far(): End
      reads this
    { End(written, gone) }

    /** Writing to a closed pipe is an error the listener ignores. A write returns when the other end
        has read all of it, or has been closed after reading `got` bytes. */
    method Write(b: bytes, got: nat)
      requires Ok() && got <= |b|
      modifies this`written, this`gone, this`handed
      ensures Ok()
      ensures handed == old(handed) + if closed then [] else b
      ensures written == old(written) + if closed || old(gone) then [] else b[..got]
      ensures gone <==> old(gone) || (!closed && got < |b|)
    {
      if !closed {
        handed := handed + b;
        if !gone {
          written := written + b[..got];
          gone := got < |b|;
          assert got == |b| ==> b[..got] == b;
          assert handed == old(handed) + b[..got] + b[got..];
        }
      }
    }

    method Close()
      modifies this`closed
      ensures closed && (old(Ok()) ==> Ok())
    {
      closed := true;
    }

    /** The other end is closed. */
    method Vanish()
      requires Ok()
      modifies this`gone
      ensures Ok() && View() == old(View()) && Far() == old(Far()).(gone := true)
    {
      gone := true;
    }
  }

  class Listener {
    var chunksParsed: nat
    var bytesRead: nat
    var conns: map<bytes, Pipe>
    /** The pipes announced to Accept, oldest first. */
    var incoming: seq<Pipe>
    /** The events routed, and all that has happened. */
    ghost var trace: seq<Route>
    ghost var history: seq<Happening>

    constructor ()
      ensures Valid() && history == [] && incoming == [] && conns == map[] && bytesRead == 0
    {
      chunksParsed, bytesRead, conns, incoming, trace, history := 0, 0, map[], [], [], [];
    }

    /** Every pipe was announced once, in the order of creation, and looks as `Sessions` says, at its
        other end as `Ends` says, and carries the addresses of its opener; the map leads from each live
        key to its open pipe and has no other entries. */
    ghost predicate Valid()
      reads this, incoming
    {
      && chunksParsed == |trace| && PipesOk(Sessions(trace)) && MapOk(OpenMap(Sessions(trace)))
      && trace == TraceOf(history) && EndsOk(Ends(history)) && LabelsOk(Openers(trace))
    }

    /** Each pipe carries the addresses of the event that opened it. */
    ghost predicate LabelsOk(openers: seq<Route>)
      reads this`incoming
    {
      && |incoming| == |openers|
      && forall n :: 0 <= n < |incoming| ==> incoming[n].src == openers[n].src && incoming[n].dst == openers[n].dst
    }

    ghost predicate EndsOk(es: seq<End>)
      reads this`incoming, incoming
    {
      |incoming| == |es| && forall i :: 0 <= i < |incoming| ==> incoming[i].Far() == es[i]
    }

    ghost predicate PipesOk(ss: seq<Session>)
      reads this`incoming, incoming
    {
      && (forall i, j :: 0 <= i < j < |incoming| ==> incoming[i] != incoming[j])
      && |incoming| == |ss|
      && (forall i :: 0 <= i < |incoming| ==> incoming[i].View() == ss[i] && incoming[i].Ok())
      && LatestOpen(ss)
    }

    ghost predicate MapOk(m: map<bytes, nat>)
      reads this`conns, this`incoming
    {
      && conns.Keys == m.Keys
      && (forall key :: key in conns ==> m[key] < |incoming| && conns[key] == incoming[m[key]])
    }

    /** getPipe: reuse the pipe of the key, or create, file and announce one. */
    method GetPipe(src: Addr, dst: Addr, ghost ss: seq<Session>) returns (pipe: Pipe)
      requires PipesOk(ss) && MapOk(OpenMap(ss))
      modifies this`conns, this`incoming
      ensures var key := src.String();
              && PipesOk(Opened(ss, key)) && MapOk(OpenMap(Opened(ss, key)))
              && FindOpen(ss, key) < |incoming| && pipe == incoming[FindOpen(ss, key)]
              && |incoming| == |Opened(ss, key)|
      ensures FindOpen(ss, src.String()) < |ss| ==> incoming == old(incoming)
      ensures FindOpen(ss, src.String()) == |ss| ==>
                && incoming == old(incoming) + [pipe]
                && fresh(pipe) && pipe.src == src && pipe.dst == dst && pipe.Far() == End([], false)
    {
      hide FindOpen, OpenMap, LatestOpen, Addr.String;
      var id := src.String();
      OpenedMap(ss, id);
      OpenMapSpec(ss, id);
      if id in conns {
        assert OpenMap(ss)[id := FindOpen(ss, id)] == OpenMap(ss);
        return conns[id];
      }
      pipe := NewPipe(src, dst, ss);
    }

    method NewPipe(src: Addr, dst: Addr, ghost ss: seq<Session>) returns (pipe: Pipe)
      requires PipesOk(ss) && MapOk(OpenMap(ss)) && FindOpen(ss, src.String()) == |ss|
      modifies this`conns, this`incoming
      ensures PipesOk(Opened(ss, src.String())) && MapOk(OpenMap(Opened(ss, src.String())))
      ensures fresh(pipe) && pipe.src == src && pipe.dst == dst && pipe.Far() == End([], false)
      ensures incoming == old(incoming) + [pipe] && |incoming| == |ss| + 1
    {
      hide FindOpen, OpenMap, LatestOpen, Addr.String;
      var id := src.String();
      pipe := new Pipe(src, dst);
      conns := conns[id := pipe];
      incoming := incoming + [pipe];
      assert forall i :: 0 <= i < |ss| ==> incoming[i].View() == ss[i];
      PipeAdded(ss, id);
      OpenedMap(ss, id);
    }

    /** What the map and the pipes mean in terms of the trace alone: a key is in the map exactly when
        it is live, even if the other end of its pipe is gone; its pipe is open and was handed exactly
        what was routed to the key since it came to life, and passed it on unless the other end is
        gone; and as many pipes of the key have been announced as it came to life times. */
    lemma ConnsAreLive(key: bytes)
      requires Valid()
      ensures key in conns <==> Live(trace, key)
      ensures key in conns ==> conns[key] in incoming && conns[key].src.String() == key
      ensures key in conns ==> !conns[key].closed && conns[key].handed == Since(trace, key)
      ensures key in conns ==> conns[key].written <= Since(trace, key)
      ensures key in conns && !conns[key].gone ==> conns[key].written == Since(trace, key)
      ensures |incoming| == |Sessions(trace)| && KeyCount(Sessions(trace), key) == Openings(trace, key)
      ensures forall i :: 0 <= i < |incoming| ==> incoming[i].View() == Sessions(trace)[i]
      ensures forall i :: 0 <= i < |incoming| ==> incoming[i].Far() == Ends(history)[i]
      ensures |Openers(trace)| == |incoming|
      ensures forall i :: 0 <= i < |incoming| ==>
                incoming[i].src == Openers(trace)[i].src && incoming[i].dst == Openers(trace)[i].dst
    {
      hide FindOpen, OpenMap, Live, Since, Sessions, KeyCount, KeyData, Openings, LatestOpen, Addr.String;
      DemuxExact(trace, key);
      OpenMapSpec(Sessions(trace), key);
      if key in conns { assert conns[key].View() == Sessions(trace)[FindOpen(Sessions(trace), key)]; }
    }

    lemma PipeAdded(ss: seq<Session>, id: bytes)
      requires LatestOpen(ss) && FindOpen(ss, id) == |ss|
      requires |incoming| == |ss| + 1 && incoming[|ss|].View() == Session(id, [], true)
      requires forall i, j :: 0 <= i < j < |incoming| ==> incoming[i] != incoming[j]
      requires forall i :: 0 <= i < |ss| ==> incoming[i].View() == ss[i]
      requires forall i :: 0 <= i < |incoming| ==> incoming[i].Ok()
      ensures PipesOk(Opened(ss, id))
    {
      hide FindOpen, LatestOpen, Addr.String;
      OpenedMap(ss, id);
    }

    /** The rest of RouteBytes, once the pipe is found. The source tests "error" before and "end"
        after the write, so the data of an error event is counted but lost. */
    method Feed(pipe: Pipe, id: bytes, dst: Addr, b: bytes, got: nat)
      requires !pipe.closed && pipe.Ok() && got <= |b|
      modifies pipe, this`conns, this`bytesRead
      ensures pipe.Ok()
      ensures pipe.handed == old(pipe.handed) + if dst.scheme == ERROR then [] else b
      ensures pipe.written == old(pipe.written) + if dst.scheme == ERROR || old(pipe.gone) then [] else b[..got]
      ensures pipe.gone <==> old(pipe.gone) || (dst.scheme != ERROR && got < |b|)
      ensures pipe.closed <==> dst.scheme == END || dst.scheme == ERROR
      ensures conns == if pipe.closed then old(conns) - {id} else old(conns)
      ensures bytesRead == old(bytesRead) + |b|
    {
      if dst.scheme == ERROR {
        pipe.Close();
        conns := conns - {id};
      }
      if |b| > 0 {
        bytesRead := bytesRead + |b|;
        pipe.Write(b, got);
      }
      if dst.scheme == END {
        pipe.Close();
        conns := conns - {id};
      }
    }

    /** A pipe that was fed, and possibly dropped from the map c, is all that changed. */
    lemma Fed(ss: seq<Session>, k: nat, s: Session, c: map<bytes, Pipe>)
      requires LatestOpen(ss) && k < |ss| == |incoming| && ss[k].open && ss[k].key == s.key
      requires c.Keys == OpenMap(ss).Keys
      requires forall key :: key in c ==> OpenMap(ss)[key] < |incoming| && c[key] == incoming[OpenMap(ss)[key]]
      requires conns == if s.open then c else c - {s.key}
      requires forall i, j :: 0 <= i < j < |incoming| ==> incoming[i] != incoming[j]
      requires forall i :: 0 <= i < |incoming| ==> incoming[i].View() == if i == k then s else ss[i]
      requires forall i :: 0 <= i < |incoming| ==> incoming[i].Ok()
      ensures PipesOk(ss[k := s]) && MapOk(OpenMap(ss[k := s]))
    {
      hide OpenMap, LatestOpen, Addr.String;
      FedMap(ss, k, s);
    }

    method FeedSession(pipe: Pipe, dst: Addr, b: bytes, got: nat, ghost ss: seq<Session>, ghost k: nat, ghost r: Route)
      requires PipesOk(ss) && MapOk(OpenMap(ss))
      requires k < |ss| && incoming[k] == pipe && ss[k].open && ss[k].key == Key(r)
      requires dst == r.dst && b == r.payload && got <= |b|
      modifies pipe, this`conns, this`bytesRead
      ensures var ss' := ss[k := Session(Key(r), ss[k].data + Lands(r), !Closing(r))];
              PipesOk(ss') && MapOk(OpenMap(ss'))
      ensures bytesRead == old(bytesRead) + |b|
      ensures pipe.Far() == Take(old(pipe.Far()), r, got)
    {
      hide LatestOpen, Addr.String, OpenMap;
      assert pipe.View() == ss[k];
      Feed(pipe, pipe.src.String(), dst, b, got);
      Fed(ss, k, Session(Key(r), ss[k].data + Lands(r), !Closing(r)), old(conns));
    }

    /** One pipe has been announced since, and it carries these addresses. */
    ghost predicate Announced(before: seq<Pipe>, src: Addr, dst: Addr)
      reads this`incoming
    {
      && |incoming| == |before| + 1 && incoming[..|before|] == before
      && incoming[|before|].src == src && incoming[|before|].dst == dst
    }

    /** The work of RouteBytes, on the sessions so far. */
    method Dispatch(
        src: Addr, dst: Addr, b: bytes, got: nat, ghost ss: seq<Session>, ghost es: seq<End>, ghost r: Route)
      requires PipesOk(ss) && MapOk(OpenMap(ss)) && EndsOk(es) && got <= |b| && r == Route(src, dst, b, r.offset)
      modifies this`conns, this`incoming, this`bytesRead, incoming
      ensures PipesOk(Deliver(ss, r)) && MapOk(OpenMap(Deliver(ss, r)))
      ensures bytesRead == old(bytesRead) + |b|
      ensures old(incoming) <= incoming && forall p :: p in incoming && p !in old(incoming) ==> fresh(p)
      ensures EndsOk(TakeAt(es, FindOpen(ss, Key(r)), r, got))
      ensures if FindOpen(ss, src.String()) < |ss| then incoming == old(incoming)
              else Announced(old(incoming), src, dst)
    {
      hide FindOpen, LatestOpen, Addr.String, OpenMap;
      assert LatestOpen(ss);
      OpenedMap(ss, Key(r));
      ghost var k := FindOpen(ss, Key(r));
      assert |incoming| == |ss|;
      hide MapOk;
      var pipe := GetPipe(src, dst, ss);
      assert forall i, j :: 0 <= i < j < |incoming| ==> incoming[i] != incoming[j];
      hide PipesOk, Opened, Pipe.Ok, Pipe.View, Pipe.Far;
      FeedSession(pipe, dst, b, got, Opened(ss, Key(r)), k, r);
    }

    /** RouteBytes. `got` is how much of b the pipe's other end takes before it is closed, if it is. */
    method RouteBytes(src: Addr, dst: Addr, b: bytes, got: nat, ghost offset: int)
      requires Valid() && got <= |b|
      modifies this, incoming
      ensures Valid()
      ensures trace == old(trace) + [Route(src, dst, b, offset)]
      ensures history == old(history) + [Routed(Route(src, dst, b, offset), got)]
      ensures bytesRead == old(bytesRead) + |b|
      ensures old(incoming) <= incoming && forall p :: p in incoming && p !in old(incoming) ==> fresh(p)
      // a pipe is announced exactly when the key was not live, and carries the event's addresses
      ensures if Live(old(trace), src.String()) then incoming == old(incoming)
              else Announced(old(incoming), src, dst)
    {
      hide Sessions, PipesOk, MapOk, Deliver, OpenMap, EndsOk, TakeAt, FindOpen, Live, LatestOpen, Openers;
      hide Since, KeyCount, KeyData, Openings, DataFor, Addr.String;
      ghost var r := Route(src, dst, b, offset);
      DemuxExact(trace, src.String());
      OpenersSnoc(trace, r);
      chunksParsed := chunksParsed + 1;
      Dispatch(src, dst, b, got, Sessions(trace), Ends(history), r);
      trace := trace + [r];
      history := history + [Routed(r, got)];
      SessionsSnoc(old(trace), r);
      assert history[..|history| - 1] == old(history);
    }

    /** The other end of a pipe is closed. The listener does not notice: the pipe stays in the map. */
    method CloseLocally(ghost i: nat, pipe: Pipe)
      requires Valid() && i < |incoming| && pipe == incoming[i]
      modifies pipe`gone, this`history
      ensures Valid()
      ensures history == old(history) + [ClosedLocally(i)]
    {
      hide Sessions, OpenMap, Ends, TraceOf, LatestOpen, Openers, Pipe.Ok, Pipe.View, Pipe.Far;
      pipe.Vanish();
      history := history + [ClosedLocally(i)];
      EndsClosed(old(history), i);
    }
  }

  lemma EndsClosed(hs: seq<Happening>, i: nat)
    ensures TraceOf(hs + [ClosedLocally(i)]) == TraceOf(hs)
    ensures var es := Ends(hs);
            Ends(hs + [ClosedLocally(i)]) == if i < |es| then es[i := es[i].(gone := true)] else es
  {
    assert (hs + [ClosedLocally(i)])[..|hs|] == hs;
  }

  lemma SessionsSnoc(trace: seq<Route>, r: Route)
    ensures Sessions(trace + [r]) == Deliver(Sessions(trace), r)
  {
    assert (trace + [r])[..|trace|] == trace;
  }
}
