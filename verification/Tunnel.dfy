/** internal/telebit/websocket.go and the select loop of internal/telebit/encoder.go, updated in
    place. The socket library is represented by the messages that arrive and those written. */
module Tunnel {
  import opened Text
  import opened Addrs
  import opened Header
  import opened Chunking
  import opened Frames
  import opened ParserModel
  import opened Multiplex
  import opened Readers
  import opened Delivery

  /** The reader of the message being read, if one is open. */
  datatype MessageReader = NoReader | Open(rest: bytes)

  /** What a message reader may answer: some of what is left, with no error, with the end of the
      message (only together with, or after, its last byte), or with a failure of the connection. */
  datatype Status = Fine | EndOfMessage | Broken

  datatype Answer = Answer(n: nat, status: Status)

  lemma FlatSnoc(ms: seq<bytes>, m: bytes)
    ensures Flat(ms + [m]) == Flat(ms) + m
  {
    FlatAppend(ms, [m]);
    var one: seq<bytes> := [m];
    assert |one[1..]| == 0 && Flat(one) == m + [];
  }

  lemma FlatTake(ms: seq<bytes>, k: nat)
    requires k < |ms|
    ensures Flat(ms[..k + 1]) == Flat(ms[..k]) + ms[k]
  {
    assert ms[..k + 1] == ms[..k] + [ms[k]];
    FlatSnoc(ms[..k], ms[k]);
  }

  lemma FlatPrefix(ms: seq<bytes>, k: nat)
    requires k <= |ms|
    ensures Flat(ms[..k]) <= Flat(ms)
  {
    assert ms == ms[..k] + ms[k..];
    FlatAppend(ms[..k], ms[k..]);
  }

  /** Where a reader stands: it has taken all of the first k messages but `rest`. */
  predicate Stands(ms: seq<bytes>, k: nat, rest: bytes, taken: bytes) {
    && 0 < k <= |ms| && |rest| <= |ms[k - 1]|
    && taken + rest == Flat(ms[..k])
  }

  lemma Advance(ms: seq<bytes>, k: nat, rest: bytes, taken: bytes, n: nat)
    requires Stands(ms, k, rest, taken) && n <= |rest|
    ensures Stands(ms, k, rest[n..], taken + rest[..n])
    ensures taken + rest[..n] <= Flat(ms)
    ensures |Flat(ms[..k - 1])| <= |taken| && |taken + rest[..n]| <= |Flat(ms[..k])|
  {
    hide Flat;
    assert rest == rest[..n] + rest[n..];
    assert taken + rest == (taken + rest[..n]) + rest[n..];
    FlatTake(ms, k - 1);
    FlatPrefix(ms, k);
  }

  class WebsocketTunnel {
    /** All messages of the connection's lifetime, and how many NextReader has begun. */
    const arriving: seq<bytes>
    var begun: nat
    var tmpr: MessageReader
    /** Messages this side has written. */
    var written: seq<bytes>
    /** Everything Read has returned. */
    ghost var taken: bytes

    ghost predicate Valid()
      reads this
    {
      && begun <= |arriving|
      && (tmpr.Open? ==> Stands(arriving, begun, tmpr.rest, taken))
      && (tmpr == NoReader ==> taken == Flat(arriving[..begun]))
    }

    constructor (arriving: seq<bytes>)
      ensures Valid() && taken == [] && written == [] && this.arriving == arriving
    {
      this.arriving := arriving;
      begun, tmpr, written, taken := 0, NoReader, [], [];
    }

    /** What the message reader that Read will use still has. */
    function Left(): bytes
      reads this
    {
      if tmpr.Open? then tmpr.rest else if begun < |arriving| then arriving[begun] else []
    }

    predicate Exhausted()
      reads this
    { tmpr == NoReader && begun >= |arriving| }

    /** Read. It fails when NextReader has no further message, and when the message reader fails, which
        may still have produced bytes and stays in use. In every case it returns the next bytes of the
        stream of messages, and never bytes of two messages; the end of a message is no error. */
    method Read(size: nat, answer: Answer) returns (b: bytes, ok: bool)
      requires Valid()
      requires answer.n <= size && answer.n <= |Left()|
      requires answer.status == EndOfMessage ==> answer.n == |Left()|
      modifies this`begun, this`tmpr, this`taken
      ensures Valid()
      ensures ok <==> !old(Exhausted()) && answer.status != Broken
      ensures old(Exhausted()) ==> b == [] && begun == old(begun) && tmpr == old(tmpr)
      ensures b == old(Left())[..answer.n] && taken == old(taken) + b && taken <= Flat(arriving)
      ensures !old(Exhausted()) ==>
                && 0 < begun
                && |Flat(arriving[..begun - 1])| <= |old(taken)| && |taken| <= |Flat(arriving[..begun])|
                && tmpr == if answer.status == EndOfMessage then NoReader else Open(old(Left())[answer.n..])
    {
      hide Flat;
      if tmpr == NoReader {
        if begun == |arriving| {
          assert arriving[..begun] == arriving;
          return [], false;
        }
        FlatTake(arriving, begun);
        tmpr := Open(arriving[begun]);
        begun := begun + 1;
      }
      Advance(arriving, begun, tmpr.rest, taken, answer.n);
      b := tmpr.rest[..answer.n];
      var rest := tmpr.rest[answer.n..];
      taken := taken + b;
      assert answer.status == EndOfMessage ==> taken + rest == taken;
      tmpr := if answer.status == EndOfMessage then NoReader else Open(rest);
      return b, answer.status != Broken;
    }

    /** Write: one message a call, or, when the socket fails, none. */
    method Write(b: bytes, fails: bool) returns (ok: bool)
      modifies this`written
      ensures ok <==> !fails
      ensures written == old(written) + if fails then [] else [b]
    {
      if fails { return false; }
      written := written + [b];
      return true;
    }
  }

  /** What the select loop of `Encode` receives, in the order in which it receives it. */
  datatype Event = Chunk(b: bytes) | ReadError(eof: bool) | Cancelled

  datatype Ending = StillOpen | EndSent | ErrorSent | EncodeCancelled | WriteFailed

  /** The frames a client's loop writes for the events it sees. */
  function FramesFor(p: Peer, events: seq<Event>): (frames: seq<bytes>)
    ensures |frames| <= |events|
  {
    if events == [] then []
    else match events[0]
      case Chunk(b) => [Encoded(PacketOf(p, Data(b)))] + FramesFor(p, events[1..])
      case ReadError(eof) => [Encoded(PacketOf(p, Close(eof)))]
      case Cancelled => []
  }

  /** How many chunks come before anything else. */
  function Leading(events: seq<Event>): (n: nat)
    ensures n <= |events|
    ensures forall k :: 0 <= k < n ==> events[k].Chunk?
    ensures n < |events| ==> !events[n].Chunk?
  {
    if events == [] || !events[0].Chunk? then 0 else 1 + Leading(events[1..])
  }

  function Least(a: nat, b: nat): nat { if a < b then a else b }

  class Encoder {
    const out: WebsocketTunnel

    constructor (out: WebsocketTunnel)
      ensures this.out == out
    { this.out := out; }

    /** Header and payload leave in a single write, under the mutex. */
    method Write(h: bytes, b: bytes, fails: bool) returns (ok: bool)
      modifies out`written
      ensures ok <==> !fails
      ensures out.written == old(out.written) + if fails then [] else [h + b]
    {
      ok := out.Write(h + b, fails);
    }

    /** The select loop: a frame a chunk, and a closing frame when the reader gives up. The socket
        carries `limit` messages before it fails; a failed data frame ends the loop at once, while the
        outcome of the closing frame is ignored. */
    method Encode(events: seq<Event>, src: Addr, dst: Addr, limit: nat) returns (ending: Ending)
      modifies out`written
      ensures var frames := FramesFor(Peer(src, dst), events);
              out.written == old(out.written) + frames[..Least(limit, |frames|)]
      ensures ending == WriteFailed <==> limit < Leading(events)
      ensures ending == StillOpen <==> Leading(events) == |events| <= limit
      ensures Leading(events) <= limit && Leading(events) < |events| ==>
                match events[Leading(events)]
                case ReadError(eof) => ending == if eof then EndSent else ErrorSent
                case Cancelled => ending == EncodeCancelled
    {
      hide FramesFor, Leading, EncodeHeader, Encoded, PacketOf;
      ghost var frames := FramesFor(Peer(src, dst), events);
      FramesOfEvents(Peer(src, dst), events);
      var i := 0;
      while i < |events|
        invariant i <= Leading(events) && i <= limit
        invariant out.written == old(out.written) + frames[..i]
      {
        match events[i] {
          case Cancelled => return EncodeCancelled;
          case Chunk(b) =>
            var h := EncodeHeader(|b|, src, Addr([], src.scheme, [], dst.addr, dst.port));
            DataFrame(Peer(src, dst), b);
            var ok := Write(h, b, i == limit);
            if !ok { return WriteFailed; }
          case ReadError(eof) =>
            var h := EncodeHeader(0, src, CloseDst(eof));
            CloseFrame(Peer(src, dst), eof);
            var _ := Write(h, [], i == limit);
            return if eof then EndSent else ErrorSent;
        }
        i := i + 1;
      }
      return StillOpen;
    }
  }

  lemma DataFrame(p: Peer, b: bytes)
    ensures Encoded(PacketOf(p, Data(b)))
         == EncodeHeader(|b|, p.src, Addr([], p.src.scheme, [], p.dst.addr, p.dst.port)) + b
  {
  }

  lemma CloseFrame(p: Peer, eof: bool)
    ensures Encoded(PacketOf(p, Close(eof))) == EncodeHeader(0, p.src, CloseDst(eof)) + []
    ensures CloseDst(eof) == Addr([], if eof then [101, 110, 100] else [101, 114, 114, 111, 114], [], [], 0)
  {
  }

  /** The frames, one by one. */
  lemma {:induction false} FramesOfEvents(p: Peer, events: seq<Event>)
    ensures var frames, n := FramesFor(p, events), Leading(events);
            && |frames| == n + (if n < |events| && events[n].ReadError? then 1 else 0)
            && (forall k :: 0 <= k < n ==> frames[k] == Encoded(PacketOf(p, Data(events[k].b))))
            && (n < |events| && events[n].ReadError? ==> frames[n] == Encoded(PacketOf(p, Close(events[n].eof))))
  {
    hide Encoded, PacketOf;
    if events != [] && events[0].Chunk? {
      FramesOfEvents(p, events[1..]);
      var n := Leading(events[1..]);
      assert Leading(events) == n + 1;
      assert forall k :: 0 < k < |events| ==> events[k] == events[1..][k - 1];
    }
  }

  // ---------- the stateful tunnel and the state machine ----------

  lemma {:induction false} FlatIsBytes(messages: seq<bytes>, ps: seq<Packet>)
    requires |messages| == |ps| && forall k :: 0 <= k < |ps| ==> messages[k] == Encoded(ps[k])
    ensures Flat(messages) == Bytes(ps)
    decreases |ps|
  {
    hide Encoded;
    if ps != [] { FlatIsBytes(messages[1..], ps[1..]); }
  }

  /** What the contract of Read says about the position before and after is what the machine demands
      of a read over a websocket. */
  lemma ReadsInOneMessage(cfg: seq<Peer>, s: State, messages: seq<bytes>, begun: nat, n: nat)
    requires WireOk(cfg, s.wire)
    requires var ps := Packets(cfg, s.wire);
             |messages| == |ps| && forall k :: 0 <= k < |ps| ==> messages[k] == Encoded(ps[k])
    requires 0 < begun <= |messages|
    requires |Flat(messages[..begun - 1])| <= s.taken && s.taken + n <= |Flat(messages[..begun])|
    ensures InOneMessage(cfg, s.wire, s.taken, s.taken + n)
  {
    hide Encoded, Packets, WireOk, Flat, Bytes;
    var ps := Packets(cfg, s.wire);
    FlatIsBytes(messages[..begun - 1], ps[..begun - 1]);
    FlatIsBytes(messages[..begun], ps[..begun]);
    var k := begun - 1;
    assert |Bytes(ps[..k])| <= s.taken && s.taken + n <= |Bytes(ps[..k + 1])|;
  }

  // ---------- one client, there and back ----------

  /** What the reader goroutine can hand over. */
  predicate EventsOk(events: seq<Event>) {
    forall e :: e in events && e.Chunk? ==> 0 < |e.b| <= BUFFER_SIZE
  }

  /** The bytes a client got rid of before it ended. */
  function ChunksOf(events: seq<Event>): bytes {
    if events == [] || !events[0].Chunk? then [] else events[0].b + ChunksOf(events[1..])
  }

  function SentFor(events: seq<Event>): seq<Sent> {
    if events == [] then []
    else match events[0]
      case Chunk(b) => [Sent(0, Data(b))] + SentFor(events[1..])
      case ReadError(eof) => [Sent(0, Close(eof))]
      case Cancelled => []
  }

  lemma {:induction false} SentBytesCons(e: Sent, wire: seq<Sent>, i: nat)
    ensures SentBytes([e] + wire, i) == (if e.who == i && e.body.Data? then e.body.chunk else []) + SentBytes(wire, i)
    decreases |wire|
  {
    if wire == [] {
      assert [e] + wire == [] + [e];
      SentBytesSnoc([], e, i);
    } else {
      var front, last := wire[..|wire| - 1], wire[|wire| - 1];
      assert [e] + wire == ([e] + front) + [last] && wire == front + [last];
      SentBytesCons(e, front, i);
      SentBytesSnoc([e] + front, last, i);
      SentBytesSnoc(front, last, i);
    }
  }

  lemma {:induction false} SentIsChunks(p: Peer, events: seq<Event>)
    requires EventsOk(events)
    ensures WireOk([p], SentFor(events)) && SentBytes(SentFor(events), 0) == ChunksOf(events)
    decreases |events|
  {
    if events != [] {
      hide SentBytes;
      assert events[0] in events && forall e :: e in events[1..] ==> e in events;
      match events[0]
      case Chunk(b) =>
        SentIsChunks(p, events[1..]);
        SentBytesCons(Sent(0, Data(b)), SentFor(events[1..]), 0);
      case ReadError(eof) =>
        SentBytesCons(Sent(0, Close(eof)), [], 0);
        assert [Sent(0, Close(eof))] + [] == SentFor(events);
        NothingSent();
      case Cancelled => NothingSent();
    }
  }

  lemma NothingSent()
    ensures SentBytes([], 0) == []
  {
  }

  lemma {:induction false} FramesAreSent(p: Peer, events: seq<Event>)
    ensures var frames, wire := FramesFor(p, events), SentFor(events);
            && |frames| == |wire|
            && (forall k :: 0 <= k < |wire| ==> wire[k].who == 0 && frames[k] == Encoded(PacketOf(p, wire[k].body)))
    decreases |events|
  {
    hide Encoded, PacketOf;
    if events != [] && events[0].Chunk? { FramesAreSent(p, events[1..]); }
  }

  /** Encode and parse: whatever a client's loop writes, the parser reads without error and routes
      exactly the bytes of its chunks under its address. */
  lemma EncodeRoundTrip(p: Peer, events: seq<Event>)
    requires CfgOk([p]) && EventsOk(events)
    ensures var f := Fold(START, Flat(FramesFor(p, events)));
            f.error == NoError && DataOf(WireSrc(p.src), f.atoms) == ChunksOf(events)
  {
    hide Fold, Flat, FramesFor, Packets, SentFor, ChunksOf, SentBytes, WireOk, CfgOk, EventsOk, Encoded;
    hide DataOf, WireAtoms, AllSendable, AfterAll;
    var wire := SentFor(events);
    SentIsChunks(p, events);
    FramesAreSent(p, events);
    var ps := Packets([p], wire);
    FlatIsBytes(FramesFor(p, events), ps);
    WireData([p], wire, 0);
    FoldWire(ps);
  }

  /** ... and when the socket fails on the way, what has left decodes to a prefix of the chunks. */
  lemma FramesBeforeFailure(p: Peer, events: seq<Event>, n: nat)
    requires CfgOk([p]) && EventsOk(events) && n <= |FramesFor(p, events)|
    ensures var f := Fold(START, Flat(FramesFor(p, events)[..n]));
            f.error == NoError && DataOf(WireSrc(p.src), f.atoms) == ChunksOf(events[..n]) <= ChunksOf(events)
  {
    hide Fold, Flat, FramesFor, ChunksOf, CfgOk, DataOf;
    FirstFrames(p, events, n);
    EncodeRoundTrip(p, events[..n]);
  }

  lemma {:induction false} FirstFrames(p: Peer, events: seq<Event>, n: nat)
    requires n <= |FramesFor(p, events)|
    ensures FramesFor(p, events)[..n] == FramesFor(p, events[..n])
    ensures ChunksOf(events[..n]) <= ChunksOf(events)
    decreases n
  {
    if n > 0 {
      assert events[..n][1..] == events[1..][..n - 1];
      if events[0].Chunk? { FirstFrames(p, events[1..], n - 1); }
    }
  }
}
