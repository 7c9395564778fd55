/** Well-formed frames: what the parser routes for them, and how many passes of its guarded loop
    they cost. */
module Frames {
  import opened Text
  import opened Addrs
  import opened Header
  import opened ParserModel
  import opened Chunking

  datatype Packet = Packet(src: Addr, dst: Addr, payload: bytes)

  /** A packet whose header survives the trip, see Header.HeaderRoundTrip. */
  predicate Sendable(p: Packet) {
    && Typed(|p.payload|, p.src, p.dst)
    && Clean(p.src, p.dst)
    && |HeaderLine(|p.payload|, p.src, p.dst)| <= 255
  }

  predicate AllSendable(ps: seq<Packet>) {
    forall p :: p in ps ==> Sendable(p)
  }

  function Encoded(p: Packet): bytes { Frame(p.payload, p.src, p.dst) }

  function Bytes(ps: seq<Packet>): bytes {
    if ps == [] then [] else Encoded(ps[0]) + Bytes(ps[1..])
  }

  lemma {:induction false} BytesAppend(a: seq<Packet>, b: seq<Packet>)
    ensures Bytes(a + b) == Bytes(a) + Bytes(b)
  {
    if a == [] {
      assert a + b == b;
    } else {
      assert (a + b)[1..] == a[1..] + b;
      BytesAppend(a[1..], b);
    }
  }

  lemma BytesSnoc(ps: seq<Packet>, p: Packet)
    ensures Bytes(ps + [p]) == Bytes(ps) + Encoded(p)
  {
    hide Encoded;
    BytesAppend(ps, [p]);
    assert |[p][1..]| == 0;
    assert Bytes([p]) == Encoded(p) + [];
  }

  // ---------- what is routed ----------

  function LineOf(p: Packet): bytes { HeaderLine(|p.payload|, p.src, p.dst) }

  /** The parser when it holds the whole header of p. */
  function Loaded(p: Packet): Machine
    requires Sendable(p)
  {
    Machine(PayloadState, ParserState(V1, |LineOf(p)|, [], |p.payload|, WireSrc(p.src), WireDst(p.dst), 0))
  }

  /** The parser when it has taken the whole frame. */
  function Done(p: Packet): Machine
    requires Sendable(p)
  {
    if p.payload == [] then Loaded(p) else START
  }

  /** Between two frames the parser is freshly reset, or still owes the reset of an empty frame. */
  predicate AtBoundary(m: Machine) { m == START || (Pending(m) && Sound(m) && m.state.version == V1) }

  /** The late report of an empty frame. */
  function Late(m: Machine): seq<Atom> {
    if Pending(m) then [Empty(NO_ADDR, NO_ADDR)] else []
  }

  function EndAtoms(p: Packet): seq<Atom> {
    if p.dst.scheme == END then [Empty(WireSrc(p.src), WireDst(p.dst))] else []
  }

  function PacketAtoms(p: Packet): seq<Atom> {
    EndAtoms(p) + PayloadAtoms(WireSrc(p.src), WireDst(p.dst), 0, p.payload)
  }

  lemma HeaderOfPacket(p: Packet, m: Machine)
    requires Sendable(p)
    requires m == Machine(HeaderState, ParserState(V1, |LineOf(p)|, LineOf(p), 0, NO_ADDR, NO_ADDR, 0))
    ensures FinishHeader(m) == Finished(Loaded(p), NoError,
              if p.dst.scheme == END then [Route(WireSrc(p.src), WireDst(p.dst), [], 0)] else [])
  {
    hide HeaderLine, ParseHeader;
    LineRoundTrip(|p.payload|, p.src, p.dst);
  }

  function AwaitLength(): Machine { Machine(HeaderLengthState, EMPTY.(version := V1)) }

  function AwaitHeader(p: Packet): Machine { Machine(HeaderState, EMPTY.(version := V1, headerLen := |LineOf(p)|)) }

  lemma LineNotEmpty(p: Packet)
    ensures LineOf(p) != []
  {
  }

  lemma FoldHeaderOf(p: Packet)
    requires Sendable(p)
    ensures Fold(AwaitHeader(p), LineOf(p)) == Fed(Loaded(p), EndAtoms(p), NoError)
  {
    hide FinishHeader, Fold;
    LineNotEmpty(p);
    var m := AwaitHeader(p);
    FoldHeader(m, LineOf(p));
    var grown := m.(state := m.state.(header := m.state.header + LineOf(p)));
    assert m.state.header + LineOf(p) == LineOf(p);
    HeaderOfPacket(p, grown);
    AtomsOfOne(Route(WireSrc(p.src), WireDst(p.dst), [], 0));
  }

  lemma FoldPayloadOf(p: Packet)
    requires Sendable(p)
    ensures Fold(Loaded(p), p.payload)
         == Fed(Done(p), PayloadAtoms(WireSrc(p.src), WireDst(p.dst), 0, p.payload), NoError)
  {
    if p.payload != [] { FoldPayload(Loaded(p), p.payload); }
  }

  lemma FoldPreamble(m: Machine, p: Packet)
    requires Sendable(p) && AtBoundary(m)
    ensures Fold(m, [V1, |LineOf(p)|]) == Fed(AwaitHeader(p), Late(m), NoError)
  {
    hide FinishHeader, HeaderLine;
    FoldOne(m, V1);
    FoldOne(AwaitLength(), |LineOf(p)|);
    assert [V1, |LineOf(p)|] == [V1] + [|LineOf(p)|];
    FoldAppend(m, [V1], [|LineOf(p)|]);
    assert Late(m) + [] == Late(m);
  }

  /** One frame, from any boundary: its bytes come out under its own addresses, in order; an "end"
      is reported before them; nothing else is routed but the late report of the frame before. */
  lemma FoldFrame(m: Machine, p: Packet)
    requires Sendable(p) && AtBoundary(m)
    ensures Fold(m, Encoded(p)) == Fed(Done(p), Late(m) + PacketAtoms(p), NoError)
  {
    hide Fold, FinishHeader, HeaderLine;
    var line := LineOf(p);
    var pre := [V1, |line|];
    FoldPreamble(m, p);
    FoldHeaderOf(p);
    FoldPayloadOf(p);
    assert Encoded(p) == pre + line + p.payload;
    FoldAppend(m, pre, line);
    FoldAppend(m, pre + line, p.payload);
    assert Late(m) + EndAtoms(p) + PayloadAtoms(WireSrc(p.src), WireDst(p.dst), 0, p.payload)
        == Late(m) + PacketAtoms(p);
  }

  lemma DoneAtBoundary(p: Packet)
    requires Sendable(p)
    ensures AtBoundary(Done(p)) && (Pending(Done(p)) <==> p.payload == [])
  {
  }

  /** The parser between the frames ps and whatever follows. */
  function AfterAll(ps: seq<Packet>): (m: Machine)
    requires AllSendable(ps)
  {
    if ps == [] then START else Done(ps[|ps| - 1])
  }

  lemma AfterAllAtBoundary(ps: seq<Packet>)
    requires AllSendable(ps)
    ensures AtBoundary(AfterAll(ps)) && Sound(AfterAll(ps))
  {
    if ps != [] { DoneAtBoundary(ps[|ps| - 1]); }
  }

  /** Everything routed for a sequence of frames. */
  function WireAtoms(ps: seq<Packet>): seq<Atom>
    requires AllSendable(ps)
  {
    if ps == [] then []
    else
      var n := |ps| - 1;
      WireAtoms(ps[..n]) + (Late(AfterAll(ps[..n])) + PacketAtoms(ps[n]))
  }

  lemma {:induction false} FoldWire(ps: seq<Packet>)
    requires AllSendable(ps)
    ensures Fold(START, Bytes(ps)) == Fed(AfterAll(ps), WireAtoms(ps), NoError)
  {
    hide Fold, Encoded, Sendable, PacketAtoms, Late, AtBoundary, Done;
    if ps == [] {
      FoldNothing(START);
    } else {
      var n := |ps| - 1;
      FoldWire(ps[..n]);
      AfterAllAtBoundary(ps[..n]);
      FoldFrame(AfterAll(ps[..n]), ps[n]);
      BytesSnoc(ps[..n], ps[n]);
      assert ps == ps[..n] + [ps[n]];
      FoldAppend(START, Bytes(ps[..n]), Encoded(ps[n]));
    }
  }

  lemma FoldNothing(m: Machine)
    ensures Fold(m, []) == Fed(m, [], NoError)
  {
  }

  // ---------- frames are never refused ----------

  lemma {:induction false} HeaderNeverRefused(m: Machine, c: bytes)
    requires Sound(m) && m.phase == HeaderState && m.state.version == V1
    requires |c| <= m.state.headerLen - |m.state.header|
    ensures NeverRefused(m, c)
    decreases |c|
  {
    hide FinishHeader;
    if c != [] {
      var f := Step(m, c[0]);
      if |c| > 1 {
        StepKeepsSound(m, c[0]);
        HeaderNeverRefused(f.m, c[1..]);
      } else {
        assert |c[1..]| == 0;
      }
    }
  }

  lemma {:induction false} PayloadNeverRefused(m: Machine, c: bytes)
    requires Sound(m) && m.phase == PayloadState && m.state.version == V1
    requires |c| <= m.state.payloadLen - m.state.payloadWritten
    ensures NeverRefused(m, c)
    decreases |c|
  {
    if c != [] {
      if |c| > 1 { PayloadNeverRefused(Step(m, c[0]).m, c[1..]); } else { assert |c[1..]| == 0; }
    }
  }

  lemma PreambleNeverRefused(m: Machine, n: byte)
    requires AtBoundary(m)
    ensures NeverRefused(m, [V1, n])
  {
    hide FinishHeader;
    assert [V1, n][1..] == [n] && |[n][1..]| == 0;
    assert Step(m, V1).m == AwaitLength() && Step(AwaitLength(), n).error == NoError;
    assert NeverRefused(AwaitLength(), [n]);
  }

  lemma FrameNeverRefused(m: Machine, p: Packet)
    requires Sendable(p) && AtBoundary(m)
    ensures NeverRefused(m, Encoded(p))
  {
    hide Fold, FinishHeader, HeaderLine, NeverRefused;
    var line := LineOf(p);
    var pre := [V1, |line|];
    FoldPreamble(m, p);
    FoldHeaderOf(p);
    PreambleNeverRefused(m, |line|);
    HeaderNeverRefused(AwaitHeader(p), line);
    PayloadNeverRefused(Loaded(p), p.payload);
    assert Encoded(p) == pre + line + p.payload;
    FoldAppend(m, pre, line);
    NeverRefusedAppend(m, pre, line);
    NeverRefusedAppend(m, pre + line, p.payload);
  }

  /** A stream of well-formed frames is never refused, however it is cut. */
  lemma {:induction false} BytesNeverRefused(m: Machine, ps: seq<Packet>)
    requires AllSendable(ps) && AtBoundary(m)
    ensures NeverRefused(m, Bytes(ps))
    decreases |ps|
  {
    if ps == [] {
      NothingNeverRefused(m);
    } else {
      hide Fold, NeverRefused, Encoded, Done, AtBoundary;
      FoldFrame(m, ps[0]);
      FrameNeverRefused(m, ps[0]);
      DoneAtBoundary(ps[0]);
      BytesNeverRefused(Done(ps[0]), ps[1..]);
      NeverRefusedAppend(m, Encoded(ps[0]), Bytes(ps[1..]));
    }
  }

  lemma NothingNeverRefused(m: Machine)
    ensures NeverRefused(m, [])
  {
  }

  // ---------- how many passes ----------

  /** Working passes of the loop over b, were there no guard. */
  function Passes(m: Machine, b: bytes): nat
    requires Sound(m)
    decreases |b|, Rank(m)
  {
    if b == [] then 0
    else
      PassKeepsSound(m, b);
      var p := OnePass(m, b);
      if p.Stop? then 1
      else
        PassProgress(m, b);
        1 + Passes(p.m, p.rest)
  }

  lemma PassesUnfold(m: Machine, b: bytes)
    requires Sound(m) && b != []
    ensures var p := OnePass(m, b);
            if p.Stop? then Passes(m, b) == 1
            else Sound(p.m)
                 && (|p.rest| < |b| || (p.rest == b && Rank(p.m) < Rank(m)))
                 && Passes(m, b) == 1 + Passes(p.m, p.rest)
  {
    hide Sound, FinishHeader;
    PassKeepsSound(m, b);
    if OnePass(m, b).Continue? { ProgressWhenSound(m, b); }
  }

  lemma ProgressWhenSound(m: Machine, b: bytes)
    requires Sound(m) && b != [] && OnePass(m, b).Continue?
    ensures var p := OnePass(m, b);
            |p.rest| < |b| || (p.rest == b && Rank(p.m) < Rank(m))
  {
    PassProgress(m, b);
  }

  /** The guard, exactly: 20 working passes fit, and one more if the last of them ends in an error. */
  lemma {:induction false} GuardExact(m: Machine, b: bytes, z: nat)
    requires Sound(m) && z <= 21
    ensures Loop(m, b, z).error == LoopPanic
       <==> z + Passes(m, b) > if Fold(m, b).error == NoError then 20 else 21
    decreases 21 - z
  {
    hide OnePass, Sound, Step;
    LoopEnds(m, b, z);
    if b != [] {
      PassesUnfold(m, b);
      PassIsFold(m, b);
      var p := OnePass(m, b);
      if z <= 20 {
        LoopUnfold(m, b, z);
        if p.Continue? {
          GuardExact(p.m, p.rest, z + 1);
        } else {
          StopIsNotGuard(m, b);
        }
      }
    }
  }

  lemma StopIsNotGuard(m: Machine, b: bytes)
    requires b != [] && OnePass(m, b).Stop?
    ensures OnePass(m, b).error != LoopPanic && OnePass(m, b).error != NoError
  {
    PassErrors(m, b);
  }
}
