/** The v1 parser as functions on values: one pass of the `unpackV1` loop, the guarded loop, one
    `Write`, and a run of writes. ParserV1.dfy proves the stateful parser against these; Chunking.dfy
    relates them to an automaton that knows nothing of chunks. */
module ParserModel {
  import opened Text
  import opened Addrs
  import opened Header

  datatype Phase = VersionState | HeaderLengthState | HeaderState | PayloadState

  datatype ParserState = ParserState(
    version: byte, headerLen: int, header: bytes, payloadLen: int,
    srcAddr: Addr, dstAddr: Addr, payloadWritten: int)

  /** Go's zero value `ParserState{}`. */
  const EMPTY: ParserState := ParserState(0, 0, [], 0, NO_ADDR, NO_ADDR, 0)

  datatype Machine = Machine(phase: Phase, state: ParserState)

  const START: Machine := Machine(VersionState, EMPTY)

  datatype Error =
    | NoError
    | EmptyWrite
    | BadVersion
    | BadHeader
    | BadPayloadLength
    | NotImplemented
    | LoopPanic      // panic("stuck in an infinite loop?")
    | SlicePanic     // slice bounds out of range

  /** One call of the handler's RouteBytes. `offset` records where in its frame's payload the bytes
      start; the handler does not see it. */
  datatype Route = Route(src: Addr, dst: Addr, payload: bytes, offset: int)

  // ---------- one pass of the loop ----------

  datatype Pass =
    | Continue(m: Machine, rest: bytes, routed: seq<Route>)
    | Stop(m: Machine, rest: bytes, error: Error, routed: seq<Route>)

  datatype Finished = Finished(m: Machine, error: Error, routed: seq<Route>)

  /** The second half of `unpackV1Header`, once all announced bytes are in. */
  function FinishHeader(m: Machine): Finished {
    var cleared := m.state.(header := []);
    match ParseHeader(m.state.header)
    case TooFewParts => Finished(m.(state := cleared), BadHeader, [])
    case BadLength => Finished(m.(state := cleared), BadPayloadLength, [])
    case ControlMessage(n) => Finished(m.(state := cleared.(payloadLen := n)), NotImplemented, [])
    case Fields(src, dst, n) =>
      Finished(Machine(PayloadState, cleared.(payloadLen := n, srcAddr := src, dstAddr := dst)),
               NoError,
               if dst.scheme == END then [Route(src, dst, [], 0)] else [])
  }

  function HeaderPass(m: Machine, b: bytes): Pass {
    var want := m.state.headerLen - |m.state.header|;
    var k := if |b| < want then |b| else want;
    if k < 0 then Stop(m, b, SlicePanic, [])
    else
      var grown := m.(state := m.state.(header := m.state.header + b[..k]));
      if |grown.state.header| != m.state.headerLen then Continue(grown, b[k..], [])
      else
        var f := FinishHeader(grown);
        if f.error == NoError then Continue(f.m, b[k..], f.routed) else Stop(f.m, b[k..], f.error, f.routed)
  }

  /** A frame with an empty payload has been read, and the parser has not noticed yet. */
  predicate Pending(m: Machine) {
    m.phase == PayloadState && m.state.payloadWritten == m.state.payloadLen
  }

  function PayloadPass(m: Machine, b: bytes): Pass {
    if m.state.payloadLen == 0 then
      Continue(m, b, [Route(m.state.srcAddr, m.state.dstAddr, [], 0)])
    else
      var want := m.state.payloadLen - m.state.payloadWritten;
      var k := if |b| < want then |b| else want;
      if k < 0 then Stop(m, b, SlicePanic, [])
      else
        var route := Route(m.state.srcAddr, m.state.dstAddr, b[..k], m.state.payloadWritten);
        var written := m.state.payloadWritten + k;
        Continue(if written == m.state.payloadLen then START else m.(state := m.state.(payloadWritten := written)),
                 b[k..], [route])
  }

  function OnePass(m: Machine, b: bytes): Pass
    requires b != []
  {
    match m.phase
    case VersionState => Continue(Machine(HeaderLengthState, m.state.(version := b[0])), b[1..], [])
    case HeaderLengthState => Continue(Machine(HeaderState, m.state.(headerLen := b[0])), b[1..], [])
    case HeaderState => HeaderPass(m, b)
    case PayloadState => PayloadPass(if Pending(m) then START else m, b)
  }

  /** Phases that can pass without taking a byte, in the order in which they can follow each other. */
  function Rank(m: Machine): nat {
    match m.phase case HeaderState => 2 case PayloadState => 1 case _ => 0
  }

  /** Progress: no pass of the loop can repeat for ever, whatever state it starts in. */
  lemma PassProgress(m: Machine, b: bytes)
    requires b != [] && OnePass(m, b).Continue?
    requires m.phase == PayloadState && m.state.payloadLen == 0 ==> Pending(m)
    ensures var p := OnePass(m, b);
            |p.rest| < |b| || (p.rest == b && Rank(p.m) < Rank(m))
  {
  }

  // ---------- the guarded loop ----------

  datatype Outcome = Outcome(m: Machine, left: bytes, error: Error, routed: seq<Route>)

  function After(routed: seq<Route>, o: Outcome): Outcome {
    o.(routed := routed + o.routed)
  }

  /** `unpackV1`: z counts the passes made so far, the final empty one included. */
  function Loop(m: Machine, b: bytes, z: nat): Outcome
    decreases 21 - z, |b|
  {
    if z > 20 then Outcome(m, b, LoopPanic, [])
    else if b == [] then Outcome(m, [], NoError, [])
    else match OnePass(m, b)
      case Stop(m', rest, e, routed) => Outcome(m', rest, e, routed)
      case Continue(m', rest, routed) => After(routed, Loop(m', rest, z + 1))
  }

  /** The parser once Write has looked at the first byte c of a chunk. */
  function Primed(m: Machine, c: byte): Machine {
    if m.phase == VersionState then Machine(HeaderLengthState, m.state.(version := c)) else m
  }

  /** Write's version check, made once a chunk. */
  predicate Admits(m: Machine, c: byte) { Primed(m, c).state.version == V1 }

  /** `Parser.Write`. */
  function WriteOutcome(m: Machine, b: bytes): Outcome {
    if b == [] then Outcome(m, [], EmptyWrite, [])
    else
      var rest := if m.phase == VersionState then b[1..] else b;
      if !Admits(m, b[0]) then Outcome(Primed(m, b[0]), rest, BadVersion, []) else Loop(Primed(m, b[0]), rest, 0)
  }

  /** The decoder's use of the parser: one write per chunk, until a write fails. */
  function Run(m: Machine, chunks: seq<bytes>): Outcome
    decreases |chunks|
  {
    if chunks == [] then Outcome(m, [], NoError, [])
    else
      var o := WriteOutcome(m, chunks[0]);
      if o.error != NoError then o else After(o.routed, Run(o.m, chunks[1..]))
  }

  // ---------- what the states can look like ----------

  /** Invariant of the parser between writes that did not fail: the counters of the current phase
      are within bounds, and everything else has been reset. */
  predicate Sound(m: Machine) {
    var s := m.state;
    match m.phase
    case VersionState => s == EMPTY
    case HeaderLengthState => s.header == [] && s.payloadWritten == 0 && s.payloadLen == 0
    case HeaderState =>
      && s.payloadWritten == 0 && s.payloadLen == 0 && 0 <= s.headerLen < 256
      && (|s.header| < s.headerLen || (s.headerLen == 0 && s.header == []))
    case PayloadState =>
      && s.header == []
      && ((s.payloadWritten == 0 && s.payloadLen <= 0) || 0 <= s.payloadWritten < s.payloadLen)
  }

  /** Every pass keeps the invariant, whatever the bytes. */
  lemma PassKeepsSound(m: Machine, b: bytes)
    requires b != [] && Sound(m)
    ensures OnePass(m, b).Continue? ==> Sound(OnePass(m, b).m)
  {
    var s := m.state;
    if m.phase == HeaderState {
      var want := s.headerLen - |s.header|;
      var k := if |b| < want then |b| else want;
      assert |s.header + b[..k]| == |s.header| + k;
    }
  }

  lemma DropIsSuffix(b: bytes, k: nat)
    requires k <= |b|
    ensures b[k..] == b[|b| - |b[k..]|..]
  {
  }

  lemma PassRest(m: Machine, b: bytes)
    requires b != []
    ensures var rest := OnePass(m, b).rest; |rest| <= |b| && rest == b[|b| - |rest|..]
  {
    var k := |b| - |OnePass(m, b).rest|;
    assert 0 <= k <= |b| && OnePass(m, b).rest == b[k..] by {
      match m.phase
      case VersionState =>
      case HeaderLengthState =>
      case HeaderState => HeaderPassRest(m, b);
      case PayloadState => PayloadPassRest(if Pending(m) then START else m, b);
    }
    DropIsSuffix(b, k);
  }

  lemma HeaderPassRest(m: Machine, b: bytes)
    ensures var rest := HeaderPass(m, b).rest; |rest| <= |b| && rest == b[|b| - |rest|..]
  {
    var want := m.state.headerLen - |m.state.header|;
    var k := if |b| < want then |b| else want;
    if k >= 0 {
      assert HeaderPass(m, b).rest == b[k..];
      DropIsSuffix(b, k);
    }
  }

  lemma PayloadPassRest(m: Machine, b: bytes)
    ensures var rest := PayloadPass(m, b).rest; |rest| <= |b| && rest == b[|b| - |rest|..]
  {
    var want := m.state.payloadLen - m.state.payloadWritten;
    var k := if |b| < want then |b| else want;
    if m.state.payloadLen != 0 && k >= 0 { DropIsSuffix(b, k); }
  }

  lemma PassErrors(m: Machine, b: bytes)
    requires b != [] && OnePass(m, b).Stop?
    ensures OnePass(m, b).error in {BadHeader, BadPayloadLength, NotImplemented, SlicePanic}
  {
  }

  /** Byte accounting: a loop that ends without error has taken every byte. */
  lemma {:induction false} LoopTakesAll(m: Machine, b: bytes, z: nat)
    ensures var o := Loop(m, b, z);
            && |o.left| <= |b| && o.left == b[|b| - |o.left|..]
            && (o.error == NoError ==> o.left == [])
            && o.error != EmptyWrite && o.error != BadVersion
    decreases 21 - z
  {
    hide Loop, OnePass;
    LoopEnds(m, b, z);
    if z <= 20 && b != [] {
      LoopUnfold(m, b, z);
      PassRest(m, b);
      var p := OnePass(m, b);
      if p.Stop? {
        PassErrors(m, b);
      } else {
        LoopTakesAll(p.m, p.rest, z + 1);
        SuffixOfSuffix(b, p.rest, Loop(p.m, p.rest, z + 1).left);
      }
    }
  }

  /** ... and so is a write. */
  lemma WriteTakesAll(m: Machine, b: bytes)
    ensures var o := WriteOutcome(m, b);
            && |o.left| <= |b| && o.left == b[|b| - |o.left|..]
            && (o.error == NoError ==> o.left == [])
  {
    hide Loop;
    if b != [] {
      var rest := if m.phase == VersionState then b[1..] else b;
      LoopTakesAll(Primed(m, b[0]), rest, 0);
      SuffixOfSuffix(b, rest, WriteOutcome(m, b).left);
    }
  }

  lemma LoopUnfold(m: Machine, b: bytes, z: nat)
    requires z <= 20 && b != []
    ensures var p := OnePass(m, b);
            && (p.Continue? ==> Loop(m, b, z) == After(p.routed, Loop(p.m, p.rest, z + 1)))
            && (p.Stop? ==> Loop(m, b, z) == Outcome(p.m, p.rest, p.error, p.routed) && p.error != NoError)
  {
    if OnePass(m, b).Stop? { PassErrors(m, b); }
  }

  lemma LoopEnds(m: Machine, b: bytes, z: nat)
    ensures z > 20 ==> Loop(m, b, z) == Outcome(m, b, LoopPanic, [])
    ensures z <= 20 && b == [] ==> Loop(m, b, z) == Outcome(m, [], NoError, [])
  {
  }

  lemma RunUnfold(m: Machine, chunks: seq<bytes>)
    ensures chunks == [] ==> Run(m, chunks) == Outcome(m, [], NoError, [])
    ensures chunks != [] ==>
              var o := WriteOutcome(m, chunks[0]);
              Run(m, chunks) == if o.error != NoError then o else After(o.routed, Run(o.m, chunks[1..]))
  {
    hide WriteOutcome;
  }

  /** A refused version byte is never forgotten. */
  lemma RefusalIsFinal(m: Machine, b: bytes, b': bytes)
    requires b' != [] && WriteOutcome(m, b).error == BadVersion
    ensures WriteOutcome(WriteOutcome(m, b).m, b').error == BadVersion
  {
    hide OnePass, Loop;
    var rest := if m.phase == VersionState then b[1..] else b;
    LoopTakesAll(Primed(m, b[0]), rest, 0);
  }

  lemma SuffixOfSuffix(b: bytes, rest: bytes, left: bytes)
    requires |rest| <= |b| && rest == b[|b| - |rest|..]
    requires |left| <= |rest| && left == rest[|rest| - |left|..]
    ensures left == b[|b| - |left|..]
  {
  }
}
