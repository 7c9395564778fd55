/** internal/telebit/parser.go, v1.go and decoder.go: the resumable parser, updated in place. */
module ParserV1 {
  import opened Text
  import opened Addrs
  import opened Header
  import opened ParserModel

  class Parser {
    var state: ParserState
    var parseState: Phase
    var consumed: nat
    /** Every RouteBytes call made on the handler so far. */
    ghost var routed: seq<Route>

    constructor ()
      ensures Value() == START && consumed == 0 && routed == []
    {
      state, parseState, consumed := EMPTY, VersionState, 0;
      routed := [];
    }

    function Value(): Machine
      reads this
    { Machine(parseState, state) }

    /** Nothing counted is left over from an earlier write, unless the parser is stuck on a version
        byte it refused; then no write will succeed again. */
    predicate Accounted()
      reads this
    { consumed == 0 || (parseState != VersionState && state.version != V1) }

    /** What a pass leaves behind: the new state, the calls it made, and, unless a slice was out of
        range, the count of the bytes it took. */
    twostate predicate Did(b: bytes, m: Machine, rest: bytes, calls: seq<Route>, err: Error)
      reads this
    {
      && Value() == m
      && routed == old(routed) + calls
      && (err != SlicePanic ==> |rest| <= |b| && consumed == old(consumed) + |b| - |rest|)
    }

    method RouteBytes(src: Addr, dst: Addr, payload: bytes, ghost offset: int)
      modifies this`routed
      ensures routed == old(routed) + [Route(src, dst, payload, offset)]
    {
      routed := routed + [Route(src, dst, payload, offset)];
    }

    method UnpackV1HeaderLength(b: bytes) returns (rest: bytes)
      requires b != [] && parseState == HeaderLengthState
      modifies this
      ensures OnePass(old(Value()), b).Continue? && rest == OnePass(old(Value()), b).rest
      ensures Did(b, OnePass(old(Value()), b).m, rest, [], NoError)
    {
      state := state.(headerLen := b[0]);
      rest := b[1..];
      consumed := consumed + 1;
      parseState := HeaderState;
    }

    method UnpackV1Header(b: bytes, n: nat) returns (rest: bytes, err: Error)
      requires parseState == HeaderState && n == |b|
      modifies this
      ensures var p := HeaderPass(old(Value()), b);
              && rest == p.rest
              && err == (if p.Stop? then p.error else NoError)
              && Did(b, p.m, rest, p.routed, err)
    {
      hide ParseHeader;
      var m := |state.header|;
      var k := state.headerLen - m;
      if n < k { k := n; }
      if k < 0 { return b, SlicePanic; }
      consumed := consumed + k;
      var c := b[..k];
      rest := b[k..];
      state := state.(header := state.header + c);
      if state.headerLen != |state.header| { return rest, NoError; }
      var text := state.header;
      state := state.(header := []);
      match ParseHeader(text) {
        case TooFewParts => return rest, BadHeader;
        case BadLength => return rest, BadPayloadLength;
        case ControlMessage(len) =>
          state := state.(payloadLen := len);
          return rest, NotImplemented;
        case Fields(src, dst, len) =>
          state := state.(payloadLen := len, srcAddr := src, dstAddr := dst);
          parseState := PayloadState;
          if dst.scheme == END {
            RouteBytes(state.srcAddr, state.dstAddr, [], 0);
          }
          return rest, NoError;
      }
    }

    method UnpackV1Payload(b: bytes, n: nat) returns (rest: bytes, err: Error)
      requires n == |b|
      requires parseState == PayloadState || Value() == START
      modifies this
      ensures var p := PayloadPass(old(Value()), b);
              && rest == p.rest
              && err == (if p.Stop? then p.error else NoError)
              && Did(b, p.m, rest, p.routed, err)
    {
      if state.payloadLen == 0 {
        RouteBytes(state.srcAddr, state.dstAddr, [], 0);
        return b, NoError;
      }
      var k := state.payloadLen - state.payloadWritten;
      if n < k { k := n; }
      if k < 0 { return b, SlicePanic; }
      var c := b[..k];
      rest := b[k..];
      RouteBytes(state.srcAddr, state.dstAddr, c, state.payloadWritten);
      consumed := consumed + k;
      state := state.(payloadWritten := state.payloadWritten + k);
      if state.payloadWritten == state.payloadLen {
        state := EMPTY;
        parseState := VersionState;
      }
      return rest, NoError;
    }

    /** The switch in the body of the loop. */
    method Switch(b: bytes, n: nat) returns (rest: bytes, err: Error)
      requires n == |b| > 0
      modifies this
      ensures var p := OnePass(old(Value()), b);
              && rest == p.rest
              && err == (if p.Stop? then p.error else NoError)
              && Did(b, p.m, rest, p.routed, err)
    {
      hide HeaderPass, PayloadPass;
      err := NoError;
      match parseState {
        case VersionState =>
          state := state.(version := b[0]);
          rest := b[1..];
          consumed := consumed + 1;
          parseState := HeaderLengthState;
        case HeaderLengthState =>
          rest := UnpackV1HeaderLength(b);
        case HeaderState =>
          rest, err := UnpackV1Header(b, n);
        case PayloadState =>
          // only after an empty frame: a payload with bytes resets the state itself
          if state.payloadWritten == state.payloadLen {
            state := EMPTY;
            parseState := VersionState;
          }
          rest, err := UnpackV1Payload(b, n);
      }
    }

    /** The loop. A panic is the error LoopPanic or SlicePanic; the calls made before it stay made. */
    method UnpackV1(b: bytes) returns (taken: nat, err: Error)
      modifies this
      ensures var o := Loop(old(Value()), b, 0);
              && err == o.error
              && |o.left| <= |b|
              && Value() == o.m && routed == old(routed) + o.routed
              && (err != LoopPanic && err != SlicePanic ==>
                    consumed == 0 && taken == old(consumed) + |b| - |o.left|)
    {
      hide Loop, OnePass;
      ghost var o := After(routed, Loop(Value(), b, 0));
      LoopTakesAll(Value(), b, 0);
      var left, z := b, 0;
      while true
        invariant 0 <= z <= 21
        invariant |left| <= |b| && consumed == old(consumed) + |b| - |left|
        invariant o == After(routed, Loop(Value(), left, z))
        decreases 21 - z
      {
        LoopEnds(Value(), left, z);
        if z > 20 { return 0, LoopPanic; }
        var n := |left|;
        if n < 1 { break; }
        LoopUnfold(Value(), left, z);
        ghost var p, before := OnePass(Value(), left), routed;
        ghost var tail := Loop(p.m, p.rest, z + 1);
        var e;
        left, e := Switch(left, n);
        if e != NoError {
          taken, consumed := consumed, 0;
          return taken, e;
        }
        assert before + (p.routed + tail.routed) == routed + tail.routed;
        z := z + 1;
      }
      taken, consumed := consumed, 0;
      return taken, NoError;
    }

    method Write(b: bytes) returns (n: nat, err: Error)
      modifies this
      ensures var o := WriteOutcome(old(Value()), b);
              && err == o.error
              && |o.left| <= |b|
              && Value() == o.m && routed == old(routed) + o.routed
              && (err != LoopPanic && err != SlicePanic ==>
                    && (err != EmptyWrite && err != BadVersion ==>
                          consumed == 0 && n == old(consumed) + |b| - |o.left|)
                    && (err == EmptyWrite || err == BadVersion ==> n == 0))
      // nothing to write, or a version other than 254 where one is looked at: an error and no call
      ensures |b| == 0 ==> err == EmptyWrite && Value() == old(Value())
      ensures |b| > 0 ==>
                (err == BadVersion <==> (if old(parseState) == VersionState then b[0] else old(state.version)) != 254)
      ensures err == EmptyWrite || err == BadVersion ==> routed == old(routed)
      // byte accounting: no error means the whole of b was taken
      ensures old(Accounted()) && err != LoopPanic && err != SlicePanic ==>
                Accounted() && (err == NoError ==> n == |b|)
    {
      hide OnePass;
      if |b| < 1 { return 0, EmptyWrite; }
      var rest := b;
      if parseState == VersionState {
        state := state.(version := b[0]);
        rest := b[1..];
        consumed := consumed + 1;
        parseState := HeaderLengthState;
      }
      if state.version == V1 {
        LoopTakesAll(Value(), rest, 0);
        WriteTakesAll(old(Value()), b);
        n, err := UnpackV1(rest);
      } else {
        return 0, BadVersion;
      }
    }
  }

  /** `Decoder.Decode` over the chunks its reader goroutine hands over: it stops at the first write
      that fails. Every write that does not fail has taken its whole chunk, so the case the source
      leaves open, fewer bytes taken than given and no error, never happens. */
  method Decode(chunks: seq<bytes>) returns (p: Parser, err: Error)
    ensures fresh(p)
    ensures var o := Run(START, chunks);
            err == o.error && p.Value() == o.m && p.routed == o.routed
  {
    hide Run, Loop, WriteOutcome;
    p := new Parser();
    var i := 0;
    assert chunks[0..] == chunks;
    while i < |chunks|
      invariant 0 <= i <= |chunks|
      invariant p.consumed == 0
      invariant Run(START, chunks) == After(p.routed, Run(p.Value(), chunks[i..]))
    {
      RunNext(p.Value(), chunks, i, p.routed);
      var n;
      n, err := p.Write(chunks[i]);
      if err != NoError { return p, err; }
      assert n == |chunks[i]|;
      i := i + 1;
    }
    RunUnfold(p.Value(), chunks[i..]);
    return p, NoError;
  }

  lemma RunNext(m: Machine, chunks: seq<bytes>, i: nat, routed: seq<Route>)
    requires i < |chunks|
    ensures var o := WriteOutcome(m, chunks[i]);
            After(routed, Run(m, chunks[i..]))
            == if o.error != NoError then After(routed, o) else After(routed + o.routed, Run(o.m, chunks[i + 1..]))
  {
    hide Run, WriteOutcome;
    var o, rest := WriteOutcome(m, chunks[i]), chunks[i..];
    assert rest[0] == chunks[i] && rest[1..] == chunks[i + 1..];
    RunUnfold(m, rest);
    var tail := Run(o.m, chunks[i + 1..]);
    assert routed + (o.routed + tail.routed) == routed + o.routed + tail.routed;
  }
}
