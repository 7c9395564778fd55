/** The "stuck in an infinite loop?" guard of `unpackV1`: exactly which chunks of well-formed frames
    trip it, and which never can. */
module PassGuard {
  import opened Text
  import opened Header
  import opened ParserModel
  import opened Chunking
  import opened Frames

  // ---------- cutting a chunk in two ----------

  /** A pass over a + b either does what it does over a alone, or it runs out of a and goes on in b. */
  lemma PassSplit(m: Machine, a: bytes, b: bytes)
    requires a != [] && b != [] && Sound(m)
    ensures var pa, p := OnePass(m, a), OnePass(m, a + b);
            || (pa.Stop? && p.Stop?)
            || (pa.Continue? && p.Continue? && p.m == pa.m && p.rest == pa.rest + b)
            || (pa.Continue? && pa.rest == [] && SamePass(p, OnePass(pa.m, b)))
  {
    hide HeaderPass, PayloadPass;
    var s := m.state;
    match m.phase
    case VersionState => assert (a + b)[1..] == a[1..] + b;
    case HeaderLengthState => assert (a + b)[1..] == a[1..] + b;
    case HeaderState =>
      var want := s.headerLen - |s.header|;
      if |a| >= want { HeaderWithin(m, a, b); } else { HeaderSplit(m, a, b); }
    case PayloadState =>
      if Pending(m) || s.payloadLen < 0 {
        PayloadStuck(m, a, b);
      } else {
        var want := s.payloadLen - s.payloadWritten;
        if |a| >= want { PayloadWithin(m, a, b); } else { PayloadSplit(m, a, b); }
      }
  }

  /** Both passes stop, or both do the same and leave b untouched. */
  predicate Within(m: Machine, a: bytes, b: bytes)
    requires a != []
  {
    var pa, p := OnePass(m, a), OnePass(m, a + b);
    (pa.Stop? && p.Stop?) || (pa.Continue? && p.Continue? && p.m == pa.m && p.rest == pa.rest + b)
  }

  lemma HeaderWithin(m: Machine, a: bytes, b: bytes)
    requires a != [] && Sound(m) && m.phase == HeaderState && |a| >= m.state.headerLen - |m.state.header|
    ensures Within(m, a, b)
  {
    hide FinishHeader;
    var want := m.state.headerLen - |m.state.header|;
    assert (a + b)[..want] == a[..want] && (a + b)[want..] == a[want..] + b;
  }

  lemma PayloadWithin(m: Machine, a: bytes, b: bytes)
    requires a != [] && Sound(m) && m.phase == PayloadState && m.state.payloadLen > 0
    requires |a| >= m.state.payloadLen - m.state.payloadWritten
    ensures Within(m, a, b)
  {
    var want := m.state.payloadLen - m.state.payloadWritten;
    assert (a + b)[..want] == a[..want] && (a + b)[want..] == a[want..] + b;
  }

  lemma PayloadStuck(m: Machine, a: bytes, b: bytes)
    requires a != [] && Sound(m) && m.phase == PayloadState && (Pending(m) || m.state.payloadLen < 0)
    ensures Within(m, a, b)
  {
  }

  predicate SamePass(p: Pass, q: Pass) {
    p.m == q.m && p.rest == q.rest && p.Stop? == q.Stop?
  }

  lemma HeaderSplit(m: Machine, a: bytes, b: bytes)
    requires a != [] && b != [] && Sound(m) && m.phase == HeaderState
    requires |a| < m.state.headerLen - |m.state.header|
    ensures OnePass(m, a).Continue? && OnePass(m, a).rest == []
    ensures SamePass(OnePass(m, a + b), OnePass(OnePass(m, a).m, b))
  {
    hide FinishHeader;
    var s := m.state;
    var want := s.headerLen - |s.header|;
    var mid := m.(state := s.(header := s.header + a));
    assert a[..|a|] == a;
    assert OnePass(m, a) == Continue(mid, a[|a|..], []);
    var k := if |a + b| < want then |a + b| else want;
    assert (a + b)[..k] == a + b[..k - |a|] && (a + b)[k..] == b[k - |a|..];
    assert mid.state.header + b[..k - |a|] == s.header + (a + b)[..k];
  }

  lemma PayloadSplit(m: Machine, a: bytes, b: bytes)
    requires a != [] && b != [] && Sound(m) && m.phase == PayloadState
    requires |a| < m.state.payloadLen - m.state.payloadWritten
    ensures OnePass(m, a).Continue? && OnePass(m, a).rest == []
    ensures SamePass(OnePass(m, a + b), OnePass(OnePass(m, a).m, b))
  {
    var s := m.state;
    var want := s.payloadLen - s.payloadWritten;
    var k := if |a + b| < want then |a + b| else want;
    assert (a + b)[k..] == b[k - |a|..];
  }

  /** The first part of a chunk, and the second part from where the first leaves off, each cost no
      more passes than the whole chunk. */
  lemma {:induction false} SplitCostsLess(m: Machine, a: bytes, b: bytes)
    requires Sound(m)
    ensures Passes(m, a) <= Passes(m, a + b)
    ensures Fold(m, a).error == NoError ==>
              && Sound(Fold(m, a).m)
              && Passes(Fold(m, a).m, b) <= Passes(m, a + b)
    decreases |a|, Rank(m)
  {
    hide OnePass, Sound, Step, Passes;
    FoldKeepsSound(m, a);
    if a == [] {
      assert a + b == b;
      NoBytesNoPasses(m);
    } else if b == [] {
      assert a + b == a;
      if Fold(m, a).error == NoError { NoBytesNoPasses(Fold(m, a).m); }
    } else {
      PassSplit(m, a, b);
      PassesUnfold(m, a);
      PassesUnfold(m, a + b);
      PassIsFold(m, a);
      var pa, p := OnePass(m, a), OnePass(m, a + b);
      if pa.Stop? {
        if p.Stop? { StopIsNotGuard(m, a); }
      } else if p.Continue? && p.m == pa.m && p.rest == pa.rest + b {
        SplitCostsLess(pa.m, pa.rest, b);
      } else {
        assert Fold(m, a).m == pa.m;
        NoBytesNoPasses(pa.m);
        PassesUnfold(pa.m, b);
      }
    }
  }

  lemma NoBytesNoPasses(m: Machine)
    requires Sound(m)
    ensures Fold(m, []).error == NoError && Passes(m, []) == 0
  {
  }

  // ---------- whole frames ----------

  function Pend(m: Machine): nat { if Pending(m) then 1 else 0 }

  /** Four passes a frame, with the pass that notices an empty frame charged to the frame after. */
  function Cost(m: Machine, p: Packet): nat {
    Pend(m) + if p.payload == [] then 3 else 4
  }

  lemma PassesPreamble(m: Machine, n: byte, rest: bytes)
    requires AtBoundary(m)
    ensures var h := Machine(HeaderState, EMPTY.(version := V1, headerLen := n));
            && Sound(m) && Sound(h)
            && Passes(m, [V1, n] + rest) == Pend(m) + 2 + Passes(h, rest)
  {
    hide FinishHeader;
    var b := [V1, n] + rest;
    if Pending(m) { PassesUnfold(m, b); }
    assert b[1..] == [n] + rest && b[1..][1..] == rest;
    PassesUnfold(START, b);
    PassesUnfold(AwaitLength(), b[1..]);
  }

  lemma PassesHeaderOf(p: Packet, rest: bytes)
    requires Sendable(p)
    ensures Sound(AwaitHeader(p)) && Sound(Loaded(p))
    ensures Passes(AwaitHeader(p), LineOf(p) + rest) == 1 + Passes(Loaded(p), rest)
  {
    hide OnePass, HeaderLine, Fold, Passes;
    LoadPass(p, rest);
    PassesUnfold(AwaitHeader(p), LineOf(p) + rest);
  }

  lemma PassesPayloadOf(p: Packet, rest: bytes)
    requires Sendable(p)
    ensures Sound(Loaded(p)) && Sound(Done(p))
    ensures Passes(Loaded(p), p.payload + rest) == (if p.payload == [] then 0 else 1) + Passes(Done(p), rest)
  {
    hide HeaderLine, Fold, Passes;
    var b := p.payload + rest;
    if p.payload == [] {
      assert b == rest;
    } else {
      assert b[|p.payload|..] == rest;
      PassesUnfold(Loaded(p), b);
    }
  }

  lemma PassesFrame(m: Machine, p: Packet, rest: bytes)
    requires Sendable(p) && AtBoundary(m)
    ensures Sound(m) && Sound(Done(p))
    ensures Passes(m, Encoded(p) + rest) == Cost(m, p) + Passes(Done(p), rest)
  {
    hide Fold, Passes, HeaderLine, Sound;
    var line := LineOf(p);
    assert Encoded(p) + rest == [V1, |line|] + (line + (p.payload + rest));
    PassesPreamble(m, |line|, line + (p.payload + rest));
    PassesHeaderOf(p, p.payload + rest);
    PassesPayloadOf(p, rest);
  }

  lemma {:induction false} FoldFrames(m: Machine, ps: seq<Packet>)
    requires AllSendable(ps) && AtBoundary(m)
    ensures Fold(m, Bytes(ps)).error == NoError
    ensures AtBoundary(Fold(m, Bytes(ps)).m)
    decreases |ps|
  {
    if ps != [] {
      hide FinishHeader, HeaderLine;
      FoldFrame(m, ps[0]);
      DoneAtBoundary(ps[0]);
      FoldFrames(Done(ps[0]), ps[1..]);
      FoldAppend(m, Encoded(ps[0]), Bytes(ps[1..]));
    }
  }

  /** The exact price of f whole frames: four passes each, one more if an empty frame was pending
      before them, one less if the last is itself empty. */
  lemma {:induction false} PassesOfFrames(m: Machine, ps: seq<Packet>)
    requires AllSendable(ps) && AtBoundary(m) && ps != []
    ensures Sound(m)
    ensures Passes(m, Bytes(ps)) == 4 * |ps| + Pend(m) - if ps[|ps| - 1].payload == [] then 1 else 0
    decreases |ps|
  {
    hide Fold, Passes, HeaderLine;
    FoldFrames(m, ps);
    PassesFrame(m, ps[0], Bytes(ps[1..]));
    DoneAtBoundary(ps[0]);
    if |ps| == 1 {
      NoBytesNoPasses(Done(ps[0]));
      assert Bytes(ps[1..]) == [];
    } else {
      PassesOfFrames(Done(ps[0]), ps[1..]);
    }
  }

  // ---------- the guard ----------

  /** The guard of a write: a refused chunk never reaches it, and a first version byte is free. */
  lemma WriteGuard(m: Machine, b: bytes)
    requires Sound(m) && b != []
    ensures WriteOutcome(m, b).error == LoopPanic
       <==> Admits(m, b[0])
            && Passes(m, b) - (if m.phase == VersionState then 1 else 0)
               > if Fold(m, b).error == NoError then 20 else 21
  {
    hide OnePass, FinishHeader, Loop;
    if m.phase == VersionState {
      FoldVersion(m, b);
      VersionPass(m, b);
      PassesUnfold(m, b);
      GuardExact(Primed(m, b[0]), b[1..], 0);
    } else {
      GuardExact(m, b, 0);
    }
  }

  lemma VersionPass(m: Machine, b: bytes)
    requires b != [] && m.phase == VersionState
    ensures OnePass(m, b) == Continue(Primed(m, b[0]), b[1..], [])
  {
  }

  /** A chunk of whole frames panics exactly when there are too many of them: from a clean boundary
      six or more; after an empty frame five or more, unless the fifth and last is empty too. */
  lemma WholeFramesGuard(m: Machine, ps: seq<Packet>)
    requires AllSendable(ps) && AtBoundary(m) && ps != []
    ensures WriteOutcome(m, Bytes(ps)).error == LoopPanic
       <==> |ps| >= if Pending(m) && ps[|ps| - 1].payload != [] then 5 else 6
    ensures WriteOutcome(m, Bytes(ps)).error in {NoError, LoopPanic}
  {
    hide Fold, Passes, WriteOutcome, HeaderLine;
    PassesOfFrames(m, ps);
    FoldFrames(m, ps);
    BytesNotEmpty(ps);
    WriteGuard(m, Bytes(ps));
    WriteIsFold(m, Bytes(ps));
  }

  /** Any chunk that holds six whole frames in a row panics, whatever comes before and after them,
      unless its first byte gets it refused. */
  lemma SixFramesPanic(m: Machine, a: bytes, ps: seq<Packet>, d: bytes)
    requires Sound(m) && AllSendable(ps) && |ps| >= 6
    requires Fold(m, a).error == NoError && AtBoundary(Fold(m, a).m)
    ensures var b := a + (Bytes(ps) + d);
            b != [] && WriteOutcome(m, b).error == if Admits(m, b[0]) then LoopPanic else BadVersion
  {
    hide Fold, Passes, WriteOutcome, HeaderLine, Bytes, Sound, AtBoundary, Admits;
    var b, m1 := a + (Bytes(ps) + d), Fold(m, a).m;
    BytesNotEmpty(ps);
    PassesOfFrames(m1, ps);
    SplitCostsLess(m1, Bytes(ps), d);
    SplitCostsLess(m, a, Bytes(ps) + d);
    WriteGuard(m, b);
    WriteIsFold(m, b);
  }

  lemma BytesNotEmpty(ps: seq<Packet>)
    ensures Bytes(ps) == [] <==> ps == []
  {
  }

  lemma TouchedPasses(m: Machine, ps: seq<Packet>, a: bytes, c: bytes, d: bytes)
    requires AllSendable(ps) && AtBoundary(m) && Bytes(ps) == a + (c + d) && ps != []
    ensures var f := Fold(m, a);
            && f.error == NoError && Sound(f.m) && Fold(f.m, c).error == NoError
            && Passes(f.m, c) <= 4 * |ps| + if a == [] then Pend(m) else 0
  {
    hide Fold, Passes, HeaderLine, OnePass, Bytes, Sound, Pending;
    FoldFrames(m, ps);
    PassesOfFrames(m, ps);
    var m0 := m;
    if a != [] && Pending(m) {
      ChargeLate(m, a, c + d);
      m0 := START;
    }
    FoldAppend(m, a, c + d);
    FoldAppend(Fold(m, a).m, c, d);
    SplitCostsLess(m0, a, c + d);
    SplitCostsLess(Fold(m, a).m, c, d);
  }

  /** A chunk that touches at most five well-formed frames never panics, wherever it starts and ends,
      unless it starts exactly where an empty frame ended; with at most four frames it never does. */
  lemma GuardUnreachable(m: Machine, ps: seq<Packet>, a: bytes, c: bytes, d: bytes)
    requires AllSendable(ps) && AtBoundary(m) && Bytes(ps) == a + (c + d) && c != []
    requires |ps| <= 4 || (|ps| == 5 && !(a == [] && Pending(m)))
    ensures var f := Fold(m, a);
            && f.error == NoError && Sound(f.m) && Fold(f.m, c).error == NoError
            && WriteOutcome(f.m, c).error == NoError
  {
    hide Fold, Passes, WriteOutcome, HeaderLine, Sound, NeverRefused, Admits, Bytes, AtBoundary, Pending;
    BytesNotEmpty(ps);
    TouchedPasses(m, ps, a, c, d);
    BytesNeverRefused(m, ps);
    NeverRefusedAppend(m, a, c + d);
    NeverRefusedAppend(Fold(m, a).m, c, d);
    FirstAdmitted(Fold(m, a).m, c);
    WriteGuard(Fold(m, a).m, c);
    WriteIsFold(Fold(m, a).m, c);
  }

  /** The pass that notices an empty frame belongs to the first byte after it. */
  lemma ChargeLate(m: Machine, a: bytes, b: bytes)
    requires Pending(m) && Sound(m) && a != []
    ensures Sound(START)
    ensures Passes(m, a + b) == 1 + Passes(START, a + b)
    ensures Fold(m, a).m == Fold(START, a).m && Fold(m, a).error == Fold(START, a).error
  {
    hide FinishHeader, HeaderPass, StepReady;
    PassesUnfold(m, a + b);
    assert (a + b)[0] == a[0];
  }

  lemma LoadPass(p: Packet, tail: bytes)
    requires Sendable(p)
    ensures LineOf(p) != []
    ensures var q := OnePass(AwaitHeader(p), LineOf(p) + tail); q.Continue? && q.m == Loaded(p) && q.rest == tail
  {
    hide HeaderLine, FinishHeader;
    LineNotEmpty(p);
    var line := LineOf(p);
    var b := line + tail;
    assert b[..|line|] == line && b[|line|..] == tail && [] + line == line;
    HeaderOfPacket(p, Machine(HeaderState, EMPTY.(version := V1, headerLen := |line|, header := line)));
  }
}
